/**
 The environment algebra: reading, selecting, merging and digesting a list of
 `NAME=value` entries.
 */
module Environment {
  import opened Text

  type Env = map<string, string>

  const NUL: char := '\0'

  function EntryName(entry: string): string { Before(entry, '=') }
  function EntryValue(entry: string): string { After(entry, '=') }
  function Entry(name: string, value: string): string { name + ['='] + value }

  /** The names Docker's NAME=value form can carry without ambiguity. */
  predicate Representable(name: string) { name != "" && '=' !in name }

  ghost predicate AllRepresentable(names: set<string>) {
    forall name :: name in names ==> Representable(name)
  }

  ghost predicate EqualsFree(names: set<string>) {
    forall name :: name in names ==> '=' !in name
  }

  lemma EntryRoundTrip(name: string, value: string)
    requires '=' !in name
    ensures EntryName(Entry(name, value)) == name
    ensures EntryValue(Entry(name, value)) == value
  {
    CutJoined(name, '=', value);
  }

  /** An entry is cut at its first equals sign; without one it is a name with an empty value. */
  lemma EntryParts(entry: string)
    ensures '=' in entry ==> entry == EntryName(entry) + "=" + EntryValue(entry) && '=' !in EntryName(entry)
    ensures '=' !in entry ==> EntryName(entry) == entry && EntryValue(entry) == ""
  {
    CutParts(entry, '=');
  }

  function Members(names: seq<string>): set<string> { set name | name in names }

  // ---------------------------------------------------------------------
  // What a list of entries means
  // ---------------------------------------------------------------------

  /** Docker's reading of the list: a later entry overrides an earlier one. */
  function Meaning(entries: seq<string>): Env {
    if entries == [] then map[]
    else
      var last := entries[|entries| - 1];
      Meaning(entries[..|entries| - 1])[EntryName(last) := EntryValue(last)]
  }

  /** The meaning without recursion: a name has the value of its last entry. */
  lemma {:induction false} LastEntryWins(entries: seq<string>, name: string)
    ensures name in Meaning(entries) <==> exists i :: 0 <= i < |entries| && EntryName(entries[i]) == name
    ensures forall i :: 0 <= i < |entries| && EntryName(entries[i]) == name
                        && (forall j :: i < j < |entries| ==> EntryName(entries[j]) != name)
                        ==> name in Meaning(entries) && Meaning(entries)[name] == EntryValue(entries[i])
  {
    if entries != [] {
      var init := entries[..|entries| - 1];
      assert forall i :: 0 <= i < |init| ==> init[i] == entries[i];
      LastEntryWins(init, name);
      if EntryName(entries[|entries| - 1]) != name && name in Meaning(init) {
        var i :| 0 <= i < |init| && EntryName(init[i]) == name;
        assert EntryName(entries[i]) == name;
      }
    }
  }

  lemma {:induction false} MeaningOfConcat(a: seq<string>, b: seq<string>)
    ensures Meaning(a + b) == Meaning(a) + Meaning(b)
  {
    if b == [] {
      assert a + b == a;
    } else {
      assert (a + b)[..|a + b| - 1] == a + b[..|b| - 1];
      MeaningOfConcat(a, b[..|b| - 1]);
    }
  }

  // ---------------------------------------------------------------------
  // Dropping entries by name
  // ---------------------------------------------------------------------

  /** The entries whose name is not in `names`, in order and as spelled. */
  function Without(entries: seq<string>, names: set<string>): seq<string> {
    if entries == [] then []
    else
      var last := entries[|entries| - 1];
      Without(entries[..|entries| - 1], names) + if EntryName(last) in names then [] else [last]
  }

  /** Exactly the other entries are kept, each where it was. */
  lemma {:induction false} WithoutExactly(entries: seq<string>, names: set<string>) returns (picked: seq<nat>)
    ensures Picks(entries, Without(entries, names), picked)
    ensures forall i: nat :: i in picked <==> i < |entries| && EntryName(entries[i]) !in names
  {
    hide EntryName, Picks;
    if entries == [] {
      picked := [];
      NothingPicked();
    } else {
      var last := |entries| - 1;
      var init := WithoutExactly(entries[..last], names);
      if EntryName(entries[last]) in names {
        PicksSkip(entries, Without(entries[..last], names), init);
        assert Without(entries, names) == Without(entries[..last], names);
        picked := init;
      } else {
        PicksTake(entries, Without(entries[..last], names), init);
        picked := init + [last];
      }
      forall i: nat ensures i in picked <==> i < |entries| && EntryName(entries[i]) !in names {
        assert i < last ==> entries[..last][i] == entries[i];
      }
    }
  }

  lemma {:induction false} WithoutConcat(a: seq<string>, b: seq<string>, names: set<string>)
    ensures Without(a + b, names) == Without(a, names) + Without(b, names)
  {
    if b == [] {
      assert a + b == a;
    } else {
      assert (a + b)[..|a + b| - 1] == a + b[..|b| - 1];
      WithoutConcat(a, b[..|b| - 1], names);
    }
  }

  lemma {:induction false} WithoutTwice(entries: seq<string>, a: set<string>, b: set<string>)
    ensures Without(Without(entries, a), b) == Without(entries, a + b)
  {
    if entries != [] {
      var init, last := entries[..|entries| - 1], entries[|entries| - 1];
      WithoutTwice(init, a, b);
      WithoutConcat(Without(init, a), [last], b);
      if EntryName(last) in a {
        assert Without(entries, a) == Without(init, a);
      }
    }
  }

  lemma {:induction false} WithoutAbsent(entries: seq<string>, names: set<string>)
    requires forall e :: e in entries ==> EntryName(e) !in names
    ensures Without(entries, names) == entries
  {
    hide EntryName;
    if entries != [] {
      var init, last := entries[..|entries| - 1], entries[|entries| - 1];
      InitMembers(entries);
      WithoutAbsent(init, names);
    }
  }

  lemma {:induction false} WithoutPresent(entries: seq<string>, names: set<string>)
    requires forall e :: e in entries ==> EntryName(e) in names
    ensures Without(entries, names) == []
  {
    hide EntryName;
    if entries != [] {
      var init, last := entries[..|entries| - 1], entries[|entries| - 1];
      InitMembers(entries);
      WithoutPresent(init, names);
    }
  }

  lemma MeaningOfOneMore(entries: seq<string>, last: string)
    ensures Meaning(entries + [last]) == Meaning(entries)[EntryName(last) := EntryValue(last)]
  {
    assert (entries + [last])[..|entries|] == entries;
  }

  lemma {:induction false} MeaningOfWithout(entries: seq<string>, names: set<string>)
    ensures Meaning(Without(entries, names)) == Meaning(entries) - names
  {
    if entries != [] {
      var init, last := entries[..|entries| - 1], entries[|entries| - 1];
      MeaningOfWithout(init, names);
      MeaningOfOneMore(Without(init, names), last);
      DropAfterUpdate(Meaning(init), EntryName(last), EntryValue(last), names);
      assert Without(init, names) + [] == Without(init, names);
    }
  }

  lemma DropAfterUpdate(base: Env, name: string, value: string, dropped: set<string>)
    ensures base[name := value] - dropped
            == if name in dropped then base - dropped else (base - dropped)[name := value]
  {
  }

  /** Dropping the names about to be set makes no difference to an override. */
  lemma OverrideAfterDrop(base: Env, dropped: set<string>, values: Env)
    ensures (base - (dropped + values.Keys)) + values == (base - dropped) + values
  {
  }

  // ---------------------------------------------------------------------
  // The managed tail
  // ---------------------------------------------------------------------

  function Tail(names: seq<string>, values: Env): (r: seq<string>)
    requires forall name :: name in names ==> name in values
    ensures |r| == |names|
    ensures forall i :: 0 <= i < |names| ==> r[i] == Entry(names[i], values[names[i]])
  {
    if names == [] then []
    else
      var last := names[|names| - 1];
      Tail(names[..|names| - 1], values) + [Entry(last, values[last])]
  }

  lemma {:induction false} MeaningOfTail(names: seq<string>, values: Env)
    requires forall name :: name in names ==> name in values && '=' !in name
    ensures Meaning(Tail(names, values)) == map name | name in names :: values[name]
  {
    if names != [] {
      var init, last := names[..|names| - 1], names[|names| - 1];
      assert names == init + [last];
      MeaningOfTail(init, values);
      EntryRoundTrip(last, values[last]);
      assert Tail(names, values)[..|names| - 1] == Tail(init, values);
    }
  }

  lemma TailNames(names: seq<string>, values: Env)
    requires forall name :: name in names ==> name in values && '=' !in name
    ensures forall i :: 0 <= i < |names| ==> EntryName(Tail(names, values)[i]) == names[i]
    ensures forall e :: e in Tail(names, values) ==> EntryName(e) in names
  {
    forall i | 0 <= i < |names| ensures EntryName(Tail(names, values)[i]) == names[i] {
      EntryRoundTrip(names[i], values[names[i]]);
    }
  }

  ghost function ManagedTail(values: Env): seq<string> {
    Tail(SortedNames(values.Keys), values)
  }

  lemma MeaningOfManagedTail(values: Env)
    requires EqualsFree(values.Keys)
    ensures Meaning(ManagedTail(values)) == values
  {
    MeaningOfTail(SortedNames(values.Keys), values);
    ListedValues(SortedNames(values.Keys), values);
  }

  lemma ListedValues(names: seq<string>, values: Env)
    requires forall name :: name in names <==> name in values
    ensures (map name | name in names :: values[name]) == values
  {
  }

  /** The list that replaces `entries` when `values` are installed over `managed`. */
  ghost function Merged(entries: seq<string>, managed: set<string>, values: Env): seq<string> {
    Without(entries, managed + values.Keys) + ManagedTail(values)
  }

  /** The names of `names` that have a value, with that value. */
  function Selected(entries: seq<string>, names: set<string>): Env {
    map name | name in names && name in Meaning(entries) :: Meaning(entries)[name]
  }

  // ---------------------------------------------------------------------
  // The operations, as the program computes them
  // ---------------------------------------------------------------------

  lemma TakeOneMore<T>(s: seq<T>, i: nat)
    requires i < |s|
    ensures s[..i + 1] == s[..i] + [s[i]]
    ensures s[..i + 1][..i] == s[..i]
  {
  }

  method AsMap(entries: seq<string>) returns (result: Env)
    ensures result == Meaning(entries)
  {
    result := map[];
    for i := 0 to |entries|
      invariant result == Meaning(entries[..i])
    {
      TakeOneMore(entries, i);
      var name, value := Before(entries[i], '='), After(entries[i], '=');
      result := result[name := value];
    }
    assert entries[..|entries|] == entries;
  }

  lemma SelectedOneMore(entries: seq<string>, names: seq<string>, name: string)
    ensures Selected(entries, Members(names + [name]))
            == if name in Meaning(entries)
               then Selected(entries, Members(names))[name := Meaning(entries)[name]]
               else Selected(entries, Members(names))
  {
  }

  method Select(entries: seq<string>, names: seq<string>) returns (result: Env)
    ensures result == Selected(entries, Members(names))
  {
    var all := AsMap(entries);
    result := map[];
    for i := 0 to |names|
      invariant result == Selected(entries, Members(names[..i]))
    {
      SelectedOneMore(entries, names[..i], names[i]);
      TakeOneMore(names, i);
      if names[i] in all {
        result := result[names[i] := all[names[i]]];
      }
    }
    assert names[..|names|] == names;
  }

  /** The names an injection takes over: those it managed before and those it installs. */
  method ManagedNames(previouslyManaged: seq<string>, desired: Env) returns (managed: set<string>)
    ensures managed == Members(previouslyManaged) + desired.Keys
  {
    managed := {};
    for i := 0 to |previouslyManaged|
      invariant managed == Members(previouslyManaged[..i])
    {
      TakeOneMore(previouslyManaged, i);
      managed := managed + {previouslyManaged[i]};
    }
    assert previouslyManaged[..|previouslyManaged|] == previouslyManaged;
    var rest := desired.Keys;
    while rest != {}
      invariant rest <= desired.Keys
      invariant managed == Members(previouslyManaged) + (desired.Keys - rest)
    {
      var name :| name in rest;
      managed := managed + {name};
      rest := rest - {name};
    }
  }

  method Merge(entries: seq<string>, previouslyManaged: seq<string>, desired: Env) returns (result: seq<string>)
    ensures result == Merged(entries, Members(previouslyManaged), desired)
  {
    var managed := ManagedNames(previouslyManaged, desired);
    result := [];
    for i := 0 to |entries|
      invariant result == Without(entries[..i], managed)
    {
      TakeOneMore(entries, i);
      if Before(entries[i], '=') !in managed {
        result := result + [entries[i]];
      }
    }
    assert entries[..|entries|] == entries;
    result := AppendTail(result, desired);
  }

  /** Appends the desired entries in the byte order of their names. */
  method AppendTail(kept: seq<string>, desired: Env) returns (result: seq<string>)
    ensures result == kept + ManagedTail(desired)
  {
    var names := SortedKeys(desired);
    hide *;
    result := kept;
    ghost var tail := [];
    for i := 0 to |names|
      invariant result == kept + tail && |tail| == i
      invariant forall j :: 0 <= j < i ==> tail[j] == Entry(names[j], desired[names[j]])
    {
      var entry := Entry(names[i], desired[names[i]]);
      result, tail := result + [entry], tail + [entry];
    }
    TailIs(tail, names, desired);
  }

  lemma TailIs(tail: seq<string>, names: seq<string>, values: Env)
    requires |tail| == |names| && names == SortedNames(values.Keys)
    requires forall i :: 0 <= i < |names| ==> tail[i] == Entry(names[i], values[names[i]])
    ensures tail == ManagedTail(values)
  {
  }

  method Remove(entries: seq<string>, names: seq<string>) returns (result: seq<string>)
    ensures result == Without(entries, Members(names))
  {
    result := Merge(entries, names, map[]);
    assert Members(names) + {} == Members(names);
  }

  // ---------------------------------------------------------------------
  // The algebra of Merge
  // ---------------------------------------------------------------------

  /**
   Installing `values` over `managed` means exactly "forget the managed names,
   then set the values" - for those values that NAME=value can express, and for
   no others.
   */
  lemma MergeMeans(entries: seq<string>, managed: set<string>, values: Env)
    ensures Meaning(Merged(entries, managed, values)) == (Meaning(entries) - managed) + values
            <==> EqualsFree(values.Keys)
  {
    if EqualsFree(values.Keys) {
      MergeMeansForgetAndSet(entries, managed, values);
    } else {
      var bad :| bad in values.Keys && '=' in bad;
      MeaningNamesAreEqualsFree(Merged(entries, managed, values));
      assert bad in (Meaning(entries) - managed) + values;
    }
  }

  lemma MergeMeansForgetAndSet(entries: seq<string>, managed: set<string>, values: Env)
    requires EqualsFree(values.Keys)
    ensures Meaning(Merged(entries, managed, values)) == (Meaning(entries) - managed) + values
  {
    MeaningOfConcat(Without(entries, managed + values.Keys), ManagedTail(values));
    MeaningOfWithout(entries, managed + values.Keys);
    MeaningOfManagedTail(values);
    OverrideAfterDrop(Meaning(entries), managed, values);
  }

  lemma {:induction false} MeaningNamesAreEqualsFree(entries: seq<string>)
    ensures EqualsFree(Meaning(entries).Keys)
  {
    if entries != [] {
      CutParts(entries[|entries| - 1], '=');
      MeaningNamesAreEqualsFree(entries[..|entries| - 1]);
    }
  }

  /** Reading back the installed names gives the installed values. */
  lemma SelectAfterMerge(entries: seq<string>, managed: set<string>, values: Env)
    requires EqualsFree(values.Keys)
    ensures Selected(Merged(entries, managed, values), values.Keys) == values
  {
    MergeMeansForgetAndSet(entries, managed, values);
  }

  /** A requested name is selected exactly when some entry has it, with the value of the last such entry. */
  lemma SelectedExactly(entries: seq<string>, names: set<string>, name: string)
    ensures name in Selected(entries, names)
            <==> name in names && exists i :: 0 <= i < |entries| && EntryName(entries[i]) == name
    ensures forall i :: 0 <= i < |entries| && EntryName(entries[i]) == name && name in names
                        && (forall j :: i < j < |entries| ==> EntryName(entries[j]) != name)
                        ==> name in Selected(entries, names) && Selected(entries, names)[name] == EntryValue(entries[i])
  {
    hide EntryName, EntryValue, Meaning;
    LastEntryWins(entries, name);
  }

  lemma SelectFromMerge(entries: seq<string>, names: set<string>, values: Env)
    requires EqualsFree(values.Keys) && values.Keys <= names
    ensures Selected(Merged(entries, names, values), names) == values
  {
    MergeMeansForgetAndSet(entries, names, values);
  }

  lemma OverrideBySelection(base: Env, values: Env)
    requires (map name | name in values.Keys && name in base :: base[name]) == values
    ensures (base - values.Keys) + values == base
  {
    var selected := map name | name in values.Keys && name in base :: base[name];
    forall name | name in values ensures name in base && base[name] == values[name] {
      assert name in selected;
    }
  }

  /** If the managed names already have these values, installing them changes no meaning. */
  lemma MergeOfCurrentValues(entries: seq<string>, values: Env)
    requires EqualsFree(values.Keys)
    requires Selected(entries, values.Keys) == values
    ensures Meaning(Merged(entries, values.Keys, values)) == Meaning(entries)
  {
    MergeMeansForgetAndSet(entries, values.Keys, values);
    OverrideBySelection(Meaning(entries), values);
  }

  /** Each installed name has one entry, in the strictly sorted tail of the list. */
  lemma MergedNamesOccurOnce(entries: seq<string>, managed: set<string>, values: Env, i: nat)
    requires EqualsFree(values.Keys)
    requires i < |Merged(entries, managed, values)|
    ensures var merged := Merged(entries, managed, values);
            var tail := |merged| - |values.Keys|;
            && 0 <= tail
            && (EntryName(merged[i]) in values <==> tail <= i)
            && forall j :: i < j < |merged| && tail <= i ==> Precedes(EntryName(merged[i]), EntryName(merged[j]))
  {
    var names, kept := SortedNames(values.Keys), Without(entries, managed + values.Keys);
    SortedNamesLength(values.Keys);
    TailNames(names, values);
    if i < |kept| {
      assert kept[i] in kept;
      WithoutDropsNames(entries, managed + values.Keys);
    } else {
      SortedNamesOrder(values.Keys);
      assert names[i - |kept|] in names;
    }
  }

  lemma SortedNamesLength(names: set<string>)
    ensures |SortedNames(names)| == |names|
  {
    SortedNamesOrder(names);
    DistinctLength(SortedNames(names), names);
  }

  lemma {:induction false} DistinctLength(xs: seq<string>, names: set<string>)
    requires Distinct(xs)
    requires forall x :: x in xs <==> x in names
    ensures |xs| == |names|
  {
    if xs == [] {
      assert names == {};
    } else {
      assert xs[0] in names;
      assert xs == [xs[0]] + xs[1..];
      DistinctLength(xs[1..], names - {xs[0]});
    }
  }

  lemma {:induction false} WithoutDropsNames(entries: seq<string>, names: set<string>)
    ensures forall e :: e in Without(entries, names) ==> e in entries && EntryName(e) !in names
  {
    if entries != [] {
      WithoutDropsNames(entries[..|entries| - 1], names);
    }
  }

  /** Dropping the installed names, and perhaps more, drops the whole tail. */
  lemma WithoutOfMerged(entries: seq<string>, managed: set<string>, values: Env, drop: set<string>)
    requires EqualsFree(values.Keys) && values.Keys <= drop
    ensures Without(Merged(entries, managed, values), drop) == Without(entries, managed + drop)
  {
    ManagedTailNames(values);
    WithoutDropsTail(entries, managed + values.Keys, ManagedTail(values), drop);
    UnionAbsorbs(managed, values.Keys, drop);
  }

  lemma UnionAbsorbs(a: set<string>, b: set<string>, c: set<string>)
    requires b <= c
    ensures a + b + c == a + c
  {
  }

  lemma UnionAssociates(a: set<string>, b: set<string>, c: set<string>)
    ensures a + (b + c) == a + b + c
  {
  }

  lemma ManagedTailNames(values: Env)
    requires EqualsFree(values.Keys)
    ensures forall e :: e in ManagedTail(values) ==> EntryName(e) in values
  {
    TailNames(SortedNames(values.Keys), values);
  }

  lemma WithoutDropsTail(entries: seq<string>, a: set<string>, tail: seq<string>, b: set<string>)
    requires forall e :: e in tail ==> EntryName(e) in b
    ensures Without(Without(entries, a) + tail, b) == Without(entries, a + b)
  {
    WithoutConcat(Without(entries, a), tail, b);
    WithoutTwice(entries, a, b);
    WithoutPresent(tail, b);
  }

  /** Every entry that is not managed survives: same order, spelling and multiplicity. */
  lemma MergeKeepsTheRest(entries: seq<string>, managed: set<string>, values: Env)
    requires EqualsFree(values.Keys)
    ensures Without(Merged(entries, managed, values), managed + values.Keys)
            == Without(entries, managed + values.Keys)
  {
    WithoutOfMerged(entries, managed, values, managed + values.Keys);
    UnionAssociates(managed, managed, values.Keys);
    assert managed + managed == managed;
  }

  /** A second injection undoes the first one's tail: lists, not just meanings. */
  lemma MergeTwice(entries: seq<string>, managed: set<string>, first: Env, second: Env)
    requires EqualsFree(first.Keys)
    ensures Merged(Merged(entries, managed, first), first.Keys, second)
            == Merged(entries, managed + first.Keys, second)
  {
    WithoutOfMerged(entries, managed, first, first.Keys + second.Keys);
    UnionAssociates(managed, first.Keys, second.Keys);
  }

  /** Removing what was installed leaves only the entries that were never managed. */
  lemma RemoveAfterMerge(entries: seq<string>, managed: set<string>, values: Env)
    requires EqualsFree(values.Keys)
    ensures Without(Merged(entries, managed, values), values.Keys) == Without(entries, managed + values.Keys)
  {
    WithoutOfMerged(entries, managed, values, values.Keys);
  }

  // ---------------------------------------------------------------------
  // The drift digest
  // ---------------------------------------------------------------------

  /** The bytes hashed for these names: name NUL value NUL, one pair after another. */
  function EncodePairs(names: seq<string>, values: Env): string
    requires forall name :: name in names ==> name in values
  {
    if names == [] then ""
    else names[0] + [NUL] + (values[names[0]] + [NUL] + EncodePairs(names[1..], values))
  }

  ghost function Encoded(values: Env): string {
    EncodePairs(SortedNames(values.Keys), values)
  }

  lemma {:induction false} EncodeOneMore(names: seq<string>, name: string, values: Env)
    requires forall n :: n in names + [name] ==> n in values
    ensures EncodePairs(names + [name], values)
            == EncodePairs(names, values) + (name + [NUL] + (values[name] + [NUL]))
  {
    if names == [] {
      assert [] + [name] == [name] && [name][1..] == [];
      assert EncodePairs([name], values) == name + [NUL] + (values[name] + [NUL] + "");
    } else {
      var first, last := names[0], name + [NUL] + (values[name] + [NUL]);
      assert (names + [name])[1..] == names[1..] + [name];
      EncodeOneMore(names[1..], name, values);
      Reassociate(first + [NUL], values[first] + [NUL], EncodePairs(names[1..], values), last);
    }
  }

  lemma Reassociate(a: string, b: string, c: string, d: string)
    ensures a + (b + (c + d)) == (a + (b + c)) + d
  {
  }

  lemma FourWrites(bytes: string, name: string, value: string)
    ensures bytes + name + [NUL] + value + [NUL] == bytes + (name + [NUL] + (value + [NUL]))
  {
  }

  /** The bytes, name by name: the smallest name comes first, and each text ends with a NUL. */
  lemma EncodedExactly(values: Env, first: string)
    ensures Encoded(map[]) == ""
    ensures first in values && (forall name :: name in values ==> name == first || Precedes(first, name)) ==>
              Encoded(values) == first + "\0" + values[first] + "\0" + Encoded(values - {first})
  {
    hide Precedes;
    assert SortedNames({}) == [] by {
      assert forall name :: name !in SortedNames({});
    }
    if first in values && forall name :: name in values ==> name == first || Precedes(first, name) {
      var rest := values - {first};
      var names := SortedNames(rest.Keys);
      SmallestFirst(values.Keys, first);
      EncodeFirst(first, names, values);
      EncodeAgrees(names, values, rest);
      Regrouped(first, values[first], Encoded(rest));
    }
  }

  lemma Regrouped(name: string, value: string, more: string)
    ensures name + [NUL] + (value + [NUL] + more) == name + "\0" + value + "\0" + more
  {
  }

  lemma SmallestFirst(names: set<string>, first: string)
    requires first in names && forall name :: name in names ==> name == first || Precedes(first, name)
    ensures SortedNames(names) == [first] + SortedNames(names - {first})
  {
    hide Precedes, SortedNames;
    var rest := SortedNames(names - {first});
    SortedNamesOrder(names - {first});
    SmallestLeads(rest, first);
    assert forall x :: x in [first] + rest <==> x in names by {
      FirstOrRest(names, first);
    }
    SortedNamesIsUnique([first] + rest, names);
  }

  lemma SmallestLeads(rest: seq<string>, first: string)
    requires StrictlySorted(rest) && forall name :: name in rest ==> Precedes(first, name)
    ensures StrictlySorted([first] + rest)
  {
    hide Precedes;
    forall j | 0 <= j < |rest| ensures Precedes(first, rest[j]) {
      assert rest[j] in rest;
    }
  }

  lemma FirstOrRest(names: set<string>, first: string)
    requires first in names
    ensures forall x :: x in [first] + SortedNames(names - {first}) <==> x in names
  {
    hide SortedNames;
  }

  lemma NoPairs(values: Env)
    ensures EncodePairs([], values) == ""
  {
  }

  lemma EncodedIs(names: seq<string>, values: Env)
    requires names == SortedNames(values.Keys)
    ensures EncodePairs(names, values) == Encoded(values)
  {
  }

  method Hash(digest: string -> string, values: Env) returns (r: string)
    ensures r == digest(Encoded(values))
  {
    hide *;
    var names := SortedKeys(values);
    var hasher := "";
    NoPairs(values);
    for i := 0 to |names|
      invariant hasher == EncodePairs(names[..i], values)
    {
      TakeOneMore(names, i);
      EncodeOneMore(names[..i], names[i], values);
      FourWrites(hasher, names[i], values[names[i]]);
      hasher := hasher + names[i];
      hasher := hasher + [NUL];
      hasher := hasher + values[names[i]];
      hasher := hasher + [NUL];
    }
    AllMembers(names);
    EncodedIs(names, values);
    r := digest(hasher);
  }

  ghost predicate NulFree(values: Env) {
    forall name :: name in values ==> NUL !in name && NUL !in values[name]
  }

  /** Reads the pairs back from the hashed bytes. */
  function Decode(bytes: string): Env
    decreases |bytes|
  {
    if NUL in bytes && NUL in After(bytes, NUL) then
      CutParts(bytes, NUL);
      CutParts(After(bytes, NUL), NUL);
      var rest := After(bytes, NUL);
      Decode(After(rest, NUL))[Before(bytes, NUL) := Before(rest, NUL)]
    else
      map[]
  }

  lemma {:induction false} DecodePairs(names: seq<string>, values: Env)
    requires forall name :: name in names ==> name in values
    requires NulFree(values) && Distinct(names)
    ensures Decode(EncodePairs(names, values)) == map name | name in names :: values[name]
  {
    if names != [] {
      var name, more := names[0], EncodePairs(names[1..], values);
      assert names == [name] + names[1..];
      CutJoined(name, NUL, values[name] + [NUL] + more);
      CutJoined(values[name], NUL, more);
      DecodePairs(names[1..], values);
    }
  }

  lemma DecodeInvertsEncoded(values: Env)
    requires NulFree(values)
    ensures Decode(Encoded(values)) == values
  {
    SortedNamesOrder(values.Keys);
    DecodePairs(SortedNames(values.Keys), values);
  }

  /** Equal digests mean equal values, once digests do not collide. */
  lemma DigestDeterminesValues(a: Env, b: Env)
    requires NulFree(a) && NulFree(b) && Encoded(a) == Encoded(b)
    ensures a == b
  {
    DecodeInvertsEncoded(a);
    DecodeInvertsEncoded(b);
  }

  /**
   Without the NUL condition the check is blind exactly to services with two or
   more managed names: some other selection of those names has the same bytes.
   */
  lemma DigestBlindSpot(values: Env)
    ensures (forall other: Env :: other.Keys <= values.Keys && Encoded(other) == Encoded(values) ==> other == values)
            <==> |values.Keys| <= 1
  {
    var names := SortedNames(values.Keys);
    SortedNamesLength(values.Keys);
    if |names| >= 2 {
      var other := Folded(values);
      FoldedCollides(values);
      assert other.Keys <= values.Keys && Encoded(other) == Encoded(values) && other != values;
    } else {
      forall other: Env | other.Keys <= values.Keys && Encoded(other) == Encoded(values) ensures other == values {
        SmallSelectionDetermined(values, other);
      }
    }
  }

  lemma SmallSelectionDetermined(values: Env, other: Env)
    requires |values.Keys| <= 1 && other.Keys <= values.Keys && Encoded(other) == Encoded(values)
    ensures other == values
  {
    if name :| name in values.Keys {
      OnlyMember(values.Keys, name);
      SingletonEncoding(name, values);
      if name in other {
        OnlyMember(other.Keys, name);
        SingletonDetermined(name, values, other);
      } else {
        NoNamesNoBytes(other);
      }
    }
  }

  lemma OnlyMember(names: set<string>, name: string)
    requires name in names && (|names| <= 1 || forall x :: x in names ==> x == name)
    ensures names == {name}
  {
    assert names == {name} + (names - {name});
  }

  lemma NoNamesNoBytes(values: Env)
    requires forall name :: name !in values
    ensures Encoded(values) == ""
  {
    if SortedNames(values.Keys) != [] {
      assert SortedNames(values.Keys)[0] !in values.Keys;
    }
  }

  lemma SingletonDetermined(name: string, a: Env, b: Env)
    requires a.Keys == b.Keys == {name} && Encoded(a) == Encoded(b)
    ensures a == b
  {
    SingletonEncoding(name, a);
    SingletonEncoding(name, b);
    SameTail(name + [NUL], a[name], b[name]);
  }

  lemma SameTail(head: string, a: string, b: string)
    requires head + (a + [NUL]) == head + (b + [NUL])
    ensures a == b
  {
    assert (head + (a + [NUL]))[|head|..][..|a|] == a;
    assert (head + (b + [NUL]))[|head|..][..|b|] == b;
  }

  lemma SingletonNames(name: string)
    ensures SortedNames({name}) == [name]
  {
    SortedNamesIsUnique([name], {name});
  }

  lemma SingletonEncoding(name: string, values: Env)
    requires values.Keys == {name}
    ensures Encoded(values) == (name + [NUL]) + (values[name] + [NUL])
  {
    SingletonNames(name);
    assert [name][1..] == [];
    assert EncodePairs([name], values) == name + [NUL] + (values[name] + [NUL] + "");
  }

  /** Hides the second name inside the value of the first. */
  ghost function Folded(values: Env): Env
    requires |SortedNames(values.Keys)| >= 2
  {
    var names := SortedNames(values.Keys);
    (values - {names[1]})[names[0] := values[names[0]] + [NUL] + names[1] + [NUL] + values[names[1]]]
  }

  lemma FoldedMembers(values: Env, x: string)
    requires |SortedNames(values.Keys)| >= 2
    ensures var names := SortedNames(values.Keys);
            x in [names[0]] + names[2..] <==> x in Folded(values).Keys
  {
    var names := SortedNames(values.Keys);
    SortedNamesDistinct(values.Keys);
    AfterFirstTwo(names, x);
    assert x in names <==> x in values.Keys;
  }

  lemma FoldedNames(values: Env)
    requires |SortedNames(values.Keys)| >= 2
    ensures var names := SortedNames(values.Keys);
            SortedNames(Folded(values).Keys) == [names[0]] + names[2..]
  {
    var names := SortedNames(values.Keys);
    var others := [names[0]] + names[2..];
    SortedNamesOrder(values.Keys);
    forall x ensures x in others <==> x in Folded(values).Keys {
      FoldedMembers(values, x);
    }
    SortedNamesIsUnique(others, Folded(values).Keys);
  }

  lemma AfterFirstTwo(names: seq<string>, x: string)
    requires |names| >= 2 && Distinct(names)
    ensures x in names[2..] <==> x in names && x != names[0] && x != names[1]
  {
    assert names == [names[0], names[1]] + names[2..];
    if x in names[2..] {
      var i :| 2 <= i < |names| && names[i] == x;
    }
  }

  lemma FoldedCollides(values: Env)
    requires |SortedNames(values.Keys)| >= 2
    ensures Folded(values).Keys < values.Keys && Encoded(Folded(values)) == Encoded(values)
  {
    var names, other := SortedNames(values.Keys), Folded(values);
    FoldedNames(values);
    SortedNamesDistinct(values.Keys);
    assert names[1] in values.Keys && names[1] !in other.Keys;
    forall x | x in names[2..] ensures x in other && other[x] == values[x] {
      AfterFirstTwo(names, x);
    }
    EncodeAgrees(names[2..], values, other);
    EncodeTwoMore(names, values);
    EncodeFirst(names[0], names[2..], other);
    Regroup(values[names[0]], names[1], values[names[1]], EncodePairs(names[2..], values));
  }

  lemma EncodeFirst(name: string, names: seq<string>, values: Env)
    requires forall n :: n in [name] + names ==> n in values
    ensures EncodePairs([name] + names, values) == name + [NUL] + (values[name] + [NUL] + EncodePairs(names, values))
  {
    assert ([name] + names)[1..] == names;
  }

  lemma Regroup(first: string, name: string, second: string, more: string)
    ensures first + [NUL] + name + [NUL] + second + [NUL] + more
            == first + [NUL] + (name + [NUL] + (second + [NUL] + more))
  {
  }

  lemma EncodeTwoMore(names: seq<string>, values: Env)
    requires |names| >= 2
    requires forall name :: name in names ==> name in values
    ensures EncodePairs(names, values)
            == names[0] + [NUL] + (values[names[0]] + [NUL]
               + (names[1] + [NUL] + (values[names[1]] + [NUL] + EncodePairs(names[2..], values))))
  {
    assert names[1..][1..] == names[2..];
  }

  lemma {:induction false} EncodeAgrees(names: seq<string>, a: Env, b: Env)
    requires forall n :: n in names ==> n in a && n in b && a[n] == b[n]
    ensures EncodePairs(names, a) == EncodePairs(names, b)
  {
    if names != [] {
      EncodeAgrees(names[1..], a, b);
    }
  }
}
