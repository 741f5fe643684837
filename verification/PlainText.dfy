/**
 A codec that meets every law asked of JSON and SHA-256: the assumptions of the
 theorems are consistent.
 */
module PlainText {
  import opened Wrappers
  import opened Text
  import opened Labels

  /** A form that shows where it ends, whatever follows it. */
  ghost predicate SelfDelimiting<T(!new)>(form: T -> string) {
    forall a, b, x: string, y: string :: form(a) + x == form(b) + y ==> a == b && x == y
  }

  /** Every character is announced; the end is too. */
  function Quoted(s: string): string {
    if s == "" then "." else "," + [s[0]] + Quoted(s[1..])
  }

  function Tally(n: nat): string {
    if n == 0 then "." else "," + Tally(n - 1)
  }

  function Number(n: int): string {
    if n < 0 then "-" + Tally(-n) else "+" + Tally(n)
  }

  function Sequence<T>(form: T -> string, items: seq<T>): string {
    if items == [] then "." else "," + form(items[0]) + Sequence(form, items[1..])
  }

  lemma QuotedParts(s: string, x: string)
    ensures s == "" ==> Quoted(s) + x == ['.'] + x
    ensures s != "" ==> Quoted(s) + x == [','] + ([s[0]] + (Quoted(s[1..]) + x))
  {
  }

  lemma SameRest(c: char, x: string, d: char, y: string)
    requires [c] + x == [d] + y
    ensures c == d && x == y
  {
    assert ([c] + x)[0] == c && ([d] + y)[0] == d;
    assert ([c] + x)[1..] == x && ([d] + y)[1..] == y;
  }

  lemma {:induction false} QuotedEnds(a: string, b: string, x: string, y: string)
    requires Quoted(a) + x == Quoted(b) + y
    ensures a == b && x == y
  {
    hide Quoted;
    QuotedParts(a, x);
    QuotedParts(b, y);
    var p := if a == "" then x else [a[0]] + (Quoted(a[1..]) + x);
    var q := if b == "" then y else [b[0]] + (Quoted(b[1..]) + y);
    SameRest(if a == "" then '.' else ',', p, if b == "" then '.' else ',', q);
    if a != "" {
      SameRest(a[0], Quoted(a[1..]) + x, b[0], Quoted(b[1..]) + y);
      QuotedEnds(a[1..], b[1..], x, y);
      assert a == [a[0]] + a[1..] && b == [b[0]] + b[1..];
    }
  }

  lemma Heads(a: string, x: string, b: string, y: string)
    requires a != "" && b != "" && a + x == b + y
    ensures a[0] == b[0]
  {
    assert (a + x)[0] == a[0] && (b + y)[0] == b[0];
  }

  lemma {:induction false} TallyEnds(a: nat, b: nat, x: string, y: string)
    requires Tally(a) + x == Tally(b) + y
    ensures a == b && x == y
  {
    Heads(Tally(a), x, Tally(b), y);
    if a == 0 || b == 0 {
      assert (Tally(a) + x)[1..] == x && (Tally(b) + y)[1..] == y;
    } else {
      assert (Tally(a) + x)[1..] == Tally(a - 1) + x && (Tally(b) + y)[1..] == Tally(b - 1) + y;
      TallyEnds(a - 1, b - 1, x, y);
    }
  }

  lemma NumberEnds(a: int, b: int, x: string, y: string)
    requires Number(a) + x == Number(b) + y
    ensures a == b && x == y
  {
    Heads(Number(a), x, Number(b), y);
    var m, n := if a < 0 then -a else a, if b < 0 then -b else b;
    assert (Number(a) + x)[1..] == Tally(m) + x && (Number(b) + y)[1..] == Tally(n) + y;
    TallyEnds(m, n, x, y);
  }

  lemma {:induction false} SequenceEnds<T(!new)>(form: T -> string, a: seq<T>, b: seq<T>, x: string, y: string)
    requires SelfDelimiting(form) && Sequence(form, a) + x == Sequence(form, b) + y
    ensures a == b && x == y
  {
    Heads(Sequence(form, a), x, Sequence(form, b), y);
    if a == [] || b == [] {
      assert (Sequence(form, a) + x)[1..] == x && (Sequence(form, b) + y)[1..] == y;
    } else {
      var s, t := Sequence(form, a[1..]) + x, Sequence(form, b[1..]) + y;
      assert (Sequence(form, a) + x)[1..] == form(a[0]) + s && (Sequence(form, b) + y)[1..] == form(b[0]) + t;
      assert a[0] == b[0] && s == t;
      SequenceEnds(form, a[1..], b[1..], x, y);
      assert a == [a[0]] + a[1..] && b == [b[0]] + b[1..];
    }
  }

  // ---------------------------------------------------------------------
  // Maps, as their pairs in the order of the names
  // ---------------------------------------------------------------------

  ghost function Pairs<V>(m: map<string, V>): seq<(string, V)> {
    var names := SortedNames(m.Keys);
    seq(|names|, i requires 0 <= i < |names| => (names[i], Value(m, names[i])))
  }

  ghost function Value<V>(m: map<string, V>, name: string): V
    requires name in m
  {
    m[name]
  }

  lemma PairAt<V>(m: map<string, V>, i: nat)
    requires i < |Pairs(m)|
    ensures |Pairs(m)| == |SortedNames(m.Keys)| && SortedNames(m.Keys)[i] in m
    ensures Pairs(m)[i] == (SortedNames(m.Keys)[i], m[SortedNames(m.Keys)[i]])
  {
    assert SortedNames(m.Keys)[i] in m.Keys;
  }

  lemma PairsDetermine<V>(a: map<string, V>, b: map<string, V>)
    requires Pairs(a) == Pairs(b)
    ensures a == b
  {
    hide *;
    var names := SortedNames(a.Keys);
    PairsLength(a);
    PairsLength(b);
    forall i | 0 <= i < |names| ensures names[i] == SortedNames(b.Keys)[i] {
      PairAt(a, i);
      PairAt(b, i);
    }
    assert names == SortedNames(b.Keys);
    SameListing(a.Keys, b.Keys);
    forall name | name in a.Keys ensures a[name] == b[name] {
      var i := Position(a.Keys, name);
      PairAt(a, i);
      PairAt(b, i);
    }
  }

  lemma Position(names: set<string>, name: string) returns (i: nat)
    requires name in names
    ensures i < |SortedNames(names)| && SortedNames(names)[i] == name
  {
    i :| 0 <= i < |SortedNames(names)| && SortedNames(names)[i] == name;
  }

  lemma SameListing(a: set<string>, b: set<string>)
    requires SortedNames(a) == SortedNames(b)
    ensures a == b
  {
    assert forall name :: name in a <==> name in SortedNames(a);
    assert forall name :: name in b <==> name in SortedNames(b);
  }

  lemma PairsLength<V>(m: map<string, V>)
    ensures |Pairs(m)| == |SortedNames(m.Keys)|
  {
  }

  ghost function PairForm<V>(form: V -> string, pair: (string, V)): string {
    Quoted(pair.0) + form(pair.1)
  }

  ghost function MapForm<V>(form: V -> string, m: map<string, V>): string {
    Sequence((pair: (string, V)) => PairForm(form, pair), Pairs(m))
  }

  lemma PairsEnd<V(!new)>(form: V -> string)
    requires SelfDelimiting(form)
    ensures SelfDelimiting((pair: (string, V)) => PairForm(form, pair))
  {
    hide PairForm;
    forall a: (string, V), b: (string, V), x: string, y: string | PairForm(form, a) + x == PairForm(form, b) + y
      ensures a == b && x == y
    {
      PairEnds(form, a, b, x, y);
    }
  }

  lemma PairEnds<V(!new)>(form: V -> string, a: (string, V), b: (string, V), x: string, y: string)
    requires SelfDelimiting(form) && PairForm(form, a) + x == PairForm(form, b) + y
    ensures a == b && x == y
  {
    hide SelfDelimiting, Quoted;
    PairRegrouped(form, a, x);
    PairRegrouped(form, b, y);
    QuotedEnds(a.0, b.0, form(a.1) + x, form(b.1) + y);
    FormEnds(form, a.1, b.1, x, y);
  }

  lemma PairRegrouped<V>(form: V -> string, pair: (string, V), x: string)
    ensures PairForm(form, pair) + x == Quoted(pair.0) + (form(pair.1) + x)
  {
    hide Quoted;
  }

  lemma FormEnds<T(!new)>(form: T -> string, a: T, b: T, x: string, y: string)
    requires SelfDelimiting(form) && form(a) + x == form(b) + y
    ensures a == b && x == y
  {
  }

  lemma MapEnds<V(!new)>(form: V -> string, a: map<string, V>, b: map<string, V>, x: string, y: string)
    requires SelfDelimiting(form) && MapForm(form, a) + x == MapForm(form, b) + y
    ensures a == b && x == y
  {
    hide Pairs, SelfDelimiting;
    PairsEnd(form);
    SequenceEnds((pair: (string, V)) => PairForm(form, pair), Pairs(a), Pairs(b), x, y);
    PairsDetermine(a, b);
  }

  // ---------------------------------------------------------------------
  // The codec
  // ---------------------------------------------------------------------

  ghost function SourceForm(source: SecretSource): string {
    Quoted(source.name) + (Quoted(source.mount) + (Quoted(source.path) + MapForm(Quoted, source.env)))
  }

  lemma StringsEnd()
    ensures SelfDelimiting(Quoted)
  {
    forall a, b, x, y | Quoted(a) + x == Quoted(b) + y ensures a == b && x == y {
      QuotedEnds(a, b, x, y);
    }
  }

  lemma NumbersEnd()
    ensures SelfDelimiting(Number)
  {
    forall a, b, x, y | Number(a) + x == Number(b) + y ensures a == b && x == y {
      NumberEnds(a, b, x, y);
    }
  }

  lemma SourceEnds(a: SecretSource, b: SecretSource, x: string, y: string)
    requires SourceForm(a) + x == SourceForm(b) + y
    ensures a == b && x == y
  {
    hide MapForm, Quoted, SelfDelimiting;
    StringsEnd();
    Regrouped(a, x);
    Regrouped(b, y);
    QuotedEnds(a.name, b.name, Quoted(a.mount) + (Quoted(a.path) + (MapForm(Quoted, a.env) + x)),
               Quoted(b.mount) + (Quoted(b.path) + (MapForm(Quoted, b.env) + y)));
    QuotedEnds(a.mount, b.mount, Quoted(a.path) + (MapForm(Quoted, a.env) + x),
               Quoted(b.path) + (MapForm(Quoted, b.env) + y));
    QuotedEnds(a.path, b.path, MapForm(Quoted, a.env) + x, MapForm(Quoted, b.env) + y);
    MapEnds(Quoted, a.env, b.env, x, y);
  }

  lemma Regrouped(source: SecretSource, x: string)
    ensures SourceForm(source) + x
            == Quoted(source.name) + (Quoted(source.mount) + (Quoted(source.path) + (MapForm(Quoted, source.env) + x)))
  {
    hide MapForm, Quoted;
  }

  ghost function ConfigForm(gate: bool, secrets: map<string, SecretSource>): string {
    (if gate then "+" else "-") + MapForm(SourceForm, secrets)
  }

  lemma ConfigDetermined(g: bool, s: map<string, SecretSource>, h: bool, t: map<string, SecretSource>)
    requires ConfigForm(g, s) == ConfigForm(h, t)
    ensures g == h && s == t
  {
    hide MapForm, SelfDelimiting;
    var a, b := MapForm(SourceForm, s), MapForm(SourceForm, t);
    assert ConfigForm(g, s)[0] == ConfigForm(h, t)[0];
    assert ConfigForm(g, s)[1..] == a && ConfigForm(h, t)[1..] == b;
    SourcesEnd();
    assert a + "" == b + "";
    MapEnds(SourceForm, s, t, "", "");
  }

  lemma SourcesEnd()
    ensures SelfDelimiting(SourceForm)
  {
    hide SourceForm;
    forall a, b, x, y | SourceForm(a) + x == SourceForm(b) + y ensures a == b && x == y {
      SourceEnds(a, b, x, y);
    }
  }

  ghost function VersionsForm(versions: map<string, int>): string { MapForm(Number, versions) }
  ghost function NamesForm(names: seq<string>): string { Sequence(Quoted, names) }

  ghost function ParseVersions(text: string): Option<map<string, int>> {
    if versions :| VersionsForm(versions) == text then Some(versions) else None
  }

  ghost function ParseNames(text: string): Option<seq<string>> {
    if names :| NamesForm(names) == text then Some(names) else None
  }

  lemma VersionsReadBack(versions: map<string, int>)
    ensures VersionsForm(versions) != "" && ParseVersions(VersionsForm(versions)) == Some(versions)
  {
    hide MapForm, SelfDelimiting;
    var text := VersionsForm(versions);
    NumbersEnd();
    MapIsText(Number, versions);
    assert VersionsForm(versions) == text;
    var parsed := ParseVersions(text).value;
    assert MapForm(Number, parsed) + "" == MapForm(Number, versions) + "";
    MapEnds(Number, parsed, versions, "", "");
  }

  lemma MapIsText<V>(form: V -> string, m: map<string, V>)
    ensures MapForm(form, m) != ""
  {
  }

  lemma NamesReadBack(names: seq<string>)
    ensures NamesForm(names) != "" && ParseNames(NamesForm(names)) == Some(names)
  {
    hide SelfDelimiting;
    var text := NamesForm(names);
    StringsEnd();
    assert NamesForm(names) == text;
    var parsed := ParseNames(text).value;
    assert NamesForm(parsed) + "" == NamesForm(names) + "";
    SequenceEnds(Quoted, parsed, names, "", "");
  }

  function Digested(bytes: string): string { "#" + bytes }

  /** All that is asked of JSON and of the digest can be had together. */
  lemma AssumptionsAreConsistent() returns (codec: Codec)
    ensures codec.Faithful() && codec.CollisionFree()
  {
    hide VersionsForm, ParseVersions, NamesForm, ParseNames, ConfigForm;
    codec := Codec(Digested, (gate, secrets) => ConfigForm(gate, secrets), versions => VersionsForm(versions),
                   text => ParseVersions(text), names => NamesForm(names), text => ParseNames(text));
    forall versions
      ensures codec.versionsText(versions) != ""
              && codec.parseVersions(codec.versionsText(versions)) == Some(versions)
    {
      VersionsReadBack(versions);
    }
    forall names ensures codec.namesText(names) != "" && codec.parseNames(codec.namesText(names)) == Some(names) {
      NamesReadBack(names);
    }
    forall a, b | codec.digest(a) == codec.digest(b) ensures a == b {
      assert Digested(a)[1..] == a && Digested(b)[1..] == b;
    }
    forall g, s, h, t | codec.configText(g, s) == codec.configText(h, t) ensures g == h && s == t {
      ConfigDetermined(g, s, h, t);
    }
  }
}
