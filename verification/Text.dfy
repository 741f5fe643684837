/** Results that may be absent; stands for Go's (value, error) pairs. */
module Wrappers {
  datatype Option<+T> = None | Some(value: T)
}

/**
 The string operations the controller relies on. A string is a sequence of
 Unicode code points, so comparing code points is comparing UTF-8 bytes.
 */
module Text {
  /** Position of the first `c` in `s`, or the length of `s`. */
  function IndexOf(s: string, c: char): (i: nat)
    ensures i <= |s|
  {
    if s == "" || s[0] == c then 0 else 1 + IndexOf(s[1..], c)
  }

  lemma {:induction false} IndexOfIsFirst(s: string, c: char)
    ensures c !in s[..IndexOf(s, c)]
    ensures IndexOf(s, c) < |s| ==> s[IndexOf(s, c)] == c
    ensures IndexOf(s, c) < |s| <==> c in s
  {
    if s != "" && s[0] != c {
      var i := IndexOf(s[1..], c);
      IndexOfIsFirst(s[1..], c);
      assert s[..i + 1] == [s[0]] + s[1..][..i];
      assert s == [s[0]] + s[1..];
    }
  }

  /** The part of `s` before its first `c`; all of `s` when there is none. */
  function Before(s: string, c: char): string {
    s[..IndexOf(s, c)]
  }

  /** The part of `s` after its first `c`; empty when there is none. */
  function After(s: string, c: char): string {
    var i := IndexOf(s, c);
    if i < |s| then s[i + 1..] else ""
  }

  /** Joining the two parts of a cut restores the text, and the first part has no separator. */
  lemma CutParts(s: string, c: char)
    ensures c !in Before(s, c)
    ensures c in s ==> s == Before(s, c) + [c] + After(s, c) && |After(s, c)| < |s|
    ensures c !in s ==> Before(s, c) == s && After(s, c) == ""
  {
    IndexOfIsFirst(s, c);
  }

  /** Cutting at the first separator undoes joining when the head has none. */
  lemma CutJoined(head: string, c: char, tail: string)
    requires c !in head
    ensures Before(head + [c] + tail, c) == head && After(head + [c] + tail, c) == tail
  {
    var s := head + [c] + tail;
    IndexOfJoined(head, c, tail);
    assert s[..|head|] == head && s[|head| + 1..] == tail;
  }

  lemma {:induction false} IndexOfJoined(head: string, c: char, tail: string)
    requires c !in head
    ensures IndexOf(head + [c] + tail, c) == |head|
  {
    if head != "" {
      assert (head + [c] + tail)[1..] == head[1..] + [c] + tail;
      IndexOfJoined(head[1..], c, tail);
    }
  }

  predicate HasPrefix(s: string, prefix: string) {
    prefix <= s
  }

  /** White space as the Unicode property that Go's strings package uses. */
  predicate IsSpace(c: char) {
    || '\t' <= c <= '\r' || c == ' ' || c == '\U{85}' || c == '\U{A0}'
    || c == '\U{1680}' || '\U{2000}' <= c <= '\U{200A}' || c == '\U{2028}'
    || c == '\U{2029}' || c == '\U{202F}' || c == '\U{205F}' || c == '\U{3000}'
  }

  function TrimLeft(s: string): string {
    if s != "" && IsSpace(s[0]) then TrimLeft(s[1..]) else s
  }

  function TrimRight(s: string): string {
    if s != "" && IsSpace(s[|s| - 1]) then TrimRight(s[..|s| - 1]) else s
  }

  function TrimSpace(s: string): string {
    TrimRight(TrimLeft(s))
  }

  /** The fields of `s` joined with nothing between them. */
  function WithoutSpaces(s: string): string {
    if s == "" then ""
    else (if IsSpace(s[0]) then "" else [s[0]]) + WithoutSpaces(s[1..])
  }

  /** Among the ASCII characters the white space is the usual six. */
  lemma AsciiSpaces(c: char)
    requires c < '\U{80}'
    ensures IsSpace(c) <==> c in {'\t', '\n', '\U{B}', '\U{C}', '\r', ' '}
  {
  }

  ghost predicate Blank(s: string) {
    forall c :: c in s ==> IsSpace(c)
  }

  ghost predicate Solid(s: string) {
    forall c :: c in s ==> !IsSpace(c)
  }

  /** Trimming finds the core of a text, whatever white space surrounds it. */
  lemma TrimSpaceExactly(before: string, core: string, after: string)
    requires Blank(before) && Blank(after)
    requires core != "" ==> !IsSpace(core[0]) && !IsSpace(core[|core| - 1])
    ensures TrimSpace(before + core + after) == core
  {
    hide IsSpace;
    if core == "" {
      assert before + core + after == (before + after) + "";
      TrimLeftDrops(before + after, "");
    } else {
      assert before + core + after == before + (core + after);
      TrimLeftDrops(before, core + after);
      TrimRightDrops(core, after);
    }
  }

  lemma {:induction false} TrimLeftDrops(blank: string, s: string)
    requires Blank(blank) && (s != "" ==> !IsSpace(s[0]))
    ensures TrimLeft(blank + s) == s
  {
    hide IsSpace;
    if blank == "" {
      assert blank + s == s;
    } else {
      assert blank[0] in blank && (blank + s)[1..] == blank[1..] + s;
      TrimLeftDrops(blank[1..], s);
    }
  }

  lemma {:induction false} TrimRightDrops(s: string, blank: string)
    requires Blank(blank) && s != "" && !IsSpace(s[|s| - 1])
    ensures TrimRight(s + blank) == s
  {
    hide IsSpace;
    if blank == "" {
      assert s + blank == s;
    } else {
      var last := |blank| - 1;
      assert blank[last] in blank && (s + blank)[..|s + blank| - 1] == s + blank[..last];
      TrimRightDrops(s, blank[..last]);
    }
  }

  lemma {:induction false} WithoutSpacesConcat(a: string, b: string)
    ensures WithoutSpaces(a + b) == WithoutSpaces(a) + WithoutSpaces(b)
  {
    hide IsSpace;
    if a == "" {
      assert a + b == b;
    } else {
      assert (a + b)[1..] == a[1..] + b;
      WithoutSpacesConcat(a[1..], b);
    }
  }

  lemma {:induction false} WithoutSpacesOf(s: string)
    ensures Blank(s) ==> WithoutSpaces(s) == ""
    ensures Solid(s) ==> WithoutSpaces(s) == s
  {
    hide IsSpace;
    if s != "" {
      assert s[0] in s && s == [s[0]] + s[1..];
      WithoutSpacesOf(s[1..]);
    }
  }

  /** The components of a dotted path; never the empty sequence. */
  function Split(s: string, c: char): (parts: seq<string>)
    ensures parts != []
    decreases |s|
  {
    if c in s then
      CutParts(s, c);
      [Before(s, c)] + Split(After(s, c), c)
    else
      [s]
  }

  // ---------------------------------------------------------------------
  // Byte order and sorting
  // ---------------------------------------------------------------------

  predicate Precedes(a: string, b: string) {
    b != "" && (a == "" || a[0] < b[0] || (a[0] == b[0] && Precedes(a[1..], b[1..])))
  }

  lemma PrecedesIsIrreflexive(a: string)
    ensures !Precedes(a, a)
  {
  }

  lemma PrecedesIsTransitive(a: string, b: string, c: string)
    requires Precedes(a, b) && Precedes(b, c)
    ensures Precedes(a, c)
  {
  }

  lemma {:induction false} PrecedesIsTotal(a: string, b: string)
    requires a != b
    ensures Precedes(a, b) || Precedes(b, a)
  {
    if a != "" && b != "" && a[0] == b[0] {
      assert a == [a[0]] + a[1..] && b == [b[0]] + b[1..];
      PrecedesIsTotal(a[1..], b[1..]);
    }
  }

  /** The texts agree on the first `k` characters, and there `a` ends or is smaller. */
  ghost predicate FirstDifference(a: string, b: string, k: nat) {
    k <= |a| && k < |b| && a[..k] == b[..k] && (k == |a| || a[k] < b[k])
  }

  lemma SameStart(a: string, b: string, k: nat)
    requires FirstDifference(a, b, k) && k > 0
    ensures a[0] == b[0]
  {
    assert a[..k][0] == b[..k][0];
  }

  /** The order is that of the characters at the first difference; a proper prefix comes first. */
  lemma {:induction false} PrecedesExactly(a: string, b: string)
    ensures Precedes(a, b) <==> exists k: nat :: FirstDifference(a, b, k)
  {
    if a != "" && b != "" && a[0] == b[0] {
      PrecedesExactly(a[1..], b[1..]);
      if k: nat :| FirstDifference(a[1..], b[1..], k) {
        assert a[..k + 1] == [a[0]] + a[1..][..k] && b[..k + 1] == [b[0]] + b[1..][..k];
        assert FirstDifference(a, b, k + 1);
      }
      if k: nat :| FirstDifference(a, b, k) {
        assert k > 0;
        assert a[1..][..k - 1] == a[..k][1..] && b[1..][..k - 1] == b[..k][1..];
        assert FirstDifference(a[1..], b[1..], k - 1);
      }
    } else {
      if Precedes(a, b) {
        assert FirstDifference(a, b, 0);
      }
      if k: nat :| FirstDifference(a, b, k) {
        if k > 0 {
          SameStart(a, b, k);
        }
      }
    }
  }

  /** All but the last element, and the last, are elements. */
  lemma InitMembers(xs: seq<string>)
    requires xs != []
    ensures forall x :: x in xs[..|xs| - 1] ==> x in xs
    ensures xs[|xs| - 1] in xs && xs == xs[..|xs| - 1] + [xs[|xs| - 1]]
  {
  }

  /** `part` consists of the elements of `whole` at these positions, in order. */
  ghost predicate Picks(whole: seq<string>, part: seq<string>, picked: seq<nat>) {
    && |picked| == |part|
    && (forall j :: 0 <= j < |picked| ==> picked[j] < |whole| && whole[picked[j]] == part[j])
    && (forall i, j :: 0 <= i < j < |picked| ==> picked[i] < picked[j])
  }

  lemma NothingPicked()
    ensures Picks([], [], [])
  {
  }

  lemma PicksSkip(whole: seq<string>, part: seq<string>, picked: seq<nat>)
    requires whole != [] && Picks(whole[..|whole| - 1], part, picked)
    ensures Picks(whole, part, picked)
  {
  }

  lemma PicksTake(whole: seq<string>, part: seq<string>, picked: seq<nat>)
    requires whole != [] && Picks(whole[..|whole| - 1], part, picked)
    ensures Picks(whole, part + [whole[|whole| - 1]], picked + [|whole| - 1])
  {
  }

  ghost predicate StrictlySorted(xs: seq<string>) {
    forall i, j :: 0 <= i < j < |xs| ==> Precedes(xs[i], xs[j])
  }

  ghost predicate Sorted(xs: seq<string>) {
    forall i, j :: 0 <= i < j < |xs| ==> !Precedes(xs[j], xs[i])
  }

  function Insert(x: string, xs: seq<string>): (r: seq<string>)
    ensures multiset(r) == multiset(xs) + multiset{x}
  {
    if xs != [] && Precedes(xs[0], x) then
      assert xs == [xs[0]] + xs[1..];
      [xs[0]] + Insert(x, xs[1..])
    else
      [x] + xs
  }

  /** sort.Strings. */
  function Sort(xs: seq<string>): (r: seq<string>)
    ensures multiset(r) == multiset(xs)
  {
    if xs == [] then []
    else
      assert xs == [xs[0]] + xs[1..];
      Insert(xs[0], Sort(xs[1..]))
  }

  lemma SortKeepsElements(xs: seq<string>)
    ensures |Sort(xs)| == |xs|
    ensures forall x :: x in Sort(xs) <==> x in xs
  {
    assert |multiset(Sort(xs))| == |multiset(xs)|;
    forall x ensures x in Sort(xs) <==> x in xs {
      assert x in Sort(xs) <==> x in multiset(Sort(xs));
      assert x in xs <==> x in multiset(xs);
    }
  }

  lemma {:induction false} InsertKeepsSorted(x: string, xs: seq<string>)
    requires Sorted(xs)
    ensures Sorted(Insert(x, xs))
  {
    hide Precedes;
    if xs != [] && Precedes(xs[0], x) {
      InsertKeepsSorted(x, xs[1..]);
      var r := Insert(x, xs[1..]);
      forall j | 0 <= j < |r| ensures !Precedes(r[j], xs[0]) {
        assert r[j] in multiset(r);
        if r[j] == x {
          PrecedesAsymmetric(xs[0], x);
        } else {
          assert r[j] in multiset(xs[1..]);
        }
      }
    } else {
      forall j | 0 <= j < |xs| ensures !Precedes(xs[j], x) {
        if Precedes(xs[j], x) {
          assert j > 0;
          NotPrecedesChain(xs[0], xs[j], x);
        }
      }
    }
  }

  lemma PrecedesAsymmetric(a: string, b: string)
    requires Precedes(a, b)
    ensures !Precedes(b, a)
  {
    if Precedes(b, a) {
      PrecedesIsTransitive(a, b, a);
      PrecedesIsIrreflexive(a);
    }
  }

  lemma NotPrecedesChain(low: string, mid: string, high: string)
    requires !Precedes(mid, low) && Precedes(mid, high)
    ensures Precedes(low, high)
  {
    if low != mid {
      PrecedesIsTotal(low, mid);
      PrecedesIsTransitive(low, mid, high);
    }
  }

  lemma {:induction false} SortIsSorted(xs: seq<string>)
    ensures Sorted(Sort(xs))
  {
    if xs != [] {
      SortIsSorted(xs[1..]);
      InsertKeepsSorted(xs[0], Sort(xs[1..]));
    }
  }

  ghost predicate Distinct<T>(xs: seq<T>) {
    forall i, j :: 0 <= i < j < |xs| ==> xs[i] != xs[j]
  }

  lemma DistinctMultiset(xs: seq<string>)
    requires Distinct(xs)
    ensures forall x :: multiset(xs)[x] <= 1
  {
    if xs != [] {
      assert xs == [xs[0]] + xs[1..];
      DistinctMultiset(xs[1..]);
      assert xs[0] !in xs[1..];
    }
  }

  lemma MultisetDistinct(xs: seq<string>)
    requires forall x :: multiset(xs)[x] <= 1
    ensures Distinct(xs)
  {
    forall i, j | 0 <= i < j < |xs| ensures xs[i] != xs[j] {
      assert xs == xs[..j] + xs[j..];
      assert xs[i] in xs[..j] && xs[j] in xs[j..];
      assert multiset(xs)[xs[j]] == multiset(xs[..j])[xs[j]] + multiset(xs[j..])[xs[j]];
    }
  }

  lemma SortIsStrict(xs: seq<string>)
    requires Distinct(xs)
    ensures StrictlySorted(Sort(xs))
  {
    SortIsSorted(xs);
    DistinctMultiset(xs);
    var r := Sort(xs);
    MultisetDistinct(r);
    forall i, j | 0 <= i < j < |r| ensures Precedes(r[i], r[j]) {
      PrecedesIsTotal(r[i], r[j]);
    }
  }

  /** A set of names has only one strictly sorted listing. */
  lemma {:induction false} StrictlySortedIsUnique(xs: seq<string>, ys: seq<string>)
    requires StrictlySorted(xs) && StrictlySorted(ys)
    requires forall x :: x in xs <==> x in ys
    ensures xs == ys
  {
    assert xs != [] ==> xs[0] in xs;
    assert ys != [] ==> ys[0] in ys;
    if xs != [] && ys != [] {
      if xs[0] != ys[0] {
        var i :| 0 <= i < |xs| && xs[i] == ys[0];
        var j :| 0 <= j < |ys| && ys[j] == xs[0];
        PrecedesAsymmetric(xs[0], ys[0]);
      }
      forall x ensures x in xs[1..] <==> x in ys[1..] {
        TailMembers(xs, x);
        TailMembers(ys, x);
      }
      StrictlySortedIsUnique(xs[1..], ys[1..]);
      assert xs == [xs[0]] + xs[1..] && ys == [ys[0]] + ys[1..];
    }
  }

  lemma TailMembers(xs: seq<string>, x: string)
    requires xs != [] && StrictlySorted(xs)
    ensures x in xs[1..] <==> x in xs && x != xs[0]
  {
    PrecedesIsIrreflexive(xs[0]);
    assert xs == [xs[0]] + xs[1..];
    if x in xs[1..] {
      var i :| 0 <= i < |xs[1..]| && xs[1..][i] == x;
      assert xs[i + 1] == x;
    }
  }

  /** Some listing of a set, in no particular order. */
  ghost function Listing(names: set<string>): (r: seq<string>)
    ensures Distinct(r)
    ensures forall x :: x in r <==> x in names
  {
    if names == {} then []
    else
      var x :| x in names;
      [x] + Listing(names - {x})
  }

  /** The names of a set in byte order. */
  ghost function SortedNames(names: set<string>): (r: seq<string>)
    ensures forall x :: x in r <==> x in names
  {
    SortKeepsElements(Listing(names));
    Sort(Listing(names))
  }

  lemma SortedNamesOrder(names: set<string>)
    ensures StrictlySorted(SortedNames(names)) && Distinct(SortedNames(names))
  {
    SortIsStrict(Listing(names));
    DistinctMultiset(Listing(names));
    MultisetDistinct(SortedNames(names));
  }

  lemma SortedNamesDistinct(names: set<string>)
    ensures Distinct(SortedNames(names))
  {
    SortedNamesOrder(names);
  }

  /** A strictly sorted listing of a set is the listing. */
  lemma SortedNamesIsUnique(xs: seq<string>, names: set<string>)
    requires StrictlySorted(xs)
    requires forall x :: x in xs <==> x in names
    ensures xs == SortedNames(names)
  {
    SortedNamesOrder(names);
    StrictlySortedIsUnique(xs, SortedNames(names));
  }

  lemma SortOfSortedNames(names: set<string>)
    ensures Sort(SortedNames(names)) == SortedNames(names)
  {
    SortedNamesOrder(names);
    SortIsStrict(SortedNames(names));
    SortKeepsElements(SortedNames(names));
    SortedNamesIsUnique(Sort(SortedNames(names)), names);
  }

  lemma OneMoreMember(names: seq<string>, i: nat)
    requires i < |names|
    ensures forall x :: x in names[..i + 1] <==> x in names[..i] || x == names[i]
    ensures Distinct(names) ==> names[i] !in names[..i]
    ensures names[i] in names
  {
    assert names[..i + 1] == names[..i] + [names[i]];
  }

  lemma AllMembers(names: seq<string>)
    ensures names[..|names|] == names
  {
  }

  /** Collects the keys of a map in whatever order it is walked, then sorts. */
  method SortedKeys<T>(m: map<string, T>) returns (names: seq<string>)
    ensures names == SortedNames(m.Keys)
  {
    names := [];
    var rest := m.Keys;
    while rest != {}
      invariant rest <= m.Keys
      invariant Distinct(names)
      invariant forall x :: x in names <==> x in m.Keys && x !in rest
    {
      var name :| name in rest;
      names := names + [name];
      rest := rest - {name};
    }
    SortIsStrict(names);
    SortKeepsElements(names);
    SortedNamesIsUnique(Sort(names), m.Keys);
    names := Sort(names);
  }
}
