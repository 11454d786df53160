/** The lexicographic order on strings and the stable sort the repository relies on throughout. */
module Ordering {
  import opened Common

  /** Python's `<` on strings: the first differing character decides, a proper prefix comes first. */
  predicate Less(a: string, b: string) {
    if b == "" then false
    else if a == "" then true
    else if a[0] != b[0] then a[0] < b[0]
    else Less(a[1..], b[1..])
  }

  lemma {:induction false} LessIrreflexive(a: string)
    ensures !Less(a, a)
  {
    if a != "" {
      LessIrreflexive(a[1..]);
    }
  }

  lemma {:induction false} LessTransitive(a: string, b: string, c: string)
    requires Less(a, b) && Less(b, c)
    ensures Less(a, c)
  {
    if a != "" && a[0] == b[0] && b[0] == c[0] {
      LessTransitive(a[1..], b[1..], c[1..]);
    }
  }

  lemma {:induction false} LessTotal(a: string, b: string)
    ensures a == b || Less(a, b) || Less(b, a)
  {
    if a != "" && b != "" && a[0] == b[0] {
      LessTotal(a[1..], b[1..]);
      assert a == [a[0]] + a[1..] && b == [b[0]] + b[1..];
    }
  }

  lemma LessAsymmetric(a: string, b: string)
    requires Less(a, b)
    ensures !Less(b, a)
  {
    if Less(b, a) {
      LessTransitive(a, b, a);
      LessIrreflexive(a);
    }
  }

  ghost predicate LessEq(a: string, b: string) {
    a == b || Less(a, b)
  }

  lemma LessEqTransitive(a: string, b: string, c: string)
    requires LessEq(a, b) && LessEq(b, c)
    ensures LessEq(a, c)
  {
    if a != b && b != c {
      LessTransitive(a, b, c);
    }
  }

  // ----- stable sorting by a comparison -----

  /** `before` orders values without contradiction: what is not after does not become after by transitivity. */
  ghost predicate Consistent<T(!new)>(before: (T, T) -> bool) {
    && (forall x, y :: before(x, y) ==> !before(y, x))
    && (forall x, y, z :: !before(y, x) && !before(z, y) ==> !before(z, x))
  }

  ghost predicate SortedBy<T>(before: (T, T) -> bool, s: seq<T>) {
    forall i, j :: 0 <= i < j < |s| ==> !before(s[j], s[i])
  }

  function Insert<T>(before: (T, T) -> bool, x: T, s: seq<T>): seq<T> {
    if s != [] && before(x, s[|s| - 1]) then Insert(before, x, s[..|s| - 1]) + [s[|s| - 1]] else s + [x]
  }

  function Sort<T>(before: (T, T) -> bool, s: seq<T>): seq<T> {
    if s == [] then [] else Insert(before, s[|s| - 1], Sort(before, s[..|s| - 1]))
  }

  lemma {:induction false} InsertContents<T>(before: (T, T) -> bool, x: T, s: seq<T>)
    ensures multiset(Insert(before, x, s)) == multiset(s) + multiset{x}
  {
    if s != [] && before(x, s[|s| - 1]) {
      InsertContents(before, x, s[..|s| - 1]);
      SplitLast(s);
    }
  }

  lemma SplitLast<T>(s: seq<T>)
    requires s != []
    ensures multiset(s) == multiset(s[..|s| - 1]) + multiset{s[|s| - 1]}
  {
    assert s == s[..|s| - 1] + [s[|s| - 1]];
  }

  lemma {:induction false} SortContents<T>(before: (T, T) -> bool, s: seq<T>)
    ensures multiset(Sort(before, s)) == multiset(s)
  {
    if s != [] {
      var init, last := s[..|s| - 1], s[|s| - 1];
      SortContents(before, init);
      InsertContents(before, last, Sort(before, init));
      SplitLast(s);
    }
  }

  /** Sorting loses and invents nothing. */
  lemma SortMembers<T>(before: (T, T) -> bool, s: seq<T>)
    ensures |Sort(before, s)| == |s|
    ensures forall x :: x in Sort(before, s) <==> x in s
  {
    SortContents(before, s);
    assert |multiset(Sort(before, s))| == |multiset(s)|;
    forall x ensures x in Sort(before, s) <==> x in s {
      assert x in multiset(Sort(before, s)) <==> x in multiset(s);
    }
  }

  lemma {:induction false} InsertSorted<T(!new)>(before: (T, T) -> bool, x: T, s: seq<T>)
    requires Consistent(before) && SortedBy(before, s)
    ensures SortedBy(before, Insert(before, x, s))
  {
    if s != [] && before(x, s[|s| - 1]) {
      var init, last := s[..|s| - 1], s[|s| - 1];
      InsertSorted(before, x, init);
      InsertContents(before, x, init);
      var r := Insert(before, x, init);
      forall i | 0 <= i < |r| ensures !before(last, r[i]) {
        assert r[i] in multiset(r);
        assert r[i] == x || r[i] in init;
      }
    } else if s != [] {
      forall i | 0 <= i < |s| ensures !before(x, s[i]) {
        assert i == |s| - 1 || !before(s[|s| - 1], s[i]);
      }
    }
  }

  lemma {:induction false} SortSorts<T(!new)>(before: (T, T) -> bool, s: seq<T>)
    requires Consistent(before)
    ensures SortedBy(before, Sort(before, s))
  {
    if s != [] {
      SortSorts(before, s[..|s| - 1]);
      InsertSorted(before, s[|s| - 1], Sort(before, s[..|s| - 1]));
    }
  }

  lemma {:induction false} DistinctMultiset<T>(s: seq<T>)
    ensures Distinct(s) <==> forall x :: multiset(s)[x] <= 1
  {
    if s != [] {
      var init, last := s[..|s| - 1], s[|s| - 1];
      DistinctMultiset(init);
      assert s == init + [last];
      assert forall x :: multiset(s)[x] == multiset(init)[x] + if x == last then 1 else 0;
      assert last in init <==> multiset(init)[last] >= 1;
      if Distinct(s) {
        assert Distinct(init) && last !in init;
      } else if Distinct(init) {
        assert last in init;
      } else {
        var x :| multiset(init)[x] > 1;
        assert multiset(s)[x] > 1;
      }
    }
  }

  lemma SortDistinct<T>(before: (T, T) -> bool, s: seq<T>)
    requires Distinct(s)
    ensures Distinct(Sort(before, s))
  {
    SortContents(before, s);
    DistinctMultiset(s);
    DistinctMultiset(Sort(before, s));
  }

  // ----- orders on strings, and on values by a string key -----

  function ByKey<T>(key: T -> string): (T, T) -> bool {
    (x, y) => Less(key(x), key(y))
  }

  lemma ByKeyConsistent<T(!new)>(key: T -> string)
    ensures Consistent(ByKey(key))
  {
    forall x, y | Less(key(x), key(y)) ensures !Less(key(y), key(x)) {
      LessAsymmetric(key(x), key(y));
    }
    forall x, y, z | !Less(key(y), key(x)) && !Less(key(z), key(y)) ensures !Less(key(z), key(x)) {
      LessTotal(key(y), key(x));
      LessTotal(key(z), key(y));
      LessEqTransitive(key(x), key(y), key(z));
      if Less(key(z), key(x)) {
        if key(x) == key(z) { LessIrreflexive(key(x)); } else { LessAsymmetric(key(x), key(z)); }
      }
    }
  }

  function SortStrings(s: seq<string>): seq<string> {
    Sort(ByKey((x: string) => x), s)
  }

  /** Sorting distinct strings gives a strictly increasing listing of the same strings. */
  lemma SortStringsStrict(s: seq<string>)
    requires Distinct(s)
    ensures |SortStrings(s)| == |s| && forall x :: x in SortStrings(s) <==> x in s
    ensures forall i, j :: 0 <= i < j < |s| ==> Less(SortStrings(s)[i], SortStrings(s)[j])
  {
    var before := ByKey((x: string) => x);
    ByKeyConsistent((x: string) => x);
    SortSorts(before, s);
    SortMembers(before, s);
    SortDistinct(before, s);
    forall i, j | 0 <= i < j < |s| ensures Less(SortStrings(s)[i], SortStrings(s)[j]) {
      assert !before(SortStrings(s)[j], SortStrings(s)[i]);
      LessTotal(SortStrings(s)[i], SortStrings(s)[j]);
    }
  }
}
