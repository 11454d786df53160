/** The disjoint-set structure behind finding correlation (karsasec/analysis/finding_correlator.py). */
module UnionFindModel {
  import opened Common
  import opened Reach
  import opened Ordering

  /** Parent pointers stay inside the structure and never point upwards in string order. */
  ghost predicate Descending(parent: map<string, string>) {
    forall e {:trigger PointsDown(parent, e)} :: e in parent ==> PointsDown(parent, e)
  }

  ghost predicate PointsDown(parent: map<string, string>, e: string)
    requires e in parent
  {
    parent[e] in parent && LessEq(parent[e], e)
  }

  ghost function Below(keys: set<string>, e: string): set<string> {
    set x | x in keys && Less(x, e)
  }

  lemma BelowShrinks(keys: set<string>, a: string, b: string)
    requires a in keys && Less(a, b)
    ensures Below(keys, a) < Below(keys, b)
  {
    LessIrreflexive(a);
    forall x | x in Below(keys, a) ensures x in Below(keys, b) {
      LessTransitive(x, a, b);
    }
    assert a in Below(keys, b) && a !in Below(keys, a);
  }

  lemma StepDown(parent: map<string, string>, e: string)
    requires Descending(parent) && e in parent
    ensures parent[e] in parent && LessEq(parent[e], e)
    ensures parent[e] != e ==> Below(parent.Keys, parent[e]) < Below(parent.Keys, e)
  {
    assert PointsDown(parent, e);
    if parent[e] != e {
      BelowShrinks(parent.Keys, parent[e], e);
    }
  }

  /** The element a chain of parent pointers ends at. */
  ghost function Root(parent: map<string, string>, e: string): string
    requires Descending(parent) && e in parent
    decreases Below(parent.Keys, e)
  {
    if parent[e] == e then e else StepDown(parent, e); Root(parent, parent[e])
  }

  lemma {:induction false} RootFacts(parent: map<string, string>, e: string)
    requires Descending(parent) && e in parent
    ensures Root(parent, e) in parent && parent[Root(parent, e)] == Root(parent, e)
    ensures Root(parent, Root(parent, e)) == Root(parent, e)
    ensures LessEq(Root(parent, e), e)
    decreases Below(parent.Keys, e)
  {
    if parent[e] != e {
      StepDown(parent, e);
      RootFacts(parent, parent[e]);
      LessEqTransitive(Root(parent, e), parent[e], e);
    }
  }

  lemma RedirectDescends(p: map<string, string>, i: string, r: string)
    requires Descending(p) && i in p && r in p && LessEq(r, i)
    ensures Descending(p[i := r]) && p[i := r].Keys == p.Keys
  {
    assert p[i := r].Keys == p.Keys;
    forall e | e in p ensures PointsDown(p[i := r], e) {
      assert PointsDown(p, e);
    }
  }

  /** Pointing an element straight at its root changes no root. */
  lemma {:induction false} CompressKeepsRoots(p: map<string, string>, i: string, e: string)
    requires Descending(p) && i in p && e in p
    ensures Descending(p[i := Root(p, i)]) && Root(p[i := Root(p, i)], e) == Root(p, e)
    decreases Below(p.Keys, e)
  {
    var r := Root(p, i);
    var q := p[i := r];
    RootFacts(p, i);
    RedirectDescends(p, i, r);
    if e == i {
      assert q[r] == r;
    } else if p[e] != e {
      StepDown(p, e);
      CompressKeepsRoots(p, i, p[e]);
    }
  }

  /** Hanging the root `hi` below the smaller root `lo` moves exactly the class of `hi`. */
  lemma {:induction false} AttachMovesRoot(p: map<string, string>, hi: string, lo: string, e: string)
    requires Descending(p) && hi in p && lo in p && e in p
    requires p[hi] == hi && p[lo] == lo && Less(lo, hi)
    ensures Descending(p[hi := lo])
    ensures Root(p[hi := lo], e) == if Root(p, e) == hi then lo else Root(p, e)
    decreases Below(p.Keys, e)
  {
    var q := p[hi := lo];
    LessIrreflexive(hi);
    RedirectDescends(p, hi, lo);
    if e == hi {
      assert q[lo] == lo;
    } else if p[e] != e {
      StepDown(p, e);
      AttachMovesRoot(p, hi, lo, p[e]);
    }
  }

  /** The structure represents exactly the equivalence generated by the pairs in `united`. */
  ghost predicate Represents(parent: map<string, string>, united: set<(string, string)>) {
    && Descending(parent)
    && (forall u :: u in united ==> u.0 in parent && u.1 in parent && Root(parent, u.0) == Root(parent, u.1))
    && (forall e {:trigger Anchored(parent, united, e)} :: e in parent ==> Anchored(parent, united, e))
  }

  ghost predicate Anchored(parent: map<string, string>, united: set<(string, string)>, e: string)
    requires Descending(parent) && e in parent
  {
    Reaches(Undirected(united), e, Root(parent, e))
  }

  /** Two elements share a root exactly when a chain of united pairs joins them. */
  lemma SameRootIffConnected(parent: map<string, string>, united: set<(string, string)>, a: string, b: string)
    requires Represents(parent, united) && a in parent && b in parent
    ensures Root(parent, a) == Root(parent, b) <==> Reaches(Undirected(united), a, b)
  {
    var links := Undirected(united);
    UndirectedSymmetric(united);
    if Root(parent, a) == Root(parent, b) {
      assert Anchored(parent, united, a) && Anchored(parent, united, b);
      SymmetricReaches(links, b, Root(parent, b));
      ReachesTrans(links, a, Root(parent, a), b);
    }
    if Reaches(links, a, b) {
      ReachesKeeps(links, e => e in parent && Root(parent, e) == Root(parent, a), a, b);
    }
  }

  /** Every root is the smallest member of its class. */
  lemma RootIsSmallest(parent: map<string, string>, united: set<(string, string)>, a: string, b: string)
    requires Represents(parent, united) && a in parent && b in parent && Reaches(Undirected(united), a, b)
    ensures LessEq(Root(parent, a), b)
  {
    SameRootIffConnected(parent, united, a, b);
    RootFacts(parent, b);
  }

  /** Roots, and so classes, depend on the set of united pairs alone and not on the order of the unions. */
  lemma RootsDetermined(p: map<string, string>, q: map<string, string>, united: set<(string, string)>, e: string)
    requires Represents(p, united) && Represents(q, united) && p.Keys == q.Keys && e in p
    ensures Root(p, e) == Root(q, e)
  {
    RootFacts(p, e);
    RootFacts(q, e);
    assert Anchored(p, united, e) && Anchored(q, united, e);
    RootIsSmallest(p, united, e, Root(q, e));
    RootIsSmallest(q, united, e, Root(p, e));
    if Root(p, e) != Root(q, e) {
      LessAsymmetric(Root(p, e), Root(q, e));
    }
  }

  ghost predicate SameRoots(p: map<string, string>, q: map<string, string>) {
    && Descending(p) && Descending(q) && p.Keys == q.Keys
    && forall e {:trigger SameRoot(p, q, e)} :: e in p ==> SameRoot(p, q, e)
  }

  ghost predicate SameRoot(p: map<string, string>, q: map<string, string>, e: string)
    requires Descending(p) && Descending(q) && e in p && e in q
  {
    Root(p, e) == Root(q, e)
  }

  lemma CompressRepresents(p: map<string, string>, i: string, united: set<(string, string)>)
    requires Represents(p, united) && i in p
    ensures Represents(p[i := Root(p, i)], united)
    ensures SameRoots(p, p[i := Root(p, i)])
  {
    var q := p[i := Root(p, i)];
    CompressKeepsRoots(p, i, i);
    RootFacts(p, i);
    RedirectDescends(p, i, Root(p, i));
    forall e | e in p ensures SameRoot(p, q, e) {
      CompressKeepsRoots(p, i, e);
    }
    forall e | e in q ensures Anchored(q, united, e) {
      assert Anchored(p, united, e) && SameRoot(p, q, e);
    }
    forall u | u in united ensures Root(q, u.0) == Root(q, u.1) {
      assert SameRoot(p, q, u.0) && SameRoot(p, q, u.1);
    }
  }

  lemma UniteRepresents(p: map<string, string>, q: map<string, string>, united: set<(string, string)>, i: string, j: string)
    requires Represents(p, united) && i in p && j in p
    requires var ri, rj := Root(p, i), Root(p, j);
             q == if ri == rj then p else if Less(ri, rj) then p[rj := ri] else p[ri := rj]
    ensures Represents(q, united + {(i, j)})
  {
    var ri, rj := Root(p, i), Root(p, j);
    var joined := united + {(i, j)};
    var links := Undirected(joined);
    UndirectedSymmetric(joined);
    RootFacts(p, i);
    RootFacts(p, j);
    LessTotal(ri, rj);
    forall e | e in p ensures Anchored(p, joined, e) {
      assert Anchored(p, united, e);
      ReachesMonotone(Undirected(united), links, e, Root(p, e));
    }
    if ri != rj {
      var hi, lo := if Less(ri, rj) then rj else ri, if Less(ri, rj) then ri else rj;
      assert q == p[hi := lo] && q.Keys == p.Keys;
      assert Reaches(links, hi, lo) by {
        assert (i, j) in links && (j, i) in links;
        assert Anchored(p, joined, i) && Anchored(p, joined, j);
        SymmetricReaches(links, i, ri);
        ReachesSnoc(links, ri, i, j);
        ReachesTrans(links, ri, j, rj);
        SymmetricReaches(links, ri, rj);
      }
      AttachMovesRoot(p, hi, lo, i);
      AttachMovesRoot(p, hi, lo, j);
      forall u | u in joined ensures Root(q, u.0) == Root(q, u.1) {
        AttachMovesRoot(p, hi, lo, u.0);
        AttachMovesRoot(p, hi, lo, u.1);
      }
      forall e | e in q ensures Anchored(q, joined, e) {
        AttachMovesRoot(p, hi, lo, e);
        assert Anchored(p, joined, e);
        if Root(p, e) == hi {
          ReachesTrans(links, e, hi, lo);
        }
      }
    }
  }

  // ----- grouping by root -----

  /**
   `comps` lists the classes of the equivalence generated by `united` on `keys`: every key is in some
   component, each component is one whole class in increasing order, and components are ordered by
   their smallest member.
   */
  ghost predicate ListsClasses(comps: seq<seq<string>>, keys: set<string>, united: set<(string, string)>) {
    && (forall x :: x in keys ==> Grouped(comps, x))
    && (forall k :: 0 <= k < |comps| ==> comps[k] != [] && Increasing(comps[k]))
    && (forall k, x, y :: 0 <= k < |comps| && x in comps[k] ==>
          (y in comps[k] <==> y in keys && x in keys && Reaches(Undirected(united), x, y)))
    && (forall k, l :: 0 <= k < l < |comps| && comps[k] != [] && comps[l] != [] ==> Less(comps[k][0], comps[l][0]))
  }

  ghost predicate Grouped(comps: seq<seq<string>>, x: string) {
    exists k :: 0 <= k < |comps| && x in comps[k]
  }

  ghost predicate Increasing(s: seq<string>) {
    forall i, j :: 0 <= i < j < |s| ==> Less(s[i], s[j])
  }

  /** `group` holds, once each, the members of `seen` whose root is `r`. */
  ghost predicate GroupOf(parent: map<string, string>, seen: seq<string>, r: string, group: seq<string>)
    requires Descending(parent) && forall e :: e in seen ==> e in parent
  {
    Distinct(group) && forall x :: x in group <==> x in seen && Root(parent, x) == r
  }

  /** The state of the grouping loop: `roots` are the keys of `groups` in insertion order. */
  ghost predicate Grouping(parent: map<string, string>, seen: seq<string>, roots: seq<string>, groups: map<string, seq<string>>) {
    && Descending(parent) && (forall e :: e in seen ==> e in parent)
    && Distinct(roots) && (forall r :: r in roots <==> r in groups)
    && (forall r :: r in groups ==> groups[r] != [] && GroupOf(parent, seen, r, groups[r]))
    && (forall x :: x in seen ==> Root(parent, x) in groups)
  }

  lemma GroupingStep(parent: map<string, string>, seen: seq<string>, roots: seq<string>,
                     groups: map<string, seq<string>>, e: string, roots': seq<string>, groups': map<string, seq<string>>)
    requires Grouping(parent, seen, roots, groups) && e in parent && e !in seen
    requires var r := Root(parent, e);
             && roots' == (if r in groups then roots else roots + [r])
             && groups' == groups[r := (if r in groups then groups[r] else []) + [e]]
    ensures Grouping(parent, seen + [e], roots', groups')
  {
    var r := Root(parent, e);
    assert forall x :: x in seen + [e] <==> x in seen || x == e;
    forall q | q in groups' ensures groups'[q] != [] && GroupOf(parent, seen + [e], q, groups'[q]) {
      if q == r {
        if r in groups {
          assert GroupOf(parent, seen, r, groups[r]);
        }
      } else {
        assert GroupOf(parent, seen, q, groups[q]);
      }
    }
  }

  /** Grouping relative to one parent map is grouping relative to any other with the same roots. */
  lemma GroupingTransfer(p: map<string, string>, q: map<string, string>, seen: seq<string>, roots: seq<string>,
                         groups: map<string, seq<string>>)
    requires Grouping(p, seen, roots, groups) && SameRoots(p, q)
    ensures Grouping(q, seen, roots, groups)
  {
    forall x | x in seen ensures Root(q, x) == Root(p, x) {
      assert SameRoot(p, q, x);
    }
    forall r | r in groups ensures GroupOf(q, seen, r, groups[r]) {
      assert GroupOf(p, seen, r, groups[r]);
    }
  }

  function Smallest(group: seq<string>): string {
    if group == [] then "" else SortMembers(ByKey((x: string) => x), group); SortStrings(group)[0]
  }

  /** The smallest member of a complete group is its root. */
  lemma SmallestIsRoot(parent: map<string, string>, keys: seq<string>, r: string, group: seq<string>)
    requires Descending(parent) && Distinct(keys) && forall e :: e in keys <==> e in parent
    requires GroupOf(parent, keys, r, group) && group != []
    ensures Smallest(group) == r && Increasing(SortStrings(group)) && SortStrings(group) != []
    ensures SortStrings(group)[0] == r
    ensures forall x :: x in SortStrings(group) <==> x in group
  {
    SortStringsStrict(group);
    RootFacts(parent, group[0]);
    assert group[0] in group && r in keys && r in group;
    var s := SortStrings(group);
    var k :| 0 <= k < |s| && s[k] == r;
    assert s[0] in group;
    RootFacts(parent, s[0]);
    LessIrreflexive(r);
    if Less(s[0], r) {
      LessAsymmetric(s[0], r);
    }
  }

  lemma SameRootsTransitive(p: map<string, string>, q: map<string, string>, r: map<string, string>)
    requires SameRoots(p, q) && SameRoots(q, r)
    ensures SameRoots(p, r)
  {
    forall e | e in p ensures SameRoot(p, r, e) {
      assert SameRoot(p, q, e) && SameRoot(q, r, e);
    }
  }

  lemma ComponentsList(parent: map<string, string>, united: set<(string, string)>, keys: seq<string>, roots: seq<string>,
                       groups: map<string, seq<string>>, values: seq<seq<string>>, comps: seq<seq<string>>)
    requires Represents(parent, united) && Distinct(keys) && forall e :: e in keys <==> e in parent
    requires Grouping(parent, keys, roots, groups)
    requires |values| == |roots| && forall k :: 0 <= k < |roots| ==> values[k] == groups[roots[k]]
    requires var ordered := Sort(ByKey(Smallest), values);
             |comps| == |ordered| && forall k :: 0 <= k < |ordered| ==> comps[k] == SortStrings(ordered[k])
    ensures ListsClasses(comps, parent.Keys, united)
  {
    var ordered := Sort(ByKey(Smallest), values);
    SortMembers(ByKey(Smallest), values);
    ByKeyConsistent(Smallest);
    SortSorts(ByKey(Smallest), values);
    forall v | v in values ensures v != [] && Smallest(v) in groups && v == groups[Smallest(v)] {
      var k :| 0 <= k < |roots| && values[k] == v;
      SmallestIsRoot(parent, keys, roots[k], v);
    }
    assert Distinct(values) by {
      forall i, j | 0 <= i < j < |values| ensures values[i] != values[j] {
        SmallestIsRoot(parent, keys, roots[i], values[i]);
        SmallestIsRoot(parent, keys, roots[j], values[j]);
      }
    }
    SortDistinct(ByKey(Smallest), values);
    forall k | 0 <= k < |comps|
      ensures comps[k] != [] && Increasing(comps[k]) && comps[k][0] == Smallest(ordered[k])
      ensures forall x :: x in comps[k] <==> x in parent && Root(parent, x) == comps[k][0]
    {
      assert ordered[k] in values;
      SmallestIsRoot(parent, keys, Smallest(ordered[k]), ordered[k]);
    }
    forall k, l | 0 <= k < l < |comps| ensures Less(comps[k][0], comps[l][0]) {
      assert !ByKey(Smallest)(ordered[l], ordered[k]);
      assert ordered[k] in values && ordered[l] in values && ordered[k] != ordered[l];
      LessTotal(comps[k][0], comps[l][0]);
    }
    forall k, x, y | 0 <= k < |comps| && x in comps[k]
      ensures y in comps[k] <==> y in parent.Keys && x in parent.Keys && Reaches(Undirected(united), x, y)
    {
      if y in parent {
        SameRootIffConnected(parent, united, x, y);
      }
    }
    forall x | x in parent.Keys ensures Grouped(comps, x) {
      var r := Root(parent, x);
      var i :| 0 <= i < |roots| && roots[i] == r;
      assert values[i] in values;
      var k :| 0 <= k < |ordered| && ordered[k] == values[i];
      SmallestIsRoot(parent, keys, r, values[i]);
      assert x in comps[k];
    }
  }

  class UnionFind {
    /** The keys of `parent` in insertion order. */
    const keys: seq<string>
    var parent: map<string, string>
    ghost var united: set<(string, string)>

    ghost predicate Valid()
      reads this
    {
      Represents(parent, united) && Distinct(keys) && forall e :: e in keys <==> e in parent
    }

    constructor (elements: seq<string>)
      ensures Valid() && united == {} && forall e :: e in keys <==> e in elements
    {
      var ks: seq<string>, p: map<string, string> := [], map[];
      for i := 0 to |elements|
        invariant Distinct(ks) && (forall e :: e in ks <==> e in elements[..i]) && (forall e :: e in p <==> e in ks)
        invariant forall e :: e in p ==> p[e] == e
      {
        assert elements[..i + 1] == elements[..i] + [elements[i]];
        if elements[i] !in p {
          ks := ks + [elements[i]];
        }
        p := p[elements[i] := elements[i]];
      }
      assert elements[..|elements|] == elements;
      keys, parent, united := ks, p, {};
      forall e | e in p ensures Anchored(p, {}, e) {
        ReachesSelf(Undirected({}), e);
      }
    }

    method Find(i: string) returns (r: string)
      requires Valid() && i in parent
      modifies this`parent
      ensures Valid() && SameRoots(old(parent), parent)
      ensures r == Root(old(parent), i) && parent[i] == r
      decreases Below(parent.Keys, i)
    {
      if parent[i] == i {
        return i;
      }
      StepDown(parent, i);
      ghost var before := parent;
      r := Find(parent[i]);
      ghost var during := parent;
      assert SameRoot(before, during, i) && SameRoot(before, during, before[i]);
      CompressRepresents(during, i, united);
      parent := parent[i := r];
      forall e | e in before ensures SameRoot(before, parent, e) {
        assert SameRoot(before, during, e) && SameRoot(during, parent, e);
      }
    }

    method Union(i: string, j: string)
      requires Valid() && i in parent && j in parent
      modifies this
      ensures Valid() && parent.Keys == old(parent).Keys && united == old(united) + {(i, j)}
    {
      ghost var p := parent;
      var rootI := Find(i);
      ghost var p1 := parent;
      var rootJ := Find(j);
      ghost var before := parent;
      assert SameRoot(p, p1, i) && SameRoot(p1, before, i) && SameRoot(p1, before, j);
      RootFacts(before, i);
      RootFacts(before, j);
      if rootI != rootJ {
        if Less(rootI, rootJ) {
          parent := parent[rootJ := rootI];
        } else {
          parent := parent[rootI := rootJ];
        }
      }
      UniteRepresents(before, parent, united, i, j);
      assert parent.Keys == before.Keys;
      united := united + {(i, j)};
    }

    /** The classes, each sorted, in the order of their smallest members. */
    method Components() returns (comps: seq<seq<string>>)
      requires Valid()
      modifies this`parent
      ensures Valid() && SameRoots(old(parent), parent)
      ensures ListsClasses(comps, parent.Keys, united)
    {
      ghost var before := parent;
      var roots: seq<string>, groups: map<string, seq<string>> := [], map[];
      for i := 0 to |keys|
        invariant Valid() && SameRoots(before, parent)
        invariant Grouping(parent, keys[..i], roots, groups)
      {
        var elem := keys[i];
        ghost var p := parent;
        var root := Find(elem);
        assert SameRoot(p, parent, elem);
        GroupingTransfer(p, parent, keys[..i], roots, groups);
        SameRootsTransitive(before, p, parent);
        ghost var rs, gs := roots, groups;
        if root !in groups {
          roots := roots + [root];
          groups := groups[root := []];
        }
        groups := groups[root := groups[root] + [elem]];
        assert keys[..i + 1] == keys[..i] + [elem];
        GroupingStep(parent, keys[..i], rs, gs, elem, roots, groups);
      }
      assert keys[..|keys|] == keys;
      var values := seq(|roots|, k requires 0 <= k < |roots| && roots[k] in groups => groups[roots[k]]);
      var ordered := Sort(ByKey(Smallest), values);
      comps := seq(|ordered|, k requires 0 <= k < |ordered| => SortStrings(ordered[k]));
      ComponentsList(parent, united, keys, roots, groups, values, comps);
    }
  }
}
