/**
 Paths and reachability in a finite relation on ids. The graph algorithms, the correlator
 and the integrity checker all state their results in these terms.
 */
module Reach {

  /** `p` lists, in order, the ids visited after leaving `a`; the last one is `b`. */
  ghost predicate Path(e: set<(string, string)>, a: string, p: seq<string>, b: string)
    decreases |p|
  {
    if p == [] then a == b else (a, p[0]) in e && Path(e, p[0], p[1..], b)
  }

  ghost predicate Reaches(e: set<(string, string)>, a: string, b: string) {
    exists p :: Path(e, a, p, b)
  }

  /** `a` lies on a directed cycle (a self-loop counts). */
  ghost predicate OnCycle(e: set<(string, string)>, a: string) {
    exists b :: (a, b) in e && Reaches(e, b, a)
  }

  ghost function Inverse(e: set<(string, string)>): set<(string, string)> {
    set pair | pair in e :: (pair.1, pair.0)
  }

  ghost predicate Symmetric(e: set<(string, string)>) {
    forall x, y :: (x, y) in e ==> (y, x) in e
  }

  ghost function Undirected(e: set<(string, string)>): set<(string, string)> {
    e + Inverse(e)
  }

  lemma {:induction false} PathAppend(e: set<(string, string)>, a: string, p: seq<string>, b: string, q: seq<string>, c: string)
    requires Path(e, a, p, b) && Path(e, b, q, c)
    ensures Path(e, a, p + q, c)
    decreases |p|
  {
    if p == [] {
      assert p + q == q;
    } else {
      PathAppend(e, p[0], p[1..], b, q, c);
      assert (p + q)[1..] == p[1..] + q;
    }
  }

  lemma ReachesSelf(e: set<(string, string)>, a: string)
    ensures Reaches(e, a, a)
  {
    assert Path(e, a, [], a);
  }

  lemma ReachesEdge(e: set<(string, string)>, a: string, b: string)
    requires (a, b) in e
    ensures Reaches(e, a, b)
  {
    assert Path(e, b, [b][1..], b);
    assert Path(e, a, [b], b);
  }

  lemma ReachesTrans(e: set<(string, string)>, a: string, b: string, c: string)
    requires Reaches(e, a, b) && Reaches(e, b, c)
    ensures Reaches(e, a, c)
  {
    var p :| Path(e, a, p, b);
    var q :| Path(e, b, q, c);
    PathAppend(e, a, p, b, q, c);
  }

  lemma ReachesSnoc(e: set<(string, string)>, a: string, b: string, c: string)
    requires Reaches(e, a, b) && (b, c) in e
    ensures Reaches(e, a, c)
  {
    ReachesEdge(e, b, c);
    ReachesTrans(e, a, b, c);
  }

  /** What every edge preserves, every path preserves. */
  lemma {:induction false} PathKeeps(e: set<(string, string)>, inv: string -> bool, a: string, p: seq<string>, b: string)
    requires forall x, y :: (x, y) in e && inv(x) ==> inv(y)
    requires Path(e, a, p, b) && inv(a)
    ensures inv(b)
    decreases |p|
  {
    if p != [] {
      PathKeeps(e, inv, p[0], p[1..], b);
    }
  }

  lemma ReachesKeeps(e: set<(string, string)>, inv: string -> bool, a: string, b: string)
    requires forall x, y :: (x, y) in e && inv(x) ==> inv(y)
    requires Reaches(e, a, b) && inv(a)
    ensures inv(b)
  {
    var p :| Path(e, a, p, b);
    PathKeeps(e, inv, a, p, b);
  }

  /** A set closed under the relation holds everything reachable from its members. */
  lemma ClosedSet(e: set<(string, string)>, s: set<string>, a: string, b: string)
    requires forall x, y :: (x, y) in e && x in s ==> y in s
    requires a in s && Reaches(e, a, b)
    ensures b in s
  {
    ReachesKeeps(e, x => x in s, a, b);
  }

  lemma {:induction false} PathMonotone(e: set<(string, string)>, f: set<(string, string)>, a: string, p: seq<string>, b: string)
    requires e <= f && Path(e, a, p, b)
    ensures Path(f, a, p, b)
    decreases |p|
  {
    if p != [] {
      PathMonotone(e, f, p[0], p[1..], b);
    }
  }

  lemma ReachesMonotone(e: set<(string, string)>, f: set<(string, string)>, a: string, b: string)
    requires e <= f && Reaches(e, a, b)
    ensures Reaches(f, a, b)
  {
    var p :| Path(e, a, p, b);
    PathMonotone(e, f, a, p, b);
  }

  lemma {:induction false} PathReverse(e: set<(string, string)>, a: string, p: seq<string>, b: string)
    requires Path(e, a, p, b)
    ensures Reaches(Inverse(e), b, a)
    decreases |p|
  {
    if p == [] {
      ReachesSelf(Inverse(e), a);
    } else {
      PathReverse(e, p[0], p[1..], b);
      ReachesSnoc(Inverse(e), b, p[0], a);
    }
  }

  /** Reaching backwards over reversed edges is reaching forwards. */
  lemma ReachesInverse(e: set<(string, string)>, a: string, b: string)
    ensures Reaches(Inverse(e), b, a) <==> Reaches(e, a, b)
  {
    if Reaches(e, a, b) {
      var p :| Path(e, a, p, b);
      PathReverse(e, a, p, b);
    }
    if Reaches(Inverse(e), b, a) {
      var p :| Path(Inverse(e), b, p, a);
      PathReverse(Inverse(e), b, p, a);
      assert Inverse(Inverse(e)) == e;
    }
  }

  lemma SymmetricReaches(e: set<(string, string)>, a: string, b: string)
    requires Symmetric(e) && Reaches(e, a, b)
    ensures Reaches(e, b, a)
  {
    assert Inverse(e) == e by {
      forall x, y ensures (x, y) in Inverse(e) <==> (x, y) in e {
      }
    }
    ReachesInverse(e, a, b);
  }

  lemma UndirectedSymmetric(e: set<(string, string)>)
    ensures Symmetric(Undirected(e))
  {
  }
}
