/** Work-list traversals of the code property graph (karsasec/cpg/traversal.py). */
module Traversal {
  import opened Reach
  import opened CpgModels

  function Targets(es: seq<CPGEdge>): (ids: seq<string>)
    ensures |ids| == |es| && forall i :: 0 <= i < |es| ==> ids[i] == es[i].targetId
  {
    seq(|es|, i requires 0 <= i < |es| => es[i].targetId)
  }

  function Sources(es: seq<CPGEdge>): (ids: seq<string>)
    ensures |ids| == |es| && forall i :: 0 <= i < |es| ==> ids[i] == es[i].sourceId
  {
    seq(|es|, i requires 0 <= i < |es| => es[i].sourceId)
  }

  /** The targets of the edges leaving a node, in insertion order. */
  ghost function Successors(edges: seq<CPGEdge>): string -> seq<string> {
    id => Targets(EdgesFrom(edges, id))
  }

  /** The sources of the edges entering a node, in insertion order. */
  ghost function Predecessors(edges: seq<CPGEdge>): string -> seq<string> {
    id => Sources(EdgesInto(edges, id))
  }

  ghost function IdSet(s: seq<string>): set<string> {
    set x | x in s
  }

  ghost function NodeIds(ns: seq<CPGNode>): (ids: seq<string>)
    ensures |ids| == |ns| && forall i :: 0 <= i < |ns| ==> ids[i] == ns[i].id
  {
    seq(|ns|, i requires 0 <= i < |ns| => ns[i].id)
  }

  /** The ids of `ids` that have not been visited, in order: what one expansion adds to the work list. */
  ghost function Unvisited(ids: seq<string>, visited: set<string>): seq<string> {
    if ids == [] then []
    else
      var init, last := ids[..|ids| - 1], ids[|ids| - 1];
      if last !in visited then Unvisited(init, visited) + [last] else Unvisited(init, visited)
  }

  lemma {:induction false} UnvisitedMembers(ids: seq<string>, visited: set<string>)
    ensures forall x :: x in Unvisited(ids, visited) <==> x in ids && x !in visited
  {
    if ids != [] {
      UnvisitedMembers(ids[..|ids| - 1], visited);
      assert ids == ids[..|ids| - 1] + [ids[|ids| - 1]];
    }
  }

  // ----- what a full listing promises -----

  /** `ids` lists, once each, exactly the declared nodes reachable from `start` through declared nodes. */
  ghost predicate ListsReachable(links: set<(string, string)>, declared: set<string>, start: string, ids: seq<string>) {
    && (forall i, j :: 0 <= i < j < |ids| ==> ids[i] != ids[j])
    && (forall x :: x in ids <==>
          start in declared && x in declared && Reaches(Within(links, declared), start, x))
  }

  /**
   Depth-first order: whenever c was already waiting (as a successor of a) when b was listed before
   it, b was discovered from a node listed no earlier than a.
   */
  ghost predicate DepthFirstOrder(links: set<(string, string)>, ids: seq<string>) {
    forall i, j, k :: 0 <= i < j < k < |ids| && (ids[i], ids[k]) in links
      ==> exists m :: i <= m < j && (ids[m], ids[j]) in links
  }

  /** Breadth-first order: in the same situation b was discovered from a node listed no later than a. */
  ghost predicate BreadthFirstOrder(links: set<(string, string)>, ids: seq<string>) {
    forall i, j, k :: 0 <= i < j < k < |ids| && (ids[i], ids[k]) in links
      ==> exists m :: 0 <= m <= i && (ids[m], ids[j]) in links
  }

  // ----- the invariant shared by the three listings -----

  /**
   `order` has been listed; `waiting` is the work list, and `from[k]` is the index in `order` of the
   node whose expansion queued `waiting[k]` (-1 for the start). `parent[j]` is the node that queued
   the entry by which order[j] was listed.
   */
  ghost predicate Search(links: set<(string, string)>, declared: set<string>, start: string, order: seq<string>,
                         waiting: seq<string>, from: seq<int>, parent: seq<int>) {
    && |from| == |waiting| && |parent| == |order|
    && Listed(links, declared, start, order)
    && (if order == [] then waiting == [start] || (waiting == [] && start !in declared)
        else start in order && Origins(links, order, waiting, from) && Covered(links, declared, order, waiting, from))
    && (forall j :: 0 < j < |order| ==> 0 <= parent[j] < j && (order[parent[j]], order[j]) in links)
  }

  ghost predicate Listed(links: set<(string, string)>, declared: set<string>, start: string, order: seq<string>) {
    && (forall i, j :: 0 <= i < j < |order| ==> order[i] != order[j])
    && (forall i :: 0 <= i < |order| ==> order[i] in declared && Reaches(Within(links, declared), start, order[i]))
  }

  /** Every entry was queued by a listed node, and entries queued later stand later. */
  ghost predicate Origins(links: set<(string, string)>, order: seq<string>, waiting: seq<string>, from: seq<int>)
    requires |from| == |waiting|
  {
    && (forall k :: 0 <= k < |from| ==> 0 <= from[k] < |order| && (order[from[k]], waiting[k]) in links)
    && (forall k, l :: 0 <= k < l < |from| ==> from[k] <= from[l])
  }

  /** Every successor still to be listed is queued by each of its listed predecessors. */
  ghost predicate Covered(links: set<(string, string)>, declared: set<string>, order: seq<string>,
                          waiting: seq<string>, from: seq<int>)
    requires |from| == |waiting|
  {
    forall i, c :: 0 <= i < |order| && (order[i], c) in links && c in declared && c !in order
      ==> Queued(waiting, from, c, i)
  }

  ghost predicate Queued(waiting: seq<string>, from: seq<int>, c: string, i: int)
    requires |from| == |waiting|
  {
    exists k :: 0 <= k < |waiting| && waiting[k] == c && from[k] == i
  }

  /** The order in which parents were chosen: latest first for a stack, earliest first for a queue. */
  ghost predicate Disciplined(depthFirst: bool, links: set<(string, string)>, declared: set<string>,
                              order: seq<string>, parent: seq<int>)
    requires |parent| == |order|
  {
    forall i, j, c :: 0 <= i < j < |order| && (order[i], c) in links && c in declared && c !in order[..j + 1]
      ==> if depthFirst then i <= parent[j] else parent[j] <= i
  }

  ghost function Without<T>(s: seq<T>, at: nat): seq<T>
    requires at < |s|
  {
    s[..at] + s[at + 1..]
  }

  lemma WithoutFirst<T>(s: seq<T>)
    requires s != []
    ensures Without(s, 0) == s[1..]
  {
    assert s[..0] + s[1..] == s[1..];
  }

  lemma QueuedWithout(waiting: seq<string>, from: seq<int>, at: nat, c: string, i: int)
    requires |from| == |waiting| && at < |waiting| && Queued(waiting, from, c, i) && waiting[at] != c
    ensures Queued(Without(waiting, at), Without(from, at), c, i)
  {
    var k :| 0 <= k < |waiting| && waiting[k] == c && from[k] == i;
    var k' := if k < at then k else k - 1;
    assert Without(waiting, at)[k'] == c && Without(from, at)[k'] == i;
  }

  /** Dropping an entry whose node is listed or undeclared keeps the invariant. */
  lemma SkipEntry(links: set<(string, string)>, declared: set<string>, start: string, order: seq<string>,
                  waiting: seq<string>, from: seq<int>, parent: seq<int>, at: nat)
    requires Search(links, declared, start, order, waiting, from, parent)
    requires at < |waiting| && (waiting[at] in order || waiting[at] !in declared)
    ensures Search(links, declared, start, order, Without(waiting, at), Without(from, at), parent)
  {
    if order != [] {
      DropOrigin(links, order, waiting, from, at);
      forall i, c | 0 <= i < |order| && (order[i], c) in links && c in declared && c !in order
        ensures Queued(Without(waiting, at), Without(from, at), c, i)
      {
        assert Queued(waiting, from, c, i);
        QueuedWithout(waiting, from, at, c, i);
      }
    }
  }

  lemma DropOrigin(links: set<(string, string)>, order: seq<string>, waiting: seq<string>, from: seq<int>, at: nat)
    requires |from| == |waiting| && at < |waiting| && Origins(links, order, waiting, from)
    ensures Origins(links, order, Without(waiting, at), Without(from, at))
  {
    var w, f := Without(waiting, at), Without(from, at);
    forall k | 0 <= k < |f|
      ensures 0 <= f[k] < |order| && (order[f[k]], w[k]) in links
    {
      var k' := if k < at then k else k + 1;
      assert f[k] == from[k'] && w[k] == waiting[k'];
    }
  }

  ghost function Repeat(v: int, n: nat): (r: seq<int>)
    ensures |r| == n && forall i :: 0 <= i < n ==> r[i] == v
  {
    seq(n, _ => v)
  }

  /** Appending the successors `next` of the node `curr` just listed at the end of `order`. */
  lemma AddOrigins(links: set<(string, string)>, declared: set<string>, order: seq<string>, curr: string,
                   waiting: seq<string>, from: seq<int>, next: seq<string>)
    requires |from| == |waiting| && Origins(links, order, waiting, from)
    requires forall i, c :: 0 <= i < |order| && (order[i], c) in links && c in declared && c !in order + [curr]
               ==> Queued(waiting, from, c, i)
    requires forall c :: c in next <==> (curr, c) in links && c !in order + [curr]
    ensures Origins(links, order + [curr], waiting + next, from + Repeat(|order|, |next|))
    ensures Covered(links, declared, order + [curr], waiting + next, from + Repeat(|order|, |next|))
  {
    var order', n := order + [curr], |order|;
    var waiting', from' := waiting + next, from + Repeat(n, |next|);
    forall k | 0 <= k < |from'|
      ensures 0 <= from'[k] < |order'| && (order'[from'[k]], waiting'[k]) in links
    {
      if k >= |waiting| {
        assert waiting'[k] == next[k - |waiting|] && waiting'[k] in next;
      }
    }
    forall i, c | 0 <= i < |order'| && (order'[i], c) in links && c in declared && c !in order'
      ensures Queued(waiting', from', c, i)
    {
      if i < n {
        assert Queued(waiting, from, c, i);
        var k :| 0 <= k < |waiting| && waiting[k] == c && from[k] == i;
        assert waiting'[k] == c && from'[k] == i;
      } else {
        assert c in next;
        var k :| 0 <= k < |next| && next[k] == c;
        assert waiting'[|waiting| + k] == c && from'[|waiting| + k] == n;
      }
    }
  }

  /** Listing the entry at `at` and queueing its unvisited successors `next` keeps the invariant. */
  lemma VisitEntry(links: set<(string, string)>, declared: set<string>, start: string, order: seq<string>,
                   waiting: seq<string>, from: seq<int>, parent: seq<int>, at: nat, next: seq<string>)
    requires Search(links, declared, start, order, waiting, from, parent)
    requires at < |waiting| && waiting[at] !in order && waiting[at] in declared
    requires forall c :: c in next <==> (waiting[at], c) in links && c !in order + [waiting[at]]
    ensures Search(links, declared, start, order + [waiting[at]],
                   Without(waiting, at) + next, Without(from, at) + Repeat(|order|, |next|), parent + [from[at]])
  {
    var curr, w, f := waiting[at], Without(waiting, at), Without(from, at);
    assert Reaches(Within(links, declared), start, curr) by {
      if order == [] {
        ReachesSelf(Within(links, declared), start);
      } else {
        assert (order[from[at]], curr) in Within(links, declared);
        ReachesSnoc(Within(links, declared), start, order[from[at]], curr);
      }
    }
    if order != [] {
      DropOrigin(links, order, waiting, from, at);
    }
    forall i, c | 0 <= i < |order| && (order[i], c) in links && c in declared && c !in order + [curr]
      ensures Queued(w, f, c, i)
    {
      assert Queued(waiting, from, c, i);
      QueuedWithout(waiting, from, at, c, i);
    }
    AddOrigins(links, declared, order, curr, w, f, next);
  }

  /** A stack takes the entry queued last, a queue the one queued first. */
  lemma VisitKeepsDiscipline(depthFirst: bool, links: set<(string, string)>, declared: set<string>, start: string,
                             order: seq<string>, waiting: seq<string>, from: seq<int>, parent: seq<int>, at: nat)
    requires Search(links, declared, start, order, waiting, from, parent)
    requires Disciplined(depthFirst, links, declared, order, parent)
    requires at < |waiting| && at == if depthFirst then |waiting| - 1 else 0
    ensures Disciplined(depthFirst, links, declared, order + [waiting[at]], parent + [from[at]])
  {
    var order', parent' := order + [waiting[at]], parent + [from[at]];
    forall i, j, c | 0 <= i < j < |order'| && (order'[i], c) in links && c in declared && c !in order'[..j + 1]
      ensures if depthFirst then i <= parent'[j] else parent'[j] <= i
    {
      if j < |order| {
        assert order'[..j + 1] == order[..j + 1];
      } else {
        assert order'[..j + 1] == order';
        assert order[i] == order'[i] && c !in order;
        assert Queued(waiting, from, c, i);
        var k :| 0 <= k < |waiting| && waiting[k] == c && from[k] == i;
      }
    }
  }

  lemma SearchDone(links: set<(string, string)>, declared: set<string>, start: string, order: seq<string>, parent: seq<int>)
    requires Search(links, declared, start, order, [], [], parent)
    ensures ListsReachable(links, declared, start, order)
  {
    forall x | start in declared && x in declared && Reaches(Within(links, declared), start, x)
      ensures x in order
    {
      forall a, b | (a, b) in Within(links, declared) && a in IdSet(order)
        ensures b in IdSet(order)
      {
        var i :| 0 <= i < |order| && order[i] == a;
        assert b in order || Queued([], [], b, i);
      }
      ClosedSet(Within(links, declared), IdSet(order), start, x);
    }
  }

  lemma OrderOfDiscipline(depthFirst: bool, links: set<(string, string)>, declared: set<string>, start: string,
                          order: seq<string>, waiting: seq<string>, from: seq<int>, parent: seq<int>)
    requires Search(links, declared, start, order, waiting, from, parent)
    requires Disciplined(depthFirst, links, declared, order, parent)
    ensures if depthFirst then DepthFirstOrder(links, order) else BreadthFirstOrder(links, order)
  {
    forall i, j, k | 0 <= i < j < k < |order| && (order[i], order[k]) in links
      ensures exists m :: (if depthFirst then i <= m < j else 0 <= m <= i) && (order[m], order[j]) in links
    {
      assert order[k] !in order[..j + 1];
      assert (order[parent[j]], order[j]) in links;
    }
  }

  // ----- the order among the successors of one node -----

  /** The positions of the entries that `Unvisited` keeps. */
  ghost function UnvisitedAt(ids: seq<string>, visited: set<string>): seq<int> {
    if ids == [] then []
    else
      var n := |ids| - 1;
      if ids[n] !in visited then UnvisitedAt(ids[..n], visited) + [n] else UnvisitedAt(ids[..n], visited)
  }

  lemma {:induction false} UnvisitedPositions(ids: seq<string>, visited: set<string>)
    ensures |UnvisitedAt(ids, visited)| == |Unvisited(ids, visited)|
    ensures forall k :: 0 <= k < |UnvisitedAt(ids, visited)| ==>
              0 <= UnvisitedAt(ids, visited)[k] < |ids| && ids[UnvisitedAt(ids, visited)[k]] == Unvisited(ids, visited)[k]
    ensures forall k, l :: 0 <= k < l < |UnvisitedAt(ids, visited)| ==> UnvisitedAt(ids, visited)[k] < UnvisitedAt(ids, visited)[l]
  {
    if ids != [] {
      UnvisitedPositions(ids[..|ids| - 1], visited);
    }
  }

  /** `ids[j]` was listed through the successor number `rank[j]` of `ids[parent[j]]`. */
  ghost predicate ListedThrough(succ: string -> seq<string>, ids: seq<string>, parent: seq<int>, rank: seq<int>, j: int) {
    && 0 <= j < |ids| == |parent| == |rank| && 0 <= parent[j] < |ids| && parent[j] < j
    && 0 <= rank[j] < |succ(ids[parent[j]])| && succ(ids[parent[j]])[rank[j]] == ids[j]
  }

  /** Of two successors of one node the one with the first turn is listed first: the last for a stack. */
  ghost predicate TurnKept(depthFirst: bool, parent: seq<int>, rank: seq<int>, j: int, k: int) {
    0 <= j < |parent| == |rank| && 0 <= k < |parent| && parent[j] == parent[k] ==>
      if depthFirst then rank[k] < rank[j] else rank[j] < rank[k]
  }

  ghost predicate InTurn(depthFirst: bool, succ: string -> seq<string>, ids: seq<string>, parent: seq<int>, rank: seq<int>) {
    && |parent| == |ids| && |rank| == |ids|
    && (forall j :: 0 < j < |ids| ==> ListedThrough(succ, ids, parent, rank, j))
    && (forall j, k :: 0 < j < k < |ids| ==> TurnKept(depthFirst, parent, rank, j, k))
  }

  /**
   The listing follows the search tree: each node is listed through the parent that the discipline
   chooses, the successors of one parent first to last for a queue and last to first for a stack.
   */
  ghost predicate FollowsTree(depthFirst: bool, links: set<(string, string)>, declared: set<string>,
                              succ: string -> seq<string>, ids: seq<string>) {
    exists parent, rank :: InTurn(depthFirst, succ, ids, parent, rank) && Disciplined(depthFirst, links, declared, ids, parent)
  }

  /** The waiting entry `k` is successor number `pos[k]` of the node that queued it. */
  ghost predicate WaitsThrough(succ: string -> seq<string>, order: seq<string>, waiting: seq<string>, from: seq<int>,
                               pos: seq<int>, k: int) {
    && 0 <= k < |waiting| == |from| == |pos|
    && (from[k] >= 0 ==>
          from[k] < |order| && 0 <= pos[k] < |succ(order[from[k]])| && succ(order[from[k]])[pos[k]] == waiting[k])
  }

  ghost predicate WaitsBefore(from: seq<int>, pos: seq<int>, k: int, l: int) {
    0 <= k < |from| == |pos| && 0 <= l < |from| && from[k] == from[l] >= 0 ==> pos[k] < pos[l]
  }

  /** What is listed of the successors of a node comes before what still waits of them. */
  ghost predicate ListedBefore(depthFirst: bool, parent: seq<int>, rank: seq<int>, from: seq<int>, pos: seq<int>, j: int, k: int) {
    0 <= j < |parent| == |rank| && 0 <= k < |from| == |pos| && parent[j] == from[k] ==>
      if depthFirst then pos[k] < rank[j] else rank[j] < pos[k]
  }

  ghost predicate Ranked(depthFirst: bool, succ: string -> seq<string>, order: seq<string>, waiting: seq<string>,
                         from: seq<int>, parent: seq<int>, pos: seq<int>, rank: seq<int>) {
    && |from| == |waiting| && |pos| == |waiting| && InTurn(depthFirst, succ, order, parent, rank)
    && (forall k :: 0 <= k < |waiting| ==> WaitsThrough(succ, order, waiting, from, pos, k))
    && (forall k, l :: 0 <= k < l < |waiting| ==> WaitsBefore(from, pos, k, l))
    && (forall j, k :: 0 < j < |parent| && 0 <= k < |from| ==> ListedBefore(depthFirst, parent, rank, from, pos, j, k))
  }

  lemma RankedSkip(depthFirst: bool, succ: string -> seq<string>, order: seq<string>, waiting: seq<string>,
                   from: seq<int>, parent: seq<int>, pos: seq<int>, rank: seq<int>, at: nat)
    requires Ranked(depthFirst, succ, order, waiting, from, parent, pos, rank) && at < |waiting|
    ensures Ranked(depthFirst, succ, order, Without(waiting, at), Without(from, at), parent, Without(pos, at), rank)
  {
    var w, f, p := Without(waiting, at), Without(from, at), Without(pos, at);
    forall k | 0 <= k < |w| ensures WaitsThrough(succ, order, w, f, p, k) {
      assert WaitsThrough(succ, order, waiting, from, pos, if k < at then k else k + 1);
    }
    forall k, l | 0 <= k < l < |w| ensures WaitsBefore(f, p, k, l) {
      assert WaitsBefore(from, pos, if k < at then k else k + 1, if l < at then l else l + 1);
    }
    forall j, k | 0 < j < |parent| && 0 <= k < |f| ensures ListedBefore(depthFirst, parent, rank, f, p, j, k) {
      assert ListedBefore(depthFirst, parent, rank, from, pos, j, if k < at then k else k + 1);
    }
  }

  /** The next entry is listed. */
  lemma ListedInTurn(depthFirst: bool, succ: string -> seq<string>, order: seq<string>, waiting: seq<string>,
                     from: seq<int>, parent: seq<int>, pos: seq<int>, rank: seq<int>, at: nat)
    requires Ranked(depthFirst, succ, order, waiting, from, parent, pos, rank)
    requires at < |waiting| && at == if depthFirst then |waiting| - 1 else 0
    requires order != [] ==> from[at] >= 0
    ensures Ranked(depthFirst, succ, order + [waiting[at]], Without(waiting, at), Without(from, at), parent + [from[at]],
                   Without(pos, at), rank + [pos[at]])
  {
    RankedSkip(depthFirst, succ, order, waiting, from, parent, pos, rank, at);
    var order', parent', rank' := order + [waiting[at]], parent + [from[at]], rank + [pos[at]];
    var w, f, p := Without(waiting, at), Without(from, at), Without(pos, at);
    assert WaitsThrough(succ, order, waiting, from, pos, at);
    forall j | 0 < j < |order'| ensures ListedThrough(succ, order', parent', rank', j) {
      assert j < |order| ==> ListedThrough(succ, order, parent, rank, j);
    }
    forall j, k | 0 < j < k < |order'| ensures TurnKept(depthFirst, parent', rank', j, k) {
      if k < |order| {
        assert TurnKept(depthFirst, parent, rank, j, k);
      } else {
        assert ListedBefore(depthFirst, parent, rank, from, pos, j, at);
      }
    }
    forall k | 0 <= k < |w| ensures WaitsThrough(succ, order', w, f, p, k) {
      assert WaitsThrough(succ, order, w, f, p, k);
    }
    forall j, k | 0 < j < |parent'| && 0 <= k < |f| ensures ListedBefore(depthFirst, parent', rank', f, p, j, k) {
      if j < |parent| {
        assert ListedBefore(depthFirst, parent, rank, f, p, j, k);
      } else if depthFirst {
        assert WaitsBefore(from, pos, k, at);
      } else {
        assert WaitsBefore(from, pos, at, k + 1);
      }
    }
  }

  /** The successors of the node listed last are queued. */
  lemma QueuedInTurn(depthFirst: bool, succ: string -> seq<string>, order: seq<string>, waiting: seq<string>,
                     from: seq<int>, parent: seq<int>, pos: seq<int>, rank: seq<int>, visited: set<string>)
    requires Ranked(depthFirst, succ, order, waiting, from, parent, pos, rank) && order != []
    requires forall k :: 0 <= k < |from| ==> from[k] < |order| - 1
    ensures var n := |order| - 1;
            var next, at := Unvisited(succ(order[n]), visited), UnvisitedAt(succ(order[n]), visited);
            Ranked(depthFirst, succ, order, waiting + next, from + Repeat(n, |next|), parent, pos + at, rank)
  {
    var n, q := |order| - 1, |waiting|;
    var next, at := Unvisited(succ(order[n]), visited), UnvisitedAt(succ(order[n]), visited);
    UnvisitedPositions(succ(order[n]), visited);
    var w, f, p := waiting + next, from + Repeat(n, |next|), pos + at;
    forall k | 0 <= k < |w| ensures WaitsThrough(succ, order, w, f, p, k) {
      if k < q {
        assert WaitsThrough(succ, order, waiting, from, pos, k);
      } else {
        assert f[k] == n && p[k] == at[k - q] && w[k] == next[k - q];
      }
    }
    forall k, l | 0 <= k < l < |w| ensures WaitsBefore(f, p, k, l) {
      if l < q {
        assert WaitsBefore(from, pos, k, l);
      } else if k >= q {
        assert at[k - q] < at[l - q];
      }
    }
    forall j, k | 0 < j < |parent| && 0 <= k < |f| ensures ListedBefore(depthFirst, parent, rank, f, p, j, k) {
      if k < q {
        assert ListedBefore(depthFirst, parent, rank, from, pos, j, k);
      } else {
        assert ListedThrough(succ, order, parent, rank, j);
      }
    }
  }

  /** The state of a listing: see `Search` and `WaitsThrough`. */
  datatype Frontier = Frontier(order: seq<string>, waiting: seq<string>, from: seq<int>, parent: seq<int>, pos: seq<int>, rank: seq<int>)

  /** The invariant of a listing, the discipline, and the order among successors. */
  ghost predicate Progress(depthFirst: bool, links: set<(string, string)>, declared: set<string>, succ: string -> seq<string>,
                           start: string, f: Frontier)
  {
    match f
    case Frontier(order, waiting, from, parent, pos, rank) =>
      && Search(links, declared, start, order, waiting, from, parent)
      && Disciplined(depthFirst, links, declared, order, parent)
      && Ranked(depthFirst, succ, order, waiting, from, parent, pos, rank)
  }

  lemma Begin(depthFirst: bool, links: set<(string, string)>, declared: set<string>, succ: string -> seq<string>, start: string)
    ensures Progress(depthFirst, links, declared, succ, start, Frontier([], [start], [-1], [], [0], []))
  {
  }

  /** The entry a stack or a queue gives next. */
  ghost function NextAt(depthFirst: bool, waiting: seq<string>): nat
    requires waiting != []
  {
    if depthFirst then |waiting| - 1 else 0
  }

  /** The next entry is listed already or not declared. */
  lemma Skip(depthFirst: bool, links: set<(string, string)>, declared: set<string>, succ: string -> seq<string>, start: string,
             f: Frontier, waiting: seq<string>)
      returns (g: Frontier)
    requires Progress(depthFirst, links, declared, succ, start, f) && f.waiting != []
    requires var at := NextAt(depthFirst, f.waiting);
             (f.waiting[at] in f.order || f.waiting[at] !in declared) && waiting == Without(f.waiting, at)
    ensures Progress(depthFirst, links, declared, succ, start, g) && g.order == f.order && g.waiting == waiting
  {
    var at := NextAt(depthFirst, f.waiting);
    SkipEntry(links, declared, start, f.order, f.waiting, f.from, f.parent, at);
    RankedSkip(depthFirst, succ, f.order, f.waiting, f.from, f.parent, f.pos, f.rank, at);
    g := f.(waiting := waiting, from := Without(f.from, at), pos := Without(f.pos, at));
  }

  /** One expansion of either kind: list the next entry, queue those of its successors that are unvisited. */
  lemma Expand(depthFirst: bool, links: set<(string, string)>, declared: set<string>, succ: string -> seq<string>, start: string,
               f: Frontier, curr: string, visited: set<string>, waiting: seq<string>)
      returns (g: Frontier)
    requires Progress(depthFirst, links, declared, succ, start, f) && f.waiting != []
    requires f.waiting[NextAt(depthFirst, f.waiting)] == curr && curr !in f.order && curr in declared
    requires forall c :: c in succ(curr) <==> (curr, c) in links
    requires visited == IdSet(f.order) + {curr}
    requires waiting == Without(f.waiting, NextAt(depthFirst, f.waiting)) + Unvisited(succ(curr), visited)
    ensures Progress(depthFirst, links, declared, succ, start, g) && g.waiting == waiting
    ensures g.order == f.order + [curr] && visited == IdSet(g.order)
  {
    var at, next := NextAt(depthFirst, f.waiting), Unvisited(succ(curr), visited);
    UnvisitedMembers(succ(curr), visited);
    var order := f.order + [curr];
    assert visited == IdSet(order);
    VisitEntry(links, declared, start, f.order, f.waiting, f.from, f.parent, at, next);
    VisitKeepsDiscipline(depthFirst, links, declared, start, f.order, f.waiting, f.from, f.parent, at);
    ListedInTurn(depthFirst, succ, f.order, f.waiting, f.from, f.parent, f.pos, f.rank, at);
    QueuedInTurn(depthFirst, succ, order, Without(f.waiting, at), Without(f.from, at), f.parent + [f.from[at]],
                 Without(f.pos, at), f.rank + [f.pos[at]], visited);
    g := Frontier(order, waiting, Without(f.from, at) + Repeat(|f.order|, |next|), f.parent + [f.from[at]],
                  Without(f.pos, at) + UnvisitedAt(succ(curr), visited), f.rank + [f.pos[at]]);
  }

  /** What holds when nothing waits any more. */
  lemma Finish(depthFirst: bool, links: set<(string, string)>, declared: set<string>, succ: string -> seq<string>, start: string,
               f: Frontier)
    requires Progress(depthFirst, links, declared, succ, start, f) && f.waiting == []
    ensures ListsReachable(links, declared, start, f.order) && FollowsTree(depthFirst, links, declared, succ, f.order)
    ensures if depthFirst then DepthFirstOrder(links, f.order) else BreadthFirstOrder(links, f.order)
  {
    assert f.from == [];
    SearchDone(links, declared, start, f.order, f.parent);
    OrderOfDiscipline(depthFirst, links, declared, start, f.order, [], f.from, f.parent);
  }

  lemma NodeIdsSnoc(ns: seq<CPGNode>, n: CPGNode)
    ensures NodeIds(ns + [n]) == NodeIds(ns) + [n.id]
  {
  }

  /** The inner loop of every traversal: append the neighbours not yet visited to the work list. */
  method QueueUnvisited(work: seq<string>, neighbours: seq<string>, visited: set<string>) returns (grown: seq<string>)
    ensures grown == work + Unvisited(neighbours, visited)
  {
    grown := work;
    for i := 0 to |neighbours|
      invariant grown == work + Unvisited(neighbours[..i], visited)
    {
      assert neighbours[..i + 1][..i] == neighbours[..i];
      if neighbours[i] !in visited {
        grown := grown + [neighbours[i]];
      }
    }
    assert neighbours[..|neighbours|] == neighbours;
  }

  /** How many entries of the work list are copies of visited ids. */
  ghost function CountIn(queue: seq<string>, visited: set<string>): nat {
    if queue == [] then 0 else CountIn(queue[1..], visited) + if queue[0] in visited then 1 else 0
  }

  lemma {:induction false} CountInExpansion(rest: seq<string>, added: seq<string>, visited: set<string>)
    requires forall x :: x in added ==> x !in visited
    ensures CountIn(rest + added, visited) == CountIn(rest, visited)
    decreases |rest| + |added|
  {
    if rest != [] {
      CountInExpansion(rest[1..], added, visited);
      assert (rest + added)[1..] == rest[1..] + added;
    } else if added != [] {
      assert rest + added == added;
      CountInExpansion([], added[1..], visited);
      assert [] + added[1..] == added[1..];
    }
  }

  /** The invariant of `Reachability`: visited ids are reachable and their successors visited or queued. */
  ghost predicate Sweep(links: set<(string, string)>, start: string, universe: set<string>,
                        visited: set<string>, queue: seq<string>) {
    && (start in visited || start in queue)
    && (forall x :: x in queue || x in visited ==> x in universe && Reaches(links, start, x))
    && (forall x, y :: x in visited && (x, y) in links ==> y in visited || y in queue)
  }

  lemma SweepStep(links: set<(string, string)>, start: string, universe: set<string>, visited: set<string>,
                  curr: string, rest: seq<string>, succ: seq<string>, visited': set<string>, queue': seq<string>)
    requires Sweep(links, start, universe, visited, [curr] + rest)
    requires forall l :: l in links ==> l.1 in universe
    requires forall y :: y in succ <==> (curr, y) in links
    requires visited' == visited + {curr} && queue' == rest + Unvisited(succ, visited')
    ensures Sweep(links, start, universe, visited', queue')
    ensures universe - visited' <= universe - visited
    ensures universe - visited' == universe - visited ==> CountIn(queue', visited') < CountIn([curr] + rest, visited)
  {
    UnvisitedMembers(succ, visited');
    assert curr in [curr] + rest;
    assert forall x :: x in [curr] + rest <==> x == curr || x in rest;
    forall y | (curr, y) in links ensures Reaches(links, start, y) && y in universe {
      ReachesSnoc(links, start, curr, y);
    }
    CountInExpansion(rest, Unvisited(succ, visited'), visited');
    if universe - visited' == universe - visited {
      assert curr in universe;
      assert visited' == visited by {
        assert curr in visited || curr in universe - visited;
      }
      assert ([curr] + rest)[1..] == rest;
    }
  }

  // ----- shortest path -----

  /**
   The invariant of the shortest-path search. `dist` gives the length of the path recorded for each
   visited id; the queue holds every visited id that is not yet expanded, nearest first, with depths
   that differ by at most one; an expanded id has passed its depth plus one on to its successors.
   */
  ghost predicate Levels(edges: seq<CPGEdge>, start: string, target: string, dist: map<string, nat>,
                         expanded: set<string>, queue: seq<(string, seq<CPGEdge>)>) {
    && start in dist && dist[start] == 0 && target !in dist
    && (forall x :: x in dist ==> x in expanded || InQueue(queue, x))
    && (forall k :: 0 <= k < |queue| ==> EntryOk(edges, start, dist, queue[k]))
    && (forall k, l :: 0 <= k < l < |queue| ==> |queue[k].1| <= |queue[l].1| <= |queue[0].1| + 1)
    && (forall e :: e in edges && e.sourceId in expanded ==> Relaxed(dist, e))
    && (queue != [] ==> forall x :: x in expanded ==> NoDeeper(dist, x, |queue[0].1|))
  }

  ghost predicate InQueue(queue: seq<(string, seq<CPGEdge>)>, x: string) {
    exists k :: 0 <= k < |queue| && queue[k].0 == x
  }

  ghost predicate EntryOk(edges: seq<CPGEdge>, start: string, dist: map<string, nat>, entry: (string, seq<CPGEdge>)) {
    entry.0 in dist && dist[entry.0] == |entry.1| && Chain(edges, start, entry.1, entry.0)
  }

  ghost predicate NoDeeper(dist: map<string, nat>, x: string, depth: nat) {
    x in dist && dist[x] <= depth
  }

  ghost predicate Relaxed(dist: map<string, nat>, e: CPGEdge) {
    e.sourceId in dist && e.targetId in dist && dist[e.targetId] <= dist[e.sourceId] + 1
  }

  /** No chain reaches the target from a visited id in fewer edges than the head of the queue allows. */
  lemma {:induction false} LevelsBound(edges: seq<CPGEdge>, start: string, target: string, dist: map<string, nat>,
                                       expanded: set<string>, queue: seq<(string, seq<CPGEdge>)>,
                                       x: string, p: seq<CPGEdge>)
    requires Levels(edges, start, target, dist, expanded, queue)
    requires x in dist && Chain(edges, x, p, target)
    ensures queue != [] && dist[x] + |p| >= |queue[0].1| + 1
    decreases |p|
  {
    assert p != [];
    if x in expanded {
      assert Relaxed(dist, p[0]);
      LevelsBound(edges, start, target, dist, expanded, queue, p[0].targetId, p[1..]);
    } else {
      assert InQueue(queue, x);
      var k :| 0 <= k < |queue| && queue[k].0 == x;
      assert EntryOk(edges, start, dist, queue[k]);
    }
  }

  /** The first edge found into the target closes a shortest chain. */
  lemma LevelsFound(edges: seq<CPGEdge>, start: string, target: string, dist: map<string, nat>,
                    expanded: set<string>, queue: seq<(string, seq<CPGEdge>)>, e: CPGEdge)
    requires Levels(edges, start, target, dist, expanded, queue)
    requires queue != [] && e in edges && e.sourceId == queue[0].0 && e.targetId == target
    ensures Chain(edges, start, queue[0].1 + [e], target) && Reaches(Links(edges), start, target)
    ensures forall p :: Chain(edges, start, p, target) ==> |queue[0].1 + [e]| <= |p|
  {
    assert EntryOk(edges, start, dist, queue[0]);
    ChainSnoc(edges, start, queue[0].1, queue[0].0, e);
    ChainReaches(edges, start, queue[0].1 + [e], target);
    forall p | Chain(edges, start, p, target) ensures |queue[0].1 + [e]| <= |p| {
      LevelsBound(edges, start, target, dist, expanded, queue, start, p);
    }
  }

  lemma LevelsExhausted(edges: seq<CPGEdge>, start: string, target: string, dist: map<string, nat>, expanded: set<string>)
    requires Levels(edges, start, target, dist, expanded, [])
    ensures !Reaches(Links(edges), start, target)
  {
    if Reaches(Links(edges), start, target) {
      forall x, y | (x, y) in Links(edges) && x in dist.Keys ensures y in dist.Keys {
        var e :| e in edges && (e.sourceId, e.targetId) == (x, y);
        assert x in expanded || InQueue([], x);
        assert Relaxed(dist, e);
      }
      ClosedSet(Links(edges), dist.Keys, start, target);
    }
  }

  /** Recording a first visit through the head of the queue. */
  lemma LevelsVisit(edges: seq<CPGEdge>, start: string, target: string, dist: map<string, nat>,
                    expanded: set<string>, queue: seq<(string, seq<CPGEdge>)>, e: CPGEdge)
    requires Levels(edges, start, target, dist, expanded, queue)
    requires queue != [] && e in edges && e.sourceId == queue[0].0 && e.targetId != target && e.targetId !in dist
    ensures Levels(edges, start, target, dist[e.targetId := |queue[0].1| + 1], expanded,
                   queue + [(e.targetId, queue[0].1 + [e])])
    ensures forall x, d :: NoDeeper(dist, x, d) ==> NoDeeper(dist[e.targetId := |queue[0].1| + 1], x, d)
  {
    var dist' := dist[e.targetId := |queue[0].1| + 1];
    var queue' := queue + [(e.targetId, queue[0].1 + [e])];
    assert EntryOk(edges, start, dist, queue[0]);
    ChainSnoc(edges, start, queue[0].1, queue[0].0, e);
    forall k | 0 <= k < |queue'| ensures EntryOk(edges, start, dist', queue'[k]) {
      if k < |queue| {
        assert EntryOk(edges, start, dist, queue[k]);
      }
    }
    forall x | x in dist' ensures x in expanded || InQueue(queue', x) {
      if x == e.targetId {
        assert queue'[|queue|].0 == x;
      } else if x !in expanded {
        assert InQueue(queue, x);
        var k :| 0 <= k < |queue| && queue[k].0 == x;
        assert queue'[k].0 == x;
      }
    }
    forall e' | e' in edges && e'.sourceId in expanded ensures Relaxed(dist', e') {
      assert Relaxed(dist, e');
    }
  }

  /** An id visited already is at most one edge deeper than the head. */
  lemma LevelsKnown(edges: seq<CPGEdge>, start: string, target: string, dist: map<string, nat>,
                    expanded: set<string>, queue: seq<(string, seq<CPGEdge>)>, e: CPGEdge)
    requires Levels(edges, start, target, dist, expanded, queue) && queue != [] && e.targetId in dist
    ensures NoDeeper(dist, e.targetId, |queue[0].1| + 1)
  {
    if e.targetId in expanded {
      assert NoDeeper(dist, e.targetId, |queue[0].1|);
    } else {
      assert InQueue(queue, e.targetId);
      var k :| 0 <= k < |queue| && queue[k].0 == e.targetId;
      assert EntryOk(edges, start, dist, queue[k]);
      assert |queue[k].1| <= |queue[0].1| + 1;
    }
  }

  /** Dropping the head once all its edges have been followed. */
  lemma LevelsPop(edges: seq<CPGEdge>, start: string, target: string, dist: map<string, nat>,
                  expanded: set<string>, queue: seq<(string, seq<CPGEdge>)>)
    requires Levels(edges, start, target, dist, expanded, queue) && queue != []
    requires forall e :: e in edges && e.sourceId == queue[0].0 ==> NoDeeper(dist, e.targetId, |queue[0].1| + 1)
    ensures Levels(edges, start, target, dist, expanded + {queue[0].0}, queue[1..])
  {
    assert EntryOk(edges, start, dist, queue[0]);
    forall x | x in expanded + {queue[0].0} ensures queue[1..] != [] ==> NoDeeper(dist, x, |queue[1..][0].1|) {
      assert x in expanded ==> NoDeeper(dist, x, |queue[0].1|);
    }
    forall x | x in dist ensures x in expanded + {queue[0].0} || InQueue(queue[1..], x) {
      if x !in expanded && x != queue[0].0 {
        assert InQueue(queue, x);
        var k :| 0 <= k < |queue| && queue[k].0 == x;
        assert queue[1..][k - 1].0 == x;
      }
    }
  }

  lemma LevelsStart(edges: seq<CPGEdge>, start: string, target: string)
    requires start != target
    ensures Levels(edges, start, target, map[start := 0], {}, [(start, [])])
  {
    var queue: seq<(string, seq<CPGEdge>)> := [(start, [])];
    assert queue[0].0 == start;
    assert InQueue(queue, start);
  }

  class GraphTraversal {
    const graph: CPGGraph

    constructor (graph: CPGGraph)
      ensures this.graph == graph
    {
      this.graph := graph;
    }

    method Dfs(startId: string) returns (result: seq<CPGNode>)
      requires graph.Valid()
      ensures forall n :: n in result ==> n.id in graph.nodes && graph.nodes[n.id] == n
      ensures ListsReachable(Links(graph.edges), graph.nodes.Keys, startId, NodeIds(result))
      ensures DepthFirstOrder(Links(graph.edges), NodeIds(result))
      ensures FollowsTree(true, Links(graph.edges), graph.nodes.Keys, Successors(graph.edges), NodeIds(result))
    {
      ghost var links, declared := Links(graph.edges), graph.nodes.Keys;
      var visited: set<string> := {};
      var stack := [startId];
      result := [];
      ghost var succ, f := Successors(graph.edges), Frontier([], [startId], [-1], [], [0], []);
      Begin(true, links, declared, succ, startId);
      while stack != []
        invariant Progress(true, links, declared, succ, startId, f) && f.waiting == stack
        invariant visited == IdSet(f.order) && f.order == NodeIds(result)
        invariant forall n :: n in result ==> n.id in graph.nodes && graph.nodes[n.id] == n
        decreases declared - visited, |stack|
      {
        ghost var before := stack;
        var currId := stack[|stack| - 1];
        stack := stack[..|stack| - 1];
        assert Without(before, |before| - 1) == stack;
        if currId in visited || currId !in graph.nodes {
          f := Skip(true, links, declared, succ, startId, f, stack);
          continue;
        }
        visited := visited + {currId};
        NodeIdsSnoc(result, graph.nodes[currId]);
        result := result + [graph.nodes[currId]];
        var out := graph.GetOutgoingEdges(currId);
        ExpansionTargets(graph.edges, currId, out);
        stack := QueueUnvisited(stack, Targets(out), visited);
        f := Expand(true, links, declared, succ, startId, f, currId, visited, stack);
      }
      Finish(true, links, declared, succ, startId, f);
    }

    method Bfs(startId: string) returns (result: seq<CPGNode>)
      requires graph.Valid()
      ensures forall n :: n in result ==> n.id in graph.nodes && graph.nodes[n.id] == n
      ensures ListsReachable(Links(graph.edges), graph.nodes.Keys, startId, NodeIds(result))
      ensures BreadthFirstOrder(Links(graph.edges), NodeIds(result))
      ensures FollowsTree(false, Links(graph.edges), graph.nodes.Keys, Successors(graph.edges), NodeIds(result))
    {
      ghost var links, declared := Links(graph.edges), graph.nodes.Keys;
      var visited: set<string> := {};
      var queue := [startId];
      result := [];
      ghost var succ, f := Successors(graph.edges), Frontier([], [startId], [-1], [], [0], []);
      Begin(false, links, declared, succ, startId);
      while queue != []
        invariant Progress(false, links, declared, succ, startId, f) && f.waiting == queue
        invariant visited == IdSet(f.order) && f.order == NodeIds(result)
        invariant forall n :: n in result ==> n.id in graph.nodes && graph.nodes[n.id] == n
        decreases declared - visited, |queue|
      {
        ghost var before := queue;
        var currId := queue[0];
        queue := queue[1..];
        WithoutFirst(before);
        if currId in visited || currId !in graph.nodes {
          f := Skip(false, links, declared, succ, startId, f, queue);
          continue;
        }
        visited := visited + {currId};
        NodeIdsSnoc(result, graph.nodes[currId]);
        result := result + [graph.nodes[currId]];
        var out := graph.GetOutgoingEdges(currId);
        ExpansionTargets(graph.edges, currId, out);
        queue := QueueUnvisited(queue, Targets(out), visited);
        f := Expand(false, links, declared, succ, startId, f, currId, visited, queue);
      }
      Finish(false, links, declared, succ, startId, f);
    }

    method ReverseDfs(startId: string) returns (result: seq<CPGNode>)
      requires graph.Valid()
      ensures forall n :: n in result ==> n.id in graph.nodes && graph.nodes[n.id] == n
      ensures ListsReachable(Inverse(Links(graph.edges)), graph.nodes.Keys, startId, NodeIds(result))
      ensures DepthFirstOrder(Inverse(Links(graph.edges)), NodeIds(result))
      ensures FollowsTree(true, Inverse(Links(graph.edges)), graph.nodes.Keys, Predecessors(graph.edges), NodeIds(result))
    {
      ghost var links, declared := Inverse(Links(graph.edges)), graph.nodes.Keys;
      var visited: set<string> := {};
      var stack := [startId];
      result := [];
      ghost var succ, f := Predecessors(graph.edges), Frontier([], [startId], [-1], [], [0], []);
      Begin(true, links, declared, succ, startId);
      while stack != []
        invariant Progress(true, links, declared, succ, startId, f) && f.waiting == stack
        invariant visited == IdSet(f.order) && f.order == NodeIds(result)
        invariant forall n :: n in result ==> n.id in graph.nodes && graph.nodes[n.id] == n
        decreases declared - visited, |stack|
      {
        ghost var before := stack;
        var currId := stack[|stack| - 1];
        stack := stack[..|stack| - 1];
        assert Without(before, |before| - 1) == stack;
        if currId in visited || currId !in graph.nodes {
          f := Skip(true, links, declared, succ, startId, f, stack);
          continue;
        }
        visited := visited + {currId};
        NodeIdsSnoc(result, graph.nodes[currId]);
        result := result + [graph.nodes[currId]];
        var into := graph.GetIncomingEdges(currId);
        ExpansionSources(graph.edges, currId, into);
        stack := QueueUnvisited(stack, Sources(into), visited);
        f := Expand(true, links, declared, succ, startId, f, currId, visited, stack);
      }
      Finish(true, links, declared, succ, startId, f);
    }

    method Reachability(startId: string, targetId: string) returns (found: bool)
      requires graph.Valid()
      ensures found <==> Reaches(Links(graph.edges), startId, targetId)
    {
      ghost var links := Links(graph.edges);
      ghost var universe := {startId} + set l | l in links :: l.1;
      var visited: set<string> := {};
      var queue := [startId];
      ReachesSelf(links, startId);
      while queue != []
        invariant Sweep(links, startId, universe, visited, queue) && targetId !in visited
        decreases universe - visited, CountIn(queue, visited)
      {
        ghost var seen := visited;
        var currId := queue[0];
        assert queue == [currId] + queue[1..];
        queue := queue[1..];
        if currId == targetId {
          return true;
        }
        visited := visited + {currId};
        var out := graph.GetOutgoingEdges(currId);
        ExpansionTargets(graph.edges, currId, out);
        ghost var rest := queue;
        queue := QueueUnvisited(queue, Targets(out), visited);
        SweepStep(links, startId, universe, seen, currId, rest, Targets(out), visited, queue);
      }
      if Reaches(links, startId, targetId) {
        ClosedSet(links, visited, startId, targetId);
      }
      found := false;
    }

    method ShortestPath(startId: string, targetId: string) returns (path: seq<CPGEdge>)
      requires graph.Valid()
      ensures path == [] <==> startId == targetId || !Reaches(Links(graph.edges), startId, targetId)
      ensures Reaches(Links(graph.edges), startId, targetId) ==>
                && Chain(graph.edges, startId, path, targetId)
                && forall p :: Chain(graph.edges, startId, p, targetId) ==> |path| <= |p|
    {
      ghost var edges, universe := graph.edges, {startId} + set e | e in graph.edges :: e.targetId;
      if startId == targetId {
        ReachesSelf(Links(edges), startId);
        return [];
      }
      var visited := {startId};
      var queue: seq<(string, seq<CPGEdge>)> := [(startId, [])];
      ghost var dist: map<string, nat>, expanded: set<string> := map[startId := 0], {};
      LevelsStart(edges, startId, targetId);
      while queue != []
        invariant Levels(edges, startId, targetId, dist, expanded, queue)
        invariant visited == dist.Keys && visited <= universe
        decreases universe - visited, |queue|
      {
        var (currId, sofar) := queue[0];
        assert queue == [(currId, sofar)] + queue[1..];
        queue := queue[1..];
        var out := graph.GetOutgoingEdges(currId);
        var hit: bool;
        hit, path, visited, queue, dist :=
          FollowEdges(edges, universe, startId, targetId, currId, sofar, out, visited, queue, dist, expanded);
        if hit {
          return;
        }
        expanded := expanded + {currId};
      }
      LevelsExhausted(edges, startId, targetId, dist, expanded);
      path := [];
    }
  }

  lemma HeadAndRest<T>(head: T, rest: seq<T>, last: T)
    ensures ([head] + rest)[0] == head && ([head] + rest)[1..] == rest
    ensures ([head] + rest) + [last] == [head] + (rest + [last])
  {
  }

  /** A newly met id goes to the end of the queue; the entry being expanded stays in front. */
  lemma LevelsAppend(edges: seq<CPGEdge>, start: string, target: string, dist: map<string, nat>, expanded: set<string>,
                     currId: string, sofar: seq<CPGEdge>, queue: seq<(string, seq<CPGEdge>)>, edge: CPGEdge)
    requires Levels(edges, start, target, dist, expanded, [(currId, sofar)] + queue)
    requires edge in edges && edge.sourceId == currId && edge.targetId !in dist && edge.targetId != target
    ensures var dist' := dist[edge.targetId := |sofar| + 1];
            Levels(edges, start, target, dist', expanded, [(currId, sofar)] + (queue + [(edge.targetId, sofar + [edge])]))
  {
    var entry := (edge.targetId, sofar + [edge]);
    LevelsVisit(edges, start, target, dist, expanded, [(currId, sofar)] + queue, edge);
    HeadAndRest((currId, sofar), queue, entry);
  }

  /** The inner loop of the shortest-path search: follow the edges of the entry just taken off the queue. */
  method FollowEdges(ghost edges: seq<CPGEdge>, ghost universe: set<string>, ghost start: string, target: string,
                     currId: string, sofar: seq<CPGEdge>, out: seq<CPGEdge>, visited: set<string>,
                     queue: seq<(string, seq<CPGEdge>)>, ghost dist: map<string, nat>, ghost expanded: set<string>)
      returns (hit: bool, path: seq<CPGEdge>, visited': set<string>,
               queue': seq<(string, seq<CPGEdge>)>, ghost dist': map<string, nat>)
    requires Levels(edges, start, target, dist, expanded, [(currId, sofar)] + queue)
    requires forall e :: e in out <==> e in edges && e.sourceId == currId
    requires visited == dist.Keys && visited <= universe && forall e :: e in edges ==> e.targetId in universe
    ensures hit ==> Chain(edges, start, path, target) && path != [] && Reaches(Links(edges), start, target)
    ensures hit ==> forall p :: Chain(edges, start, p, target) ==> |path| <= |p|
    ensures !hit ==> Levels(edges, start, target, dist', expanded + {currId}, queue')
    ensures !hit ==> visited' == dist'.Keys && visited <= visited' <= universe
    ensures !hit ==> visited' == visited ==> queue' == queue
  {
    hit, path, visited', queue', dist' := false, [], visited, queue, dist;
    for i := 0 to |out|
      invariant !hit
      invariant Levels(edges, start, target, dist', expanded, [(currId, sofar)] + queue')
      invariant visited' == dist'.Keys && visited <= visited' <= universe
      invariant visited' == visited ==> queue' == queue
      invariant forall k :: 0 <= k < i ==> NoDeeper(dist', out[k].targetId, |sofar| + 1)
    {
      var edge := out[i];
      assert edge in out;
      ghost var pending := [(currId, sofar)] + queue';
      if edge.targetId == target {
        LevelsFound(edges, start, target, dist', expanded, pending, edge);
        return true, sofar + [edge], visited', queue', dist';
      }
      if edge.targetId !in visited' {
        var entry := (edge.targetId, sofar + [edge]);
        LevelsAppend(edges, start, target, dist', expanded, currId, sofar, queue', edge);
        visited' := visited' + {edge.targetId};
        dist' := dist'[edge.targetId := |sofar| + 1];
        queue' := queue' + [entry];
      } else {
        LevelsKnown(edges, start, target, dist', expanded, pending, edge);
      }
    }
    HeadAndRest((currId, sofar), queue', (currId, sofar));
    LevelsPop(edges, start, target, dist', expanded, [(currId, sofar)] + queue');
  }

  lemma ExpansionTargets(edges: seq<CPGEdge>, id: string, out: seq<CPGEdge>)
    requires forall e :: e in out <==> e in edges && e.sourceId == id
    ensures forall c :: c in Targets(out) <==> (id, c) in Links(edges)
  {
    forall c | c in Targets(out) ensures (id, c) in Links(edges) {
      var i :| 0 <= i < |out| && Targets(out)[i] == c;
      assert out[i] in out;
    }
    forall c | (id, c) in Links(edges) ensures c in Targets(out) {
      var e :| e in edges && (e.sourceId, e.targetId) == (id, c);
      var i :| 0 <= i < |out| && out[i] == e;
      assert Targets(out)[i] == c;
    }
  }

  lemma ExpansionSources(edges: seq<CPGEdge>, id: string, into: seq<CPGEdge>)
    requires forall e :: e in into <==> e in edges && e.targetId == id
    ensures forall c :: c in Sources(into) <==> (id, c) in Inverse(Links(edges))
  {
    forall c | c in Sources(into) ensures (id, c) in Inverse(Links(edges)) {
      var i :| 0 <= i < |into| && Sources(into)[i] == c;
      assert into[i] in into && (c, id) in Links(edges);
    }
    forall c | (id, c) in Inverse(Links(edges)) ensures c in Sources(into) {
      var e :| e in edges && (e.targetId, e.sourceId) == (id, c);
      var i :| 0 <= i < |into| && into[i] == e;
      assert Sources(into)[i] == c;
    }
  }

  // ----- the listings against reachability -----

  ghost predicate NoDangling(links: set<(string, string)>, declared: set<string>) {
    forall l :: l in links ==> l.0 in declared && l.1 in declared
  }

  /**
   A listing agrees with `Reachability` on every id exactly when no undeclared id is reachable:
   the listings skip undeclared ids, `Reachability` walks through them.
   */
  lemma ListingAgreesIffDeclared(links: set<(string, string)>, declared: set<string>, start: string, ids: seq<string>)
    requires ListsReachable(links, declared, start, ids)
    ensures (forall x :: x in ids <==> Reaches(links, start, x))
       <==> (forall x :: Reaches(links, start, x) ==> x in declared)
  {
    if forall x :: Reaches(links, start, x) ==> x in declared {
      forall x ensures x in ids <==> Reaches(links, start, x) {
        if x in ids {
          ReachesMonotone(Within(links, declared), links, start, x);
        }
        if Reaches(links, start, x) {
          ReachesSelf(links, start);
          ReachesWithin(links, declared, start, x);
        }
      }
    }
  }

  lemma ReachesWithin(links: set<(string, string)>, declared: set<string>, start: string, x: string)
    requires forall y :: Reaches(links, start, y) ==> y in declared
    requires Reaches(links, start, x)
    ensures Reaches(Within(links, declared), start, x)
  {
    var inv := y => Reaches(Within(links, declared), start, y);
    ReachesSelf(Within(links, declared), start);
    forall a, b | (a, b) in links && inv(a) ensures inv(b) {
      ReachesMonotone(Within(links, declared), links, start, a);
      ReachesSnoc(links, start, a, b);
      ReachesSnoc(Within(links, declared), start, a, b);
    }
    ReachesKeeps(links, inv, start, x);
  }

  /** Without dangling edges the four searches agree about every pair of ids. */
  lemma SearchesAgree(links: set<(string, string)>, declared: set<string>, a: string, b: string,
                      forward: seq<string>, backward: seq<string>)
    requires NoDangling(links, declared) && a in declared && b in declared
    requires ListsReachable(links, declared, a, forward)
    requires ListsReachable(Inverse(links), declared, b, backward)
    ensures b in forward <==> Reaches(links, a, b)
    ensures a in backward <==> Reaches(links, a, b)
  {
    assert Within(links, declared) == links;
    assert Within(Inverse(links), declared) == Inverse(links);
    ReachesInverse(links, a, b);
  }

  /** Two declared nodes and an undeclared one between them. */
  method UndeclaredBetween() returns (graph: CPGGraph)
    ensures graph.Valid() && graph.nodes.Keys == {"a", "c"}
    ensures graph.edges == [CPGEdge("a", "b", ""), CPGEdge("b", "c", "")]
  {
    graph := new CPGGraph();
    graph.AddNode(CPGNode("a", "", ""));
    graph.AddNode(CPGNode("c", "", ""));
    graph.AddEdge(CPGEdge("a", "b", ""));
    graph.AddEdge(CPGEdge("b", "c", ""));
  }

  /** There `c` can be reached from `a`, and the listing from `a` misses it. */
  method ListingMissesReachable() returns (listed: seq<CPGNode>, found: bool)
    ensures found && "a" in NodeIds(listed) && "c" !in NodeIds(listed)
  {
    var graph := UndeclaredBetween();
    var traversal := new GraphTraversal(graph);
    listed := traversal.Bfs("a");
    found := traversal.Reachability("a", "c");
    ThroughUndeclared(graph.edges);
  }

  lemma ThroughUndeclared(edges: seq<CPGEdge>)
    requires edges == [CPGEdge("a", "b", ""), CPGEdge("b", "c", "")]
    ensures Reaches(Links(edges), "a", "c")
    ensures Reaches(Within(Links(edges), {"a", "c"}), "a", "a") && !Reaches(Within(Links(edges), {"a", "c"}), "a", "c")
  {
    var links := Links(edges);
    assert edges[0] in edges && edges[1] in edges;
    ReachesEdge(links, "a", "b");
    ReachesSnoc(links, "a", "b", "c");
    ReachesSelf(Within(links, {"a", "c"}), "a");
    if Reaches(Within(links, {"a", "c"}), "a", "c") {
      ClosedSet(Within(links, {"a", "c"}), {"a"}, "a", "c");
    }
  }
}
