/** Structural checks of a framework semantic graph (karsasec/framework/integrity.py). */
module Integrity {
  import opened Reach

  datatype Edge = Edge(sourceId: string, targetId: string, edgeType: string)

  datatype Diagnostic =
    | DanglingSource(edge: Edge)
    | DanglingTarget(edge: Edge)
    | DuplicateEdge(edge: Edge)
    | CycleDetected(node: string)
    | Disconnected(components: nat)

  datatype Colour = Unvisited | Visiting | Visited

  ghost function Links(edges: seq<Edge>): set<(string, string)> {
    set e | e in edges :: (e.sourceId, e.targetId)
  }

  /** The links whose ends are both declared nodes: the ones the cycle search follows. */
  ghost function DeclaredLinks(edges: seq<Edge>, nodes: set<string>): set<(string, string)> {
    set l | l in Links(edges) && l.0 in nodes && l.1 in nodes
  }

  lemma LinksSnoc(edges: seq<Edge>, e: Edge)
    ensures Links(edges + [e]) == Links(edges) + {(e.sourceId, e.targetId)}
  {
    forall l | l in Links(edges) ensures l in Links(edges + [e]) {
      var d :| d in edges && l == (d.sourceId, d.targetId);
      assert d in edges + [e];
    }
    assert e in edges + [e];
  }

  ghost predicate ReachesCycle(links: set<(string, string)>, a: string) {
    exists c :: Reaches(links, a, c) && OnCycle(links, c)
  }

  lemma ReachesCycleBack(links: set<(string, string)>, a: string, b: string)
    requires Reaches(links, a, b) && ReachesCycle(links, b)
    ensures ReachesCycle(links, a)
  {
    var c :| Reaches(links, b, c) && OnCycle(links, c);
    ReachesTrans(links, a, b, c);
  }

  // ----- colours of the depth-first search -----

  ghost function Coloured(colour: map<string, Colour>, c: Colour): set<string> {
    set n | n in colour && colour[n] == c
  }

  /** Finished nodes only lead to finished nodes, and none of them lies on a cycle. */
  ghost predicate FinishedSafe(links: set<(string, string)>, done: set<string>) {
    && (forall x, y :: x in done && (x, y) in links ==> y in done)
    && (forall x :: x in done ==> !OnCycle(links, x))
  }

  /** A finished node reaches no cycle. */
  lemma FinishedReachesNoCycle(links: set<(string, string)>, done: set<string>, a: string)
    requires FinishedSafe(links, done) && a in done
    ensures !ReachesCycle(links, a)
  {
    if ReachesCycle(links, a) {
      var c :| Reaches(links, a, c) && OnCycle(links, c);
      ClosedSet(links, done, a, c);
    }
  }

  /** Every grey node either leads to a cycle already found or to the node being explored. */
  ghost predicate GreyLeads(links: set<(string, string)>, grey: set<string>, a: string) {
    forall g :: g in grey ==> ReachesCycle(links, g) || Reaches(links, g, a)
  }

  lemma GreyLeadsOn(links: set<(string, string)>, grey: set<string>, a: string, b: string)
    requires GreyLeads(links, grey, a) && (a, b) in links
    ensures GreyLeads(links, grey, b)
  {
    forall g | g in grey ensures ReachesCycle(links, g) || Reaches(links, g, b) {
      if Reaches(links, g, a) {
        ReachesSnoc(links, g, a, b);
      }
    }
  }

  /** Meeting a grey neighbour closes a cycle or leads into one found earlier. */
  lemma GreyHit(links: set<(string, string)>, grey: set<string>, a: string, b: string)
    requires GreyLeads(links, grey, a) && (a, b) in links && b in grey
    ensures ReachesCycle(links, a)
  {
    ReachesEdge(links, a, b);
    if ReachesCycle(links, b) {
      ReachesCycleBack(links, a, b);
    } else {
      assert OnCycle(links, a);
      ReachesSelf(links, a);
    }
  }

  /** Once `a` leads to a cycle, so does everything grey. */
  lemma GreyAllLead(links: set<(string, string)>, grey: set<string>, a: string)
    requires GreyLeads(links, grey, a) && ReachesCycle(links, a)
    ensures forall g :: g in grey ==> ReachesCycle(links, g)
  {
    forall g | g in grey ensures ReachesCycle(links, g) {
      if !ReachesCycle(links, g) {
        ReachesCycleBack(links, g, a);
      }
    }
  }

  /** A node all of whose successors are finished can be finished itself. */
  lemma FinishNode(links: set<(string, string)>, done: set<string>, a: string)
    requires FinishedSafe(links, done) && a !in done
    requires forall y :: (a, y) in links ==> y in done
    ensures FinishedSafe(links, done + {a})
  {
    if OnCycle(links, a) {
      var b :| (a, b) in links && Reaches(links, b, a);
      ClosedSet(links, done, b, a);
    }
  }

  /** The colouring depth-first search. `colour` is the dictionary the nested function writes. */
  class CycleSearch {
    const adjacency: map<string, seq<string>>
    ghost const links: set<(string, string)>
    var colour: map<string, Colour>

    /** `adjacency` lists all targets, declared or not; the search follows the declared ones. */
    ghost predicate Follows()
      reads this
    {
      forall a, b :: a in colour && b in colour ==>
        ((a, b) in links <==> a in adjacency && b in adjacency[a])
    }

    ghost predicate Valid()
      reads this
    {
      && Follows()
      && (forall l :: l in links ==> l.0 in colour && l.1 in colour)
      && FinishedSafe(links, Coloured(colour, Visited))
    }

    constructor (nodes: seq<string>, edges: seq<Edge>)
      ensures Valid() && colour.Keys == (set n | n in nodes) && links == DeclaredLinks(edges, set n | n in nodes)
      ensures forall n :: n in colour ==> colour[n] == Unvisited
    {
      var adj: map<string, seq<string>> := map[];
      for i := 0 to |edges|
        invariant forall a, b :: (a, b) in Links(edges[..i]) <==> a in adj && b in adj[a]
      {
        var e := edges[i];
        LinksSnoc(edges[..i], e);
        assert edges[..i + 1] == edges[..i] + [e];
        adj := adj[e.sourceId := (if e.sourceId in adj then adj[e.sourceId] else []) + [e.targetId]];
      }
      assert edges[..|edges|] == edges;
      adjacency := adj;
      colour := map n | n in nodes :: Unvisited;
      links := DeclaredLinks(edges, set n | n in nodes);
    }

    /** Explores from a white node; True exactly when a cycle can be reached from it. */
    method Dfs(node: string) returns (found: bool)
      requires Valid() && node in colour && colour[node] == Unvisited
      requires GreyLeads(links, Coloured(colour, Visiting), node)
      modifies this`colour
      ensures Valid() && colour.Keys == old(colour).Keys
      ensures found <==> ReachesCycle(links, node)
      ensures Coloured(colour, Unvisited) < Coloured(old(colour), Unvisited) && colour[node] != Unvisited
      ensures Coloured(old(colour), Visited) <= Coloured(colour, Visited)
      ensures found ==> forall g :: g in Coloured(colour, Visiting) ==> ReachesCycle(links, g)
      ensures !found ==> Coloured(colour, Visiting) == Coloured(old(colour), Visiting)
      decreases Coloured(colour, Unvisited)
    {
      ghost var before := colour;
      ghost var grey := Coloured(before, Visiting);
      colour := colour[node := Visiting];
      ReachesSelf(links, node);
      assert Coloured(colour, Visiting) == grey + {node};
      assert Coloured(colour, Visited) == Coloured(before, Visited);
      assert Coloured(colour, Unvisited) == Coloured(before, Unvisited) - {node};
      var neighbours := if node in adjacency then adjacency[node] else [];
      for i := 0 to |neighbours|
        invariant Valid() && colour.Keys == before.Keys
        invariant Coloured(colour, Visiting) == grey + {node}
        invariant Coloured(colour, Unvisited) <= Coloured(before, Unvisited) - {node}
        invariant Coloured(before, Visited) <= Coloured(colour, Visited)
        invariant forall k :: 0 <= k < i && neighbours[k] in colour ==> colour[neighbours[k]] == Visited
      {
        var neighbour := neighbours[i];
        if neighbour in colour && colour[neighbour] == Visiting {
          assert (node, neighbour) in links;
          GreyHit(links, grey + {node}, node, neighbour);
          GreyAllLead(links, grey + {node}, node);
          return true;
        }
        if neighbour in colour && colour[neighbour] == Unvisited {
          assert (node, neighbour) in links;
          GreyLeadsOn(links, grey + {node}, node, neighbour);
          ghost var mid := Coloured(colour, Visited);
          var deeper := Dfs(neighbour);
          if deeper {
            ReachesEdge(links, node, neighbour);
            ReachesCycleBack(links, node, neighbour);
            return true;
          }
          assert neighbour !in Coloured(colour, Visiting);
          assert forall n :: n in colour && n in mid ==> n in Coloured(colour, Visited);
        }
      }
      ghost var done := Coloured(colour, Visited);
      forall y | (node, y) in links ensures y in done {
        assert y in neighbours;
      }
      assert node in Coloured(colour, Visiting);
      FinishNode(links, done, node);
      colour := colour[node := Visited];
      assert Coloured(colour, Visited) == done + {node};
      assert Coloured(colour, Visiting) == grey;
      assert Coloured(colour, Unvisited) <= Coloured(before, Unvisited) - {node};
      FinishedReachesNoCycle(links, done + {node}, node);
      found := false;
    }
  }

  // ----- connectivity classes -----

  /** The declared nodes connected to `n` through edges in either direction, declared ends or not. */
  ghost function ClassOf(links: set<(string, string)>, nodes: set<string>, n: string): set<string> {
    set m | m in nodes && Reaches(links, n, m)
  }

  ghost function Classes(links: set<(string, string)>, nodes: set<string>, of: set<string>): set<set<string>> {
    set n | n in of :: ClassOf(links, nodes, n)
  }

  lemma ConnectedSameClass(links: set<(string, string)>, nodes: set<string>, a: string, b: string)
    requires Symmetric(links) && Reaches(links, a, b)
    ensures ClassOf(links, nodes, a) == ClassOf(links, nodes, b)
  {
    SymmetricReaches(links, a, b);
    forall m | m in nodes ensures Reaches(links, a, m) <==> Reaches(links, b, m) {
      if Reaches(links, a, m) { ReachesTrans(links, b, a, m); }
      if Reaches(links, b, m) { ReachesTrans(links, a, b, m); }
    }
  }

  /** Everything visited hangs together with some node counted so far, and the visited ids are closed. */
  ghost predicate Explored(links: set<(string, string)>, counted: set<string>, visited: set<string>) {
    && counted <= visited
    && (forall x {:trigger Rooted(links, counted, x)} :: x in visited ==> Rooted(links, counted, x))
    && (forall x, y :: x in visited && (x, y) in links ==> y in visited)
  }

  ghost predicate Rooted(links: set<(string, string)>, counted: set<string>, x: string) {
    exists r :: r in counted && Reaches(links, r, x)
  }

  lemma RootedGrows(links: set<(string, string)>, counted: set<string>, more: set<string>, x: string)
    requires Rooted(links, counted, x) && counted <= more
    ensures Rooted(links, more, x)
  {
    var r :| r in counted && Reaches(links, r, x);
    assert r in more;
  }

  lemma ClassesAdd(links: set<(string, string)>, nodes: set<string>, counted: set<string>, n: string)
    ensures Classes(links, nodes, counted + {n}) == Classes(links, nodes, counted) + {ClassOf(links, nodes, n)}
  {
    forall s | s in Classes(links, nodes, counted) ensures s in Classes(links, nodes, counted + {n}) {
      var m :| m in counted && s == ClassOf(links, nodes, m);
      assert m in counted + {n};
    }
    assert n in counted + {n};
  }

  /** A node already visited adds no class; a node not yet visited adds exactly one. */
  lemma CountStep(links: set<(string, string)>, nodes: set<string>, counted: set<string>, visited: set<string>, n: string)
    requires Symmetric(links) && Explored(links, counted, visited) && n in nodes
    ensures |Classes(links, nodes, counted + {n})| == |Classes(links, nodes, counted)| + if n in visited then 0 else 1
  {
    ClassesAdd(links, nodes, counted, n);
    if n in visited {
      assert Rooted(links, counted, n);
      var r :| r in counted && Reaches(links, r, n);
      ConnectedSameClass(links, nodes, r, n);
      var known := Classes(links, nodes, counted);
      assert ClassOf(links, nodes, r) in known;
      assert known + {ClassOf(links, nodes, n)} == known;
    } else {
      NewClass(links, nodes, counted, visited, n);
    }
  }

  lemma NewClass(links: set<(string, string)>, nodes: set<string>, counted: set<string>, visited: set<string>, n: string)
    requires Explored(links, counted, visited) && n in nodes && n !in visited
    ensures ClassOf(links, nodes, n) !in Classes(links, nodes, counted)
  {
    ReachesSelf(links, n);
    forall m | m in counted ensures ClassOf(links, nodes, n) != ClassOf(links, nodes, m) {
      if n in ClassOf(links, nodes, m) {
        ClosedSet(links, visited, m, n);
      }
    }
  }

  function Neighbours(adjacency: map<string, set<string>>, a: string): set<string> {
    if a in adjacency then adjacency[a] else {}
  }

  ghost predicate Adjacent(adjacency: map<string, set<string>>, links: set<(string, string)>) {
    forall a, b :: (a, b) in links <==> b in Neighbours(adjacency, a)
  }

  method UndirectedAdjacency(edges: seq<Edge>) returns (adjacency: map<string, set<string>>)
    ensures Adjacent(adjacency, Undirected(Links(edges)))
  {
    adjacency := map[];
    for i := 0 to |edges|
      invariant Adjacent(adjacency, Undirected(Links(edges[..i])))
    {
      var e := edges[i];
      ghost var seen, more := edges[..i], edges[..i + 1];
      assert more == seen + [e];
      LinksSnoc(seen, e);
      AdjacentStep(adjacency, Links(seen), e.sourceId, e.targetId);
      adjacency := adjacency[e.sourceId := Neighbours(adjacency, e.sourceId) + {e.targetId}];
      adjacency := adjacency[e.targetId := Neighbours(adjacency, e.targetId) + {e.sourceId}];
      assert Links(more) == Links(seen) + {(e.sourceId, e.targetId)};
    }
    assert edges[..|edges|] == edges;
  }

  lemma AdjacentStep(adjacency: map<string, set<string>>, links: set<(string, string)>, a: string, b: string)
    requires Adjacent(adjacency, Undirected(links))
    ensures var half := adjacency[a := Neighbours(adjacency, a) + {b}];
            Adjacent(half[b := Neighbours(half, b) + {a}], Undirected(links + {(a, b)}))
  {
    var half := adjacency[a := Neighbours(adjacency, a) + {b}];
    var full := half[b := Neighbours(half, b) + {a}];
    forall x, y ensures (x, y) in Undirected(links + {(a, b)}) <==> y in Neighbours(full, x) {
      InverseMember(links, x, y);
      InverseMember(links + {(a, b)}, x, y);
      assert (x, y) in Undirected(links) <==> y in Neighbours(adjacency, x);
    }
  }

  lemma InverseMember(links: set<(string, string)>, a: string, b: string)
    ensures (a, b) in Inverse(links) <==> (b, a) in links
  {
  }

  /** The breadth-first flood from one node that has not been visited. */
  method Flood(adjacency: map<string, set<string>>, start: string, visited: set<string>, ghost links: set<(string, string)>,
               ghost counted: set<string>)
      returns (flooded: set<string>)
    requires Adjacent(adjacency, links) && Explored(links, counted, visited) && start !in visited
    ensures Explored(links, counted + {start}, flooded)
  {
    ghost var universe := visited + {start} + set l | l in links :: l.1;
    var queue := [start];
    flooded := visited + {start};
    ReachesSelf(links, start);
    while queue != []
      invariant visited + {start} <= flooded <= universe
      invariant forall q :: q in queue ==> q in flooded
      invariant forall x :: x in flooded && x !in visited ==> Reaches(links, start, x)
      invariant forall x, y :: x in flooded && (x, y) in links ==> y in flooded || x in queue
      decreases universe - flooded, |queue|
    {
      var curr := queue[0];
      ghost var rest, before := queue[1..], flooded;
      assert queue == [curr] + rest;
      assert curr in flooded;
      queue := queue[1..];
      var todo := Neighbours(adjacency, curr);
      while todo != {}
        invariant todo <= Neighbours(adjacency, curr)
        invariant before <= flooded <= universe
        invariant forall q :: q in queue ==> q in flooded
        invariant forall q :: q in rest ==> q in queue
        invariant forall x :: x in flooded && x !in before ==> x in queue && (curr, x) in links
        invariant forall y :: y in Neighbours(adjacency, curr) - todo ==> y in flooded
        invariant flooded == before ==> queue == rest
      {
        var neighbour :| neighbour in todo;
        todo := todo - {neighbour};
        if neighbour !in flooded {
          assert (curr, neighbour) in links;
          flooded := flooded + {neighbour};
          queue := queue + [neighbour];
        }
      }
      forall x | x in flooded && x !in visited ensures Reaches(links, start, x) {
        if x !in before && curr !in visited {
          ReachesSnoc(links, start, curr, x);
        }
      }
    }
    forall x | x in flooded ensures Rooted(links, counted + {start}, x) {
      if x in visited {
        assert Rooted(links, counted, x);
        RootedGrows(links, counted, counted + {start}, x);
      } else {
        assert start in counted + {start};
      }
    }
  }

  ghost function NodeSet(nodes: seq<string>): set<string> {
    set n | n in nodes
  }

  method CountComponents(nodes: seq<string>, edges: seq<Edge>) returns (count: nat)
    ensures count == |Classes(Undirected(Links(edges)), NodeSet(nodes), NodeSet(nodes))|
  {
    var adjacency := UndirectedAdjacency(edges);
    ghost var links := Undirected(Links(edges));
    UndirectedSymmetric(Links(edges));
    var visited: set<string> := {};
    count := 0;
    assert Classes(links, NodeSet(nodes), {}) == {};
    assert NodeSet(nodes[..0]) == {};
    for i := 0 to |nodes|
      invariant Explored(links, NodeSet(nodes[..i]), visited)
      invariant count == |Classes(links, NodeSet(nodes), NodeSet(nodes[..i]))|
    {
      ghost var counted := NodeSet(nodes[..i]);
      assert nodes[..i + 1] == nodes[..i] + [nodes[i]];
      assert NodeSet(nodes[..i + 1]) == counted + {nodes[i]};
      CountStep(links, NodeSet(nodes), counted, visited, nodes[i]);
      if nodes[i] !in visited {
        count := count + 1;
        visited := Flood(adjacency, nodes[i], visited, links, counted);
      } else {
        ExploredKnown(links, counted, visited, nodes[i]);
      }
    }
    assert nodes[..|nodes|] == nodes;
  }

  lemma ExploredKnown(links: set<(string, string)>, counted: set<string>, visited: set<string>, n: string)
    requires Explored(links, counted, visited) && n in visited
    ensures Explored(links, counted + {n}, visited)
  {
    forall x | x in visited ensures Rooted(links, counted + {n}, x) {
      assert Rooted(links, counted, x);
      RootedGrows(links, counted, counted + {n}, x);
    }
  }

  // ----- the four checks -----

  method FindCycles(nodes: seq<string>, edges: seq<Edge>) returns (diagnostics: seq<Diagnostic>)
    ensures forall d :: d in diagnostics ==>
              d.CycleDetected? && d.node in nodes && ReachesCycle(DeclaredLinks(edges, NodeSet(nodes)), d.node)
    ensures diagnostics != [] <==> exists n :: OnCycle(DeclaredLinks(edges, NodeSet(nodes)), n)
  {
    var search := new CycleSearch(nodes, edges);
    ghost var links := search.links;
    diagnostics := [];
    for i := 0 to |nodes|
      invariant search.Valid() && search.colour.Keys == NodeSet(nodes)
      invariant NodeSet(nodes[..i]) !! Coloured(search.colour, Unvisited)
      invariant forall g :: g in Coloured(search.colour, Visiting) ==> ReachesCycle(links, g)
      invariant diagnostics == [] ==> Coloured(search.colour, Visiting) == {}
      invariant forall d :: d in diagnostics ==> d.CycleDetected? && d.node in nodes && ReachesCycle(links, d.node)
    {
      var node := nodes[i];
      assert NodeSet(nodes[..i + 1]) == NodeSet(nodes[..i]) + {node};
      if search.colour[node] == Unvisited {
        var found := search.Dfs(node);
        if found {
          diagnostics := diagnostics + [CycleDetected(node)];
        }
      }
    }
    assert nodes[..|nodes|] == nodes;
    if diagnostics == [] {
      AllFinished(links, search.colour);
    } else {
      assert diagnostics[0] in diagnostics;
      ghost var c :| Reaches(links, diagnostics[0].node, c) && OnCycle(links, c);
    }
  }

  lemma AllFinished(links: set<(string, string)>, colour: map<string, Colour>)
    requires Coloured(colour, Unvisited) == {} && Coloured(colour, Visiting) == {}
    requires forall l :: l in links ==> l.0 in colour
    requires FinishedSafe(links, Coloured(colour, Visited))
    ensures forall n :: !OnCycle(links, n)
  {
    forall n ensures !OnCycle(links, n) {
      if n in colour {
        assert n !in Coloured(colour, Unvisited) && n !in Coloured(colour, Visiting);
        assert n in Coloured(colour, Visited);
      }
    }
  }

  /** An edge is reported for a missing end as often as it occurs. */
  ghost predicate DanglingCounts(diagnostics: seq<Diagnostic>, nodes: seq<string>, edges: seq<Edge>, e: Edge) {
    && multiset(diagnostics)[DanglingSource(e)] == (if e.sourceId in nodes then 0 else multiset(edges)[e])
    && multiset(diagnostics)[DanglingTarget(e)] == (if e.targetId in nodes then 0 else multiset(edges)[e])
  }

  lemma DanglingStep(before: seq<Diagnostic>, after: seq<Diagnostic>, nodes: seq<string>, edges: seq<Edge>, edge: Edge, e: Edge)
    requires DanglingCounts(before, nodes, edges, e)
    requires after == before + (if edge.sourceId in nodes then [] else [DanglingSource(edge)])
                             + (if edge.targetId in nodes then [] else [DanglingTarget(edge)])
    ensures DanglingCounts(after, nodes, edges + [edge], e)
  {
  }

  lemma CountsSayMembers(diagnostics: seq<Diagnostic>, nodes: seq<string>, edges: seq<Edge>, e: Edge)
    requires DanglingCounts(diagnostics, nodes, edges, e)
    ensures DanglingSource(e) in diagnostics <==> e in edges && e.sourceId !in nodes
    ensures DanglingTarget(e) in diagnostics <==> e in edges && e.targetId !in nodes
  {
    assert DanglingSource(e) in diagnostics <==> DanglingSource(e) in multiset(diagnostics);
    assert DanglingTarget(e) in diagnostics <==> DanglingTarget(e) in multiset(diagnostics);
    assert e in edges <==> e in multiset(edges);
  }

  method FindDangling(nodes: seq<string>, edges: seq<Edge>) returns (diagnostics: seq<Diagnostic>)
    ensures forall d :: d in diagnostics <==>
              || (d.DanglingSource? && d.edge in edges && d.edge.sourceId !in nodes)
              || (d.DanglingTarget? && d.edge in edges && d.edge.targetId !in nodes)
    ensures forall e :: DanglingCounts(diagnostics, nodes, edges, e)
  {
    diagnostics := [];
    for i := 0 to |edges|
      invariant forall d :: d in diagnostics ==> d.DanglingSource? || d.DanglingTarget?
      invariant forall e :: DanglingCounts(diagnostics, nodes, edges[..i], e)
    {
      ghost var before, seen, more := diagnostics, edges[..i], edges[..i + 1];
      assert more == seen + [edges[i]];
      if edges[i].sourceId !in nodes {
        diagnostics := diagnostics + [DanglingSource(edges[i])];
      }
      if edges[i].targetId !in nodes {
        diagnostics := diagnostics + [DanglingTarget(edges[i])];
      }
      forall e ensures DanglingCounts(diagnostics, nodes, more, e) {
        DanglingStep(before, diagnostics, nodes, seen, edges[i], e);
      }
    }
    assert edges[..|edges|] == edges;
    forall d: Diagnostic | d.DanglingSource? || d.DanglingTarget?
      ensures d in diagnostics <==>
              || (d.DanglingSource? && d.edge in edges && d.edge.sourceId !in nodes)
              || (d.DanglingTarget? && d.edge in edges && d.edge.targetId !in nodes)
    {
      CountsSayMembers(diagnostics, nodes, edges, d.edge);
    }
  }

  /** Every repetition of an edge is reported once. */
  method FindDuplicates(edges: seq<Edge>) returns (diagnostics: seq<Diagnostic>)
    ensures forall d :: d in diagnostics ==> d.DuplicateEdge?
    ensures forall e :: multiset(diagnostics)[DuplicateEdge(e)] == if e in edges then multiset(edges)[e] - 1 else 0
  {
    diagnostics := [];
    var seen: set<Edge> := {};
    for i := 0 to |edges|
      invariant forall e :: e in seen <==> e in edges[..i]
      invariant forall d :: d in diagnostics ==> d.DuplicateEdge?
      invariant forall e :: multiset(diagnostics)[DuplicateEdge(e)]
                            == if e in edges[..i] then multiset(edges[..i])[e] - 1 else 0
    {
      assert edges[..i + 1] == edges[..i] + [edges[i]];
      if edges[i] in seen {
        diagnostics := diagnostics + [DuplicateEdge(edges[i])];
      } else {
        seen := seen + {edges[i]};
      }
    }
    assert edges[..|edges|] == edges;
  }

  /** The whole check. `nodes` are the keys of the node dictionary in insertion order. */
  method Check(nodes: seq<string>, edges: seq<Edge>) returns (diagnostics: seq<Diagnostic>)
    ensures forall e :: DanglingSource(e) in diagnostics <==> e in edges && e.sourceId !in nodes
    ensures forall e :: DanglingTarget(e) in diagnostics <==> e in edges && e.targetId !in nodes
    ensures forall e :: DuplicateEdge(e) in diagnostics <==> multiset(edges)[e] > 1
    ensures (exists n :: CycleDetected(n) in diagnostics) <==> exists n :: OnCycle(DeclaredLinks(edges, NodeSet(nodes)), n)
    ensures forall n :: CycleDetected(n) in diagnostics ==> ReachesCycle(DeclaredLinks(edges, NodeSet(nodes)), n)
    ensures forall k :: Disconnected(k) in diagnostics <==>
              k > 1 && k == |Classes(Undirected(Links(edges)), NodeSet(nodes), NodeSet(nodes))|
  {
    var dangling := FindDangling(nodes, edges);
    var duplicates := FindDuplicates(edges);
    var cycles := FindCycles(nodes, edges);
    var disconnected: seq<Diagnostic> := [];
    if |nodes| > 1 {
      var count := CountComponents(nodes, edges);
      if count > 1 {
        disconnected := [Disconnected(count)];
      }
    } else {
      FewNodesOneClass(Undirected(Links(edges)), nodes);
    }
    assert (exists n :: CycleDetected(n) in cycles) <==> cycles != [] by {
      if cycles != [] {
        assert cycles[0] in cycles && cycles[0] == CycleDetected(cycles[0].node);
      }
    }
    diagnostics := dangling + duplicates + cycles + disconnected;
    assert forall n :: CycleDetected(n) in diagnostics <==> CycleDetected(n) in cycles;
    forall e ensures DuplicateEdge(e) in diagnostics <==> multiset(edges)[e] > 1 {
      assert DuplicateEdge(e) in duplicates <==> DuplicateEdge(e) in multiset(duplicates);
    }
  }

  lemma FewNodesOneClass(links: set<(string, string)>, nodes: seq<string>)
    requires |nodes| <= 1
    ensures |Classes(links, NodeSet(nodes), NodeSet(nodes))| <= 1
  {
    if nodes == [] {
      assert Classes(links, NodeSet(nodes), NodeSet(nodes)) == {};
    } else {
      assert Classes(links, NodeSet(nodes), NodeSet(nodes)) == {ClassOf(links, NodeSet(nodes), nodes[0])};
    }
  }
}
