/** The code property graph container (karsasec/cpg/models.py). */
module CpgModels {
  import opened Reach

  datatype CPGNode = CPGNode(id: string, nodeType: string, labelText: string)

  datatype CPGEdge = CPGEdge(sourceId: string, targetId: string, edgeType: string)

  /** The edges leaving `id`, in insertion order. */
  function EdgesFrom(edges: seq<CPGEdge>, id: string): seq<CPGEdge> {
    if edges == [] then []
    else
      var init, last := edges[..|edges| - 1], edges[|edges| - 1];
      if last.sourceId == id then EdgesFrom(init, id) + [last] else EdgesFrom(init, id)
  }

  lemma {:induction false} EdgesFromMembers(edges: seq<CPGEdge>, id: string)
    ensures forall e :: e in EdgesFrom(edges, id) <==> e in edges && e.sourceId == id
  {
    if edges != [] {
      var init, last := edges[..|edges| - 1], edges[|edges| - 1];
      EdgesFromMembers(init, id);
      assert edges == init + [last];
    }
  }

  lemma EdgesFromSnoc(edges: seq<CPGEdge>, e: CPGEdge, id: string)
    ensures EdgesFrom(edges + [e], id) == EdgesFrom(edges, id) + if e.sourceId == id then [e] else []
  {
    assert (edges + [e])[..|edges|] == edges;
  }

  /** The edges entering `id`, in insertion order. */
  function EdgesInto(edges: seq<CPGEdge>, id: string): seq<CPGEdge> {
    if edges == [] then []
    else
      var init, last := edges[..|edges| - 1], edges[|edges| - 1];
      if last.targetId == id then EdgesInto(init, id) + [last] else EdgesInto(init, id)
  }

  lemma {:induction false} EdgesIntoMembers(edges: seq<CPGEdge>, id: string)
    ensures forall e :: e in EdgesInto(edges, id) <==> e in edges && e.targetId == id
  {
    if edges != [] {
      var init, last := edges[..|edges| - 1], edges[|edges| - 1];
      EdgesIntoMembers(init, id);
      assert edges == init + [last];
    }
  }

  lemma EdgesIntoSnoc(edges: seq<CPGEdge>, e: CPGEdge, id: string)
    ensures EdgesInto(edges + [e], id) == EdgesInto(edges, id) + if e.targetId == id then [e] else []
  {
    assert (edges + [e])[..|edges|] == edges;
  }

  function Lookup(adjacency: map<string, seq<CPGEdge>>, id: string): seq<CPGEdge> {
    if id in adjacency then adjacency[id] else []
  }

  /** Appends to the list filed under `id`, starting one when there is none. */
  function Filed(adjacency: map<string, seq<CPGEdge>>, id: string, e: CPGEdge): (r: map<string, seq<CPGEdge>>)
    ensures forall x :: Lookup(r, x) == Lookup(adjacency, x) + if x == id then [e] else []
  {
    var ready := if id in adjacency then adjacency else adjacency[id := []];
    ready[id := ready[id] + [e]]
  }

  /** The edges as a relation on ids, whether or not their ends are declared nodes. */
  ghost function Links(edges: seq<CPGEdge>): set<(string, string)> {
    set e | e in edges :: (e.sourceId, e.targetId)
  }

  /** The part of the relation whose ends are both declared. */
  ghost function Within(links: set<(string, string)>, ids: set<string>): set<(string, string)> {
    set l | l in links && l.0 in ids && l.1 in ids
  }

  /** `p` is a chain of graph edges leading from `a` to `b`. */
  ghost predicate Chain(edges: seq<CPGEdge>, a: string, p: seq<CPGEdge>, b: string)
    decreases |p|
  {
    if p == [] then a == b
    else p[0] in edges && p[0].sourceId == a && Chain(edges, p[0].targetId, p[1..], b)
  }

  lemma {:induction false} ChainSnoc(edges: seq<CPGEdge>, a: string, p: seq<CPGEdge>, b: string, e: CPGEdge)
    requires Chain(edges, a, p, b) && e in edges && e.sourceId == b
    ensures Chain(edges, a, p + [e], e.targetId)
    decreases |p|
  {
    if p == [] {
      assert Chain(edges, e.targetId, [e][1..], e.targetId);
    } else {
      ChainSnoc(edges, p[0].targetId, p[1..], b, e);
      assert (p + [e])[1..] == p[1..] + [e];
    }
  }

  lemma {:induction false} ChainReaches(edges: seq<CPGEdge>, a: string, p: seq<CPGEdge>, b: string)
    requires Chain(edges, a, p, b)
    ensures Reaches(Links(edges), a, b)
    decreases |p|
  {
    if p == [] {
      ReachesSelf(Links(edges), a);
    } else {
      ChainReaches(edges, p[0].targetId, p[1..], b);
      assert (a, p[0].targetId) in Links(edges);
      ReachesEdge(Links(edges), a, p[0].targetId);
      ReachesTrans(Links(edges), a, p[0].targetId, b);
    }
  }

  class CPGGraph {
    var nodes: map<string, CPGNode>
    var edges: seq<CPGEdge>
    var adjacencyOut: map<string, seq<CPGEdge>>
    var adjacencyIn: map<string, seq<CPGEdge>>
    var nodeCount: nat
    var edgeCount: nat

    /** The two adjacency dictionaries are exactly the edge list, regrouped. */
    ghost predicate Valid()
      reads this
    {
      && (forall id :: id in nodes ==> nodes[id].id == id)
      && (forall id :: Lookup(adjacencyOut, id) == EdgesFrom(edges, id))
      && (forall id :: Lookup(adjacencyIn, id) == EdgesInto(edges, id))
      && nodeCount == |nodes| && edgeCount == |edges|
    }

    constructor ()
      ensures Valid() && nodes == map[] && edges == []
    {
      nodes, edges, adjacencyOut, adjacencyIn, nodeCount, edgeCount := map[], [], map[], map[], 0, 0;
    }

    method AddNode(node: CPGNode)
      requires Valid()
      modifies this
      ensures Valid() && nodes == old(nodes)[node.id := node] && edges == old(edges)
    {
      nodes := nodes[node.id := node];
      if node.id !in adjacencyOut {
        adjacencyOut := adjacencyOut[node.id := []];
      }
      if node.id !in adjacencyIn {
        adjacencyIn := adjacencyIn[node.id := []];
      }
      nodeCount := |nodes|;
    }

    method AddEdge(edge: CPGEdge)
      requires Valid()
      modifies this
      ensures Valid() && nodes == old(nodes) && edges == old(edges) + [edge]
    {
      ghost var before, outBefore, inBefore := edges, adjacencyOut, adjacencyIn;
      edges := edges + [edge];
      adjacencyOut := Filed(adjacencyOut, edge.sourceId, edge);
      adjacencyIn := Filed(adjacencyIn, edge.targetId, edge);
      edgeCount := |edges|;
      forall id
        ensures Lookup(adjacencyOut, id) == EdgesFrom(edges, id)
        ensures Lookup(adjacencyIn, id) == EdgesInto(edges, id)
      {
        EdgesFromSnoc(before, edge, id);
        EdgesIntoSnoc(before, edge, id);
        assert Lookup(outBefore, id) == EdgesFrom(before, id);
        assert Lookup(inBefore, id) == EdgesInto(before, id);
      }
    }

    function GetOutgoingEdges(id: string): (r: seq<CPGEdge>)
      requires Valid()
      reads this
      ensures r == EdgesFrom(edges, id)
      ensures forall e :: e in r <==> e in edges && e.sourceId == id
    {
      EdgesFromMembers(edges, id);
      assert Lookup(adjacencyOut, id) == EdgesFrom(edges, id);
      if id in adjacencyOut then adjacencyOut[id] else []
    }

    function GetIncomingEdges(id: string): (r: seq<CPGEdge>)
      requires Valid()
      reads this
      ensures r == EdgesInto(edges, id)
      ensures forall e :: e in r <==> e in edges && e.targetId == id
    {
      EdgesIntoMembers(edges, id);
      assert Lookup(adjacencyIn, id) == EdgesInto(edges, id);
      if id in adjacencyIn then adjacencyIn[id] else []
    }
  }
}
