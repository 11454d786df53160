/** Correlating findings into clusters (karsasec/analysis/finding_correlator.py). */
module FindingCorrelator {
  import opened Common
  import opened Reach
  import opened Ordering
  import opened UnionFindModel

  datatype Finding = Finding(
    findingId: string, vulnerabilityClass: string, flowId: string,
    sourceFactId: string, sinkFactId: string, sourceNodeId: string, sinkNodeId: string,
    flowEvidence: seq<(string, string)>)

  datatype Cluster = Cluster(vulnerabilityClass: string, findingIds: seq<string>)

  /** Looking a key up in the dictionary built from a sequence of pairs: the last pair wins. */
  function Lookup(pairs: seq<(string, string)>, key: string): Option<string> {
    if pairs == [] then None
    else if pairs[|pairs| - 1].0 == key then Some(pairs[|pairs| - 1].1)
    else Lookup(pairs[..|pairs| - 1], key)
  }

  predicate EvidenceCompatible(a: Finding, b: Finding) {
    if a.vulnerabilityClass != b.vulnerabilityClass then false
    else if a.flowId == b.flowId && a.flowId != "missing_flow" then true
    else if a.sourceFactId == b.sourceFactId && a.sinkFactId == b.sinkFactId && a.sourceFactId != "missing_source" then true
    else if a.sourceNodeId == b.sourceNodeId && a.sinkNodeId == b.sinkNodeId && a.sourceNodeId != "missing_node" then true
    else
      var aContext, bContext := Lookup(a.flowEvidence, "call_context"), Lookup(b.flowEvidence, "call_context");
      a.sourceFactId == b.sourceFactId && aContext != None && aContext == bContext
  }

  /** The last value a sequence of pairs gives to a key. */
  ghost predicate LastValue(pairs: seq<(string, string)>, key: string, value: string) {
    exists i :: 0 <= i < |pairs| && pairs[i] == (key, value) && forall j :: i < j < |pairs| ==> pairs[j].0 != key
  }

  lemma {:induction false} LookupIsLast(pairs: seq<(string, string)>, key: string, value: string)
    ensures Lookup(pairs, key) == Some(value) <==> LastValue(pairs, key, value)
  {
    if pairs != [] {
      var init, last := pairs[..|pairs| - 1], pairs[|pairs| - 1];
      LookupIsLast(init, key, value);
      if last.0 == key {
        assert pairs[|pairs| - 1] == last;
      } else {
        if LastValue(init, key, value) {
          var i :| 0 <= i < |init| && init[i] == (key, value) && forall j :: i < j < |init| ==> init[j].0 != key;
          assert pairs[i] == (key, value);
        }
        if LastValue(pairs, key, value) {
          var i :| 0 <= i < |pairs| && pairs[i] == (key, value) && forall j :: i < j < |pairs| ==> pairs[j].0 != key;
          assert init[i] == (key, value);
        }
      }
    }
  }

  /** The two findings give the same value to their call context. */
  ghost predicate SameContext(a: Finding, b: Finding) {
    exists value :: LastValue(a.flowEvidence, "call_context", value) && LastValue(b.flowEvidence, "call_context", value)
  }

  /**
   What joins two findings: within one class the same flow, the same two facts, the same two nodes, or
   the same source fact in the same call context; what is missing joins nothing but by its context.
   */
  lemma JoinedExactlyBy(a: Finding, b: Finding)
    ensures EvidenceCompatible(a, b) <==>
              && a.vulnerabilityClass == b.vulnerabilityClass
              && (|| a.flowId == b.flowId != "missing_flow"
                  || (a.sourceFactId == b.sourceFactId != "missing_source" && a.sinkFactId == b.sinkFactId)
                  || (a.sourceNodeId == b.sourceNodeId != "missing_node" && a.sinkNodeId == b.sinkNodeId)
                  || (a.sourceFactId == b.sourceFactId && SameContext(a, b)))
  {
    var x, y := Lookup(a.flowEvidence, "call_context"), Lookup(b.flowEvidence, "call_context");
    if x.Some? {
      LookupIsLast(a.flowEvidence, "call_context", x.value);
      LookupIsLast(b.flowEvidence, "call_context", x.value);
    }
    if SameContext(a, b) {
      var value :| LastValue(a.flowEvidence, "call_context", value) && LastValue(b.flowEvidence, "call_context", value);
      LookupIsLast(a.flowEvidence, "call_context", value);
      LookupIsLast(b.flowEvidence, "call_context", value);
    }
  }

  /** A shared source alone never joins findings whose flows, sinks and contexts differ. */
  lemma SourceAloneNeverJoins(a: Finding, b: Finding)
    requires a.flowId != b.flowId && a.sinkFactId != b.sinkFactId && a.sinkNodeId != b.sinkNodeId && !SameContext(a, b)
    ensures !EvidenceCompatible(a, b)
  {
    JoinedExactlyBy(a, b);
  }

  /** Findings of which flow, source and source node are missing are joined by nothing but their call contexts. */
  lemma MissingNeverJoins(a: Finding, b: Finding)
    requires a.flowId == "missing_flow" && a.sourceFactId == "missing_source" && a.sourceNodeId == "missing_node"
    requires !SameContext(a, b)
    ensures !EvidenceCompatible(a, b)
  {
    JoinedExactlyBy(a, b);
  }

  /** The dictionary from id to finding: a later finding replaces an earlier one with the same id. */
  function ById(findings: seq<Finding>): map<string, Finding> {
    if findings == [] then map[]
    else ById(findings[..|findings| - 1])[findings[|findings| - 1].findingId := findings[|findings| - 1]]
  }

  lemma {:induction false} ByIdMembers(findings: seq<Finding>)
    ensures forall id :: id in ById(findings) ==> ById(findings)[id] in findings && ById(findings)[id].findingId == id
    ensures forall f :: f in findings ==> f.findingId in ById(findings)
  {
    if findings != [] {
      var init, last := findings[..|findings| - 1], findings[|findings| - 1];
      ByIdMembers(init);
      assert findings == init + [last];
    }
  }

  lemma {:induction false} ByIdInsert(f: Finding, s: seq<Finding>)
    ensures ById(Insert(ByKey((g: Finding) => g.findingId), f, s)) == ById(s)[f.findingId := f]
  {
    var before := ByKey((g: Finding) => g.findingId);
    if s != [] && before(f, s[|s| - 1]) {
      var init, last := s[..|s| - 1], s[|s| - 1];
      ByIdInsert(f, init);
      LessIrreflexive(f.findingId);
      var r := Insert(before, f, init);
      assert (r + [last])[..|r|] == r;
    } else {
      assert (s + [f])[..|s|] == s;
    }
  }

  /** Sorting by id is stable, so it keeps the dictionary. */
  lemma {:induction false} ByIdSort(s: seq<Finding>)
    ensures ById(Sort(ByKey((g: Finding) => g.findingId), s)) == ById(s)
  {
    if s != [] {
      ByIdSort(s[..|s| - 1]);
      ByIdInsert(s[|s| - 1], Sort(ByKey((g: Finding) => g.findingId), s[..|s| - 1]));
    }
  }

  /** The reference relation: all pairs of ids whose findings are compatible. */
  ghost function AllCompatible(byId: map<string, Finding>): set<(string, string)> {
    set x, y | x in byId && y in byId && EvidenceCompatible(byId[x], byId[y]) :: (x, y)
  }

  /**
   `clusters` are exactly the connected components of the all-pairs relation: each is one whole
   component in increasing id order, no id is in two, none is missing, and a cluster's class is the
   class of every member.
   */
  ghost predicate Correlated(clusters: seq<Cluster>, byId: map<string, Finding>) {
    && (forall x :: x in byId ==> Clustered(clusters, x))
    && (forall k :: 0 <= k < |clusters| ==> IsComponent(clusters[k], byId))
    && (forall k, l :: 0 <= k < l < |clusters| ==> Apart(clusters[k], clusters[l]))
  }

  ghost predicate Clustered(clusters: seq<Cluster>, x: string) {
    exists k :: 0 <= k < |clusters| && x in clusters[k].findingIds
  }

  /** A whole connected component of the all-pairs relation, all of one vulnerability class. */
  ghost predicate IsComponent(cluster: Cluster, byId: map<string, Finding>) {
    && cluster.findingIds != [] && Increasing(cluster.findingIds)
    && forall x, y :: x in cluster.findingIds ==>
         && (y in cluster.findingIds <==> x in byId && y in byId && Reaches(AllCompatible(byId), x, y))
         && x in byId && byId[x].vulnerabilityClass == cluster.vulnerabilityClass
  }

  ghost predicate Apart(c: Cluster, d: Cluster) {
    forall x :: x in c.findingIds ==> x !in d.findingIds
  }

  lemma CompatibleSymmetric(byId: map<string, Finding>)
    ensures Symmetric(AllCompatible(byId)) && Undirected(AllCompatible(byId)) == AllCompatible(byId)
  {
    assert forall a, b :: EvidenceCompatible(a, b) ==> EvidenceCompatible(b, a);
    assert Inverse(AllCompatible(byId)) <= AllCompatible(byId);
  }

  /** Every edge of `e` being a path in `f`, every path in `e` is one in `f`. */
  lemma ReachesThrough(e: set<(string, string)>, f: set<(string, string)>, a: string, b: string)
    requires forall x, y :: (x, y) in e ==> Reaches(f, x, y)
    requires Reaches(e, a, b)
    ensures Reaches(f, a, b)
  {
    ReachesSelf(f, a);
    forall x, y | (x, y) in e && Reaches(f, a, x) ensures Reaches(f, a, y) {
      ReachesTrans(f, a, x, y);
    }
    ReachesKeeps(e, x => Reaches(f, a, x), a, b);
  }

  // ----- candidate indexes -----

  function SourceKey(f: Finding): string { f.sourceFactId }

  function SinkKey(f: Finding): string { f.sinkFactId }

  function FlowKey(f: Finding): string { f.flowId }

  function NodePairKey(f: Finding): (string, string) { (f.sourceNodeId, f.sinkNodeId) }

  function OrderedPair(a: string, b: string): (string, string) {
    if Less(b, a) then (b, a) else (a, b)
  }

  /** The index files exactly the findings of `seen`, each under its key. */
  ghost predicate Indexes<K>(index: map<K, seq<Finding>>, seen: seq<Finding>, key: Finding -> K) {
    && (forall f :: f in seen ==> key(f) in index && f in index[key(f)])
    && (forall k, f :: k in index && f in index[k] ==> f in seen && key(f) == k)
  }

  function Filed<K>(index: map<K, seq<Finding>>, k: K, f: Finding): map<K, seq<Finding>> {
    index[k := (if k in index then index[k] else []) + [f]]
  }

  lemma FiledIndexes<K>(index: map<K, seq<Finding>>, seen: seq<Finding>, key: Finding -> K, f: Finding)
    requires Indexes(index, seen, key)
    ensures Indexes(Filed(index, key(f), f), seen + [f], key)
  {
    assert forall g :: g in seen + [f] <==> g in seen || g == f;
    var r := Filed(index, key(f), f);
    forall k, g | k in r && g in r[k] ensures g in seen + [f] && key(g) == k {
      assert k != key(f) ==> g in index[k];
    }
  }

  /** The pairs of ids met by the double loop over one group. */
  ghost predicate PairIn(group: seq<Finding>, p: (string, string)) {
    exists i, j :: 0 <= i < j < |group| && p == OrderedPair(group[i].findingId, group[j].findingId)
  }

  ghost predicate PairBefore(group: seq<Finding>, i: nat, p: (string, string)) {
    exists k, l :: 0 <= k < i && k < l < |group| && p == OrderedPair(group[k].findingId, group[l].findingId)
  }

  ghost predicate PairWith(group: seq<Finding>, i: nat, j: nat, p: (string, string)) {
    exists l :: i < l < j && l < |group| && i < |group| && p == OrderedPair(group[i].findingId, group[l].findingId)
  }

  method AddGroupPairs(group: seq<Finding>, pairs: set<(string, string)>) returns (grown: set<(string, string)>)
    ensures forall p :: p in grown <==> p in pairs || PairIn(group, p)
  {
    grown := pairs;
    for i := 0 to |group|
      invariant forall p :: p in grown <==> (p in pairs || PairBefore(group, i, p))
    {
      ghost var outer := grown;
      for j := i + 1 to |group|
        invariant forall p :: p in grown <==> (p in outer || PairWith(group, i, j, p))
      {
        grown := grown + {OrderedPair(group[i].findingId, group[j].findingId)};
      }
    }
  }

  ghost predicate Paired<K(!new)>(index: map<K, seq<Finding>>, p: (string, string)) {
    exists k :: k in index && PairIn(index[k], p)
  }

  method AddIndexPairs<K(==, !new)>(index: map<K, seq<Finding>>, pairs: set<(string, string)>) returns (grown: set<(string, string)>)
    ensures forall p :: p in grown <==> (p in pairs || Paired(index, p))
  {
    grown := pairs;
    var todo := index.Keys;
    while todo != {}
      invariant todo <= index.Keys
      invariant forall p :: p in grown <==> p in pairs || exists k :: k in index.Keys - todo && PairIn(index[k], p)
    {
      var k :| k in todo;
      grown := AddGroupPairs(index[k], grown);
      todo := todo - {k};
    }
  }

  /** Two different findings that share a key are paired by the index on that key. */
  lemma SharedKeyIsPaired<K(!new)>(index: map<K, seq<Finding>>, seen: seq<Finding>, key: Finding -> K, f: Finding, g: Finding)
    requires Indexes(index, seen, key) && f in seen && g in seen && f.findingId != g.findingId && key(f) == key(g)
    ensures Paired(index, OrderedPair(f.findingId, g.findingId))
  {
    var group := index[key(f)];
    var i :| 0 <= i < |group| && group[i] == f;
    var j :| 0 <= j < |group| && group[j] == g;
    LessTotal(f.findingId, g.findingId);
    if Less(f.findingId, g.findingId) {
      LessAsymmetric(f.findingId, g.findingId);
    }
    if i < j {
      assert OrderedPair(group[i].findingId, group[j].findingId) == OrderedPair(f.findingId, g.findingId);
    } else {
      if Less(g.findingId, f.findingId) { LessAsymmetric(g.findingId, f.findingId); }
      assert OrderedPair(group[j].findingId, group[i].findingId) == OrderedPair(f.findingId, g.findingId);
    }
    assert PairIn(index[key(f)], OrderedPair(f.findingId, g.findingId));
  }

  lemma PairedIds<K(!new)>(index: map<K, seq<Finding>>, seen: seq<Finding>, key: Finding -> K, p: (string, string),
                           byId: map<string, Finding>)
    requires Indexes(index, seen, key) && Paired(index, p) && forall f :: f in seen ==> f.findingId in byId
    ensures p.0 in byId && p.1 in byId
  {
    var k :| k in index && PairIn(index[k], p);
    var i, j :| 0 <= i < j < |index[k]| && p == OrderedPair(index[k][i].findingId, index[k][j].findingId);
    assert index[k][i] in index[k] && index[k][j] in index[k];
  }

  /** The four indexes never miss a compatible pair. */
  lemma CompatibleIsCandidate(seen: seq<Finding>, f: Finding, g: Finding,
                              sourceIndex: map<string, seq<Finding>>, sinkIndex: map<string, seq<Finding>>,
                              flowIndex: map<string, seq<Finding>>, nodePairIndex: map<(string, string), seq<Finding>>)
    requires f in seen && g in seen && f.findingId != g.findingId && EvidenceCompatible(f, g)
    requires Indexes(sourceIndex, seen, SourceKey)
    requires Indexes(sinkIndex, seen, SinkKey)
    requires Indexes(flowIndex, seen, FlowKey)
    requires Indexes(nodePairIndex, seen, NodePairKey)
    ensures var p := OrderedPair(f.findingId, g.findingId);
            Paired(sourceIndex, p) || Paired(sinkIndex, p) || Paired(flowIndex, p) || Paired(nodePairIndex, p)
  {
    if f.flowId == g.flowId {
      SharedKeyIsPaired(flowIndex, seen, FlowKey, f, g);
    } else if f.sourceFactId == g.sourceFactId {
      SharedKeyIsPaired(sourceIndex, seen, SourceKey, f, g);
    } else {
      SharedKeyIsPaired(nodePairIndex, seen, NodePairKey, f, g);
    }
  }

  /** The candidates that are merged: those whose findings are compatible. */
  ghost function Merged(byId: map<string, Finding>, candidates: set<(string, string)>): set<(string, string)> {
    set p | p in candidates && p.0 in byId && p.1 in byId && EvidenceCompatible(byId[p.0], byId[p.1])
  }

  /** Merging all compatible candidates generates the same components as the all-pairs relation. */
  lemma MergedIsAllPairs(byId: map<string, Finding>, candidates: set<(string, string)>, a: string, b: string)
    requires forall x, y :: x in byId && y in byId && x != y && EvidenceCompatible(byId[x], byId[y]) ==>
                              OrderedPair(x, y) in candidates
    ensures Reaches(Undirected(Merged(byId, candidates)), a, b) <==> Reaches(AllCompatible(byId), a, b)
  {
    var united := Merged(byId, candidates);
    CompatibleSymmetric(byId);
    if Reaches(Undirected(united), a, b) {
      assert united <= AllCompatible(byId);
      ReachesMonotone(Undirected(united), Undirected(AllCompatible(byId)), a, b);
    }
    if Reaches(AllCompatible(byId), a, b) {
      forall x, y | (x, y) in AllCompatible(byId) ensures Reaches(Undirected(united), x, y) {
        if x == y {
          ReachesSelf(Undirected(united), x);
        } else {
          assert OrderedPair(x, y) in united;
          ReachesEdge(Undirected(united), x, y);
        }
      }
      ReachesThrough(AllCompatible(byId), Undirected(united), a, b);
    }
  }

  lemma ClassIsShared(byId: map<string, Finding>, x: string, y: string)
    requires x in byId && Reaches(AllCompatible(byId), x, y)
    ensures y in byId && byId[y].vulnerabilityClass == byId[x].vulnerabilityClass
  {
    ReachesKeeps(AllCompatible(byId), z => z in byId && byId[z].vulnerabilityClass == byId[x].vulnerabilityClass, x, y);
  }

  /** A cluster takes the class of the first finding of its component. */
  ghost predicate MadeFrom(byId: map<string, Finding>, comp: seq<string>, cluster: Cluster) {
    && comp != [] && comp[0] in byId && cluster.findingIds == comp
    && cluster.vulnerabilityClass == byId[comp[0]].vulnerabilityClass
  }

  /** Every cluster of the sorted result was made from one of the classes. */
  lemma ClusterSource(clusters: seq<Cluster>, made: seq<Cluster>, k: nat) returns (i: nat)
    requires (forall c :: c in clusters <==> c in made) && k < |clusters|
    ensures i < |made| && made[i] == clusters[k]
  {
    assert clusters[k] in made;
    i :| 0 <= i < |made| && made[i] == clusters[k];
  }

  lemma ClassIsComponent(byId: map<string, Finding>, united: set<(string, string)>, comps: seq<seq<string>>,
                         i: nat, cluster: Cluster)
    requires ListsClasses(comps, byId.Keys, united)
    requires forall x, y :: Reaches(Undirected(united), x, y) <==> Reaches(AllCompatible(byId), x, y)
    requires i < |comps| && MadeFrom(byId, comps[i], cluster)
    ensures IsComponent(cluster, byId)
  {
    assert comps[i][0] in comps[i];
    forall x, y | x in cluster.findingIds
      ensures y in cluster.findingIds <==> x in byId && y in byId && Reaches(AllCompatible(byId), x, y)
      ensures x in byId && byId[x].vulnerabilityClass == cluster.vulnerabilityClass
    {
      assert y in comps[i] <==> y in byId.Keys && x in byId.Keys && Reaches(Undirected(united), x, y);
      assert Reaches(Undirected(united), comps[i][0], x);
      ClassIsShared(byId, comps[i][0], x);
    }
  }

  ghost predicate MadeFromEach(byId: map<string, Finding>, comps: seq<seq<string>>, made: seq<Cluster>) {
    |made| == |comps| && forall k :: 0 <= k < |comps| ==> MadeFrom(byId, comps[k], made[k])
  }

  lemma MadeDistinct(byId: map<string, Finding>, united: set<(string, string)>, comps: seq<seq<string>>, made: seq<Cluster>)
    requires ListsClasses(comps, byId.Keys, united)
    requires MadeFromEach(byId, comps, made)
    ensures Distinct(made)
  {
    forall i, j | 0 <= i < j < |made| ensures made[i] != made[j] {
      assert MadeFrom(byId, comps[i], made[i]) && MadeFrom(byId, comps[j], made[j]);
      LessIrreflexive(comps[i][0]);
      assert Less(comps[i][0], comps[j][0]);
    }
  }

  lemma EveryIdClustered(byId: map<string, Finding>, united: set<(string, string)>, comps: seq<seq<string>>,
                         made: seq<Cluster>, clusters: seq<Cluster>, x: string)
    requires ListsClasses(comps, byId.Keys, united) && MadeFromEach(byId, comps, made)
    requires (forall c :: c in clusters <==> c in made) && x in byId
    ensures Clustered(clusters, x)
  {
    assert Grouped(comps, x);
    var i :| 0 <= i < |comps| && x in comps[i];
    assert MadeFrom(byId, comps[i], made[i]) && made[i] in clusters;
    var k :| 0 <= k < |clusters| && clusters[k] == made[i];
    assert x in clusters[k].findingIds;
  }

  lemma ClustersApart(byId: map<string, Finding>, united: set<(string, string)>, comps: seq<seq<string>>,
                      made: seq<Cluster>, i: nat, j: nat)
    requires ListsClasses(comps, byId.Keys, united) && MadeFromEach(byId, comps, made)
    requires i < |comps| && j < |comps| && made[i] != made[j]
    ensures Apart(made[i], made[j])
  {
    assert MadeFrom(byId, comps[i], made[i]) && MadeFrom(byId, comps[j], made[j]);
    forall x | x in comps[i] ensures x !in comps[j] {
      if x in comps[j] {
        ClassesDisjoint(byId.Keys, united, comps, i, j, x);
      }
    }
  }

  /** Classes in any order, with the class of their first member, are the clusters promised. */
  lemma ClustersOfClasses(byId: map<string, Finding>, united: set<(string, string)>, comps: seq<seq<string>>,
                          made: seq<Cluster>, clusters: seq<Cluster>)
    requires ListsClasses(comps, byId.Keys, united)
    requires forall x, y :: Reaches(Undirected(united), x, y) <==> Reaches(AllCompatible(byId), x, y)
    requires MadeFromEach(byId, comps, made)
    requires (forall c :: c in clusters <==> c in made) && Distinct(clusters)
    ensures Correlated(clusters, byId)
  {
    forall x | x in byId ensures Clustered(clusters, x) {
      EveryIdClustered(byId, united, comps, made, clusters, x);
    }
    forall k | 0 <= k < |clusters| ensures IsComponent(clusters[k], byId) {
      var i := ClusterSource(clusters, made, k);
      assert MadeFrom(byId, comps[i], made[i]);
      ClassIsComponent(byId, united, comps, i, clusters[k]);
    }
    forall k, l | 0 <= k < l < |clusters| ensures Apart(clusters[k], clusters[l]) {
      var i := ClusterSource(clusters, made, k);
      var j := ClusterSource(clusters, made, l);
      assert clusters[k] != clusters[l];
      ClustersApart(byId, united, comps, made, i, j);
    }
  }

  lemma ClassesDisjoint(keys: set<string>, united: set<(string, string)>, comps: seq<seq<string>>, i: nat, j: nat, x: string)
    requires ListsClasses(comps, keys, united) && i < |comps| && j < |comps|
    requires x in comps[i] && x in comps[j]
    ensures i == j
  {
    var hi, hj := comps[i][0], comps[j][0];
    assert (i < j ==> Less(hi, hj)) && (j < i ==> Less(hj, hi));
    assert hi in comps[i] && hj in comps[j];
    assert Reaches(Undirected(united), x, hi) && Reaches(Undirected(united), x, hj);
    assert hi in comps[j] && hj in comps[i];
    FirstIsLeast(comps[i], hj);
    FirstIsLeast(comps[j], hi);
    LessIrreflexive(hi);
    if hi != hj { LessAsymmetric(hi, hj); }
  }

  lemma FirstIsLeast(s: seq<string>, x: string)
    requires Increasing(s) && x in s
    ensures LessEq(s[0], x)
  {
    var k :| 0 <= k < |s| && s[k] == x;
  }

  /**
   The whole correlation. The candidate pairs are visited here in any order; the source visits them
   sorted, and nothing proved depends on it. `clusterId` stands for the hash that names a cluster.
   */
  method Correlate(findings: seq<Finding>, clusterId: Cluster -> string) returns (clusters: seq<Cluster>)
    ensures Correlated(clusters, ById(findings))
    ensures SortedBy(ByKey(clusterId), clusters)
  {
    if findings == [] {
      return [];
    }
    var byIdOrder := ByKey((g: Finding) => g.findingId);
    var sorted := Sort(byIdOrder, findings);
    ByIdSort(findings);
    SortMembers(byIdOrder, findings);
    var findingMap := ById(sorted);
    ByIdMembers(sorted);

    var sourceIndex, sinkIndex, flowIndex, nodePairIndex := BuildIndexes(sorted);
    var candidates := CandidatePairs(sorted, findingMap, sourceIndex, sinkIndex, flowIndex, nodePairIndex);
    var components := MergeCandidates(sorted, findingMap, candidates);
    ghost var united := Merged(findingMap, candidates);
    forall a, b ensures Reaches(Undirected(united), a, b) <==> Reaches(AllCompatible(findingMap), a, b) {
      MergedIsAllPairs(findingMap, candidates, a, b);
    }
    clusters := BuildClusters(findingMap, components, united, clusterId);
  }

  method BuildIndexes(sorted: seq<Finding>)
      returns (sourceIndex: map<string, seq<Finding>>, sinkIndex: map<string, seq<Finding>>,
               flowIndex: map<string, seq<Finding>>, nodePairIndex: map<(string, string), seq<Finding>>)
    ensures Indexes(sourceIndex, sorted, SourceKey) && Indexes(sinkIndex, sorted, SinkKey)
    ensures Indexes(flowIndex, sorted, FlowKey) && Indexes(nodePairIndex, sorted, NodePairKey)
  {
    sourceIndex, sinkIndex, flowIndex, nodePairIndex := map[], map[], map[], map[];
    for i := 0 to |sorted|
      invariant Indexes(sourceIndex, sorted[..i], SourceKey)
      invariant Indexes(sinkIndex, sorted[..i], SinkKey)
      invariant Indexes(flowIndex, sorted[..i], FlowKey)
      invariant Indexes(nodePairIndex, sorted[..i], NodePairKey)
    {
      var f := sorted[i];
      assert sorted[..i + 1] == sorted[..i] + [f];
      FiledIndexes(sourceIndex, sorted[..i], SourceKey, f);
      FiledIndexes(sinkIndex, sorted[..i], SinkKey, f);
      FiledIndexes(flowIndex, sorted[..i], FlowKey, f);
      FiledIndexes(nodePairIndex, sorted[..i], NodePairKey, f);
      sourceIndex := Filed(sourceIndex, f.sourceFactId, f);
      sinkIndex := Filed(sinkIndex, f.sinkFactId, f);
      flowIndex := Filed(flowIndex, f.flowId, f);
      nodePairIndex := Filed(nodePairIndex, (f.sourceNodeId, f.sinkNodeId), f);
    }
    assert sorted[..|sorted|] == sorted;
  }

  /** Candidate generation: the pairs of the four indexes, one index after the other. */
  method CandidatePairs(seen: seq<Finding>, ghost byId: map<string, Finding>,
                        sourceIndex: map<string, seq<Finding>>, sinkIndex: map<string, seq<Finding>>,
                        flowIndex: map<string, seq<Finding>>, nodePairIndex: map<(string, string), seq<Finding>>)
      returns (candidates: set<(string, string)>)
    requires Indexes(sourceIndex, seen, SourceKey)
    requires Indexes(sinkIndex, seen, SinkKey)
    requires Indexes(flowIndex, seen, FlowKey)
    requires Indexes(nodePairIndex, seen, NodePairKey)
    requires forall id :: id in byId ==> byId[id] in seen && byId[id].findingId == id
    requires forall f :: f in seen ==> f.findingId in byId
    ensures forall p :: p in candidates <==>
              Paired(sourceIndex, p) || Paired(sinkIndex, p) || Paired(flowIndex, p) || Paired(nodePairIndex, p)
    ensures forall p :: p in candidates ==> p.0 in byId && p.1 in byId
    ensures forall x, y :: x in byId && y in byId && x != y && EvidenceCompatible(byId[x], byId[y]) ==>
                             OrderedPair(x, y) in candidates
  {
    candidates := AddIndexPairs(sourceIndex, {});
    candidates := AddIndexPairs(sinkIndex, candidates);
    candidates := AddIndexPairs(flowIndex, candidates);
    candidates := AddIndexPairs(nodePairIndex, candidates);
    forall p | p in candidates ensures p.0 in byId && p.1 in byId {
      if Paired(sourceIndex, p) {
        PairedIds(sourceIndex, seen, SourceKey, p, byId);
      } else if Paired(sinkIndex, p) {
        PairedIds(sinkIndex, seen, SinkKey, p, byId);
      } else if Paired(flowIndex, p) {
        PairedIds(flowIndex, seen, FlowKey, p, byId);
      } else {
        PairedIds(nodePairIndex, seen, NodePairKey, p, byId);
      }
    }
    forall x, y | x in byId && y in byId && x != y && EvidenceCompatible(byId[x], byId[y])
      ensures OrderedPair(x, y) in candidates
    {
      CompatibleIsCandidate(seen, byId[x], byId[y], sourceIndex, sinkIndex, flowIndex, nodePairIndex);
    }
  }

  method MergeCandidates(sorted: seq<Finding>, byId: map<string, Finding>, candidates: set<(string, string)>)
      returns (components: seq<seq<string>>)
    requires forall f :: f in sorted ==> f.findingId in byId
    requires forall id :: id in byId ==> byId[id] in sorted && byId[id].findingId == id
    requires forall p :: p in candidates ==> p.0 in byId && p.1 in byId
    ensures ListsClasses(components, byId.Keys, Merged(byId, candidates))
  {
    var ids := seq(|sorted|, i requires 0 <= i < |sorted| => sorted[i].findingId);
    forall x | x in byId ensures x in ids {
      var i :| 0 <= i < |sorted| && sorted[i] == byId[x];
      assert ids[i] == x;
    }
    var uf := new UnionFind(ids);
    assert forall e :: e in uf.parent <==> e in byId;
    assert uf.parent.Keys == byId.Keys;
    var todo := candidates;
    while todo != {}
      invariant uf.Valid() && uf.parent.Keys == byId.Keys && todo <= candidates
      invariant forall p :: p in uf.united <==> p in candidates - todo && EvidenceCompatible(byId[p.0], byId[p.1])
    {
      var p :| p in todo;
      if EvidenceCompatible(byId[p.0], byId[p.1]) {
        uf.Union(p.0, p.1);
      }
      todo := todo - {p};
    }
    assert uf.united == Merged(byId, candidates);
    components := uf.Components();
  }

  method BuildClusters(byId: map<string, Finding>, components: seq<seq<string>>, ghost united: set<(string, string)>,
                       clusterId: Cluster -> string)
      returns (clusters: seq<Cluster>)
    requires ListsClasses(components, byId.Keys, united)
    requires forall x, y :: Reaches(Undirected(united), x, y) <==> Reaches(AllCompatible(byId), x, y)
    ensures Correlated(clusters, byId)
    ensures SortedBy(ByKey(clusterId), clusters)
  {
    var made: seq<Cluster> := [];
    for i := 0 to |components|
      invariant |made| == i
      invariant forall k :: 0 <= k < i ==> MadeFrom(byId, components[k], made[k])
    {
      var first := components[i][0];
      assert first in components[i];
      made := made + [Cluster(byId[first].vulnerabilityClass, components[i])];
    }
    clusters := Sort(ByKey(clusterId), made);
    ByKeyConsistent(clusterId);
    SortSorts(ByKey(clusterId), made);
    SortMembers(ByKey(clusterId), made);
    MadeDistinct(byId, united, components, made);
    SortDistinct(ByKey(clusterId), made);
    ClustersOfClasses(byId, united, components, made, clusters);
  }
}
