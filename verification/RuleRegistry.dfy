/** The security rule registry and its match index (karsasec/analysis/rule_registry.py). */
module RuleRegistry {
  import opened Common
  import opened Ordering

  datatype Rule = Rule(ruleId: string, ruleKey: string, version: string, sourceKinds: seq<string>,
                       sinkCategories: seq<string>, rest: string)

  // ----- the order of results -----

  predicate Before(a: Rule, b: Rule) {
    if a.ruleKey != b.ruleKey then Less(a.ruleKey, b.ruleKey)
    else if a.version != b.version then Less(a.version, b.version)
    else Less(a.ruleId, b.ruleId)
  }

  lemma BeforeAsymmetric(a: Rule, b: Rule)
    requires Before(a, b)
    ensures !Before(b, a)
  {
    if a.ruleKey != b.ruleKey {
      LessAsymmetric(a.ruleKey, b.ruleKey);
    } else if a.version != b.version {
      LessAsymmetric(a.version, b.version);
    } else {
      LessAsymmetric(a.ruleId, b.ruleId);
    }
  }

  lemma BeforeTotal(a: Rule, b: Rule)
    ensures Before(a, b) || Before(b, a) || (a.ruleKey == b.ruleKey && a.version == b.version && a.ruleId == b.ruleId)
  {
    LessTotal(a.ruleKey, b.ruleKey);
    LessTotal(a.version, b.version);
    LessTotal(a.ruleId, b.ruleId);
  }

  lemma BeforeTransitive(a: Rule, b: Rule, c: Rule)
    requires Before(a, b) && Before(b, c)
    ensures Before(a, c)
  {
    if a.ruleKey != b.ruleKey && b.ruleKey != c.ruleKey {
      LessTransitive(a.ruleKey, b.ruleKey, c.ruleKey);
      LessIrreflexive(a.ruleKey);
    } else if a.ruleKey == b.ruleKey == c.ruleKey {
      if a.version != b.version && b.version != c.version {
        LessTransitive(a.version, b.version, c.version);
        LessIrreflexive(a.version);
      } else if a.version == b.version == c.version {
        LessTransitive(a.ruleId, b.ruleId, c.ruleId);
      }
    }
  }

  lemma BeforeConsistent()
    ensures Consistent(Before)
  {
    forall x, y | Before(x, y) ensures !Before(y, x) {
      BeforeAsymmetric(x, y);
    }
    forall x, y, z | !Before(y, x) && !Before(z, y) ensures !Before(z, x) {
      BeforeTotal(x, y);
      BeforeTotal(y, z);
      if Before(z, x) {
        if Before(x, y) {
          BeforeTransitive(z, x, y);
        }
      }
    }
  }

  ghost predicate SeparateIds(rules: set<Rule>) {
    forall r, q :: r in rules && q in rules && r != q ==> r.ruleId != q.ruleId
  }

  lemma InitMembers(s: seq<Rule>)
    requires Distinct(s) && s != []
    ensures forall r :: r in s[..|s| - 1] <==> r in s && r != s[|s| - 1]
  {
    assert s == s[..|s| - 1] + [s[|s| - 1]];
  }

  /** Two sorted listings of the same values are the same list, when the order separates the values. */
  lemma {:induction false} SortedListingUnique(a: seq<Rule>, b: seq<Rule>, rules: set<Rule>)
    requires SortedBy(Before, a) && SortedBy(Before, b) && Distinct(a) && Distinct(b) && SeparateIds(rules)
    requires (forall r :: r in a <==> r in rules) && (forall r :: r in b <==> r in rules)
    ensures a == b
    decreases |a|
  {
    assert a != [] ==> a[0] in a;
    assert b != [] ==> b[0] in b;
    if a != [] {
      SameLast(a, b, rules);
      var last := a[|a| - 1];
      InitMembers(a);
      InitMembers(b);
      SortedListingUnique(a[..|a| - 1], b[..|b| - 1], rules - {last});
      assert a == a[..|a| - 1] + [last] && b == b[..|b| - 1] + [last];
    }
  }

  lemma SameLast(a: seq<Rule>, b: seq<Rule>, rules: set<Rule>)
    requires SortedBy(Before, a) && SortedBy(Before, b) && SeparateIds(rules) && a != [] && b != []
    requires (forall r :: r in a <==> r in rules) && (forall r :: r in b <==> r in rules)
    ensures a[|a| - 1] == b[|b| - 1]
  {
    var x, y := a[|a| - 1], b[|b| - 1];
    assert x in a && y in b;
    LastIsGreatest(a, y);
    LastIsGreatest(b, x);
    BeforeTotal(x, y);
  }

  lemma LastIsGreatest(s: seq<Rule>, r: Rule)
    requires SortedBy(Before, s) && r in s
    ensures !Before(s[|s| - 1], r)
  {
    BeforeConsistent();
    var i :| 0 <= i < |s| && s[i] == r;
    if i == |s| - 1 && Before(r, r) {
      BeforeAsymmetric(r, r);
    }
  }

  // ----- the index -----

  function Lookup(index: map<string, map<string, seq<Rule>>>, s: string, c: string): seq<Rule> {
    if s in index && c in index[s] then index[s][c] else []
  }

  predicate Lists(lower: string -> string, names: seq<string>, key: string) {
    exists i :: 0 <= i < |names| && lower(names[i]) == key
  }

  /** Whether a rule belongs under the pair of lower-cased keys. */
  ghost predicate FiledUnder(lower: string -> string, r: Rule, s: string, c: string) {
    Lists(lower, r.sourceKinds, s) && Lists(lower, r.sinkCategories, c)
  }

  /** The index holds exactly the rules of `rules`, each under all its pairs of keys. */
  ghost predicate Indexes(lower: string -> string, index: map<string, map<string, seq<Rule>>>, rules: set<Rule>) {
    forall s, c, r :: r in Lookup(index, s, c) <==> (r in rules && FiledUnder(lower, r, s, c))
  }

  function FiledOnce(index: map<string, map<string, seq<Rule>>>, s: string, c: string, r: Rule): map<string, map<string, seq<Rule>>>
    requires s in index
  {
    var row := index[s];
    var ready := if c in row then row else row[c := []];
    index[s := if r in ready[c] then ready else ready[c := ready[c] + [r]]]
  }

  lemma FiledOnceLookup(index: map<string, map<string, seq<Rule>>>, s: string, c: string, r: Rule, a: string, b: string, q: Rule)
    requires s in index
    ensures q in Lookup(FiledOnce(index, s, c, r), a, b) <==> q in Lookup(index, a, b) || (q == r && a == s && b == c)
  {
  }

  /** Files one rule under all its pairs. */
  method AddToIndex(lower: string -> string, index: map<string, map<string, seq<Rule>>>, rule: Rule)
      returns (grown: map<string, map<string, seq<Rule>>>)
    ensures forall a, b, q :: q in Lookup(grown, a, b) <==>
              (q in Lookup(index, a, b) || (q == rule && FiledUnder(lower, rule, a, b)))
  {
    grown := index;
    for i := 0 to |rule.sourceKinds|
      invariant forall a, b, q :: q in Lookup(grown, a, b) <==>
                  (q in Lookup(index, a, b) ||
                   (q == rule && Lists(lower, rule.sourceKinds[..i], a) && Lists(lower, rule.sinkCategories, b)))
    {
      var srcKey := lower(rule.sourceKinds[i]);
      ghost var before := grown;
      if srcKey !in grown {
        grown := grown[srcKey := map[]];
      }
      for j := 0 to |rule.sinkCategories|
        invariant srcKey in grown
        invariant forall a, b, q :: q in Lookup(grown, a, b) <==>
                    (q in Lookup(before, a, b) || (q == rule && a == srcKey && Lists(lower, rule.sinkCategories[..j], b)))
      {
        var snkKey := lower(rule.sinkCategories[j]);
        forall a, b, q {
          FiledOnceLookup(grown, srcKey, snkKey, rule, a, b, q);
        }
        ListsSnoc(lower, rule.sinkCategories, j);
        grown := FiledOnce(grown, srcKey, snkKey, rule);
      }
      assert rule.sinkCategories[..|rule.sinkCategories|] == rule.sinkCategories;
      ListsSnoc(lower, rule.sourceKinds, i);
    }
    assert rule.sourceKinds[..|rule.sourceKinds|] == rule.sourceKinds;
  }

  lemma ListsSnoc(lower: string -> string, names: seq<string>, i: nat)
    requires i < |names|
    ensures forall key :: Lists(lower, names[..i + 1], key) <==> Lists(lower, names[..i], key) || lower(names[i]) == key
  {
    forall key ensures Lists(lower, names[..i + 1], key) <==> Lists(lower, names[..i], key) || lower(names[i]) == key {
      if Lists(lower, names[..i], key) {
        var k :| 0 <= k < i && lower(names[..i][k]) == key;
        assert lower(names[..i + 1][k]) == key;
      }
      if lower(names[i]) == key {
        assert lower(names[..i + 1][i]) == key;
      }
    }
  }

  // ----- the registry -----

  /** The two names of a rule both lead to it. */
  function Registered(rules: map<string, Rule>, rule: Rule): map<string, Rule> {
    rules[rule.ruleId := rule][rule.ruleKey := rule]
  }

  /** Removing a rule removes both its names, whatever they lead to by now. */
  function Unregistered(rules: map<string, Rule>, name: string): map<string, Rule> {
    if name in rules then rules - {rules[name].ruleId, rules[name].ruleKey} else rules
  }

  /** The index after registering: the source only adds to it; removing rebuilds it from the table. */
  function IndexedAfterRegister(indexed: set<Rule>, rule: Rule): set<Rule> {
    indexed + {rule}
  }

  function IndexedAfterUnregister(indexed: set<Rule>, rules: map<string, Rule>, name: string): set<Rule> {
    if name in rules then Unregistered(rules, name).Values else indexed
  }

  /** The reference: a scan over the listed rules. */
  function LinearScan(lower: string -> string, rules: seq<Rule>, s: string, c: string): seq<Rule> {
    if rules == [] then []
    else
      LinearScan(lower, rules[..|rules| - 1], s, c) +
      var r := rules[|rules| - 1];
      if Matches(lower, r, s, c) then [r] else []
  }

  /** Some source kind and some sink category of the rule equals the one asked for, or is the wildcard. */
  predicate Matches(lower: string -> string, r: Rule, s: string, c: string) {
    (Lists(lower, r.sourceKinds, lower(s)) || Lists(lower, r.sourceKinds, "*")) &&
    (Lists(lower, r.sinkCategories, lower(c)) || Lists(lower, r.sinkCategories, "*"))
  }

  /** A sorted listing of a set of rules, each once. */
  ghost predicate SortedListing(list: seq<Rule>, rules: set<Rule>) {
    SortedBy(Before, list) && Distinct(list) && forall r :: r in list <==> r in rules
  }

  method SortSet(rules: set<Rule>) returns (list: seq<Rule>)
    ensures SortedListing(list, rules)
  {
    var todo, picked := rules, [];
    while todo != {}
      invariant Distinct(picked) && todo <= rules && forall r :: r in picked <==> r in rules - todo
    {
      var r :| r in todo;
      assert r !in picked;
      picked, todo := picked + [r], todo - {r};
    }
    list := Sort(Before, picked);
    BeforeConsistent();
    SortSorts(Before, picked);
    SortMembers(Before, picked);
    SortDistinct(Before, picked);
  }

  /** A name leads to the same rule in both tables, or to none in either. */
  ghost predicate SameUnder(a: map<string, Rule>, b: map<string, Rule>, k: string) {
    (k in a <==> k in b) && (k in a ==> a[k] == b[k])
  }

  class SecurityRuleRegistry {
    /** Lower-casing of strings. */
    const lower: string -> string
    var rules: map<string, Rule>
    var index: map<string, map<string, seq<Rule>>>
    ghost var indexed: set<Rule>

    ghost predicate Valid()
      reads this
    {
      Indexes(lower, index, indexed)
    }

    constructor (lower: string -> string)
      ensures Valid() && this.lower == lower && rules == map[] && indexed == {}
    {
      this.lower, rules, index, indexed := lower, map[], map[], {};
    }

    method Register(rule: Rule)
      requires Valid()
      modifies this
      ensures Valid() && rules == Registered(old(rules), rule)
      ensures rule.ruleId in rules && rules[rule.ruleId] == rule && rule.ruleKey in rules && rules[rule.ruleKey] == rule
      ensures forall k :: k != rule.ruleId && k != rule.ruleKey ==> SameUnder(old(rules), rules, k)
      ensures indexed == IndexedAfterRegister(old(indexed), rule)
    {
      rules := rules[rule.ruleId := rule];
      rules := rules[rule.ruleKey := rule];
      index := AddToIndex(lower, index, rule);
      indexed := indexed + {rule};
    }

    method Unregister(name: string) returns (found: bool)
      requires Valid()
      modifies this
      ensures Valid() && rules == Unregistered(old(rules), name) && found == (name in old(rules))
      ensures found ==> old(rules)[name].ruleId !in rules && old(rules)[name].ruleKey !in rules
      ensures forall k :: !found || (k != old(rules)[name].ruleId && k != old(rules)[name].ruleKey) ==> SameUnder(old(rules), rules, k)
      ensures indexed == IndexedAfterUnregister(old(indexed), old(rules), name)
    {
      if name !in rules {
        return false;
      }
      var rule := rules[name];
      rules := rules - {rule.ruleId};
      rules := rules - {rule.ruleKey};
      assert rules == Unregistered(old(rules), name);
      RebuildIndex();
      found := true;
    }

    method RebuildIndex()
      modifies this`index, this`indexed
      ensures Valid() && indexed == rules.Values
    {
      var newIndex: map<string, map<string, seq<Rule>>> := map[];
      var todo := rules.Values;
      while todo != {}
        invariant todo <= rules.Values && Indexes(lower, newIndex, rules.Values - todo)
      {
        var rule :| rule in todo;
        newIndex := AddToIndex(lower, newIndex, rule);
        todo := todo - {rule};
      }
      assert rules.Values - todo == rules.Values;
      index, indexed := newIndex, rules.Values;
    }

    method All() returns (list: seq<Rule>)
      ensures SortedListing(list, rules.Values)
    {
      list := SortSet(rules.Values);
    }

    /** The indexed lookup; a missing argument counts as the empty string. */
    method Match(sourceKind: Option<string>, sinkCategory: Option<string>) returns (list: seq<Rule>)
      requires Valid()
      ensures SortedListing(list, set r | r in indexed && Matches(lower, r, OrEmpty(sourceKind), OrEmpty(sinkCategory)))
    {
      var srcKey, snkKey := lower(OrEmpty(sourceKind)), lower(OrEmpty(sinkCategory));
      var candidates: set<Rule> := {};
      var srcKeys, snkKeys := [srcKey, "*"], [snkKey, "*"];
      for i := 0 to 2
        invariant forall r :: r in candidates <==>
                    (i > 0 && FoundUnder(index, srcKey, snkKeys, 2, r)) || (i > 1 && FoundUnder(index, "*", snkKeys, 2, r))
      {
        ghost var before := candidates;
        if srcKeys[i] in index {
          for j := 0 to 2
            invariant forall r :: r in candidates <==> (r in before || FoundUnder(index, srcKeys[i], snkKeys, j, r))
          {
            if snkKeys[j] in index[srcKeys[i]] {
              candidates := candidates + set r | r in index[srcKeys[i]][snkKeys[j]];
            }
          }
        }
      }
      forall r ensures r in candidates <==> r in indexed && Matches(lower, r, OrEmpty(sourceKind), OrEmpty(sinkCategory)) {
        assert r in Lookup(index, srcKey, snkKey) <==> r in indexed && FiledUnder(lower, r, srcKey, snkKey);
        assert r in Lookup(index, srcKey, "*") <==> r in indexed && FiledUnder(lower, r, srcKey, "*");
        assert r in Lookup(index, "*", snkKey) <==> r in indexed && FiledUnder(lower, r, "*", snkKey);
        assert r in Lookup(index, "*", "*") <==> r in indexed && FiledUnder(lower, r, "*", "*");
      }
      list := SortSet(candidates);
    }
  }

  /** Whether a rule is in one of the first `n` lists of an index row. */
  ghost predicate FoundUnder(index: map<string, map<string, seq<Rule>>>, s: string, cats: seq<string>, n: int, r: Rule)
    requires |cats| == 2 && 0 <= n <= 2
  {
    (n > 0 && r in Lookup(index, s, cats[0])) || (n > 1 && r in Lookup(index, s, cats[1]))
  }

  function OrEmpty(o: Option<string>): string {
    if o.Some? then o.value else ""
  }

  // ----- the index against a scan of the table -----

  /** Indexed lookup and scan of the table find the same rules, whatever is asked for. */
  ghost predicate Agrees(lower: string -> string, rules: map<string, Rule>, indexed: set<Rule>) {
    forall r, s, c :: Matches(lower, r, s, c) ==> (r in indexed <==> r in rules.Values)
  }

  predicate Indexable(r: Rule) {
    r.sourceKinds != [] && r.sinkCategories != []
  }

  /** Rules with no source kind or no sink category match nothing; all others can be asked for. */
  lemma AgreesOnIndexable(lower: string -> string, rules: map<string, Rule>, indexed: set<Rule>)
    ensures Agrees(lower, rules, indexed) <==> forall r :: Indexable(r) ==> (r in indexed <==> r in rules.Values)
  {
    forall r | Indexable(r) ensures Matches(lower, r, r.sourceKinds[0], r.sinkCategories[0]) {
      assert lower(r.sourceKinds[0]) == lower(r.sourceKinds[0]);
    }
  }

  /** No rule that can match loses its last name when `rule` takes over its two names. */
  ghost predicate NoneLost(rules: map<string, Rule>, rule: Rule) {
    forall r :: r in rules.Values && Indexable(r) && r != rule ==>
      exists k :: k in rules && k != rule.ruleId && k != rule.ruleKey && rules[k] == r
  }

  /**
   When registering keeps index and table in agreement: exactly when no other indexed rule loses its
   last name to the new one, because registering never takes anything out of the index.
   */
  lemma RegisterAgreesIff(lower: string -> string, rules: map<string, Rule>, indexed: set<Rule>, rule: Rule)
    requires Agrees(lower, rules, indexed)
    ensures Agrees(lower, Registered(rules, rule), IndexedAfterRegister(indexed, rule)) <==> NoneLost(rules, rule)
  {
    var after := Registered(rules, rule);
    AgreesOnIndexable(lower, rules, indexed);
    AgreesOnIndexable(lower, after, indexed + {rule});
    assert rule in after.Values by { assert after[rule.ruleKey] == rule; }
    forall r | r != rule
      ensures r in after.Values <==> exists k :: k in rules && k != rule.ruleId && k != rule.ruleKey && rules[k] == r
    {
      if r in after.Values {
        var k :| k in after && after[k] == r;
        assert k in rules && k != rule.ruleId && k != rule.ruleKey && rules[k] == r;
      }
      if k :| k in rules && k != rule.ruleId && k != rule.ruleKey && rules[k] == r {
        assert after[k] == r;
      }
    }
  }

  /** Unregistering a name of the table heals any disagreement, the index being rebuilt; otherwise nothing changes. */
  lemma UnregisterAgrees(lower: string -> string, rules: map<string, Rule>, indexed: set<Rule>, name: string)
    ensures Agrees(lower, Unregistered(rules, name), IndexedAfterUnregister(indexed, rules, name))
       <==> name in rules || Agrees(lower, rules, indexed)
  {
  }

  // ----- runs over rules with proper identities -----

  /** Equal ids mean equal rules, and no id is used as the key of another rule. */
  ghost predicate WellNamed(universe: set<Rule>) {
    forall r, q :: r in universe && q in universe && r != q ==> r.ruleId != q.ruleId && r.ruleId != q.ruleKey
  }

  /** Every registered rule is found under its id, and only under its two names. */
  ghost predicate NamesOk(rules: map<string, Rule>, universe: set<Rule>) {
    forall k :: k in rules ==> NameOk(rules, universe, k)
  }

  ghost predicate NameOk(rules: map<string, Rule>, universe: set<Rule>, k: string)
    requires k in rules
  {
    var r := rules[k];
    r in universe && (k == r.ruleId || k == r.ruleKey) && r.ruleId in rules && rules[r.ruleId] == r
  }

  lemma RegisterKeepsNames(rules: map<string, Rule>, universe: set<Rule>, rule: Rule)
    requires WellNamed(universe) && rule in universe && NamesOk(rules, universe)
    ensures NamesOk(Registered(rules, rule), universe)
    ensures Registered(rules, rule).Values == rules.Values + {rule}
  {
    var after := Registered(rules, rule);
    forall k | k in after ensures NameOk(after, universe, k) {
      if k != rule.ruleId && k != rule.ruleKey {
        assert NameOk(rules, universe, k);
      }
    }
    forall r | r in rules.Values + {rule} ensures r in after.Values {
      if r != rule {
        var k :| k in rules && rules[k] == r;
        assert NameOk(rules, universe, k);
        assert after[r.ruleId] == r;
      } else {
        assert after[rule.ruleKey] == rule;
      }
    }
  }

  lemma UnregisterKeepsNames(rules: map<string, Rule>, universe: set<Rule>, name: string)
    requires WellNamed(universe) && NamesOk(rules, universe)
    ensures NamesOk(Unregistered(rules, name), universe)
  {
    if name in rules {
      assert NameOk(rules, universe, name);
      var after := Unregistered(rules, name);
      forall k | k in after ensures NameOk(after, universe, k) {
        assert NameOk(rules, universe, k);
      }
    }
  }

  datatype Op = Add(rule: Rule) | Remove(name: string)

  datatype State = State(rules: map<string, Rule>, indexed: set<Rule>)

  /** One call, as the methods of the registry perform it. */
  function Step(s: State, op: Op): State {
    match op
    case Add(rule) => State(Registered(s.rules, rule), IndexedAfterRegister(s.indexed, rule))
    case Remove(name) => State(Unregistered(s.rules, name), IndexedAfterUnregister(s.indexed, s.rules, name))
  }

  function Run(ops: seq<Op>): State {
    if ops == [] then State(map[], {}) else Step(Run(ops[..|ops| - 1]), ops[|ops| - 1])
  }

  ghost predicate AgreesAt(lower: string -> string, s: State) {
    Agrees(lower, s.rules, s.indexed)
  }

  /** The last call of a run, if it registers, takes away no last name of another rule that can match. */
  ghost predicate LosesNone(ops: seq<Op>) {
    ops != [] && ops[|ops| - 1].Add? ==> NoneLost(Run(ops[..|ops| - 1]).rules, ops[|ops| - 1].rule)
  }

  /**
   Arbitrary rules: lookup and scan agree after every call of a run exactly when no call of `Register`
   takes away the last name of another rule that can match.
   */
  lemma {:induction false} RunAgreesIff(lower: string -> string, ops: seq<Op>)
    ensures AllPrefixes(prefix => AgreesAt(lower, Run(prefix)), ops) <==> AllPrefixes(prefix => LosesNone(prefix), ops)
  {
    if ops == [] {
      assert forall k :: 0 <= k <= |ops| ==> ops[..k] == [];
    } else {
      var init, op := ops[..|ops| - 1], ops[|ops| - 1];
      assert ops == init + [op];
      RunAgreesIff(lower, init);
      AllPrefixesSnoc(prefix => AgreesAt(lower, Run(prefix)), init, op);
      AllPrefixesSnoc(prefix => LosesNone(prefix), init, op);
      if AgreesAt(lower, Run(init)) {
        AgreesStep(lower, Run(init), op);
      }
    }
  }

  lemma AgreesStep(lower: string -> string, s: State, op: Op)
    requires AgreesAt(lower, s)
    ensures AgreesAt(lower, Step(s, op)) <==> (op.Add? ==> NoneLost(s.rules, op.rule))
  {
    match op
    case Add(rule) => RegisterAgreesIff(lower, s.rules, s.indexed, rule);
    case Remove(name) => UnregisterAgrees(lower, s.rules, s.indexed, name);
  }

  /** After any run over well-named rules the index holds exactly the rules of the table. */
  lemma {:induction false} RunIndexesTable(ops: seq<Op>, universe: set<Rule>)
    requires WellNamed(universe) && forall op :: op in ops && op.Add? ==> op.rule in universe
    ensures NamesOk(Run(ops).rules, universe) && Run(ops).indexed == Run(ops).rules.Values
  {
    if ops != [] {
      var init, op := ops[..|ops| - 1], ops[|ops| - 1];
      assert op in ops;
      RunIndexesTable(init, universe);
      match op
      case Add(rule) => RegisterKeepsNames(Run(init).rules, universe, rule);
      case Remove(name) => UnregisterKeepsNames(Run(init).rules, universe, name);
    }
  }

  lemma {:induction false} ScanFacts(lower: string -> string, list: seq<Rule>, s: string, c: string)
    requires SortedBy(Before, list) && Distinct(list)
    ensures SortedBy(Before, LinearScan(lower, list, s, c)) && Distinct(LinearScan(lower, list, s, c))
    ensures forall r :: r in LinearScan(lower, list, s, c) <==> r in list && Matches(lower, r, s, c)
  {
    if list != [] {
      var init, last := list[..|list| - 1], list[|list| - 1];
      ScanFacts(lower, init, s, c);
      InitMembers(list);
      var found := LinearScan(lower, init, s, c);
      forall i | 0 <= i < |found| ensures !Before(last, found[i]) && found[i] != last {
        assert found[i] in found && found[i] in init;
        LastIsGreatest(list, found[i]);
      }
    }
  }

  /**
   The indexed lookup returns the same list as a linear scan over the sorted list of all rules: `all`
   and `found` are what `All` and `Match` return.
   */
  lemma MatchIsLinearScan(lower: string -> string, ops: seq<Op>, universe: set<Rule>, all: seq<Rule>, found: seq<Rule>,
                          s: string, c: string)
    requires WellNamed(universe) && forall op :: op in ops && op.Add? ==> op.rule in universe
    requires SortedListing(all, Run(ops).rules.Values)
    requires SortedListing(found, set r | r in Run(ops).indexed && Matches(lower, r, s, c))
    ensures found == LinearScan(lower, all, s, c)
  {
    RunIndexesTable(ops, universe);
    ScanFacts(lower, all, s, c);
    var matching := set r | r in Run(ops).indexed && Matches(lower, r, s, c);
    assert SeparateIds(matching) by {
      forall r, q | r in matching && q in matching && r != q ensures r.ruleId != q.ruleId {
        var j :| j in Run(ops).rules && Run(ops).rules[j] == r;
        var k :| k in Run(ops).rules && Run(ops).rules[k] == q;
        assert NameOk(Run(ops).rules, universe, j) && NameOk(Run(ops).rules, universe, k);
      }
    }
    SortedListingUnique(found, LinearScan(lower, all, s, c), matching);
  }

  const COMMAND_INJECTION := Rule("1", "COMMAND_INJECTION", "1.0.0", ["env"], ["exec"], "")

  /** Some of the names, lower-cased, is the one asked for, lower-cased, or the wildcard. */
  ghost predicate NamedOrWild(lower: string -> string, names: seq<string>, asked: string) {
    exists name :: name in names && (lower(name) == lower(asked) || lower(name) == "*")
  }

  /** What a lookup finds after every run over well-named rules, rule by rule. */
  lemma FoundExactlyWhen(lower: string -> string, ops: seq<Op>, universe: set<Rule>, found: seq<Rule>, s: string, c: string, r: Rule)
    requires WellNamed(universe) && forall op :: op in ops && op.Add? ==> op.rule in universe
    requires SortedListing(found, set q | q in Run(ops).indexed && Matches(lower, q, s, c))
    ensures r in found <==>
              r in Run(ops).rules.Values && NamedOrWild(lower, r.sourceKinds, s) && NamedOrWild(lower, r.sinkCategories, c)
  {
    RunIndexesTable(ops, universe);
    ListsNamed(lower, r.sourceKinds, s);
    ListsNamed(lower, r.sinkCategories, c);
  }

  lemma ListsNamed(lower: string -> string, names: seq<string>, asked: string)
    ensures Lists(lower, names, lower(asked)) || Lists(lower, names, "*") <==> NamedOrWild(lower, names, asked)
  {
    if NamedOrWild(lower, names, asked) {
      var name :| name in names && (lower(name) == lower(asked) || lower(name) == "*");
      var i :| 0 <= i < |names| && names[i] == name;
    }
  }

  /** Listings are ordered by key, then by version, then by id. */
  lemma ListingOrder(list: seq<Rule>, rules: set<Rule>, i: nat, j: nat)
    requires SortedListing(list, rules) && i < j < |list|
    ensures var a, b := list[i], list[j];
            || Less(a.ruleKey, b.ruleKey)
            || (a.ruleKey == b.ruleKey && Less(a.version, b.version))
            || (a.ruleKey == b.ruleKey && a.version == b.version && (Less(a.ruleId, b.ruleId) || a.ruleId == b.ruleId))
  {
    var a, b := list[i], list[j];
    assert !Before(b, a);
    LessTotal(a.ruleKey, b.ruleKey);
    LessTotal(a.version, b.version);
    LessTotal(a.ruleId, b.ruleId);
  }

  /** A rule registered again with other source kinds: the lookup still answers with the version that is gone. */
  method RegisterAgain(lower: string -> string) returns (found: seq<Rule>, all: seq<Rule>, before: Rule)
    ensures before in found && before !in all
  {
    var registry := new SecurityRuleRegistry(lower);
    before := COMMAND_INJECTION;
    registry.Register(before);
    registry.Register(before.(sourceKinds := ["http"]));
    found := registry.Match(Some("env"), Some("exec"));
    all := registry.All();
    assert registry.indexed == {} + {before} + {before.(sourceKinds := ["http"])};
    assert Matches(lower, before, "env", "exec") by {
      assert lower(before.sourceKinds[0]) == lower("env") && lower(before.sinkCategories[0]) == lower("exec");
    }
  }
}
