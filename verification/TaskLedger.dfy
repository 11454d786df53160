/** The per-task audit chains (karsasec/events/audit_ledger.py). */
module TaskLedger {
  import opened Common
  import opened Hashing
  import opened Ordering

  /** The fields of a transition that are hashed, apart from the task and the link. */
  datatype Transition = Transition(
    previousState: string, newState: string, workerId: Option<string>, fencingToken: Option<int>,
    leaseVersion: int, reason: string)

  datatype Row = Row(id: string, createdAt: int, taskId: string, transition: Transition,
                     previousEventHash: Option<string>, eventHash: string)

  /** The digest, and the decimal text of a number. */
  datatype Encoding = Encoding(sha: string -> string, show: int -> string)

  ghost predicate EncodingOk(e: Encoding) {
    && Digest(e.sha)
    && (forall n :: ':' !in e.show(n))
    && (forall m, n :: e.show(m) == e.show(n) ==> m == n)
  }

  // ----- the hashed text -----

  function OrText(o: Option<string>, default: string): string {
    if o == None || o == Some("") then default else o.value
  }

  function OrZero(o: Option<int>): int {
    if o.Some? then o.value else 0
  }

  /** The fields of a transition joined by colons, with the defaults of the source for missing ones. */
  function Tail(e: Encoding, t: Transition): string {
    t.previousState + ":" + (t.newState + ":" +
      (OrText(t.workerId, "") + ":" + (e.show(OrZero(t.fencingToken)) + ":" + (e.show(t.leaseVersion) + ":" + t.reason))))
  }

  /** The hashed text: task, link and transition. */
  function Text(e: Encoding, taskId: string, link: Option<string>, t: Transition): string {
    taskId + ":" + (OrText(link, "GENESIS") + ":" + Tail(e, t))
  }

  function HashOf(e: Encoding, taskId: string, link: Option<string>, t: Transition): string {
    e.sha(Text(e, taskId, link, t))
  }

  /** Every field before the last is free of the separator. */
  ghost predicate ColonFree(t: Transition) {
    ':' !in t.previousState && ':' !in t.newState && ':' !in OrText(t.workerId, "")
  }

  /** Equal but for the defaults: a missing worker reads as "", a missing fencing token as 0. */
  ghost predicate SameTransition(t: Transition, u: Transition) {
    && t.previousState == u.previousState && t.newState == u.newState
    && OrText(t.workerId, "") == OrText(u.workerId, "") && OrZero(t.fencingToken) == OrZero(u.fencingToken)
    && t.leaseVersion == u.leaseVersion && t.reason == u.reason
  }

  lemma CutField(a: string, s: string, b: string, t: string)
    requires ':' !in a && ':' !in b && a + ":" + s == b + ":" + t
    ensures a == b && s == t
  {
    assert a + ":" + s == a + [':'] + s && b + ":" + t == b + [':'] + t;
    CutAtFirst(':', a, s, b, t);
  }

  /** With separator-free fields the text determines the link and, up to the defaults, the transition. */
  lemma TextDetermines(e: Encoding, taskId: string, link: Option<string>, t: Transition, link': Option<string>, u: Transition)
    requires EncodingOk(e) && ColonFree(t) && ColonFree(u)
    requires ':' !in OrText(link, "GENESIS") && ':' !in OrText(link', "GENESIS")
    requires Text(e, taskId, link, t) == Text(e, taskId, link', u)
    ensures OrText(link, "GENESIS") == OrText(link', "GENESIS") && SameTransition(t, u)
  {
    var t6, u6 := e.show(t.leaseVersion) + ":" + t.reason, e.show(u.leaseVersion) + ":" + u.reason;
    var t5, u5 := e.show(OrZero(t.fencingToken)) + ":" + t6, e.show(OrZero(u.fencingToken)) + ":" + u6;
    var t4, u4 := OrText(t.workerId, "") + ":" + t5, OrText(u.workerId, "") + ":" + u5;
    var t3, u3 := t.newState + ":" + t4, u.newState + ":" + u4;
    var t2, u2 := t.previousState + ":" + t3, u.previousState + ":" + u3;
    var t1, u1 := OrText(link, "GENESIS") + ":" + t2, OrText(link', "GENESIS") + ":" + u2;
    SamePrefix(taskId + ":", t1, u1);
    CutField(OrText(link, "GENESIS"), t2, OrText(link', "GENESIS"), u2);
    CutField(t.previousState, t3, u.previousState, u3);
    CutField(t.newState, t4, u.newState, u4);
    CutField(OrText(t.workerId, ""), t5, OrText(u.workerId, ""), u5);
    CutField(e.show(OrZero(t.fencingToken)), t6, e.show(OrZero(u.fencingToken)), u6);
    CutField(e.show(t.leaseVersion), t.reason, e.show(u.leaseVersion), u.reason);
  }

  lemma SamePrefix(p: string, s: string, t: string)
    requires p + s == p + t
    ensures s == t
  {
    assert (p + s)[|p|..] == s && (p + t)[|p|..] == t;
  }

  /** A text that contains a colon, cut at one of them. */
  lemma CutSomewhere(x: string) returns (a: string, b: string)
    requires ':' in x
    ensures x == a + ":" + b && |a| < |x| && |b| < |x|
  {
    var k :| 0 <= k < |x| && x[k] == ':';
    a, b := x[..k], x[k + 1..];
    assert x[k..k + 1] == ":";
    assert x == x[..k] + x[k..k + 1] + x[k + 1..];
  }

  lemma Regroup(a: string, b: string, rest: string)
    ensures (a + ":" + b) + ":" + rest == a + ":" + (b + ":" + rest)
  {
  }

  /**
   Without that condition the text is ambiguous: whenever a state or the worker contains a colon, a
   piece of it can be moved to the next or the previous field, and the text stays what it was.
   */
  lemma ColonsAreAmbiguous(e: Encoding, t: Transition) returns (u: Transition)
    requires !ColonFree(t)
    ensures !SameTransition(t, u)
    ensures forall taskId, link :: Text(e, taskId, link, t) == Text(e, taskId, link, u)
  {
    var worker := OrText(t.workerId, "");
    var rest := e.show(OrZero(t.fencingToken)) + ":" + (e.show(t.leaseVersion) + ":" + t.reason);
    if ':' in t.previousState {
      var a, b := CutSomewhere(t.previousState);
      u := t.(previousState := a, newState := b + ":" + t.newState);
      Regroup(a, b, t.newState + ":" + (worker + ":" + rest));
      Regroup(b, t.newState, worker + ":" + rest);
    } else if ':' in t.newState {
      var a, b := CutSomewhere(t.newState);
      u := t.(newState := a, workerId := Some(b + ":" + worker));
      Regroup(a, b, worker + ":" + rest);
      Regroup(b, worker, rest);
    } else {
      var a, b := CutSomewhere(worker);
      u := t.(newState := t.newState + ":" + a, workerId := Some(b));
      Regroup(t.newState, a, b + ":" + rest);
      Regroup(a, b, rest);
    }
    assert Tail(e, t) == Tail(e, u);
  }

  // ----- one task's chain -----

  /** The order of the queries: by creation time, then by id. */
  predicate Earlier(a: Row, b: Row) {
    a.createdAt < b.createdAt || (a.createdAt == b.createdAt && Less(a.id, b.id))
  }

  function OfTask(rows: seq<Row>, taskId: string): seq<Row> {
    if rows == [] then []
    else OfTask(rows[..|rows| - 1], taskId) + if rows[|rows| - 1].taskId == taskId then [rows[|rows| - 1]] else []
  }

  /** The rows of a task as both queries see them. */
  function Chain(rows: seq<Row>, taskId: string): seq<Row> {
    Sort(Earlier, OfTask(rows, taskId))
  }

  function LinkAfter(chain: seq<Row>): Option<string> {
    if chain == [] then None else Some(chain[|chain| - 1].eventHash)
  }

  ghost predicate LinkOk(e: Encoding, chain: seq<Row>, i: nat)
    requires i < |chain|
  {
    && chain[i].previousEventHash == LinkAfter(chain[..i])
    && chain[i].eventHash == HashOf(e, chain[i].taskId, chain[i].previousEventHash, chain[i].transition)
  }

  ghost predicate ChainOk(e: Encoding, chain: seq<Row>) {
    forall i {:trigger LinkOk(e, chain, i)} :: 0 <= i < |chain| ==> LinkOk(e, chain, i)
  }

  lemma ChainSnoc(e: Encoding, chain: seq<Row>, r: Row)
    ensures ChainOk(e, chain + [r]) <==>
              && ChainOk(e, chain) && r.previousEventHash == LinkAfter(chain)
              && r.eventHash == HashOf(e, r.taskId, r.previousEventHash, r.transition)
  {
    var all := chain + [r];
    assert all[..|chain|] == chain;
    assert LinkOk(e, all, |chain|) <==> r.previousEventHash == LinkAfter(chain)
                                        && r.eventHash == HashOf(e, r.taskId, r.previousEventHash, r.transition);
    forall i | 0 <= i < |chain| ensures LinkOk(e, chain, i) <==> LinkOk(e, all, i) {
      assert all[..i] == chain[..i];
    }
  }

  lemma ChainPrefix(e: Encoding, chain: seq<Row>, n: nat)
    requires n <= |chain| && ChainOk(e, chain)
    ensures ChainOk(e, chain[..n])
  {
    forall i | 0 <= i < n ensures LinkOk(e, chain[..n], i) {
      assert LinkOk(e, chain, i) && chain[..n][..i] == chain[..i];
    }
  }

  datatype Verdict = Verified | ChainBroken(index: nat) | HashMismatch(index: nat)

  /** The row at `i` is the first that does not fit. */
  ghost predicate FirstBad(e: Encoding, chain: seq<Row>, i: nat) {
    i < |chain| && ChainOk(e, chain[..i]) && !LinkOk(e, chain, i)
  }

  ghost predicate LinkBad(chain: seq<Row>, i: nat) {
    i < |chain| && chain[i].previousEventHash != LinkAfter(chain[..i])
  }

  class TaskAuditLedger {
    const encoding: Encoding
    var rows: seq<Row>

    constructor (encoding: Encoding)
      ensures this.encoding == encoding && rows == []
    {
      this.encoding, rows := encoding, [];
    }

    /** Appends a row linked to the latest row of the task. */
    method RecordTransition(newId: string, now: int, taskId: string, t: Transition) returns (entry: Row)
      modifies this
      ensures rows == old(rows) + [entry]
      ensures entry.id == newId && entry.createdAt == now && entry.taskId == taskId && entry.transition == t
      ensures entry.previousEventHash == LinkAfter(Chain(old(rows), taskId))
      ensures entry.eventHash == HashOf(encoding, taskId, entry.previousEventHash, t)
    {
      var chain := Chain(rows, taskId);
      var prevHash := if chain == [] then None else Some(chain[|chain| - 1].eventHash);
      entry := Row(newId, now, taskId, t, prevHash, HashOf(encoding, taskId, prevHash, t));
      rows := rows + [entry];
    }

    method VerifyChainIntegrity(taskId: string) returns (v: Verdict)
      ensures v == Verified <==> ChainOk(encoding, Chain(rows, taskId))
      ensures v != Verified ==> FirstBad(encoding, Chain(rows, taskId), v.index)
      ensures v != Verified ==> (v.ChainBroken? <==> LinkBad(Chain(rows, taskId), v.index))
    {
      var chain := Chain(rows, taskId);
      var prevHash: Option<string> := None;
      for i := 0 to |chain|
        invariant prevHash == LinkAfter(chain[..i]) && ChainOk(encoding, chain[..i])
      {
        var row := chain[i];
        assert chain[..i + 1] == chain[..i] + [row];
        ChainSnoc(encoding, chain[..i], row);
        if ChainOk(encoding, chain) {
          ChainPrefix(encoding, chain, i + 1);
        }
        if row.previousEventHash != prevHash {
          return ChainBroken(i);
        }
        if row.eventHash != HashOf(encoding, row.taskId, row.previousEventHash, row.transition) {
          return HashMismatch(i);
        }
        prevHash := Some(row.eventHash);
      }
      assert chain[..|chain|] == chain;
      v := Verified;
    }
  }

  // ----- recording -----

  /** `entry` is what recording a transition of `taskId` appends to `rows`. */
  ghost predicate Recorded(e: Encoding, rows: seq<Row>, entry: Row) {
    && entry.previousEventHash == LinkAfter(Chain(rows, entry.taskId))
    && entry.eventHash == HashOf(e, entry.taskId, entry.previousEventHash, entry.transition)
  }

  /** Recording for one task leaves every other task's chain as it is. */
  lemma OthersUnchanged(rows: seq<Row>, entry: Row, other: string)
    requires entry.taskId != other
    ensures Chain(rows + [entry], other) == Chain(rows, other)
  {
    assert (rows + [entry])[..|rows|] == rows;
    assert OfTask(rows + [entry], other) == OfTask(rows, other);
  }

  lemma ChainAfterRecord(rows: seq<Row>, entry: Row)
    ensures Chain(rows + [entry], entry.taskId) == Insert(Earlier, entry, Chain(rows, entry.taskId))
  {
    assert (rows + [entry])[..|rows|] == rows;
    var mine := OfTask(rows, entry.taskId);
    assert OfTask(rows + [entry], entry.taskId) == mine + [entry];
    assert (mine + [entry])[..|mine|] == mine;
  }

  lemma SplitSnoc<T>(init: seq<T>, last: T, p: nat)
    requires p <= |init|
    ensures (init + [last])[..p] == init[..p] && (init + [last])[p..] == init[p..] + [last]
  {
  }

  /** The position an entry takes among rows of which the last comes after it. */
  lemma {:induction false} InsertPosition(entry: Row, chain: seq<Row>) returns (p: nat)
    ensures p <= |chain| && Insert(Earlier, entry, chain) == chain[..p] + [entry] + chain[p..]
    ensures chain != [] && Earlier(entry, chain[|chain| - 1]) <==> p < |chain|
  {
    if chain != [] && Earlier(entry, chain[|chain| - 1]) {
      var init, last := chain[..|chain| - 1], chain[|chain| - 1];
      p := InsertPosition(entry, init);
      SplitSnoc(init, last, p);
      assert chain == init + [last];
      assert chain[..p] + [entry] + chain[p..] == init[..p] + [entry] + init[p..] + [last];
    } else {
      p := |chain|;
    }
  }

  ghost predicate OneTask(chain: seq<Row>, taskId: string) {
    forall i :: 0 <= i < |chain| ==> chain[i].taskId == taskId
  }

  /** The texts that were hashed for some rows. */
  ghost function Texts(e: Encoding, rows: seq<Row>): set<string> {
    set r | r in rows :: TextOf(e, r)
  }

  ghost predicate CollisionWithin(e: Encoding, rows: seq<Row>) {
    CollisionAmong(e.sha, Texts(e, rows), Texts(e, rows))
  }

  /** No hash occurs twice in a verifying chain of one task, unless two of its own texts collide. */
  lemma {:induction false} HashesDiffer(e: Encoding, chain: seq<Row>, taskId: string, i: nat, j: nat)
    requires EncodingOk(e) && ChainOk(e, chain) && OneTask(chain, taskId) && i < j < |chain|
    ensures chain[i].eventHash != chain[j].eventHash || CollisionWithin(e, chain)
  {
    assert LinkOk(e, chain, i) && LinkOk(e, chain, j);
    if chain[i].eventHash == chain[j].eventHash && !CollisionWithin(e, chain) {
      SameText(e, chain, i, j);
      SameLinks(e, chain, taskId, i, j);
      if i > 0 {
        HashesDiffer(e, chain, taskId, i - 1, j - 1);
      }
    }
  }

  function TextOf(e: Encoding, r: Row): string {
    Text(e, r.taskId, r.previousEventHash, r.transition)
  }

  lemma SameText(e: Encoding, chain: seq<Row>, i: nat, j: nat)
    requires i < |chain| && j < |chain| && !CollisionWithin(e, chain)
    requires e.sha(TextOf(e, chain[i])) == e.sha(TextOf(e, chain[j]))
    ensures TextOf(e, chain[i]) == TextOf(e, chain[j])
  {
    assert chain[i] in chain && chain[j] in chain;
    assert TextOf(e, chain[i]) in Texts(e, chain) && TextOf(e, chain[j]) in Texts(e, chain);
  }

  /** Rows with the same text have predecessors with the same hash; the first row has no text with another's. */
  lemma SameLinks(e: Encoding, chain: seq<Row>, taskId: string, i: nat, j: nat)
    requires EncodingOk(e) && ChainOk(e, chain) && OneTask(chain, taskId) && i < j < |chain|
    requires TextOf(e, chain[i]) == TextOf(e, chain[j])
    ensures i > 0 && chain[i - 1].eventHash == chain[j - 1].eventHash
  {
    var x, y := chain[i], chain[j];
    assert LinkOk(e, chain, i) && LinkOk(e, chain, j) && LinkOk(e, chain, j - 1);
    var lx, ly := OrText(x.previousEventHash, "GENESIS"), OrText(y.previousEventHash, "GENESIS");
    assert ly == chain[j - 1].eventHash;
    assert i > 0 ==> LinkOk(e, chain, i - 1) && lx == chain[i - 1].eventHash;
    SamePrefix(taskId + ":", lx + ":" + Tail(e, x.transition), ly + ":" + Tail(e, y.transition));
    CutField(lx, Tail(e, x.transition), ly, Tail(e, y.transition));
  }

  lemma ChainOfOneTask(rows: seq<Row>, taskId: string)
    ensures OneTask(Chain(rows, taskId), taskId)
  {
    var chain := Chain(rows, taskId);
    SortMembers(Earlier, OfTask(rows, taskId));
    OfTaskMembers(rows, taskId);
    assert forall i :: 0 <= i < |chain| ==> chain[i] in chain;
  }

  /**
   When recording keeps a chain verifiable: if the new row comes last in the order of the queries it
   does; if it does not (the clock stood still and its random id is smaller, or ran backwards), it
   breaks the chain, unless two of the texts hashed for the chain collide.
   */
  lemma RecordVerifiesIffLatest(e: Encoding, rows: seq<Row>, entry: Row)
    requires EncodingOk(e) && Recorded(e, rows, entry) && ChainOk(e, Chain(rows, entry.taskId))
    ensures var chain := Chain(rows, entry.taskId);
            || (ChainOk(e, Chain(rows + [entry], entry.taskId)) <==> chain == [] || !Earlier(entry, chain[|chain| - 1]))
            || CollisionWithin(e, chain)
  {
    var chain := Chain(rows, entry.taskId);
    ChainAfterRecord(rows, entry);
    var p := InsertPosition(entry, chain);
    var after := Insert(Earlier, entry, chain);
    if p == |chain| {
      LatestKeepsChain(e, rows, entry);
    } else {
      assert after[p] == entry && after[..p] == chain[..p];
      assert ChainOk(e, after) ==> LinkOk(e, after, p);
      ChainOfOneTask(rows, entry.taskId);
      if p > 0 {
        HashesDiffer(e, chain, entry.taskId, p - 1, |chain| - 1);
      }
    }
  }

  // ----- runs -----

  datatype Request = Request(id: string, now: int, taskId: string, transition: Transition)

  function Entry(e: Encoding, rows: seq<Row>, r: Request): Row {
    var link := LinkAfter(Chain(rows, r.taskId));
    Row(r.id, r.now, r.taskId, r.transition, link, HashOf(e, r.taskId, link, r.transition))
  }

  function Recorder(e: Encoding): (seq<Row>, Request) -> Row {
    (rows, r) => Entry(e, rows, r)
  }

  /** The rows that a run of requests appends, each made from the rows before it. */
  function Recording(make: (seq<Row>, Request) -> Row, requests: seq<Request>): seq<Row> {
    if requests == [] then []
    else
      var rows := Recording(make, requests[..|requests| - 1]);
      rows + [make(rows, requests[|requests| - 1])]
  }

  function RecordAll(e: Encoding, requests: seq<Request>): seq<Row> {
    Recording(Recorder(e), requests)
  }

  lemma RecordAllSnoc(e: Encoding, init: seq<Request>, last: Request)
    ensures RecordAll(e, init + [last]) == RecordAll(e, init) + [Entry(e, RecordAll(e, init), last)]
  {
    assert (init + [last])[..|init|] == init;
  }

  /** The second of two rows of a task comes out first: the chain does not verify. */
  lemma SwappedBreaks(e: Encoding, first: Row, second: Row)
    requires first.taskId == second.taskId && second.previousEventHash == Some(first.eventHash) && Earlier(second, first)
    ensures !ChainOk(e, Chain([first] + [second], first.taskId))
  {
    OneRow(first);
    ChainAfterRecord([first], second);
    var p := InsertPosition(second, [first]);
    var chain := Chain([first] + [second], first.taskId);
    assert chain[0] == second && chain[..0] == [];
    assert ChainOk(e, chain) ==> LinkOk(e, chain, 0);
  }

  lemma OneRow(row: Row)
    ensures Chain([row], row.taskId) == [row]
  {
    var none: seq<Row> := [];
    assert OfTask(none, row.taskId) == none && Sort(Earlier, none) == none;
    assert none + [row] == [row];
    ChainAfterRecord(none, row);
  }

  /** Two rows of one task in the same moment, the second with the smaller id: the chain no longer verifies. */
  lemma SameMomentBreaks(e: Encoding, taskId: string, now: int, t: Transition, u: Transition)
    ensures var rows := RecordAll(e, [Request("b", now, taskId, t), Request("a", now, taskId, u)]);
            !ChainOk(e, Chain(rows, taskId))
  {
    var first, second := Request("b", now, taskId, t), Request("a", now, taskId, u);
    var r1 := Entry(e, [], first);
    RecordAllSnoc(e, [], first);
    assert [] + [first] == [first] && [] + [r1] == [r1];
    RecordAllSnoc(e, [first], second);
    assert [first] + [second] == [first, second];
    OneRow(r1);
    assert Less("a", "b");
    SwappedBreaks(e, r1, Entry(e, [r1], second));
  }

  predicate Precedes(r: Request, q: Request) {
    r.now < q.now || (r.now == q.now && Less(r.id, q.id))
  }

  /** No later request of the task precedes an earlier one by time and id. */
  ghost predicate InOrder(requests: seq<Request>, taskId: string) {
    forall i, j :: 0 <= i < j < |requests| && requests[i].taskId == requests[j].taskId == taskId ==>
      !Precedes(requests[j], requests[i])
  }

  ghost predicate RowOf(row: Row, r: Request) {
    row.id == r.id && row.createdAt == r.now && row.taskId == r.taskId
  }

  ghost predicate RowsOf(rows: seq<Row>, requests: seq<Request>) {
    |rows| == |requests| && forall i :: 0 <= i < |rows| ==> RowOf(rows[i], requests[i])
  }

  lemma {:induction false} RowsOfRun(make: (seq<Row>, Request) -> Row, requests: seq<Request>)
    requires forall rows, r :: RowOf(make(rows, r), r)
    ensures RowsOf(Recording(make, requests), requests)
  {
    if requests != [] {
      RowsOfRun(make, requests[..|requests| - 1]);
    }
  }

  lemma {:induction false} OfTaskMembers(rows: seq<Row>, taskId: string)
    ensures forall r :: r in OfTask(rows, taskId) <==> r in rows && r.taskId == taskId
  {
    if rows != [] {
      OfTaskMembers(rows[..|rows| - 1], taskId);
      assert rows == rows[..|rows| - 1] + [rows[|rows| - 1]];
    }
  }

  lemma LatestKeepsChain(e: Encoding, rows: seq<Row>, entry: Row)
    requires Recorded(e, rows, entry) && ChainOk(e, Chain(rows, entry.taskId))
    requires var chain := Chain(rows, entry.taskId); chain == [] || !Earlier(entry, chain[|chain| - 1])
    ensures ChainOk(e, Chain(rows + [entry], entry.taskId))
  {
    var chain := Chain(rows, entry.taskId);
    ChainAfterRecord(rows, entry);
    assert Insert(Earlier, entry, chain) == chain + [entry];
    ChainSnoc(e, chain, entry);
  }

  lemma EarlierConsistent()
    ensures Consistent(Earlier)
  {
    forall x, y | Earlier(x, y) ensures !Earlier(y, x) {
      if x.createdAt == y.createdAt {
        LessAsymmetric(x.id, y.id);
      }
    }
    forall x, y, z | !Earlier(y, x) && !Earlier(z, y) ensures !Earlier(z, x) {
      if x.createdAt == y.createdAt == z.createdAt {
        LessTotal(x.id, y.id);
        LessTotal(y.id, z.id);
        LessEqTransitive(x.id, y.id, z.id);
        if Less(z.id, x.id) {
          LessAsymmetric(z.id, x.id);
        }
      }
    }
  }

  /** A new row comes last in its chain exactly when it precedes none of the task's rows. */
  lemma LatestOfAll(rows: seq<Row>, entry: Row)
    ensures var chain := Chain(rows, entry.taskId);
            (chain == [] || !Earlier(entry, chain[|chain| - 1]))
            <==> forall r :: r in rows && r.taskId == entry.taskId ==> !Earlier(entry, r)
  {
    var mine := OfTask(rows, entry.taskId);
    var chain := Chain(rows, entry.taskId);
    EarlierConsistent();
    SortSorts(Earlier, mine);
    SortMembers(Earlier, mine);
    OfTaskMembers(rows, entry.taskId);
    if chain != [] {
      var last := chain[|chain| - 1];
      assert last in chain;
      forall r | r in chain && !Earlier(entry, last) ensures !Earlier(entry, r) {
        var k :| 0 <= k < |chain| && chain[k] == r;
        assert !Earlier(last, r);
      }
    }
  }

  lemma InOrderSnoc(init: seq<Request>, last: Request, rows: seq<Row>, entry: Row)
    requires RowsOf(rows, init) && RowOf(entry, last)
    ensures InOrder(init + [last], last.taskId)
       <==> InOrder(init, last.taskId) && forall r :: r in rows && r.taskId == last.taskId ==> !Earlier(entry, r)
  {
    var all := init + [last];
    assert forall i :: 0 <= i < |init| ==> all[i] == init[i] && RowOf(rows[i], init[i]);
    assert all[|init|] == last;
    if InOrder(all, last.taskId) {
      forall r | r in rows && r.taskId == last.taskId ensures !Earlier(entry, r) {
        var i :| 0 <= i < |rows| && rows[i] == r;
        assert !Precedes(all[|init|], all[i]);
      }
    }
    if forall r :: r in rows && r.taskId == last.taskId ==> !Earlier(entry, r) {
      forall i | 0 <= i < |init| && init[i].taskId == last.taskId ensures !Precedes(last, init[i]) {
        assert rows[i] in rows;
      }
    }
  }

  ghost predicate Verifies(e: Encoding, requests: seq<Request>, taskId: string) {
    ChainOk(e, Chain(RecordAll(e, requests), taskId))
  }

  /** One request: the task's chain verifies after it exactly when it is in order, unless texts recorded so far collide. */
  lemma StepIff(e: Encoding, init: seq<Request>, last: Request, taskId: string)
    requires EncodingOk(e) && Verifies(e, init, taskId) && InOrder(init, taskId)
    ensures || CollisionWithin(e, RecordAll(e, init))
            || (Verifies(e, init + [last], taskId) <==> InOrder(init + [last], taskId))
  {
    var rows := RecordAll(e, init);
    var entry := Entry(e, rows, last);
    RecordAllSnoc(e, init, last);
    if last.taskId != taskId {
      OthersUnchanged(rows, entry, taskId);
      OtherTaskInOrder(init, last, taskId);
    } else {
      RowsOfRun(Recorder(e), init);
      RecordVerifiesIffLatest(e, rows, entry);
      LatestOfAll(rows, entry);
      InOrderSnoc(init, last, rows, entry);
      TextsOfChain(e, rows, taskId);
    }
  }

  lemma OtherTaskInOrder(init: seq<Request>, last: Request, taskId: string)
    requires last.taskId != taskId
    ensures InOrder(init + [last], taskId) <==> InOrder(init, taskId)
  {
    var all := init + [last];
    assert forall i :: 0 <= i < |init| ==> all[i] == init[i];
  }

  lemma TextsOfChain(e: Encoding, rows: seq<Row>, taskId: string)
    ensures Texts(e, Chain(rows, taskId)) <= Texts(e, rows)
  {
    SortMembers(Earlier, OfTask(rows, taskId));
    OfTaskMembers(rows, taskId);
  }

  /** The task's chain verifies after every request of the run. */
  ghost predicate AlwaysVerifies(e: Encoding, requests: seq<Request>, taskId: string) {
    AllPrefixes(prefix => Verifies(e, prefix, taskId), requests)
  }

  lemma InOrderPrefix(init: seq<Request>, last: Request, taskId: string)
    ensures InOrder(init + [last], taskId) ==> InOrder(init, taskId)
  {
    var all := init + [last];
    assert forall k :: 0 <= k < |init| ==> all[k] == init[k];
  }

  lemma CollisionStays(e: Encoding, rows: seq<Row>, row: Row)
    ensures CollisionWithin(e, rows) ==> CollisionWithin(e, rows + [row])
  {
    assert Texts(e, rows) <= Texts(e, rows + [row]);
  }

  lemma NothingVerifies(e: Encoding, taskId: string)
    ensures Verifies(e, [], taskId)
  {
    var none: seq<Row> := [];
    assert OfTask(none, taskId) == none && Sort(Earlier, none) == none;
  }

  /**
   Over whole runs: the chain of a task verifies after every request exactly when no later request of the
   task precedes an earlier one by time and id, unless two of the texts hashed in the run collide.
   */
  lemma {:induction false} RunVerifiesIffInOrder(e: Encoding, requests: seq<Request>, taskId: string)
    requires EncodingOk(e)
    ensures CollisionWithin(e, RecordAll(e, requests)) || (AlwaysVerifies(e, requests, taskId) <==> InOrder(requests, taskId))
    decreases |requests|
  {
    NothingVerifies(e, taskId);
    if requests != [] {
      var init, last := requests[..|requests| - 1], requests[|requests| - 1];
      assert requests == init + [last];
      RunVerifiesIffInOrder(e, init, taskId);
      RecordAllSnoc(e, init, last);
      CollisionStays(e, RecordAll(e, init), Entry(e, RecordAll(e, init), last));
      AllPrefixesSnoc(prefix => Verifies(e, prefix, taskId), init, last);
      InOrderPrefix(init, last, taskId);
      if AlwaysVerifies(e, init, taskId) && InOrder(init, taskId) {
        StepIff(e, init, last, taskId);
      }
    }
  }

  /** In order, every chain verifies, collisions or not. */
  lemma {:induction false} RecordedChainsVerify(e: Encoding, requests: seq<Request>, taskId: string)
    requires InOrder(requests, taskId)
    ensures Verifies(e, requests, taskId)
    decreases |requests|
  {
    if requests == [] {
      NothingVerifies(e, taskId);
    } else {
      var init, last := requests[..|requests| - 1], requests[|requests| - 1];
      var rows := RecordAll(e, init);
      var entry := Entry(e, rows, last);
      assert requests == init + [last];
      RecordAllSnoc(e, init, last);
      RecordedChainsVerify(e, init, taskId);
      if last.taskId != taskId {
        OthersUnchanged(rows, entry, taskId);
      } else {
        RowsOfRun(Recorder(e), init);
        InOrderSnoc(init, last, rows, entry);
        LatestOfAll(rows, entry);
        LatestKeepsChain(e, rows, entry);
      }
    }
  }

  // ----- tamper evidence -----

  ghost predicate AllColonFree(chain: seq<Row>) {
    forall i :: 0 <= i < |chain| ==> ColonFree(chain[i].transition)
  }

  ghost predicate SameHistory(a: seq<Row>, b: seq<Row>) {
    |a| == |b| && forall i :: 0 <= i < |a| ==> SameTransition(a[i].transition, b[i].transition) && a[i].eventHash == b[i].eventHash
  }

  lemma SameHistorySnoc(a: seq<Row>, b: seq<Row>, x: Row, y: Row)
    requires SameHistory(a, b) && SameTransition(x.transition, y.transition) && x.eventHash == y.eventHash
    ensures SameHistory(a + [x], b + [y])
  {
  }

  lemma LinkText(e: Encoding, chain: seq<Row>)
    requires EncodingOk(e) && ChainOk(e, chain)
    ensures ':' !in OrText(LinkAfter(chain), "GENESIS")
    ensures chain == [] <==> OrText(LinkAfter(chain), "GENESIS") == "GENESIS"
    ensures chain != [] ==> LinkAfter(chain) == Some(OrText(LinkAfter(chain), "GENESIS"))
  {
    if chain != [] {
      assert LinkOk(e, chain, |chain| - 1);
    }
  }

  lemma LastRowsAgree(e: Encoding, taskId: string, a: seq<Row>, b: seq<Row>, x: Row, y: Row)
    requires EncodingOk(e) && ChainOk(e, a + [x]) && ChainOk(e, b + [y])
    requires x.taskId == y.taskId == taskId && ColonFree(x.transition) && ColonFree(y.transition)
    requires x.eventHash == y.eventHash
    ensures ChainOk(e, a) && ChainOk(e, b)
    ensures || CollisionAmong(e.sha, Texts(e, a + [x]), Texts(e, b + [y]))
            || (SameTransition(x.transition, y.transition) && LinkAfter(a) == LinkAfter(b))
  {
    ChainSnoc(e, a, x);
    ChainSnoc(e, b, y);
    LinkText(e, a);
    LinkText(e, b);
    if Text(e, taskId, LinkAfter(a), x.transition) == Text(e, taskId, LinkAfter(b), y.transition) {
      TextDetermines(e, taskId, LinkAfter(a), x.transition, LinkAfter(b), y.transition);
    } else {
      assert x in a + [x] && y in b + [y];
    }
  }

  /**
   Two verifying chains of a task with the same last hash have the same history up to the defaults,
   when no hashed field but the reason contains a colon, unless two of their own texts collide.
   */
  lemma {:induction false} LastHashFixesHistory(e: Encoding, taskId: string, a: seq<Row>, b: seq<Row>)
    requires EncodingOk(e) && ChainOk(e, a) && ChainOk(e, b) && LinkAfter(a) == LinkAfter(b)
    requires OneTask(a, taskId) && OneTask(b, taskId) && AllColonFree(a) && AllColonFree(b)
    ensures SameHistory(a, b) || CollisionAmong(e.sha, Texts(e, a), Texts(e, b))
    decreases |a|
  {
    if a != [] && b != [] {
      var a0, b0, x, y := a[..|a| - 1], b[..|b| - 1], a[|a| - 1], b[|b| - 1];
      assert a == a0 + [x] && b == b0 + [y];
      LastRowsAgree(e, taskId, a0, b0, x, y);
      if !CollisionAmong(e.sha, Texts(e, a), Texts(e, b)) {
        LastHashFixesHistory(e, taskId, a0, b0);
        assert Texts(e, a0) <= Texts(e, a) && Texts(e, b0) <= Texts(e, b);
        SameHistorySnoc(a0, b0, x, y);
      }
    }
  }

  /** And with a colon in one of those fields a row can be replaced by another without any hash changing. */
  lemma ColonRowCanBeReplaced(e: Encoding, chain: seq<Row>, i: nat) returns (u: Transition)
    requires ChainOk(e, chain) && i < |chain| && !ColonFree(chain[i].transition)
    ensures !SameTransition(chain[i].transition, u)
    ensures ChainOk(e, chain[i := chain[i].(transition := u)])
  {
    u := ColonsAreAmbiguous(e, chain[i].transition);
    var other := chain[i := chain[i].(transition := u)];
    forall k | 0 <= k < |other| ensures LinkOk(e, other, k) {
      assert LinkOk(e, chain, k);
      assert Text(e, chain[i].taskId, chain[i].previousEventHash, u)
          == Text(e, chain[i].taskId, chain[i].previousEventHash, chain[i].transition);
      assert k > 0 ==> other[..k][k - 1].eventHash == chain[..k][k - 1].eventHash;
    }
  }
}
