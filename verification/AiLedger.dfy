/**
 The budget and request tables (karsasec/persistence/models.py), the conditional updates of
 karsasec/ai/budget.py on one budget row, and the sums over request rows they have to match.
 */
module AiLedger {
  import opened Common
  import opened AiStateMachine

  datatype Error =
    | InvalidAmount | BudgetNotFound | TokenLimitExceeded | InsufficientReserved | CostLimitExceeded
    | RequestNotFound | InvalidTransition | StateConflict | IdempotencyConflict | InvalidHash

  datatype Result<+T> = Ok(value: T) | Err(error: Error)

  datatype Budget = Budget(tokenLimit: int, usedTokens: int, reservedTokens: int, costLimit: int, usedCost: int)

  /** `settledAgainst` is a history field: the reservation the request was committed against. */
  datatype Request = Request(
    taskId: string, budgetId: string, promptHash: string, contextHash: string,
    status: Status, reservedTokens: int, committedTokens: int, actualCost: int,
    providerId: Option<string>, modelId: Option<string>, settledAgainst: int)

  datatype Tables = Tables(budgets: map<string, Budget>, requests: map<string, Request>)

  function FreshRequest(taskId: string, budgetId: string, promptHash: string, contextHash: string): Request {
    Request(taskId, budgetId, promptHash, contextHash, Created, 0, 0, 0, None, None, 0)
  }

  predicate SameIdentity(r: Request, taskId: string, budgetId: string, promptHash: string, contextHash: string) {
    r.taskId == taskId && r.budgetId == budgetId && r.promptHash == promptHash && r.contextHash == contextHash
  }

  // ----- the conditional updates of one budget row -----

  function ReserveRow(row: Option<Budget>, tokens: int): Result<Budget> {
    if tokens <= 0 then Err(InvalidAmount)
    else if row.None? then Err(BudgetNotFound)
    else
      var b := row.value;
      if b.usedTokens + b.reservedTokens + tokens <= b.tokenLimit then Ok(b.(reservedTokens := b.reservedTokens + tokens))
      else Err(TokenLimitExceeded)
  }

  function CommitRow(row: Option<Budget>, reserved: int, actual: int, cost: int): Result<Budget> {
    if reserved < 0 || actual < 0 || cost < 0 then Err(InvalidAmount)
    else if row.None? then Err(BudgetNotFound)
    else
      var b := row.value;
      if b.reservedTokens < reserved then Err(InsufficientReserved)
      else if b.usedCost + cost <= b.costLimit then
        Ok(b.(reservedTokens := b.reservedTokens - reserved, usedTokens := b.usedTokens + actual, usedCost := b.usedCost + cost))
      else Err(CostLimitExceeded)
  }

  function ReleaseRow(row: Option<Budget>, tokens: int): Result<Budget>
    requires tokens != 0
  {
    if tokens < 0 then Err(InvalidAmount)
    else if row.None? then Err(BudgetNotFound)
    else if row.value.reservedTokens >= tokens then
      Ok(row.value.(reservedTokens := row.value.reservedTokens - tokens))
    else Err(InsufficientReserved)
  }

  // ----- the calls of the request service, as read / charge / settle -----

  datatype Call =
    | Reserve(tokens: int)
    | Transition(expected: Status, next: Status, providerId: Option<string>, modelId: Option<string>)
    | Commit(actual: int, cost: int, providerId: Option<string>, modelId: Option<string>)
    | Release(target: Status)

  datatype Start = Refuse(error: Error) | AlreadyDone | Go

  /** The decision each service method takes from the row it has read. */
  function Begin(row: Option<Request>, call: Call): Start {
    if row.None? then Refuse(RequestNotFound)
    else
      var r := row.value;
      match call
      case Reserve(tokens) =>
        if r.status == Reserved then
          if r.reservedTokens == tokens then AlreadyDone else Refuse(IdempotencyConflict)
        else if CanTransition(r.status, Reserved) then Go else Refuse(InvalidTransition)
      case Transition(expected, next, _, _) =>
        if !CanTransition(expected, next) then Refuse(InvalidTransition)
        else if r.status != expected then Refuse(StateConflict)
        else Go
      case Commit(actual, cost, _, _) =>
        if r.status == Completed then
          if r.committedTokens == actual && r.actualCost == cost then AlreadyDone else Refuse(IdempotencyConflict)
        else if CanTransition(r.status, Completed) then Go else Refuse(InvalidTransition)
      case Release(target) =>
        if IsTerminal(r.status) then
          if r.status == target then AlreadyDone else Refuse(InvalidTransition)
        else if CanTransition(r.status, target) then Go else Refuse(InvalidTransition)
  }

  /** Whether the call writes the budget row at all. */
  predicate Charges(call: Call, snap: Request) {
    call.Reserve? || call.Commit? || (call.Release? && snap.reservedTokens > 0)
  }

  /** The budget row after the call's conditional update, given the request row it read. */
  function ChargeRow(row: Option<Budget>, call: Call, snap: Request): Result<Budget>
    requires Charges(call, snap)
  {
    match call
    case Reserve(tokens) => ReserveRow(row, tokens)
    case Commit(actual, cost, _, _) => CommitRow(row, snap.reservedTokens, actual, cost)
    case Release(_) => ReleaseRow(row, snap.reservedTokens)
  }

  function OrElse<T>(o: Option<T>, default: Option<T>): Option<T> {
    if o.Some? then o else default
  }

  /** The request row after the compare-and-set of the call has matched. */
  function Settled(call: Call, r: Request): Request {
    match call
    case Reserve(tokens) => r.(status := Reserved, reservedTokens := tokens)
    case Transition(_, next, p, m) => r.(status := next, providerId := OrElse(p, r.providerId), modelId := OrElse(m, r.modelId))
    case Commit(actual, cost, p, m) =>
      r.(status := Completed, committedTokens := actual, actualCost := cost, reservedTokens := 0,
         providerId := OrElse(p, r.providerId), modelId := OrElse(m, r.modelId), settledAgainst := r.reservedTokens)
    case Release(target) => r.(status := target, reservedTokens := 0)
  }

  function Row<T>(rows: map<string, T>, k: string): Option<T> {
    if k in rows then Some(rows[k]) else None
  }

  /** Creating a request: the table with its row, or with the row that is there already. */
  function PerformCreate(t: Tables, id: string, taskId: string, budgetId: string, promptHash: string, contextHash: string)
    : Result<Tables>
  {
    if |promptHash| != 64 || |contextHash| != 64 then Err(InvalidHash)
    else if id in t.requests then
      if SameIdentity(t.requests[id], taskId, budgetId, promptHash, contextHash) then Ok(t) else Err(IdempotencyConflict)
    else if budgetId !in t.budgets then Err(BudgetNotFound)
    else Ok(t.(requests := t.requests[id := FreshRequest(taskId, budgetId, promptHash, contextHash)]))
  }

  /** A whole call with nothing in between: the reference the service methods are proved against. */
  function Perform(t: Tables, id: string, call: Call): Result<Tables> {
    match Begin(Row(t.requests, id), call)
    case Refuse(e) => Err(e)
    case AlreadyDone => Ok(t)
    case Go =>
      var snap := t.requests[id];
      var settled := t.requests[id := Settled(call, snap)];
      if !Charges(call, snap) then Ok(t.(requests := settled))
      else match ChargeRow(Row(t.budgets, snap.budgetId), call, snap)
           case Err(e) => Err(e)
           case Ok(row) => Ok(Tables(t.budgets[snap.budgetId := row], settled))
  }

  /** Several calls on one request, up to the first that is refused. */
  function PerformAll(t: Tables, id: string, calls: seq<Call>): Result<Tables>
    decreases |calls|
  {
    if calls == [] then Ok(t)
    else match PerformAll(t, id, calls[..|calls| - 1])
         case Err(e) => Err(e)
         case Ok(u) => Perform(u, id, calls[|calls| - 1])
  }

  lemma PerformAllSnoc(t: Tables, id: string, calls: seq<Call>, call: Call)
    requires PerformAll(t, id, calls).Ok?
    ensures PerformAll(t, id, calls + [call]) == Perform(PerformAll(t, id, calls).value, id, call)
  {
    assert (calls + [call])[..|calls|] == calls;
  }

  // ----- sums over the request table -----

  datatype Measure = HeldM | UsedM | CostM | OverrunM

  /** What one request row contributes: tokens held, tokens used, cost, and use beyond its reservation. */
  ghost function Value(m: Measure, r: Request): int {
    match m
    case HeldM => r.reservedTokens
    case UsedM => r.committedTokens
    case CostM => r.actualCost
    case OverrunM => if r.status == Completed && r.committedTokens > r.settledAgainst then r.committedTokens - r.settledAgainst else 0
  }

  ghost function Pick(keys: set<string>): (k: string)
    requires keys != {}
    ensures k in keys
  {
    var k :| k in keys; k
  }

  ghost function Sum(keys: set<string>, v: string -> int): int {
    if keys == {} then 0 else v(Pick(keys)) + Sum(keys - {Pick(keys)}, v)
  }

  lemma {:induction false} SumPick(keys: set<string>, v: string -> int, k: string)
    requires k in keys
    ensures Sum(keys, v) == v(k) + Sum(keys - {k}, v)
    decreases keys
  {
    var j := Pick(keys);
    if j != k {
      SumPick(keys - {j}, v, k);
      SumPick(keys - {k}, v, j);
      assert keys - {j} - {k} == keys - {k} - {j};
    }
  }

  lemma {:induction false} SumSame(keys: set<string>, v: string -> int, w: string -> int)
    requires forall k :: k in keys ==> v(k) == w(k)
    ensures Sum(keys, v) == Sum(keys, w)
    decreases keys
  {
    if keys != {} {
      var k :| k in keys;
      SumPick(keys, v, k);
      SumPick(keys, w, k);
      SumSame(keys - {k}, v, w);
    }
  }

  /** Keys that weigh nothing can be left out. */
  lemma {:induction false} SumShrink(keys: set<string>, less: set<string>, v: string -> int)
    requires less <= keys && forall k :: k in keys - less ==> v(k) == 0
    ensures Sum(keys, v) == Sum(less, v)
    decreases keys
  {
    if k :| k in keys && k !in less {
      SumPick(keys, v, k);
      SumShrink(keys - {k}, less, v);
    } else {
      assert keys == less;
    }
  }

  /** The contribution of the row `k` to budget `b`: nothing when there is no such row. */
  ghost function Weight(requests: map<string, Request>, b: string, m: Measure): string -> int {
    k => if k in requests && requests[k].budgetId == b then Value(m, requests[k]) else 0
  }

  ghost function Total(requests: map<string, Request>, b: string, m: Measure): int {
    Sum(requests.Keys, Weight(requests, b, m))
  }

  lemma TotalSame(p: map<string, Request>, q: map<string, Request>, b: string, m: Measure)
    requires forall k :: Weight(p, b, m)(k) == Weight(q, b, m)(k)
    ensures Total(p, b, m) == Total(q, b, m)
  {
    var all := p.Keys + q.Keys;
    SumShrink(all, p.Keys, Weight(p, b, m));
    SumShrink(all, q.Keys, Weight(q, b, m));
    SumSame(all, Weight(p, b, m), Weight(q, b, m));
  }

  /** Writing one row moves each total by the difference of the row's weights. */
  lemma TotalWrite(p: map<string, Request>, k: string, r: Request, b: string, m: Measure)
    ensures Total(p[k := r], b, m) ==
            Total(p, b, m) - Weight(p, b, m)(k) + Weight(p[k := r], b, m)(k)
  {
    var q := p[k := r];
    var all := p.Keys + {k};
    assert q.Keys == all;
    SumShrink(all, p.Keys, Weight(p, b, m));
    SumPick(all, Weight(p, b, m), k);
    SumPick(all, Weight(q, b, m), k);
    SumSame(all - {k}, Weight(p, b, m), Weight(q, b, m));
  }

  lemma {:induction false} SumNonNegative(keys: set<string>, v: string -> int)
    requires forall k :: k in keys ==> v(k) >= 0
    ensures Sum(keys, v) >= 0
    decreases keys
  {
    if keys != {} {
      var k :| k in keys;
      SumPick(keys, v, k);
      SumNonNegative(keys - {k}, v);
    }
  }

  /** With rows that contribute nothing negative, no single row exceeds the total. */
  lemma RowWithinTotal(p: map<string, Request>, k: string, m: Measure)
    requires k in p && forall j :: j in p ==> Value(m, p[j]) >= 0
    ensures 0 <= Value(m, p[k]) <= Total(p, p[k].budgetId, m)
  {
    var w := Weight(p, p[k].budgetId, m);
    SumPick(p.Keys, w, k);
    SumNonNegative(p.Keys - {k}, w);
  }

  lemma OverrunNonNegative(requests: map<string, Request>, b: string)
    ensures Total(requests, b, OverrunM) >= 0
  {
    SumNonNegative(requests.Keys, Weight(requests, b, OverrunM));
  }

  // ----- what the tables have to satisfy -----

  /** A row by itself. `strict` adds what holds when no status is moved straight to a terminal one. */
  ghost predicate RowOk(strict: bool, r: Request) {
    && r.reservedTokens >= 0 && r.committedTokens >= 0 && r.actualCost >= 0 && r.settledAgainst >= 0
    && !r.status.Unknown?
    && (r.status == Created ==> r.reservedTokens == 0)
    && (r.status != Completed ==> r.committedTokens == 0 && r.actualCost == 0)
    && (strict && IsTerminal(r.status) ==> r.reservedTokens == 0)
  }

  /** The budget row equals the sums over its requests, `owed` being charged but not yet settled. */
  ghost predicate BudgetOk(row: Budget, requests: map<string, Request>, b: string, owed: Measure -> int) {
    && row.reservedTokens == Total(requests, b, HeldM) + owed(HeldM)
    && row.usedTokens == Total(requests, b, UsedM) + owed(UsedM)
    && row.usedCost == Total(requests, b, CostM) + owed(CostM)
    && row.usedCost <= row.costLimit
    && row.usedTokens + row.reservedTokens <= row.tokenLimit + Total(requests, b, OverrunM) + owed(OverrunM)
  }

  ghost const NOTHING: Measure -> int := m => 0

  /** The accounting invariant of the committed tables. */
  ghost predicate Balanced(strict: bool, t: Tables) {
    && (forall k :: k in t.requests ==> RowOk(strict, t.requests[k]))
    && (forall b :: b in t.budgets ==> BudgetOk(t.budgets[b], t.requests, b, NOTHING))
  }

  /** The difference a call makes to the sums when its compare-and-set matches the row it read. */
  ghost function Delta(call: Call, snap: Request): Measure -> int {
    m => Value(m, Settled(call, snap)) - Value(m, snap)
  }

  /** The callers' side: a release does not go to a live status (its documentation asks for a terminal one). */
  ghost predicate CallOk(strict: bool, call: Call) {
    && (call.Release? ==> !Live(call.target))
    && NoShortcut(strict, call)
  }

  /** The statuses that a request can leave and come back to while it holds a reservation. */
  predicate Live(s: Status) {
    s in {Routed, InFlight, ProviderFailed}
  }

  /** No status is moved straight to a terminal one. */
  ghost predicate NoShortcut(strict: bool, call: Call) {
    strict && call.Transition? ==> !IsTerminal(call.next)
  }

  /** A call that does not charge the budget moves no sum. */
  lemma UnchargedMovesNothing(strict: bool, call: Call, snap: Request)
    requires RowOk(strict, snap) && Begin(Some(snap), call) == Go && !Charges(call, snap)
    ensures forall m :: Delta(call, snap)(m) == 0
  {
    forall m ensures Delta(call, snap)(m) == 0 {
      match m { case HeldM => case UsedM => case CostM => case OverrunM => }
    }
  }

  /** A successful charge moves the budget row by exactly the call's delta and keeps its limits. */
  lemma ChargeMovesDelta(strict: bool, row: Budget, call: Call, snap: Request, requests: map<string, Request>, b: string)
    requires RowOk(strict, snap) && Begin(Some(snap), call) == Go && Charges(call, snap)
    requires BudgetOk(row, requests, b, NOTHING) && Total(requests, b, OverrunM) >= 0
    requires ChargeRow(Some(row), call, snap).Ok?
    ensures BudgetOk(ChargeRow(Some(row), call, snap).value, requests, b, Delta(call, snap))
  {
    assert NOTHING(HeldM) == NOTHING(UsedM) == NOTHING(CostM) == NOTHING(OverrunM) == 0;
  }

  lemma SettledRowOk(strict: bool, call: Call, row: Request)
    requires RowOk(strict, row) && Begin(Some(row), call) == Go && NoShortcut(strict, call)
    requires call.Reserve? ==> call.tokens > 0
    requires call.Commit? ==> call.actual >= 0 && call.cost >= 0
    ensures RowOk(strict, Settled(call, row))
  {
  }

  /** What row `k` contributes before a write; nothing when there is no such row. */
  ghost function Held(requests: map<string, Request>, k: string, m: Measure): int {
    if k in requests then Value(m, requests[k]) else 0
  }

  /** How much budget `b` is owed by writing row `k` over with `r`. */
  ghost function Moves(requests: map<string, Request>, k: string, r: Request, b: string, m: Measure): int {
    if r.budgetId == b then Value(m, r) - Held(requests, k, m) else 0
  }

  /** Writing a request row whose figures move by what is owed leaves nothing owed. */
  lemma WriteSettles(row: Budget, requests: map<string, Request>, k: string, r: Request, b: string, owed: Measure -> int)
    requires BudgetOk(row, requests, b, owed)
    requires k in requests ==> requests[k].budgetId == r.budgetId
    requires forall m :: Moves(requests, k, r, b, m) == owed(m)
    ensures BudgetOk(row, requests[k := r], b, NOTHING)
  {
    forall m ensures Total(requests[k := r], b, m) == Total(requests, b, m) + owed(m) {
      TotalWrite(requests, k, r, b, m);
      assert Moves(requests, k, r, b, m) == owed(m);
    }
  }

  /** The budget row does not notice a change of the request table that moves none of its sums. */
  lemma SameSums(row: Budget, p: map<string, Request>, q: map<string, Request>, b: string, owed: Measure -> int)
    requires BudgetOk(row, p, b, owed) && forall m :: Total(p, b, m) == Total(q, b, m)
    ensures BudgetOk(row, q, b, owed)
  {
  }
}
