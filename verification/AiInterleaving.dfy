/**
 Concurrent transactions over the AI budget and request tables (karsasec/ai/request.py,
 karsasec/ai/budget.py). A transaction sees the committed rows and its own writes; the rows it has
 written are locked until it ends, so two transactions never hold writes to one row. Each service
 call is three separate steps: read the request row, update the budget row, compare-and-set the
 status. A call that raises rolls its whole transaction back.
 */
module AiInterleaving {
  import opened Common
  import opened AiStateMachine
  import opened AiLedger

  datatype Pending = Idle | InCall(id: string, call: Call, snap: Request, charged: bool)

  datatype Tx = Tx(writes: Tables, pending: Pending)

  datatype System = System(committed: Tables, txs: map<nat, Tx>)

  datatype Action =
    | Create(t: nat, id: string, taskId: string, budgetId: string, promptHash: string, contextHash: string)
    | Read(t: nat, id: string, call: Call)
    | Charge(t: nat)
    | Settle(t: nat)
    | CommitTx(t: nat)
    | Rollback(t: nat)

  const NEW_TX := Tx(Tables(map[], map[]), Idle)

  function TxOf(s: System, t: nat): Tx {
    if t in s.txs then s.txs[t] else NEW_TX
  }

  /** What a transaction sees: the committed rows, overridden by its own. */
  function View(c: Tables, x: Tx): Tables {
    Tables(c.budgets + x.writes.budgets, c.requests + x.writes.requests)
  }

  predicate BudgetLocked(s: System, t: nat, b: string) {
    exists u :: u in s.txs && u != t && b in s.txs[u].writes.budgets
  }

  predicate RequestLocked(s: System, t: nat, k: string) {
    exists u :: u in s.txs && u != t && k in s.txs[u].writes.requests
  }

  function Put(s: System, t: nat, x: Tx): System {
    s.(txs := s.txs[t := x])
  }

  function RolledBack(s: System, t: nat): System {
    s.(txs := s.txs - {t})
  }

  function WriteRequest(x: Tx, k: string, r: Request): Tx {
    x.(writes := x.writes.(requests := x.writes.requests[k := r]), pending := Idle)
  }

  function WriteBudget(x: Tx, b: string, row: Budget): Tx
    requires x.pending.InCall?
  {
    x.(writes := x.writes.(budgets := x.writes.budgets[b := row]), pending := x.pending.(charged := true))
  }

  /** One step of one transaction. A step that would wait for a lock leaves the system as it is. */
  function Step(s: System, a: Action): System {
    var x := TxOf(s, a.t);
    var view := View(s.committed, x);
    match a
    case Create(t, id, taskId, budgetId, promptHash, contextHash) =>
      if x.pending != Idle then s
      else if |promptHash| != 64 || |contextHash| != 64 then RolledBack(s, t)
      else if id in view.requests then
        if SameIdentity(view.requests[id], taskId, budgetId, promptHash, contextHash) then s else RolledBack(s, t)
      else if budgetId !in view.budgets then RolledBack(s, t)
      else if RequestLocked(s, t, id) then s
      else Put(s, t, WriteRequest(x, id, FreshRequest(taskId, budgetId, promptHash, contextHash)))
    case Read(t, id, call) =>
      if x.pending != Idle then s
      else (match Begin(Row(view.requests, id), call)
            case Refuse(_) => RolledBack(s, t)
            case AlreadyDone => s
            case Go => Put(s, t, x.(pending := InCall(id, call, view.requests[id], false))))
    case Charge(t) =>
      if x.pending == Idle || x.pending.charged then s
      else
        var call, snap := x.pending.call, x.pending.snap;
        if !Charges(call, snap) then Put(s, t, x.(pending := x.pending.(charged := true)))
        else if BudgetLocked(s, t, snap.budgetId) then s
        else (match ChargeRow(Row(view.budgets, snap.budgetId), call, snap)
              case Err(_) => RolledBack(s, t)
              case Ok(row) => Put(s, t, WriteBudget(x, snap.budgetId, row)))
    case Settle(t) =>
      if x.pending == Idle || !x.pending.charged then s
      else
        var id, call, snap := x.pending.id, x.pending.call, x.pending.snap;
        if RequestLocked(s, t, id) then s
        else if id in view.requests && view.requests[id].status == snap.status then
          Put(s, t, WriteRequest(x, id, Settled(call, view.requests[id])))
        else RolledBack(s, t)
    case CommitTx(t) =>
      if x.pending != Idle then s else RolledBack(s.(committed := view), t)
    case Rollback(t) => RolledBack(s, t)
  }

  function Run(s: System, actions: seq<Action>): System
    decreases |actions|
  {
    if actions == [] then s else Step(Run(s, actions[..|actions| - 1]), actions[|actions| - 1])
  }

  // ----- why a status compare-and-set is enough -----

  /**
   `b` is a later version of row `a`. The status may have come back to an old value, but within one
   phase the figures that the sums depend on have not moved, so equal statuses mean equal figures.
   */
  ghost predicate Evolves(a: Request, b: Request) {
    && a.budgetId == b.budgetId
    && Phase(a.status) <= Phase(b.status)
    && (Phase(a.status) == Phase(b.status) ==> forall m :: Value(m, a) == Value(m, b))
    && (IsTerminal(a.status) ==> a == b)
  }

  lemma EvolvesTransitive(a: Request, b: Request, c: Request)
    requires Evolves(a, b) && Evolves(b, c)
    ensures Evolves(a, c)
  {
    if Phase(a.status) == Phase(c.status) {
      assert forall m :: Value(m, a) == Value(m, b) && Value(m, b) == Value(m, c);
    }
  }

  /** Settling a call on any row it may start from is an evolution. */
  lemma SettledEvolves(strict: bool, call: Call, row: Request)
    requires RowOk(strict, row) && Begin(Some(row), call) == Go && CallOk(strict, call)
    ensures Evolves(row, Settled(call, row))
  {
    PhaseNeverFalls(row.status, Settled(call, row).status);
    forall m | Phase(row.status) == Phase(Settled(call, row).status) ensures Value(m, row) == Value(m, Settled(call, row)) {
      match m { case HeldM => case UsedM => case CostM => case OverrunM => }
    }
  }

  /** The compare-and-set argument: the row found has the snapshot's status, so the call's delta is still right. */
  lemma SnapshotStillValid(strict: bool, call: Call, snap: Request, row: Request)
    requires RowOk(strict, snap) && RowOk(strict, row) && Begin(Some(snap), call) == Go
    requires Evolves(snap, row) && row.status == snap.status
    ensures Begin(Some(row), call) == Go
    ensures forall m :: Value(m, Settled(call, row)) - Value(m, row) == Delta(call, snap)(m)
  {
    forall m ensures Value(m, Settled(call, row)) - Value(m, row) == Delta(call, snap)(m) {
      assert Value(m, snap) == Value(m, row);
      assert Value(HeldM, snap) == Value(HeldM, row);
      match m { case HeldM => case UsedM => case CostM => case OverrunM => }
    }
  }

  // ----- the invariant -----

  ghost function Owed(x: Tx, b: string): Measure -> int {
    if x.pending.InCall? && x.pending.charged && b == x.pending.snap.budgetId then Delta(x.pending.call, x.pending.snap)
    else NOTHING
  }

  /** A transaction moves the figures of a request only while holding its budget row. */
  ghost predicate Backed(c: Tables, x: Tx, k: string)
    requires k in x.writes.requests
  {
    var r := x.writes.requests[k];
    r.budgetId in x.writes.budgets || forall m :: Value(m, r) == if k in c.requests then Value(m, c.requests[k]) else 0
  }

  ghost predicate WriteOk(strict: bool, c: Tables, x: Tx, k: string)
    requires k in x.writes.requests
  {
    && RowOk(strict, x.writes.requests[k]) && Backed(c, x, k)
    && (k in c.requests ==> Evolves(c.requests[k], x.writes.requests[k]))
  }

  ghost predicate AmountsOk(call: Call) {
    && (call.Reserve? ==> call.tokens > 0)
    && (call.Commit? ==> call.actual >= 0 && call.cost >= 0)
  }

  ghost predicate PendingOk(strict: bool, c: Tables, x: Tx) {
    x.pending.InCall? ==>
      && x.pending.id in View(c, x).requests
      && Evolves(x.pending.snap, View(c, x).requests[x.pending.id])
      && RowOk(strict, x.pending.snap) && CallOk(strict, x.pending.call)
      && Begin(Some(x.pending.snap), x.pending.call) == Go
      && (x.pending.charged ==> AmountsOk(x.pending.call))
      && (x.pending.charged && Charges(x.pending.call, x.pending.snap) ==> x.pending.snap.budgetId in x.writes.budgets)
  }

  ghost predicate TxOk(strict: bool, c: Tables, x: Tx) {
    && x.writes.budgets.Keys <= c.budgets.Keys
    && (forall k :: k in x.writes.requests ==> WriteOk(strict, c, x, k))
    && (forall b :: b in x.writes.budgets ==> BudgetOk(x.writes.budgets[b], View(c, x).requests, b, Owed(x, b)))
    && PendingOk(strict, c, x)
  }

  /** Locks: two transactions never hold writes to one row. */
  ghost predicate Apart(x: Tx, y: Tx) {
    x.writes.budgets.Keys !! y.writes.budgets.Keys && x.writes.requests.Keys !! y.writes.requests.Keys
  }

  ghost predicate Inv(strict: bool, s: System) {
    && Balanced(strict, s.committed)
    && (forall t :: t in s.txs ==> TxOk(strict, s.committed, s.txs[t]))
    && (forall t, u :: t in s.txs && u in s.txs && t != u ==> Apart(s.txs[t], s.txs[u]))
  }

  /** The callers' side of a step: see `CallOk`. */
  ghost predicate ActionOk(strict: bool, a: Action) {
    a.Read? ==> CallOk(strict, a.call)
  }

  // ----- sums seen through a transaction -----

  /** A budget the transaction has not written has the same sums in its view as in the committed tables. */
  lemma UntouchedBudget(strict: bool, c: Tables, x: Tx, b: string, m: Measure)
    requires TxOk(strict, c, x) && b !in x.writes.budgets
    ensures Total(View(c, x).requests, b, m) == Total(c.requests, b, m)
  {
    var v := View(c, x).requests;
    forall k ensures Weight(v, b, m)(k) == Weight(c.requests, b, m)(k) {
      if k in x.writes.requests {
        assert WriteOk(strict, c, x, k) && v[k] == x.writes.requests[k];
      }
    }
    TotalSame(v, c.requests, b, m);
  }

  lemma UntouchedRow(strict: bool, c: Tables, x: Tx, b: string)
    requires Balanced(strict, c) && TxOk(strict, c, x) && b in c.budgets && b !in x.writes.budgets
    ensures BudgetOk(c.budgets[b], View(c, x).requests, b, NOTHING)
  {
    forall m ensures Total(View(c, x).requests, b, m) == Total(c.requests, b, m) {
      UntouchedBudget(strict, c, x, b, m);
    }
    assert BudgetOk(c.budgets[b], c.requests, b, NOTHING);
  }

  lemma ViewRowOk(strict: bool, c: Tables, x: Tx, k: string)
    requires Balanced(strict, c) && TxOk(strict, c, x) && k in View(c, x).requests
    ensures RowOk(strict, View(c, x).requests[k])
    ensures k in c.requests ==> Evolves(c.requests[k], View(c, x).requests[k])
  {
    if k in x.writes.requests {
      assert WriteOk(strict, c, x, k);
    }
  }

  // ----- every step keeps the invariant -----

  lemma ReadKeeps(strict: bool, c: Tables, x: Tx, id: string, call: Call)
    requires Balanced(strict, c) && TxOk(strict, c, x) && x.pending == Idle && CallOk(strict, call)
    requires Begin(Row(View(c, x).requests, id), call) == Go
    ensures TxOk(strict, c, x.(pending := InCall(id, call, View(c, x).requests[id], false)))
  {
    var x' := x.(pending := InCall(id, call, View(c, x).requests[id], false));
    ViewRowOk(strict, c, x, id);
    SameWrites(strict, c, x, x');
  }

  /** Only the pending call changed, and it owes nothing before and after. */
  lemma SameWrites(strict: bool, c: Tables, x: Tx, x': Tx)
    requires TxOk(strict, c, x) && x'.writes == x.writes && PendingOk(strict, c, x')
    requires forall b, m :: Owed(x', b)(m) == Owed(x, b)(m)
    ensures TxOk(strict, c, x')
  {
    forall k | k in x'.writes.requests ensures WriteOk(strict, c, x', k) {
      assert WriteOk(strict, c, x, k);
    }
    forall b | b in x'.writes.budgets ensures BudgetOk(x'.writes.budgets[b], View(c, x').requests, b, Owed(x', b)) {
      assert BudgetOk(x.writes.budgets[b], View(c, x).requests, b, Owed(x, b));
    }
  }

  lemma ChargeNothingKeeps(strict: bool, c: Tables, x: Tx)
    requires TxOk(strict, c, x) && x.pending.InCall? && !x.pending.charged
    requires !Charges(x.pending.call, x.pending.snap)
    ensures TxOk(strict, c, x.(pending := x.pending.(charged := true)))
  {
    UnchargedMovesNothing(strict, x.pending.call, x.pending.snap);
    SameWrites(strict, c, x, x.(pending := x.pending.(charged := true)));
  }

  /** The budget row a transaction would charge, with nothing owed on it yet. */
  lemma BeforeCharge(strict: bool, c: Tables, x: Tx, b: string)
    requires Balanced(strict, c) && TxOk(strict, c, x) && b in View(c, x).budgets
    requires x.pending.InCall? ==> !x.pending.charged
    ensures BudgetOk(View(c, x).budgets[b], View(c, x).requests, b, NOTHING)
  {
    if b in x.writes.budgets {
      assert BudgetOk(x.writes.budgets[b], View(c, x).requests, b, Owed(x, b));
    } else {
      UntouchedRow(strict, c, x, b);
    }
  }

  lemma ChargedRowOk(strict: bool, c: Tables, x: Tx, row: Budget)
    requires Balanced(strict, c) && TxOk(strict, c, x) && x.pending.InCall? && !x.pending.charged
    requires Charges(x.pending.call, x.pending.snap)
    requires ChargeRow(Row(View(c, x).budgets, x.pending.snap.budgetId), x.pending.call, x.pending.snap) == Ok(row)
    ensures x.pending.snap.budgetId in View(c, x).budgets && AmountsOk(x.pending.call)
    ensures BudgetOk(row, View(c, x).requests, x.pending.snap.budgetId, Delta(x.pending.call, x.pending.snap))
  {
    var b, v := x.pending.snap.budgetId, View(c, x);
    assert b in v.budgets;
    BeforeCharge(strict, c, x, b);
    OverrunNonNegative(v.requests, b);
    ChargeMovesDelta(strict, v.budgets[b], x.pending.call, x.pending.snap, v.requests, b);
  }

  lemma ChargeKeeps(strict: bool, c: Tables, x: Tx, row: Budget)
    requires Balanced(strict, c) && TxOk(strict, c, x) && x.pending.InCall? && !x.pending.charged
    requires Charges(x.pending.call, x.pending.snap)
    requires ChargeRow(Row(View(c, x).budgets, x.pending.snap.budgetId), x.pending.call, x.pending.snap) == Ok(row)
    ensures TxOk(strict, c, WriteBudget(x, x.pending.snap.budgetId, row))
  {
    ChargedRowOk(strict, c, x, row);
    WriteBudgetKeeps(strict, c, x, row);
  }

  lemma WriteBudgetKeeps(strict: bool, c: Tables, x: Tx, row: Budget)
    requires TxOk(strict, c, x) && x.pending.InCall? && !x.pending.charged
    requires x.pending.snap.budgetId in View(c, x).budgets && AmountsOk(x.pending.call)
    requires BudgetOk(row, View(c, x).requests, x.pending.snap.budgetId, Delta(x.pending.call, x.pending.snap))
    ensures TxOk(strict, c, WriteBudget(x, x.pending.snap.budgetId, row))
  {
    var b := x.pending.snap.budgetId;
    var x' := WriteBudget(x, b, row);
    forall k | k in x'.writes.requests ensures WriteOk(strict, c, x', k) {
      MoreBudgetsKeepWrite(strict, c, x, x', k);
    }
    forall d | d in x'.writes.budgets ensures BudgetOk(x'.writes.budgets[d], View(c, x').requests, d, Owed(x', d)) {
      WrittenBudgetOk(c, x, row, d);
    }
    ChargedPendingOk(strict, c, x, row);
  }

  lemma MoreBudgetsKeepWrite(strict: bool, c: Tables, x: Tx, x': Tx, k: string)
    requires k in x.writes.requests && WriteOk(strict, c, x, k)
    requires x'.writes.requests == x.writes.requests && x.writes.budgets.Keys <= x'.writes.budgets.Keys
    ensures WriteOk(strict, c, x', k)
  {
  }

  lemma WrittenBudgetOk(c: Tables, x: Tx, row: Budget, d: string)
    requires x.pending.InCall? && !x.pending.charged
    requires d == x.pending.snap.budgetId ==> BudgetOk(row, View(c, x).requests, d, Delta(x.pending.call, x.pending.snap))
    requires d != x.pending.snap.budgetId ==>
               d in x.writes.budgets && BudgetOk(x.writes.budgets[d], View(c, x).requests, d, Owed(x, d))
    ensures var x' := WriteBudget(x, x.pending.snap.budgetId, row);
            BudgetOk(x'.writes.budgets[d], View(c, x').requests, d, Owed(x', d))
  {
    var x' := WriteBudget(x, x.pending.snap.budgetId, row);
    assert View(c, x').requests == View(c, x).requests;
    if d == x.pending.snap.budgetId {
      assert Owed(x', d) == Delta(x.pending.call, x.pending.snap);
    } else {
      assert Owed(x', d) == NOTHING == Owed(x, d);
    }
  }

  lemma ChargedPendingOk(strict: bool, c: Tables, x: Tx, row: Budget)
    requires PendingOk(strict, c, x) && x.pending.InCall? && AmountsOk(x.pending.call)
    ensures PendingOk(strict, c, WriteBudget(x, x.pending.snap.budgetId, row))
  {
  }

  lemma ViewOfWrite(c: Tables, x: Tx, k: string, r: Request)
    ensures View(c, WriteRequest(x, k, r)).requests == View(c, x).requests[k := r]
  {
  }

  lemma WriteKeepsBudget(c: Tables, x: Tx, k: string, r: Request, b: string)
    requires b in x.writes.budgets && BudgetOk(x.writes.budgets[b], View(c, x).requests, b, Owed(x, b))
    requires k in View(c, x).requests ==> View(c, x).requests[k].budgetId == r.budgetId
    requires forall m :: Moves(View(c, x).requests, k, r, b, m) == Owed(x, b)(m)
    ensures var x' := WriteRequest(x, k, r); BudgetOk(x.writes.budgets[b], View(c, x').requests, b, Owed(x', b))
  {
    ViewOfWrite(c, x, k, r);
    assert Owed(WriteRequest(x, k, r), b) == NOTHING;
    WriteSettles(x.writes.budgets[b], View(c, x).requests, k, r, b, Owed(x, b));
  }

  lemma WriteKeeps(strict: bool, c: Tables, x: Tx, k: string, r: Request)
    requires Balanced(strict, c) && TxOk(strict, c, x) && RowOk(strict, r)
    requires k in View(c, x).requests ==> Evolves(View(c, x).requests[k], r)
    requires forall b, m :: b in x.writes.budgets ==> Moves(View(c, x).requests, k, r, b, m) == Owed(x, b)(m)
    requires r.budgetId in x.writes.budgets || forall m :: Value(m, r) == Held(View(c, x).requests, k, m)
    ensures TxOk(strict, c, WriteRequest(x, k, r))
  {
    var x' := WriteRequest(x, k, r);
    ViewOfWrite(c, x, k, r);
    forall j | j in x'.writes.requests ensures WriteOk(strict, c, x', j) {
      if j == k {
        WrittenRowOk(strict, c, x, k, r);
      } else {
        assert WriteOk(strict, c, x, j);
      }
    }
    forall b | b in x'.writes.budgets ensures BudgetOk(x'.writes.budgets[b], View(c, x').requests, b, Owed(x', b)) {
      WriteKeepsBudget(c, x, k, r, b);
    }
  }

  lemma WrittenRowOk(strict: bool, c: Tables, x: Tx, k: string, r: Request)
    requires Balanced(strict, c) && TxOk(strict, c, x) && RowOk(strict, r)
    requires k in View(c, x).requests ==> Evolves(View(c, x).requests[k], r)
    requires r.budgetId in x.writes.budgets || forall m :: Value(m, r) == Held(View(c, x).requests, k, m)
    ensures WriteOk(strict, c, WriteRequest(x, k, r), k)
  {
    if k in c.requests {
      ViewRowOk(strict, c, x, k);
      EvolvesTransitive(c.requests[k], View(c, x).requests[k], r);
    }
    if r.budgetId !in x.writes.budgets && k in x.writes.requests {
      assert WriteOk(strict, c, x, k);
      forall m ensures Value(m, r) == Held(c.requests, k, m) {
        assert Value(m, r) == Held(View(c, x).requests, k, m);
      }
    }
  }

  /** What settling moves is what the call owed when it charged. */
  lemma SettleMoves(strict: bool, requests: map<string, Request>, x: Tx, b: string, m: Measure)
    requires x.pending.InCall? && x.pending.charged && x.pending.id in requests
    requires RowOk(strict, requests[x.pending.id]) && RowOk(strict, x.pending.snap)
    requires Begin(Some(x.pending.snap), x.pending.call) == Go
    requires Evolves(x.pending.snap, requests[x.pending.id]) && requests[x.pending.id].status == x.pending.snap.status
    ensures var r := Settled(x.pending.call, requests[x.pending.id]);
            && Moves(requests, x.pending.id, r, b, m) == Owed(x, b)(m)
            && Value(m, r) - Value(m, requests[x.pending.id]) == Delta(x.pending.call, x.pending.snap)(m)
  {
    SnapshotStillValid(strict, x.pending.call, x.pending.snap, requests[x.pending.id]);
  }

  lemma SettleKeeps(strict: bool, c: Tables, x: Tx)
    requires Balanced(strict, c) && TxOk(strict, c, x) && x.pending.InCall? && x.pending.charged
    requires View(c, x).requests[x.pending.id].status == x.pending.snap.status
    ensures TxOk(strict, c, WriteRequest(x, x.pending.id, Settled(x.pending.call, View(c, x).requests[x.pending.id])))
  {
    var id, call, snap := x.pending.id, x.pending.call, x.pending.snap;
    var row := View(c, x).requests[id];
    var r := Settled(call, row);
    ViewRowOk(strict, c, x, id);
    SnapshotStillValid(strict, call, snap, row);
    SettledEvolves(strict, call, row);
    SettledRowOk(strict, call, row);
    forall b, m | b in x.writes.budgets ensures Moves(View(c, x).requests, id, r, b, m) == Owed(x, b)(m) {
      SettleMoves(strict, View(c, x).requests, x, b, m);
    }
    if !Charges(call, snap) {
      UnchargedMovesNothing(strict, call, snap);
      forall m ensures Value(m, r) == Held(View(c, x).requests, id, m) {
        SettleMoves(strict, View(c, x).requests, x, r.budgetId, m);
      }
    }
    WriteKeeps(strict, c, x, id, r);
  }

  lemma CreateKeeps(strict: bool, c: Tables, x: Tx, id: string, r: Request)
    requires Balanced(strict, c) && TxOk(strict, c, x) && x.pending == Idle && id !in View(c, x).requests
    requires r == FreshRequest(r.taskId, r.budgetId, r.promptHash, r.contextHash)
    ensures TxOk(strict, c, WriteRequest(x, id, r))
  {
    forall m ensures Value(m, r) == 0 {
      match m { case HeldM => case UsedM => case CostM => case OverrunM => }
    }
    WriteKeeps(strict, c, x, id, r);
  }

  lemma CommitBalanced(strict: bool, c: Tables, x: Tx)
    requires Balanced(strict, c) && TxOk(strict, c, x) && x.pending == Idle
    ensures Balanced(strict, View(c, x))
  {
    var v := View(c, x);
    forall k | k in v.requests ensures RowOk(strict, v.requests[k]) {
      ViewRowOk(strict, c, x, k);
    }
    forall b | b in v.budgets ensures BudgetOk(v.budgets[b], v.requests, b, NOTHING) {
      if b in x.writes.budgets {
        assert BudgetOk(x.writes.budgets[b], v.requests, b, Owed(x, b));
      } else {
        UntouchedRow(strict, c, x, b);
      }
    }
  }

  /** A row of `b` that another transaction commits weighs what it weighed before. */
  lemma CommitKeepsWeight(strict: bool, c: Tables, x: Tx, y: Tx, b: string, m: Measure, k: string)
    requires TxOk(strict, c, x) && Apart(x, y) && b !in x.writes.budgets
    ensures Weight(View(View(c, x), y).requests, b, m)(k) == Weight(View(c, y).requests, b, m)(k)
  {
    if k in x.writes.requests {
      assert WriteOk(strict, c, x, k) && k !in y.writes.requests;
    }
  }

  /** Another transaction's commit does not move the sums of a budget this one holds. */
  lemma CommitKeepsSums(strict: bool, c: Tables, x: Tx, y: Tx, b: string, m: Measure)
    requires TxOk(strict, c, x) && Apart(x, y) && b in y.writes.budgets
    ensures Total(View(View(c, x), y).requests, b, m) == Total(View(c, y).requests, b, m)
  {
    var v, v' := View(c, y).requests, View(View(c, x), y).requests;
    assert b !in x.writes.budgets;
    forall k ensures Weight(v', b, m)(k) == Weight(v, b, m)(k) {
      CommitKeepsWeight(strict, c, x, y, b, m, k);
    }
    TotalSame(v', v, b, m);
  }

  lemma CommitKeepsWrite(strict: bool, c: Tables, x: Tx, y: Tx, k: string)
    requires Apart(x, y) && k in y.writes.requests && WriteOk(strict, c, y, k)
    ensures WriteOk(strict, View(c, x), y, k)
  {
    assert k !in x.writes.requests;
  }

  lemma CommitKeepsPending(strict: bool, c: Tables, x: Tx, y: Tx)
    requires TxOk(strict, c, x) && PendingOk(strict, c, y) && Apart(x, y)
    ensures PendingOk(strict, View(c, x), y)
  {
    if y.pending.InCall? && y.pending.id in x.writes.requests {
      var id := y.pending.id;
      assert WriteOk(strict, c, x, id) && id !in y.writes.requests;
      EvolvesTransitive(y.pending.snap, c.requests[id], x.writes.requests[id]);
    }
  }

  lemma CommitKeepsOther(strict: bool, c: Tables, x: Tx, y: Tx)
    requires Balanced(strict, c) && TxOk(strict, c, x) && TxOk(strict, c, y) && Apart(x, y)
    ensures TxOk(strict, View(c, x), y)
  {
    var c' := View(c, x);
    forall k | k in y.writes.requests ensures WriteOk(strict, c', y, k) {
      CommitKeepsWrite(strict, c, x, y, k);
    }
    forall b | b in y.writes.budgets ensures BudgetOk(y.writes.budgets[b], View(c', y).requests, b, Owed(y, b)) {
      forall m ensures Total(View(c', y).requests, b, m) == Total(View(c, y).requests, b, m) {
        CommitKeepsSums(strict, c, x, y, b, m);
      }
      SameSums(y.writes.budgets[b], View(c, y).requests, View(c', y).requests, b, Owed(y, b));
    }
    CommitKeepsPending(strict, c, x, y);
  }

  lemma NewTxOk(strict: bool, c: Tables)
    ensures TxOk(strict, c, NEW_TX)
  {
  }

  lemma TxOfOk(strict: bool, s: System, t: nat)
    requires Inv(strict, s)
    ensures TxOk(strict, s.committed, TxOf(s, t))
    ensures forall u :: u in s.txs && u != t ==> Apart(TxOf(s, t), s.txs[u])
  {
    NewTxOk(strict, s.committed);
  }

  lemma PutKeeps(strict: bool, s: System, t: nat, x: Tx)
    requires Inv(strict, s) && TxOk(strict, s.committed, x)
    requires forall u :: u in s.txs && u != t ==> Apart(x, s.txs[u])
    ensures Inv(strict, Put(s, t, x))
  {
  }

  lemma CommitTxKeeps(strict: bool, s: System, t: nat)
    requires Inv(strict, s) && TxOf(s, t).pending == Idle
    ensures Inv(strict, RolledBack(s.(committed := View(s.committed, TxOf(s, t))), t))
  {
    var x := TxOf(s, t);
    TxOfOk(strict, s, t);
    CommitBalanced(strict, s.committed, x);
    forall u | u in s.txs && u != t ensures TxOk(strict, View(s.committed, x), s.txs[u]) {
      CommitKeepsOther(strict, s.committed, x, s.txs[u]);
    }
  }

  /** A row that nobody else has written: the transaction that creates it may stand beside the others. */
  lemma CreatedTxKeeps(strict: bool, s: System, t: nat, id: string, r: Request)
    requires Inv(strict, s) && TxOf(s, t).pending == Idle && !RequestLocked(s, t, id)
    requires id !in View(s.committed, TxOf(s, t)).requests
    requires r == FreshRequest(r.taskId, r.budgetId, r.promptHash, r.contextHash)
    ensures Inv(strict, Put(s, t, WriteRequest(TxOf(s, t), id, r)))
  {
    var x := TxOf(s, t);
    TxOfOk(strict, s, t);
    CreateKeeps(strict, s.committed, x, id, r);
    forall u | u in s.txs && u != t ensures Apart(WriteRequest(x, id, r), s.txs[u]) {
      assert Apart(x, s.txs[u]) && id !in s.txs[u].writes.requests;
    }
    PutKeeps(strict, s, t, WriteRequest(x, id, r));
  }

  lemma CreateStepKeeps(strict: bool, s: System, a: Action)
    requires Inv(strict, s) && a.Create?
    ensures Inv(strict, Step(s, a))
  {
    var x := TxOf(s, a.t);
    if x.pending == Idle && a.id !in View(s.committed, x).requests && !RequestLocked(s, a.t, a.id) {
      CreatedTxKeeps(strict, s, a.t, a.id, FreshRequest(a.taskId, a.budgetId, a.promptHash, a.contextHash));
    }
  }

  lemma ReadStepKeeps(strict: bool, s: System, a: Action)
    requires Inv(strict, s) && a.Read? && ActionOk(strict, a)
    ensures Inv(strict, Step(s, a))
  {
    var x, c := TxOf(s, a.t), s.committed;
    if x.pending == Idle && Begin(Row(View(c, x).requests, a.id), a.call) == Go {
      TxOfOk(strict, s, a.t);
      ReadKeeps(strict, c, x, a.id, a.call);
      PutKeeps(strict, s, a.t, x.(pending := InCall(a.id, a.call, View(c, x).requests[a.id], false)));
    }
  }

  lemma ChargeStepKeeps(strict: bool, s: System, t: nat)
    requires Inv(strict, s)
    ensures Inv(strict, Step(s, Charge(t)))
  {
    var x, c := TxOf(s, t), s.committed;
    TxOfOk(strict, s, t);
    if x.pending.InCall? && !x.pending.charged {
      var call, snap := x.pending.call, x.pending.snap;
      if !Charges(call, snap) {
        ChargeNothingKeeps(strict, c, x);
        PutKeeps(strict, s, t, x.(pending := x.pending.(charged := true)));
      } else if !BudgetLocked(s, t, snap.budgetId) {
        var charged := ChargeRow(Row(View(c, x).budgets, snap.budgetId), call, snap);
        if charged.Ok? {
          ChargeKeeps(strict, c, x, charged.value);
          PutKeeps(strict, s, t, WriteBudget(x, snap.budgetId, charged.value));
        }
      }
    }
  }

  /** The compare-and-set has matched: the transaction that wrote the row may stand beside the others. */
  lemma SettledTxKeeps(strict: bool, s: System, t: nat, x: Tx)
    requires Inv(strict, s) && x == TxOf(s, t) && x.pending.InCall? && x.pending.charged
    requires x.pending.id in View(s.committed, x).requests && !RequestLocked(s, t, x.pending.id)
    requires View(s.committed, x).requests[x.pending.id].status == x.pending.snap.status
    ensures Inv(strict, Put(s, t, WriteRequest(x, x.pending.id, Settled(x.pending.call, View(s.committed, x).requests[x.pending.id]))))
  {
    var id := x.pending.id;
    var x' := WriteRequest(x, id, Settled(x.pending.call, View(s.committed, x).requests[id]));
    TxOfOk(strict, s, t);
    SettleKeeps(strict, s.committed, x);
    forall u | u in s.txs && u != t ensures Apart(x', s.txs[u]) {
      assert Apart(x, s.txs[u]) && id !in s.txs[u].writes.requests;
    }
    PutKeeps(strict, s, t, x');
  }

  lemma SettleStepKeeps(strict: bool, s: System, t: nat)
    requires Inv(strict, s)
    ensures Inv(strict, Step(s, Settle(t)))
  {
    var x := TxOf(s, t);
    if x.pending.InCall? && x.pending.charged && !RequestLocked(s, t, x.pending.id) {
      TxOfOk(strict, s, t);
      if View(s.committed, x).requests[x.pending.id].status == x.pending.snap.status {
        SettledTxKeeps(strict, s, t, x);
      }
    }
  }

  /** Every step of every transaction keeps the invariant, whatever the others are in the middle of. */
  lemma StepKeeps(strict: bool, s: System, a: Action)
    requires Inv(strict, s) && ActionOk(strict, a)
    ensures Inv(strict, Step(s, a))
  {
    match a
    case Create(_, _, _, _, _, _) => CreateStepKeeps(strict, s, a);
    case Read(_, _, _) => ReadStepKeeps(strict, s, a);
    case Charge(t) => ChargeStepKeeps(strict, s, t);
    case Settle(t) => SettleStepKeeps(strict, s, t);
    case CommitTx(t) =>
      if TxOf(s, t).pending == Idle {
        CommitTxKeeps(strict, s, t);
      }
    case Rollback(t) =>
  }

  /** A system at rest: balanced tables and no open transaction. */
  ghost predicate AtRest(strict: bool, s: System) {
    Balanced(strict, s.committed) && s.txs == map[]
  }

  lemma {:induction false} RunKeeps(strict: bool, s: System, actions: seq<Action>)
    requires AtRest(strict, s) && forall a :: a in actions ==> ActionOk(strict, a)
    ensures Inv(strict, Run(s, actions))
    decreases |actions|
  {
    if actions != [] {
      RunKeeps(strict, s, actions[..|actions| - 1]);
      StepKeeps(strict, Run(s, actions[..|actions| - 1]), actions[|actions| - 1]);
    }
  }

  // ----- the results -----

  /**
   Conservation: after any interleaving, every committed budget row equals the sums over its
   requests, and the cost limit holds.
   */
  lemma Conservation(s: System, actions: seq<Action>, b: string)
    requires AtRest(false, s) && (forall a :: a in actions ==> ActionOk(false, a))
    requires b in Run(s, actions).committed.budgets
    ensures var t := Run(s, actions).committed;
            && t.budgets[b].reservedTokens == Total(t.requests, b, HeldM)
            && t.budgets[b].usedTokens == Total(t.requests, b, UsedM)
            && t.budgets[b].usedCost == Total(t.requests, b, CostM) <= t.budgets[b].costLimit
  {
    RunKeeps(false, s, actions);
    var t := Run(s, actions).committed;
    assert BudgetOk(t.budgets[b], t.requests, b, NOTHING);
  }

  /**
   The token limit: it is exceeded by at most what completed requests used beyond their
   reservations, so it holds when no completed request did.
   */
  lemma TokenLimit(s: System, actions: seq<Action>, b: string)
    requires AtRest(false, s) && (forall a :: a in actions ==> ActionOk(false, a))
    requires b in Run(s, actions).committed.budgets
    ensures var t := Run(s, actions).committed;
            && t.budgets[b].usedTokens + t.budgets[b].reservedTokens <= t.budgets[b].tokenLimit + Total(t.requests, b, OverrunM)
            && ((forall k :: k in t.requests && t.requests[k].status == Completed ==>
                   t.requests[k].committedTokens <= t.requests[k].settledAgainst)
                ==> t.budgets[b].usedTokens + t.budgets[b].reservedTokens <= t.budgets[b].tokenLimit)
  {
    RunKeeps(false, s, actions);
    var t := Run(s, actions).committed;
    assert BudgetOk(t.budgets[b], t.requests, b, NOTHING);
    NoOverrun(t.requests, b);
  }

  /** When no completed request used more than it reserved, nothing overruns. */
  lemma NoOverrun(requests: map<string, Request>, b: string)
    ensures (forall k :: k in requests && requests[k].status == Completed ==>
               requests[k].committedTokens <= requests[k].settledAgainst)
            ==> Total(requests, b, OverrunM) == 0
  {
    if forall k :: k in requests && requests[k].status == Completed ==>
         requests[k].committedTokens <= requests[k].settledAgainst {
      SumShrink(requests.Keys, {}, Weight(requests, b, OverrunM));
    }
  }

  /** When no status is moved straight to a terminal one, settled requests hold no tokens. */
  lemma TerminalHoldsNothing(s: System, actions: seq<Action>, k: string)
    requires AtRest(true, s) && (forall a :: a in actions ==> ActionOk(true, a))
    requires k in Run(s, actions).committed.requests && IsTerminal(Run(s, actions).committed.requests[k].status)
    ensures Run(s, actions).committed.requests[k].reservedTokens == 0
  {
    RunKeeps(true, s, actions);
  }

  lemma EvolvesItself(r: Request)
    ensures Evolves(r, r)
  {
  }

  /** The committed tables change only when a transaction commits. */
  lemma OnlyCommitsCommit(s: System, a: Action)
    ensures Step(s, a).committed == if a.CommitTx? && TxOf(s, a.t).pending == Idle then View(s.committed, TxOf(s, a.t)) else s.committed
  {
  }

  lemma StepEvolves(s: System, a: Action, k: string)
    requires Inv(false, s) && k in s.committed.requests
    ensures k in Step(s, a).committed.requests && Evolves(s.committed.requests[k], Step(s, a).committed.requests[k])
  {
    EvolvesItself(s.committed.requests[k]);
    OnlyCommitsCommit(s, a);
    TxOfOk(false, s, a.t);
    ViewRowOk(false, s.committed, TxOf(s, a.t), k);
  }

  /** A request's row only ever moves forward, whoever commits. */
  lemma {:induction false} CommittedRowsEvolve(s: System, actions: seq<Action>, k: string)
    requires AtRest(false, s) && (forall a :: a in actions ==> ActionOk(false, a))
    requires k in s.committed.requests
    ensures k in Run(s, actions).committed.requests
    ensures Evolves(s.committed.requests[k], Run(s, actions).committed.requests[k])
    decreases |actions|
  {
    if actions == [] {
      EvolvesItself(s.committed.requests[k]);
    } else {
      var init, a := actions[..|actions| - 1], actions[|actions| - 1];
      CommittedRowsEvolve(s, init, k);
      RunKeeps(false, s, init);
      StepEvolves(Run(s, init), a, k);
      EvolvesTransitive(s.committed.requests[k], Run(s, init).committed.requests[k], Run(s, actions).committed.requests[k]);
    }
  }

  /** A committed row that has ended never changes again, whoever commits. */
  lemma EndedRowsStay(s: System, actions: seq<Action>, k: string)
    requires AtRest(false, s) && (forall a :: a in actions ==> ActionOk(false, a))
    requires k in s.committed.requests && s.committed.requests[k].status in {Completed, Failed, Cancelled}
    ensures k in Run(s, actions).committed.requests && Run(s, actions).committed.requests[k] == s.committed.requests[k]
  {
    CommittedRowsEvolve(s, actions, k);
  }

  // ----- calls that run without interference -----

  /** Creating a request by a transaction that waits for no lock has the effect of the reference, or rolls it back. */
  lemma CreateStepPerforms(s: System, a: Action)
    requires a.Create? && TxOf(s, a.t).pending == Idle && !RequestLocked(s, a.t, a.id)
    ensures var s' := Step(s, a);
            match PerformCreate(View(s.committed, TxOf(s, a.t)), a.id, a.taskId, a.budgetId, a.promptHash, a.contextHash)
            case Err(_) => s' == RolledBack(s, a.t)
            case Ok(after) => View(s'.committed, TxOf(s', a.t)) == after && s'.committed == s.committed && TxOf(s', a.t).pending == Idle
  {
  }

  /** The three steps of a call, run back to back. */
  function CallSteps(s: System, t: nat, id: string, call: Call): System {
    Step(Step(Step(s, Read(t, id, call)), Charge(t)), Settle(t))
  }

  /** `actions`, then the three steps of one call. */
  function AndCall(actions: seq<Action>, t: nat, id: string, call: Call): seq<Action> {
    actions + [Read(t, id, call)] + [Charge(t)] + [Settle(t)]
  }

  lemma RunSnoc(s: System, actions: seq<Action>, a: Action)
    ensures Run(s, actions + [a]) == Step(Run(s, actions), a)
  {
    assert (actions + [a])[..|actions|] == actions;
  }

  lemma RunThree(s: System, actions: seq<Action>, a: Action, b: Action, c: Action)
    ensures Run(s, actions + [a] + [b] + [c]) == Step(Step(Step(Run(s, actions), a), b), c)
  {
    RunSnoc(s, actions, a);
    RunSnoc(s, actions + [a], b);
    RunSnoc(s, actions + [a] + [b], c);
  }

  lemma RunCall(s: System, actions: seq<Action>, t: nat, id: string, call: Call)
    ensures Run(s, AndCall(actions, t, id, call)) == CallSteps(Run(s, actions), t, id, call)
  {
    RunThree(s, actions, Read(t, id, call), Charge(t), Settle(t));
  }

  /** A write by `t` itself locks nothing against `t`. */
  lemma PutKeepsLocks(s: System, t: nat, x: Tx, k: string, b: string)
    ensures RequestLocked(Put(s, t, x), t, k) <==> RequestLocked(s, t, k)
    ensures BudgetLocked(Put(s, t, x), t, b) <==> BudgetLocked(s, t, b)
  {
    var s' := Put(s, t, x);
    assert forall u :: u != t ==> (u in s.txs <==> u in s'.txs) && (u in s.txs ==> s.txs[u] == s'.txs[u]);
  }

  lemma PutTwice(s: System, t: nat, x: Tx, y: Tx)
    ensures Put(Put(s, t, x), t, y) == Put(s, t, y) && TxOf(Put(s, t, x), t) == x
    ensures RolledBack(Put(s, t, x), t) == RolledBack(s, t)
    ensures TxOf(RolledBack(s, t), t) == NEW_TX
  {
  }

  lemma SettleAlone(s: System, t: nat, x: Tx)
    requires TxOf(s, t) == x && x.pending.InCall? && x.pending.charged && !RequestLocked(s, t, x.pending.id)
    requires x.pending.id in View(s.committed, x).requests
    requires View(s.committed, x).requests[x.pending.id] == x.pending.snap
    ensures var s' := Step(s, Settle(t));
            && s' == Put(s, t, WriteRequest(x, x.pending.id, Settled(x.pending.call, x.pending.snap)))
            && View(s'.committed, TxOf(s', t)) == View(s.committed, x).(requests :=
                 View(s.committed, x).requests[x.pending.id := Settled(x.pending.call, x.pending.snap)])
  {
    ViewOfWrite(s.committed, x, x.pending.id, Settled(x.pending.call, x.pending.snap));
  }

  /** The charge and settle steps after a read that found the call to be possible. */
  lemma GoAlone(s: System, t: nat, x: Tx, id: string, call: Call, snap: Request)
    requires TxOf(s, t) == x && x.pending == InCall(id, call, snap, false)
    requires !RequestLocked(s, t, id) && !BudgetLocked(s, t, snap.budgetId)
    requires id in View(s.committed, x).requests && View(s.committed, x).requests[id] == snap
    requires Begin(Some(snap), call) == Go
    ensures var s' := Step(Step(s, Charge(t)), Settle(t));
            match Perform(View(s.committed, x), id, call)
            case Err(_) => s' == RolledBack(s, t)
            case Ok(after) => View(s'.committed, TxOf(s', t)) == after && s'.committed == s.committed && TxOf(s', t).pending == Idle
  {
    var view := View(s.committed, x);
    var s2 := Step(s, Charge(t));
    if !Charges(call, snap) {
      var x2 := x.(pending := x.pending.(charged := true));
      PutKeepsLocks(s, t, x2, id, snap.budgetId);
      PutTwice(s, t, x2, x2);
      SettleAlone(s2, t, x2);
    } else {
      var charged := ChargeRow(Row(view.budgets, snap.budgetId), call, snap);
      if charged.Ok? {
        var x2 := WriteBudget(x, snap.budgetId, charged.value);
        PutKeepsLocks(s, t, x2, id, snap.budgetId);
        PutTwice(s, t, x2, x2);
        assert View(s.committed, x2) == view.(budgets := view.budgets[snap.budgetId := charged.value]);
        SettleAlone(s2, t, x2);
      } else {
        PutTwice(s, t, x, x);
      }
    }
  }

  /** Back to back, the three steps have exactly the effect of the reference call. */
  lemma CallStepsPerform(s: System, t: nat, id: string, call: Call)
    requires TxOf(s, t).pending == Idle && !RequestLocked(s, t, id)
    requires id in View(s.committed, TxOf(s, t)).requests ==>
               !BudgetLocked(s, t, View(s.committed, TxOf(s, t)).requests[id].budgetId)
    ensures var s' := CallSteps(s, t, id, call);
            match Perform(View(s.committed, TxOf(s, t)), id, call)
            case Err(_) => s' == RolledBack(s, t)
            case Ok(after) => View(s'.committed, TxOf(s', t)) == after && s'.committed == s.committed && TxOf(s', t).pending == Idle
  {
    var x := TxOf(s, t);
    var view := View(s.committed, x);
    PutTwice(s, t, x, x);
    if Begin(Row(view.requests, id), call) == Go {
      var snap := view.requests[id];
      var x1 := x.(pending := InCall(id, call, snap, false));
      PutKeepsLocks(s, t, x1, id, snap.budgetId);
      PutTwice(s, t, x1, x1);
      assert View(s.committed, x1) == view;
      GoAlone(Put(s, t, x1), t, x1, id, call, snap);
    }
  }
}
