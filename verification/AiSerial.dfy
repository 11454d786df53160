/**
 Serial runs of the AI budget and request services (karsasec/ai/request.py, karsasec/ai/budget.py):
 one session at a time, any calls in any order. Here a release may even go to a live status.
 */
module AiSerial {
  import opened Common
  import opened AiStateMachine
  import opened AiLedger

  lemma CreatedBalanced(strict: bool, t: Tables, id: string, r: Request)
    requires Balanced(strict, t) && id !in t.requests
    requires r == FreshRequest(r.taskId, r.budgetId, r.promptHash, r.contextHash)
    ensures Balanced(strict, t.(requests := t.requests[id := r]))
  {
    forall m ensures Value(m, r) == 0 {
      match m { case HeldM => case UsedM => case CostM => case OverrunM => }
    }
    forall b | b in t.budgets ensures BudgetOk(t.budgets[b], t.requests[id := r], b, NOTHING) {
      WriteSettles(t.budgets[b], t.requests, id, r, b, NOTHING);
    }
  }

  lemma ReservationIsHeld(strict: bool, t: Tables, id: string)
    requires Balanced(strict, t) && id in t.requests && t.requests[id].budgetId in t.budgets
    ensures t.requests[id].reservedTokens <= t.budgets[t.requests[id].budgetId].reservedTokens
  {
    RowWithinTotal(t.requests, id, HeldM);
    assert BudgetOk(t.budgets[t.requests[id].budgetId], t.requests, t.requests[id].budgetId, NOTHING);
  }

  /** A charged budget row matches the requests once the row of the request is written. */
  lemma ChargedThenSettled(strict: bool, row: Budget, requests: map<string, Request>, id: string, call: Call)
    requires id in requests && RowOk(strict, requests[id]) && Begin(Some(requests[id]), call) == Go
    requires BudgetOk(row, requests, requests[id].budgetId, NOTHING)
    requires Charges(call, requests[id]) && ChargeRow(Some(row), call, requests[id]).Ok?
    ensures BudgetOk(ChargeRow(Some(row), call, requests[id]).value, requests[id := Settled(call, requests[id])],
                     requests[id].budgetId, NOTHING)
  {
    var snap := requests[id];
    var b, charged := snap.budgetId, ChargeRow(Some(row), call, snap).value;
    OverrunNonNegative(requests, b);
    ChargeMovesDelta(strict, row, call, snap, requests, b);
    WriteSettles(charged, requests, id, Settled(call, snap), b, Delta(call, snap));
  }

  /** A budget row the call does not charge matches them as before. */
  lemma UnchargedThenSettled(strict: bool, row: Budget, requests: map<string, Request>, id: string, call: Call, b: string)
    requires id in requests && RowOk(strict, requests[id]) && Begin(Some(requests[id]), call) == Go
    requires BudgetOk(row, requests, b, NOTHING)
    requires b != requests[id].budgetId || !Charges(call, requests[id])
    ensures BudgetOk(row, requests[id := Settled(call, requests[id])], b, NOTHING)
  {
    var snap := requests[id];
    if b == snap.budgetId {
      UnchargedMovesNothing(strict, call, snap);
    }
    forall m ensures Moves(requests, id, Settled(call, snap), b, m) == 0 {
      assert b == snap.budgetId ==> Delta(call, snap)(m) == 0;
    }
    WriteSettles(row, requests, id, Settled(call, snap), b, NOTHING);
  }

  lemma SuccessKeepsBalance(strict: bool, t: Tables, id: string, call: Call)
    requires Balanced(strict, t) && NoShortcut(strict, call)
    requires Begin(Row(t.requests, id), call) == Go && Perform(t, id, call).Ok?
    ensures Balanced(strict, Perform(t, id, call).value)
  {
    var snap, after := t.requests[id], Perform(t, id, call).value;
    SettledRowOk(strict, call, snap);
    forall b | b in after.budgets ensures BudgetOk(after.budgets[b], after.requests, b, NOTHING) {
      if b == snap.budgetId && Charges(call, snap) {
        ChargedThenSettled(strict, t.budgets[b], t.requests, id, call);
      } else {
        UnchargedThenSettled(strict, t.budgets[b], t.requests, id, call, b);
      }
    }
  }

  /** Every call on balanced tables leaves them balanced, and never fails for want of reserved tokens. */
  lemma PerformKeepsBalance(strict: bool, t: Tables, id: string, call: Call)
    requires Balanced(strict, t) && NoShortcut(strict, call)
    ensures match Perform(t, id, call)
            case Ok(after) => Balanced(strict, after)
            case Err(e) => e != InsufficientReserved
  {
    if Begin(Row(t.requests, id), call) == Go {
      if Perform(t, id, call).Ok? {
        SuccessKeepsBalance(strict, t, id, call);
      } else if t.requests[id].budgetId in t.budgets {
        ReservationIsHeld(strict, t, id);
      }
    }
  }

  /**
   A status moved straight to a terminal one ends the request without giving anything back: the tables
   stay in order exactly when the request held nothing.
   */
  lemma ShortcutKeepsTokens(t: Tables, id: string, call: Call)
    requires Balanced(true, t) && call.Transition? && IsTerminal(call.next) && Perform(t, id, call).Ok?
    ensures Balanced(true, Perform(t, id, call).value) <==> t.requests[id].reservedTokens == 0
  {
    var after := Perform(t, id, call).value;
    assert Balanced(false, t);
    PerformKeepsBalance(false, t, id, call);
    assert after.requests[id].reservedTokens == t.requests[id].reservedTokens;
    assert RowOk(true, after.requests[id]) <==> t.requests[id].reservedTokens == 0;
    forall k | k in after.requests && k != id ensures RowOk(true, after.requests[k]) {
      assert RowOk(true, t.requests[k]);
    }
  }

  // ----- whole runs -----

  datatype Op =
    | Create(id: string, taskId: string, budgetId: string, promptHash: string, contextHash: string)
    | Do(id: string, call: Call)
    | CommitSession
    | RollbackSession

  /** What is committed and what the session sees. */
  datatype State = State(saved: Tables, now: Tables)

  function Outcome(s: State, op: Op): Result<Tables> {
    match op
    case Create(id, taskId, budgetId, promptHash, contextHash) =>
      PerformCreate(s.now, id, taskId, budgetId, promptHash, contextHash)
    case Do(id, call) => Perform(s.now, id, call)
    case CommitSession => Ok(s.now)
    case RollbackSession => Ok(s.saved)
  }

  /** One call; the session's owner may roll back after an error or go on. */
  function Step(s: State, op: Op): State {
    match Outcome(s, op)
    case Ok(after) => State(if op.CommitSession? then after else s.saved, after)
    case Err(e) => if op.Create? && e == BudgetNotFound then State(s.saved, s.saved) else s
  }

  function Run(t: Tables, ops: seq<Op>): State {
    if ops == [] then State(t, t) else Step(Run(t, ops[..|ops| - 1]), ops[|ops| - 1])
  }

  /**
   Serial runs: from balanced tables, creates, calls of any kind, commits and rollbacks in any order
   keep what is committed and what is seen balanced.
   */
  lemma {:induction false} SerialRunsBalance(strict: bool, t: Tables, ops: seq<Op>)
    requires Balanced(strict, t) && forall op :: op in ops && op.Do? ==> NoShortcut(strict, op.call)
    ensures Balanced(strict, Run(t, ops).saved) && Balanced(strict, Run(t, ops).now)
    decreases |ops|
  {
    if ops != [] {
      var s, op := Run(t, ops[..|ops| - 1]), ops[|ops| - 1];
      assert op in ops;
      SerialRunsBalance(strict, t, ops[..|ops| - 1]);
      match op
      case Create(id, taskId, budgetId, promptHash, contextHash) =>
        if Outcome(s, op).Ok? && id !in s.now.requests {
          CreatedBalanced(strict, s.now, id, FreshRequest(taskId, budgetId, promptHash, contextHash));
        }
      case Do(id, call) => PerformKeepsBalance(strict, s.now, id, call);
      case CommitSession =>
      case RollbackSession =>
    }
  }

  /** In no serial run does any call fail for want of reserved tokens. */
  lemma NeverShortOfReserved(t: Tables, ops: seq<Op>, op: Op)
    requires Balanced(false, t)
    ensures Outcome(Run(t, ops), op) != Err(InsufficientReserved)
  {
    SerialRunsBalance(false, t, ops);
    if op.Do? {
      PerformKeepsBalance(false, Run(t, ops).now, op.id, op.call);
    }
  }
}
