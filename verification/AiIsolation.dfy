/**
 The attempt loop among other transactions (karsasec/ai/execution.py, karsasec/ai/request.py). From its
 reservation on, a transaction holds its request row and its budget row. Whatever other transactions do
 in between, and whether or not they keep their callers' rules, it goes on exactly as it would alone.
 */
module AiIsolation {
  import opened Common
  import opened AiStateMachine
  import opened AiLedger
  import opened AiInterleaving
  import opened AiRetry
  import AiExecution
  import AiSession

  // ----- locks -----

  ghost predicate LocksOk(s: System) {
    forall t, u :: t in s.txs && u in s.txs && t != u ==> Apart(s.txs[t], s.txs[u])
  }

  /** A transaction is put back with one more row that nobody else holds. */
  lemma PutKeepsLocks(s: System, t: nat, x: Tx)
    requires LocksOk(s) && forall u :: u in s.txs && u != t ==> Apart(x, s.txs[u])
    ensures LocksOk(Put(s, t, x))
  {
  }

  lemma ApartFromAll(s: System, t: nat)
    requires LocksOk(s)
    ensures forall u :: u in s.txs && u != t ==> Apart(TxOf(s, t), s.txs[u])
  {
  }

  lemma WriteRequestApart(s: System, t: nat, k: string, r: Request)
    requires LocksOk(s) && !RequestLocked(s, t, k)
    ensures LocksOk(Put(s, t, WriteRequest(TxOf(s, t), k, r)))
  {
    ApartFromAll(s, t);
    PutKeepsLocks(s, t, WriteRequest(TxOf(s, t), k, r));
  }

  lemma WriteBudgetApart(s: System, t: nat, b: string, row: Budget)
    requires LocksOk(s) && !BudgetLocked(s, t, b) && TxOf(s, t).pending.InCall?
    ensures LocksOk(Put(s, t, WriteBudget(TxOf(s, t), b, row)))
  {
    ApartFromAll(s, t);
    PutKeepsLocks(s, t, WriteBudget(TxOf(s, t), b, row));
  }

  lemma PendingApart(s: System, t: nat, pending: Pending)
    requires LocksOk(s)
    ensures LocksOk(Put(s, t, TxOf(s, t).(pending := pending)))
  {
    ApartFromAll(s, t);
    PutKeepsLocks(s, t, TxOf(s, t).(pending := pending));
  }

  /** No step whatever gives one row to two transactions. */
  lemma StepKeepsLocks(s: System, a: Action)
    requires LocksOk(s)
    ensures LocksOk(Step(s, a))
  {
    var x, view := TxOf(s, a.t), View(s.committed, TxOf(s, a.t));
    match a
    case Create(t, id, taskId, budgetId, promptHash, contextHash) =>
      if !RequestLocked(s, t, id) {
        WriteRequestApart(s, t, id, FreshRequest(taskId, budgetId, promptHash, contextHash));
      }
    case Read(t, id, call) =>
      if Begin(Row(view.requests, id), call) == Go {
        PendingApart(s, t, InCall(id, call, view.requests[id], false));
      }
    case Charge(t) =>
      if x.pending.InCall? {
        PendingApart(s, t, x.pending.(charged := true));
        var b := x.pending.snap.budgetId;
        if Charges(x.pending.call, x.pending.snap) && !BudgetLocked(s, t, b) {
          var row := ChargeRow(Row(view.budgets, b), x.pending.call, x.pending.snap);
          if row.Ok? {
            WriteBudgetApart(s, t, b, row.value);
          }
        }
      }
    case Settle(t) =>
      if x.pending.InCall? && x.pending.id in view.requests && !RequestLocked(s, t, x.pending.id) {
        WriteRequestApart(s, t, x.pending.id, Settled(x.pending.call, view.requests[x.pending.id]));
      }
    case CommitTx(t) =>
    case Rollback(t) =>
  }

  lemma {:induction false} RunKeepsLocks(s: System, actions: seq<Action>)
    requires LocksOk(s)
    ensures LocksOk(Run(s, actions))
    decreases |actions|
  {
    if actions != [] {
      RunKeepsLocks(s, actions[..|actions| - 1]);
      StepKeepsLocks(Run(s, actions[..|actions| - 1]), actions[|actions| - 1]);
    }
  }

  // ----- one transaction -----

  lemma OthersKeep(s: System, a: Action, t: nat)
    requires a.t != t
    ensures t in Step(s, a).txs <==> t in s.txs
    ensures TxOf(Step(s, a), t) == TxOf(s, t)
  {
  }

  /** The transaction holds the request and its budget row, and is busy with nothing else. */
  predicate Owns(x: Tx, id: string, b: string) {
    && id in x.writes.requests && x.writes.requests[id].budgetId == b && b in x.writes.budgets
    && (x.pending.InCall? ==> x.pending.id == id && x.pending.snap.budgetId == b)
  }

  predicate OwnAction(a: Action, t: nat, id: string) {
    a.t == t && (a.Charge? || a.Settle? || (a.Read? && a.id == id))
  }

  const EMPTY := Tables(map[], map[])

  /** A world with this transaction and nothing committed. */
  function Solo(t: nat, x: Tx): System { System(EMPTY, map[t := x]) }

  const GONE := System(EMPTY, map[])

  lemma ViewAlone(x: Tx)
    ensures View(EMPTY, x) == x.writes
  {
    assert map[] + x.writes.budgets == x.writes.budgets && map[] + x.writes.requests == x.writes.requests;
  }

  /** Every step of the transaction on its own rows is the step it would take alone. */
  lemma OwnStepSame(s: System, t: nat, a: Action, id: string, b: string)
    requires LocksOk(s) && t in s.txs && Owns(s.txs[t], id, b) && OwnAction(a, t, id)
    ensures var s', alone := Step(s, a), Step(Solo(t, s.txs[t]), a);
            && (t in s'.txs <==> t in alone.txs)
            && (t in s'.txs ==> s'.txs[t] == alone.txs[t] && Owns(s'.txs[t], id, b))
            && (alone == if t in alone.txs then Solo(t, alone.txs[t]) else GONE)
  {
    var x := s.txs[t];
    ViewAlone(x);
    assert View(s.committed, x).requests[id] == x.writes.requests[id];
    assert View(s.committed, x).budgets[b] == x.writes.budgets[b];
    NotLocked(s, t, id, b);
    NotLocked(Solo(t, x), t, id, b);
  }

  lemma NotLocked(s: System, t: nat, id: string, b: string)
    requires LocksOk(s) && t in s.txs && Owns(s.txs[t], id, b)
    ensures !RequestLocked(s, t, id) && !BudgetLocked(s, t, b)
  {
  }

  /** Settling its reservation makes a transaction the holder of both rows. */
  lemma ReservationOwns(s: System, t: nat)
    requires var x := TxOf(s, t);
             && x.pending.InCall? && x.pending.call.Reserve? && x.pending.charged && !RequestLocked(s, t, x.pending.id)
             && x.pending.snap.budgetId in x.writes.budgets && x.pending.id in View(s.committed, x).requests
             && View(s.committed, x).requests[x.pending.id].status == x.pending.snap.status
             && View(s.committed, x).requests[x.pending.id].budgetId == x.pending.snap.budgetId
    ensures var s', x := Step(s, Settle(t)), TxOf(s, t);
            t in s'.txs && Owns(s'.txs[t], x.pending.id, x.pending.snap.budgetId) && s'.txs[t].pending == Idle
  {
  }

  // ----- its steps among others -----

  /** The actions of one transaction. */
  function Only(actions: seq<Action>, t: nat): seq<Action> {
    if actions == [] then []
    else Only(actions[..|actions| - 1], t) + if actions[|actions| - 1].t == t then [actions[|actions| - 1]] else []
  }

  /** Alone, the transaction is not rolled back before it begins another call. */
  ghost predicate ReadsAlive(t: nat, x: Tx, own: seq<Action>) {
    forall k :: 0 <= k < |own| && own[k].Read? ==> t in Run(Solo(t, x), own[..k]).txs
  }

  ghost predicate AllOwn(own: seq<Action>, t: nat, id: string) {
    forall k :: 0 <= k < |own| ==> OwnAction(own[k], t, id)
  }

  lemma OwnPrefix(t: nat, x: Tx, id: string, init: seq<Action>, last: Action)
    requires AllOwn(init + [last], t, id) && ReadsAlive(t, x, init + [last])
    ensures AllOwn(init, t, id) && ReadsAlive(t, x, init) && OwnAction(last, t, id)
    ensures last.Read? ==> t in Run(Solo(t, x), init).txs
  {
    var own := init + [last];
    assert own[|init|] == last && own[..|init|] == init;
    forall k | 0 <= k < |init| ensures OwnAction(init[k], t, id) && (init[k].Read? ==> t in Run(Solo(t, x), init[..k]).txs) {
      assert own[k] == init[k] && own[..k] == init[..k];
    }
  }

  /** Alone and among others the transaction is in the same state. */
  ghost predicate Same(s: System, alone: System, t: nat, id: string, b: string) {
    && (t in s.txs <==> t in alone.txs)
    && (t in s.txs ==> s.txs[t] == alone.txs[t] && Owns(s.txs[t], id, b))
    && (alone == if t in alone.txs then Solo(t, alone.txs[t]) else GONE)
  }

  lemma SameStep(s: System, alone: System, a: Action, t: nat, id: string, b: string)
    requires LocksOk(s) && Same(s, alone, t, id, b) && OwnAction(a, t, id)
    requires a.Read? ==> t in alone.txs
    ensures Same(Step(s, a), Step(alone, a), t, id, b)
  {
    if t in s.txs {
      OwnStepSame(s, t, a, id, b);
    }
  }

  /**
   Among any steps of others, a transaction that holds its rows comes to the state it would come to
   alone, and is rolled back exactly when it would be alone.
   */
  lemma {:induction false} Projection(s: System, actions: seq<Action>, t: nat, id: string, b: string)
    requires LocksOk(s) && t in s.txs && Owns(s.txs[t], id, b)
    requires AllOwn(Only(actions, t), t, id) && ReadsAlive(t, s.txs[t], Only(actions, t))
    ensures Same(Run(s, actions), Run(Solo(t, s.txs[t]), Only(actions, t)), t, id, b)
    decreases |actions|
  {
    if actions != [] {
      var init, a := actions[..|actions| - 1], actions[|actions| - 1];
      var own := Only(init, t);
      RunKeepsLocks(s, init);
      if a.t == t {
        assert Only(actions, t) == own + [a];
        OwnPrefix(t, s.txs[t], id, own, a);
        Projection(s, init, t, id, b);
        OwnProjected(s, init, a, t, id, b);
      } else {
        assert Only(actions, t) == own;
        Projection(s, init, t, id, b);
        OtherProjected(Run(s, init), Run(Solo(t, s.txs[t]), own), a, t, id, b);
      }
    }
  }

  lemma OwnProjected(s: System, init: seq<Action>, a: Action, t: nat, id: string, b: string)
    requires t in s.txs && LocksOk(Run(s, init)) && OwnAction(a, t, id)
    requires Same(Run(s, init), Run(Solo(t, s.txs[t]), Only(init, t)), t, id, b)
    requires a.Read? ==> t in Run(Solo(t, s.txs[t]), Only(init, t)).txs
    ensures Same(Step(Run(s, init), a), Run(Solo(t, s.txs[t]), Only(init, t) + [a]), t, id, b)
  {
    RunSnoc(Solo(t, s.txs[t]), Only(init, t), a);
    SameStep(Run(s, init), Run(Solo(t, s.txs[t]), Only(init, t)), a, t, id, b);
  }

  lemma OtherProjected(s: System, alone: System, a: Action, t: nat, id: string, b: string)
    requires Same(s, alone, t, id, b) && a.t != t
    ensures Same(Step(s, a), alone, t, id, b)
  {
    OthersKeep(s, a, t);
  }

  // ----- its calls -----

  /** The steps of several calls on one request. */
  function StepsOf(t: nat, id: string, calls: seq<Call>): seq<Action> {
    if calls == [] then [] else AndCall(StepsOf(t, id, calls[..|calls| - 1]), t, id, calls[|calls| - 1])
  }

  lemma {:induction false} StepsAreOwn(t: nat, id: string, calls: seq<Call>)
    ensures AllOwn(StepsOf(t, id, calls), t, id)
  {
    if calls != [] {
      StepsAreOwn(t, id, calls[..|calls| - 1]);
    }
  }

  /** The state of a transaction alone after calls that are all accepted. */
  ghost predicate Reached(t: nat, s: System, writes: Tables) {
    t in s.txs && s == Solo(t, Tx(writes, Idle))
  }

  /** One call, alone. */
  lemma CallAlone(t: nat, writes: Tables, id: string, call: Call)
    requires id in writes.requests
    ensures match Perform(writes, id, call)
            case Ok(after) => Reached(t, CallSteps(Solo(t, Tx(writes, Idle)), t, id, call), after)
            case Err(_) => CallSteps(Solo(t, Tx(writes, Idle)), t, id, call) == GONE
  {
    var x := Tx(writes, Idle);
    var s := Solo(t, x);
    ViewAlone(x);
    CallStepsPerform(s, t, id, call);
    var s' := CallSteps(s, t, id, call);
    OnlyOne(s, Read(t, id, call));
    OnlyOne(Step(s, Read(t, id, call)), Charge(t));
    OnlyOne(Step(Step(s, Read(t, id, call)), Charge(t)), Settle(t));
    if Perform(writes, id, call).Ok? {
      ViewAlone(TxOf(s', t));
      assert t in s'.txs;
      assert s'.txs == map[t := s'.txs[t]];
    } else {
      assert map[t := x] - {t} == map[];
    }
  }

  lemma OnlyOne(s: System, a: Action)
    requires s.txs.Keys <= {a.t}
    ensures Step(s, a).txs.Keys <= {a.t}
  {
  }

  /** Alone, calls that are all accepted lead to the tables of the reference. */
  lemma {:induction false} CallsAlone(t: nat, writes: Tables, id: string, calls: seq<Call>)
    requires id in writes.requests && PerformAll(writes, id, calls).Ok?
    ensures Reached(t, Run(Solo(t, Tx(writes, Idle)), StepsOf(t, id, calls)), PerformAll(writes, id, calls).value)
    ensures id in PerformAll(writes, id, calls).value.requests
    decreases |calls|
  {
    if calls != [] {
      var init, call := calls[..|calls| - 1], calls[|calls| - 1];
      CallsAlone(t, writes, id, init);
      RunCall(Solo(t, Tx(writes, Idle)), StepsOf(t, id, init), t, id, call);
      CallAlone(t, PerformAll(writes, id, init).value, id, call);
    }
  }

  lemma {:induction false} CallsReadAlive(t: nat, writes: Tables, id: string, calls: seq<Call>)
    requires id in writes.requests && (calls != [] ==> PerformAll(writes, id, calls[..|calls| - 1]).Ok?)
    ensures ReadsAlive(t, Tx(writes, Idle), StepsOf(t, id, calls))
    decreases |calls|
  {
    if calls != [] {
      var init, call := calls[..|calls| - 1], calls[|calls| - 1];
      CallsReadAlive(t, writes, id, init);
      CallsAlone(t, writes, id, init);
      var before, own := StepsOf(t, id, init), StepsOf(t, id, calls);
      assert own == before + [Read(t, id, call), Charge(t), Settle(t)];
      forall k | 0 <= k < |own| && own[k].Read? ensures t in Run(Solo(t, Tx(writes, Idle)), own[..k]).txs {
        if k < |before| {
          assert own[k] == before[k] && own[..k] == before[..k];
        } else {
          assert k == |before| && own[..k] == before;
        }
      }
    }
  }

  /**
   The calls of a transaction that holds its rows, among any steps of others: if the reference accepts
   them all, the transaction ends with exactly its tables; if it refuses the last, the transaction is
   rolled back.
   */
  lemma CallsAmongOthers(s: System, actions: seq<Action>, t: nat, id: string, b: string, calls: seq<Call>)
    requires LocksOk(s) && t in s.txs && Owns(s.txs[t], id, b) && s.txs[t].pending == Idle
    requires Only(actions, t) == StepsOf(t, id, calls)
    requires calls != [] ==> PerformAll(s.txs[t].writes, id, calls[..|calls| - 1]).Ok?
    ensures match PerformAll(s.txs[t].writes, id, calls)
            case Ok(after) => t in Run(s, actions).txs && Run(s, actions).txs[t] == Tx(after, Idle)
            case Err(_) => t !in Run(s, actions).txs
  {
    var writes := s.txs[t].writes;
    StepsAreOwn(t, id, calls);
    CallsReadAlive(t, writes, id, calls);
    Projection(s, actions, t, id, b);
    if PerformAll(writes, id, calls).Ok? {
      CallsAlone(t, writes, id, calls);
    } else {
      var init, call := calls[..|calls| - 1], calls[|calls| - 1];
      CallsAlone(t, writes, id, init);
      RunCall(Solo(t, Tx(writes, Idle)), StepsOf(t, id, init), t, id, call);
      CallAlone(t, PerformAll(writes, id, init).value, id, call);
    }
  }

  // ----- the attempt loop -----

  /** The two tables agree on the request and on its budget row. */
  ghost predicate SameRows(t: Tables, u: Tables, id: string, b: string) {
    && id in t.requests && id in u.requests && t.requests[id] == u.requests[id] && t.requests[id].budgetId == b
    && b in t.budgets && b in u.budgets && t.budgets[b] == u.budgets[b]
  }

  lemma PerformLocal(t: Tables, u: Tables, id: string, b: string, call: Call)
    requires SameRows(t, u, id, b)
    ensures match Perform(t, id, call)
            case Ok(t') => Perform(u, id, call).Ok? && SameRows(t', Perform(u, id, call).value, id, b)
            case Err(e) => Perform(u, id, call) == Err(e)
  {
  }

  lemma {:induction false} PerformAllLocal(t: Tables, u: Tables, id: string, b: string, calls: seq<Call>)
    requires SameRows(t, u, id, b)
    ensures match PerformAll(t, id, calls)
            case Ok(t') => PerformAll(u, id, calls).Ok? && SameRows(t', PerformAll(u, id, calls).value, id, b)
            case Err(e) => PerformAll(u, id, calls) == Err(e)
    decreases |calls|
  {
    if calls != [] {
      var init := calls[..|calls| - 1];
      PerformAllLocal(t, u, id, b, init);
      if PerformAll(t, id, init).Ok? {
        PerformLocal(PerformAll(t, id, init).value, PerformAll(u, id, init).value, id, b, calls[|calls| - 1]);
      }
    }
  }

  /**
   The attempt loop for a fresh request, from its reservation to its end, among any steps of any other
   transactions. `trace` and `now` are what `Execute` reports: the tables at the reservation, the calls
   made from then on, the tables at the end. If no error is raised and the transaction commits, the
   committed request and budget rows are those `Execute` ends with, and the request is settled; if an
   error is raised, the transaction leaves nothing behind.
   */
  lemma ExecutionAmongOthers(before: Tables, now: Tables, attempts: map<(string, int), AiSession.Attempt>, p: RetryPolicy,
                             req: AiExecution.ExecutionRequest, w: AiExecution.World, trace: AiExecution.Trace,
                             out: AiExecution.Outcome, s: System, actions: seq<Action>, t: nat)
    requires PolicyOk(p) && AiExecution.Completes(before, now, attempts, p, req, w, trace, out)
    requires LocksOk(s) && t in s.txs && Owns(s.txs[t], req.id, req.budgetId) && s.txs[t].pending == Idle
    requires SameRows(trace.start, s.txs[t].writes, req.id, req.budgetId)
    requires Only(actions, t) == StepsOf(t, req.id, trace.calls)
    ensures if out.Raised? then t !in Run(s, actions).txs
            else var c := Step(Run(s, actions), CommitTx(t)).committed;
                 && SameRows(now, c, req.id, req.budgetId)
                 && c.requests[req.id].status in {Completed, Failed} && c.requests[req.id].reservedTokens == 0
  {
    var writes, id, b := s.txs[t].writes, req.id, req.budgetId;
    var calls := trace.calls;
    PerformAllLocal(trace.start, writes, id, b, calls);
    if calls != [] {
      PerformAllLocal(trace.start, writes, id, b, calls[..|calls| - 1]);
    }
    CallsAmongOthers(s, actions, t, id, b, calls);
    if !out.Raised? {
      var after := PerformAll(writes, id, calls).value;
      var r := Run(s, actions);
      assert TxOf(r, t) == Tx(after, Idle);
      assert View(r.committed, Tx(after, Idle)).requests[id] == after.requests[id];
      assert View(r.committed, Tx(after, Idle)).budgets[b] == after.budgets[b];
    }
  }
}
