/**
 How far a token limit can be passed (karsasec/ai/budget.py): committing checks the cost limit, not
 the token limit, so a completed request may have used more than it reserved.
 */
module AiTokenOverrun {
  import opened Common
  import opened AiStateMachine
  import opened AiLedger
  import opened AiInterleaving

  /** Only transaction 1 is open; it is between calls and sees `tables`. */
  ghost predicate Sees(s: System, c: Tables, tables: Tables) {
    s.committed == c && s.txs.Keys <= {1} && TxOf(s, 1).pending == Idle && View(c, TxOf(s, 1)) == tables
  }

  lemma StepKeepsOthers(s: System, a: Action)
    requires a.t == 1 && s.txs.Keys <= {1}
    ensures Step(s, a).txs.Keys <= {1}
  {
  }

  /** A call that the reference accepts, made by the only open transaction. */
  lemma CallAlone(s: System, actions: seq<Action>, c: Tables, tables: Tables, call: Call)
    requires Sees(Run(s, actions), c, tables) && Perform(tables, "k", call).Ok?
    ensures Sees(Run(s, AndCall(actions, 1, "k", call)), c, Perform(tables, "k", call).value)
  {
    var s0 := Run(s, actions);
    RunCall(s, actions, 1, "k", call);
    CallStepsPerform(s0, 1, "k", call);
    StepKeepsOthers(s0, Read(1, "k", call));
    StepKeepsOthers(Step(s0, Read(1, "k", call)), Charge(1));
    StepKeepsOthers(Step(Step(s0, Read(1, "k", call)), Charge(1)), Settle(1));
  }

  function BudgetRow(used: int, reserved: int): Budget { Budget(1, used, reserved, 0, 0) }

  function RequestK(hash: string, status: Status, held: int): Request {
    Request("t", "b", hash, hash, status, held, 0, 0, None, None, 0)
  }

  function TablesWith(hash: string, status: Status, held: int): Tables {
    Tables(map["b" := BudgetRow(0, held)], map["k" := RequestK(hash, status, held)])
  }

  /** A budget of one token, and no request yet. */
  const START := System(Tables(map["b" := BudgetRow(0, 0)], map[]), map[])

  function EndTables(hash: string, d: int): Tables {
    Tables(map["b" := BudgetRow(1 + d, 0)],
           map["k" := Request("t", "b", hash, hash, Completed, 0, 1 + d, 0, None, None, 1)])
  }

  const TO_ROUTED := Transition(Reserved, Routed, None, None)
  const TO_IN_FLIGHT := Transition(Routed, InFlight, None, None)

  /** A request is created, reserves one token and is sent. */
  function Sent(hash: string): seq<Action> {
    var created := [Create(1, "k", "t", "b", hash, hash)];
    AndCall(AndCall(AndCall(created, 1, "k", Reserve(1)), 1, "k", TO_ROUTED), 1, "k", TO_IN_FLIGHT)
  }

  /** Then `1 + d` tokens are committed. */
  function Overrun(hash: string, d: int): seq<Action> {
    AndCall(Sent(hash), 1, "k", Commit(1 + d, 0, None, None)) + [CommitTx(1)]
  }

  lemma CreatedSeen(hash: string)
    requires |hash| == 64
    ensures Sees(Run(START, [Create(1, "k", "t", "b", hash, hash)]), START.committed, TablesWith(hash, Created, 0))
  {
    var create := Create(1, "k", "t", "b", hash, hash);
    RunSnoc(START, [], create);
    assert [] + [create] == [create];
    assert View(START.committed, NEW_TX) == START.committed;
    var x := WriteRequest(NEW_TX, "k", RequestK(hash, Created, 0));
    assert View(START.committed, x) == TablesWith(hash, Created, 0);
  }

  lemma Rewritten<T>(k: string, x: T, y: T)
    ensures map[k := x][k := y] == map[k := y]
  {
  }

  /** A call moves the only request and the only budget row. */
  lemma CallMoves(t: Tables, call: Call, b: Budget, r: Request, b': Budget, r': Request)
    requires t == Tables(map["b" := b], map["k" := r]) && r.budgetId == "b"
    requires Begin(Some(r), call) == Go && r' == Settled(call, r)
    requires if Charges(call, r) then ChargeRow(Some(b), call, r) == Ok(b') else b' == b
    ensures Perform(t, "k", call) == Ok(Tables(map["b" := b'], map["k" := r']))
  {
    Rewritten("b", b, b');
    Rewritten("k", r, r');
  }

  /** One more call on the way to IN_FLIGHT. */
  lemma Advance(hash: string, actions: seq<Action>, status: Status, held: int, call: Call, next: Status)
    requires Sees(Run(START, actions), START.committed, TablesWith(hash, status, held))
    requires Begin(Some(RequestK(hash, status, held)), call) == Go
    requires Settled(call, RequestK(hash, status, held)) == RequestK(hash, next, 1)
    requires if call == Reserve(1) then held == 0 else call.Transition? && held == 1
    ensures Sees(Run(START, AndCall(actions, 1, "k", call)), START.committed, TablesWith(hash, next, 1))
  {
    var t := TablesWith(hash, status, held);
    CallMoves(t, call, BudgetRow(0, held), RequestK(hash, status, held), BudgetRow(0, 1), RequestK(hash, next, 1));
    CallAlone(START, actions, START.committed, t, call);
  }

  lemma SentSeen(hash: string)
    requires |hash| == 64
    ensures Sees(Run(START, Sent(hash)), START.committed, TablesWith(hash, InFlight, 1))
  {
    var created := [Create(1, "k", "t", "b", hash, hash)];
    CreatedSeen(hash);
    Advance(hash, created, Created, 0, Reserve(1), Reserved);
    var reserved := AndCall(created, 1, "k", Reserve(1));
    Advance(hash, reserved, Reserved, 1, TO_ROUTED, Routed);
    Advance(hash, AndCall(reserved, 1, "k", TO_ROUTED), Routed, 1, TO_IN_FLIGHT, InFlight);
  }

  lemma OverrunEnds(hash: string, d: int)
    requires |hash| == 64 && d > 0
    ensures Run(START, Overrun(hash, d)).committed == EndTables(hash, d)
  {
    SentSeen(hash);
    var commit := Commit(1 + d, 0, None, None);
    CallMoves(TablesWith(hash, InFlight, 1), commit, BudgetRow(0, 1), RequestK(hash, InFlight, 1),
              BudgetRow(1 + d, 0), EndTables(hash, d).requests["k"]);
    CallAlone(START, Sent(hash), START.committed, TablesWith(hash, InFlight, 1), commit);
    RunSnoc(START, AndCall(Sent(hash), 1, "k", commit), CommitTx(1));
  }

  lemma EndTotal(hash: string, d: int)
    requires d > 0
    ensures Total(EndTables(hash, d).requests, "b", OverrunM) == d
  {
    var r := EndTables(hash, d).requests["k"];
    TotalWrite(map[], "k", r, "b", OverrunM);
    assert map[]["k" := r] == EndTables(hash, d).requests;
  }

  lemma CallersRuleKept(hash: string, d: int, a: Action)
    requires a in Overrun(hash, d)
    ensures ActionOk(true, a)
  {
  }

  /** The bound of `TokenLimit` is reached: for every `d` some run passes the limit by exactly `d`. */
  lemma LimitPassedByAny(hash: string, d: int) returns (s: System, actions: seq<Action>)
    requires |hash| == 64 && d > 0
    ensures AtRest(true, s) && forall a :: a in actions ==> ActionOk(true, a)
    ensures var t := Run(s, actions).committed;
            && "b" in t.budgets && Total(t.requests, "b", OverrunM) == d
            && t.budgets["b"].usedTokens + t.budgets["b"].reservedTokens == t.budgets["b"].tokenLimit + d
  {
    s, actions := START, Overrun(hash, d);
    OverrunEnds(hash, d);
    EndTotal(hash, d);
    forall a | a in actions ensures ActionOk(true, a) {
      CallersRuleKept(hash, d, a);
    }
  }
}
