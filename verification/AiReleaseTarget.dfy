/**
 Where a release may move a request (karsasec/ai/request.py). `release_reservation` documents its
 target as a terminal status but accepts every status that the state machine allows. A release to a
 live status sets the reservation to zero while the status can still come back to the value another
 transaction has read, and then that transaction gives the same tokens back a second time.
 */
module AiReleaseTarget {
  import opened Common
  import opened AiStateMachine
  import opened AiLedger
  import opened AiInterleaving
  import AiSerial

  // ----- the tables of the counterexample -----

  /** The live statuses form a cycle of legal transitions. */
  function Next(s: Status): Status {
    match s
    case Routed => InFlight
    case InFlight => ProviderFailed
    case _ => Routed
  }

  lemma CycleOfLive(s: Status)
    requires Live(s)
    ensures Live(Next(s)) && Next(Next(Next(s))) == s
    ensures CanTransition(s, Next(s)) && CanTransition(s, Failed)
  {
  }

  /** Sixty-four characters, as a hash has them. */
  function SomeHash(): (h: string)
    ensures |h| == 64
  {
    seq(64, _ => 'a')
  }

  function RequestK(status: Status, held: int): Request {
    Request("t", "b", SomeHash(), SomeHash(), status, held, 0, 0, None, None, 0)
  }

  function BudgetRow(reserved: int): Budget { Budget(1000, 0, reserved, 1000, 0) }

  /** The request "k" and its budget row; another request of the budget holds 100 tokens. */
  function TablesWith(status: Status, held: int, reserved: int): Tables {
    Tables(map["b" := BudgetRow(reserved)], map["k" := RequestK(status, held), "j" := RequestK(Routed, 100)])
  }

  function Start(from: Status): System {
    System(TablesWith(from, 100, 200), map[])
  }

  function Move(from: Status): Call {
    Transition(from, Next(from), None, None)
  }

  /**
   Transaction 1 has read the request. Transaction 2 releases it to the live status after `from`
   and moves it on until it is back at `from`.
   */
  function Reopening(from: Status): seq<Action> {
    var released := AndCall([Read(1, "k", Release(Failed))], 2, "k", Release(Next(from)));
    AndCall(AndCall(released, 2, "k", Move(Next(from))), 2, "k", Move(Next(Next(from))))
  }

  /** Transaction 2 commits, and transaction 1 goes on. */
  function Replay(from: Status): seq<Action> {
    Reopening(from) + [CommitTx(2)] + [Charge(1)] + [Settle(1)] + [CommitTx(1)]
  }

  // ----- its states, one after the other -----

  const UNWRITTEN := Tables(map[], map[])

  /** Transaction 1 has read the request while it held its reservation. */
  function Reading(from: Status): Tx { Tx(UNWRITTEN, Ending(from, false)) }

  function Ending(from: Status, charged: bool): Pending {
    InCall("k", Release(Failed), RequestK(from, 100), charged)
  }

  function During(from: Status, x: Tx): System {
    System(Start(from).committed, map[1 := Reading(from), 2 := x])
  }

  /** Transaction 2 has released the request, which has come to `status`. */
  function Writing(status: Status): Tx {
    Tx(Tables(map["b" := BudgetRow(100)], map["k" := RequestK(status, 0)]), Idle)
  }

  function Releasing(from: Status, charged: bool): Tx {
    Tx(if charged then Tables(map["b" := BudgetRow(100)], map[]) else UNWRITTEN,
       InCall("k", Release(Next(from)), RequestK(from, 100), charged))
  }

  lemma FirstRead(from: Status)
    requires Live(from)
    ensures Run(Start(from), [Read(1, "k", Release(Failed))]) == System(Start(from).committed, map[1 := Reading(from)])
  {
    CycleOfLive(from);
    RunSnoc(Start(from), [], Read(1, "k", Release(Failed)));
    assert [] + [Read(1, "k", Release(Failed))] == [Read(1, "k", Release(Failed))];
    assert View(Start(from).committed, NEW_TX) == Start(from).committed;
  }

  lemma ReleaseRead(from: Status)
    requires Live(from)
    ensures Step(System(Start(from).committed, map[1 := Reading(from)]), Read(2, "k", Release(Next(from))))
         == During(from, Releasing(from, false))
  {
    CycleOfLive(from);
    assert View(Start(from).committed, NEW_TX) == Start(from).committed;
  }

  lemma ReleaseCharged(from: Status)
    ensures Step(During(from, Releasing(from, false)), Charge(2)) == During(from, Releasing(from, true))
  {
    var x := Releasing(from, false);
    assert View(Start(from).committed, x) == Start(from).committed && !BudgetLocked(During(from, x), 2, "b");
    assert ChargeRow(Some(BudgetRow(200)), Release(Next(from)), RequestK(from, 100)) == Ok(BudgetRow(100));
  }

  lemma ReleaseSettled(from: Status)
    ensures Step(During(from, Releasing(from, true)), Settle(2)) == During(from, Writing(Next(from)))
  {
    var x := Releasing(from, true);
    assert View(Start(from).committed, x).requests == Start(from).committed.requests;
    assert !RequestLocked(During(from, x), 2, "k");
    SettleAlone(During(from, x), 2, x);
  }

  lemma Released(from: Status)
    requires Live(from)
    ensures CallSteps(System(Start(from).committed, map[1 := Reading(from)]), 2, "k", Release(Next(from)))
         == During(from, Writing(Next(from)))
  {
    ReleaseRead(from);
    ReleaseCharged(from);
    ReleaseSettled(from);
  }

  function Moving(status: Status, charged: bool): Tx {
    Writing(status).(pending := InCall("k", Move(status), RequestK(status, 0), charged))
  }

  lemma MoveRead(from: Status, status: Status)
    requires Live(status)
    ensures Step(During(from, Writing(status)), Read(2, "k", Move(status))) == During(from, Moving(status, false))
  {
    CycleOfLive(status);
    var s := During(from, Writing(status));
    assert Row(View(s.committed, TxOf(s, 2)).requests, "k") == Some(RequestK(status, 0));
    assert Put(s, 2, Moving(status, false)) == During(from, Moving(status, false));
  }

  lemma MoveCharged(from: Status, status: Status)
    ensures Step(During(from, Moving(status, false)), Charge(2)) == During(from, Moving(status, true))
  {
    assert Put(During(from, Moving(status, false)), 2, Moving(status, true)) == During(from, Moving(status, true));
  }

  lemma MoveWritten(status: Status)
    ensures WriteRequest(Moving(status, true), "k", Settled(Move(status), RequestK(status, 0))) == Writing(Next(status))
  {
    assert Settled(Move(status), RequestK(status, 0)) == RequestK(Next(status), 0);
  }

  lemma MoveSettled(from: Status, status: Status)
    ensures Step(During(from, Moving(status, true)), Settle(2)) == During(from, Writing(Next(status)))
  {
    var s, x := During(from, Moving(status, true)), Moving(status, true);
    assert !RequestLocked(s, 2, "k") && View(s.committed, x).requests["k"] == RequestK(status, 0);
    SettleAlone(s, 2, x);
    MoveWritten(status);
  }

  lemma Moved(from: Status, status: Status)
    requires Live(status)
    ensures CallSteps(During(from, Writing(status)), 2, "k", Move(status)) == During(from, Writing(Next(status)))
  {
    MoveRead(from, status);
    MoveCharged(from, status);
    MoveSettled(from, status);
  }

  function Alone(from: Status, x: Tx): System {
    System(TablesWith(from, 0, 100), map[1 := x])
  }

  lemma Committed(from: Status)
    ensures Step(During(from, Writing(from)), CommitTx(2)) == Alone(from, Reading(from))
  {
    assert View(Start(from).committed, Writing(from)) == TablesWith(from, 0, 100);
  }

  function Charged(from: Status): Tx {
    Tx(Tables(map["b" := BudgetRow(0)], map[]), Ending(from, true))
  }

  lemma ChargedAgain(from: Status)
    ensures Step(Alone(from, Reading(from)), Charge(1)) == Alone(from, Charged(from))
  {
    var s := Alone(from, Reading(from));
    assert View(s.committed, Reading(from)) == s.committed && !BudgetLocked(s, 1, "b");
    assert ChargeRow(Some(BudgetRow(100)), Release(Failed), RequestK(from, 100)) == Ok(BudgetRow(0));
    assert WriteBudget(Reading(from), "b", BudgetRow(0)) == Charged(from);
  }

  const DONE := Tx(Tables(map["b" := BudgetRow(0)], map["k" := RequestK(Failed, 0)]), Idle)

  lemma SettledAgain(from: Status)
    ensures Step(Alone(from, Charged(from)), Settle(1)) == Alone(from, DONE)
  {
    var s := Alone(from, Charged(from));
    assert View(s.committed, Charged(from)).requests == s.committed.requests && !RequestLocked(s, 1, "k");
    assert Settled(Release(Failed), RequestK(from, 0)) == RequestK(Failed, 0);
    assert WriteRequest(Charged(from), "k", RequestK(Failed, 0)) == DONE;
  }

  lemma CommittedAgain(from: Status)
    ensures Step(Alone(from, DONE), CommitTx(1)) == System(TablesWith(Failed, 0, 0), map[])
  {
    assert View(TablesWith(from, 0, 100), DONE) == TablesWith(Failed, 0, 0);
  }

  lemma ReopeningEnds(from: Status)
    requires Live(from)
    ensures Run(Start(from), Reopening(from)) == During(from, Writing(from))
  {
    CycleOfLive(from);
    CycleOfLive(Next(from));
    var a := [Read(1, "k", Release(Failed))];
    FirstRead(from);
    var b := AndCall(a, 2, "k", Release(Next(from)));
    RunCall(Start(from), a, 2, "k", Release(Next(from)));
    Released(from);
    var c := AndCall(b, 2, "k", Move(Next(from)));
    RunCall(Start(from), b, 2, "k", Move(Next(from)));
    Moved(from, Next(from));
    RunCall(Start(from), c, 2, "k", Move(Next(Next(from))));
    Moved(from, Next(Next(from)));
  }

  lemma ReplayEnds(from: Status)
    requires Live(from)
    ensures Run(Start(from), Replay(from)) == System(TablesWith(Failed, 0, 0), map[])
  {
    var actions := Reopening(from);
    ReopeningEnds(from);
    RunThree(Start(from), actions, CommitTx(2), Charge(1), Settle(1));
    RunSnoc(Start(from), actions + [CommitTx(2)] + [Charge(1)] + [Settle(1)], CommitTx(1));
    Committed(from);
    ChargedAgain(from);
    SettledAgain(from);
    CommittedAgain(from);
  }

  lemma TotalAtStart(from: Status, m: Measure)
    requires Live(from)
    ensures Total(Start(from).committed.requests, "b", m) == if m == HeldM then 200 else 0
  {
    var one := map["k" := RequestK(from, 100)];
    TotalWrite(map[], "k", RequestK(from, 100), "b", m);
    assert map[]["k" := RequestK(from, 100)] == one;
    TotalWrite(one, "j", RequestK(Routed, 100), "b", m);
    assert one["j" := RequestK(Routed, 100)] == Start(from).committed.requests;
    match m { case HeldM => case UsedM => case CostM => case OverrunM => }
  }

  lemma StartBalanced(from: Status)
    requires Live(from)
    ensures AtRest(true, Start(from))
  {
    TotalAtStart(from, HeldM);
    TotalAtStart(from, UsedM);
    TotalAtStart(from, CostM);
    TotalAtStart(from, OverrunM);
    assert BudgetOk(BudgetRow(200), Start(from).committed.requests, "b", NOTHING);
  }

  lemma StillHeld()
    ensures Total(TablesWith(Failed, 0, 0).requests, "b", HeldM) >= 100
  {
    var t := TablesWith(Failed, 0, 0);
    forall j | j in t.requests ensures Value(HeldM, t.requests[j]) >= 0 {
      assert j == "k" || j == "j";
    }
    RowWithinTotal(t.requests, "j", HeldM);
  }

  // ----- the condition -----

  /** Releases go to a terminal status, or to `target`. */
  ghost predicate ReleasesTo(target: Status, a: Action) {
    a.Read? && a.call.Release? ==> IsTerminal(a.call.target) || a.call.target == target
  }

  /** Every budget row equals the sums over its requests, and its cost is within the limit. */
  ghost predicate Conserved(t: Tables) {
    forall b :: b in t.budgets ==>
      && t.budgets[b].reservedTokens == Total(t.requests, b, HeldM)
      && t.budgets[b].usedTokens == Total(t.requests, b, UsedM)
      && t.budgets[b].usedCost == Total(t.requests, b, CostM) <= t.budgets[b].costLimit
  }

  ghost predicate AlwaysConserved(target: Status) {
    forall s, actions :: AtRest(false, s) && (forall a :: a in actions ==> ReleasesTo(target, a)) ==>
      Conserved(Run(s, actions).committed)
  }

  /**
   A release to a live status: a run that ends with nothing counted as reserved although a request
   holds 100 tokens.
   */
  lemma LiveReleaseBreaksConservation(target: Status)
    requires Live(target)
    ensures exists s, actions :: AtRest(true, s) && (forall a :: a in actions ==> ReleasesTo(target, a)) &&
              !Conserved(Run(s, actions).committed)
  {
    var from := Next(Next(target));
    CycleOfLive(target);
    CycleOfLive(Next(target));
    StartBalanced(from);
    ReplayEnds(from);
    StillHeld();
    forall a | a in Replay(from) ensures ReleasesTo(target, a) {
      OnlyToNext(from, a);
    }
    assert "b" in Run(Start(from), Replay(from)).committed.budgets;
  }

  lemma OnlyToNext(from: Status, a: Action)
    requires a in Replay(from)
    ensures ReleasesTo(Next(from), a)
  {
    if a.Read? && a.call.Release? {
      assert a == Read(1, "k", Release(Failed)) || a == Read(2, "k", Release(Next(from)));
    }
  }

  /** Conservation holds on every interleaving exactly when releases do not go to a live status. */
  lemma ConservedExactlyWhenNotLive(target: Status)
    ensures AlwaysConserved(target) <==> !Live(target)
  {
    if Live(target) {
      LiveReleaseBreaksConservation(target);
      var s, actions :| AtRest(true, s) && (forall a :: a in actions ==> ReleasesTo(target, a)) &&
        !Conserved(Run(s, actions).committed);
      WeakerAtRest(s);
    } else {
      forall s, actions | AtRest(false, s) && forall a :: a in actions ==> ReleasesTo(target, a)
        ensures Conserved(Run(s, actions).committed)
      {
        forall b | b in Run(s, actions).committed.budgets
          ensures var t := Run(s, actions).committed;
                  && t.budgets[b].reservedTokens == Total(t.requests, b, HeldM)
                  && t.budgets[b].usedTokens == Total(t.requests, b, UsedM)
                  && t.budgets[b].usedCost == Total(t.requests, b, CostM) <= t.budgets[b].costLimit
        {
          Conservation(s, actions, b);
        }
      }
    }
  }

  lemma WeakerAtRest(s: System)
    requires AtRest(true, s)
    ensures AtRest(false, s)
  {
  }

  // ----- a status moved straight to a terminal one -----

  /** What `ShortcutKeepsTokens` warns of: from tables in order, a request ends FAILED and still holds 100 tokens. */
  lemma ShortcutStrandsTokens()
    ensures var t := Start(Routed).committed;
            var r := Perform(t, "k", Transition(Routed, Failed, None, None));
            && Balanced(true, t) && r.Ok? && "k" in r.value.requests
            && r.value.requests["k"].status == Failed && r.value.requests["k"].reservedTokens == 100
            && !Balanced(true, r.value)
  {
    StartBalanced(Routed);
    AiSerial.ShortcutKeepsTokens(Start(Routed).committed, "k", Transition(Routed, Failed, None, None));
  }
}
