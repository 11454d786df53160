/**
 Exactly when each call of the request service is accepted and what it leaves (karsasec/ai/request.py,
 karsasec/ai/budget.py), in terms of the rows alone, and what a repeated call is answered.
 */
module AiCalls {
  import opened Common
  import opened AiStateMachine
  import opened AiLedger
  import AiSerial

  /** The reservation of `tokens` more fits the budget. */
  ghost predicate Fits(t: Tables, b: string, tokens: int) {
    b in t.budgets && t.budgets[b].usedTokens + t.budgets[b].reservedTokens + tokens <= t.budgets[b].tokenLimit
  }

  /** All tokens of the request are counted as reserved by its budget. */
  ghost predicate Covered(t: Tables, r: Request) {
    r.budgetId in t.budgets && 0 <= r.reservedTokens <= t.budgets[r.budgetId].reservedTokens
  }

  /** Only the row of `id` and, if `b` is one, the row of that budget differ. */
  ghost predicate OnlyRows(t: Tables, u: Tables, id: string, b: Option<string>) {
    && id in t.requests && id in u.requests && u.requests == t.requests[id := u.requests[id]]
    && (if b.None? then u.budgets == t.budgets
        else b.value in t.budgets && b.value in u.budgets && u.budgets == t.budgets[b.value := u.budgets[b.value]])
  }

  lemma CreateAccepted(t: Tables, id: string, taskId: string, budgetId: string, promptHash: string, contextHash: string)
    ensures var r := PerformCreate(t, id, taskId, budgetId, promptHash, contextHash);
            && (r.Ok? <==>
                  && |promptHash| == 64 && |contextHash| == 64
                  && if id in t.requests
                     then var q := t.requests[id];
                          q.taskId == taskId && q.budgetId == budgetId && q.promptHash == promptHash && q.contextHash == contextHash
                     else budgetId in t.budgets)
            && (r.Ok? ==> r.value == if id in t.requests then t
                                     else t.(requests := t.requests[id :=
                                            Request(taskId, budgetId, promptHash, contextHash, Created, 0, 0, 0, None, None, 0)]))
  {
  }

  lemma ReserveAccepted(t: Tables, id: string, tokens: int)
    ensures var r := Perform(t, id, Reserve(tokens));
            && (r.Ok? <==>
                  && id in t.requests
                  && var q := t.requests[id];
                     || (q.status == Reserved && q.reservedTokens == tokens)
                     || (q.status == Created && tokens > 0 && Fits(t, q.budgetId, tokens)))
            && (r.Ok? && t.requests[id].status == Reserved ==> r.value == t)
            && (r.Ok? && t.requests[id].status == Created ==>
                  && OnlyRows(t, r.value, id, Some(t.requests[id].budgetId))
                  && r.value.requests[id] == t.requests[id].(status := Reserved, reservedTokens := tokens)
                  && var b := t.requests[id].budgetId;
                     r.value.budgets[b] == t.budgets[b].(reservedTokens := t.budgets[b].reservedTokens + tokens))
  {
    if id in t.requests {
      OnlyFromCreated(t.requests[id].status);
    }
  }

  lemma OnlyFromCreated(s: Status)
    ensures CanTransition(s, Reserved) <==> s == Created
  {
  }

  lemma OnlyFromInFlight(s: Status)
    ensures CanTransition(s, Completed) <==> s == InFlight
  {
  }

  lemma TransitionAccepted(t: Tables, id: string, expected: Status, next: Status, p: Option<string>, m: Option<string>)
    ensures var r := Perform(t, id, Transition(expected, next, p, m));
            && (r.Ok? <==> id in t.requests && t.requests[id].status == expected && CanTransition(expected, next))
            && (r.Ok? ==>
                  && OnlyRows(t, r.value, id, None)
                  && var q := t.requests[id];
                     r.value.requests[id] == q.(status := next, providerId := if p.Some? then p else q.providerId,
                                                modelId := if m.Some? then m else q.modelId))
  {
  }

  lemma CommitAccepted(t: Tables, id: string, actual: int, cost: int, p: Option<string>, m: Option<string>)
    requires id in t.requests ==> t.requests[id].reservedTokens >= 0
    ensures var r := Perform(t, id, Commit(actual, cost, p, m));
            && (r.Ok? <==>
                  && id in t.requests
                  && var q := t.requests[id];
                     || (q.status == Completed && q.committedTokens == actual && q.actualCost == cost)
                     || (q.status == InFlight && actual >= 0 && cost >= 0 && Covered(t, q) &&
                         t.budgets[q.budgetId].usedCost + cost <= t.budgets[q.budgetId].costLimit))
            && (r.Ok? && t.requests[id].status == Completed ==> r.value == t)
            && (r.Ok? && t.requests[id].status == InFlight ==>
                  && OnlyRows(t, r.value, id, Some(t.requests[id].budgetId))
                  && var q, b := t.requests[id], t.budgets[t.requests[id].budgetId];
                     && r.value.requests[id] ==
                        q.(status := Completed, reservedTokens := 0, committedTokens := actual, actualCost := cost,
                           providerId := if p.Some? then p else q.providerId,
                           modelId := if m.Some? then m else q.modelId, settledAgainst := q.reservedTokens)
                     && r.value.budgets[q.budgetId] ==
                        b.(reservedTokens := b.reservedTokens - q.reservedTokens, usedTokens := b.usedTokens + actual,
                           usedCost := b.usedCost + cost))
  {
    if id in t.requests {
      OnlyFromInFlight(t.requests[id].status);
    }
  }

  lemma ReleaseAccepted(t: Tables, id: string, target: Status)
    requires id in t.requests ==> t.requests[id].reservedTokens >= 0
    ensures var r := Perform(t, id, Release(target));
            && (r.Ok? <==>
                  && id in t.requests
                  && var q := t.requests[id];
                     if q.status in {Completed, Failed, Cancelled} then q.status == target
                     else CanTransition(q.status, target) && (q.reservedTokens == 0 || Covered(t, q)))
            && (r.Ok? && t.requests[id].status in {Completed, Failed, Cancelled} ==> r.value == t)
            && (r.Ok? && t.requests[id].status !in {Completed, Failed, Cancelled} ==>
                  && var q := t.requests[id];
                     && r.value.requests == t.requests[id := q.(status := target, reservedTokens := 0)]
                     && r.value.budgets == if q.reservedTokens == 0 then t.budgets
                                           else var b := t.budgets[q.budgetId];
                                                t.budgets[q.budgetId := b.(reservedTokens := b.reservedTokens - q.reservedTokens)])
  {
  }

  // ----- why a call is refused -----

  lemma CreateRefused(t: Tables, id: string, taskId: string, budgetId: string, promptHash: string, contextHash: string)
    requires PerformCreate(t, id, taskId, budgetId, promptHash, contextHash).Err?
    ensures PerformCreate(t, id, taskId, budgetId, promptHash, contextHash).error
         == if |promptHash| != 64 || |contextHash| != 64 then InvalidHash
            else if id in t.requests then IdempotencyConflict else BudgetNotFound
  {
  }

  lemma ReserveRefused(t: Tables, id: string, tokens: int)
    requires Perform(t, id, Reserve(tokens)).Err?
    ensures Perform(t, id, Reserve(tokens)).error
         == if id !in t.requests then RequestNotFound
            else if t.requests[id].status == Reserved then IdempotencyConflict
            else if t.requests[id].status != Created then InvalidTransition
            else if tokens <= 0 then InvalidAmount
            else if t.requests[id].budgetId !in t.budgets then BudgetNotFound
            else TokenLimitExceeded
  {
    if id in t.requests {
      OnlyFromCreated(t.requests[id].status);
    }
  }

  lemma TransitionRefused(t: Tables, id: string, expected: Status, next: Status, p: Option<string>, m: Option<string>)
    requires Perform(t, id, Transition(expected, next, p, m)).Err?
    ensures Perform(t, id, Transition(expected, next, p, m)).error
         == if id !in t.requests then RequestNotFound
            else if !CanTransition(expected, next) then InvalidTransition else StateConflict
  {
  }

  lemma CommitRefused(t: Tables, id: string, actual: int, cost: int, p: Option<string>, m: Option<string>)
    requires Perform(t, id, Commit(actual, cost, p, m)).Err?
    requires id in t.requests ==> t.requests[id].reservedTokens >= 0
    ensures Perform(t, id, Commit(actual, cost, p, m)).error
         == if id !in t.requests then RequestNotFound
            else if t.requests[id].status == Completed then IdempotencyConflict
            else if t.requests[id].status != InFlight then InvalidTransition
            else if actual < 0 || cost < 0 then InvalidAmount
            else if t.requests[id].budgetId !in t.budgets then BudgetNotFound
            else if !Covered(t, t.requests[id]) then InsufficientReserved
            else CostLimitExceeded
  {
    if id in t.requests {
      OnlyFromInFlight(t.requests[id].status);
    }
  }

  lemma ReleaseRefused(t: Tables, id: string, target: Status)
    requires Perform(t, id, Release(target)).Err?
    requires id in t.requests ==> t.requests[id].reservedTokens >= 0
    ensures Perform(t, id, Release(target)).error
         == if id !in t.requests then RequestNotFound
            else if t.requests[id].status in {Completed, Failed, Cancelled} || !CanTransition(t.requests[id].status, target)
            then InvalidTransition
            else if t.requests[id].budgetId !in t.budgets then BudgetNotFound
            else InsufficientReserved
  {
  }

  // ----- repeated calls over serial runs -----

  /** A request that has ended keeps its row whatever is called afterwards. */
  lemma {:induction false} EndedRowsStay(t: Tables, ops: seq<AiSerial.Op>, id: string)
    requires id in t.requests && t.requests[id].status in {Completed, Failed, Cancelled}
    ensures var s := AiSerial.Run(t, ops);
            && id in s.now.requests && s.now.requests[id] == t.requests[id]
            && id in s.saved.requests && s.saved.requests[id] == t.requests[id]
    decreases |ops|
  {
    if ops != [] {
      EndedRowsStay(t, ops[..|ops| - 1], id);
      var s, op := AiSerial.Run(t, ops[..|ops| - 1]), ops[|ops| - 1];
      EndedRowStays(s, op, id);
    }
  }

  lemma EndedRowStays(s: AiSerial.State, op: AiSerial.Op, id: string)
    requires id in s.now.requests && id in s.saved.requests && s.now.requests[id] == s.saved.requests[id]
    requires s.now.requests[id].status in {Completed, Failed, Cancelled}
    ensures var s' := AiSerial.Step(s, op);
            && id in s'.now.requests && s'.now.requests[id] == s.now.requests[id]
            && id in s'.saved.requests && s'.saved.requests[id] == s.now.requests[id]
  {
    if op.Do? && op.id == id {
      NothingFromEnded(s.now.requests[id].status);
    }
  }

  lemma NothingFromEnded(s: Status)
    requires s in {Completed, Failed, Cancelled}
    ensures forall next :: !CanTransition(s, next)
  {
  }

  /** A commit repeated after any serial run is accepted exactly when its figures are the first one's, and changes nothing. */
  lemma CommitRepeated(t: Tables, id: string, first: Call, ops: seq<AiSerial.Op>, again: Call)
    requires first.Commit? && again.Commit? && Perform(t, id, first).Ok?
    ensures var now := AiSerial.Run(Perform(t, id, first).value, ops).now;
            Perform(now, id, again) == if again.actual == first.actual && again.cost == first.cost then Ok(now)
                                       else Err(IdempotencyConflict)
  {
    var after := Perform(t, id, first).value;
    assert id in after.requests && after.requests[id].status == Completed;
    assert after.requests[id].committedTokens == first.actual && after.requests[id].actualCost == first.cost;
    EndedRowsStay(after, ops, id);
  }

  /** A release repeated after any serial run is accepted exactly when it names the status the request ended in. */
  lemma ReleaseRepeated(t: Tables, id: string, target: Status, ops: seq<AiSerial.Op>, again: Status)
    requires target in {Completed, Failed, Cancelled} && Perform(t, id, Release(target)).Ok?
    ensures var now := AiSerial.Run(Perform(t, id, Release(target)).value, ops).now;
            Perform(now, id, Release(again)) == if again == target then Ok(now) else Err(InvalidTransition)
  {
    var after := Perform(t, id, Release(target)).value;
    assert id in after.requests && after.requests[id].status == target;
    EndedRowsStay(after, ops, id);
  }

  /** While the request stands at RESERVED, it does so with the tokens it reserved first. */
  ghost predicate AsReserved(t: Tables, id: string, r: Request) {
    id in t.requests && (t.requests[id] == r || t.requests[id].status !in {Created, Reserved})
  }

  lemma AsReservedStays(s: AiSerial.State, op: AiSerial.Op, id: string, r: Request)
    requires r.status == Reserved && AsReserved(s.now, id, r) && AsReserved(s.saved, id, r)
    ensures AsReserved(AiSerial.Step(s, op).now, id, r) && AsReserved(AiSerial.Step(s, op).saved, id, r)
  {
    if op.Do? && op.id == id {
      NeverReservedAgain(s.now.requests[id].status);
    }
  }

  lemma NeverReservedAgain(s: Status)
    requires s != Created
    ensures !CanTransition(s, Reserved) && !CanTransition(s, Created)
  {
  }

  lemma {:induction false} ReservedRowsStay(t: Tables, ops: seq<AiSerial.Op>, id: string)
    requires id in t.requests && t.requests[id].status == Reserved
    ensures AsReserved(AiSerial.Run(t, ops).now, id, t.requests[id]) && AsReserved(AiSerial.Run(t, ops).saved, id, t.requests[id])
    decreases |ops|
  {
    if ops != [] {
      ReservedRowsStay(t, ops[..|ops| - 1], id);
      AsReservedStays(AiSerial.Run(t, ops[..|ops| - 1]), ops[|ops| - 1], id, t.requests[id]);
    }
  }

  /** A reservation repeated while the request still stands at RESERVED is accepted exactly when it asks for as many tokens. */
  lemma ReserveRepeated(t: Tables, id: string, tokens: int, ops: seq<AiSerial.Op>, again: int)
    requires Perform(t, id, Reserve(tokens)).Ok?
    ensures var now := AiSerial.Run(Perform(t, id, Reserve(tokens)).value, ops).now;
            && id in now.requests
            && (now.requests[id].status == Reserved ==>
                  Perform(now, id, Reserve(again)) == if again == tokens then Ok(now) else Err(IdempotencyConflict))
            && (now.requests[id].status != Reserved ==> Perform(now, id, Reserve(again)) == Err(InvalidTransition))
  {
    var after := Perform(t, id, Reserve(tokens)).value;
    ReserveAccepted(t, id, tokens);
    assert after.requests[id].status == Reserved && after.requests[id].reservedTokens == tokens;
    ReservedRowsStay(after, ops, id);
    var now := AiSerial.Run(after, ops).now;
    if now.requests[id].status != Reserved {
      NeverReservedAgain(now.requests[id].status);
    }
  }
}
