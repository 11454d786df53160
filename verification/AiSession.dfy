/**
 One database session and the services that work on it (karsasec/ai/budget.py,
 karsasec/ai/request.py). A session sees its own writes; nothing else runs in between here, so the
 compare-and-set of each method finds the status that was read (AiInterleaving has the other case).
 */
module AiSession {
  import opened Common
  import opened AiStateMachine
  import opened AiLedger

  datatype AttemptStatus = AttemptInFlight | AttemptCompleted | AttemptFailed

  datatype Attempt = Attempt(providerId: string, modelId: string, status: AttemptStatus, errorClass: Option<string>,
                             inputTokens: int, outputTokens: int)

  /** The state after a call is the reference call's; a refused call changes nothing. */
  ghost predicate Performed(before: Tables, now: Tables, id: string, call: Call, r: Result<()>) {
    match Perform(before, id, call)
    case Ok(after) => r == Ok(()) && now == after
    case Err(e) => r == Err(e) && now == before
  }

  class Session {
    var budgets: map<string, Budget>
    var requests: map<string, Request>
    var attempts: map<(string, int), Attempt>
    /** What a rollback returns to. */
    var savedTables: Tables
    var savedAttempts: map<(string, int), Attempt>

    ghost function Now(): Tables
      reads this
    {
      Tables(budgets, requests)
    }

    constructor (t: Tables, attempts: map<(string, int), Attempt>)
      ensures Now() == t && this.attempts == attempts && savedTables == t && savedAttempts == attempts
    {
      budgets, requests, this.attempts := t.budgets, t.requests, attempts;
      savedTables, savedAttempts := t, attempts;
    }

    method Rollback()
      modifies this
      ensures Now() == savedTables == old(savedTables) && attempts == savedAttempts == old(savedAttempts)
    {
      budgets, requests, attempts := savedTables.budgets, savedTables.requests, savedAttempts;
    }

    // ----- AIBudgetService -----

    method ReserveTokens(budgetId: string, tokens: int) returns (r: Result<()>)
      modifies this`budgets
      ensures match ReserveRow(Row(old(budgets), budgetId), tokens)
              case Ok(row) => r == Ok(()) && budgets == old(budgets)[budgetId := row]
              case Err(e) => r == Err(e) && budgets == old(budgets)
    {
      if tokens <= 0 {
        return Err(InvalidAmount);
      }
      if budgetId in budgets && budgets[budgetId].usedTokens + budgets[budgetId].reservedTokens + tokens <= budgets[budgetId].tokenLimit {
        var b := budgets[budgetId];
        budgets := budgets[budgetId := b.(reservedTokens := b.reservedTokens + tokens)];
        return Ok(());
      }
      if budgetId !in budgets {
        return Err(BudgetNotFound);
      }
      r := Err(TokenLimitExceeded);
    }

    method CommitTokens(budgetId: string, reserved: int, actual: int, cost: int) returns (r: Result<()>)
      modifies this`budgets
      ensures match CommitRow(Row(old(budgets), budgetId), reserved, actual, cost)
              case Ok(row) => r == Ok(()) && budgets == old(budgets)[budgetId := row]
              case Err(e) => r == Err(e) && budgets == old(budgets)
    {
      if reserved < 0 || actual < 0 || cost < 0 {
        return Err(InvalidAmount);
      }
      if budgetId in budgets && budgets[budgetId].reservedTokens >= reserved &&
         budgets[budgetId].usedCost + cost <= budgets[budgetId].costLimit {
        var b := budgets[budgetId];
        budgets := budgets[budgetId := b.(reservedTokens := b.reservedTokens - reserved,
                                          usedTokens := b.usedTokens + actual, usedCost := b.usedCost + cost)];
        return Ok(());
      }
      if budgetId !in budgets {
        return Err(BudgetNotFound);
      }
      if budgets[budgetId].reservedTokens < reserved {
        return Err(InsufficientReserved);
      }
      r := Err(CostLimitExceeded);
    }

    method ReleaseTokens(budgetId: string, tokens: int) returns (r: Result<()>)
      modifies this`budgets
      ensures if tokens == 0 then r == Ok(()) && budgets == old(budgets)
              else match ReleaseRow(Row(old(budgets), budgetId), tokens)
                   case Ok(row) => r == Ok(()) && budgets == old(budgets)[budgetId := row]
                   case Err(e) => r == Err(e) && budgets == old(budgets)
    {
      if tokens < 0 {
        return Err(InvalidAmount);
      }
      if tokens == 0 {
        return Ok(());
      }
      if budgetId in budgets && budgets[budgetId].reservedTokens >= tokens {
        var b := budgets[budgetId];
        budgets := budgets[budgetId := b.(reservedTokens := b.reservedTokens - tokens)];
        return Ok(());
      }
      if budgetId !in budgets {
        return Err(BudgetNotFound);
      }
      r := Err(InsufficientReserved);
    }

    // ----- AIRequestStateService -----

    method CreateRequest(id: string, taskId: string, budgetId: string, promptHash: string, contextHash: string)
        returns (r: Result<()>)
      modifies this
      ensures savedTables == old(savedTables) && savedAttempts == old(savedAttempts)
      ensures r.Ok? ==> id in requests && requests[id].taskId == taskId && requests[id].budgetId == budgetId
      ensures r.Ok? ==> requests[id].promptHash == promptHash && requests[id].contextHash == contextHash
      ensures r.Ok? && id in old(requests) ==> Now() == old(Now())
      ensures match PerformCreate(old(Now()), id, taskId, budgetId, promptHash, contextHash)
              case Ok(after) => r == Ok(()) && Now() == after && attempts == old(attempts)
              case Err(e) =>
                r == Err(e) && if e == BudgetNotFound then Now() == savedTables && attempts == savedAttempts
                               else Now() == old(Now()) && attempts == old(attempts)
    {
      if |promptHash| != 64 || |contextHash| != 64 {
        return Err(InvalidHash);
      }
      if id in requests {
        if SameIdentity(requests[id], taskId, budgetId, promptHash, contextHash) {
          return Ok(());
        }
        return Err(IdempotencyConflict);
      }
      if budgetId !in budgets {
        // The insert violates the foreign key: the session rolls back and the error is raised again.
        Rollback();
        return Err(BudgetNotFound);
      }
      requests := requests[id := FreshRequest(taskId, budgetId, promptHash, contextHash)];
      r := Ok(());
    }

    method ReserveBudget(id: string, tokens: int) returns (r: Result<()>)
      modifies this`budgets, this`requests
      ensures Performed(old(Now()), Now(), id, Reserve(tokens), r)
      ensures r.Ok? ==> id in requests && requests[id].status == Reserved && requests[id].reservedTokens == tokens
      ensures r.Ok? && id in old(requests) && old(requests)[id].status == Reserved ==> Now() == old(Now())
    {
      if id !in requests {
        return Err(RequestNotFound);
      }
      var request := requests[id];
      if request.status == Reserved {
        if request.reservedTokens == tokens {
          return Ok(());
        }
        return Err(IdempotencyConflict);
      }
      if !CanTransition(request.status, Reserved) {
        return Err(InvalidTransition);
      }
      r := ReserveTokens(request.budgetId, tokens);
      if r.Ok? {
        requests := requests[id := requests[id].(status := Reserved, reservedTokens := tokens)];
      }
    }

    method TransitionStatus(id: string, expected: Status, next: Status, providerId: Option<string>, modelId: Option<string>)
        returns (r: Result<()>)
      modifies this`requests
      ensures Performed(old(Now()), Now(), id, Transition(expected, next, providerId, modelId), r)
      ensures r.Ok? ==> id in old(requests) && old(requests)[id].status == expected && id in requests && requests[id].status == next
      ensures r.Ok? && providerId.Some? ==> requests[id].providerId == providerId
      ensures r.Ok? && modelId.Some? ==> requests[id].modelId == modelId
    {
      if id !in requests {
        return Err(RequestNotFound);
      }
      if !CanTransition(expected, next) {
        return Err(InvalidTransition);
      }
      var request := requests[id];
      if request.status != expected {
        return Err(StateConflict);
      }
      request := request.(status := next);
      if providerId.Some? {
        request := request.(providerId := providerId);
      }
      if modelId.Some? {
        request := request.(modelId := modelId);
      }
      requests := requests[id := request];
      r := Ok(());
    }

    method CommitExecution(id: string, actual: int, cost: int, providerId: Option<string>, modelId: Option<string>)
        returns (r: Result<()>)
      modifies this`budgets, this`requests
      ensures Performed(old(Now()), Now(), id, Commit(actual, cost, providerId, modelId), r)
      ensures r.Ok? ==> id in requests && requests[id].status == Completed
      ensures r.Ok? ==> requests[id].committedTokens == actual && requests[id].actualCost == cost
      ensures r.Ok? && id in old(requests) && old(requests)[id].status == Completed ==> Now() == old(Now())
    {
      if id !in requests {
        return Err(RequestNotFound);
      }
      var request := requests[id];
      if request.status == Completed {
        if request.committedTokens == actual && request.actualCost == cost {
          return Ok(());
        }
        return Err(IdempotencyConflict);
      }
      if !CanTransition(request.status, Completed) {
        return Err(InvalidTransition);
      }
      r := CommitTokens(request.budgetId, request.reservedTokens, actual, cost);
      if r.Ok? {
        var row := requests[id].(status := Completed, committedTokens := actual, actualCost := cost,
                                 reservedTokens := 0, settledAgainst := request.reservedTokens);
        if providerId.Some? {
          row := row.(providerId := providerId);
        }
        if modelId.Some? {
          row := row.(modelId := modelId);
        }
        requests := requests[id := row];
      }
    }

    method ReleaseReservation(id: string, target: Status) returns (r: Result<()>)
      modifies this`budgets, this`requests
      ensures Performed(old(Now()), Now(), id, Release(target), r)
      ensures r.Ok? ==> id in requests && requests[id].status == target
      ensures r.Ok? && id in old(requests) && old(requests)[id].status == target ==> Now() == old(Now())
      ensures r.Ok? && id in old(requests) && old(requests)[id].status != target ==> requests[id].reservedTokens == 0
    {
      if id !in requests {
        return Err(RequestNotFound);
      }
      var request := requests[id];
      if IsTerminal(request.status) {
        if request.status == target {
          return Ok(());
        }
        return Err(InvalidTransition);
      }
      if !CanTransition(request.status, target) {
        return Err(InvalidTransition);
      }
      r := Ok(());
      if request.reservedTokens > 0 {
        r := ReleaseTokens(request.budgetId, request.reservedTokens);
      }
      if r.Ok? {
        requests := requests[id := requests[id].(status := target, reservedTokens := 0)];
      }
    }

    // ----- attempt rows -----

    /** Inserts the row of one attempt; a second row with the same number rolls the session back. */
    method RecordAttempt(id: string, number: int, providerId: string, modelId: string) returns (ok: bool)
      modifies this
      ensures savedTables == old(savedTables) && savedAttempts == old(savedAttempts)
      ensures ok <==> number >= 1 && (id, number) !in old(attempts)
      ensures ok ==> Now() == old(Now()) &&
                     attempts == old(attempts)[(id, number) := Attempt(providerId, modelId, AttemptInFlight, None, 0, 0)]
      ensures !ok && number >= 1 ==> Now() == savedTables && attempts == savedAttempts
      ensures number < 1 ==> Now() == old(Now()) && attempts == old(attempts)
    {
      if number < 1 {
        return false;
      }
      if (id, number) in attempts {
        Rollback();
        return false;
      }
      attempts := attempts[(id, number) := Attempt(providerId, modelId, AttemptInFlight, None, 0, 0)];
      ok := true;
    }

    /** A successful response: its tokens are recorded. */
    method CompleteAttempt(id: string, number: int, inputTokens: int, outputTokens: int)
      requires (id, number) in attempts
      modifies this`attempts
      ensures attempts == old(attempts)[(id, number) := old(attempts)[(id, number)].(
                                          status := AttemptCompleted, inputTokens := inputTokens, outputTokens := outputTokens)]
    {
      attempts := attempts[(id, number) := attempts[(id, number)].(
                             status := AttemptCompleted, inputTokens := inputTokens, outputTokens := outputTokens)];
    }

    /** A failed one: its error class is. */
    method FailAttempt(id: string, number: int, errorClass: string)
      requires (id, number) in attempts
      modifies this`attempts
      ensures attempts == old(attempts)[(id, number) := old(attempts)[(id, number)].(
                                          status := AttemptFailed, errorClass := Some(errorClass))]
    {
      attempts := attempts[(id, number) := attempts[(id, number)].(status := AttemptFailed, errorClass := Some(errorClass))];
    }
  }
}
