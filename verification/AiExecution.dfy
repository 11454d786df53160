/** The attempt loop over one request (karsasec/ai/execution.py). */
module AiExecution {
  import opened Common
  import opened AiStateMachine
  import opened AiLedger
  import opened AiSession
  import opened AiRetry

  datatype ExecutionRequest = ExecutionRequest(
    id: string, taskId: string, budgetId: string, promptHash: string, contextHash: string,
    estimatedInput: int, estimatedOutput: int, maxAttempts: int)

  datatype Response = Response(success: bool, inputTokens: int, outputTokens: int, cost: int, errorClass: Option<string>)

  datatype Outcome =
    | Returned(response: Response)
    | Raised(error: Error)
    | NoEligibleProvider
    | AttemptConflict

  /**
   What happened, for the statement of the result: was the reservation passed, how many attempts, which
   statuses, from which tables and attempt rows the request service was called how after the reservation.
   */
  datatype Trace = Trace(reserved: bool, attempts: nat, path: seq<Status>, start: Tables, rows: map<(string, int), Attempt>,
                         calls: seq<Call>)

  /** The world outside: the provider selected for each attempt, the response to it. */
  datatype World = World(route: int -> Option<(string, string)>, respond: int -> Response)

  function EffectiveMax(p: RetryPolicy, req: ExecutionRequest): int {
    if p.maxAttempts < req.maxAttempts then p.maxAttempts else req.maxAttempts
  }

  function Estimate(req: ExecutionRequest): int {
    req.estimatedInput + req.estimatedOutput
  }

  /** The request is new, and the budget's counter satisfies its CHECK constraint. */
  ghost predicate Fresh(t: Tables, attempts: map<(string, int), Attempt>, req: ExecutionRequest) {
    && req.id !in t.requests
    && (forall n :: (req.id, n) !in attempts)
    && (req.budgetId in t.budgets ==> t.budgets[req.budgetId].reservedTokens >= 0)
  }

  /** When a fresh request passes the reservation. */
  ghost predicate Admitted(t: Tables, req: ExecutionRequest) {
    var tokens := req.estimatedInput + req.estimatedOutput;
    && |req.promptHash| == 64 && |req.contextHash| == 64 && req.budgetId in t.budgets && tokens > 0
    && t.budgets[req.budgetId].usedTokens + t.budgets[req.budgetId].reservedTokens + tokens <= t.budgets[req.budgetId].tokenLimit
  }

  /** Why it does not. */
  ghost function Refusal(t: Tables, req: ExecutionRequest): Error {
    if |req.promptHash| != 64 || |req.contextHash| != 64 then InvalidHash
    else if req.budgetId !in t.budgets then BudgetNotFound
    else if req.estimatedInput + req.estimatedOutput <= 0 then InvalidAmount
    else TokenLimitExceeded
  }

  /** The commit of a successful response is accepted: no negative figure, and the cost limit holds. */
  ghost predicate Accepted(b: Budget, r: Response) {
    r.inputTokens + r.outputTokens >= 0 && r.cost >= 0 && b.usedCost + r.cost <= b.costLimit
  }

  /** The error classes of a response after which another attempt makes sense. */
  ghost predicate Transient(errorClass: Option<string>) {
    errorClass.Some? &&
    errorClass.value in {"TIMEOUT", "NETWORK_ERROR", "PROVIDER_UNAVAILABLE", "PROVIDER_THROTTLED", "RATE_LIMIT"}
  }

  /** The class recorded for a failed attempt. */
  ghost function RecordedClass(errorClass: Option<string>): string {
    if errorClass == Some("RATE_LIMIT") then "PROVIDER_THROTTLED"
    else if errorClass.Some? && errorClass.value in {"INVALID_RESPONSE", "TIMEOUT", "NETWORK_ERROR", "PROVIDER_UNAVAILABLE",
                                                     "PROVIDER_THROTTLED", "AUTHENTICATION_FAILED", "INVALID_REQUEST"}
    then errorClass.value
    else "UNKNOWN_PROVIDER_ERROR"
  }

  /** What the classifier and the retry policy decide between them. */
  lemma RetryDecided(p: RetryPolicy, n: int, errorClass: Option<string>)
    ensures Evaluate(p, n, Classify(errorClass)).shouldRetry <==> n < p.maxAttempts && Transient(errorClass)
    ensures Classify(errorClass).errorClass == RecordedClass(errorClass)
  {
  }

  /** Attempt `n` is followed by another, if a provider is eligible. */
  ghost predicate Retried(p: RetryPolicy, req: ExecutionRequest, w: World, n: int) {
    && 0 < n < p.maxAttempts && n < req.maxAttempts && w.route(n).Some?
    && !w.respond(n).success && Transient(w.respond(n).errorClass)
  }

  /** The tables after a fresh request that passed the reservation. */
  ghost predicate Ended(before: Tables, now: Tables, req: ExecutionRequest, w: World, k: nat, out: Outcome)
    requires req.budgetId in before.budgets && req.id in now.requests
  {
    var b, r := before.budgets[req.budgetId], now.requests[req.id];
    if k > 0 && w.respond(k).success then
      var res := w.respond(k);
      if Accepted(b, res) then
        && out == Returned(res) && r.status == Completed && r.reservedTokens == 0
        && r.committedTokens == res.inputTokens + res.outputTokens && r.actualCost == res.cost
        && now.budgets == before.budgets[req.budgetId :=
             b.(usedTokens := b.usedTokens + res.inputTokens + res.outputTokens, usedCost := b.usedCost + res.cost)]
      else
        && out == Raised(if res.inputTokens + res.outputTokens < 0 || res.cost < 0 then InvalidAmount else CostLimitExceeded)
        && r.status == InFlight && r.reservedTokens == req.estimatedInput + req.estimatedOutput
        && now.budgets == before.budgets[req.budgetId :=
             b.(reservedTokens := b.reservedTokens + req.estimatedInput + req.estimatedOutput)]
    else
      && out == (if k > 0 then Returned(w.respond(k)) else NoEligibleProvider)
      && r.status == Failed && r.reservedTokens == 0 && r.committedTokens == 0 && r.actualCost == 0
      && now.budgets == before.budgets
  }

  /** Why no further attempt was made: a limit, a response that is not retried, or no eligible provider. */
  ghost predicate StopsFor(p: RetryPolicy, req: ExecutionRequest, w: World, k: nat) {
    k == p.maxAttempts || k == req.maxAttempts || (k > 0 && !Retried(p, req, w, k)) || w.route(k + 1).None?
  }

  /** The finished row of an attempt. */
  ghost function FinishedRow(provider: (string, string), res: Response): Attempt {
    if res.success then Attempt(provider.0, provider.1, AttemptCompleted, None, res.inputTokens, res.outputTokens)
    else Attempt(provider.0, provider.1, AttemptFailed, Some(RecordedClass(res.errorClass)), 0, 0)
  }

  ghost predicate AttemptRow(attempts: map<(string, int), Attempt>, rows: map<(string, int), Attempt>, id: string, w: World,
                             k: nat, i: string, n: int)
  {
    if i == id then
      && ((i, n) in attempts <==> 1 <= n <= k)
      && (1 <= n <= k ==> w.route(n).Some? && attempts[(i, n)] == FinishedRow(w.route(n).value, w.respond(n)))
    else
      && ((i, n) in attempts <==> (i, n) in rows)
      && ((i, n) in rows ==> attempts[(i, n)] == rows[(i, n)])
  }

  /** The attempt rows of the request are numbered 1 to k and finished; those of other requests are as in `rows`. */
  ghost predicate AttemptRows(attempts: map<(string, int), Attempt>, rows: map<(string, int), Attempt>, id: string, w: World, k: nat) {
    forall i, n :: AttemptRow(attempts, rows, id, w, k, i, n)
  }

  /** The request is the caller's, and names the provider of attempt `k`. */
  ghost predicate Placed(t: Tables, req: ExecutionRequest, w: World, k: nat) {
    && req.id in t.requests
    && var r := t.requests[req.id];
       && r.taskId == req.taskId && r.budgetId == req.budgetId
       && r.promptHash == req.promptHash && r.contextHash == req.contextHash
       && (if k == 0 then r.providerId == None && r.modelId == None
           else w.route(k).Some? && r.providerId == Some(w.route(k).value.0) && r.modelId == Some(w.route(k).value.1))
  }

  /** A legal path of statuses of a fresh request that passed its reservation, ending at `s`. */
  ghost predicate PathTo(path: seq<Status>, s: Status) {
    LegalPath(path) && |path| > 1 && path[..2] == [Created, Reserved] && path[|path| - 1] == s
  }

  lemma PathStep(path: seq<Status>, s: Status, next: Status)
    requires PathTo(path, s) && CanTransition(s, next)
    ensures PathTo(path + [next], next)
  {
    assert (path + [next])[..2] == path[..2];
  }

  /** The tables once a fresh request is created and its reservation made. */
  function ReservedTables(t: Tables, req: ExecutionRequest): Result<Tables> {
    match PerformCreate(t, req.id, req.taskId, req.budgetId, req.promptHash, req.contextHash)
    case Err(e) => Err(e)
    case Ok(created) => Perform(created, req.id, Reserve(Estimate(req)))
  }

  /** The calls made after the reservation lead from `start` to `now`. */
  ghost predicate Followed(start: Tables, now: Tables, id: string, calls: seq<Call>) {
    PerformAll(start, id, calls) == Ok(now)
  }

  /** All calls were accepted, or the last one was refused and that error was raised. */
  ghost predicate Finished(start: Tables, now: Tables, id: string, calls: seq<Call>, out: Outcome) {
    if out.Raised? then
      calls != [] && Followed(start, now, id, calls[..|calls| - 1]) && PerformAll(start, id, calls) == Err(out.error)
    else Followed(start, now, id, calls)
  }

  lemma FollowedBy(start: Tables, now: Tables, after: Tables, id: string, calls: seq<Call>, call: Call, r: Result<()>)
    requires Followed(start, now, id, calls) && Performed(now, after, id, call, r)
    ensures r.Ok? ==> Followed(start, after, id, calls + [call])
    ensures r.Err? ==> Finished(start, after, id, calls + [call], Raised(r.error))
  {
    PerformAllSnoc(start, id, calls, call);
    assert (calls + [call])[..|calls|] == calls;
  }

  /** Everything promised of a fresh request that passed its reservation. */
  ghost predicate Completes(before: Tables, now: Tables, attempts: map<(string, int), Attempt>, p: RetryPolicy,
                            req: ExecutionRequest, w: World, trace: Trace, out: Outcome)
  {
    && trace.attempts <= p.maxAttempts && trace.attempts <= req.maxAttempts
    && (forall n :: 0 < n < trace.attempts ==> Retried(p, req, w, n))
    && StopsFor(p, req, w, trace.attempts)
    && AttemptRows(attempts, trace.rows, req.id, w, trace.attempts)
    && Placed(now, req, w, trace.attempts)
    && req.budgetId in before.budgets && req.id in now.requests
    && Ended(before, now, req, w, trace.attempts, out)
    && now.requests == before.requests[req.id := now.requests[req.id]]
    && PathTo(trace.path, now.requests[req.id].status)
    && Finished(trace.start, now, req.id, trace.calls, out)
  }

  /** The tables while attempts are being made: the reservation is held and nothing else has moved. */
  ghost predicate Waiting(before: Tables, now: Tables, req: ExecutionRequest, s: Status) {
    && req.budgetId in before.budgets && req.id in now.requests
    && before.budgets[req.budgetId].reservedTokens >= 0 && Estimate(req) > 0
    && now.budgets == before.budgets[req.budgetId := before.budgets[req.budgetId].(reservedTokens :=
                        before.budgets[req.budgetId].reservedTokens + Estimate(req))]
    && now.requests == before.requests[req.id := now.requests[req.id]]
    && var r := now.requests[req.id];
       r.status == s && r.budgetId == req.budgetId && r.reservedTokens == Estimate(req) && r.committedTokens == 0 && r.actualCost == 0
  }

  lemma WaitingStarts(before: Tables, created: Tables, now: Tables, req: ExecutionRequest)
    requires req.id !in before.requests && req.budgetId in before.budgets
    requires before.budgets[req.budgetId].reservedTokens >= 0
    requires created == before.(requests := before.requests[req.id :=
               FreshRequest(req.taskId, req.budgetId, req.promptHash, req.contextHash)])
    ensures Perform(created, req.id, Reserve(Estimate(req))).Ok? <==> ReserveRow(Some(before.budgets[req.budgetId]), Estimate(req)).Ok?
    ensures Perform(created, req.id, Reserve(Estimate(req))) == Ok(now) ==> Waiting(before, now, req, Reserved)
  {
  }

  lemma WaitingMoves(before: Tables, now: Tables, req: ExecutionRequest, s: Status, next: Status,
                     p: Option<string>, m: Option<string>)
    requires Waiting(before, now, req, s) && CanTransition(s, next)
    ensures var r := Perform(now, req.id, Transition(s, next, p, m)); r.Ok? && Waiting(before, r.value, req, next)
  {
  }

  /** Releasing gives the budget back exactly what it had before. */
  lemma WaitingReleases(before: Tables, now: Tables, req: ExecutionRequest, s: Status, w: World, k: nat, out: Outcome)
    requires Waiting(before, now, req, s) && s in {Reserved, ProviderFailed}
    requires k > 0 ==> !w.respond(k).success
    requires out == if k > 0 then Returned(w.respond(k)) else NoEligibleProvider
    ensures var r := Perform(now, req.id, Release(Failed));
            && r.Ok? && req.id in r.value.requests && Ended(before, r.value, req, w, k, out)
            && r.value.requests == before.requests[req.id := r.value.requests[req.id]]
            && r.value.requests[req.id].status == Failed
  {
  }

  lemma WaitingCommits(before: Tables, now: Tables, req: ExecutionRequest, w: World, k: nat, p: Option<string>, m: Option<string>)
    requires Waiting(before, now, req, InFlight) && k > 0 && w.respond(k).success
    ensures var res := w.respond(k);
            var r := Perform(now, req.id, Commit(res.inputTokens + res.outputTokens, res.cost, p, m));
            match r
            case Ok(after) =>
              && req.id in after.requests && Ended(before, after, req, w, k, Returned(res))
              && after.requests == before.requests[req.id := after.requests[req.id]]
              && after.requests[req.id].status == Completed
            case Err(e) => Ended(before, now, req, w, k, Raised(e))
  {
  }

  /** The state at the head of the attempt loop. */
  ghost predicate AtHead(before: Tables, now: Tables, attempts: map<(string, int), Attempt>, p: RetryPolicy,
                         req: ExecutionRequest, w: World, trace: Trace, attempt: int)
  {
    && 1 <= attempt <= EffectiveMax(p, req) && trace.attempts == attempt - 1
    && Waiting(before, now, req, if attempt == 1 then Reserved else ProviderFailed)
    && PathTo(trace.path, if attempt == 1 then Reserved else ProviderFailed)
    && AttemptRows(attempts, trace.rows, req.id, w, attempt - 1)
    && Placed(now, req, w, attempt - 1)
    && Followed(trace.start, now, req.id, trace.calls)
    && forall n :: 0 < n < attempt ==> Retried(p, req, w, n)
  }

  method Execute(session: Session, policy: RetryPolicy, req: ExecutionRequest, w: World)
      returns (out: Outcome, ghost trace: Trace)
    requires PolicyOk(policy) && req.maxAttempts >= 1
    modifies session
    ensures !trace.reserved ==> out.Raised?
    ensures old(Fresh(session.Now(), session.attempts, req)) ==> (trace.reserved <==> old(Admitted(session.Now(), req)))
    ensures old(Fresh(session.Now(), session.attempts, req)) && trace.reserved ==>
              Completes(old(session.Now()), session.Now(), session.attempts, policy, req, w, trace, out)
    ensures old(Fresh(session.Now(), session.attempts, req)) && trace.reserved ==>
              ReservedTables(old(session.Now()), req) == Ok(trace.start) && trace.rows == old(session.attempts)
    ensures old(Fresh(session.Now(), session.attempts, req)) && !trace.reserved ==> out == Raised(old(Refusal(session.Now(), req)))
  {
    ghost var isNew := Fresh(session.Now(), session.attempts, req);
    ghost var before := session.Now();
    trace := Trace(false, 0, [], before, session.attempts, []);
    var created := session.CreateRequest(req.id, req.taskId, req.budgetId, req.promptHash, req.contextHash);
    if created.Err? {
      return Raised(created.error), trace;
    }
    ghost var opened' := session.Now();
    var reserved := session.ReserveBudget(req.id, Estimate(req));
    if isNew {
      WaitingStarts(before, opened', session.Now(), req);
    }
    if reserved.Err? {
      return Raised(reserved.error), trace;
    }
    trace := Trace(true, 0, [Created, Reserved], session.Now(), session.attempts, []);
    ghost var start, rows := session.Now(), session.attempts;
    var last: Option<Response> := None;
    var attempt := 1;
    while attempt <= EffectiveMax(policy, req)
      invariant 1 <= attempt <= EffectiveMax(policy, req)
      invariant trace.reserved && trace.start == start && trace.rows == rows
      invariant last == if attempt == 1 then None else Some(w.respond(attempt - 1))
      invariant isNew ==> Admitted(before, req)
      invariant isNew ==> AtHead(before, session.Now(), session.attempts, policy, req, w, trace, attempt)
      decreases EffectiveMax(policy, req) - attempt
    {
      var selected := w.route(attempt);
      if selected.None? {
        out, trace := GiveUp(session, policy, req, w, attempt, last, before, isNew, trace);
        return;
      }
      var again: bool;
      again, out, trace := RunAttempt(session, policy, req, w, attempt, last, selected.value, before, isNew, trace);
      if !again {
        return;
      }
      last := Some(w.respond(attempt));
      attempt := attempt + 1;
    }
    // The fallback return of the source: the loop never ends by exhausting its range.
    assert false;
  }

  /**
   The retry rule over a whole run: attempt n is followed by attempt n+1 exactly when response n failed
   with a transient error, n is below both limits, and a provider is eligible for attempt n+1.
   */
  lemma NextAttemptExactlyWhen(before: Tables, now: Tables, attempts: map<(string, int), Attempt>, p: RetryPolicy,
                               req: ExecutionRequest, w: World, trace: Trace, out: Outcome, n: nat)
    requires PolicyOk(p) && req.maxAttempts >= 1 && Completes(before, now, attempts, p, req, w, trace, out)
    requires n <= trace.attempts
    ensures n == 0 ==> ((req.id, 1) in attempts <==> w.route(1).Some?)
    ensures n > 0 ==>
              ((req.id, n + 1) in attempts
               <==> !w.respond(n).success && Transient(w.respond(n).errorClass)
                    && n < p.maxAttempts && n < req.maxAttempts && w.route(n + 1).Some?)
  {
    assert AttemptRow(attempts, trace.rows, req.id, w, trace.attempts, req.id, n);
    assert AttemptRow(attempts, trace.rows, req.id, w, trace.attempts, req.id, n + 1);
    assert 0 < n < trace.attempts ==> Retried(p, req, w, n);
  }

  /**
   When a run settles: the request ends COMPLETED or FAILED with nothing held exactly when the commit
   of a successful last response, if there is one, is accepted.
   */
  lemma SettledExactlyWhenAccepted(before: Tables, now: Tables, attempts: map<(string, int), Attempt>, p: RetryPolicy,
                                   req: ExecutionRequest, w: World, trace: Trace, out: Outcome)
    requires PolicyOk(p) && Completes(before, now, attempts, p, req, w, trace, out) && Estimate(req) > 0
    ensures var r := now.requests[req.id];
            r.status in {Completed, Failed} && r.reservedTokens == 0
            <==> (trace.attempts > 0 && w.respond(trace.attempts).success
                  ==> Accepted(before.budgets[req.budgetId], w.respond(trace.attempts)))
  {
  }

  /** Releasing at the head of the loop ends the run. */
  lemma NoneEligible(before: Tables, now: Tables, after: Tables, attempts: map<(string, int), Attempt>, p: RetryPolicy,
                     req: ExecutionRequest, w: World, trace: Trace, attempt: int, r: Result<()>)
    requires PolicyOk(p) && AtHead(before, now, attempts, p, req, w, trace, attempt) && w.route(attempt).None?
    requires Performed(now, after, req.id, Release(Failed), r)
    ensures r.Ok? && Completes(before, after, attempts, p, req, w,
                               trace.(path := trace.path + [Failed], calls := trace.calls + [Release(Failed)]),
                               if attempt == 1 then NoEligibleProvider else Returned(w.respond(attempt - 1)))
  {
    var target := if attempt > 1 then ProviderFailed else Reserved;
    var out := if attempt == 1 then NoEligibleProvider else Returned(w.respond(attempt - 1));
    assert attempt > 1 ==> Retried(p, req, w, attempt - 1);
    ReleasedFrom(before, now, after, req, target, w, trace.start, trace.calls, attempt - 1, out, r);
    PlacedStays(now, after, req, w, attempt - 1, Release(Failed), r);
    PathStep(trace.path, target, Failed);
  }

  /** No provider is eligible: the reservation is released if the request is where the loop left it. */
  method GiveUp(session: Session, policy: RetryPolicy, req: ExecutionRequest, w: World, attempt: int, last: Option<Response>,
                ghost before: Tables, ghost isNew: bool, ghost trace: Trace)
      returns (out: Outcome, ghost trace': Trace)
    requires PolicyOk(policy) && 1 <= attempt && w.route(attempt).None? && trace.reserved
    requires last == if attempt == 1 then None else Some(w.respond(attempt - 1))
    requires isNew ==> AtHead(before, session.Now(), session.attempts, policy, req, w, trace, attempt)
    modifies session
    ensures trace'.reserved && trace'.start == trace.start && trace'.rows == trace.rows
    ensures isNew ==> Completes(before, session.Now(), session.attempts, policy, req, w, trace', out)
  {
    trace' := trace;
    var target := if attempt > 1 then ProviderFailed else Reserved;
    out := if last.Some? then Returned(last.value) else NoEligibleProvider;
    ghost var now := session.Now();
    if req.id in session.requests && session.requests[req.id].status == target {
      var released := session.ReleaseReservation(req.id, Failed);
      if isNew {
        NoneEligible(before, now, session.Now(), session.attempts, policy, req, w, trace, attempt, released);
      }
      if released.Err? {
        out := Raised(released.error);
        return;
      }
      trace' := trace.(path := trace.path + [Failed], calls := trace.calls + [Release(Failed)]);
    }
  }

  function ToRouted(attempt: int, provider: (string, string)): Call {
    Transition(if attempt == 1 then Reserved else ProviderFailed, Routed, Some(provider.0), Some(provider.1))
  }

  const TO_IN_FLIGHT := Transition(Routed, InFlight, None, None)
  const TO_PROVIDER_FAILED := Transition(InFlight, ProviderFailed, None, None)

  /** From the head of the loop the request is routed. */
  lemma RoutedFrom(before: Tables, now: Tables, after: Tables, attempts: map<(string, int), Attempt>, p: RetryPolicy,
                   req: ExecutionRequest, w: World, trace: Trace, attempt: int, provider: (string, string), r: Result<()>)
    requires PolicyOk(p) && AtHead(before, now, attempts, p, req, w, trace, attempt)
    requires Performed(now, after, req.id, ToRouted(attempt, provider), r)
    ensures r.Ok? && Waiting(before, after, req, Routed)
    ensures Followed(trace.start, after, req.id, trace.calls + [ToRouted(attempt, provider)])
    ensures PathTo(trace.path + [Routed], Routed)
  {
    var from := if attempt == 1 then Reserved else ProviderFailed;
    WaitingMoves(before, now, req, from, Routed, Some(provider.0), Some(provider.1));
    FollowedBy(trace.start, now, after, req.id, trace.calls, ToRouted(attempt, provider), r);
    PathStep(trace.path, from, Routed);
  }

  /** Routing names the provider of the attempt. */
  lemma PlacedByRouting(now: Tables, after: Tables, req: ExecutionRequest, w: World, attempt: int, provider: (string, string),
                        r: Result<()>)
    requires attempt >= 1 && Placed(now, req, w, attempt - 1) && w.route(attempt) == Some(provider)
    requires Performed(now, after, req.id, ToRouted(attempt, provider), r) && r.Ok?
    ensures Placed(after, req, w, attempt)
  {
  }

  /** A call that names no provider, or the one of attempt `k`, leaves the request placed. */
  lemma PlacedStays(now: Tables, after: Tables, req: ExecutionRequest, w: World, k: nat, call: Call, r: Result<()>)
    requires Placed(now, req, w, k) && Performed(now, after, req.id, call, r)
    requires call.Release? || (call.Transition? && call.providerId == None && call.modelId == None)
             || (call.Commit? && k > 0 && call.providerId == Some(w.route(k).value.0) && call.modelId == Some(w.route(k).value.1))
    ensures Placed(after, req, w, k)
  {
  }

  /** A waiting request moves on. */
  lemma MovedFrom(before: Tables, now: Tables, after: Tables, req: ExecutionRequest, start: Tables, calls: seq<Call>,
                  path: seq<Status>, from: Status, next: Status, r: Result<()>)
    requires Waiting(before, now, req, from) && Followed(start, now, req.id, calls) && PathTo(path, from)
    requires CanTransition(from, next) && Performed(now, after, req.id, Transition(from, next, None, None), r)
    ensures r.Ok? && Waiting(before, after, req, next)
    ensures Followed(start, after, req.id, calls + [Transition(from, next, None, None)]) && PathTo(path + [next], next)
  {
    WaitingMoves(before, now, req, from, next, None, None);
    FollowedBy(start, now, after, req.id, calls, Transition(from, next, None, None), r);
    PathStep(path, from, next);
  }

  /** What a commit or a release at the end leads to. */
  ghost predicate Closed(before: Tables, now: Tables, req: ExecutionRequest, w: World, start: Tables, calls: seq<Call>, k: nat, out: Outcome) {
    && req.budgetId in before.budgets && req.id in now.requests && Ended(before, now, req, w, k, out)
    && now.requests == before.requests[req.id := now.requests[req.id]]
    && Finished(start, now, req.id, calls, out)
  }

  lemma ReleasedFrom(before: Tables, now: Tables, after: Tables, req: ExecutionRequest, s: Status, w: World, start: Tables,
                     calls: seq<Call>, k: nat, out: Outcome, r: Result<()>)
    requires Waiting(before, now, req, s) && s in {Reserved, ProviderFailed} && Followed(start, now, req.id, calls)
    requires Performed(now, after, req.id, Release(Failed), r)
    requires k > 0 ==> !w.respond(k).success
    requires out == if k > 0 then Returned(w.respond(k)) else NoEligibleProvider
    ensures r.Ok? && Closed(before, after, req, w, start, calls + [Release(Failed)], k, out)
    ensures after.requests[req.id].status == Failed
  {
    WaitingReleases(before, now, req, s, w, k, out);
    FollowedBy(start, now, after, req.id, calls, Release(Failed), r);
  }

  lemma CommittedFrom(before: Tables, now: Tables, after: Tables, req: ExecutionRequest, w: World, start: Tables,
                      calls: seq<Call>, k: int, provider: (string, string), r: Result<()>)
    requires Waiting(before, now, req, InFlight) && Followed(start, now, req.id, calls) && k >= 1 && w.respond(k).success
    requires Performed(now, after, req.id, CommitOf(w.respond(k), provider), r)
    ensures Closed(before, after, req, w, start, calls + [CommitOf(w.respond(k), provider)], k,
                   if r.Ok? then Returned(w.respond(k)) else Raised(r.error))
    ensures after.requests[req.id].status == if r.Ok? then Completed else InFlight
  {
    WaitingCommits(before, now, req, w, k, Some(provider.0), Some(provider.1));
    FollowedBy(start, now, after, req.id, calls, CommitOf(w.respond(k), provider), r);
  }

  /** One attempt with a selected provider; `again` says that the loop continues. */
  method RunAttempt(session: Session, policy: RetryPolicy, req: ExecutionRequest, w: World, attempt: int, last: Option<Response>,
                    provider: (string, string), ghost before: Tables, ghost isNew: bool, ghost trace: Trace)
      returns (again: bool, out: Outcome, ghost trace': Trace)
    requires PolicyOk(policy) && 1 <= attempt <= EffectiveMax(policy, req) && w.route(attempt) == Some(provider) && trace.reserved
    requires isNew ==> AtHead(before, session.Now(), session.attempts, policy, req, w, trace, attempt)
    modifies session
    ensures trace'.reserved && trace'.start == trace.start && trace'.rows == trace.rows && (again ==> attempt < EffectiveMax(policy, req))
    ensures isNew && again ==> AtHead(before, session.Now(), session.attempts, policy, req, w, trace', attempt + 1)
    ensures isNew && !again ==> Completes(before, session.Now(), session.attempts, policy, req, w, trace', out)
  {
    again, out, trace' := false, AttemptConflict, trace;
    var from := if attempt == 1 then Reserved else ProviderFailed;
    ghost var atHead := session.Now();
    var routed := session.TransitionStatus(req.id, from, Routed, Some(provider.0), Some(provider.1));
    ghost var now := session.Now();
    ghost var calls := trace.calls + [ToRouted(attempt, provider)];
    if isNew {
      RoutedFrom(before, atHead, now, session.attempts, policy, req, w, trace, attempt, provider, routed);
      PlacedByRouting(atHead, now, req, w, attempt, provider, routed);
    }
    if routed.Err? {
      out := Raised(routed.error);
      return;
    }
    var sent := session.TransitionStatus(req.id, Routed, InFlight, None, None);
    if isNew {
      MovedFrom(before, now, session.Now(), req, trace.start, calls, trace.path + [Routed], Routed, InFlight, sent);
      PlacedStays(now, session.Now(), req, w, attempt, TO_IN_FLIGHT, sent);
    }
    if sent.Err? {
      out := Raised(sent.error);
      return;
    }
    if isNew {
      RowRecorded(session.attempts, trace.rows, req.id, w, attempt, Attempt(provider.0, provider.1, AttemptInFlight, None, 0, 0));
    }
    var recorded := session.RecordAttempt(req.id, attempt, provider.0, provider.1);
    if !recorded {
      if last.Some? {
        out := Returned(last.value);
      }
      return;
    }
    trace' := Trace(true, attempt, trace.path + [Routed] + [InFlight], trace.start, trace.rows, calls + [TO_IN_FLIGHT]);
    var response := w.respond(attempt);
    if response.success {
      out, trace' := Succeed(session, policy, req, w, attempt, provider, before, isNew, trace');
      return;
    }
    again, out, trace' := Fail(session, policy, req, w, attempt, before, isNew, trace');
  }

  /** The state after the response to attempt `k` has arrived. */
  ghost predicate Answered(before: Tables, now: Tables, attempts: map<(string, int), Attempt>, p: RetryPolicy,
                           req: ExecutionRequest, w: World, trace: Trace, k: int)
  {
    && 1 <= k <= EffectiveMax(p, req) && trace.attempts == k && w.route(k).Some?
    && Waiting(before, now, req, InFlight) && PathTo(trace.path, InFlight)
    && Followed(trace.start, now, req.id, trace.calls)
    && Unfinished(attempts, req.id, w, k) && AttemptRows(attempts - {(req.id, k)}, trace.rows, req.id, w, k - 1)
    && Placed(now, req, w, k)
    && forall n :: 0 < n < k ==> Retried(p, req, w, n)
  }

  /** The row of attempt `k` names its provider, and nothing else yet. */
  ghost predicate Unfinished(attempts: map<(string, int), Attempt>, id: string, w: World, k: int) {
    && (id, k) in attempts && w.route(k).Some?
    && attempts[(id, k)] == Attempt(w.route(k).value.0, w.route(k).value.1, AttemptInFlight, None, 0, 0)
  }

  /** `now` is `attempts` with the row of attempt `k` finished as its response says. */
  ghost predicate RowFinished(attempts: map<(string, int), Attempt>, now: map<(string, int), Attempt>, id: string, w: World, k: int) {
    w.route(k).Some? && now == attempts[(id, k) := FinishedRow(w.route(k).value, w.respond(k))]
  }

  /** A row may be recorded for the next attempt, and then all but this one are as before. */
  lemma RowRecorded(attempts: map<(string, int), Attempt>, rows: map<(string, int), Attempt>, id: string, w: World, k: int,
                    row: Attempt)
    requires k >= 1 && AttemptRows(attempts, rows, id, w, k - 1)
    ensures (id, k) !in attempts && attempts[(id, k) := row] - {(id, k)} == attempts
  {
    assert AttemptRow(attempts, rows, id, w, k - 1, id, k);
  }

  lemma LastRowAdded(attempts: map<(string, int), Attempt>, now: map<(string, int), Attempt>, rows: map<(string, int), Attempt>,
                     id: string, w: World, k: int)
    requires k >= 1 && AttemptRows(attempts - {(id, k)}, rows, id, w, k - 1) && RowFinished(attempts, now, id, w, k)
    ensures AttemptRows(now, rows, id, w, k)
  {
    forall i, n ensures AttemptRow(now, rows, id, w, k, i, n) {
      assert AttemptRow(attempts - {(id, k)}, rows, id, w, k - 1, i, n);
      if (i, n) != (id, k) {
        assert (i, n) in now <==> (i, n) in attempts - {(id, k)};
      }
    }
  }

  function CommitOf(res: Response, provider: (string, string)): Call {
    Commit(res.inputTokens + res.outputTokens, res.cost, Some(provider.0), Some(provider.1))
  }

  lemma SuccessCompletes(before: Tables, now: Tables, after: Tables, rows: map<(string, int), Attempt>,
                         rows': map<(string, int), Attempt>, p: RetryPolicy, req: ExecutionRequest, w: World, trace: Trace,
                         k: int, provider: (string, string), r: Result<()>)
    requires PolicyOk(p) && Answered(before, now, rows, p, req, w, trace, k) && w.respond(k).success
    requires RowFinished(rows, rows', req.id, w, k) && w.route(k) == Some(provider)
    requires Performed(now, after, req.id, CommitOf(w.respond(k), provider), r)
    ensures var t := trace.(calls := trace.calls + [CommitOf(w.respond(k), provider)]);
            if r.Ok? then Completes(before, after, rows', p, req, w, t.(path := trace.path + [Completed]), Returned(w.respond(k)))
            else Completes(before, after, rows', p, req, w, t, Raised(r.error))
  {
    LastRowAdded(rows, rows', trace.rows, req.id, w, k);
    CommittedFrom(before, now, after, req, w, trace.start, trace.calls, k, provider, r);
    PlacedStays(now, after, req, w, k, CommitOf(w.respond(k), provider), r);
    PathStep(trace.path, InFlight, Completed);
  }

  /** The state after attempt `k` has failed and the request says so. */
  ghost predicate GaveNoAnswer(before: Tables, now: Tables, attempts: map<(string, int), Attempt>, p: RetryPolicy,
                               req: ExecutionRequest, w: World, trace: Trace, k: int)
  {
    && 1 <= k <= EffectiveMax(p, req) && trace.attempts == k && w.route(k).Some? && !w.respond(k).success
    && Waiting(before, now, req, ProviderFailed) && PathTo(trace.path, ProviderFailed)
    && Followed(trace.start, now, req.id, trace.calls)
    && AttemptRows(attempts, trace.rows, req.id, w, k)
    && Placed(now, req, w, k)
    && forall n :: 0 < n < k ==> Retried(p, req, w, n)
  }

  lemma FailureRecorded(before: Tables, now: Tables, after: Tables, rows: map<(string, int), Attempt>,
                        rows': map<(string, int), Attempt>, p: RetryPolicy, req: ExecutionRequest, w: World, trace: Trace,
                        k: int, r: Result<()>)
    requires PolicyOk(p) && Answered(before, now, rows, p, req, w, trace, k) && !w.respond(k).success
    requires RowFinished(rows, rows', req.id, w, k) && Performed(now, after, req.id, TO_PROVIDER_FAILED, r)
    ensures r.Ok? && GaveNoAnswer(before, after, rows', p, req, w,
                                  trace.(path := trace.path + [ProviderFailed], calls := trace.calls + [TO_PROVIDER_FAILED]), k)
  {
    LastRowAdded(rows, rows', trace.rows, req.id, w, k);
    MovedFrom(before, now, after, req, trace.start, trace.calls, trace.path, InFlight, ProviderFailed, r);
    PlacedStays(now, after, req, w, k, TO_PROVIDER_FAILED, r);
  }

  /** The policy allows no other attempt. */
  lemma FailureCompletes(before: Tables, now: Tables, after: Tables, rows: map<(string, int), Attempt>, p: RetryPolicy,
                         req: ExecutionRequest, w: World, trace: Trace, k: int, r: Result<()>)
    requires PolicyOk(p) && GaveNoAnswer(before, now, rows, p, req, w, trace, k)
    requires !Retried(p, req, w, k)
    requires Performed(now, after, req.id, Release(Failed), r)
    ensures r.Ok? && Completes(before, after, rows, p, req, w,
                               trace.(path := trace.path + [Failed], calls := trace.calls + [Release(Failed)]), Returned(w.respond(k)))
  {
    ReleasedFrom(before, now, after, req, ProviderFailed, w, trace.start, trace.calls, k, Returned(w.respond(k)), r);
    PlacedStays(now, after, req, w, k, Release(Failed), r);
    PathStep(trace.path, ProviderFailed, Failed);
  }

  method Succeed(session: Session, policy: RetryPolicy, req: ExecutionRequest, w: World, attempt: int,
                 provider: (string, string), ghost before: Tables, ghost isNew: bool, ghost trace: Trace)
      returns (out: Outcome, ghost trace': Trace)
    requires PolicyOk(policy) && trace.reserved && 1 <= attempt && w.respond(attempt).success && w.route(attempt) == Some(provider)
    requires (req.id, attempt) in session.attempts
    requires isNew ==> Answered(before, session.Now(), session.attempts, policy, req, w, trace, attempt)
    modifies session
    ensures trace'.reserved && trace'.start == trace.start && trace'.rows == trace.rows
    ensures isNew ==> Completes(before, session.Now(), session.attempts, policy, req, w, trace', out)
  {
    trace' := trace;
    var response := w.respond(attempt);
    ghost var rows := session.attempts;
    session.CompleteAttempt(req.id, attempt, response.inputTokens, response.outputTokens);
    ghost var now, rows' := session.Now(), session.attempts;
    var committed := session.CommitExecution(req.id, response.inputTokens + response.outputTokens, response.cost,
                                             Some(provider.0), Some(provider.1));
    if isNew {
      SuccessCompletes(before, now, session.Now(), rows, rows', policy, req, w, trace, attempt, provider, committed);
    }
    trace' := trace.(calls := trace.calls + [CommitOf(response, provider)]);
    if committed.Err? {
      out := Raised(committed.error);
      return;
    }
    trace' := trace'.(path := trace.path + [Completed]);
    out := Returned(response);
  }

  method Fail(session: Session, policy: RetryPolicy, req: ExecutionRequest, w: World, attempt: int,
              ghost before: Tables, ghost isNew: bool, ghost trace: Trace)
      returns (again: bool, out: Outcome, ghost trace': Trace)
    requires PolicyOk(policy) && trace.reserved && 1 <= attempt <= EffectiveMax(policy, req) && !w.respond(attempt).success
    requires (req.id, attempt) in session.attempts
    requires isNew ==> Answered(before, session.Now(), session.attempts, policy, req, w, trace, attempt)
    modifies session
    ensures trace'.reserved && trace'.start == trace.start && trace'.rows == trace.rows && (again ==> attempt < EffectiveMax(policy, req))
    ensures isNew && again ==> AtHead(before, session.Now(), session.attempts, policy, req, w, trace', attempt + 1)
    ensures isNew && !again ==> Completes(before, session.Now(), session.attempts, policy, req, w, trace', out)
  {
    again, trace' := false, trace;
    var response := w.respond(attempt);
    out := Returned(response);
    var classification := Classify(response.errorClass);
    ghost var rows := session.attempts;
    session.FailAttempt(req.id, attempt, classification.errorClass);
    RetryDecided(policy, attempt, response.errorClass);
    ghost var now, rows' := session.Now(), session.attempts;
    var failed := session.TransitionStatus(req.id, InFlight, ProviderFailed, None, None);
    ghost var moved := session.Now();
    if isNew {
      FailureRecorded(before, now, moved, rows, rows', policy, req, w, trace, attempt, failed);
    }
    if failed.Err? {
      out := Raised(failed.error);
      return;
    }
    trace' := trace.(path := trace.path + [ProviderFailed], calls := trace.calls + [TO_PROVIDER_FAILED]);
    var decision := Evaluate(policy, attempt, classification);
    if decision.shouldRetry && attempt < EffectiveMax(policy, req) {
      again := true;
      return;
    }
    var released := session.ReleaseReservation(req.id, Failed);
    if isNew {
      FailureCompletes(before, moved, session.Now(), rows', policy, req, w, trace', attempt, released);
    }
    if released.Err? {
      out := Raised(released.error);
      return;
    }
    trace' := trace'.(path := trace'.path + [Failed], calls := trace'.calls + [Release(Failed)]);
  }

  /**
   A provider answers, and what it cost is over the limit: the commit raises, and inside the session the
   request stays IN_FLIGHT with its tokens reserved.
   */
  method CostOverLimit(hash: string) returns (session: Session, out: Outcome)
    requires |hash| == 64
    ensures out.Raised? && "k" in session.requests
    ensures session.requests["k"].status == InFlight && session.requests["k"].reservedTokens == 20
  {
    session := new Session(Tables(map["b" := Budget(1000, 0, 0, 5, 0)], map[]), map[]);
    var req := ExecutionRequest("k", "t", "b", hash, hash, 10, 10, 3);
    var world := World(_ => Some(("p", "m")), _ => Response(true, 10, 10, 6, None));
    ghost var before := session.Now();
    ghost var trace;
    out, trace := Execute(session, RetryPolicy(3), req, world);
    assert Admitted(before, req);
    assert StopsFor(RetryPolicy(3), req, world, trace.attempts);
    assert trace.attempts > 0 && world.respond(trace.attempts).success;
    assert Ended(before, session.Now(), req, world, trace.attempts, out);
  }
}
