/** The breaker on autonomous actions (karsasec/autonomous/circuit_breaker.py). */
module ActionBreaker {

  datatype Budget = Budget(maxAutoBlock: int, actionBudget: int, timeBudget: int, retryBudget: int)

  datatype Reason = Available | AlreadyTripped | TimeExceeded | RetriesReached | ActionsReached | AutoBlocksReached

  datatype Counters = Counters(autoBlocks: int, actions: int, retries: int, startTime: real, windowStart: real, tripped: bool)

  const WINDOW := 3600.0

  /** One check: the counters afterwards and why it was allowed or not. */
  function Check(b: Budget, c: Counters, now: real, isAutoBlock: bool, isRetry: bool): (Counters, Reason) {
    if c.tripped then (c, AlreadyTripped)
    else if b.timeBudget > 0 && now - c.startTime > b.timeBudget as real then (c.(tripped := true), TimeExceeded)
    else if isRetry && c.retries >= b.retryBudget then (c.(tripped := true), RetriesReached)
    else
      var d := c.(retries := if isRetry then c.retries + 1 else c.retries);
      var e := if now - d.windowStart > WINDOW then d.(windowStart := now, autoBlocks := 0) else d;
      if e.actions >= b.actionBudget then (e.(tripped := true), ActionsReached)
      else if isAutoBlock && e.autoBlocks >= b.maxAutoBlock then (e.(tripped := true), AutoBlocksReached)
      else (e.(actions := e.actions + 1, autoBlocks := if isAutoBlock then e.autoBlocks + 1 else e.autoBlocks), Available)
  }

  function Start(now: real): Counters {
    Counters(0, 0, 0, now, now, false)
  }

  class CircuitBreakerEngine {
    const budget: Budget
    var autoBlocks: int
    var actions: int
    var retries: int
    const startTime: real
    var windowStart: real
    var tripped: bool

    ghost function Now(): Counters
      reads this
    {
      Counters(autoBlocks, actions, retries, startTime, windowStart, tripped)
    }

    constructor (budget: Budget, now: real)
      ensures this.budget == budget && Now() == Start(now)
    {
      this.budget := budget;
      autoBlocks, actions, retries, tripped := 0, 0, 0, false;
      startTime, windowStart := now, now;
    }

    method CheckAndConsume(now: real, isAutoBlock: bool, isRetry: bool) returns (reason: Reason)
      modifies this
      ensures (Now(), reason) == Check(budget, old(Now()), now, isAutoBlock, isRetry)
    {
      if tripped {
        return AlreadyTripped;
      }
      if budget.timeBudget > 0 && now - startTime > budget.timeBudget as real {
        tripped := true;
        return TimeExceeded;
      }
      if isRetry {
        if retries >= budget.retryBudget {
          tripped := true;
          return RetriesReached;
        }
        retries := retries + 1;
      }
      if now - windowStart > WINDOW {
        windowStart := now;
        autoBlocks := 0;
      }
      if actions >= budget.actionBudget {
        tripped := true;
        return ActionsReached;
      }
      if isAutoBlock && autoBlocks >= budget.maxAutoBlock {
        tripped := true;
        return AutoBlocksReached;
      }
      actions := actions + 1;
      if isAutoBlock {
        autoBlocks := autoBlocks + 1;
      }
      reason := Available;
    }
  }

  // ----- runs -----

  datatype Op = Op(now: real, isAutoBlock: bool, isRetry: bool)

  function Step(b: Budget, c: Counters, op: Op): Counters {
    Check(b, c, op.now, op.isAutoBlock, op.isRetry).0
  }

  predicate Allows(b: Budget, c: Counters, op: Op) {
    Check(b, c, op.now, op.isAutoBlock, op.isRetry).1 == Available
  }

  function After(b: Budget, c: Counters, ops: seq<Op>): Counters
    decreases |ops|
  {
    if ops == [] then c else After(b, Step(b, c, ops[0]), ops[1..])
  }

  /** How many operations of a run are allowed, or how many auto-blocks. */
  ghost function Allowed(b: Budget, c: Counters, ops: seq<Op>, autoBlocksOnly: bool): nat
    decreases |ops|
  {
    if ops == [] then 0
    else (if Allows(b, c, ops[0]) && (autoBlocksOnly ==> ops[0].isAutoBlock) then 1 else 0)
         + Allowed(b, Step(b, c, ops[0]), ops[1..], autoBlocksOnly)
  }

  ghost predicate Timed(ops: seq<Op>, from: real, until: real) {
    && (forall i :: 0 <= i < |ops| ==> from <= ops[i].now <= until)
    && (forall i, j :: 0 <= i < j < |ops| ==> ops[i].now <= ops[j].now)
  }

  ghost function AtLeast0(n: int): nat {
    if n < 0 then 0 else n
  }

  ghost predicate Sane(b: Budget, c: Counters) {
    0 <= c.autoBlocks <= AtLeast0(b.maxAutoBlock) && 0 <= c.actions <= AtLeast0(b.actionBudget)
  }

  lemma {:induction false} AfterSane(b: Budget, c: Counters, ops: seq<Op>)
    requires Sane(b, c)
    ensures Sane(b, After(b, c, ops))
    decreases |ops|
  {
    if ops != [] {
      AfterSane(b, Step(b, c, ops[0]), ops[1..]);
    }
  }

  /** Allowed actions are exactly the actions counted, so over a whole run they stay within the budget. */
  lemma {:induction false} ActionsWithinBudget(b: Budget, c: Counters, ops: seq<Op>)
    requires Sane(b, c)
    ensures c.actions + Allowed(b, c, ops, false) == After(b, c, ops).actions <= AtLeast0(b.actionBudget)
    decreases |ops|
  {
    if ops != [] {
      ActionsWithinBudget(b, Step(b, c, ops[0]), ops[1..]);
    }
  }

  /** Nothing is allowed after a trip. */
  lemma {:induction false} NothingAfterTrip(b: Budget, c: Counters, ops: seq<Op>)
    requires c.tripped
    ensures After(b, c, ops) == c && Allowed(b, c, ops, false) == 0
    decreases |ops|
  {
    if ops != [] {
      NothingAfterTrip(b, c, ops[1..]);
    }
  }

  /** While the window cannot be reset, only what is left of it is allowed. */
  lemma {:induction false} WithinOneWindow(b: Budget, c: Counters, ops: seq<Op>, u: real, t: real)
    requires Sane(b, c) && Timed(ops, u, t) && t - c.windowStart <= WINDOW
    ensures Allowed(b, c, ops, true) <= AtLeast0(b.maxAutoBlock) - c.autoBlocks
    decreases |ops|
  {
    if ops != [] {
      WithinOneWindow(b, Step(b, c, ops[0]), ops[1..], u, t);
    }
  }

  /** A stretch of at most one window length sees at most one reset. */
  lemma {:induction false} WithinTwoWindows(b: Budget, c: Counters, ops: seq<Op>, u: real, t: real)
    requires Sane(b, c) && Timed(ops, u, t) && t - u <= WINDOW
    ensures Allowed(b, c, ops, true) <= 2 * AtLeast0(b.maxAutoBlock) - c.autoBlocks
    decreases |ops|
  {
    if ops != [] {
      var d := Step(b, c, ops[0]);
      if d.windowStart == c.windowStart {
        WithinTwoWindows(b, d, ops[1..], u, t);
      } else {
        WithinOneWindow(b, d, ops[1..], u, t);
      }
    }
  }

  /** Any 3600 seconds of any run contain at most twice the window limit of allowed auto-blocks. */
  lemma AutoBlocksInWindow(b: Budget, start: real, earlier: seq<Op>, during: seq<Op>, s: real)
    requires Timed(during, s, s + WINDOW)
    ensures Allowed(b, After(b, Start(start), earlier), during, true) <= 2 * AtLeast0(b.maxAutoBlock)
  {
    AfterSane(b, Start(start), earlier);
    WithinTwoWindows(b, After(b, Start(start), earlier), during, s, s + WINDOW);
  }

  // ----- what a check answers -----

  lemma {:induction false} AfterSnoc(b: Budget, c: Counters, ops: seq<Op>, op: Op)
    ensures After(b, c, ops + [op]) == Step(b, After(b, c, ops), op)
    decreases |ops|
  {
    if ops == [] {
      assert [op][1..] == [] && ops + [op] == [op];
    } else {
      assert (ops + [op])[0] == ops[0] && (ops + [op])[1..] == ops[1..] + [op];
      AfterSnoc(b, Step(b, c, ops[0]), ops[1..], op);
    }
  }

  ghost function Retries(ops: seq<Op>): nat {
    if ops == [] then 0 else Retries(ops[..|ops| - 1]) + if ops[|ops| - 1].isRetry then 1 else 0
  }

  /** When the window that is open at `now` began: a check more than an hour after its beginning begins another. */
  ghost function WindowBegan(start: real, ops: seq<Op>, now: real): real {
    var began := if ops == [] then start else WindowBegan(start, ops[..|ops| - 1], ops[|ops| - 1].now);
    if now - began > 3600.0 then now else began
  }

  /** The auto-blocks that count at `now`: those of the window, none if it begins now. */
  ghost function BlocksInWindow(start: real, ops: seq<Op>, now: real): nat {
    if ops == [] then 0
    else
      var init, last := ops[..|ops| - 1], ops[|ops| - 1];
      if now - WindowBegan(start, init, last.now) > 3600.0 then 0
      else BlocksInWindow(start, init, last.now) + if last.isAutoBlock then 1 else 0
  }

  /** What the budget says to one more call after `ops`, none of which was refused. */
  ghost function Answer(b: Budget, start: real, ops: seq<Op>, op: Op): Reason {
    if b.timeBudget > 0 && op.now > start + b.timeBudget as real then TimeExceeded
    else if op.isRetry && Retries(ops) >= b.retryBudget then RetriesReached
    else if |ops| >= b.actionBudget then ActionsReached
    else if op.isAutoBlock && BlocksInWindow(start, ops, op.now) >= b.maxAutoBlock then AutoBlocksReached
    else Available
  }

  /** Every call of the run was within the budget. */
  ghost predicate WithinBudget(b: Budget, start: real, ops: seq<Op>)
    decreases |ops|
  {
    ops == [] || (WithinBudget(b, start, ops[..|ops| - 1]) && Answer(b, start, ops[..|ops| - 1], ops[|ops| - 1]) == Available)
  }

  /** While nothing was refused the counters are those of the run; after a refusal the engine is tripped. */
  lemma {:induction false} CountersOfRun(b: Budget, start: real, ops: seq<Op>)
    ensures var c := After(b, Start(start), ops);
            && (c.tripped <==> !WithinBudget(b, start, ops)) && c.startTime == start
            && (WithinBudget(b, start, ops) ==>
                  && c.actions == |ops| && c.retries == Retries(ops)
                  && c.windowStart == (if ops == [] then start else WindowBegan(start, ops[..|ops| - 1], ops[|ops| - 1].now))
                  && forall now :: BlocksInWindow(start, ops, now) == if now - c.windowStart > 3600.0 then 0 else c.autoBlocks)
    decreases |ops|
  {
    if ops != [] {
      var init, last := ops[..|ops| - 1], ops[|ops| - 1];
      CountersOfRun(b, start, init);
      AfterSnoc(b, Start(start), init, last);
      assert ops == init + [last];
    }
  }

  /**
   Over every run: a check is answered by the budget as long as every check so far was within it, and
   refused once one was not.
   */
  lemma AnsweredExactly(b: Budget, start: real, ops: seq<Op>, op: Op)
    ensures Check(b, After(b, Start(start), ops), op.now, op.isAutoBlock, op.isRetry).1
         == if WithinBudget(b, start, ops) then Answer(b, start, ops, op) else AlreadyTripped
  {
    CountersOfRun(b, start, ops);
  }
}
