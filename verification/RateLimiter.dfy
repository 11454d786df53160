/** The request and token buckets of a provider (karsasec/ai/provider_rate_limiter.py). */
module RateLimiter {
  import opened Common

  /** One bucket: what remains, its capacity, its refill per second, and when it was last refilled. */
  datatype Bucket = Bucket(remaining: real, capacity: real, rate: real, lastRefill: real)

  datatype Row = Row(requests: Bucket, tokens: Bucket, cooldownUntil: Option<real>, cooldownReason: Option<string>)

  datatype Policy = Policy(rpmLimit: real, tpmLimit: real, burst: real)

  /** What the constructor of the policy accepts. */
  predicate PolicyOk(p: Policy) {
    p.rpmLimit > 0.0 && p.tpmLimit > 0.0 && p.burst >= 1.0
  }

  /** The limits a provider has when nothing else is asked for. */
  const DEFAULTS := Policy(60.0, 60000.0, 1.0)

  datatype Decision =
    | Allowed
    | InCooldown(reason: string, until: real, retryAfter: real)
    | RpmExceeded(retryAfter: real)
    | TpmExceeded(retryAfter: real)

  function Refill(b: Bucket, now: real): Bucket {
    b.(remaining := Min(b.capacity, b.remaining + Max(0.0, now - b.lastRefill) * b.rate), lastRefill := now)
  }

  function Take(b: Bucket, amount: real): Bucket {
    b.(remaining := b.remaining - amount)
  }

  function NewRow(p: Policy, now: real): Row {
    var maxRequests, maxTokens := p.rpmLimit * p.burst, p.tpmLimit * p.burst;
    Row(Bucket(maxRequests, maxRequests, p.rpmLimit / 60.0, now), Bucket(maxTokens, maxTokens, p.tpmLimit / 60.0, now), None, None)
  }

  /** The row that a cooldown creates when the provider has none. */
  function ThrottledRow(now: real, until: real, reason: string): Row {
    Row(Bucket(0.0, 60.0, 1.0, now), Bucket(0.0, 60000.0, 1000.0, now), Some(until), Some(reason))
  }

  /** Why a row in cooldown refuses, with the default of the source. */
  function CooldownReason(row: Row): string {
    if row.cooldownReason == None || row.cooldownReason == Some("") then "PROVIDER_COOLDOWN" else row.cooldownReason.value
  }

  function RetryAfter(b: Bucket, wanted: real): real {
    if b.rate > 0.0 then (wanted - b.remaining) / b.rate else 1.0
  }

  /** One check of an existing row: the row afterwards and the decision. */
  function Check(row: Row, now: real, requested: int): (Row, Decision) {
    if row.cooldownUntil.Some? && now < row.cooldownUntil.value then
      (row, InCooldown(CooldownReason(row), row.cooldownUntil.value, row.cooldownUntil.value - now))
    else
      var full := row.(requests := Refill(row.requests, now), tokens := Refill(row.tokens, now));
      if full.requests.remaining < 1.0 then (full, RpmExceeded(RetryAfter(full.requests, 1.0)))
      else if full.tokens.remaining < requested as real then (full, TpmExceeded(RetryAfter(full.tokens, requested as real)))
      else (full.(requests := Take(full.requests, 1.0), tokens := Take(full.tokens, requested as real)), Allowed)
  }

  class DistributedTokenBucket {
    var rows: map<(string, string), Row>

    constructor ()
      ensures rows == map[]
    {
      rows := map[];
    }

    method CheckAndConsume(now: real, providerId: string, modelId: string, policy: Policy, requested: int)
        returns (decision: Decision)
      requires PolicyOk(policy)
      modifies this
      ensures var key := (providerId, modelId);
              var (row, d) := Check(if key in old(rows) then old(rows)[key] else NewRow(policy, now), now, requested);
              decision == d && rows == old(rows)[key := row]
    {
      var key := (providerId, modelId);
      if key !in rows {
        rows := rows[key := NewRow(policy, now)];
      }
      var row := rows[key];
      if row.cooldownUntil.Some? && now < row.cooldownUntil.value {
        return InCooldown(CooldownReason(row), row.cooldownUntil.value, row.cooldownUntil.value - now);
      }
      row := row.(requests := Refill(row.requests, now));
      row := row.(tokens := Refill(row.tokens, now));
      rows := rows[key := row];
      if row.requests.remaining < 1.0 {
        return RpmExceeded(RetryAfter(row.requests, 1.0));
      }
      if row.tokens.remaining < requested as real {
        return TpmExceeded(RetryAfter(row.tokens, requested as real));
      }
      row := row.(requests := Take(row.requests, 1.0), tokens := Take(row.tokens, requested as real));
      rows := rows[key := row];
      decision := Allowed;
    }

    method SetCooldown(now: real, providerId: string, modelId: string, seconds: real, reason: string)
      modifies this
      ensures var key := (providerId, modelId);
              rows == old(rows)[key := if key in old(rows)
                                       then old(rows)[key].(cooldownUntil := Some(now + seconds), cooldownReason := Some(reason))
                                       else ThrottledRow(now, now + seconds, reason)]
    {
      var key := (providerId, modelId);
      if key !in rows {
        rows := rows[key := ThrottledRow(now, now + seconds, reason)];
      } else {
        rows := rows[key := rows[key].(cooldownUntil := Some(now + seconds), cooldownReason := Some(reason))];
      }
    }

    method IsInCooldown(now: real, providerId: string, modelId: string)
        returns (active: bool, reason: Option<string>, until: Option<real>)
      ensures active <==> (providerId, modelId) in rows && rows[(providerId, modelId)].cooldownUntil.Some?
                          && now < rows[(providerId, modelId)].cooldownUntil.value
      ensures if active then reason == rows[(providerId, modelId)].cooldownReason && until == rows[(providerId, modelId)].cooldownUntil
              else reason == None && until == None
    {
      active, reason, until := false, None, None;
      if (providerId, modelId) in rows {
        var row := rows[(providerId, modelId)];
        if row.cooldownUntil.Some? && now < row.cooldownUntil.value {
          active, reason, until := true, row.cooldownReason, row.cooldownUntil;
        }
      }
    }
  }

  // ----- what a bucket holds -----

  /** Nothing overdrawn, and parameters that make sense. */
  ghost predicate Solvent(b: Bucket) {
    b.remaining >= 0.0 && b.capacity >= 0.0 && b.rate > 0.0
  }

  ghost predicate RowOk(row: Row) {
    Solvent(row.requests) && Solvent(row.tokens)
  }

  ghost predicate InRange(b: Bucket) {
    0.0 <= b.remaining <= b.capacity
  }

  lemma RefillBounds(b: Bucket, now: real)
    requires Solvent(b)
    ensures Solvent(Refill(b, now)) && InRange(Refill(b, now))
    ensures b.remaining <= b.capacity ==> b.remaining <= Refill(b, now).remaining
  {
    MulNonNegative(Max(0.0, now - b.lastRefill), b.rate);
  }

  /** Rows are solvent from the moment they are created, by a check or by a cooldown. */
  lemma NewRowsOk(p: Policy, now: real, until: real, reason: string)
    requires PolicyOk(p)
    ensures RowOk(NewRow(p, now)) && InRange(NewRow(p, now).requests) && InRange(NewRow(p, now).tokens)
    ensures RowOk(ThrottledRow(now, until, reason))
    ensures InRange(ThrottledRow(now, until, reason).requests) && InRange(ThrottledRow(now, until, reason).tokens)
  {
    MulNonNegative(p.rpmLimit, p.burst);
    MulNonNegative(p.tpmLimit, p.burst);
  }

  lemma CheckKeepsRowOk(row: Row, now: real, requested: int)
    requires RowOk(row)
    ensures RowOk(Check(row, now, requested).0)
  {
    RefillBounds(row.requests, now);
    RefillBounds(row.tokens, now);
  }

  /**
   A check keeps both buckets within [0, capacity] whatever the row and the time, exactly when the
   number of tokens asked for is not negative (the source does not check it).
   */
  lemma RangeKeptIffNonNegative(requested: int)
    ensures (forall row, now :: RowOk(row) && InRange(row.requests) && InRange(row.tokens) ==>
               InRange(Check(row, now, requested).0.requests) && InRange(Check(row, now, requested).0.tokens))
            <==> requested >= 0
  {
    if requested >= 0 {
      forall row, now | RowOk(row) && InRange(row.requests) && InRange(row.tokens)
        ensures InRange(Check(row, now, requested).0.requests) && InRange(Check(row, now, requested).0.tokens)
      {
        RefillBounds(row.requests, now);
        RefillBounds(row.tokens, now);
      }
    } else {
      var row := NewRow(DEFAULTS, 0.0);
      NewRowsOk(DEFAULTS, 0.0, 0.0, "");
      assert row.requests.remaining == 60.0 && row.tokens == Bucket(60000.0, 60000.0, 1000.0, 0.0);
      LeavesRangeIff(row, 0.0, requested);
      assert !InRange(Check(row, 0.0, requested).0.tokens);
    }
  }

  /** A single check leaves the range exactly when it is allowed and gives back more than there is room for. */
  lemma LeavesRangeIff(row: Row, now: real, requested: int)
    requires RowOk(row) && InRange(row.requests) && InRange(row.tokens)
    ensures var after := Check(row, now, requested).0;
            !(InRange(after.requests) && InRange(after.tokens))
            <==> Check(row, now, requested).1 == Allowed
                 && Refill(row.tokens, now).remaining - requested as real > row.tokens.capacity
  {
    RefillBounds(row.requests, now);
    RefillBounds(row.tokens, now);
  }

  // ----- runs over one provider's row -----

  datatype Op = Try(now: real, requested: int) | Cool(now: real, seconds: real, reason: string)

  function Apply(row: Row, op: Op): Row {
    match op
    case Try(now, requested) => Check(row, now, requested).0
    case Cool(now, seconds, reason) => row.(cooldownUntil := Some(now + seconds), cooldownReason := Some(reason))
  }

  function After(row: Row, ops: seq<Op>): Row
    decreases |ops|
  {
    if ops == [] then row else After(Apply(row, ops[0]), ops[1..])
  }

  datatype Kind = Requests | Tokens

  ghost function Of(row: Row, kind: Kind): Bucket {
    if kind == Requests then row.requests else row.tokens
  }

  /** What an operation takes from a bucket. */
  ghost function Taken(row: Row, op: Op, kind: Kind): real {
    if op.Try? && Check(row, op.now, op.requested).1 == Allowed
    then if kind == Requests then 1.0 else op.requested as real
    else 0.0
  }

  /** All that a run admits, net of what negative requests give back: the number of requests, or of tokens. */
  ghost function Admitted(row: Row, ops: seq<Op>, kind: Kind): real
    decreases |ops|
  {
    if ops == [] then 0.0 else Taken(row, ops[0], kind) + Admitted(Apply(row, ops[0]), ops[1..], kind)
  }

  /** All that a run hands out: what negative requests give back does not count against it. */
  ghost function Granted(row: Row, ops: seq<Op>, kind: Kind): real
    decreases |ops|
  {
    if ops == [] then 0.0 else Max(0.0, Taken(row, ops[0], kind)) + Granted(Apply(row, ops[0]), ops[1..], kind)
  }

  ghost predicate AtLeast(ops: seq<Op>, least: int) {
    forall i :: 0 <= i < |ops| && ops[i].Try? ==> ops[i].requested >= least
  }

  /** Without negative requests the net sum is the sum handed out. */
  lemma {:induction false} GrantedIsAdmitted(row: Row, ops: seq<Op>, kind: Kind)
    requires AtLeast(ops, 0)
    ensures Granted(row, ops, kind) == Admitted(row, ops, kind)
    decreases |ops|
  {
    if ops != [] {
      assert ops[0].Try? ==> ops[0].requested >= 0;
      GrantedIsAdmitted(Apply(row, ops[0]), ops[1..], kind);
    }
  }

  /** The clock never runs backwards and stays within [from, until]. */
  ghost predicate Timed(ops: seq<Op>, from: real, until: real) {
    && (forall i :: 0 <= i < |ops| ==> from <= ops[i].now <= until)
    && (forall i, j :: 0 <= i < j < |ops| ==> ops[i].now <= ops[j].now)
  }

  lemma {:induction false} AfterKeepsRowOk(row: Row, ops: seq<Op>)
    requires RowOk(row)
    ensures RowOk(After(row, ops))
    ensures forall k :: Of(After(row, ops), k).capacity == Of(row, k).capacity && Of(After(row, ops), k).rate == Of(row, k).rate
    decreases |ops|
  {
    if ops != [] {
      if ops[0].Try? {
        CheckKeepsRowOk(row, ops[0].now, ops[0].requested);
      }
      forall k ensures Of(Apply(row, ops[0]), k).capacity == Of(row, k).capacity && Of(Apply(row, ops[0]), k).rate == Of(row, k).rate {
      }
      AfterKeepsRowOk(Apply(row, ops[0]), ops[1..]);
    }
  }

  /** What could be taken from the bucket at time `at`. */
  ghost function Available(b: Bucket, at: real): real {
    Refill(b, at).remaining
  }

  lemma Distribute(rate: real, u: real, v: real, t: real)
    ensures rate * (v - u) + rate * (t - v) == rate * (t - u)
  {
  }

  /** Between two moments a bucket gains at most its rate times the time between them. */
  lemma AvailableGrowth(b: Bucket, u: real, v: real)
    requires b.rate > 0.0 && u <= v
    ensures Available(b, v) <= Available(b, u) + Gain(b.rate, v - u)
  {
    var eu, ev := Max(0.0, u - b.lastRefill), Max(0.0, v - b.lastRefill);
    assert ev <= eu + (v - u);
    MulNonNegative(eu + (v - u) - ev, b.rate);
    MulNonNegative(v - u, b.rate);
    assert (eu + (v - u) - ev) * b.rate == eu * b.rate + b.rate * (v - u) - ev * b.rate;
  }

  /** After an operation at time `v`, what is left plus what was taken is what was available before. */
  lemma TakenFromAvailable(row: Row, op: Op, kind: Kind)
    requires RowOk(row)
    ensures RowOk(Apply(row, op)) && Of(Apply(row, op), kind).rate == Of(row, kind).rate
    ensures Of(Apply(row, op), kind).capacity == Of(row, kind).capacity
    ensures Available(Of(Apply(row, op), kind), op.now) + Taken(row, op, kind) <= Available(Of(row, kind), op.now)
  {
    var b := Of(row, kind);
    RefillBounds(row.requests, op.now);
    RefillBounds(row.tokens, op.now);
    if op.Try? {
      var b' := Of(Apply(row, op), kind);
      if b'.lastRefill == op.now {
        assert Max(0.0, op.now - b'.lastRefill) * b'.rate == 0.0;
      }
    }
  }

  /** The arithmetic of one step: what is taken at `v` and admitted after it was available at `u`. */
  lemma StepArithmetic(rate: real, u: real, v: real, t: real, taken: real, rest: real, atU: real, atV: real, left: real)
    requires rest <= left + Gain(rate, t - v)
    requires left + taken <= atV
    requires atV <= atU + Gain(rate, v - u)
    ensures taken + rest <= atU + Gain(rate, t - u)
  {
    Distribute(rate, u, v, t);
  }

  lemma TimedTail(ops: seq<Op>, u: real, t: real)
    requires Timed(ops, u, t) && ops != []
    ensures u <= ops[0].now <= t && Timed(ops[1..], ops[0].now, t)
  {
  }

  /** A bucket's gain over a stretch of time. */
  ghost function Gain(rate: real, seconds: real): (g: real)
    ensures rate >= 0.0 && seconds >= 0.0 ==> g >= 0.0
  {
    rate * seconds
  }

  lemma {:induction false} AdmittedWithinAvailable(row: Row, ops: seq<Op>, kind: Kind, u: real, t: real)
    requires RowOk(row) && u <= t && Timed(ops, u, t)
    ensures Admitted(row, ops, kind) <= Available(Of(row, kind), u) + Gain(Of(row, kind).rate, t - u)
    decreases |ops|
  {
    if ops == [] {
      RefillBounds(Of(row, kind), u);
    } else {
      var v, row' := ops[0].now, Apply(row, ops[0]);
      TimedTail(ops, u, t);
      TakenFromAvailable(row, ops[0], kind);
      AdmittedWithinAvailable(row', ops[1..], kind, v, t);
      AvailableGrowth(Of(row, kind), u, v);
      StepArithmetic(Of(row, kind).rate, u, v, t, Taken(row, ops[0], kind), Admitted(row', ops[1..], kind),
                     Available(Of(row, kind), u), Available(Of(row, kind), v), Available(Of(row', kind), v));
    }
  }

  /**
   The window bound: after any earlier operations, what is admitted in [s, t] is at most the capacity
   plus the refill of t - s seconds, for requests and for tokens alike.
   */
  lemma WindowBound(row: Row, earlier: seq<Op>, during: seq<Op>, kind: Kind, s: real, t: real)
    requires RowOk(row) && s <= t && Timed(during, s, t)
    ensures Admitted(After(row, earlier), during, kind) <= Of(row, kind).capacity + Gain(Of(row, kind).rate, t - s)
    ensures AtLeast(during, 0) ==>
              Granted(After(row, earlier), during, kind) <= Of(row, kind).capacity + Gain(Of(row, kind).rate, t - s)
  {
    var now := After(row, earlier);
    AfterKeepsRowOk(row, earlier);
    assert Of(now, kind).capacity == Of(row, kind).capacity && Of(now, kind).rate == Of(row, kind).rate;
    AdmittedWithinAvailable(now, during, kind, s, t);
    RefillBounds(Of(now, kind), s);
    if AtLeast(during, 0) {
      GrantedIsAdmitted(now, during, kind);
    }
  }

  /** A bucket that a policy creates: its capacity, and what it gains in a stretch of time. */
  ghost function PolicyLimit(p: Policy, kind: Kind, seconds: real): real {
    var limit := if kind == Requests then p.rpmLimit else p.tpmLimit;
    limit * p.burst + Gain(limit / 60.0, seconds)
  }

  lemma NewRowLimit(p: Policy, created: real, kind: Kind, seconds: real)
    ensures Of(NewRow(p, created), kind).capacity + Gain(Of(NewRow(p, created), kind).rate, seconds) == PolicyLimit(p, kind, seconds)
  {
  }

  /** The bound in terms of the policy, for a row that a check creates, from any moment on. */
  lemma PolicyBound(p: Policy, created: real, earlier: seq<Op>, during: seq<Op>, kind: Kind, s: real, t: real)
    requires PolicyOk(p) && s <= t && Timed(during, s, t)
    ensures Admitted(After(NewRow(p, created), earlier), during, kind) <= PolicyLimit(p, kind, t - s)
    ensures AtLeast(during, 0) ==> Granted(After(NewRow(p, created), earlier), during, kind) <= PolicyLimit(p, kind, t - s)
  {
    NewRowsOk(p, created, created, "");
    WindowBound(NewRow(p, created), earlier, during, kind, s, t);
    NewRowLimit(p, created, kind, t - s);
  }

  /** The same for a row that a cooldown creates: its limits are fixed, whatever the policy says. */
  lemma ThrottledBound(created: real, until: real, reason: string, earlier: seq<Op>, during: seq<Op>, kind: Kind, s: real, t: real)
    requires s <= t && Timed(during, s, t)
    ensures var limit := if kind == Requests then 60.0 + Gain(1.0, t - s) else 60000.0 + Gain(1000.0, t - s);
            var row := After(ThrottledRow(created, until, reason), earlier);
            Admitted(row, during, kind) <= limit && (AtLeast(during, 0) ==> Granted(row, during, kind) <= limit)
  {
    NewRowsOk(DEFAULTS, created, until, reason);
    WindowBound(ThrottledRow(created, until, reason), earlier, during, kind, s, t);
  }

  ghost predicate GrantsWithin(p: Policy, created: real, earlier: seq<Op>, during: seq<Op>, s: real, t: real) {
    Granted(After(NewRow(p, created), earlier), during, Tokens) <= PolicyLimit(p, Tokens, t - s)
  }

  /** The tokens handed out are bounded, over every policy and every run whose requests are at least `least`. */
  ghost predicate GrantsBounded(least: int) {
    forall p, created, earlier, during, s, t ::
      PolicyOk(p) && s <= t && Timed(during, s, t) && AtLeast(during, least) ==> GrantsWithin(p, created, earlier, during, s, t)
  }

  lemma NonNegativeWithin(p: Policy, created: real, earlier: seq<Op>, during: seq<Op>, s: real, t: real)
    requires PolicyOk(p) && s <= t && Timed(during, s, t) && AtLeast(during, 0)
    ensures GrantsWithin(p, created, earlier, during, s, t)
  {
    PolicyBound(p, created, earlier, during, Tokens, s, t);
  }

  /**
   The bound on what is handed out holds exactly when negative requests are excluded: a caller may give
   one token back and take it again.
   */
  lemma GrantsBoundedIffNonNegative(least: int)
    ensures GrantsBounded(least) <==> least >= 0
  {
    if least >= 0 {
      forall p, created, earlier, during, s, t | PolicyOk(p) && s <= t && Timed(during, s, t) && AtLeast(during, least)
        ensures GrantsWithin(p, created, earlier, during, s, t)
      {
        NonNegativeWithin(p, created, earlier, during, s, t);
      }
    } else {
      NegativeUnbounded(least);
    }
  }

  lemma NegativeUnbounded(least: int)
    requires least < 0
    ensures !GrantsBounded(least)
  {
    var ops := [Try(0.0, 60000), Try(0.0, -1), Try(0.0, 1)];
    assert PolicyOk(DEFAULTS) && Timed(ops, 0.0, 0.0) && AtLeast(ops, least);
    NotWithin();
  }

  lemma NotWithin()
    ensures !GrantsWithin(DEFAULTS, 0.0, [], [Try(0.0, 60000), Try(0.0, -1), Try(0.0, 1)], 0.0, 0.0)
  {
    GivenBackAndTaken();
    assert After(NewRow(DEFAULTS, 0.0), []) == NewRow(DEFAULTS, 0.0);
    assert PolicyLimit(DEFAULTS, Tokens, 0.0) == 60000.0;
  }

  /** One run with the default limits: 60001 tokens in a single moment. */
  lemma GivenBackAndTaken()
    ensures Granted(NewRow(DEFAULTS, 0.0), [Try(0.0, 60000), Try(0.0, -1), Try(0.0, 1)], Tokens) == 60001.0
  {
    var row := NewRow(DEFAULTS, 0.0);
    var requests, tokens := row.requests, row.tokens;
    assert requests == Bucket(60.0, 60.0, 1.0, 0.0) && tokens == Bucket(60000.0, 60000.0, 1000.0, 0.0);
    var row1 := Row(Bucket(59.0, 60.0, 1.0, 0.0), Bucket(0.0, 60000.0, 1000.0, 0.0), None, None);
    var row2 := Row(Bucket(58.0, 60.0, 1.0, 0.0), Bucket(1.0, 60000.0, 1000.0, 0.0), None, None);
    assert Check(row, 0.0, 60000) == (row1, Allowed);
    assert Check(row1, 0.0, -1) == (row2, Allowed);
    assert Check(row2, 0.0, 1).1 == Allowed;
    var ops := [Try(0.0, 60000), Try(0.0, -1), Try(0.0, 1)];
    assert ops[1..] == [Try(0.0, -1), Try(0.0, 1)] && ops[1..][1..] == [Try(0.0, 1)] && ops[1..][1..][1..] == [];
    assert Granted(Apply(row2, ops[2]), [], Tokens) == 0.0;
  }

  // ----- what a check answers -----

  ghost predicate NoCool(ops: seq<Op>) {
    forall i :: 0 <= i < |ops| ==> ops[i].Try?
  }

  lemma {:induction false} CooldownStays(row: Row, ops: seq<Op>)
    requires NoCool(ops)
    ensures After(row, ops).cooldownUntil == row.cooldownUntil && After(row, ops).cooldownReason == row.cooldownReason
    decreases |ops|
  {
    if ops != [] {
      CooldownStays(Apply(row, ops[0]), ops[1..]);
    }
  }

  /**
   From the moment a cooldown is set until it ends, or another is set, every check is refused with its
   reason, its end and the time that remains, and takes nothing from either bucket; whatever is checked
   in between, at whatever times.
   */
  lemma CooldownRefuses(row: Row, start: real, seconds: real, reason: string, ops: seq<Op>, now: real, requested: int)
    requires NoCool(ops) && now < start + seconds
    ensures var cooled := After(Apply(row, Cool(start, seconds, reason)), ops);
            var (after, decision) := Check(cooled, now, requested);
            && decision == InCooldown(if reason == "" then "PROVIDER_COOLDOWN" else reason, start + seconds, start + seconds - now)
            && after.requests == cooled.requests && after.tokens == cooled.tokens
  {
    CooldownStays(Apply(row, Cool(start, seconds, reason)), ops);
  }

  /** And while it lasts the buckets stay as they were when it was set. */
  lemma {:induction false} CooldownFreezes(row: Row, until: real, ops: seq<Op>)
    requires NoCool(ops) && row.cooldownUntil == Some(until) && forall i :: 0 <= i < |ops| ==> ops[i].now < until
    ensures After(row, ops) == row
    decreases |ops|
  {
    if ops != [] {
      assert Apply(row, ops[0]) == row;
      CooldownFreezes(row, until, ops[1..]);
    }
  }

  /** What a bucket holds at a time: what was left, and the refill since, up to its capacity. */
  ghost predicate Holds(b: Bucket, now: real, amount: real) {
    var gained := if now > b.lastRefill then (now - b.lastRefill) * b.rate else 0.0;
    amount == if b.remaining + gained > b.capacity then b.capacity else b.remaining + gained
  }

  ghost predicate CoolingAt(row: Row, now: real) {
    row.cooldownUntil.Some? && now < row.cooldownUntil.value
  }

  /**
   Outside a cooldown a check is allowed exactly when one request and the tokens asked for are there
   after the refill; otherwise it names the bucket that is short, requests first, and how long its
   refill takes. What is left is what was there, less what is taken when it is allowed.
   */
  lemma AllowedExactlyWhen(row: Row, now: real, requested: int, requests: real, tokens: real)
    requires !CoolingAt(row, now) && row.requests.rate > 0.0 && row.tokens.rate > 0.0
    requires Holds(row.requests, now, requests) && Holds(row.tokens, now, tokens)
    ensures var (after, d) := Check(row, now, requested);
            var wanted := requested as real;
            && (d == Allowed <==> requests >= 1.0 && tokens >= wanted)
            && (requests < 1.0 ==> d == RpmExceeded((1.0 - requests) / row.requests.rate))
            && (requests >= 1.0 && tokens < wanted ==> d == TpmExceeded((wanted - tokens) / row.tokens.rate))
            && after == row.(requests := row.requests.(lastRefill := now, remaining := if d == Allowed then requests - 1.0 else requests),
                             tokens := row.tokens.(lastRefill := now, remaining := if d == Allowed then tokens - wanted else tokens))
  {
  }

  lemma HoldsIsRefill(b: Bucket, now: real)
    ensures Holds(b, now, Refill(b, now).remaining)
  {
  }

  /** Over runs: once the last cooldown has ended, or with none at all, a check is decided by the two buckets alone. */
  lemma RunAllowedExactlyWhen(row: Row, ops: seq<Op>, now: real, requested: int)
    requires RowOk(row) && !CoolingAt(After(row, ops), now)
    ensures var at := After(row, ops);
            exists requests, tokens :: Holds(at.requests, now, requests) && Holds(at.tokens, now, tokens) &&
              (Check(at, now, requested).1 == Allowed <==> requests >= 1.0 && tokens >= requested as real)
  {
    var at := After(row, ops);
    AfterKeepsRowOk(row, ops);
    assert at.requests == Of(at, Requests) && at.tokens == Of(at, Tokens);
    var requests, tokens := Refill(at.requests, now).remaining, Refill(at.tokens, now).remaining;
    HoldsIsRefill(at.requests, now);
    HoldsIsRefill(at.tokens, now);
    AllowedExactlyWhen(at, now, requested, requests, tokens);
  }

  /** A row that a cooldown creates starts empty; one that a check creates starts full. */
  lemma NewRowsHold(p: Policy, now: real, until: real, reason: string)
    ensures Holds(NewRow(p, now).requests, now, p.rpmLimit * p.burst) && Holds(NewRow(p, now).tokens, now, p.tpmLimit * p.burst)
    ensures !CoolingAt(NewRow(p, now), now)
    ensures Holds(ThrottledRow(now, until, reason).requests, now, 0.0) && Holds(ThrottledRow(now, until, reason).tokens, now, 0.0)
    ensures ThrottledRow(now, until, reason).cooldownUntil == Some(until)
    ensures ThrottledRow(now, until, reason).cooldownReason == Some(reason)
  {
  }

  // ----- the promised waiting time -----

  lemma DivideBack(d: real, r: real)
    requires r > 0.0
    ensures (d / r) * r == d
    ensures d > 0.0 ==> d / r > 0.0
  {
  }

  /** Waiting exactly long enough for the missing amount fills the bucket up to it, if it can hold it. */
  lemma RefillAfterWait(b: Bucket, wanted: real, now: real, sooner: real)
    requires Solvent(b) && InRange(b) && b.lastRefill == now && b.remaining < wanted
    ensures RetryAfter(b, wanted) > 0.0
    ensures Refill(b, now + RetryAfter(b, wanted)).remaining >= wanted <==> b.capacity >= wanted
    ensures now <= sooner < now + RetryAfter(b, wanted) ==> Refill(b, sooner).remaining < wanted
  {
    var wait := RetryAfter(b, wanted);
    DivideBack(wanted - b.remaining, b.rate);
    assert Max(0.0, now + wait - now) == wait;
    if now <= sooner < now + wait {
      var elapsed := sooner - now;
      ShorterFillsLess(b.rate, elapsed, wait);
      assert Max(0.0, sooner - now) == elapsed;
      assert b.remaining + elapsed * b.rate < wanted;
    }
  }

  lemma ShorterFillsLess(rate: real, d: real, wait: real)
    requires rate > 0.0 && d < wait
    ensures d * rate < wait * rate
  {
    var more := wait - d;
    assert more * rate > 0.0;
    assert wait * rate == d * rate + more * rate;
  }

  /**
   A check refused for requests passes that bucket after waiting the returned time, and not before,
   exactly when the bucket can hold one request at all.
   */
  lemma WaitThenRequestsPass(row: Row, now: real, requested: int, again: int, sooner: real)
    requires RowOk(row) && Check(row, now, requested).1.RpmExceeded?
    ensures var (after, refused) := Check(row, now, requested);
            && refused.retryAfter > 0.0
            && (!Check(after, now + refused.retryAfter, again).1.RpmExceeded? <==> row.requests.capacity >= 1.0)
            && (now <= sooner < now + refused.retryAfter ==> Check(after, sooner, again).1.RpmExceeded?)
  {
    RefillBounds(row.requests, now);
    RefillAfterWait(Refill(row.requests, now), 1.0, now, sooner);
  }

  /** A check refused for tokens is admitted after the returned time exactly when the bucket can hold that many. */
  lemma WaitThenTokensPass(row: Row, now: real, requested: int, sooner: real)
    requires RowOk(row) && Check(row, now, requested).1.TpmExceeded?
    ensures var (after, refused) := Check(row, now, requested);
            && refused.retryAfter > 0.0
            && (Check(after, now + refused.retryAfter, requested).1 == Allowed <==> row.tokens.capacity >= requested as real)
            && (now <= sooner < now + refused.retryAfter ==> Check(after, sooner, requested).1.TpmExceeded?)
  {
    var (after, refused) := Check(row, now, requested);
    RefillBounds(row.requests, now);
    RefillBounds(row.tokens, now);
    RefillAfterWait(after.tokens, requested as real, now, sooner);
    RefillBounds(after.requests, now + refused.retryAfter);
    RefillBounds(after.requests, sooner);
  }

  /** A check for more than a bucket can hold is never allowed, whatever came before and however long one waits. */
  lemma OversizedNeverAllowed(row: Row, earlier: seq<Op>, now: real, requested: int)
    requires RowOk(row) && (row.requests.capacity < 1.0 || row.tokens.capacity < requested as real)
    ensures Check(After(row, earlier), now, requested).1 != Allowed
  {
    AfterKeepsRowOk(row, earlier);
    var b := After(row, earlier);
    assert b.requests == Of(b, Requests) && b.tokens == Of(b, Tokens);
    assert row.requests == Of(row, Requests) && row.tokens == Of(row, Tokens);
  }

  /** A caller that asks for one token too many is told to wait, waits exactly as long, and is refused again. */
  lemma WaitInVain()
    ensures PolicyOk(DEFAULTS)
    ensures var (after, refused) := Check(NewRow(DEFAULTS, 0.0), 0.0, 60001);
            && refused.TpmExceeded? && refused.retryAfter > 0.0
            && Check(after, refused.retryAfter, 60001).1.TpmExceeded?
  {
    var row := NewRow(DEFAULTS, 0.0);
    NewRowsOk(DEFAULTS, 0.0, 0.0, "");
    assert row.requests.remaining == 60.0 && row.tokens.remaining == 60000.0 && row.tokens.capacity == 60000.0;
    assert Check(row, 0.0, 60001).1.TpmExceeded?;
    WaitThenTokensPass(row, 0.0, 60001, 0.0);
    var (after, refused) := Check(row, 0.0, 60001);
    RefillBounds(row.requests, 0.0);
    RefillBounds(after.requests, refused.retryAfter);
    assert after.requests.remaining >= 1.0;
  }
}
