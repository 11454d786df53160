/** The provider circuit breaker (karsasec/ai/circuit_breaker.py). */
module ProviderBreaker {
  import opened Common

  datatype CircuitState = Closed | Open | HalfOpen

  /** `failures` is the sliding window: true for a provider failure, false for a success. */
  datatype Circuit = Circuit(state: CircuitState, failures: seq<bool>, openedAt: Option<real>,
                             cooldownUntil: Option<real>, activeProbes: nat)

  datatype Config = Config(windowSize: int, threshold: real, minSamples: int, cooldown: real, maxProbes: int)

  /** What the constructor accepts. */
  predicate ConfigOk(cfg: Config) {
    cfg.windowSize >= 1 && 0.0 < cfg.threshold <= 1.0 && cfg.minSamples >= 1 && cfg.cooldown > 0.0 && cfg.maxProbes >= 1
  }

  const NEW_CIRCUIT := Circuit(Closed, [], None, None, 0)

  function CountTrue(s: seq<bool>): nat {
    if s == [] then 0 else CountTrue(s[..|s| - 1]) + if s[|s| - 1] then 1 else 0
  }

  /** Appending to the sliding window drops the oldest entry once the window is full. */
  function Slide(cfg: Config, window: seq<bool>, outcome: bool): seq<bool> {
    var longer := window + [outcome];
    if |longer| > cfg.windowSize then longer[1..] else longer
  }

  predicate TooManyFailures(cfg: Config, window: seq<bool>) {
    |window| >= cfg.minSamples && |window| > 0 && CountTrue(window) as real / |window| as real >= cfg.threshold
  }

  /** An open circuit whose cooldown has elapsed counts as half open from now on. */
  function Expire(cfg: Config, c: Circuit, now: real): Circuit {
    if c.state == Open && c.openedAt.Some? && now - c.openedAt.value >= cfg.cooldown
    then c.(state := HalfOpen, activeProbes := 0) else c
  }

  // ----- the operations on one circuit -----

  datatype Op =
    | GetState(now: real)
    | IsOpen(now: real)
    | Throttle(now: real, seconds: real)
    | Success(now: real)
    | Failure(now: real, providerFailure: bool, throttled: bool)

  /** Whether `is_open` answers True, and the circuit afterwards. */
  function Ask(cfg: Config, c: Circuit, now: real): (Circuit, bool) {
    if c.cooldownUntil.Some? && now < c.cooldownUntil.value then (c, true)
    else
      var d := Expire(cfg, c.(cooldownUntil := None), now);
      match d.state
      case Closed => (d, false)
      case Open => (d, true)
      case HalfOpen => if d.activeProbes < cfg.maxProbes then (d.(activeProbes := d.activeProbes + 1), false) else (d, true)
  }

  function Succeed(cfg: Config, c: Circuit, now: real): Circuit {
    var d := Expire(cfg, c, now);
    match d.state
    case HalfOpen => d.(state := Closed, failures := [], activeProbes := 0, openedAt := None)
    case Closed => d.(failures := Slide(cfg, d.failures, false))
    case Open => d
  }

  function Fail(cfg: Config, c: Circuit, now: real, providerFailure: bool, throttled: bool): Circuit {
    if !providerFailure then c
    else
      var cooled := if throttled then c.(cooldownUntil := Some(now + cfg.cooldown)) else c;
      var d := Expire(cfg, cooled, now);
      match d.state
      case HalfOpen => d.(state := Open, openedAt := Some(now), activeProbes := 0)
      case Closed =>
        var e := d.(failures := Slide(cfg, d.failures, true));
        if TooManyFailures(cfg, e.failures) then e.(state := Open, openedAt := Some(now), activeProbes := 0) else e
      case Open => d
  }

  function Apply(cfg: Config, c: Circuit, op: Op): Circuit {
    match op
    case GetState(now) => Expire(cfg, c, now)
    case IsOpen(now) => Ask(cfg, c, now).0
    case Throttle(now, seconds) => c.(cooldownUntil := Some(now + seconds))
    case Success(now) => Succeed(cfg, c, now)
    case Failure(now, providerFailure, throttled) => Fail(cfg, c, now, providerFailure, throttled)
  }

  /** The breaker: one circuit per provider and model, created on first use. */
  class ProviderCircuitBreaker {
    const cfg: Config
    var circuits: map<(string, string), Circuit>

    constructor (cfg: Config)
      requires ConfigOk(cfg)
      ensures this.cfg == cfg && circuits == map[]
    {
      this.cfg, circuits := cfg, map[];
    }

    function Get(key: (string, string)): Circuit
      reads this
    {
      if key in circuits then circuits[key] else NEW_CIRCUIT
    }

    method GetOrCreate(key: (string, string)) returns (c: Circuit)
      modifies this
      ensures c == old(Get(key)) && circuits == old(circuits)[key := c]
    {
      if key !in circuits {
        circuits := circuits[key := NEW_CIRCUIT];
      }
      c := circuits[key];
    }

    method QueryState(key: (string, string), now: real) returns (state: CircuitState)
      modifies this
      ensures circuits == old(circuits)[key := Apply(cfg, old(Get(key)), GetState(now))] && state == circuits[key].state
    {
      var c := GetOrCreate(key);
      if c.state == Open {
        if c.openedAt.Some? && now - c.openedAt.value >= cfg.cooldown {
          c := c.(state := HalfOpen, activeProbes := 0);
          circuits := circuits[key := c];
        }
      }
      state := c.state;
    }

    method QueryOpen(key: (string, string), now: real) returns (open: bool)
      modifies this
      ensures circuits == old(circuits)[key := Apply(cfg, old(Get(key)), IsOpen(now))]
      ensures open == Ask(cfg, old(Get(key)), now).1
    {
      var c := GetOrCreate(key);
      if c.cooldownUntil.Some? {
        if now < c.cooldownUntil.value {
          return true;
        }
        c := c.(cooldownUntil := None);
        circuits := circuits[key := c];
      }
      if c.state == Closed {
        return false;
      }
      if c.state == Open {
        if c.openedAt.Some? && now - c.openedAt.value >= cfg.cooldown {
          c := c.(state := HalfOpen, activeProbes := 0);
          circuits := circuits[key := c];
        } else {
          return true;
        }
      }
      if c.activeProbes < cfg.maxProbes {
        circuits := circuits[key := c.(activeProbes := c.activeProbes + 1)];
        return false;
      }
      open := true;
    }

    method RecordThrottling(key: (string, string), now: real, seconds: real)
      modifies this
      ensures circuits == old(circuits)[key := Apply(cfg, old(Get(key)), Throttle(now, seconds))]
    {
      var c := GetOrCreate(key);
      circuits := circuits[key := c.(cooldownUntil := Some(now + seconds))];
    }

    method RecordSuccess(key: (string, string), now: real)
      modifies this
      ensures circuits == old(circuits)[key := Apply(cfg, old(Get(key)), Success(now))]
    {
      var c := GetOrCreate(key);
      if c.state == Open && c.openedAt.Some? && now - c.openedAt.value >= cfg.cooldown {
        c := c.(state := HalfOpen, activeProbes := 0);
      }
      if c.state == HalfOpen {
        c := c.(state := Closed, failures := [], activeProbes := 0, openedAt := None);
      } else if c.state == Closed {
        c := c.(failures := c.failures + [false]);
        if |c.failures| > cfg.windowSize {
          c := c.(failures := c.failures[1..]);
        }
      }
      circuits := circuits[key := c];
    }

    method RecordFailure(key: (string, string), now: real, providerFailure: bool, throttled: bool)
      requires ConfigOk(cfg)
      modifies this
      ensures circuits == if providerFailure
                          then old(circuits)[key := Apply(cfg, old(Get(key)), Failure(now, providerFailure, throttled))]
                          else old(circuits)
    {
      if !providerFailure {
        return;
      }
      var c := GetOrCreate(key);
      if throttled {
        c := c.(cooldownUntil := Some(now + cfg.cooldown));
      }
      if c.state == Open && c.openedAt.Some? && now - c.openedAt.value >= cfg.cooldown {
        c := c.(state := HalfOpen, activeProbes := 0);
      }
      if c.state == HalfOpen {
        c := c.(state := Open, openedAt := Some(now), activeProbes := 0);
      } else if c.state == Closed {
        c := c.(failures := c.failures + [true]);
        if |c.failures| > cfg.windowSize {
          c := c.(failures := c.failures[1..]);
        }
        if TooManyFailures(cfg, c.failures) {
          c := c.(state := Open, openedAt := Some(now), activeProbes := 0);
        }
      }
      circuits := circuits[key := c];
    }
  }

  // ----- runs of one circuit -----

  function After(cfg: Config, c: Circuit, ops: seq<Op>): Circuit
    decreases |ops|
  {
    if ops == [] then c else Apply(cfg, After(cfg, c, ops[..|ops| - 1]), ops[|ops| - 1])
  }

  /** The outcome an operation records in a closed circuit, if it records one. */
  ghost function Outcome(op: Op): Option<bool> {
    if op.Success? then Some(false) else if op.Failure? && op.providerFailure then Some(true) else None
  }

  /** The outcomes recorded while the circuit was closed, since it last closed. */
  ghost function Recorded(cfg: Config, ops: seq<Op>): seq<bool>
    decreases |ops|
  {
    if ops == [] then []
    else
      var init, op := ops[..|ops| - 1], ops[|ops| - 1];
      var before, after := After(cfg, NEW_CIRCUIT, init), After(cfg, NEW_CIRCUIT, ops);
      if before.state != Closed && after.state == Closed then []
      else if before.state == Closed && Outcome(op).Some? then Recorded(cfg, init) + [Outcome(op).value]
      else Recorded(cfg, init)
  }

  ghost function LastN(s: seq<bool>, n: int): seq<bool> {
    if n <= 0 then [] else if |s| <= n then s else s[|s| - n..]
  }

  lemma SlideIsLastN(cfg: Config, history: seq<bool>, outcome: bool)
    requires ConfigOk(cfg)
    ensures Slide(cfg, LastN(history, cfg.windowSize), outcome) == LastN(history + [outcome], cfg.windowSize)
  {
  }

  /** The window is exactly the last outcomes recorded since the circuit last closed, over every run. */
  lemma {:induction false} WindowIsRecent(cfg: Config, ops: seq<Op>)
    requires ConfigOk(cfg)
    ensures After(cfg, NEW_CIRCUIT, ops).failures == LastN(Recorded(cfg, ops), cfg.windowSize)
    decreases |ops|
  {
    if ops != [] {
      var init, op := ops[..|ops| - 1], ops[|ops| - 1];
      WindowIsRecent(cfg, init);
      WindowStep(cfg, After(cfg, NEW_CIRCUIT, init), Recorded(cfg, init), op);
    }
  }

  lemma WindowStep(cfg: Config, c: Circuit, recorded: seq<bool>, op: Op)
    requires ConfigOk(cfg) && c.failures == LastN(recorded, cfg.windowSize)
    ensures var c' := Apply(cfg, c, op);
            c'.failures == if c.state != Closed && c'.state == Closed then []
                           else if c.state == Closed && Outcome(op).Some? then LastN(recorded + [Outcome(op).value], cfg.windowSize)
                           else LastN(recorded, cfg.windowSize)
  {
    if Outcome(op).Some? {
      SlideIsLastN(cfg, recorded, Outcome(op).value);
    }
  }

  /**
   Recording an outcome in a closed circuit opens it exactly when the outcome is a provider failure
   and the last outcomes, this one included, are enough samples with a failure fraction at or above
   the threshold. No other operation opens a closed circuit.
   */
  lemma OpensExactlyWhen(cfg: Config, ops: seq<Op>, op: Op)
    requires ConfigOk(cfg) && After(cfg, NEW_CIRCUIT, ops).state == Closed
    ensures After(cfg, NEW_CIRCUIT, ops + [op]).state == Open
       <==> op.Failure? && op.providerFailure && MeetsThreshold(cfg, LastN(Recorded(cfg, ops) + [true], cfg.windowSize))
  {
    WindowIsRecent(cfg, ops);
    assert (ops + [op])[..|ops|] == ops;
    RecentFailuresOpen(cfg, After(cfg, NEW_CIRCUIT, ops), Recorded(cfg, ops), op);
  }

  /** The failure fraction of the last outcomes is at or above the threshold, over enough samples. */
  ghost predicate MeetsThreshold(cfg: Config, window: seq<bool>) {
    |window| >= cfg.minSamples && CountTrue(window) as real >= cfg.threshold * |window| as real
  }

  lemma RecentFailuresOpen(cfg: Config, c: Circuit, recorded: seq<bool>, op: Op)
    requires ConfigOk(cfg) && c.state == Closed && c.failures == LastN(recorded, cfg.windowSize)
    ensures Apply(cfg, c, op).state == Open
       <==> op.Failure? && op.providerFailure && MeetsThreshold(cfg, LastN(recorded + [true], cfg.windowSize))
  {
    SlideIsLastN(cfg, recorded, true);
    ClosedOpens(cfg, c, op);
    EnoughFailures(cfg, LastN(recorded + [true], cfg.windowSize));
  }

  lemma ClosedOpens(cfg: Config, c: Circuit, op: Op)
    requires c.state == Closed
    ensures Apply(cfg, c, op).state == Open
       <==> op.Failure? && op.providerFailure && TooManyFailures(cfg, Slide(cfg, c.failures, true))
  {
  }

  lemma EnoughFailures(cfg: Config, window: seq<bool>)
    requires ConfigOk(cfg)
    ensures TooManyFailures(cfg, window) <==> MeetsThreshold(cfg, window)
  {
    if |window| > 0 {
      FractionAsProduct(CountTrue(window), |window|, cfg.threshold);
    }
  }

  lemma FractionAsProduct(count: nat, size: nat, threshold: real)
    requires size > 0
    ensures count as real / size as real >= threshold <==> count as real >= threshold * size as real
  {
    var q := count as real / size as real;
    assert q * size as real == count as real;
    assert (q - threshold) * size as real == count as real - threshold * size as real;
    if q >= threshold {
      assert (q - threshold) * size as real >= 0.0;
    } else {
      assert (threshold - q) * size as real > 0.0;
    }
  }

  /** Times never run backwards and lie in [from, until). */
  ghost predicate Timed(ops: seq<Op>, from: real, until: real) {
    forall i :: 0 <= i < |ops| ==> from <= ops[i].now < until
  }

  /** From opening until the cooldown has elapsed the circuit stays open, whatever is called. */
  lemma {:induction false} StaysOpen(cfg: Config, c: Circuit, ops: seq<Op>, openedAt: real)
    requires c.state == Open && c.openedAt == Some(openedAt) && Timed(ops, openedAt, openedAt + cfg.cooldown)
    ensures After(cfg, c, ops).state == Open && After(cfg, c, ops).openedAt == Some(openedAt)
    decreases |ops|
  {
    if ops != [] {
      StaysOpen(cfg, c, ops[..|ops| - 1], openedAt);
    }
  }

  /** A call that opens the circuit, or opens it again after a failed probe. */
  ghost predicate Opens(cfg: Config, c: Circuit, op: Op) {
    Apply(cfg, c, op).state == Open && (c.state != Open || Apply(cfg, c, op).openedAt != c.openedAt)
  }

  lemma OpeningStamps(cfg: Config, c: Circuit, op: Op)
    requires Opens(cfg, c, op)
    ensures Apply(cfg, c, op).openedAt == Some(op.now)
  {
  }

  /** From every call that opens the circuit, every `is_open` before the cooldown has elapsed answers True. */
  lemma OpenRefuses(cfg: Config, c: Circuit, op: Op, during: seq<Op>, now: real)
    requires Opens(cfg, c, op) && Timed(during, op.now, op.now + cfg.cooldown)
    requires op.now <= now < op.now + cfg.cooldown
    ensures Ask(cfg, After(cfg, Apply(cfg, c, op), during), now).1
  {
    OpeningStamps(cfg, c, op);
    StaysOpen(cfg, Apply(cfg, c, op), during, op.now);
  }

  // ----- closing and opening again -----

  ghost predicate NoOutcome(ops: seq<Op>) {
    forall i :: 0 <= i < |ops| ==> Outcome(ops[i]).None?
  }

  /** Calls that record no outcome leave a half-open circuit half open. */
  lemma {:induction false} HalfOpenStays(cfg: Config, c: Circuit, ops: seq<Op>)
    requires c.state == HalfOpen && NoOutcome(ops)
    ensures After(cfg, c, ops).state == HalfOpen
    decreases |ops|
  {
    if ops != [] {
      HalfOpenStays(cfg, c, ops[..|ops| - 1]);
    }
  }

  lemma AfterSnoc(cfg: Config, c: Circuit, ops: seq<Op>, op: Op)
    ensures After(cfg, c, ops + [op]) == Apply(cfg, After(cfg, c, ops), op)
  {
    assert (ops + [op])[..|ops|] == ops;
  }

  /**
   The first outcome recorded for a half-open circuit decides it: it is a success exactly when the
   circuit is closed afterwards, with an empty window, and a provider failure exactly when it is open
   again, from the time of that call on.
   */
  lemma ProbeDecides(cfg: Config, c: Circuit, ops: seq<Op>, op: Op)
    requires c.state == HalfOpen && NoOutcome(ops) && Outcome(op).Some?
    ensures var d := After(cfg, c, ops + [op]);
            && (op.Success? <==> d.state == Closed) && (op.Failure? <==> d.state == Open)
            && (d.state == Closed ==> d.failures == [] && d.openedAt == None && d.activeProbes == 0)
            && (d.state == Open ==> d.openedAt == Some(op.now) && d.activeProbes == 0)
  {
    HalfOpenStays(cfg, c, ops);
    AfterSnoc(cfg, c, ops, op);
  }

  /** The same decides a circuit that is still recorded as open although its cooldown has elapsed. */
  lemma ElapsedDecides(cfg: Config, c: Circuit, op: Op)
    requires c.state == Open && c.openedAt.Some? && op.now >= c.openedAt.value + cfg.cooldown && Outcome(op).Some?
    ensures var d := After(cfg, c, [op]);
            && (op.Success? <==> d.state == Closed) && (op.Failure? <==> d.state == Open)
            && (d.state == Closed ==> d.failures == [] && d.openedAt == None && d.activeProbes == 0)
            && (d.state == Open ==> d.openedAt == Some(op.now) && d.activeProbes == 0)
  {
    assert [op][..0] == [];
  }

  /** Outcomes recorded before the cooldown has elapsed do not move an open circuit. */
  lemma EarlyOutcomesIgnored(cfg: Config, c: Circuit, op: Op)
    requires c.state == Open && c.openedAt.Some? && op.now < c.openedAt.value + cfg.cooldown && Outcome(op).Some?
    ensures After(cfg, c, [op]) == if op.Failure? && op.throttled then c.(cooldownUntil := Some(op.now + cfg.cooldown)) else c
  {
    assert [op][..0] == [];
  }

  /** Asked for its state, an open circuit is half open exactly when its cooldown has elapsed, with all probes to give. */
  lemma HalfOpensExactlyWhen(cfg: Config, c: Circuit, now: real)
    requires c.state == Open && c.openedAt.Some?
    ensures var d := After(cfg, c, [GetState(now)]);
            if now >= c.openedAt.value + cfg.cooldown then d.state == HalfOpen && d.activeProbes == 0 else d == c
  {
    assert [GetState(now)][..0] == [];
  }

  /** The outcomes of a run, oldest first. */
  ghost function Outcomes(ops: seq<Op>): seq<bool> {
    if ops == [] then []
    else Outcomes(ops[..|ops| - 1]) + match Outcome(ops[|ops| - 1]) case Some(o) => [o] case None => []
  }

  /** The last call of the run records a provider failure, and the outcomes of the run meet the threshold. */
  ghost predicate MeetsAtLast(cfg: Config, ops: seq<Op>) {
    ops != [] && Outcome(ops[|ops| - 1]) == Some(true) && MeetsThreshold(cfg, LastN(Outcomes(ops), cfg.windowSize))
  }

  /** At no moment of the run is the threshold met. */
  ghost predicate NeverMet(cfg: Config, ops: seq<Op>) {
    AllPrefixes(prefix => !MeetsAtLast(cfg, prefix), ops)
  }

  ghost predicate StaysClosed(cfg: Config, c: Circuit, ops: seq<Op>) {
    AllPrefixes(prefix => After(cfg, c, prefix).state == Closed, ops)
  }

  /** A circuit as it is after a successful probe, or new. */
  ghost predicate JustClosed(c: Circuit) {
    c.state == Closed && c.failures == []
  }

  lemma ClosedStep(cfg: Config, c: Circuit, ops: seq<Op>, op: Op)
    requires ConfigOk(cfg) && c.state == Closed && c.failures == LastN(Outcomes(ops), cfg.windowSize)
    ensures var d := Apply(cfg, c, op);
            (d.state == Closed <==> !MeetsAtLast(cfg, ops + [op])) && d.failures == LastN(Outcomes(ops + [op]), cfg.windowSize)
  {
    OutcomesSnoc(ops, op);
    WindowStep(cfg, c, Outcomes(ops), op);
    RecentFailuresOpen(cfg, c, Outcomes(ops), op);
    ClosedOrOpen(cfg, c, op);
    assert (ops + [op])[|ops|] == op;
  }

  lemma OutcomesSnoc(ops: seq<Op>, op: Op)
    ensures Outcomes(ops + [op]) == Outcomes(ops) + if Outcome(op).Some? then [Outcome(op).value] else []
  {
    assert (ops + [op])[..|ops|] == ops;
  }

  lemma ClosedOrOpen(cfg: Config, c: Circuit, op: Op)
    requires c.state == Closed
    ensures Apply(cfg, c, op).state in {Closed, Open}
  {
  }

  /** After a circuit has closed it stays closed, through every run, exactly until the threshold is met again. */
  lemma {:induction false} ClosedUntilThreshold(cfg: Config, c: Circuit, ops: seq<Op>)
    requires ConfigOk(cfg) && JustClosed(c)
    ensures StaysClosed(cfg, c, ops) <==> NeverMet(cfg, ops)
    ensures NeverMet(cfg, ops) ==> After(cfg, c, ops).state == Closed && After(cfg, c, ops).failures == LastN(Outcomes(ops), cfg.windowSize)
    decreases |ops|
  {
    if ops != [] {
      var init, op := ops[..|ops| - 1], ops[|ops| - 1];
      assert ops == init + [op];
      ClosedUntilThreshold(cfg, c, init);
      AllPrefixesSnoc(prefix => !MeetsAtLast(cfg, prefix), init, op);
      AllPrefixesSnoc(prefix => After(cfg, c, prefix).state == Closed, init, op);
      if NeverMet(cfg, init) {
        ClosedStep(cfg, After(cfg, c, init), init, op);
      }
    }
  }

  /** So until then every `is_open` with no throttling pending answers False. */
  lemma ClosedAnswers(cfg: Config, c: Circuit, ops: seq<Op>, now: real)
    requires ConfigOk(cfg) && JustClosed(c) && NeverMet(cfg, ops)
    ensures var d := After(cfg, c, ops);
            Ask(cfg, d, now).1 <==> d.cooldownUntil.Some? && now < d.cooldownUntil.value
  {
    ClosedUntilThreshold(cfg, c, ops);
  }

  // ----- throttling -----

  /** The calls that set a throttling cooldown, and until when. */
  ghost function ThrottledUntil(cfg: Config, op: Op): Option<real> {
    if op.Throttle? then Some(op.now + op.seconds)
    else if op.Failure? && op.providerFailure && op.throttled then Some(op.now + cfg.cooldown)
    else None
  }

  /** Throttling lasts: until it ends, or is set anew, every `is_open` answers True, whatever the state of the circuit. */
  lemma {:induction false} ThrottlingRefuses(cfg: Config, c: Circuit, op: Op, ops: seq<Op>, until: real)
    requires ThrottledUntil(cfg, op) == Some(until)
    requires forall i :: 0 <= i < |ops| ==> ThrottledUntil(cfg, ops[i]).None? && ops[i].now < until
    ensures After(cfg, Apply(cfg, c, op), ops).cooldownUntil == Some(until)
    ensures forall now :: now < until ==> Ask(cfg, After(cfg, Apply(cfg, c, op), ops), now).1
    decreases |ops|
  {
    if ops != [] {
      ThrottlingRefuses(cfg, c, op, ops[..|ops| - 1], until);
    }
  }

  // ----- half-open episodes -----

  /** How many `is_open` calls of a run were let through. */
  ghost function LetThrough(cfg: Config, c: Circuit, ops: seq<Op>): nat
    decreases |ops|
  {
    if ops == [] then 0
    else
      var init, op := ops[..|ops| - 1], ops[|ops| - 1];
      LetThrough(cfg, c, init) + if op.IsOpen? && !Ask(cfg, After(cfg, c, init), op.now).1 then 1 else 0
  }

  /** The circuit is half open after every operation of the run: one episode, from the operation that begins it. */
  ghost predicate Episode(cfg: Config, c: Circuit, ops: seq<Op>) {
    forall i :: 0 < i <= |ops| ==> After(cfg, c, ops[..i]).state == HalfOpen
  }

  lemma {:induction false} ProbesCounted(cfg: Config, c: Circuit, ops: seq<Op>)
    requires ConfigOk(cfg) && c.state != HalfOpen && Episode(cfg, c, ops) && ops != []
    ensures LetThrough(cfg, c, ops) == After(cfg, c, ops).activeProbes <= cfg.maxProbes
    decreases |ops|
  {
    var init := ops[..|ops| - 1];
    assert ops[..|ops|] == ops;
    if init == [] {
      assert After(cfg, c, init) == c;
    } else {
      forall i | 0 < i <= |init| ensures After(cfg, c, init[..i]).state == HalfOpen {
        assert init[..i] == ops[..i];
      }
      assert init[..|init|] == init;
      ProbesCounted(cfg, c, init);
    }
  }

  /** In a single half-open episode at most `maxProbes` calls are let through. */
  lemma ProbeLimit(cfg: Config, c: Circuit, ops: seq<Op>)
    requires ConfigOk(cfg) && c.state != HalfOpen && Episode(cfg, c, ops)
    ensures LetThrough(cfg, c, ops) <= cfg.maxProbes
  {
    if ops != [] {
      ProbesCounted(cfg, c, ops);
    }
  }

  /** How many `is_open` calls there are in a run. */
  ghost function Asked(ops: seq<Op>): nat {
    if ops == [] then 0 else Asked(ops[..|ops| - 1]) + if ops[|ops| - 1].IsOpen? then 1 else 0
  }

  /**
   Without throttling a half-open circuit lets through the first `maxProbes` calls that ask, no fewer
   and no more, until an outcome is recorded.
   */
  lemma {:induction false} FirstProbesPass(cfg: Config, c: Circuit, ops: seq<Op>)
    requires ConfigOk(cfg) && c.state == HalfOpen && c.activeProbes == 0 && c.cooldownUntil == None
    requires forall i :: 0 <= i < |ops| ==> Outcome(ops[i]).None? && !ops[i].Throttle?
    ensures var d := After(cfg, c, ops);
            && d.state == HalfOpen && d.cooldownUntil == None
            && LetThrough(cfg, c, ops) == d.activeProbes == if Asked(ops) < cfg.maxProbes then Asked(ops) else cfg.maxProbes
    decreases |ops|
  {
    if ops != [] {
      FirstProbesPass(cfg, c, ops[..|ops| - 1]);
    }
  }

  /** The first call after the cooldown of an opening, with no throttling pending, is such a probe. */
  lemma FirstProbe(cfg: Config, c: Circuit, now: real)
    requires ConfigOk(cfg) && c.state == Open && c.openedAt.Some? && now >= c.openedAt.value + cfg.cooldown
    requires c.cooldownUntil.Some? ==> c.cooldownUntil.value <= now
    ensures !Ask(cfg, c, now).1
    ensures var d := After(cfg, c, [IsOpen(now)]); d.state == HalfOpen && d.activeProbes == 1 && d.cooldownUntil == None
  {
    assert [IsOpen(now)][..0] == [];
  }

  // ----- probes that are not given back -----

  ghost predicate UsedUp(cfg: Config, c: Circuit) {
    c.state == HalfOpen && c.activeProbes >= cfg.maxProbes
  }

  /** A half-open circuit whose probes are used up lets nothing through, however late it is. */
  lemma UsedUpRefuses(cfg: Config, c: Circuit, now: real)
    requires UsedUp(cfg, c)
    ensures Ask(cfg, c, now).1 && UsedUp(cfg, Ask(cfg, c, now).0)
  {
  }

  /**
   It stays that way exactly as long as no outcome is recorded: a probe that ends in a failure that is
   not the provider's does not give its place back.
   */
  lemma {:induction false} UsedUpProbesStay(cfg: Config, c: Circuit, ops: seq<Op>)
    requires UsedUp(cfg, c)
    ensures (forall i :: 0 <= i <= |ops| ==> UsedUp(cfg, After(cfg, c, ops[..i])))
       <==> (forall i :: 0 <= i < |ops| ==> Outcome(ops[i]).None?)
    decreases |ops|
  {
    assert ops[..|ops|] == ops;
    if ops != [] {
      var init := ops[..|ops| - 1];
      UsedUpProbesStay(cfg, c, init);
      assert forall i :: 0 <= i <= |init| ==> init[..i] == ops[..i];
      if UsedUp(cfg, After(cfg, c, init)) {
        OneOutcomeEnds(cfg, After(cfg, c, init), ops[|ops| - 1]);
      }
    }
  }

  lemma OneOutcomeEnds(cfg: Config, c: Circuit, op: Op)
    requires UsedUp(cfg, c)
    ensures UsedUp(cfg, Apply(cfg, c, op)) <==> Outcome(op).None?
  {
  }

  /** Once an outcome is recorded, a call after the cooldowns is let through again. */
  lemma OutcomeFrees(cfg: Config, c: Circuit, op: Op, now: real)
    requires ConfigOk(cfg) && UsedUp(cfg, c) && op.now + cfg.cooldown <= now
    requires var until := Apply(cfg, c, op).cooldownUntil; until.Some? ==> until.value <= now
    ensures Ask(cfg, Apply(cfg, c, op), now).1 <==> Outcome(op).None?
  {
    if Outcome(op).None? {
      OneOutcomeEnds(cfg, c, op);
      UsedUpRefuses(cfg, Apply(cfg, c, op), now);
    }
  }

  /** The configuration a breaker has when nothing else is asked for. */
  const DEFAULTS := Config(10, 0.5, 5, 30.0, 1)

  function Failures(n: nat): seq<Op> {
    seq(n, _ => Failure(0.0, true, false))
  }

  lemma {:induction false} FailuresCounted(n: nat)
    requires n < 5
    ensures After(DEFAULTS, NEW_CIRCUIT, Failures(n)) == NEW_CIRCUIT.(failures := seq(n, _ => true))
    ensures CountTrue(seq(n, _ => true)) == n
  {
    if n > 0 {
      FailuresCounted(n - 1);
      assert Failures(n)[..n - 1] == Failures(n - 1);
      assert seq(n, _ => true)[..n - 1] == seq(n - 1, _ => true);
      assert seq(n - 1, _ => true) + [true] == seq(n, _ => true);
    }
  }

  /**
   Such a state is reached: five provider failures open a circuit, the probe after the cooldown ends in
   a failure that is not the provider's, and from then on the circuit refuses.
   */
  lemma ProbesGetUsedUp()
    ensures ConfigOk(DEFAULTS)
    ensures UsedUp(DEFAULTS, After(DEFAULTS, NEW_CIRCUIT, Failures(5) + [IsOpen(30.0)] + [Failure(31.0, false, false)]))
    ensures !Ask(DEFAULTS, After(DEFAULTS, NEW_CIRCUIT, Failures(5)), 30.0).1
  {
    var five := seq(5, _ => true);
    FailuresCounted(4);
    assert Failures(5)[..4] == Failures(4) && five[..4] == seq(4, _ => true) && seq(4, _ => true) + [true] == five;
    var tripped := After(DEFAULTS, NEW_CIRCUIT, Failures(5));
    assert CountTrue(five) == 5;
    assert tripped == Circuit(Open, five, Some(0.0), None, 0);
    var probing := Failures(5) + [IsOpen(30.0)];
    assert probing[..5] == Failures(5);
    assert (probing + [Failure(31.0, false, false)])[..6] == probing;
  }
}
