/** The heartbeat schedule: clamped controller hints, one immediate inform at a time, and
    jittered exponential backoff over 64-bit nanosecond durations. */
module Schedule {

  const MAX_DURATION: int := 0x7FFF_FFFF_FFFF_FFFF
  const MIN_DURATION: int := -0x8000_0000_0000_0000

  /** time.Duration: a signed 64-bit count of nanoseconds. */
  type Duration = d: int | MIN_DURATION <= d <= MAX_DURATION

  const MILLISECOND: Duration := 1_000_000
  const SECOND: Duration := 1_000_000_000
  const IMMEDIATE_DELAY: Duration := 100 * MILLISECOND
  const MAX_CONTROLLER_INTERVAL: Duration := 300 * SECOND

  /** What 64-bit arithmetic leaves of a result. */
  function Wrap(x: int): Duration {
    (x + 0x8000_0000_0000_0000) % 0x1_0000_0000_0000_0000 - 0x8000_0000_0000_0000
  }

  /** One hundredth, truncated toward zero. */
  function Hundredth(x: int): (q: int)
    ensures x >= 0 ==> q == x / 100
    ensures x <= 0 ==> x <= q <= 0
  {
    if x >= 0 then x / 100 else -((-x) / 100)
  }

  function Min(a: int, b: int): int {
    if a < b then a else b
  }

  function Max(a: int, b: int): int {
    if a < b then b else a
  }

  function Clamp(value: Duration, minimum: Duration, maximum: Duration): Duration {
    if value < minimum then minimum else if value > maximum then maximum else value
  }

  // ---- configuration ----

  datatype Config = Config(
    baseInterval: Duration,
    controllerMin: Duration,
    controllerMax: Duration,
    firmwareMin: Duration,
    hints: bool,
    backoffMax: Duration,
    jitterPercent: int)

  /** The bounds a controller hint is clamped into. */
  function HintMin(c: Config): Duration {
    Max(c.firmwareMin, c.controllerMin)
  }

  function HintMax(c: Config): Duration {
    Min(c.controllerMax, MAX_CONTROLLER_INTERVAL)
  }

  /** ValidateScheduleConfig. */
  predicate Valid(c: Config) {
    && c.baseInterval > 0
    && 0 < c.controllerMin <= MAX_CONTROLLER_INTERVAL
    && c.controllerMin <= c.controllerMax
    && (!c.hints ==> c.firmwareMin == 0)
    && (c.hints ==> 0 < c.firmwareMin <= MAX_CONTROLLER_INTERVAL && HintMin(c) <= c.controllerMax)
    && c.backoffMax > 0
    && 0 <= c.jitterPercent <= 100
  }

  // ---- the specification state ----

  datatype State = State(effective: Duration, failures: nat, latched: bool)

  datatype Decision = Decision(
    effective: Duration,
    nextDelay: Duration,
    failures: nat,
    backoff: bool,
    hintApplied: bool,
    hintIgnored: bool,
    hints: bool,
    immediateApplied: bool,
    immediateSuppressed: bool)

  function Decide(c: Config, s: State, delay: Duration, backoff: bool, hintApplied: bool, hintIgnored: bool): Decision {
    Decision(s.effective, delay, s.failures, backoff, hintApplied, hintIgnored, c.hints, false, false)
  }

  function Initial(c: Config): State {
    State(c.baseInterval, 0, false)
  }

  function OnCurrent(c: Config, s: State): (State, Decision) {
    (s, Decide(c, s, s.effective, false, false, false))
  }

  function OnReset(c: Config): (State, Decision) {
    OnCurrent(c, Initial(c))
  }

  function OnSuccess(c: Config, s: State, hint: Duration, immediate: bool): (State, Decision) {
    var applied := c.hints && hint > 0;
    var after := State(if applied then Clamp(hint, HintMin(c), HintMax(c)) else s.effective, 0, immediate);
    var granted := immediate && !s.latched;
    (after,
     Decide(c, after, if granted then IMMEDIATE_DELAY else after.effective, false, applied, !c.hints && hint > 0)
       .(immediateApplied := granted, immediateSuppressed := immediate && !granted))
  }

  /** 2 to the k times the base. */
  function Scaled(base: int, k: nat): int {
    if k == 0 then base else 2 * Scaled(base, k - 1)
  }

  function Ceiling(c: Config, s: State): Duration {
    Max(c.backoffMax, s.effective)
  }

  /** The delay before jitter after k failures in a row. */
  function Backoff(c: Config, s: State, k: nat): (delay: Duration)
    requires s.effective > 0
    ensures s.effective <= delay <= Ceiling(c, s)
  {
    ScaledGrows(s.effective, 0, k);
    Min(Scaled(s.effective, k), Ceiling(c, s))
  }

  /** The width of the jitter, as 64-bit arithmetic computes it. */
  function Window(c: Config, delay: Duration): Duration {
    Hundredth(Wrap(delay * c.jitterPercent))
  }

  function Jittered(c: Config, delay: Duration, minimum: Duration, maximum: Duration, offset: int, negative: bool): Duration {
    if c.jitterPercent == 0 || delay <= 0 || Window(c, delay) <= 0 then delay
    else Clamp(Wrap(delay + if negative then -offset else offset), minimum, maximum)
  }

  function OnFailure(c: Config, s: State, offset: int, negative: bool): (State, Decision)
    requires s.effective > 0
  {
    var after := s.(failures := s.failures + 1, latched := false);
    var delay := Jittered(c, Backoff(c, s, after.failures), s.effective, Ceiling(c, s), offset, negative);
    (after, Decide(c, after, delay, true, false, false))
  }

  lemma {:induction false} ScaledGrows(base: int, j: nat, k: nat)
    requires base > 0 && j <= k
    ensures base <= Scaled(base, j) <= Scaled(base, k)
    decreases j + k
  {
    if j < k {
      ScaledGrows(base, j, k - 1);
    } else if k > 0 {
      ScaledGrows(base, j - 1, k - 1);
    }
  }

  // ---- the schedule object ----

  /** What the random source yields next: a number below any positive bound, and a coin. */
  datatype Random = Random(int63n: Duration -> Duration, tails: bool)

  ghost predicate Fair(random: Random) {
    forall bound: Duration | bound > 0 :: 0 <= random.int63n(bound) < bound
  }

  /** rand.Int63n panics on a bound that is not positive. */
  method Int63n(random: Random, bound: Duration) returns (n: Duration)
    requires bound > 0 && Fair(random)
    ensures n == random.int63n(bound) && 0 <= n < bound
  {
    n := random.int63n(bound);
  }

  /** How far a draw moves a delay. */
  ghost function Offset(c: Config, delay: Duration, random: Random): int {
    WindowBound(c, delay);
    if Window(c, delay) > 0 then random.int63n(Window(c, delay) + 1) else 0
  }

  class Schedule {
    const config: Config
    var effective: Duration
    var failures: nat
    var immediateLatched: bool

    ghost function Current(): State
      reads this
    {
      State(effective, failures, immediateLatched)
    }

    constructor (config: Config)
      requires Valid(config)
      ensures this.config == config && Current() == Initial(config)
    {
      this.config := config;
      effective, failures, immediateLatched := config.baseInterval, 0, false;
    }

    method CurrentDecision() returns (decision: Decision)
      ensures decision == OnCurrent(config, Current()).1
    {
      decision := Decision(effective, effective, failures, false, false, false, config.hints, false, false);
    }

    method Reset() returns (decision: Decision)
      modifies this
      ensures (Current(), decision) == OnReset(config)
    {
      effective := config.baseInterval;
      failures := 0;
      immediateLatched := false;
      decision := CurrentDecision();
    }

    method SuccessWithOptions(hint: Duration, immediate: bool) returns (decision: Decision)
      modifies this
      ensures (Current(), decision) == OnSuccess(config, old(Current()), hint, immediate)
    {
      var hintApplied := config.hints && hint > 0;
      var hintIgnored := !config.hints && hint > 0;
      if hintApplied {
        var maximum := config.controllerMax;
        if maximum > MAX_CONTROLLER_INTERVAL {
          maximum := MAX_CONTROLLER_INTERVAL;
        }
        var minimum := config.firmwareMin;
        if config.controllerMin > minimum {
          minimum := config.controllerMin;
        }
        effective := Clamp(hint, minimum, maximum);
      }
      failures := 0;
      var delay := effective;
      var grantImmediate := immediate && !immediateLatched;
      immediateLatched := immediate;
      if grantImmediate {
        delay := IMMEDIATE_DELAY;
      }
      decision := Decision(effective, delay, failures, false, hintApplied, hintIgnored, config.hints,
                           grantImmediate, immediate && !grantImmediate);
    }

    /** Doubles the interval once per failure, without ever leaving 64 bits. */
    method Failure(random: Random) returns (decision: Decision)
      requires Valid(config) && effective > 0 && Fair(random)
      modifies this
      ensures var offset := Offset(config, Backoff(config, old(Current()), old(failures) + 1), random);
              (Current(), decision) == OnFailure(config, old(Current()), offset, random.tails)
    {
      failures := failures + 1;
      immediateLatched := false;
      var maximum := config.backoffMax;
      if maximum < effective {
        maximum := effective;
      }
      var delay := effective;
      var count := 0;
      while count < failures
        invariant 0 <= count <= failures
        invariant effective <= delay <= maximum
        invariant delay == Scaled(effective, count)
      {
        if delay >= maximum || delay > maximum / 2 {
          ScaledGrows(effective, count + 1, failures);
          delay := maximum;
          break;
        }
        delay := delay * 2;
        count := count + 1;
      }
      assert delay == Backoff(config, old(Current()), failures);
      delay := Jitter(delay, effective, maximum, random);
      decision := Decision(effective, delay, failures, true, false, false, config.hints, false, false);
    }

    method Jitter(delay: Duration, minimum: Duration, maximum: Duration, random: Random) returns (jittered: Duration)
      requires Fair(random)
      ensures jittered == Jittered(config, delay, minimum, maximum, Offset(config, delay, random), random.tails)
    {
      if config.jitterPercent == 0 || delay <= 0 {
        return delay;
      }
      var window := Hundredth(Wrap(delay * config.jitterPercent));
      if window <= 0 {
        return delay;
      }
      WindowBound(config, delay);
      var offset := Int63n(random, window + 1);
      if random.tails {
        offset := -offset;
      }
      return Clamp(Wrap(delay + offset), minimum, maximum);
    }
  }

  lemma WindowBound(c: Config, delay: Duration)
    ensures Window(c, delay) <= MAX_DURATION / 100
  {
  }

  /** A draw stays within the window, and every offset of the window can be drawn. */
  lemma DrawsAreOffsets(c: Config, delay: Duration, random: Random, offset: int) returns (other: Random)
    requires Fair(random) && 0 <= offset <= Max(0, Window(c, delay))
    ensures 0 <= Offset(c, delay, random) <= Max(0, Window(c, delay))
    ensures Fair(other) && Offset(c, delay, other) == offset
  {
    WindowBound(c, delay);
    hide Window;
    other := Random(bound => if bound > offset then offset else 0, false);
  }

  // ---- backoff ----

  function Pow2(k: nat): int {
    if k == 0 then 1 else 2 * Pow2(k - 1)
  }

  lemma {:induction false} ScaledIsProduct(base: int, k: nat)
    ensures Scaled(base, k) == base * Pow2(k)
  {
    if k > 0 {
      ScaledIsProduct(base, k - 1);
      assert base * (2 * Pow2(k - 1)) == 2 * (base * Pow2(k - 1));
    }
  }

  /** After k failures in a row the delay before jitter is the smaller of 2^k intervals and
      the ceiling: it never falls as failures go on, and from the 63rd on it stays there. */
  lemma BackoffShape(c: Config, s: State, j: nat, k: nat)
    requires s.effective > 0 && j <= k
    ensures Backoff(c, s, k) == Min(s.effective * Pow2(k), Max(c.backoffMax, s.effective))
    ensures Backoff(c, s, j) <= Backoff(c, s, k)
    ensures 63 <= k ==> Backoff(c, s, k) == Ceiling(c, s)
  {
    ScaledIsProduct(s.effective, k);
    ScaledGrows(s.effective, j, k);
    if 63 <= k {
      ScaledGrows(s.effective, 63, k);
      ScaledIsProduct(s.effective, 63);
      assert Pow2(63) == 0x8000_0000_0000_0000 by { PowerOf63(); }
      assert s.effective * 0x8000_0000_0000_0000 > MAX_DURATION;
    }
  }

  lemma {:induction false} Pow2Sum(j: nat, k: nat)
    ensures Pow2(j + k) == Pow2(j) * Pow2(k)
  {
    if j > 0 {
      Pow2Sum(j - 1, k);
      assert (2 * Pow2(j - 1)) * Pow2(k) == 2 * (Pow2(j - 1) * Pow2(k));
    }
  }

  lemma PowerOf63()
    ensures Pow2(63) == 0x8000_0000_0000_0000
  {
    assert Pow2(3) == 2 * Pow2(2) == 8;
    assert Pow2(7) == 2 * Pow2(6) == 4 * Pow2(5) == 8 * Pow2(4) == 16 * Pow2(3);
    Pow2Sum(7, 7);
    Pow2Sum(14, 14);
    Pow2Sum(28, 28);
    Pow2Sum(56, 7);
  }

  // ---- jitter ----

  /** Whatever the random source draws, and even where the product or the sum leaves
      64 bits, a retry waits at least the interval and at most the ceiling. */
  lemma FailureDelayInBounds(c: Config, s: State, offset: int, negative: bool)
    requires s.effective > 0
    ensures var delay := OnFailure(c, s, offset, negative).1.nextDelay;
            s.effective <= delay <= Max(c.backoffMax, s.effective)
  {
  }

  /** The true share of a delay the configured percentage stands for. */
  function Share(c: Config, delay: Duration): int {
    delay * c.jitterPercent / 100
  }

  lemma WindowWithinShare(c: Config, delay: Duration)
    requires 0 < delay && 0 <= c.jitterPercent <= 100
    ensures Window(c, delay) <= Share(c, delay) && 0 <= Share(c, delay)
  {
    var product := delay * c.jitterPercent;
    assert 0 <= product <= delay * 100;
    assert Wrap(product) <= product;
  }

  ghost predicate WithinShare(c: Config, delay: Duration, minimum: Duration, maximum: Duration, offset: int, negative: bool) {
    -Share(c, delay) <= Jittered(c, delay, minimum, maximum, offset, negative) - delay <= Share(c, delay)
  }

  /** Without overflow the drawn delay is off by at most the window, and clamping only
      brings it nearer. */
  lemma DrawWithinShare(c: Config, delay: Duration, minimum: Duration, maximum: Duration, offset: int, negative: bool)
    requires 0 < minimum <= delay <= maximum && 0 < c.jitterPercent <= 100 && 0 <= offset <= Max(0, Window(c, delay))
    requires delay + Window(c, delay) <= MAX_DURATION || delay - minimum <= Share(c, delay)
    ensures WithinShare(c, delay, minimum, maximum, offset, negative)
  {
    WindowWithinShare(c, delay);
    WindowBound(c, delay);
    hide Window, Share, Wrap;
    var sum := delay + if negative then -offset else offset;
    WrapOf(sum);
  }

  lemma WrapOf(x: int)
    requires 0 <= x < 0xC000_0000_0000_0000 || -0x4000_0000_0000_0000 <= x <= 0
    ensures Wrap(x) == if x <= MAX_DURATION then x else x - 0x1_0000_0000_0000_0000
    ensures x > MAX_DURATION ==> Wrap(x) < 0
  {
  }

  /** Every draw deviates from the delay by at most the configured percentage exactly when
      delay plus window still fits 64 bits, or the interval itself is that close. Otherwise
      the largest positive draw overflows and the retry falls to the minimum. */
  lemma JitterWithinPercentIff(c: Config, delay: Duration, minimum: Duration, maximum: Duration)
    requires 0 < minimum <= delay <= maximum && 0 < c.jitterPercent <= 100
    ensures (forall offset, negative | 0 <= offset <= Max(0, Window(c, delay)) :: WithinShare(c, delay, minimum, maximum, offset, negative))
       <==> (delay + Window(c, delay) <= MAX_DURATION || delay - minimum <= Share(c, delay))
  {
    WindowBound(c, delay);
    var window := Window(c, delay);
    if delay + window <= MAX_DURATION || delay - minimum <= Share(c, delay) {
      forall offset, negative | 0 <= offset <= Max(0, window)
        ensures WithinShare(c, delay, minimum, maximum, offset, negative)
      {
        DrawWithinShare(c, delay, minimum, maximum, offset, negative);
      }
    } else {
      hide Window, Share, Wrap;
      WrapOf(delay + window);
      assert !WithinShare(c, delay, minimum, maximum, window, false);
    }
  }

  // ---- what bounds the effective interval ----

  ghost predicate Bounded(c: Config, s: State) {
    s.effective == c.baseInterval || (c.hints && HintMin(c) <= s.effective <= HintMax(c))
  }

  /** The shortest interval a run can settle on. */
  function Floor(c: Config): Duration {
    if c.hints then Min(c.baseInterval, HintMin(c)) else c.baseInterval
  }

  // ---- runs ----

  /** One heartbeat's effect on the schedule; the last kind is an answer whose reset was applied. */
  datatype Op =
    | NoURL
    | Failed(offset: int, negative: bool)
    | Answered(hint: Duration, immediate: bool)
    | AnsweredReset(hint: Duration, immediate: bool)
    | Restarted

  function Step(c: Config, s: State, op: Op): (State, Decision)
    requires s.effective > 0
  {
    match op
    case NoURL => OnCurrent(c, s)
    case Failed(offset, negative) => OnFailure(c, s, offset, negative)
    case Answered(hint, immediate) => OnSuccess(c, s, hint, immediate)
    case AnsweredReset(hint, immediate) => OnReset(c)
    case Restarted => OnReset(c)
  }

  /** The decisions of a run. */
  ghost function Trace(c: Config, s: State, ops: seq<Op>): seq<Decision>
    requires Valid(c) && Bounded(c, s)
    decreases |ops|
  {
    StepKeepsBounds(c, s, if ops == [] then NoURL else ops[0]);
    if ops == [] then []
    else [Step(c, s, ops[0]).1] + Trace(c, Step(c, s, ops[0]).0, ops[1..])
  }

  lemma StepKeepsBounds(c: Config, s: State, op: Op)
    requires Valid(c) && Bounded(c, s)
    ensures s.effective >= Floor(c) > 0
    ensures Bounded(c, Step(c, s, op).0)
  {
  }

  /** Clamping always has somewhere to clamp to, and every state of every run has either
      the configured interval or one inside the hint bounds. */
  lemma {:induction false} EffectiveStaysBounded(c: Config, s: State, ops: seq<Op>, i: nat)
    requires Valid(c) && Bounded(c, s) && i < |Trace(c, s, ops)|
    ensures c.hints ==> 0 < HintMin(c) <= HintMax(c) <= MAX_CONTROLLER_INTERVAL
    ensures var e := Trace(c, s, ops)[i].effective;
            e == c.baseInterval || (c.hints && HintMin(c) <= e <= HintMax(c))
    decreases |ops|
  {
    StepKeepsBounds(c, s, ops[0]);
    if i > 0 {
      EffectiveStaysBounded(c, Step(c, s, ops[0]).0, ops[1..], i - 1);
    }
  }

  lemma StepLatch(c: Config, s: State, op: Op)
    requires Valid(c) && Bounded(c, s)
    ensures var (after, decision) := Step(c, s, op);
            && (decision.immediateApplied ==> !s.latched && after.latched && decision.nextDelay == IMMEDIATE_DELAY)
            && (!decision.immediateApplied ==> decision.nextDelay >= decision.effective >= Floor(c))
  {
    StepKeepsBounds(c, s, op);
  }

  lemma {:induction false} TraceLength(c: Config, s: State, ops: seq<Op>)
    requires Valid(c) && Bounded(c, s)
    ensures |Trace(c, s, ops)| == |ops|
    decreases |ops|
  {
    if ops != [] {
      StepKeepsBounds(c, s, ops[0]);
      TraceLength(c, Step(c, s, ops[0]).0, ops[1..]);
    }
  }

  /** Two heartbeats in a row are never both immediate, so one of any two consecutive
      delays is at least its effective interval. */
  lemma {:induction false} NoTwoImmediateInARow(c: Config, s: State, ops: seq<Op>, i: nat)
    requires Valid(c) && Bounded(c, s) && i + 1 < |Trace(c, s, ops)|
    ensures var d, e := Trace(c, s, ops)[i], Trace(c, s, ops)[i + 1];
            && !(d.immediateApplied && e.immediateApplied)
            && (d.nextDelay >= d.effective || e.nextDelay >= e.effective)
    decreases |ops|
  {
    var next := Step(c, s, ops[0]).0;
    StepKeepsBounds(c, s, ops[0]);
    StepLatch(c, s, ops[0]);
    TraceLength(c, s, ops);
    if i > 0 {
      NoTwoImmediateInARow(c, next, ops[1..], i - 1);
    } else {
      StepKeepsBounds(c, next, ops[1]);
      StepLatch(c, next, ops[1]);
      assert ops[1..][0] == ops[1];
    }
  }

  function Total(trace: seq<Decision>): int {
    if trace == [] then 0 else trace[0].nextDelay + Total(trace[1..])
  }

  /** Two heartbeats in a row take at least the shortest interval. */
  lemma TwoTakeTheFloor(c: Config, s: State, ops: seq<Op>)
    requires Valid(c) && Bounded(c, s) && |ops| >= 2
    ensures var next := Step(c, s, ops[0]).0;
            && Bounded(c, next) && Bounded(c, Step(c, next, ops[1]).0)
            && Total(Trace(c, s, ops)) >= Floor(c) + Total(Trace(c, Step(c, next, ops[1]).0, ops[2..]))
  {
    hide Step, Valid, Bounded, Floor;
    StepKeepsBounds(c, s, ops[0]);
    StepLatch(c, s, ops[0]);
    var next := Step(c, s, ops[0]).0;
    StepKeepsBounds(c, next, ops[1]);
    StepLatch(c, next, ops[1]);
    var trace, tail := Trace(c, s, ops), Trace(c, next, ops[1..]);
    assert trace[1..] == tail;
    assert ops[1..][0] == ops[1] && ops[1..][1..] == ops[2..];
    assert tail[1..] == Trace(c, Step(c, next, ops[1]).0, ops[2..]);
  }

  lemma HalfStep(n: nat, f: int)
    requires n >= 2
    ensures n / 2 * f == f + (n - 2) / 2 * f
  {
    assert n / 2 == (n - 2) / 2 + 1;
    assert ((n - 2) / 2 + 1) * f == (n - 2) / 2 * f + f;
  }

  /** Whatever the controller answers, n heartbeats take at least n/2 times the shortest
      interval the configuration allows. */
  lemma {:induction false} RunsTakeTheirTime(c: Config, s: State, ops: seq<Op>)
    requires Valid(c) && Bounded(c, s)
    ensures Total(Trace(c, s, ops)) >= |ops| / 2 * Floor(c)
    decreases |ops|
  {
    hide Step, Valid, Bounded, Floor;
    if |ops| >= 2 {
      StepKeepsBounds(c, s, ops[0]);
      var next := Step(c, s, ops[0]).0;
      StepKeepsBounds(c, next, ops[1]);
      TwoTakeTheFloor(c, s, ops);
      RunsTakeTheirTime(c, Step(c, next, ops[1]).0, ops[2..]);
      HalfStep(|ops|, Floor(c));
    } else if |ops| == 1 {
      StepKeepsBounds(c, s, ops[0]);
      StepLatch(c, s, ops[0]);
      assert |ops| / 2 == 0 && Trace(c, s, ops)[1..] == [];
    }
  }

  // ---- a run of failures ----

  /** In a run of nothing but failures the i-th retry backs off from i + 1 failures. */
  lemma {:induction false} FailuresInARow(c: Config, s: State, ops: seq<Op>, i: nat)
    requires Valid(c) && Bounded(c, s) && s.effective > 0 && i < |ops|
    requires forall op <- ops :: op.Failed?
    ensures i < |Trace(c, s, ops)| && Trace(c, s, ops)[i].effective == s.effective
    ensures Trace(c, s, ops)[i].nextDelay
         == Jittered(c, Backoff(c, s, s.failures + i + 1), s.effective, Ceiling(c, s), ops[i].offset, ops[i].negative)
    decreases |ops|
  {
    hide Jittered, Valid, Backoff, Ceiling, Scaled;
    TraceLength(c, s, ops);
    StepKeepsBounds(c, s, ops[0]);
    var next := Step(c, s, ops[0]).0;
    assert ops[0] in ops;
    FailedStep(c, s, ops[0]);
    if i > 0 {
      FailuresInARow(c, next, ops[1..], i - 1);
      BackoffIgnoresCount(c, s, next, s.failures + i + 1);
    }
  }

  lemma FailedStep(c: Config, s: State, op: Op)
    requires s.effective > 0 && op.Failed?
    ensures var (after, decision) := Step(c, s, op);
            && after == s.(failures := s.failures + 1, latched := false) && decision.effective == s.effective
            && decision.nextDelay == Jittered(c, Backoff(c, s, s.failures + 1), s.effective, Ceiling(c, s), op.offset, op.negative)
  {
    hide Jittered;
  }

  lemma BackoffIgnoresCount(c: Config, s: State, t: State, k: nat)
    requires s.effective == t.effective > 0
    ensures Backoff(c, s, k) == Backoff(c, t, k) && Ceiling(c, s) == Ceiling(c, t)
  {
  }

  /** A configuration the validation accepts: ten seconds, one percent, and no cap on backing off. */
  const UNCAPPED := Config(10 * SECOND, SECOND, SECOND, 0, false, MAX_DURATION, 1)

  /** A run that leaves the percentage: 62 failures, then one whose largest positive draw
      overflows; instead of about 292 years the retry comes after ten seconds. */
  lemma JitterLeavesThePercentage(ops: seq<Op>)
    requires |ops| == 63 && (forall op <- ops :: op.Failed?)
    requires ops[62] == Failed(MAX_DURATION / 100, false)
    ensures Valid(UNCAPPED) && Bounded(UNCAPPED, Initial(UNCAPPED)) && |Trace(UNCAPPED, Initial(UNCAPPED), ops)| == 63
    ensures Backoff(UNCAPPED, Initial(UNCAPPED), 63) == MAX_DURATION
    ensures ops[62].offset == Window(UNCAPPED, MAX_DURATION)
    ensures Trace(UNCAPPED, Initial(UNCAPPED), ops)[62].nextDelay == 10 * SECOND < MAX_DURATION - Share(UNCAPPED, MAX_DURATION)
  {
    var s := Initial(UNCAPPED);
    TraceLength(UNCAPPED, s, ops);
    FailuresInARow(UNCAPPED, s, ops, 62);
    BackoffShape(UNCAPPED, s, 63, 63);
    WindowBound(UNCAPPED, MAX_DURATION);
    hide Backoff, Trace;
    WrapOf(MAX_DURATION + MAX_DURATION / 100);
  }

  // ---- what a heartbeat asks of the schedule ----

  /** controllerIntervalDuration: whole seconds as a duration, saturating. */
  function ControllerInterval(seconds: int): (d: Duration)
    ensures d == Min(Max(seconds, 0) * SECOND, MAX_DURATION)
  {
    if seconds <= 0 then 0
    else if seconds > MAX_DURATION / SECOND then MAX_DURATION
    else seconds * SECOND
  }

  /** What came back from one heartbeat, as the daemon sees it. */
  datatype Result = NotSent | Lost | Blank | Refused | Parsed(seconds: int, immediate: bool, resetApplied: bool)

  function OpOf(result: Result, offset: int, negative: bool): Op {
    match result
    case NotSent => NoURL
    case Lost => Failed(offset, negative)
    case Blank => Answered(0, false)
    case Refused => Failed(offset, negative)
    case Parsed(seconds, immediate, resetApplied) =>
      if resetApplied then AnsweredReset(ControllerInterval(seconds), immediate)
      else Answered(ControllerInterval(seconds), immediate)
  }

  /** The schedule part of one heartbeat. */
  method Heartbeat(schedule: Schedule, result: Result, random: Random) returns (decision: Decision)
    requires Valid(schedule.config) && Bounded(schedule.config, schedule.Current()) && Fair(random)
    modifies schedule
    ensures Bounded(schedule.config, schedule.Current())
    ensures old(schedule.effective) > 0
    ensures var offset := Offset(schedule.config, Backoff(schedule.config, old(schedule.Current()), old(schedule.failures) + 1), random);
            (schedule.Current(), decision) == Step(schedule.config, old(schedule.Current()), OpOf(result, offset, random.tails))
  {
    StepKeepsBounds(schedule.config, schedule.Current(), NoURL);
    ghost var before := schedule.Current();
    match result {
      case NotSent => decision := schedule.CurrentDecision();
      case Lost => decision := schedule.Failure(random);
      case Blank => decision := schedule.SuccessWithOptions(0, false);
      case Refused => decision := schedule.Failure(random);
      case Parsed(seconds, immediate, resetApplied) =>
        decision := schedule.SuccessWithOptions(ControllerInterval(seconds), immediate);
        if resetApplied {
          decision := schedule.Reset();
        }
    }
    StepKeepsBounds(schedule.config, before,
                    OpOf(result, Offset(schedule.config, Backoff(schedule.config, before, before.failures + 1), random), random.tails));
  }

  // ---- what each decision is ----

  /** An answer ends every backoff. A positive hint, where hints count, becomes the interval, moved
      to the nearer bound when it lies outside; without one the interval stays. The next
      heartbeat comes after the interval, or after a tenth of a second when an immediate one is
      asked for and the answer before did not ask. */
  lemma AnswerIs(c: Config, s: State, hint: Duration, immediate: bool)
    requires Valid(c)
    ensures var (after, decision) := OnSuccess(c, s, hint, immediate);
            var low := if c.firmwareMin < c.controllerMin then c.controllerMin else c.firmwareMin;
            var high := if c.controllerMax > 300_000_000_000 then 300_000_000_000 else c.controllerMax;
            && low <= high
            && (c.hints && hint > 0 && low <= hint <= high ==> after.effective == hint)
            && (c.hints && hint > 0 && hint < low ==> after.effective == low)
            && (c.hints && hint > high ==> after.effective == high)
            && (!c.hints || hint <= 0 ==> after.effective == s.effective)
            && after.failures == 0 && (after.latched <==> immediate)
            && decision.nextDelay == (if immediate && !s.latched then 100_000_000 else after.effective)
            && decision.effective == after.effective && decision.failures == 0 && !decision.backoff
            && (decision.hintApplied <==> c.hints && hint > 0) && (decision.hintIgnored <==> !c.hints && hint > 0)
            && (decision.immediateApplied <==> immediate && !s.latched)
            && (decision.immediateSuppressed <==> immediate && s.latched)
            && decision.hints == c.hints
  {
  }

  /** Nothing is decided by looking, and a reset forgets everything but the configuration. */
  lemma ResetIs(c: Config, s: State)
    ensures OnCurrent(c, s) == (s, Decision(s.effective, s.effective, s.failures, false, false, false, c.hints, false, false))
    ensures OnReset(c) == (State(c.baseInterval, 0, false),
                           Decision(c.baseInterval, c.baseInterval, 0, false, false, false, c.hints, false, false))
  {
  }

  /** A failure counts, closes the latch and leaves the interval. The retry waits the interval
      doubled once per failure, at most the ceiling, moved by the draw and kept within those two. */
  lemma FailureIs(c: Config, s: State, offset: int, negative: bool)
    requires Valid(c) && s.effective > 0
    ensures var (after, decision) := OnFailure(c, s, offset, negative);
            var ceiling := if c.backoffMax < s.effective then s.effective else c.backoffMax;
            var doubled := s.effective * Pow2(s.failures + 1);
            var delay := if doubled < ceiling then doubled else ceiling;
            var moved := if negative then delay - offset else delay + offset;
            && after == State(s.effective, s.failures + 1, false)
            && (c.jitterPercent == 0 ==> decision.nextDelay == delay)
            && (0 < c.jitterPercent && delay * c.jitterPercent <= MAX_DURATION && delay * c.jitterPercent >= 100
                && 0 <= offset <= delay * c.jitterPercent / 100 && delay + offset <= MAX_DURATION ==>
                  decision.nextDelay == if moved < s.effective then s.effective else if moved > ceiling then ceiling else moved)
            && decision.effective == s.effective && decision.failures == s.failures + 1 && decision.backoff
            && !decision.hintApplied && !decision.hintIgnored && !decision.immediateApplied && !decision.immediateSuppressed
  {
    BackoffShape(c, s, s.failures + 1, s.failures + 1);
    JitteredIs(c, Backoff(c, s, s.failures + 1), s.effective, Ceiling(c, s), offset, negative);
    hide Backoff, Pow2, Jittered;
  }

  lemma JitteredIs(c: Config, delay: Duration, minimum: Duration, maximum: Duration, offset: int, negative: bool)
    requires delay > 0 && 0 <= c.jitterPercent <= 100
    ensures c.jitterPercent == 0 ==> Jittered(c, delay, minimum, maximum, offset, negative) == delay
    ensures var moved := if negative then delay - offset else delay + offset;
            0 < c.jitterPercent && delay * c.jitterPercent <= MAX_DURATION && delay * c.jitterPercent >= 100
            && 0 <= offset <= delay * c.jitterPercent / 100 && delay + offset <= MAX_DURATION ==>
              Jittered(c, delay, minimum, maximum, offset, negative) == if moved < minimum then minimum else if moved > maximum then maximum else moved
  {
    var product := delay * c.jitterPercent;
    var moved := if negative then delay - offset else delay + offset;
    if 100 <= product <= MAX_DURATION && 0 <= offset <= product / 100 && delay + offset <= MAX_DURATION {
      SmallWraps(product);
      SmallWraps(moved);
    }
    hide Wrap;
  }

  lemma SmallWraps(x: int)
    requires MIN_DURATION <= x <= MAX_DURATION
    ensures Wrap(x) == x
  {
  }

  /** What each heartbeat does to the schedule. One that is not sent changes nothing; a lost or
      refused one is a failure; a blank answer ends a backoff and closes the latch; a parsed one
      also brings its hint, in whole seconds, and its wish for an immediate heartbeat; and an
      answer whose reset was applied starts over. */
  lemma HeartbeatMeans(c: Config, s: State, result: Result, offset: int, negative: bool)
    requires Valid(c) && s.effective > 0
    ensures var (after, decision) := Step(c, s, OpOf(result, offset, negative));
            match result
            case NotSent => after == s && decision.nextDelay == s.effective
            case Lost => after == State(s.effective, s.failures + 1, false) && decision.backoff
            case Refused => after == State(s.effective, s.failures + 1, false) && decision.backoff
            case Blank => after == State(s.effective, 0, false) && decision.nextDelay == s.effective
            case Parsed(seconds, immediate, resetApplied) =>
              if resetApplied then after == State(c.baseInterval, 0, false) && decision.nextDelay == c.baseInterval
              else
                var hint := if seconds <= 0 then 0 else Min(seconds * 1_000_000_000, MAX_DURATION);
                && after.failures == 0 && (after.latched <==> immediate)
                && (!c.hints || seconds <= 0 ==> after.effective == s.effective)
                && (c.hints && seconds > 0 ==>
                      && HintMin(c) <= after.effective <= HintMax(c)
                      && (HintMin(c) <= hint <= HintMax(c) ==> after.effective == hint))
                && decision.nextDelay == if immediate && !s.latched then 100_000_000 else after.effective
  {
    ResetIs(c, s);
    match result {
      case Lost => FailureIs(c, s, offset, negative);
      case Refused => FailureIs(c, s, offset, negative);
      case Parsed(seconds, immediate, resetApplied) => AnswerIs(c, s, ControllerInterval(seconds), immediate);
      case _ =>
    }
    hide OnFailure, Pow2;
  }
}
