/** The adaptive balancer: scores from observed connects and health probes,
    cooldowns, and a switch margin against flapping.  `f64` is modelled as `real`
    and instants as natural numbers. */
module AdaptiveBalancer {
  import opened Bytes

  const U64_MAX := 0xFFFF_FFFF_FFFF_FFFF
  const U32_MAX := 0xFFFF_FFFF

  datatype Config = Config(switchMargin: real, failureThreshold: nat, cooldown: nat, ewmaAlpha: real)

  datatype AdaptiveState = AdaptiveState(
    attempts: nat, successes: nat, failures: nat, ewma: Option<real>, cooldownUntil: Option<nat>)

  /** What the health checker knows of a member, if anything. */
  datatype Health = Unknown | Known(alive: bool, latency: nat, probeFailures: nat)

  const NewState := AdaptiveState(0, 0, 0, None, None)

  function Clamp(x: real, low: real, high: real): (y: real)
    requires low <= high
    ensures low <= y <= high
  {
    if x < low then low else if x > high then high else x
  }

  function SaturatingAdd(a: nat, limit: nat): nat {
    if a < limit then a + 1 else limit
  }

  // ---------------------------------------------------------------- observations

  datatype Observation = Observation(sample: real, ok: bool, now: nat)

  function Alpha(c: Config): (a: real)
    ensures 0.0 < a <= 1.0
  {
    Clamp(c.ewmaAlpha, 0.01, 1.0)
  }

  /** A weighted mean. */
  function Mean(a: real, x: real, y: real): real {
    a * x + (1.0 - a) * y
  }

  /** observe_connect_result on one member. */
  function Observe(c: Config, s: AdaptiveState, o: Observation): AdaptiveState {
    var t := s.(attempts := SaturatingAdd(s.attempts, U64_MAX));
    if o.ok then
      var average := if s.ewma.Some? then Mean(Alpha(c), o.sample, s.ewma.value) else o.sample;
      t.(successes := SaturatingAdd(s.successes, U64_MAX), failures := 0, ewma := Some(average))
    else
      var failures := SaturatingAdd(s.failures, U32_MAX);
      t.(failures := failures,
         cooldownUntil := if failures >= c.failureThreshold then Some(o.now + c.cooldown) else s.cooldownUntil)
  }

  /** Several connects on one member. */
  function ObserveMany(c: Config, s: AdaptiveState, observations: seq<Observation>): AdaptiveState {
    if observations == [] then
      s
    else
      Observe(c, ObserveMany(c, s, observations[..|observations| - 1]), observations[|observations| - 1])
  }

  lemma NotNegative(a: real, b: real)
    requires a >= 0.0 && b >= 0.0
    ensures a * b >= 0.0
  {
  }

  /** A weighted mean lies between its arguments. */
  lemma MeanBetween(a: real, x: real, y: real, low: real, high: real)
    requires 0.0 <= a <= 1.0 && low <= x <= high && low <= y <= high
    ensures low <= Mean(a, x, y) <= high
  {
    var mean := Mean(a, x, y);
    assert mean - low == a * (x - low) + (1.0 - a) * (y - low);
    assert high - mean == a * (high - x) + (1.0 - a) * (high - y);
    NotNegative(a, x - low);
    NotNegative(1.0 - a, y - low);
    NotNegative(a, high - x);
    NotNegative(1.0 - a, high - y);
  }

  predicate InRange(s: AdaptiveState, low: real, high: real) {
    && s.successes <= s.attempts <= U64_MAX
    && s.failures <= U32_MAX
    && (s.ewma.Some? ==> low <= s.ewma.value <= high)
  }

  lemma ObserveKeepsRange(c: Config, s: AdaptiveState, o: Observation, low: real, high: real)
    requires InRange(s, low, high) && (o.ok ==> low <= o.sample <= high)
    ensures InRange(Observe(c, s, o), low, high)
  {
    if s.ewma.Some? && o.ok {
      MeanBetween(Alpha(c), o.sample, s.ewma.value, low, high);
    }
  }

  /** Over every run of connects: successes never pass attempts, even once the
      counters saturate; a cooldown needs a failure; and the average latency lies
      within any bounds that the successful samples kept. */
  lemma {:induction false} ObservationsStayInRange(c: Config, observations: seq<Observation>, low: real, high: real)
    requires forall i :: 0 <= i < |observations| && observations[i].ok ==> low <= observations[i].sample <= high
    ensures var s := ObserveMany(c, NewState, observations);
            && InRange(s, low, high)
            && (s.ewma.Some? <==> exists i :: 0 <= i < |observations| && observations[i].ok)
            && (s.cooldownUntil.Some? ==> exists i :: 0 <= i < |observations| && !observations[i].ok)
    decreases |observations|
  {
    if observations != [] {
      var before := observations[..|observations| - 1];
      var o := observations[|observations| - 1];
      assert forall i :: 0 <= i < |before| ==> before[i] == observations[i];
      ObservationsStayInRange(c, before, low, high);
      ObserveKeepsRange(c, ObserveMany(c, NewState, before), o, low, high);
    }
  }

  // ------------------------------------------------------------------------ score

  function SuccessRate(s: AdaptiveState): real {
    if s.attempts == 0 then 1.0 else s.successes as real / s.attempts as real
  }

  function Latency(h: Health, s: AdaptiveState): real {
    var known := if s.ewma.Some? then s.ewma
                 else if h.Known? then Some(h.latency as real) else None;
    if known.Some? && known.value < U64_MAX as real then known.value else 5000.0
  }

  function Score(c: Config, h: Health, s: AdaptiveState): real {
    var latencyScore := 1.0 - Clamp(Latency(h, s) / 5000.0, 0.0, 1.0);
    var budget := Budget(c) as real;
    var stability := 1.0 - Clamp(((ProbeFailures(h) + s.failures) % (U32_MAX + 1)) as real / budget, 0.0, 1.0);
    0.5 * SuccessRate(s) + 0.3 * latencyScore + 0.2 * stability
  }

  lemma Scaled(x: real, y: real, b: real)
    requires x < y && b > 0.0
    ensures x * b < y * b
  {
  }

  lemma FactorInUnit(q: real, b: real)
    requires b > 0.0 && 0.0 <= q * b <= b
    ensures 0.0 <= q <= 1.0
  {
    if q > 1.0 {
      Scaled(1.0, q, b);
    } else if q < 0.0 {
      Scaled(q, 0.0, b);
    }
  }

  lemma RateInUnit(s: AdaptiveState)
    requires s.successes <= s.attempts
    ensures 0.0 <= SuccessRate(s) <= 1.0
  {
    if s.attempts > 0 {
      var a, b := s.successes as real, s.attempts as real;
      assert a / b * b == a;
      FactorInUnit(a / b, b);
    }
  }

  /** A score is between zero and one, whatever health and history say. */
  lemma ScoreInUnit(c: Config, h: Health, s: AdaptiveState)
    requires s.successes <= s.attempts
    ensures 0.0 <= Score(c, h, s) <= 1.0
  {
    RateInUnit(s);
  }

  /** What is left of a distance when the share `a` of it is taken away `n` times. */
  function Remaining(a: real, n: nat, distance: real): real {
    if n == 0 then distance else (1.0 - a) * Remaining(a, n - 1, distance)
  }

  lemma MeanMoves(a: real, x: real, y: real)
    ensures Mean(a, x, y) - x == (1.0 - a) * (y - x)
  {
  }

  lemma AverageMoves(c: Config, s: AdaptiveState, o: Observation, distance: real)
    requires s.ewma.Some? && o.ok && s.ewma.value - o.sample == distance
    ensures var t := Observe(c, s, o); t.ewma.Some? && t.ewma.value - o.sample == (1.0 - Alpha(c)) * distance
  {
    MeanMoves(Alpha(c), o.sample, s.ewma.value);
  }

  /** Smoothing: while connects take the same time, each takes the share alpha of its
      distance from the average away, where alpha is the configured one, or the nearest
      between one hundredth and one. */
  lemma {:induction false} AverageConverges(
    c: Config, s: AdaptiveState, observations: seq<Observation>, x: real, a: real)
    requires s.ewma.Some? && forall i :: 0 <= i < |observations| ==> observations[i].ok && observations[i].sample == x
    requires a == if c.ewmaAlpha < 0.01 then 0.01 else if c.ewmaAlpha > 1.0 then 1.0 else c.ewmaAlpha
    ensures var t := ObserveMany(c, s, observations);
            t.ewma.Some? && t.ewma.value - x == Remaining(a, |observations|, s.ewma.value - x)
    decreases |observations|
  {
    var n := |observations|;
    if n > 0 {
      AverageConverges(c, s, observations[..n - 1], x, a);
      AverageMoves(c, ObserveMany(c, s, observations[..n - 1]), observations[n - 1],
                   Remaining(a, n - 1, s.ewma.value - x));
    }
  }

  // ------------------------------------------------- what failures do to a member

  /** Failed probes: a check that finds as many as the threshold makes a member that was
      not cooling unavailable for the cooldown; one that was is not held longer. */
  lemma ProbesCool(c: Config, h: Health, s: AdaptiveState, now: nat, later: Health, t: nat)
    requires now <= t
    ensures var cooling := s.cooldownUntil.Some? && now < s.cooldownUntil.value;
            var failed := if h.Known? then h.probeFailures else 0;
            Available(later, ProbeCooled(c, h, s, now), t) <==>
            && Alive(later)
            && if cooling then t >= s.cooldownUntil.value
               else failed < c.failureThreshold || t >= now + c.cooldown
  {
  }

  ghost predicate AllFailed(observations: seq<Observation>) {
    forall i :: 0 <= i < |observations| ==> !observations[i].ok
  }

  /** Failures in a row add up, and put a member into a cooldown exactly when there are
      as many as the threshold, with those before them: from the last one on, for the
      whole cooldown.  Everything else is as before. */
  lemma {:induction false} FailuresCool(c: Config, s: AdaptiveState, observations: seq<Observation>)
    requires AllFailed(observations) && c.failureThreshold <= U32_MAX && s.failures <= U32_MAX
    ensures var t := ObserveMany(c, s, observations);
            var n := |observations|;
            && t.failures == Min(s.failures + n, U32_MAX)
            && t.successes == s.successes && t.ewma == s.ewma
            && t.cooldownUntil
               == if n > 0 && s.failures + n >= c.failureThreshold then Some(observations[n - 1].now + c.cooldown)
                  else s.cooldownUntil
    decreases |observations|
  {
    if observations != [] {
      FailuresCool(c, s, observations[..|observations| - 1]);
    }
  }

  /** So that many failures in a row make a member unavailable until the cooldown is
      over; and a success forgets the failures before it. */
  lemma CoolsAfterFailures(c: Config, s: AdaptiveState, observations: seq<Observation>, h: Health, now: nat)
    requires AllFailed(observations) && 1 <= c.failureThreshold <= U32_MAX && s.failures <= U32_MAX
    requires |observations| >= c.failureThreshold
    ensures var until := observations[|observations| - 1].now + c.cooldown;
            Available(h, ObserveMany(c, s, observations), now) <==> Alive(h) && now >= until
  {
    FailuresCool(c, s, observations);
  }

  lemma SuccessForgets(c: Config, s: AdaptiveState, o: Observation)
    requires o.ok
    ensures Observe(c, s, o).failures == 0 && Observe(c, s, o).cooldownUntil == s.cooldownUntil
  {
  }

  /** The failures that leave no stability. */
  function Budget(c: Config): nat {
    if c.failureThreshold >= 1 then c.failureThreshold else 1
  }

  lemma ShareOfBudget(k: nat, budget: nat)
    requires budget >= 1
    ensures 1.0 - Clamp(k as real / budget as real, 0.0, 1.0)
         == if k < budget then (budget - k) as real / budget as real else 0.0
  {
    var b, q := budget as real, k as real / budget as real;
    assert q * b == k as real;
    if k < budget {
      FactorInUnit(q, b);
      assert (budget - k) as real == b - k as real;
      var r := (budget - k) as real / b;
      assert r * b == (budget - k) as real;
      SameQuotient(1.0 - q, r, b);
    } else if q < 1.0 {
      Scaled(q, 1.0, b);
    }
  }

  lemma SameQuotient(x: real, y: real, b: real)
    requires b > 0.0 && x * b == y * b
    ensures x == y
  {
    if x < y {
      Scaled(x, y, b);
    } else if y < x {
      Scaled(y, x, b);
    }
  }

  /** The failures of connects and probes together, as a 32-bit sum. */
  function FailuresOf(h: Health, s: AdaptiveState): nat {
    var k := ProbeFailures(h) + s.failures;
    if k > U32_MAX then k - U32_MAX - 1 else k
  }

  /** The weights: half for the share of connects that succeeded, three tenths for
      latency, two tenths for the failures, in connects and probes together, that the
      budget has left. */
  lemma ScoreIs(c: Config, h: Health, s: AdaptiveState)
    requires ProbeFailures(h) <= U32_MAX && s.failures <= U32_MAX
    ensures var k, b := FailuresOf(h, s), Budget(c);
            Score(c, h, s) == 0.5 * SuccessRate(s) + 0.3 * (1.0 - Clamp(Latency(h, s) / 5000.0, 0.0, 1.0))
                              + if k < b then 0.2 * ((b - k) as real / b as real) else 0.0
  {
    var k := ProbeFailures(h) + s.failures;
    assert k % (U32_MAX + 1) == FailuresOf(h, s);
    ShareOfBudget(FailuresOf(h, s), Budget(c));
  }

  lemma PositiveQuotient(x: real, y: real)
    requires x > 0.0 && y > 0.0
    ensures x / y > 0.0
  {
    var q := x / y;
    assert q * y == x;
    if q < 0.0 {
      Scaled(q, 0.0, y);
    }
  }

  /** Stability is used up, and nothing is left for it in the score, exactly at the
      threshold, or at one failure if that is zero. */
  lemma StabilityGoneIff(c: Config, h: Health, s: AdaptiveState)
    requires ProbeFailures(h) <= U32_MAX && s.failures <= U32_MAX
    ensures Score(c, h, s) == 0.5 * SuccessRate(s) + 0.3 * (1.0 - Clamp(Latency(h, s) / 5000.0, 0.0, 1.0))
            <==> FailuresOf(h, s) >= c.failureThreshold && FailuresOf(h, s) >= 1
  {
    var k, b := FailuresOf(h, s), Budget(c);
    ScoreIs(c, h, s);
    if k < b {
      PositiveQuotient((b - k) as real, b as real);
    }
  }

  lemma OneLess(k: nat, b: nat)
    requires k < b
    ensures (b - k) as real / b as real - (b - k - 1) as real / b as real == 1.0 / b as real
  {
    var x, y, z := (b - k) as real / b as real, (b - k - 1) as real / b as real, 1.0 / b as real;
    assert x * b as real == (b - k) as real && y * b as real == (b - k - 1) as real && z * b as real == 1.0;
    assert (x - y) * b as real == z * b as real;
    SameQuotient(x - y, z, b as real);
  }

  /** What one more failure takes from the stability part. */
  function Penalty(c: Config, failures: nat): real {
    if failures < Budget(c) then 0.2 / Budget(c) as real else 0.0
  }

  lemma OneMoreFailure(c: Config, k: nat)
    ensures var b := Budget(c);
            (if k < b then 0.2 * ((b - k) as real / b as real) else 0.0)
            - (if k + 1 < b then 0.2 * ((b - k - 1) as real / b as real) else 0.0)
            == Penalty(c, k)
  {
    var b := Budget(c);
    if k < b {
      OneLess(k, b);
      assert 0.2 * (1.0 / b as real) == 0.2 / b as real;
      if k + 1 == b {
        Ratios(b as real);
      }
    }
  }

  /** One more failed probe costs a member its share of the budget, and nothing once the
      budget is used up. */
  lemma ProbeFailureCosts(c: Config, h: Health, s: AdaptiveState)
    requires h.Known? && h.probeFailures + s.failures < U32_MAX
    ensures Score(c, h.(probeFailures := h.probeFailures + 1), s)
         == Score(c, h, s) - Penalty(c, h.probeFailures + s.failures)
  {
    var worse := h.(probeFailures := h.probeFailures + 1);
    ScoreIs(c, h, s);
    ScoreIs(c, worse, s);
    OneMoreFailure(c, h.probeFailures + s.failures);
  }

  /** One more failed connect costs that, and half of what the success rate falls by; it
      leaves the latency alone. */
  lemma ConnectFailureCosts(c: Config, h: Health, s: AdaptiveState, o: Observation)
    requires !o.ok && ProbeFailures(h) + s.failures < U32_MAX && s.successes <= s.attempts < U64_MAX
    ensures var t := Observe(c, s, o);
            && Score(c, h, t)
               == Score(c, h, s) - Penalty(c, ProbeFailures(h) + s.failures) - 0.5 * (SuccessRate(s) - SuccessRate(t))
            && SuccessRate(t) == s.successes as real / (s.attempts + 1) as real
  {
    var t := Observe(c, s, o);
    ScoreIs(c, h, s);
    ScoreIs(c, h, t);
    OneMoreFailure(c, ProbeFailures(h) + s.failures);
  }

  lemma Unblemished(c: Config, h: Health)
    requires ProbeFailures(h) == 0
    ensures Score(c, h, NewState) == 0.7 + 0.3 * (1.0 - Clamp(Latency(h, NewState) / 5000.0, 0.0, 1.0))
  {
    ScoreIs(c, h, NewState);
    Ratios(Budget(c) as real);
  }

  /** A member that has not been tried scores by its probes alone: full marks but for
      their latency, against five seconds, and their failures. */
  lemma UntriedScore(c: Config, alive: bool, latency: nat)
    ensures Score(c, Unknown, NewState) == 0.7
    ensures latency <= 5000 ==>
              Score(c, Known(alive, latency, 0), NewState) == 0.7 + 0.3 * (1.0 - latency as real / 5000.0)
  {
    Unblemished(c, Unknown);
    Unblemished(c, Known(alive, latency, 0));
    if latency <= 5000 {
      FactorInUnit(latency as real / 5000.0, 5000.0);
    }
  }

  lemma Ratios(x: real)
    requires x > 0.0
    ensures x / x == 1.0 && 0.0 / x == 0.0
  {
    var q := 0.0 / x;
    assert q * x == 0.0;
  }

  // -------------------------------------------------------------- scores in reach

  lemma {:induction false} ManyJoined(c: Config, s: AdaptiveState, a: seq<Observation>, b: seq<Observation>)
    ensures ObserveMany(c, s, a + b) == ObserveMany(c, ObserveMany(c, s, a), b)
    decreases |b|
  {
    if b == [] {
      assert a + b == a;
    } else {
      assert (a + b)[..|a + b| - 1] == a + b[..|b| - 1];
      ManyJoined(c, s, a, b[..|b| - 1]);
    }
  }

  predicate Success(o: Observation) {
    o.ok && o.sample >= 0.0
  }

  ghost predicate Successes(observations: seq<Observation>) {
    forall i :: 0 <= i < |observations| ==> Success(observations[i])
  }

  /** Nothing has ever failed, and no cooldown runs. */
  predicate Flawless(s: AdaptiveState) {
    s.successes == s.attempts && s.failures == 0 && !InCooldown(s, 0) && (s.ewma.Some? ==> s.ewma.value >= 0.0)
  }

  lemma StaysFlawless(c: Config, s: AdaptiveState, o: Observation)
    requires Flawless(s) && Success(o)
    ensures Flawless(Observe(c, s, o))
  {
    if s.ewma.Some? {
      NotNegative(Alpha(c), o.sample);
      NotNegative(1.0 - Alpha(c), s.ewma.value);
    }
  }

  lemma {:induction false} ManyStayFlawless(c: Config, s: AdaptiveState, observations: seq<Observation>)
    requires Flawless(s) && Successes(observations)
    ensures Flawless(ObserveMany(c, s, observations))
    decreases |observations|
  {
    if observations != [] {
      ManyStayFlawless(c, s, observations[..|observations| - 1]);
      StaysFlawless(c, ObserveMany(c, s, observations[..|observations| - 1]), observations[|observations| - 1]);
    }
  }

  const Instant := Observation(0.0, true, 0)

  lemma Positive(a: real, b: real)
    requires a > 0.0 && b > 0.0
    ensures a * b > 0.0
  {
  }

  lemma MulOrder(a: real, x: real, y: real)
    requires a >= 0.0 && x <= y
    ensures a * x <= a * y
  {
    NotNegative(a, y - x);
  }

  /** Enough steps of any size cover any distance. */
  lemma StepsCover(x: real, unit: real) returns (n: nat)
    requires x >= 0.0 && unit > 0.0
    ensures x <= unit * (n as real)
  {
    var q := x / unit;
    assert q * unit == x;
    if q < 0.0 {
      Scaled(q, 0.0, unit);
    }
    n := q.Floor + 1;
    MulOrder(unit, q, n as real);
  }

  /** One instant connect takes a share of the average away, at least that share of
      the target while the average is above it. */
  lemma Shrinks(a: real, p: real, target: real, n: nat)
    requires 0.0 < a <= 1.0 && 0.0 < target < p && n > 0 && p - target <= a * target * (n as real)
    ensures Mean(a, 0.0, p) - target <= a * target * ((n - 1) as real)
  {
    MulOrder(a, target, p);
    assert Mean(a, 0.0, p) == p - a * p;
    var unit, k := a * target, (n - 1) as real;
    assert n as real == k + 1.0;
    assert unit * (k + 1.0) == unit * k + unit;
  }

  lemma ShareBelow(a: real, p: real)
    requires 0.0 < a <= 1.0 && p >= 0.0
    ensures 0.0 <= (1.0 - a) * p <= p
  {
    NotNegative(1.0 - a, p);
    NotNegative(a, p);
  }

  lemma ObserveInstant(c: Config, s: AdaptiveState)
    requires Flawless(s) && s.ewma.Some?
    ensures var t := Observe(c, s, Instant);
            Flawless(t) && t.ewma == Some(Mean(Alpha(c), 0.0, s.ewma.value)) && ObserveMany(c, s, [Instant]) == t
  {
    StaysFlawless(c, s, Instant);
    assert [Instant][..0] == [];
    assert ObserveMany(c, s, []) == s;
  }

  /** Enough instant connects bring the average low enough. */
  lemma {:induction false} Lowers(c: Config, s: AdaptiveState, target: real, n: nat)
    returns (observations: seq<Observation>)
    requires Flawless(s) && s.ewma.Some? && target > 0.0
    requires s.ewma.value - target <= Alpha(c) * target * (n as real)
    ensures Successes(observations)
    ensures var t := ObserveMany(c, s, observations);
            Flawless(t) && t.ewma.Some? && t.ewma.value <= target
    decreases n
  {
    var p := s.ewma.value;
    if p <= target {
      observations := [];
    } else {
      assert n > 0 by {
        assert n == 0 ==> Alpha(c) * target * (n as real) == 0.0;
      }
      Shrinks(Alpha(c), p, target, n);
      ObserveInstant(c, s);
      var rest := Lowers(c, Observe(c, s, Instant), target, n - 1);
      observations := [Instant] + rest;
      ManyJoined(c, s, [Instant], rest);
    }
  }

  /** The connect that brings the average to the target exactly. */
  lemma LastSample(a: real, p: real, target: real) returns (x: real)
    requires 0.0 < a <= 1.0 && 0.0 <= p <= target
    ensures x >= 0.0 && Mean(a, x, p) == target
  {
    ShareBelow(a, p);
    var gap := target - (1.0 - a) * p;
    x := gap / a;
    assert x * a == gap;
    if x < 0.0 {
      Scaled(x, 0.0, a);
    }
  }

  lemma ObserveLast(c: Config, s: AdaptiveState, target: real) returns (o: Observation)
    requires Flawless(s) && target > 0.0 && (s.ewma.Some? ==> s.ewma.value <= target)
    ensures Success(o)
    ensures var t := ObserveMany(c, s, [o]); Flawless(t) && t.ewma == Some(target)
  {
    if s.ewma.Some? {
      var x := LastSample(Alpha(c), s.ewma.value, target);
      o := Observation(x, true, 0);
      assert Observe(c, s, o).ewma == Some(Mean(Alpha(c), x, s.ewma.value));
    } else {
      o := Observation(target, true, 0);
    }
    StaysFlawless(c, s, o);
    assert [o][..0] == [];
    assert ObserveMany(c, s, [o]) == Observe(c, s, o);
  }

  /** From any flawless history, successful connects bring the average to any latency
      above zero. */
  lemma AverageReaches(c: Config, s: AdaptiveState, target: real) returns (observations: seq<Observation>)
    requires Flawless(s) && target > 0.0
    ensures Successes(observations)
    ensures Flawless(ObserveMany(c, s, observations)) && ObserveMany(c, s, observations).ewma == Some(target)
  {
    var lower := [];
    if s.ewma.Some? && s.ewma.value > target {
      Positive(Alpha(c), target);
      var n := StepsCover(s.ewma.value - target, Alpha(c) * target);
      lower := Lowers(c, s, target, n);
    }
    var o := ObserveLast(c, ObserveMany(c, s, lower), target);
    observations := lower + [o];
    ManyJoined(c, s, lower, [o]);
  }

  lemma FlawlessScore(c: Config, h: Health, s: AdaptiveState, l: real)
    requires Flawless(s) && ProbeFailures(h) == 0 && 0.0 <= l <= 1.0 && s.ewma == Some(5000.0 * (1.0 - l))
    ensures Score(c, h, s) == 0.7 + 0.3 * l
  {
    assert Latency(h, s) / 5000.0 == 1.0 - l;
    if s.attempts > 0 {
      Ratios(s.attempts as real);
    }
    Ratios(Budget(c) as real);
  }

  /** From any flawless history, successful connects bring a member to any score from
      0.7 up to, but not including, one; nothing of it fails and it does not cool. */
  lemma ScoreReaches(c: Config, h: Health, s: AdaptiveState, x: real) returns (observations: seq<Observation>)
    requires Flawless(s) && ProbeFailures(h) == 0 && 0.7 <= x < 1.0
    ensures Successes(observations) && Flawless(ObserveMany(c, s, observations))
    ensures Score(c, h, ObserveMany(c, s, observations)) == x
  {
    var l := (x - 0.7) / 0.3;
    observations := AverageReaches(c, s, 5000.0 * (1.0 - l));
    FlawlessScore(c, h, ObserveMany(c, s, observations), l);
  }

  // -------------------------------------------------------------------- selection

  predicate Alive(h: Health) {
    h.Known? ==> h.alive
  }

  predicate InCooldown(s: AdaptiveState, now: nat) {
    s.cooldownUntil.Some? && s.cooldownUntil.value > now
  }

  predicate Available(h: Health, s: AdaptiveState, now: nat) {
    Alive(h) && !InCooldown(s, now)
  }

  function ProbeFailures(h: Health): nat {
    if h.Known? then h.probeFailures else 0
  }

  /** Failed probes put a member into a cooldown that it is not in yet. */
  predicate Enters(c: Config, h: Health, s: AdaptiveState, now: nat) {
    ProbeFailures(h) >= c.failureThreshold && !InCooldown(s, now)
  }

  /** apply_probe_cooldowns on one member. */
  function ProbeCooled(c: Config, h: Health, s: AdaptiveState, now: nat): AdaptiveState {
    if Enters(c, h, s, now) then s.(cooldownUntil := Some(now + c.cooldown)) else s
  }

  /** The first of the best: no available member scores higher, none before it as
      high. */
  ghost predicate IsBest(available: seq<bool>, scores: seq<real>, b: nat)
    requires |scores| == |available|
  {
    && b < |available| && available[b]
    && (forall i :: 0 <= i < |available| && available[i] ==> scores[i] <= scores[b])
    && (forall i :: 0 <= i < b && available[i] ==> scores[i] < scores[b])
  }

  lemma BestIsUnique(available: seq<bool>, scores: seq<real>, a: nat, b: nat)
    requires |scores| == |available| && IsBest(available, scores, a) && IsBest(available, scores, b)
    ensures a == b
  {
  }

  predicate NoneAvailable(available: seq<bool>) {
    forall i :: 0 <= i < |available| ==> !available[i]
  }

  predicate Standing(current: Option<nat>, available: seq<bool>) {
    current.Some? && current.value < |available| && available[current.value]
  }

  /** Keep an available current member unless the best beats it by more than the
      margin; with none available, take the first. */
  ghost predicate Selects(
    current: Option<nat>, available: seq<bool>, scores: seq<real>, margin: real, chosen: nat)
    requires |scores| == |available|
  {
    if NoneAvailable(available) then
      available != [] && chosen == 0
    else
      exists b: nat :: IsBest(available, scores, b) &&
        chosen == if Standing(current, available) && scores[current.value] + margin >= scores[b]
                  then current.value else b
  }

  /** The choice is determined. */
  lemma SelectsOne(
    current: Option<nat>, available: seq<bool>, scores: seq<real>, margin: real, chosen: nat, other: nat)
    requires |scores| == |available|
    requires Selects(current, available, scores, margin, chosen) && Selects(current, available, scores, margin, other)
    ensures chosen == other
  {
    if !NoneAvailable(available) {
      var a: nat :| IsBest(available, scores, a) &&
        chosen == if Standing(current, available) && scores[current.value] + margin >= scores[a]
                  then current.value else a;
      var b: nat :| IsBest(available, scores, b) &&
        other == if Standing(current, available) && scores[current.value] + margin >= scores[b]
                 then current.value else b;
      BestIsUnique(available, scores, a, b);
    }
  }

  function Availability(health: seq<Health>, members: seq<AdaptiveState>, now: nat): seq<bool>
    requires |health| == |members|
  {
    seq(|members|, i requires 0 <= i < |members| => Available(health[i], members[i], now))
  }

  function Scores(c: Config, health: seq<Health>, members: seq<AdaptiveState>): seq<real>
    requires |health| == |members|
  {
    seq(|members|, i requires 0 <= i < |members| => Score(c, health[i], members[i]))
  }

  class Runtime {
    const config: Config
    var members: seq<AdaptiveState>
    var current: Option<nat>

    constructor (config: Config, n: nat)
      ensures this.config == config && members == seq(n, _ => NewState) && current == None
    {
      this.config := config;
      members := seq(n, _ => NewState);
      current := None;
    }

    /** observe_connect_result. */
    method ObserveConnect(index: nat, o: Observation)
      modifies this`members
      ensures |members| == |old(members)|
      ensures forall i :: 0 <= i < |members| ==>
                members[i] == if i == index then Observe(config, old(members)[i], o) else old(members)[i]
    {
      if index < |members| {
        members := members[index := Observe(config, members[index], o)];
      }
    }

    /** apply_probe_cooldowns. */
    method ApplyProbeCooldowns(health: seq<Health>, now: nat) returns (entered: seq<nat>)
      requires |health| == |members|
      modifies this`members
      ensures |members| == |health|
      ensures forall i :: 0 <= i < |health| ==> members[i] == ProbeCooled(config, health[i], old(members)[i], now)
      ensures forall i :: i in entered <==> 0 <= i < |health| && Enters(config, health[i], old(members)[i], now)
      ensures forall i :: i in entered ==> members[i].cooldownUntil == Some(now + config.cooldown)
    {
      entered := [];
      for i := 0 to |health|
        invariant |members| == |health|
        invariant forall j :: 0 <= j < i ==> members[j] == ProbeCooled(config, health[j], old(members)[j], now)
        invariant forall j :: i <= j < |health| ==> members[j] == old(members)[j]
        invariant forall j :: j in entered <==> 0 <= j < i && Enters(config, health[j], old(members)[j], now)
        invariant forall j :: j in entered ==> members[j].cooldownUntil == Some(now + config.cooldown)
      {
        var probeFailures := if health[i].Known? then health[i].probeFailures else 0;
        if probeFailures >= config.failureThreshold && !InCooldown(members[i], now) {
          members := members[i := members[i].(cooldownUntil := Some(now + config.cooldown))];
          entered := entered + [i];
        }
      }
    }

    /** The best available member, if there is one. */
    method FindBest(health: seq<Health>, now: nat) returns (best: Option<nat>)
      requires |health| == |members|
      ensures best.None? <==> forall i :: 0 <= i < |members| ==> !Available(health[i], members[i], now)
      ensures best.Some? ==> IsBest(Availability(health, members, now), Scores(config, health, members), best.value)
    {
      best := None;
      for i := 0 to |members|
        invariant best.None? ==> forall j :: 0 <= j < i ==> !Available(health[j], members[j], now)
        invariant best.Some? ==>
                    && best.value < i && Available(health[best.value], members[best.value], now)
                    && (forall j :: 0 <= j < i && Available(health[j], members[j], now) ==>
                          Score(config, health[j], members[j])
                          <= Score(config, health[best.value], members[best.value]))
                    && (forall j :: 0 <= j < best.value && Available(health[j], members[j], now) ==>
                          Score(config, health[j], members[j]) < Score(config, health[best.value], members[best.value]))
      {
        if Available(health[i], members[i], now) {
          if best.None?
             || Score(config, health[i], members[i]) > Score(config, health[best.value], members[best.value]) {
            best := Some(i);
          }
        }
      }
    }

    /** pick_adaptive_index: after probe cooldowns, the pick is alive and not
        cooling whenever such a member exists, and is then the current member or
        the best, by the margin; otherwise it is the first member. */
    method PickAdaptive(health: seq<Health>, now: nat) returns (picked: Option<nat>)
      requires |health| == |members|
      modifies this
      ensures |members| == |health|
      ensures forall i :: 0 <= i < |health| ==> members[i] == ProbeCooled(config, health[i], old(members)[i], now)
      ensures picked.None? <==> members == []
      ensures picked.Some? ==> picked.value < |members| && current == picked
      ensures picked.None? ==> current == old(current)
      ensures (exists i :: 0 <= i < |members| && Available(health[i], members[i], now)) ==>
                picked.Some? && Available(health[picked.value], members[picked.value], now)
      ensures picked.Some? ==>
                Selects(old(current), Availability(health, members, now), Scores(config, health, members),
                        config.switchMargin, picked.value)
    {
      var _ := ApplyProbeCooldowns(health, now);
      var best := FindBest(health, now);
      var selected := 0;
      if best.Some? {
        selected := best.value;
        if current.Some? {
          var c := current.value;
          if c < |members| && Available(health[c], members[c], now) {
            if Score(config, health[c], members[c]) + config.switchMargin
               >= Score(config, health[best.value], members[best.value]) {
              selected := c;
            }
          }
        }
        assert Availability(health, members, now)[best.value];
      }
      assert members != [] ==>
          Selects(current, Availability(health, members, now), Scores(config, health, members),
                  config.switchMargin, selected);
      if selected < |members| {
        current := Some(selected);
        picked := Some(selected);
      } else {
        picked := None;
      }
    }
  }
}
