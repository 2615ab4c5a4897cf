/**
 The jitter that a switch margin absorbs, exactly: first over all runs of scores
 between zero and one, and then over the runs of a balancer from its first pick.
 */
module BalancerBounds {
  import opened Bytes
  import opened AdaptiveBalancer
  import opened BalancerRuns

  function Least(x: real, y: real): (z: real)
    ensures z <= x && z <= y && (z == x || z == y)
  {
    if x <= y then x else y
  }

  function Greatest(x: real, y: real): (z: real)
    ensures z >= x && z >= y && (z == x || z == y)
  {
    if x >= y then x else y
  }

  // ---------------------------------------------------------- runs of three members

  /** Three members, of which the first may be unavailable. */
  function Three(up: bool, a: real, b: real, c: real): Round {
    Round([up, true, true], [a, b, c])
  }

  lemma FirstIsBest(x: real)
    ensures var r := Three(true, x, x, x); !NoneAvailable(r.available) && IsBest(r.available, r.scores, 0)
  {
    assert Three(true, x, x, x).available[0];
  }

  lemma SecondIsBest(up: bool, a: real, b: real, c: real)
    requires a < b && c <= b
    ensures var r := Three(up, a, b, c); !NoneAvailable(r.available) && IsBest(r.available, r.scores, 1)
  {
    assert Three(up, a, b, c).available[1];
  }

  lemma ThirdIsBest(up: bool, a: real, b: real, c: real)
    requires a < c && b < c
    ensures var r := Three(up, a, b, c); !NoneAvailable(r.available) && IsBest(r.available, r.scores, 2)
  {
    assert Three(up, a, b, c).available[1];
  }

  /** A gain above the margin, or a current member that is gone, takes the best. */
  lemma TakesBest(current: Option<nat>, r: Round, margin: real, b: nat)
    requires r.Valid() && !NoneAvailable(r.available) && IsBest(r.available, r.scores, b)
    requires Standing(current, r.available) ==> r.scores[current.value] + margin < r.scores[b]
    ensures Selects(current, r.available, r.scores, margin, b)
  {
  }

  lemma NearThree(up: bool, d: real, a: real, b: real, c: real, a1: real, b1: real, c1: real)
    requires a - d <= a1 <= a + d && b - d <= b1 <= b + d && c - d <= c1 <= c + d
    ensures Near(Three(up, a, b, c).scores, Three(up, a1, b1, c1).scores, d)
    ensures Near(Three(up, a1, b1, c1).scores, Three(up, a, b, c).scores, d)
  {
  }

  // ------------------------------------------------------- from a current member

  /** The second member wins a round, and the third the next. */
  function TwoWins(up: bool, low: real, x: real, b: real, c: real): seq<Round> {
    [Three(up, low, x, x), Three(up, low, b, c)]
  }

  /** Scores for that, within jitter, above a floor and below one. */
  predicate TwoWin(up: bool, margin: real, d: real, low: real, x: real, b: real, c: real) {
    && 0.0 <= low < x < 1.0 && (up ==> low + margin < x) && d >= 0.0
    && low <= b < c < 1.0 && b + margin < c && low < c
    && x - d <= b <= x + d && x - d <= c <= x + d
  }

  lemma PicksTwo(first: Option<nat>, margin: real, r: Round, t: Round)
    requires r.Valid() && t.Valid() && first == Some(0)
    requires Selects(first, r.available, r.scores, margin, 1) && Selects(Some(1), t.available, t.scores, margin, 2)
    ensures Picked(first, [r, t], margin, [1, 2]) && Switches(first, [1, 2]) == 2
  {
    var rounds, picks := [r, t], [1, 2];
    assert PickedAt(first, rounds, margin, picks, 0) && PickedAt(first, rounds, margin, picks, 1);
    assert picks[..1] == [1] && picks[..1][..0] == [];
    assert Changed(first, picks, 1) && Changed(first, [1], 0);
  }

  lemma TwoWinsSteady(up: bool, margin: real, d: real, low: real, x: real, b: real, c: real)
    requires TwoWin(up, margin, d, low, x, b, c)
    ensures Steady([up, true, true], TwoWins(up, low, x, b, c), d) && AllInUnit(TwoWins(up, low, x, b, c))
  {
    NearThree(up, d, low, x, x, low, x, x);
    NearThree(up, d, low, b, c, low, b, c);
    NearThree(up, d, low, x, x, low, b, c);
    assert InUnit(Three(up, low, x, x)) && InUnit(Three(up, low, b, c));
  }

  lemma TwoWinsSwitch(up: bool, margin: real, d: real, low: real, x: real, b: real, c: real)
    requires TwoWin(up, margin, d, low, x, b, c)
    ensures var start := if up then Held else Gone;
            JitterRun(start, Some(0), [up, true, true], TwoWins(up, low, x, b, c), margin, d, [1, 2])
    ensures Switches(Some(0), [1, 2]) == 2
  {
    var r, t := Three(up, low, x, x), Three(up, low, b, c);
    SecondIsBest(up, low, x, x);
    TakesBest(Some(0), r, margin, 1);
    ThirdIsBest(up, low, b, c);
    TakesBest(Some(1), t, margin, 2);
    PicksTwo(Some(0), margin, r, t);
    TwoWinsSteady(up, margin, d, low, x, b, c);
  }

  /** Within a range of scores of this width, whatever its floor. */
  lemma HeldScores(low: real, width: real, margin: real, m: real, d: real) returns (x: real, b: real, c: real)
    requires 0.0 <= low && low + width <= 1.0 && m >= margin && 0.0 <= m < width
    requires 2.0 * d > m && d > 2.0 * m - width
    ensures TwoWin(true, margin, d, low, x, b, c)
  {
    var e := Least(width - m, Least(d + width - 2.0 * m, 2.0 * d - m)) / 4.0;
    x := low + m + e;
    b := Greatest(low, x - d);
    c := b + m + e;
  }

  lemma GoneScores(low: real, width: real, margin: real, m: real, d: real) returns (x: real, b: real, c: real)
    requires 0.0 <= low && low + width <= 1.0 && m >= margin && 0.0 <= m < width && 2.0 * d > m
    ensures TwoWin(false, margin, d, low, x, b, c)
  {
    var e := Least(width - m, 2.0 * d - m) / 4.0;
    x, b, c := low + Least(d, width / 2.0), low, low + m + e;
  }

  // ------------------------------------------------------------ from no member yet

  /** All start even; then the second member wins, and then the third. */
  function ThreeWins(low: real, x: real, y: real, b: real, c: real): seq<Round> {
    [Three(true, x, x, x), Three(true, low, y, y), Three(true, low, b, c)]
  }

  predicate ThreeWin(margin: real, d: real, low: real, x: real, y: real, b: real, c: real) {
    && 0.0 <= low <= x < 1.0 && x - d <= low && low < y < 1.0 && low + margin < y && d >= 0.0
    && low <= b < c < 1.0 && b + margin < c && low < c
    && x - d <= y <= x + d && x - d <= b <= x + d && x - d <= c <= x + d
    && y - d <= b <= y + d && y - d <= c <= y + d
  }

  lemma PicksThree(margin: real, r: Round, s: Round, t: Round)
    requires r.Valid() && s.Valid() && t.Valid()
    requires Selects(None, r.available, r.scores, margin, 0) && Selects(Some(0), s.available, s.scores, margin, 1)
    requires Selects(Some(1), t.available, t.scores, margin, 2)
    ensures Picked(None, [r, s, t], margin, [0, 1, 2]) && Switches(None, [0, 1, 2]) == 2
  {
    var rounds, picks := [r, s, t], [0, 1, 2];
    assert PickedAt(None, rounds, margin, picks, 0) && PickedAt(None, rounds, margin, picks, 1);
    assert PickedAt(None, rounds, margin, picks, 2);
    assert picks[..2] == [0, 1] && [0, 1][..1] == [0] && [0][..0] == [];
    assert Changed(None, picks, 2) && Changed(None, [0, 1], 1) && !Changed(None, [0], 0);
    assert Switches(None, [0]) == 0 && Switches(None, [0, 1]) == 1;
  }

  lemma ThreeWinsSteady(margin: real, d: real, low: real, x: real, y: real, b: real, c: real)
    requires ThreeWin(margin, d, low, x, y, b, c)
    ensures Steady([true, true, true], ThreeWins(low, x, y, b, c), d)
  {
    NearThree(true, d, x, x, x, x, x, x);
    NearThree(true, d, low, y, y, low, y, y);
    NearThree(true, d, low, b, c, low, b, c);
    NearThree(true, d, x, x, x, low, y, y);
    NearThree(true, d, x, x, x, low, b, c);
    NearThree(true, d, low, y, y, low, b, c);
  }

  lemma ThreeWinsPicked(margin: real, d: real, low: real, x: real, y: real, b: real, c: real)
    requires ThreeWin(margin, d, low, x, y, b, c)
    ensures Picked(None, ThreeWins(low, x, y, b, c), margin, [0, 1, 2]) && Switches(None, [0, 1, 2]) == 2
  {
    var r, s, t := Three(true, x, x, x), Three(true, low, y, y), Three(true, low, b, c);
    FirstIsBest(x);
    TakesBest(None, r, margin, 0);
    SecondIsBest(true, low, y, y);
    TakesBest(Some(0), s, margin, 1);
    ThirdIsBest(true, low, b, c);
    TakesBest(Some(1), t, margin, 2);
    PicksThree(margin, r, s, t);
  }

  lemma ThreeWinsSwitch(margin: real, d: real, low: real, x: real, y: real, b: real, c: real)
    requires ThreeWin(margin, d, low, x, y, b, c)
    ensures JitterRun(Fresh, None, [true, true, true], ThreeWins(low, x, y, b, c), margin, d, [0, 1, 2])
    ensures Switches(None, [0, 1, 2]) == 2
  {
    ThreeWinsPicked(margin, d, low, x, y, b, c);
    ThreeWinsSteady(margin, d, low, x, y, b, c);
    assert InUnit(Three(true, x, x, x)) && InUnit(Three(true, low, y, y)) && InUnit(Three(true, low, b, c));
  }

  lemma FreshScores(low: real, width: real, margin: real, m: real, d: real) returns (x: real, y: real, b: real, c: real)
    requires 0.0 <= low && low + width <= 1.0 && m >= margin && 0.0 <= m < width
    requires 3.0 * d > 2.0 * m && d > 2.0 * m - width
    ensures ThreeWin(margin, d, low, x, y, b, c)
  {
    var most := (Greatest(2.0 * m / 3.0, 2.0 * m - width) + width) / 2.0;
    var step := Least(d, most);
    var e := Least(width - m, Least(3.0 * step - 2.0 * m, step + width - 2.0 * m)) / 4.0;
    x, y := low + step, low + m + e;
    b := Greatest(low, y - step);
    c := b + m + e;
  }

  // --------------------------------------------------------- over runs of scores

  ghost predicate CanSwitchTwice(start: Start, margin: real, d: real) {
    exists first, available, rounds, picks ::
      JitterRun(start, first, available, rounds, margin, d, picks) && Switches(first, picks) == 2
  }

  lemma SwitchesTwice(start: Start, margin: real, d: real)
    requires !Absorbs(start, margin, d)
    ensures CanSwitchTwice(start, margin, d)
  {
    var m := Greatest(margin, 0.0);
    match start {
      case Fresh =>
        var x, y, b, c := FreshScores(0.0, 1.0, margin, m, d);
        ThreeWinsSwitch(margin, d, 0.0, x, y, b, c);
      case Held =>
        var x, b, c := HeldScores(0.0, 1.0, margin, m, d);
        TwoWinsSwitch(true, margin, d, 0.0, x, b, c);
      case Gone =>
        var x, b, c := GoneScores(0.0, 1.0, margin, m, d);
        TwoWinsSwitch(false, margin, d, 0.0, x, b, c);
    }
  }

  /** The jitter that a margin absorbs, exactly.  For any margin and any start of a
      run: every run of picks on scores between zero and one that move by at most `d`
      switches at most once, if and only if the margin is at least one or `d` is within
      its bound: half the margin if the current member is gone; that or twice the
      margin less one if it is available; two thirds of the margin, or twice the
      margin less one, if there is none yet. */
  lemma AbsorbsIff(start: Start, margin: real, d: real)
    ensures Absorbs(start, margin, d) <==>
            forall first, available, rounds, picks ::
              JitterRun(start, first, available, rounds, margin, d, picks) ==> Switches(first, picks) <= 1
  {
    if Absorbs(start, margin, d) {
      forall first, available, rounds, picks | JitterRun(start, first, available, rounds, margin, d, picks)
        ensures Switches(first, picks) <= 1
      {
        AtMostOneSwitch(first, available, rounds, margin, d, picks);
      }
    } else {
      SwitchesTwice(start, margin, d);
    }
  }

  // ------------------------------------------------- rounds that a balancer can make

  lemma {:induction false} ObservedJoined(
    c: Config, members: seq<AdaptiveState>, a: seq<(nat, Observation)>, b: seq<(nat, Observation)>)
    ensures Observed(c, members, a + b) == Observed(c, Observed(c, members, a), b)
    decreases |b|
  {
    if b == [] {
      assert a + b == a;
    } else {
      assert (a + b)[..|a + b| - 1] == a + b[..|b| - 1];
      ObservedJoined(c, members, a, b[..|b| - 1]);
    }
  }

  /** Connects through one member. */
  function Through(i: nat, observations: seq<Observation>): seq<(nat, Observation)> {
    seq(|observations|, k requires 0 <= k < |observations| => (i, observations[k]))
  }

  lemma {:induction false} ObservedThrough(
    c: Config, members: seq<AdaptiveState>, i: nat, observations: seq<Observation>)
    requires i < |members|
    ensures Observed(c, members, Through(i, observations)) == members[i := ObserveMany(c, members[i], observations)]
    decreases |observations|
  {
    if observations != [] {
      var before := observations[..|observations| - 1];
      ObservedThrough(c, members, i, before);
      assert Through(i, observations)[..|observations| - 1] == Through(i, before);
    }
  }

  /** Every pick puts every member into a cooldown. */
  predicate AlwaysCools(c: Config) {
    c.failureThreshold == 0 && c.cooldown > 0
  }

  ghost predicate AllFlawless(members: seq<AdaptiveState>) {
    forall i :: 0 <= i < |members| ==> Flawless(members[i])
  }

  /** Three members, each with a score that successful connects reach. */
  ghost predicate Reachable(r: Round) {
    && |r.available| == 3 == |r.scores| && r.available[1] && r.available[2]
    && forall i :: 0 <= i < 3 ==> 0.7 <= r.scores[i] < 1.0
  }

  /** A member that is down, or of which nothing is known. */
  function HealthFor(up: bool): Health {
    if up then Unknown else Known(false, 0, 0)
  }

  function HealthsFor(up: bool): seq<Health> {
    [HealthFor(up), Unknown, Unknown]
  }

  /** Connects bring one member to a score and leave the others alone. */
  lemma Bring(c: Config, members: seq<AdaptiveState>, h: Health, i: nat, x: real)
    returns (observed: seq<(nat, Observation)>)
    requires AllFlawless(members) && i < |members| && ProbeFailures(h) == 0 && 0.7 <= x < 1.0
    ensures var after := Observed(c, members, observed);
            && AllFlawless(after) && Score(c, h, after[i]) == x
            && forall k :: 0 <= k < |members| && k != i ==> after[k] == members[k]
  {
    var observations := ScoreReaches(c, h, members[i], x);
    observed := Through(i, observations);
    ObservedThrough(c, members, i, observations);
  }

  lemma BringAll(c: Config, members: seq<AdaptiveState>, health: seq<Health>, scores: seq<real>, n: nat)
    returns (observed: seq<(nat, Observation)>)
    requires AllFlawless(members) && |health| == |members| == |scores| && n <= |members|
    requires forall i :: 0 <= i < |members| ==> ProbeFailures(health[i]) == 0 && 0.7 <= scores[i] < 1.0
    ensures var after := Observed(c, members, observed);
            AllFlawless(after) && forall i :: 0 <= i < n ==> Score(c, health[i], after[i]) == scores[i]
    decreases n
  {
    if n == 0 {
      observed := [];
    } else {
      var before := BringAll(c, members, health, scores, n - 1);
      var last := Bring(c, Observed(c, members, before), health[n - 1], n - 1, scores[n - 1]);
      observed := before + last;
      ObservedJoined(c, members, before, last);
    }
  }

  /** Without failed probes, a check at time zero cools no member for long. */
  lemma StaysWarm(c: Config, h: Health, s: AdaptiveState)
    requires Flawless(s) && ProbeFailures(h) == 0 && !AlwaysCools(c)
    ensures var t := ProbeCooled(c, h, s, 0);
            Flawless(t) && Score(c, h, t) == Score(c, h, s) && (Available(h, t, 0) <==> Alive(h))
  {
  }

  lemma MakeRound(c: Config, members: seq<AdaptiveState>, r: Round) returns (check: Check)
    requires |members| == 3 && AllFlawless(members) && Reachable(r) && !AlwaysCools(c)
    ensures |check.health| == 3
    ensures var after := AfterCheck(c, members, check); AllFlawless(after) && Seen(c, after, check) == r
  {
    var health := HealthsFor(r.available[0]);
    var observed := BringAll(c, members, health, r.scores, 3);
    check := Check(observed, health, 0);
    var before := Observed(c, members, observed);
    forall i | 0 <= i < 3
      ensures var t := ProbeCooled(c, health[i], before[i], 0);
              && Flawless(t) && Score(c, health[i], t) == r.scores[i]
              && (Available(health[i], t, 0) <==> r.available[i])
    {
      StaysWarm(c, health[i], before[i]);
    }
    var seen := Seen(c, AfterCheck(c, members, check), check);
    assert seen.available == r.available;
    assert seen.scores == r.scores;
  }

  /** Any rounds with such scores are the rounds of a new balancer. */
  lemma {:induction false} MakeRounds(c: Config, rounds: seq<Round>) returns (checks: seq<Check>)
    requires !AlwaysCools(c) && forall k :: 0 <= k < |rounds| ==> Reachable(rounds[k])
    ensures Fit(3, checks) && RoundsOf(c, NewMembers(3), checks) == rounds
    ensures AllFlawless(MembersAfter(c, NewMembers(3), checks))
    decreases |rounds|
  {
    if rounds == [] {
      checks := [];
    } else {
      var n := |rounds| - 1;
      var before := MakeRounds(c, rounds[..n]);
      var check := MakeRound(c, MembersAfter(c, NewMembers(3), before), rounds[n]);
      checks := before + [check];
      assert checks[..|checks| - 1] == before;
      assert rounds[..n] + [rounds[n]] == rounds;
    }
  }

  // ------------------------------------------------------- over a balancer's life

  /** The picks of a balancer's life from the `k`-th on, on steady scores. */
  ghost predicate Stretch(
    c: Config, n: nat, checks: seq<Check>, picks: seq<nat>, k: nat, start: Start, available: seq<bool>, d: real)
  {
    && Life(c, n, checks, picks) && k <= |checks|
    && JitterRun(start, Before(None, picks, k), available, RoundsOf(c, NewMembers(n), checks)[k..], c.switchMargin, d,
                 picks[k..])
  }

  function SwitchesFrom(picks: seq<nat>, k: nat): nat
    requires k <= |picks|
  {
    Switches(Before(None, picks, k), picks[k..])
  }

  ghost predicate FlapsInLife(c: Config, start: Start, d: real) {
    exists n: nat, checks, picks, k: nat, available ::
      Stretch(c, n, checks, picks, k, start, available, d) && SwitchesFrom(picks, k) == 2
  }

  lemma PickedBefore(r: Round, pick: nat, rounds: seq<Round>, margin: real, picks: seq<nat>)
    requires r.Valid() && Selects(None, r.available, r.scores, margin, pick)
    requires Picked(Some(pick), rounds, margin, picks)
    ensures Picked(None, [r] + rounds, margin, [pick] + picks)
  {
    var more, all := [r] + rounds, [pick] + picks;
    forall k | 0 <= k < |more|
      ensures PickedAt(None, more, margin, all, k)
    {
      if k > 0 {
        assert PickedAt(Some(pick), rounds, margin, picks, k - 1);
        assert Before(None, all, k) == Before(Some(pick), picks, k - 1);
      }
    }
  }

  /** After a first pick of the first member. */
  lemma FlapsAfterFirst(c: Config, up: bool, d: real, x: real, b: real, s: real)
    requires !AlwaysCools(c) && TwoWin(up, c.switchMargin, d, 0.7, x, b, s)
    ensures FlapsInLife(c, if up then Held else Gone, d)
  {
    var r, rounds := Three(true, 0.7, 0.7, 0.7), TwoWins(up, 0.7, x, b, s);
    FirstIsBest(0.7);
    TakesBest(None, r, c.switchMargin, 0);
    TwoWinsSwitch(up, c.switchMargin, d, 0.7, x, b, s);
    PickedBefore(r, 0, rounds, c.switchMargin, [1, 2]);
    var all, picks := [r] + rounds, [0] + [1, 2];
    var checks := MakeRounds(c, all);
    assert all[1..] == rounds && picks[1..] == [1, 2];
    assert Stretch(c, 3, checks, picks, 1, if up then Held else Gone, [up, true, true], d);
    assert SwitchesFrom(picks, 1) == 2;
  }

  /** From the first pick on. */
  lemma FlapsAtOnce(c: Config, d: real, x: real, y: real, b: real, s: real)
    requires !AlwaysCools(c) && ThreeWin(c.switchMargin, d, 0.7, x, y, b, s)
    ensures FlapsInLife(c, Fresh, d)
  {
    var rounds, picks := ThreeWins(0.7, x, y, b, s), [0, 1, 2];
    ThreeWinsSwitch(c.switchMargin, d, 0.7, x, y, b, s);
    var checks := MakeRounds(c, rounds);
    assert rounds[0..] == rounds && picks[0..] == picks;
    assert Stretch(c, 3, checks, picks, 0, Fresh, [true, true, true], d);
    assert SwitchesFrom(picks, 0) == 2;
  }

  /** Margins that scores from 0.7 to one can pass twice, whatever the jitter. */
  predicate Narrow(start: Start, margin: real) {
    match start
    case Fresh => margin <= 0.225
    case Held => margin <= 0.2
    case Gone => margin < 0.3
  }

  lemma FlapsInLifeIf(c: Config, start: Start, d: real)
    requires Narrow(start, c.switchMargin) && !AlwaysCools(c) && !Absorbs(start, c.switchMargin, d)
    ensures FlapsInLife(c, start, d)
  {
    var m := Greatest(c.switchMargin, 0.0);
    match start {
      case Fresh =>
        var x, y, b, s := FreshScores(0.7, 0.3, c.switchMargin, m, d);
        FlapsAtOnce(c, d, x, y, b, s);
      case Held =>
        var x, b, s := HeldScores(0.7, 0.3, c.switchMargin, m, d);
        FlapsAfterFirst(c, true, d, x, b, s);
      case Gone =>
        var x, b, s := GoneScores(0.7, 0.3, c.switchMargin, m, d);
        FlapsAfterFirst(c, false, d, x, b, s);
    }
  }

  lemma AllCooled(c: Config, n: nat, checks: seq<Check>, k: nat)
    requires Fit(n, checks) && AlwaysCools(c) && k < |checks|
    ensures NoneAvailable(RoundsOf(c, NewMembers(n), checks)[k].available)
    decreases |checks|
  {
    var last := |checks| - 1;
    assert checks[..last + 1] == checks;
    OneMoreCheck(c, NewMembers(n), checks, last);
    if k < last {
      AllCooled(c, n, checks[..last], k);
    }
  }

  lemma CooledSwitchesOnce(
    c: Config, n: nat, checks: seq<Check>, picks: seq<nat>, k: nat, start: Start, available: seq<bool>, d: real)
    requires Stretch(c, n, checks, picks, k, start, available, d) && AlwaysCools(c)
    ensures SwitchesFrom(picks, k) <= 1
  {
    var rounds := RoundsOf(c, NewMembers(n), checks);
    if k < |checks| {
      AllCooled(c, n, checks, k);
      assert rounds[k..][0] == rounds[k];
      PicksFirst(Before(None, picks, k), available, rounds[k..], c.switchMargin, d, picks[k..]);
      OneChange(Before(None, picks, k), picks[k..], 0);
    }
  }

  ghost predicate SwitchesOnceInLife(c: Config, start: Start, d: real) {
    forall n: nat, checks, picks, k: nat, available ::
      Stretch(c, n, checks, picks, k, start, available, d) ==> SwitchesFrom(picks, k) <= 1
  }

  /** The same over the lives of balancers.  From whatever pick on, a balancer switches
      at most once on scores that move by at most `d`, if the margin absorbs `d` or the
      balancer always cools its members; and only if, for every smoothing and every
      margin that the latency part of a score can pass twice, the default among them. */
  lemma BalancerAbsorbsIff(c: Config, start: Start, d: real)
    ensures Absorbs(start, c.switchMargin, d) || AlwaysCools(c) ==> SwitchesOnceInLife(c, start, d)
    ensures Narrow(start, c.switchMargin) && SwitchesOnceInLife(c, start, d) ==>
              Absorbs(start, c.switchMargin, d) || AlwaysCools(c)
  {
    if Absorbs(start, c.switchMargin, d) || AlwaysCools(c) {
      forall n: nat, checks, picks, k: nat, available | Stretch(c, n, checks, picks, k, start, available, d)
        ensures SwitchesFrom(picks, k) <= 1
      {
        if AlwaysCools(c) {
          CooledSwitchesOnce(c, n, checks, picks, k, start, available, d);
        } else {
          AtMostOneSwitch(Before(None, picks, k), available, RoundsOf(c, NewMembers(n), checks)[k..], c.switchMargin,
                          d, picks[k..]);
        }
      }
    } else if Narrow(start, c.switchMargin) {
      FlapsInLifeIf(c, start, d);
    }
  }

  /** With the default margin and threshold, jitter above half the margin makes a
      balancer flap, and above two thirds of it from the first pick on. */
  lemma DefaultsFlap(c: Config, start: Start, d: real)
    requires c.switchMargin == 0.15 && c.failureThreshold == 2
    requires 2.0 * d > 0.15 && (start.Fresh? ==> 3.0 * d > 0.3)
    ensures FlapsInLife(c, start, d)
  {
    FlapsInLifeIf(c, start, d);
  }
}
