/**
 Runs of adaptive picks: how often the balancer switches while availability stays
 the same and scores only jitter.
 */
module BalancerRuns {
  import opened Bytes
  import opened AdaptiveBalancer

  /** What one pick sees. */
  datatype Round = Round(available: seq<bool>, scores: seq<real>) {
    predicate Valid() {
      |scores| == |available|
    }
  }

  /** The current member when the `k`-th pick is made. */
  function Before(first: Option<nat>, picks: seq<nat>, k: nat): Option<nat>
    requires k <= |picks|
  {
    if k == 0 then first else Some(picks[k - 1])
  }

  ghost predicate PickedAt(first: Option<nat>, rounds: seq<Round>, margin: real, picks: seq<nat>, k: nat)
    requires k < |rounds| == |picks|
  {
    rounds[k].Valid() && Selects(Before(first, picks, k), rounds[k].available, rounds[k].scores, margin, picks[k])
  }

  /** A run of picks, each made from the one before it. */
  ghost predicate Picked(first: Option<nat>, rounds: seq<Round>, margin: real, picks: seq<nat>) {
    |picks| == |rounds| && forall k :: 0 <= k < |rounds| ==> PickedAt(first, rounds, margin, picks, k)
  }

  /** A run has only one outcome. */
  lemma {:induction false} PickedOnce(
    first: Option<nat>, rounds: seq<Round>, margin: real, picks: seq<nat>, others: seq<nat>, k: nat)
    requires Picked(first, rounds, margin, picks) && Picked(first, rounds, margin, others) && k < |rounds|
    ensures picks[k] == others[k]
    decreases k
  {
    if k > 0 {
      PickedOnce(first, rounds, margin, picks, others, k - 1);
    }
    assert PickedAt(first, rounds, margin, picks, k) && PickedAt(first, rounds, margin, others, k);
    SelectsOne(Before(first, picks, k), rounds[k].available, rounds[k].scores, margin, picks[k], others[k]);
  }

  // -------------------------------------------------------------- the object's runs

  /** Connects observed since the last pick, then the state of the health checker
      and the time of the next. */
  datatype Check = Check(observed: seq<(nat, Observation)>, health: seq<Health>, now: nat)

  ghost predicate Counted(members: seq<AdaptiveState>) {
    forall i :: 0 <= i < |members| ==> members[i].successes <= members[i].attempts <= U64_MAX
  }

  ghost predicate InUnit(r: Round) {
    forall i :: 0 <= i < |r.scores| ==> 0.0 <= r.scores[i] <= 1.0
  }

  ghost predicate AllInUnit(rounds: seq<Round>) {
    forall k :: 0 <= k < |rounds| ==> InUnit(rounds[k])
  }

  lemma OneMorePick(first: Option<nat>, rounds: seq<Round>, margin: real, picks: seq<nat>, r: Round, pick: nat)
    requires Picked(first, rounds, margin, picks) && r.Valid()
    requires Selects(Before(first, picks, |picks|), r.available, r.scores, margin, pick)
    ensures Picked(first, rounds + [r], margin, picks + [pick])
  {
    var more, all := rounds + [r], picks + [pick];
    forall k | 0 <= k < |more|
      ensures PickedAt(first, more, margin, all, k)
    {
      if k < |rounds| {
        assert PickedAt(first, rounds, margin, picks, k);
        assert Before(first, all, k) == Before(first, picks, k);
      }
    }
  }

  /** The members after some connects. */
  function Observed(c: Config, members: seq<AdaptiveState>, observed: seq<(nat, Observation)>):
    (after: seq<AdaptiveState>)
    ensures |after| == |members|
    decreases |observed|
  {
    if observed == [] then
      members
    else
      var before := Observed(c, members, observed[..|observed| - 1]);
      var (i, o) := observed[|observed| - 1];
      if i < |before| then before[i := Observe(c, before[i], o)] else before
  }

  function Cooled(c: Config, members: seq<AdaptiveState>, health: seq<Health>, now: nat): (after: seq<AdaptiveState>)
    requires |health| == |members|
    ensures |after| == |members|
  {
    seq(|members|, i requires 0 <= i < |members| => ProbeCooled(c, health[i], members[i], now))
  }

  function AfterCheck(c: Config, members: seq<AdaptiveState>, check: Check): (after: seq<AdaptiveState>)
    requires |check.health| == |members|
    ensures |after| == |members|
  {
    Cooled(c, Observed(c, members, check.observed), check.health, check.now)
  }

  ghost predicate Fit(n: nat, checks: seq<Check>) {
    forall k :: 0 <= k < |checks| ==> |checks[k].health| == n
  }

  ghost function MembersAfter(c: Config, members: seq<AdaptiveState>, checks: seq<Check>): (after: seq<AdaptiveState>)
    requires Fit(|members|, checks)
    ensures |after| == |members|
    decreases |checks|
  {
    if checks == [] then
      members
    else
      AfterCheck(c, MembersAfter(c, members, checks[..|checks| - 1]), checks[|checks| - 1])
  }

  /** What the pick of a check sees. */
  function Seen(c: Config, members: seq<AdaptiveState>, check: Check): (r: Round)
    requires |check.health| == |members|
    ensures r.Valid()
  {
    Round(Availability(check.health, members, check.now), Scores(c, check.health, members))
  }

  /** The rounds of a balancer's picks. */
  ghost function RoundsOf(c: Config, members: seq<AdaptiveState>, checks: seq<Check>): (rounds: seq<Round>)
    requires Fit(|members|, checks)
    ensures |rounds| == |checks|
    decreases |checks|
  {
    if checks == [] then
      []
    else
      RoundsOf(c, members, checks[..|checks| - 1]) + [Seen(c, MembersAfter(c, members, checks), checks[|checks| - 1])]
  }

  method ObserveAllConnects(balancer: Runtime, observed: seq<(nat, Observation)>)
    requires Counted(balancer.members)
    modifies balancer`members
    ensures balancer.members == Observed(balancer.config, old(balancer.members), observed)
    ensures Counted(balancer.members)
  {
    for i := 0 to |observed|
      invariant balancer.members == Observed(balancer.config, old(balancer.members), observed[..i])
      invariant Counted(balancer.members)
    {
      assert observed[..i + 1][..i] == observed[..i];
      balancer.ObserveConnect(observed[i].0, observed[i].1);
    }
    assert observed[..|observed|] == observed;
  }

  lemma OneMoreCheck(c: Config, members: seq<AdaptiveState>, checks: seq<Check>, k: nat)
    requires Fit(|members|, checks) && k < |checks|
    ensures MembersAfter(c, members, checks[..k + 1]) == AfterCheck(c, MembersAfter(c, members, checks[..k]), checks[k])
    ensures RoundsOf(c, members, checks[..k + 1])
         == RoundsOf(c, members, checks[..k]) + [Seen(c, MembersAfter(c, members, checks[..k + 1]), checks[k])]
  {
    assert checks[..k + 1][..k] == checks[..k];
  }

  /** One check and its pick. */
  method PickOnce(balancer: Runtime, check: Check) returns (picked: nat)
    requires balancer.members != [] && Counted(balancer.members) && |check.health| == |balancer.members|
    modifies balancer
    ensures balancer.members == AfterCheck(balancer.config, old(balancer.members), check) && Counted(balancer.members)
    ensures balancer.current == Some(picked)
    ensures var r := Seen(balancer.config, balancer.members, check);
            InUnit(r) && Selects(old(balancer.current), r.available, r.scores, balancer.config.switchMargin, picked)
  {
    ObserveAllConnects(balancer, check.observed);
    ghost var before := balancer.members;
    var some := balancer.PickAdaptive(check.health, check.now);
    assert balancer.members == Cooled(balancer.config, before, check.health, check.now);
    ScoresInUnit(balancer.config, check.health, balancer.members);
    picked := some.value;
  }

  /** Any number of picks of one balancer, with connects observed and probes failing
      in between, is a run of picks on the rounds that these make, with scores
      between zero and one. */
  method PickRun(balancer: Runtime, checks: seq<Check>) returns (picks: seq<nat>)
    requires balancer.members != [] && Counted(balancer.members) && Fit(|balancer.members|, checks)
    modifies balancer
    ensures balancer.members == MembersAfter(balancer.config, old(balancer.members), checks)
    ensures Counted(balancer.members)
    ensures balancer.current == Before(old(balancer.current), picks, |picks|)
    ensures var rounds := RoundsOf(balancer.config, old(balancer.members), checks);
            AllInUnit(rounds) && Picked(old(balancer.current), rounds, balancer.config.switchMargin, picks)
  {
    picks := [];
    ghost var start, first, rounds := balancer.members, balancer.current, [];
    for k := 0 to |checks|
      invariant balancer.members == MembersAfter(balancer.config, start, checks[..k]) && Counted(balancer.members)
      invariant |picks| == k && rounds == RoundsOf(balancer.config, start, checks[..k]) && AllInUnit(rounds)
      invariant Picked(first, rounds, balancer.config.switchMargin, picks)
      invariant balancer.current == Before(first, picks, k)
    {
      OneMoreCheck(balancer.config, start, checks, k);
      var picked := PickOnce(balancer, checks[k]);
      ghost var r := Seen(balancer.config, balancer.members, checks[k]);
      OneMorePick(first, rounds, balancer.config.switchMargin, picks, r, picked);
      picks, rounds := picks + [picked], rounds + [r];
    }
    assert checks[..|checks|] == checks;
  }

  function NewMembers(n: nat): seq<AdaptiveState> {
    seq(n, _ => NewState)
  }

  /** The picks of a balancer from its construction on. */
  ghost predicate Life(c: Config, n: nat, checks: seq<Check>, picks: seq<nat>) {
    n > 0 && Fit(n, checks) && Picked(None, RoundsOf(c, NewMembers(n), checks), c.switchMargin, picks)
  }

  /** That is what a new balancer picks. */
  method RunFromNew(config: Config, n: nat, checks: seq<Check>) returns (picks: seq<nat>)
    requires n > 0 && Fit(n, checks)
    ensures Life(config, n, checks, picks) && AllInUnit(RoundsOf(config, NewMembers(n), checks))
  {
    var balancer := new Runtime(config, n);
    assert balancer.members == NewMembers(n);
    picks := PickRun(balancer, checks);
  }

  lemma ScoresInUnit(c: Config, health: seq<Health>, members: seq<AdaptiveState>)
    requires |health| == |members| && Counted(members)
    ensures forall i :: 0 <= i < |members| ==> 0.0 <= Scores(c, health, members)[i] <= 1.0
  {
    forall i | 0 <= i < |members|
      ensures 0.0 <= Scores(c, health, members)[i] <= 1.0
    {
      ScoreInUnit(c, health[i], members[i]);
    }
  }

  // --------------------------------------------------------------------- switches

  predicate Changed(first: Option<nat>, picks: seq<nat>, k: nat)
    requires k < |picks|
  {
    Before(first, picks, k).Some? && Before(first, picks, k).value != picks[k]
  }

  function Switches(first: Option<nat>, picks: seq<nat>): nat {
    if picks == [] then 0
    else Switches(first, picks[..|picks| - 1]) + if Changed(first, picks, |picks| - 1) then 1 else 0
  }

  /** Only the `j`-th pick changes the member, if any does. */
  ghost predicate OnlyChange(first: Option<nat>, picks: seq<nat>, j: nat) {
    forall k :: 0 <= k < |picks| && k != j ==> !Changed(first, picks, k)
  }

  lemma {:induction false} OneChange(first: Option<nat>, picks: seq<nat>, j: nat)
    requires OnlyChange(first, picks, j)
    ensures Switches(first, picks) <= if j < |picks| then 1 else 0
    decreases |picks|
  {
    if picks != [] {
      var before := picks[..|picks| - 1];
      assert forall k :: 0 <= k < |before| ==> Changed(first, before, k) == Changed(first, picks, k);
      OneChange(first, before, j);
    }
  }

  // ------------------------------------------------------------------- steady runs

  /** No member's score differs by more than `d`. */
  ghost predicate Near(a: seq<real>, b: seq<real>, d: real) {
    |a| == |b| && forall i :: 0 <= i < |a| ==> a[i] - b[i] <= d && b[i] - a[i] <= d
  }

  /** Availability stays the same, and no member's score moves by more than `d` over
      the whole run. */
  ghost predicate Steady(available: seq<bool>, rounds: seq<Round>, d: real) {
    && (forall k :: 0 <= k < |rounds| ==> rounds[k].Valid() && rounds[k].available == available)
    && (forall j, k :: 0 <= j < |rounds| && 0 <= k < |rounds| ==> Near(rounds[j].scores, rounds[k].scores, d))
  }

  /** How a run starts: with no current member, with an available one, or with one
      that is not available. */
  datatype Start = Fresh | Held | Gone

  function StartOf(first: Option<nat>, available: seq<bool>): Start {
    if first.None? then Fresh else if Standing(first, available) then Held else Gone
  }

  /** The jitter that a margin absorbs, by the start of the run. */
  predicate Absorbs(start: Start, margin: real, d: real) {
    var m := if margin >= 0.0 then margin else 0.0;
    || m >= 1.0
    || match start
       case Fresh => 3.0 * d <= 2.0 * m || d <= 2.0 * m - 1.0
       case Held => 2.0 * d <= m || d <= 2.0 * m - 1.0
       case Gone => 2.0 * d <= m
  }

  /** A member that no other beats by more than the margin is kept. */
  lemma Kept(available: seq<bool>, scores: seq<real>, margin: real, b: nat, chosen: nat)
    requires |scores| == |available| && Selects(Some(b), available, scores, margin, chosen)
    requires b < |available| && available[b]
    requires forall i :: 0 <= i < |available| && available[i] ==> scores[i] <= scores[b] + margin
    ensures chosen == b
  {
  }

  /** A change takes the best member, and one that was available is left only for a
      gain above the margin. */
  lemma ChangeTakesBest(
    first: Option<nat>, available: seq<bool>, rounds: seq<Round>, margin: real, picks: seq<nat>, j: nat)
    requires Picked(first, rounds, margin, picks) && j < |rounds| && Changed(first, picks, j)
    requires rounds[j].available == available && !NoneAvailable(available)
    ensures rounds[j].Valid() && IsBest(available, rounds[j].scores, picks[j])
    ensures Standing(Before(first, picks, j), available) ==>
              rounds[j].scores[picks[j]] > rounds[j].scores[Before(first, picks, j).value] + margin
  {
    assert PickedAt(first, rounds, margin, picks, j);
  }

  /** Picks are available members. */
  lemma PickIsAvailable(
    first: Option<nat>, available: seq<bool>, rounds: seq<Round>, margin: real, picks: seq<nat>, j: nat)
    requires Picked(first, rounds, margin, picks) && j < |rounds|
    requires rounds[j].available == available && !NoneAvailable(available)
    ensures picks[j] < |available| && available[picks[j]]
  {
    assert PickedAt(first, rounds, margin, picks, j);
  }

  /** No available member beats `b` by more than the margin. */
  ghost predicate UnbeatenIn(r: Round, margin: real, b: nat) {
    && r.Valid() && b < |r.available| && r.available[b]
    && forall i :: 0 <= i < |r.available| && r.available[i] ==> r.scores[i] <= r.scores[b] + margin
  }

  ghost predicate Unbeaten(rounds: seq<Round>, margin: real, b: nat) {
    forall k :: 0 <= k < |rounds| ==> UnbeatenIn(rounds[k], margin, b)
  }

  lemma StaysOnce(first: Option<nat>, rounds: seq<Round>, margin: real, picks: seq<nat>, k: nat, b: nat)
    requires k < |rounds| == |picks| && PickedAt(first, rounds, margin, picks, k)
    requires Before(first, picks, k) == Some(b) && UnbeatenIn(rounds[k], margin, b)
    ensures picks[k] == b
  {
    Kept(rounds[k].available, rounds[k].scores, margin, b, picks[k]);
  }

  /** A member that is never beaten is never left. */
  lemma {:induction false} UnbeatenStays(
    first: Option<nat>, rounds: seq<Round>, margin: real, picks: seq<nat>, j: nat, k: nat)
    requires Picked(first, rounds, margin, picks) && j <= k < |rounds| && Unbeaten(rounds, margin, picks[j])
    ensures picks[k] == picks[j]
    decreases k
  {
    if k > j {
      UnbeatenStays(first, rounds, margin, picks, j, k - 1);
      StaysOnce(first, rounds, margin, picks, k, picks[j]);
    }
  }

  // --------------------------------------------------- why a member stays unbeaten

  /** It was best once, and scores move by at most half the margin. */
  lemma BestStays(available: seq<bool>, rounds: seq<Round>, margin: real, d: real, j: nat, b: nat)
    requires Steady(available, rounds, d) && j < |rounds| && 2.0 * d <= margin
    requires IsBest(available, rounds[j].scores, b)
    ensures Unbeaten(rounds, margin, b)
  {
    forall k | 0 <= k < |rounds|
      ensures UnbeatenIn(rounds[k], margin, b)
    {
      assert Near(rounds[j].scores, rounds[k].scores, d);
      forall i | 0 <= i < |available| && available[i]
        ensures rounds[k].scores[i] <= rounds[k].scores[b] + margin
      {
        assert rounds[k].scores[i] - rounds[j].scores[i] <= d && rounds[j].scores[b] - rounds[k].scores[b] <= d;
      }
    }
  }

  /** It scored above the margin once, and cannot fall far enough for a score of one
      to beat it. */
  lemma HighStays(available: seq<bool>, rounds: seq<Round>, margin: real, d: real, j: nat, b: nat)
    requires Steady(available, rounds, d) && AllInUnit(rounds) && j < |rounds| && d <= 2.0 * margin - 1.0
    requires b < |available| && available[b] && rounds[j].scores[b] > margin
    ensures Unbeaten(rounds, margin, b)
  {
    forall k | 0 <= k < |rounds|
      ensures UnbeatenIn(rounds[k], margin, b)
    {
      assert Near(rounds[j].scores, rounds[k].scores, d) && InUnit(rounds[k]);
    }
  }

  /** No gain can pass a margin of one. */
  lemma WideMarginStays(available: seq<bool>, rounds: seq<Round>, margin: real, d: real, b: nat)
    requires Steady(available, rounds, d) && AllInUnit(rounds) && margin >= 1.0 && b < |available| && available[b]
    ensures Unbeaten(rounds, margin, b)
  {
    forall k | 0 <= k < |rounds|
      ensures UnbeatenIn(rounds[k], margin, b)
    {
      assert InUnit(rounds[k]);
    }
  }

  /** It won by more than the margin over a member that was best before. */
  lemma WinnerStays(available: seq<bool>, rounds: seq<Round>, margin: real, d: real, a: nat, j: nat, b: nat)
    requires Steady(available, rounds, d) && j < |rounds| && 3.0 * d <= 2.0 * margin
    requires IsBest(available, rounds[0].scores, a) && IsBest(available, rounds[j].scores, b)
    requires rounds[j].scores[b] > rounds[j].scores[a] + margin
    ensures Unbeaten(rounds, margin, b)
  {
    assert Near(rounds[0].scores, rounds[j].scores, d);
    forall k | 0 <= k < |rounds|
      ensures UnbeatenIn(rounds[k], margin, b)
    {
      assert Near(rounds[0].scores, rounds[k].scores, d) && Near(rounds[j].scores, rounds[k].scores, d);
      forall i | 0 <= i < |available| && available[i]
        ensures rounds[k].scores[i] <= rounds[k].scores[b] + margin
      {
        assert rounds[k].scores[i] <= rounds[0].scores[i] + d <= rounds[0].scores[a] + d;
        assert rounds[0].scores[a] <= rounds[j].scores[a] + d && rounds[j].scores[b] <= rounds[k].scores[b] + d;
      }
    }
  }

  /** With a negative margin every pick is the best; with no jitter that is always
      the same member. */
  lemma NegativeMarginStays(
    first: Option<nat>, available: seq<bool>, rounds: seq<Round>, margin: real, d: real, picks: seq<nat>, j: nat,
    k: nat)
    requires Picked(first, rounds, margin, picks) && Steady(available, rounds, d) && margin < 0.0 && d <= 0.0
    requires !NoneAvailable(available) && j < |rounds| && k < |rounds|
    ensures picks[k] == picks[j]
  {
    assert PickedAt(first, rounds, margin, picks, j) && PickedAt(first, rounds, margin, picks, k);
    assert Near(rounds[j].scores, rounds[k].scores, d);
    assert rounds[j].scores == rounds[k].scores;
    BestIsUnique(available, rounds[j].scores, picks[j], picks[k]);
  }

  // ------------------------------------------------------------------ the theorems

  lemma {:induction false} FirstChange(first: Option<nat>, picks: seq<nat>, n: nat) returns (j: nat)
    requires n <= |picks|
    ensures j <= n && forall k :: 0 <= k < j ==> !Changed(first, picks, k)
    ensures j < n ==> Changed(first, picks, j)
    decreases n
  {
    if n == 0 {
      j := 0;
    } else {
      j := FirstChange(first, picks, n - 1);
      if j == n - 1 && !Changed(first, picks, j) {
        j := n;
      }
    }
  }

  lemma {:induction false} UnchangedSoFar(first: Option<nat>, picks: seq<nat>, j: nat, k: nat)
    requires k < j <= |picks| && forall i :: 0 <= i < j ==> !Changed(first, picks, i)
    ensures picks[k] == picks[0]
    decreases k
  {
    if k > 0 {
      UnchangedSoFar(first, picks, j, k - 1);
      assert !Changed(first, picks, k);
    }
  }

  /** The first pick of a run without a current member is the best. */
  lemma FreshPickIsBest(available: seq<bool>, rounds: seq<Round>, margin: real, picks: seq<nat>)
    requires Picked(None, rounds, margin, picks) && rounds != [] && rounds[0].Valid()
    requires rounds[0].available == available && !NoneAvailable(available)
    ensures IsBest(available, rounds[0].scores, picks[0])
  {
    assert PickedAt(None, rounds, margin, picks, 0);
  }

  lemma BeforeIsStanding(
    first: Option<nat>, available: seq<bool>, rounds: seq<Round>, margin: real, d: real, picks: seq<nat>, j: nat)
    requires Picked(first, rounds, margin, picks) && Steady(available, rounds, d) && !NoneAvailable(available)
    requires j < |rounds| && Changed(first, picks, j) && !StartOf(first, available).Gone?
    ensures Standing(Before(first, picks, j), available)
  {
    if j > 0 {
      PickIsAvailable(first, available, rounds, margin, picks, j - 1);
    }
  }

  /** The member that the first change takes is kept. */
  lemma ChangedMemberStays(
    first: Option<nat>, available: seq<bool>, rounds: seq<Round>, margin: real, d: real, picks: seq<nat>, j: nat)
    requires Picked(first, rounds, margin, picks) && Steady(available, rounds, d) && AllInUnit(rounds)
    requires !NoneAvailable(available) && margin >= 0.0 && Absorbs(StartOf(first, available), margin, d)
    requires j < |rounds| && Changed(first, picks, j) && forall k :: 0 <= k < j ==> !Changed(first, picks, k)
    ensures Unbeaten(rounds, margin, picks[j])
  {
    ChangeTakesBest(first, available, rounds, margin, picks, j);
    if margin >= 1.0 {
      WideMarginStays(available, rounds, margin, d, picks[j]);
    } else if 2.0 * d <= margin {
      BestStays(available, rounds, margin, d, j, picks[j]);
    } else {
      BeforeIsStanding(first, available, rounds, margin, d, picks, j);
      assert InUnit(rounds[j]);
      if d <= 2.0 * margin - 1.0 {
        HighStays(available, rounds, margin, d, j, picks[j]);
      } else {
        UnchangedSoFar(first, picks, j, j - 1);
        FreshPickIsBest(available, rounds, margin, picks);
        WinnerStays(available, rounds, margin, d, picks[0], j, picks[j]);
      }
    }
  }

  lemma PicksFirst(first: Option<nat>, available: seq<bool>, rounds: seq<Round>, margin: real, d: real, picks: seq<nat>)
    requires Picked(first, rounds, margin, picks) && Steady(available, rounds, d) && NoneAvailable(available)
    ensures OnlyChange(first, picks, 0)
  {
    forall k | 0 <= k < |picks|
      ensures picks[k] == 0
    {
      assert PickedAt(first, rounds, margin, picks, k);
    }
  }

  /** A run on steady availability and scores between zero and one. */
  ghost predicate JitterRun(
    start: Start, first: Option<nat>, available: seq<bool>, rounds: seq<Round>, margin: real, d: real, picks: seq<nat>)
  {
    && StartOf(first, available) == start && Picked(first, rounds, margin, picks)
    && Steady(available, rounds, d) && AllInUnit(rounds)
  }

  /** No flapping: the balancer switches at most once in any run whose jitter its
      margin absorbs. */
  lemma AtMostOneSwitch(
    first: Option<nat>, available: seq<bool>, rounds: seq<Round>, margin: real, d: real, picks: seq<nat>)
    requires JitterRun(StartOf(first, available), first, available, rounds, margin, d, picks)
    requires Absorbs(StartOf(first, available), margin, d)
    ensures Switches(first, picks) <= 1
  {
    var j := 0;
    if NoneAvailable(available) {
      PicksFirst(first, available, rounds, margin, d, picks);
    } else {
      j := FirstChange(first, picks, |picks|);
      if j < |picks| {
        forall k | j <= k < |picks|
          ensures picks[k] == picks[j]
        {
          if margin < 0.0 {
            NegativeMarginStays(first, available, rounds, margin, d, picks, j, k);
          } else {
            ChangedMemberStays(first, available, rounds, margin, d, picks, j);
            UnbeatenStays(first, rounds, margin, picks, j, k);
          }
        }
      }
    }
    OneChange(first, picks, j);
  }

  /** With a margin of one or more, a member is never left while it is available. */
  lemma {:induction false} WideMarginKeeps(
    first: nat, rounds: seq<Round>, margin: real, picks: seq<nat>, k: nat)
    requires Picked(Some(first), rounds, margin, picks) && AllInUnit(rounds) && margin >= 1.0 && k < |rounds|
    requires forall i :: 0 <= i <= k ==> Standing(Some(first), rounds[i].available)
    ensures picks[k] == first
    decreases k
  {
    if k > 0 {
      WideMarginKeeps(first, rounds, margin, picks, k - 1);
    }
    assert PickedAt(Some(first), rounds, margin, picks, k) && InUnit(rounds[k]);
    StaysOnce(Some(first), rounds, margin, picks, k, first);
  }
}
