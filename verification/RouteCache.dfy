/**
 The live router's decision cache under concurrent lookups and hot reloads.

 A lookup takes several atomic steps: it loads the generation, probes the cache,
 loads the rules, computes, and inserts its decision stamped with the generation
 it loaded first.  A reload bumps the generation, clears the cache and stores
 the new rules.  Rule sets are numbered in the order they were stored; the
 number a decision was computed from is kept beside it.
 */
module RouteCache {
  import opened Bytes

  /** What routing looks at; the cache key is a hash of these fields, taken to be
      injective. */
  datatype Context = Context(
    dest: string, port: nat, tcp: bool, inboundTag: string, user: Option<string>,
    sniffedProtocol: Option<string>, sniffedDomain: Option<string>)

  datatype Rule = Rule(outboundTag: string, matches: Context -> bool)

  datatype RuleSet = RuleSet(rules: seq<Rule>, defaultTag: string)

  datatype Decision = Decision(tag: string, matched: bool)

  /** The first rule that matches, or the default. */
  function Decide(rs: RuleSet, ctx: Context): Decision
    decreases |rs.rules|
  {
    if rs.rules == [] then
      Decision(rs.defaultTag, false)
    else if rs.rules[0].matches(ctx) then
      Decision(rs.rules[0].outboundTag, true)
    else
      Decide(rs.(rules := rs.rules[1..]), ctx)
  }

  /** pick_route_match_uncached: the decision is that of the first matching rule,
      and the default tag is used exactly when no rule matches. */
  method PickUncached(rs: RuleSet, ctx: Context) returns (d: Decision)
    ensures d == Decide(rs, ctx)
    ensures d.matched <==> exists i :: 0 <= i < |rs.rules| && rs.rules[i].matches(ctx)
    ensures d.matched ==>
              exists i :: 0 <= i < |rs.rules| && rs.rules[i].matches(ctx) && d.tag == rs.rules[i].outboundTag
                          && forall j :: 0 <= j < i ==> !rs.rules[j].matches(ctx)
    ensures !d.matched ==> d.tag == rs.defaultTag
  {
    var i := 0;
    assert rs.rules[0..] == rs.rules;
    while i < |rs.rules|
      invariant 0 <= i <= |rs.rules|
      invariant forall j :: 0 <= j < i ==> !rs.rules[j].matches(ctx)
      invariant Decide(rs.(rules := rs.rules[i..]), ctx) == Decide(rs, ctx)
    {
      assert rs.rules[i..][0] == rs.rules[i] && rs.rules[i..][1..] == rs.rules[i + 1..];
      if rs.rules[i].matches(ctx) {
        return Decision(rs.rules[i].outboundTag, true);
      }
      i := i + 1;
    }
    return Decision(rs.defaultTag, false);
  }

  // ------------------------------------------------------------------ the system

  /** A decision and the rule set it came from. */
  datatype Made = Made(decision: Decision, version: nat)

  datatype Entry = Entry(made: Made, generation: nat)

  datatype Stage =
    | Begun
    | Loaded(generation: nat)
    | Missed(generation: nat)
    | Computed(generation: nat, made: Made)
    | Returned(made: Made)

  /** A lookup, and which rule set was live when it began. */
  datatype Lookup = Lookup(ctx: Context, begun: nat, stage: Stage)

  datatype Router = Router(
    stored: seq<RuleSet>, generation: nat, swapping: bool, cache: map<Context, Entry>, lookups: map<nat, Lookup>)
  {
    ghost predicate Live() {
      stored != []
    }
    function Version(): nat
      requires stored != []
    {
      |stored| - 1
    }
  }

  /** `Clear(kept)` may leave entries behind: the map is cleared shard by shard
      while lookups insert.  `Evict` is expiry.  `SwapNow` is a reload in one
      step. */
  datatype Step =
    | Begin(id: nat, ctx: Context)
    | LoadGeneration(id: nat)
    | Probe(id: nat, unexpired: bool)
    | LoadRules(id: nat)
    | Insert(id: nat)
    | Evict(ctx: Context)
    | Bump
    | Clear(kept: set<Context>)
    | Store(rs: RuleSet)
    | SwapNow(rs: RuleSet)

  ghost function WithStage(s: Router, id: nat, stage: Stage): Router
    requires id in s.lookups
  {
    s.(lookups := s.lookups[id := s.lookups[id].(stage := stage)])
  }

  /** One atomic step; a step that does not apply changes nothing. */
  ghost function Next(s: Router, step: Step): Router
    requires s.Live()
  {
    match step
    case Begin(id, ctx) =>
      if id in s.lookups then s else s.(lookups := s.lookups[id := Lookup(ctx, s.Version(), Begun)])
    case LoadGeneration(id) =>
      if id in s.lookups && s.lookups[id].stage.Begun? then WithStage(s, id, Loaded(s.generation)) else s
    case Probe(id, unexpired) =>
      if id in s.lookups && s.lookups[id].stage.Loaded? then
        var l := s.lookups[id];
        if l.ctx in s.cache && s.cache[l.ctx].generation == l.stage.generation && unexpired then
          WithStage(s, id, Returned(s.cache[l.ctx].made))
        else
          WithStage(s, id, Missed(l.stage.generation))
      else
        s
    case LoadRules(id) =>
      if id in s.lookups && s.lookups[id].stage.Missed? then
        var l := s.lookups[id];
        WithStage(s, id, Computed(l.stage.generation, Made(Decide(s.stored[s.Version()], l.ctx), s.Version())))
      else
        s
    case Insert(id) =>
      if id in s.lookups && s.lookups[id].stage.Computed? then
        var l := s.lookups[id];
        WithStage(s, id, Returned(l.stage.made)).(cache := s.cache[l.ctx := Entry(l.stage.made, l.stage.generation)])
      else
        s
    case Evict(ctx) => s.(cache := s.cache - {ctx})
    case Bump => if s.swapping then s else s.(generation := s.generation + 1, swapping := true)
    case Clear(kept) => if s.swapping then s.(cache := s.cache - (s.cache.Keys - kept)) else s
    case Store(rs) => if s.swapping then s.(stored := s.stored + [rs], swapping := false) else s
    case SwapNow(rs) =>
      if s.swapping then s else s.(stored := s.stored + [rs], generation := s.generation + 1, cache := map[])
  }

  lemma NextLive(s: Router, step: Step)
    requires s.Live()
    ensures Next(s, step).Live()
  {
  }

  ghost function Run(first: RuleSet, steps: seq<Step>): (s: Router)
    ensures s.Live()
  {
    if steps == [] then
      Router([first], 0, false, map[], map[])
    else
      NextLive(Run(first, steps[..|steps| - 1]), steps[|steps| - 1]);
      Next(Run(first, steps[..|steps| - 1]), steps[|steps| - 1])
  }

  /** A lookup loads the old rules in the middle of the reload whose generation
      it already carries. */
  ghost predicate Racy(s: Router, step: Step) {
    && step.LoadRules?
    && s.swapping
    && step.id in s.lookups && s.lookups[step.id].stage == Missed(s.generation)
  }

  // --------------------------------------------------------------- the invariant

  /** A decision that some stored rule set makes. */
  ghost predicate Genuine(s: Router, ctx: Context, made: Made) {
    made.version < |s.stored| && made.decision == Decide(s.stored[made.version], ctx)
  }

  ghost predicate EntryOk(s: Router, lag: nat, ctx: Context, e: Entry) {
    Genuine(s, ctx, e.made) && e.generation <= e.made.version + lag && e.generation <= s.generation
  }

  ghost predicate LookupOk(s: Router, lag: nat, l: Lookup) {
    && l.begun < |s.stored|
    && match l.stage
       case Begun => true
       case Loaded(g) => l.begun <= g <= s.generation
       case Missed(g) => l.begun <= g <= s.generation
       case Computed(g, made) =>
         Genuine(s, l.ctx, made) && g <= made.version + lag && l.begun <= made.version && g <= s.generation
       case Returned(made) => Genuine(s, l.ctx, made) && l.begun <= made.version + lag
  }

  ghost predicate Inv(s: Router, lag: nat) {
    && s.Live()
    && s.generation == s.Version() + (if s.swapping then 1 else 0)
    && (forall ctx :: ctx in s.cache ==> EntryOk(s, lag, ctx, s.cache[ctx]))
    && (forall id :: id in s.lookups ==> LookupOk(s, lag, s.lookups[id]))
  }

  /** Reloading keeps what was true of entries and lookups: old rule sets stay
      where they were. */
  lemma StoredKeeps(s: Router, t: Router, lag: nat)
    requires Inv(s, lag) && s.stored <= t.stored && s.generation <= t.generation
    requires t.lookups == s.lookups && (forall ctx :: ctx in t.cache ==> ctx in s.cache && t.cache[ctx] == s.cache[ctx])
    requires t.generation == t.Version() + (if t.swapping then 1 else 0)
    ensures Inv(t, lag)
  {
    forall ctx | ctx in t.cache
      ensures EntryOk(t, lag, ctx, t.cache[ctx])
    {
      assert EntryOk(s, lag, ctx, s.cache[ctx]);
    }
    forall id | id in t.lookups
      ensures LookupOk(t, lag, t.lookups[id])
    {
      assert LookupOk(s, lag, s.lookups[id]);
    }
  }

  /** A lookup's own step. */
  lemma StageKeeps(s: Router, t: Router, lag: nat, id: nat)
    requires Inv(s, lag) && id in t.lookups && LookupOk(s, lag, t.lookups[id])
    requires t == s.(lookups := s.lookups[id := t.lookups[id]])
    ensures Inv(t, lag)
  {
    forall i | i in t.lookups
      ensures LookupOk(t, lag, t.lookups[i])
    {
      if i != id {
        assert LookupOk(s, lag, s.lookups[i]);
      }
    }
    forall ctx | ctx in t.cache
      ensures EntryOk(t, lag, ctx, t.cache[ctx])
    {
      assert EntryOk(s, lag, ctx, s.cache[ctx]);
    }
  }

  lemma InsertKeeps(s: Router, lag: nat, id: nat)
    requires Inv(s, lag)
    ensures Inv(Next(s, Insert(id)), lag)
  {
    if id in s.lookups && s.lookups[id].stage.Computed? {
      var l := s.lookups[id];
      assert LookupOk(s, lag, l);
      var mid := WithStage(s, id, Returned(l.stage.made));
      StageKeeps(s, mid, lag, id);
      var t := Next(s, Insert(id));
      forall ctx | ctx in t.cache
        ensures EntryOk(t, lag, ctx, t.cache[ctx])
      {
        if ctx != l.ctx {
          assert EntryOk(mid, lag, ctx, mid.cache[ctx]);
        }
      }
      forall i | i in t.lookups
        ensures LookupOk(t, lag, t.lookups[i])
      {
        assert LookupOk(mid, lag, mid.lookups[i]);
      }
    }
  }

  lemma LookupKeeps(s: Router, lag: nat, step: Step)
    requires Inv(s, lag) && (lag == 1 || (lag == 0 && !Racy(s, step)))
    requires step.Begin? || step.LoadGeneration? || step.Probe? || step.LoadRules?
    ensures Inv(Next(s, step), lag)
  {
    var t := Next(s, step);
    var id := step.id;
    if t != s {
      if id in s.lookups {
        var l := s.lookups[id];
        assert LookupOk(s, lag, l);
        if l.ctx in s.cache {
          assert EntryOk(s, lag, l.ctx, s.cache[l.ctx]);
        }
      }
      StageKeeps(s, t, lag, id);
    }
  }

  lemma StepKeeps(s: Router, lag: nat, step: Step)
    requires Inv(s, lag) && (lag == 1 || (lag == 0 && !Racy(s, step)))
    ensures Inv(Next(s, step), lag)
  {
    match step {
      case Begin(_, _) => LookupKeeps(s, lag, step);
      case LoadGeneration(_) => LookupKeeps(s, lag, step);
      case Probe(_, _) => LookupKeeps(s, lag, step);
      case LoadRules(_) => LookupKeeps(s, lag, step);
      case Insert(id) => InsertKeeps(s, lag, id);
      case Evict(_) => StoredKeeps(s, Next(s, step), lag);
      case Bump => StoredKeeps(s, Next(s, step), lag);
      case Clear(_) => StoredKeeps(s, Next(s, step), lag);
      case Store(_) => StoredKeeps(s, Next(s, step), lag);
      case SwapNow(_) => StoredKeeps(s, Next(s, step), lag);
    }
  }

  ghost predicate RaceFree(first: RuleSet, steps: seq<Step>) {
    forall i :: 0 <= i < |steps| ==> !Racy(Run(first, steps[..i]), steps[i])
  }

  lemma {:induction false} RunKeeps(first: RuleSet, steps: seq<Step>, lag: nat)
    requires lag == 1 || (lag == 0 && RaceFree(first, steps))
    ensures Inv(Run(first, steps), lag)
    decreases |steps|
  {
    if steps != [] {
      var before := steps[..|steps| - 1];
      assert forall i :: 0 <= i < |before| ==> before[..i] == steps[..i];
      RunKeeps(first, before, lag);
      StepKeeps(Run(first, before), lag, steps[|steps| - 1]);
    }
  }

  // --------------------------------------------------------------- the theorems

  /** At most one reload behind, in every interleaving: a returned decision is
      exactly what some stored rule set decides, and that rule set is at most one
      reload older than the one live when the lookup began. */
  lemma AtMostOneReloadBehind(first: RuleSet, steps: seq<Step>, id: nat)
    requires id in Run(first, steps).lookups && Run(first, steps).lookups[id].stage.Returned?
    ensures var s := Run(first, steps);
            var l := s.lookups[id];
            && l.begun <= l.stage.made.version + 1
            && l.stage.made.version < |s.stored|
            && l.stage.made.decision == Decide(s.stored[l.stage.made.version], l.ctx)
  {
    RunKeeps(first, steps, 1);
    assert LookupOk(Run(first, steps), 1, Run(first, steps).lookups[id]);
  }

  /** Without the race no lookup is answered from rules older than those live
      when it began. */
  lemma FreshWithoutRace(first: RuleSet, steps: seq<Step>, id: nat)
    requires RaceFree(first, steps)
    requires id in Run(first, steps).lookups && Run(first, steps).lookups[id].stage.Returned?
    ensures var s := Run(first, steps);
            var l := s.lookups[id];
            && l.begun <= l.stage.made.version < |s.stored|
            && l.stage.made.decision == Decide(s.stored[l.stage.made.version], l.ctx)
  {
    RunKeeps(first, steps, 0);
    assert LookupOk(Run(first, steps), 0, Run(first, steps).lookups[id]);
  }

  ghost predicate AtomicSwaps(steps: seq<Step>) {
    forall i :: 0 <= i < |steps| ==> !steps[i].Bump?
  }

  lemma {:induction false} NeverSwapping(first: RuleSet, steps: seq<Step>)
    requires AtomicSwaps(steps)
    ensures !Run(first, steps).swapping
    decreases |steps|
  {
    if steps != [] {
      NeverSwapping(first, steps[..|steps| - 1]);
    }
  }

  /** With a reload in one step every lookup is answered from rules that were live
      at some moment between its beginning and its end. */
  lemma AtomicSwapIsFresh(first: RuleSet, steps: seq<Step>, id: nat)
    requires AtomicSwaps(steps)
    requires id in Run(first, steps).lookups && Run(first, steps).lookups[id].stage.Returned?
    ensures var l := Run(first, steps).lookups[id];
            l.begun <= l.stage.made.version <= Run(first, steps).Version()
    ensures var l := Run(first, steps).lookups[id];
            l.stage.made.decision == Decide(Run(first, steps).stored[l.stage.made.version], l.ctx)
  {
    forall i | 0 <= i < |steps|
      ensures !Racy(Run(first, steps[..i]), steps[i])
    {
      NeverSwapping(first, steps[..i]);
    }
    FreshWithoutRace(first, steps, id);
  }

  /** A decision is computed behind its own generation stamp exactly when the
      rules are loaded inside the reload that made that generation. */
  lemma StaleStampIff(s: Router, id: nat)
    requires Inv(s, 1) && id in s.lookups && s.lookups[id].stage.Missed?
    ensures var l := Next(s, LoadRules(id)).lookups[id];
            l.stage.made.version < l.stage.generation <==> Racy(s, LoadRules(id))
  {
    assert LookupOk(s, 1, s.lookups[id]);
  }

  /** When exactly a lookup is answered from rules older than those live when it
      began, whatever step answers it: it probes an entry that is behind its own
      stamp, and it began in the generation of that stamp.  A decision that a
      lookup computes itself is never old. */
  lemma StaleAnswerIff(s: Router, step: Step, id: nat)
    requires Inv(s, 1) && id in s.lookups && !s.lookups[id].stage.Returned?
    requires Next(s, step).lookups[id].stage.Returned?
    ensures var l := s.lookups[id];
            Next(s, step).lookups[id].stage.made.version < l.begun <==>
            && step == Probe(id, true) && l.ctx in s.cache
            && s.cache[l.ctx].made.version < s.cache[l.ctx].generation == l.begun
  {
    var l := s.lookups[id];
    assert LookupOk(s, 1, l);
    if l.ctx in s.cache {
      assert EntryOk(s, 1, l.ctx, s.cache[l.ctx]);
    }
  }

  /** Some lookup has been answered from rules older than those live when it
      began. */
  ghost predicate Stale(s: Router) {
    exists id :: id in s.lookups && AnsweredStale(s.lookups[id])
  }

  ghost predicate AnsweredStale(l: Lookup) {
    l.stage.Returned? && l.stage.made.version < l.begun
  }

  /** The run up to `i`, continued differently. */
  function Continued(steps: seq<Step>, i: nat, more: seq<Step>): seq<Step>
    requires i <= |steps|
  {
    steps[..i] + more
  }

  /** None of the steps from `i` on is racy. */
  ghost predicate RaceFreeFrom(first: RuleSet, steps: seq<Step>, i: nat) {
    forall j :: i <= j < |steps| ==> !Racy(Run(first, steps[..j]), steps[j])
  }

  /** At no point of the run can a continuation without a further race answer a
      lookup from old rules. */
  ghost predicate NeverServesStale(first: RuleSet, steps: seq<Step>) {
    forall i, more :: 0 <= i <= |steps| && RaceFreeFrom(first, Continued(steps, i, more), i) ==>
      !Stale(Run(first, Continued(steps, i, more)))
  }

  lemma NotStale(first: RuleSet, steps: seq<Step>)
    requires RaceFree(first, steps)
    ensures !Stale(Run(first, steps))
  {
    forall id | id in Run(first, steps).lookups
      ensures !AnsweredStale(Run(first, steps).lookups[id])
    {
      if Run(first, steps).lookups[id].stage.Returned? {
        FreshWithoutRace(first, steps, id);
      }
    }
  }

  /** Going on from a state. */
  ghost function Onward(s: Router, steps: seq<Step>): (t: Router)
    requires s.Live()
    ensures t.Live()
    decreases |steps|
  {
    if steps == [] then
      s
    else
      var before := Onward(s, steps[..|steps| - 1]);
      NextLive(before, steps[|steps| - 1]);
      Next(before, steps[|steps| - 1])
  }

  lemma {:induction false} RunOnward(first: RuleSet, a: seq<Step>, b: seq<Step>)
    ensures Run(first, a + b) == Onward(Run(first, a), b)
    decreases |b|
  {
    if b == [] {
      assert a + b == a;
    } else {
      var before := b[..|b| - 1];
      assert (a + b)[..|a + b| - 1] == a + before;
      RunOnward(first, a, before);
    }
  }

  lemma OnwardThree(s: Router, a: Step, b: Step, c: Step, s1: Router, s2: Router, s3: Router)
    requires s.Live() && s1.Live() && s2.Live() && s1 == Next(s, a) && s2 == Next(s1, b) && s3 == Next(s2, c)
    ensures Onward(s, [a, b, c]) == s3
  {
    assert [a, b, c][..2] == [a, b] && [a, b][..1] == [a] && [a][..0] == [];
    assert Onward(s, []) == s;
    assert Onward(s, [a]) == s1;
    assert Onward(s, [a, b]) == s2;
  }

  /** A lookup that begins and finds this entry. */
  lemma EntryIsServed(s: Router, id: nat, ctx: Context)
    requires s.Live() && id !in s.lookups && ctx in s.cache && s.cache[ctx].generation == s.generation
    ensures var t := Onward(s, [Begin(id, ctx), LoadGeneration(id), Probe(id, true)]);
            && t.stored == s.stored
            && id in t.lookups && t.lookups[id] == Lookup(ctx, s.Version(), Returned(s.cache[ctx].made))
  {
    var s1 := Next(s, Begin(id, ctx));
    var s2 := Next(s1, LoadGeneration(id));
    var s3 := Next(s2, Probe(id, true));
    OnwardThree(s, Begin(id, ctx), LoadGeneration(id), Probe(id, true), s1, s2, s3);
  }

  /** A racy load, continued: its decision is cached under the generation of the
      reload, and the new rules are stored. */
  lemma RaceIsCached(s: Router, id: nat, rs: RuleSet)
    requires s.Live() && s.generation == s.Version() + 1 && Racy(s, LoadRules(id))
    ensures var t := Onward(s, [LoadRules(id), Insert(id), Store(rs)]);
            var ctx := s.lookups[id].ctx;
            && t.stored == s.stored + [rs] && t.generation == t.Version() && t.lookups.Keys == s.lookups.Keys
            && ctx in t.cache
            && t.cache[ctx] == Entry(Made(Decide(s.stored[s.Version()], ctx), s.Version()), t.generation)
  {
    var s1 := Next(s, LoadRules(id));
    var s2 := Next(s1, Insert(id));
    var s3 := Next(s2, Store(rs));
    OnwardThree(s, LoadRules(id), Insert(id), Store(rs), s1, s2, s3);
    assert s1.lookups.Keys == s.lookups.Keys && s2.lookups.Keys == s1.lookups.Keys;
  }

  lemma RunContinued(first: RuleSet, steps: seq<Step>, step: Step)
    ensures Run(first, steps + [step]) == Next(Run(first, steps), step)
  {
    assert (steps + [step])[..|steps|] == steps;
  }

  /** A lookup that begins after that is answered from the rules before. */
  lemma RaceIsServed(s: Router, id: nat, rs: RuleSet, late: nat)
    requires s.Live() && s.generation == s.Version() + 1 && Racy(s, LoadRules(id)) && late !in s.lookups
    ensures var ctx := s.lookups[id].ctx;
            var t := Onward(Onward(s, [LoadRules(id), Insert(id), Store(rs)]),
                            [Begin(late, ctx), LoadGeneration(late), Probe(late, true)]);
            && t.stored == s.stored + [rs] && late in t.lookups
            && t.lookups[late]
               == Lookup(ctx, t.Version(), Returned(Made(Decide(s.stored[s.Version()], ctx), s.Version())))
  {
    RaceIsCached(s, id, rs);
    EntryIsServed(Onward(s, [LoadRules(id), Insert(id), Store(rs)]), late, s.lookups[id].ctx);
  }

  lemma RunOnwardTwice(first: RuleSet, a: seq<Step>, b: seq<Step>, c: seq<Step>)
    ensures Run(first, (a + b) + c) == Onward(Onward(Run(first, a), b), c)
  {
    RunOnward(first, a, b);
    RunOnward(first, a + b, c);
  }

  /** The steps that serve a racy decision: after any rules are stored, a lookup
      that begins then is answered from the rules before them. */
  lemma ServeRace(first: RuleSet, steps: seq<Step>, i: nat, rs: RuleSet) returns (more: seq<Step>, late: nat)
    requires i < |steps| && Racy(Run(first, steps[..i]), steps[i])
    ensures forall k :: 0 <= k < |more| ==> !more[k].LoadRules?
    ensures var s := Run(first, steps[..i]);
            var t := Run(first, Continued(steps, i + 1, more));
            var ctx := s.lookups[steps[i].id].ctx;
            && t.stored == s.stored + [rs] && late in t.lookups
            && t.lookups[late]
               == Lookup(ctx, t.Version(), Returned(Made(Decide(s.stored[s.Version()], ctx), s.Version())))
  {
    var s := Run(first, steps[..i]);
    RunKeeps(first, steps[..i], 1);
    var id := steps[i].id;
    var ctx := s.lookups[id].ctx;
    late := Unused(s.lookups.Keys);
    var store := [LoadRules(id), Insert(id), Store(rs)];
    var serve := [Begin(late, ctx), LoadGeneration(late), Probe(late, true)];
    more := [Insert(id), Store(rs)] + serve;
    RaceIsServed(s, id, rs, late);
    RunOnwardTwice(first, steps[..i], store, serve);
    assert (steps[..i] + store) + serve == Continued(steps, i + 1, more);
  }

  /** What a lookup that nobody interrupts is told when the entry of its context, if
      there is one, is of an older generation. */
  lemma MissDecides(s: Router, id: nat, ctx: Context, unexpired: bool)
    requires s.Live() && id !in s.lookups && (ctx in s.cache ==> s.cache[ctx].generation != s.generation)
    ensures var t := Onward(Onward(s, [Begin(id, ctx), LoadGeneration(id), Probe(id, unexpired)]),
                            [LoadRules(id), Insert(id)]);
            && id in t.lookups
            && t.lookups[id]
               == Lookup(ctx, s.Version(), Returned(Made(Decide(s.stored[s.Version()], ctx), s.Version())))
  {
    var s1 := Next(s, Begin(id, ctx));
    var s2 := Next(s1, LoadGeneration(id));
    var s3 := Next(s2, Probe(id, unexpired));
    OnwardThree(s, Begin(id, ctx), LoadGeneration(id), Probe(id, unexpired), s1, s2, s3);
    OnwardTwo(s3, LoadRules(id), Insert(id));
  }

  lemma OnwardTwo(s: Router, a: Step, b: Step)
    requires s.Live()
    ensures Next(s, a).Live() && Onward(s, [a, b]) == Next(Next(s, a), b)
  {
    NextLive(s, a);
    assert [a, b][..1] == [a] && [a][..0] == [];
    assert Onward(s, []) == s;
    assert Onward(s, [a]) == Next(s, a);
  }

  /** The steps of a reload that nobody interrupts, or a reload in one step. */
  ghost predicate Reload(steps: seq<Step>, rs: RuleSet) {
    steps == [SwapNow(rs)] || exists kept :: steps == [Bump, Clear(kept), Store(rs)]
  }

  /** After it the rules are live under a generation that no entry has. */
  lemma ReloadTakes(s: Router, steps: seq<Step>, rs: RuleSet)
    requires Inv(s, 1) && !s.swapping && Reload(steps, rs)
    ensures var t := Onward(s, steps);
            && t.stored == s.stored + [rs] && t.lookups == s.lookups && t.generation == s.generation + 1
            && forall ctx :: ctx in t.cache ==> t.cache[ctx].generation != t.generation
  {
    forall ctx | ctx in s.cache
      ensures s.cache[ctx].generation <= s.generation
    {
      assert EntryOk(s, 1, ctx, s.cache[ctx]);
    }
    if steps == [SwapNow(rs)] {
      NextLive(s, SwapNow(rs));
      assert [SwapNow(rs)][..0] == [] && Onward(s, []) == s;
      assert Onward(s, [SwapNow(rs)]) == Next(s, SwapNow(rs));
    } else {
      var kept :| steps == [Bump, Clear(kept), Store(rs)];
      var s1 := Next(s, Bump);
      var s2 := Next(s1, Clear(kept));
      OnwardThree(s, Bump, Clear(kept), Store(rs), s1, s2, Next(s2, Store(rs)));
    }
  }

  /** It leaves only those entries that the clearing missed, and none if it is one step. */
  lemma ReloadClears(s: Router, rs: RuleSet, kept: set<Context>)
    requires s.Live() && !s.swapping
    ensures Next(s, SwapNow(rs)).cache == map[]
    ensures var t := Onward(s, [Bump, Clear(kept), Store(rs)]);
            && t.cache.Keys == s.cache.Keys * kept
            && forall ctx :: ctx in t.cache ==> t.cache[ctx] == s.cache[ctx]
  {
    var s1 := Next(s, Bump);
    var s2 := Next(s1, Clear(kept));
    OnwardThree(s, Bump, Clear(kept), Store(rs), s1, s2, Next(s2, Store(rs)));
  }

  /** A reload takes effect: at any point of any run between reloads, after a reload
      that nobody interrupts, a lookup that nobody interrupts is decided by the new
      rules, whatever had been cached or was under way. */
  lemma ReloadIsSeen(
    first: RuleSet, steps: seq<Step>, reload: seq<Step>, rs: RuleSet, id: nat, ctx: Context, unexpired: bool)
    requires !Run(first, steps).swapping && Reload(reload, rs) && id !in Run(first, steps).lookups
    ensures var lookup := [Begin(id, ctx), LoadGeneration(id), Probe(id, unexpired)];
            var t := Run(first, ((steps + reload) + lookup) + [LoadRules(id), Insert(id)]);
            && id in t.lookups && t.lookups[id].stage.Returned?
            && t.lookups[id].stage.made.decision == Decide(rs, ctx)
  {
    var s := Run(first, steps);
    var lookup := [Begin(id, ctx), LoadGeneration(id), Probe(id, unexpired)];
    RunKeeps(first, steps, 1);
    ReloadTakes(s, reload, rs);
    RunOnward(first, steps, reload);
    MissDecides(Onward(s, reload), id, ctx, unexpired);
    RunOnwardTwice(first, steps + reload, lookup, [LoadRules(id), Insert(id)]);
  }

  lemma QuietContinuation(first: RuleSet, steps: seq<Step>, i: nat, more: seq<Step>)
    requires i <= |steps| && forall k :: 0 <= k < |more| ==> !more[k].LoadRules?
    ensures RaceFreeFrom(first, Continued(steps, i, more), i)
  {
    var all := Continued(steps, i, more);
    assert forall j :: i <= j < |all| ==> all[j] == more[j - i];
  }

  /** Reloading and freshness, exactly: the lookups of a run, however it goes on
      without another race, are answered from rules no older than those live when
      they began, if and only if no lookup of the run loads its rules inside the
      reload whose generation it carries. */
  lemma FreshIff(first: RuleSet, steps: seq<Step>)
    ensures RaceFree(first, steps) <==> NeverServesStale(first, steps)
  {
    if RaceFree(first, steps) {
      forall i, more | 0 <= i <= |steps| && RaceFreeFrom(first, Continued(steps, i, more), i)
        ensures !Stale(Run(first, Continued(steps, i, more)))
      {
        FreeThenFree(first, steps, i, more);
        NotStale(first, Continued(steps, i, more));
      }
    } else {
      var i :| 0 <= i < |steps| && Racy(Run(first, steps[..i]), steps[i]);
      var more, late := ServeRace(first, steps, i, first);
      QuietContinuation(first, steps, i + 1, more);
      assert AnsweredStale(Run(first, Continued(steps, i + 1, more)).lookups[late]);
    }
  }

  lemma FreeThenFree(first: RuleSet, steps: seq<Step>, i: nat, more: seq<Step>)
    requires i <= |steps| && RaceFree(first, steps) && RaceFreeFrom(first, Continued(steps, i, more), i)
    ensures RaceFree(first, Continued(steps, i, more))
  {
    var all := Continued(steps, i, more);
    forall j | 0 <= j < |all|
      ensures !Racy(Run(first, all[..j]), all[j])
    {
      if j < i {
        assert all[..j] == steps[..j] && all[j] == steps[j];
      }
    }
  }

  /** Such runs exist for any two rule sets that disagree: the promise that new
      connections see the new rules at once is not kept. */
  lemma StaleAfterReload(ctx: Context, old0: RuleSet, new0: RuleSet)
    requires Decide(old0, ctx) != Decide(new0, ctx)
    ensures exists steps, id :: ServedFromOld(Run(old0, steps), id, ctx, old0, new0)
  {
    var steps := MissedInReload(ctx, old0);
    var racy := steps + [LoadRules(0)];
    assert racy[..|steps|] == steps;
    var more, late := ServeRace(old0, racy, |steps|, new0);
    assert ServedFromOld(Run(old0, Continued(racy, |steps| + 1, more)), late, ctx, old0, new0);
  }

  /** Rules have been reloaded, and a lookup that began afterwards was answered from
      the old ones. */
  ghost predicate ServedFromOld(s: Router, id: nat, ctx: Context, old0: RuleSet, new0: RuleSet) {
    && s.stored == [old0, new0]
    && id in s.lookups && s.lookups[id].ctx == ctx && s.lookups[id].begun == 1
    && s.lookups[id].stage.Returned? && s.lookups[id].stage.made.decision == Decide(old0, ctx) != Decide(new0, ctx)
  }

  lemma MissedInReload(ctx: Context, rs: RuleSet) returns (steps: seq<Step>)
    ensures Run(rs, steps) == Router([rs], 1, true, map[], map[0 := Lookup(ctx, 0, Missed(1))])
  {
    steps := InsideReload(ctx, rs);
    steps := OneMore(rs, steps, Probe(0, true));
  }

  /** The generation is bumped and the cache cleared, and a lookup has seen it. */
  lemma InsideReload(ctx: Context, rs: RuleSet) returns (steps: seq<Step>)
    ensures Run(rs, steps) == Router([rs], 1, true, map[], map[0 := Lookup(ctx, 0, Loaded(1))])
  {
    steps := OneMore(rs, [], Begin(0, ctx));
    steps := OneMore(rs, steps, Bump);
    steps := OneMore(rs, steps, Clear({}));
    assert Run(rs, steps) == Router([rs], 1, true, map[], map[0 := Lookup(ctx, 0, Begun)]);
    steps := OneMore(rs, steps, LoadGeneration(0));
  }

  lemma OneMore(first: RuleSet, steps: seq<Step>, step: Step) returns (more: seq<Step>)
    ensures Run(first, more) == Next(Run(first, steps), step)
  {
    more := steps + [step];
    RunContinued(first, steps, step);
  }

  // --------------------------------------------------------------- one at a time

  datatype CacheLine = CacheLine(decision: Decision, expiresAt: nat, generation: nat)

  /** The router used by one caller at a time. */
  class LiveRouter {
    var inner: RuleSet
    var cache: map<Context, CacheLine>
    var generation: nat

    /** Every line of the current generation is what the current rules decide,
        and no line is from the future. */
    ghost predicate Valid()
      reads this
    {
      forall ctx :: ctx in cache ==>
        && cache[ctx].generation <= generation
        && (cache[ctx].generation == generation ==> cache[ctx].decision == Decide(inner, ctx))
    }

    constructor (rs: RuleSet)
      ensures Valid() && inner == rs
    {
      inner, cache, generation := rs, map[], 0;
    }

    method Swap(rs: RuleSet)
      requires Valid()
      modifies this
      ensures Valid() && inner == rs && cache == map[] && generation == old(generation) + 1
    {
      generation := generation + 1;
      cache := map[];
      inner := rs;
    }

    /** Cached and uncached decisions agree, whatever has been looked up, reloaded
        or has expired before. */
    method PickRouteMatch(ctx: Context, now: nat, ttl: nat) returns (d: Decision)
      requires Valid()
      modifies this`cache
      ensures Valid()
      ensures d == Decide(inner, ctx)
      ensures forall other :: other != ctx ==>
                (other in cache <==> other in old(cache)) && (other in cache ==> cache[other] == old(cache)[other])
    {
      if ctx in cache {
        var line := cache[ctx];
        if line.generation == generation && line.expiresAt > now {
          return line.decision;
        }
      }
      d := PickUncached(inner, ctx);
      cache := cache[ctx := CacheLine(d, now + ttl, generation)];
    }
  }
}
