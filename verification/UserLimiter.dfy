/**
 Per-user admission under concurrency.

 Each attempt and each drop takes several atomic steps on shared counters.  A
 token stands for a thread somewhere in `try_acquire` or `drop`, or for a permit
 it holds.  Counters are numbered in the order they were created, so that two
 counters of one user are told apart as the source tells them by identity.
 */
module UserLimiter {
  /** The cap that switches limiting off. */
  const UNLIMITED := 0xFFFF_FFFF_FFFF_FFFF

  datatype Token =
    | Capped(user: string, cap: nat)                 // has read the cap
    | Holding(user: string, cap: nat, counter: nat)  // has cloned the counter
    | Rolling(user: string, counter: nat)            // counted, over the cap, must undo
    | Permit(user: string, counter: nat)
    | Removing(user: string, counter: nat)           // counted down to zero, must clean up

  datatype Limiter = Limiter(
    cap: nat, ceiling: nat, active: seq<int>, table: map<string, nat>, tokens: map<nat, Token>)

  function NewLimiter(cap: nat): Limiter {
    var c := if cap >= 1 then cap else 1;
    Limiter(c, if c == UNLIMITED then 0 else c, [], map[], map[])
  }

  datatype Step =
    | ReadCap(id: nat, user: string)
    | GetCounter(id: nat)
    | Add(id: nat)
    | Rollback(id: nat)
    | Drop(id: nat)
    | RemoveIf(id: nat)
    | SetCap(cap: nat)
    | AcquireNow(id: nat, user: string)

  /** The entry of a user, made on first use. */
  function WithEntry(s: Limiter, user: string): (t: Limiter)
    ensures user in t.table
  {
    if user in s.table then s
    else s.(active := s.active + [0], table := s.table[user := |s.active|])
  }

  function Counted(s: Limiter, counter: nat, change: int): Limiter
    requires counter < |s.active|
  {
    s.(active := s.active[counter := s.active[counter] + change])
  }

  function WithToken(s: Limiter, id: nat, t: Token): Limiter {
    s.(tokens := s.tokens[id := t])
  }

  function Without(s: Limiter, id: nat): Limiter {
    s.(tokens := s.tokens - {id})
  }

  /** fetch_add, and what the thread makes of the result. */
  function AddTo(s: Limiter, id: nat, user: string, cap: nat, counter: nat): Limiter
    requires counter < |s.active|
  {
    WithToken(Counted(s, counter, 1), id,
              if s.active[counter] + 1 > cap then Rolling(user, counter) else Permit(user, counter))
  }

  /** A step that does not apply changes nothing. */
  function Next(s: Limiter, step: Step): Limiter {
    match step
    case ReadCap(id, user) =>
      if id !in s.tokens && s.cap != UNLIMITED then WithToken(s, id, Capped(user, s.cap)) else s
    case GetCounter(id) =>
      if id in s.tokens && s.tokens[id].Capped? then
        var t := s.tokens[id];
        var e := WithEntry(s, t.user);
        WithToken(e, id, Holding(t.user, t.cap, e.table[t.user]))
      else
        s
    case Add(id) =>
      if id in s.tokens && s.tokens[id].Holding? && s.tokens[id].counter < |s.active| then
        var t := s.tokens[id];
        AddTo(s, id, t.user, t.cap, t.counter)
      else
        s
    case Rollback(id) =>
      if id in s.tokens && s.tokens[id].Rolling? && s.tokens[id].counter < |s.active| then
        Without(Counted(s, s.tokens[id].counter, -1), id)
      else
        s
    case Drop(id) =>
      if id in s.tokens && s.tokens[id].Permit? && s.tokens[id].counter < |s.active| then
        var t := s.tokens[id];
        var d := Counted(s, t.counter, -1);
        if s.active[t.counter] <= 1 then WithToken(d, id, Removing(t.user, t.counter)) else Without(d, id)
      else
        s
    case RemoveIf(id) =>
      if id in s.tokens && s.tokens[id].Removing? then
        var t := s.tokens[id];
        var d := Without(s, id);
        if t.user in s.table && s.table[t.user] == t.counter && t.counter < |s.active| && s.active[t.counter] == 0
        then d.(table := s.table - {t.user}) else d
      else
        s
    case SetCap(cap) =>
      var c := if cap >= 1 then cap else 1;
      s.(cap := c, ceiling := if c != UNLIMITED && c > s.ceiling then c else s.ceiling)
    case AcquireNow(id, user) =>
      if id !in s.tokens && s.cap != UNLIMITED then
        var e := WithEntry(s, user);
        var counter := e.table[user];
        if counter < |e.active| && e.active[counter] + 1 > s.cap then e
        else if counter < |e.active| then AddTo(e, id, user, s.cap, counter)
        else s
      else
        s
  }

  function Run(cap: nat, steps: seq<Step>): Limiter {
    if steps == [] then NewLimiter(cap) else Next(Run(cap, steps[..|steps| - 1]), steps[|steps| - 1])
  }

  // ------------------------------------------------------------------- counting

  /** The threads whose increment of a counter has not been undone. */
  function On(tokens: map<nat, Token>, counter: nat): set<nat> {
    set id | id in tokens && (tokens[id].Rolling? || tokens[id].Permit?) && tokens[id].counter == counter
  }

  /** The live permits on a counter. */
  function Permits(tokens: map<nat, Token>, counter: nat): set<nat> {
    set id | id in tokens && tokens[id].Permit? && tokens[id].counter == counter
  }

  /** The live permits of a user. */
  function PermitsOf(tokens: map<nat, Token>, user: string): set<nat> {
    set id | id in tokens && tokens[id].Permit? && tokens[id].user == user
  }

  lemma PermitsAreOn(tokens: map<nat, Token>, counter: nat)
    ensures |Permits(tokens, counter)| <= |On(tokens, counter)|
  {
    SubsetSize(Permits(tokens, counter), On(tokens, counter));
  }

  lemma {:induction false} SubsetSize(a: set<nat>, b: set<nat>)
    requires a <= b
    ensures |a| <= |b|
    decreases |a|
  {
    if a != {} {
      var x :| x in a;
      SubsetSize(a - {x}, b - {x});
    }
  }

  /** Replacing one token. */
  lemma Replace(tokens: map<nat, Token>, id: nat, t: Token, counter: nat)
    ensures var others := On(tokens, counter) - {id};
            && On(tokens - {id}, counter) == others
            && On(tokens[id := t], counter)
               == (if (t.Rolling? || t.Permit?) && t.counter == counter then others + {id} else others)
    ensures var others := Permits(tokens, counter) - {id};
            && Permits(tokens - {id}, counter) == others
            && Permits(tokens[id := t], counter)
               == (if t.Permit? && t.counter == counter then others + {id} else others)
  {
  }

  // --------------------------------------------------------------- the invariant

  ghost predicate TokenOk(s: Limiter, t: Token) {
    match t
    case Capped(_, cap) => 1 <= cap <= s.ceiling
    case Holding(_, cap, counter) => 1 <= cap <= s.ceiling && counter < |s.active|
    case Rolling(_, counter) => counter < |s.active|
    case Permit(_, counter) => counter < |s.active|
    case Removing(_, counter) => counter < |s.active|
  }

  /** A counter is the number of permits on it plus the attempts that must still
      undo their increment, and never holds more permits than the largest finite
      cap there has been. */
  ghost predicate CountOk(s: Limiter, c: nat) {
    c < |s.active| && s.active[c] == |On(s.tokens, c)| && |Permits(s.tokens, c)| <= s.ceiling
  }

  ghost predicate TableOk(s: Limiter) {
    && (forall u :: u in s.table ==> s.table[u] < |s.active|)
    && (forall u, v :: u in s.table && v in s.table && s.table[u] == s.table[v] ==> u == v)
  }

  ghost predicate Inv(s: Limiter) {
    && 1 <= s.cap && (s.cap != UNLIMITED ==> s.cap <= s.ceiling) && s.ceiling != UNLIMITED
    && TableOk(s)
    && (forall id :: id in s.tokens ==> TokenOk(s, s.tokens[id]))
    && (forall c :: 0 <= c < |s.active| ==> CountOk(s, c))
  }

  lemma EntryKeeps(s: Limiter, user: string)
    requires Inv(s)
    ensures Inv(WithEntry(s, user)) && WithEntry(s, user).table[user] < |WithEntry(s, user).active|
    ensures WithEntry(s, user).tokens == s.tokens && WithEntry(s, user).ceiling == s.ceiling
    ensures WithEntry(s, user).cap == s.cap
  {
    if user !in s.table {
      var n := |s.active|;
      var t := WithEntry(s, user);
      assert On(s.tokens, n) == {} by {
        forall id | id in s.tokens
          ensures id !in On(s.tokens, n)
        {
          assert TokenOk(s, s.tokens[id]);
        }
      }
      assert Permits(s.tokens, n) == {};
      forall c | 0 <= c < |t.active|
        ensures CountOk(t, c)
      {
        assert c < n ==> CountOk(s, c);
      }
      forall id | id in t.tokens
        ensures TokenOk(t, t.tokens[id])
      {
        assert TokenOk(s, s.tokens[id]);
      }
    }
  }

  /** A token that neither was nor becomes part of a count. */
  lemma UncountedKeeps(s: Limiter, id: nat, t: Token)
    requires Inv(s) && TokenOk(s, t) && (t.Capped? || t.Holding? || t.Removing?)
    requires id in s.tokens ==> s.tokens[id].Capped? || s.tokens[id].Holding? || s.tokens[id].Removing?
    ensures Inv(WithToken(s, id, t)) && Inv(Without(s, id))
  {
    var a, b := WithToken(s, id, t), Without(s, id);
    forall c | 0 <= c < |s.active|
      ensures CountOk(a, c) && CountOk(b, c)
    {
      UncountedCounts(s, id, t, c);
    }
    TokensStay(s, a, id);
    TokensStay(s, b, id);
  }

  lemma UncountedCounts(s: Limiter, id: nat, t: Token, c: nat)
    requires CountOk(s, c) && (t.Capped? || t.Holding? || t.Removing?)
    requires id in s.tokens ==> s.tokens[id].Capped? || s.tokens[id].Holding? || s.tokens[id].Removing?
    ensures CountOk(WithToken(s, id, t), c) && CountOk(Without(s, id), c)
  {
    Replace(s.tokens, id, t, c);
    assert On(s.tokens, c) - {id} == On(s.tokens, c) && Permits(s.tokens, c) - {id} == Permits(s.tokens, c);
  }

  /** The other tokens stay as good as they were. */
  lemma TokensStay(s: Limiter, t: Limiter, id: nat)
    requires forall i :: i in s.tokens ==> TokenOk(s, s.tokens[i])
    requires forall i :: i in t.tokens && i != id ==> i in s.tokens && t.tokens[i] == s.tokens[i]
    requires |s.active| <= |t.active| && s.ceiling <= t.ceiling
    requires id in t.tokens ==> TokenOk(t, t.tokens[id])
    ensures forall i :: i in t.tokens ==> TokenOk(t, t.tokens[i])
  {
    forall i | i in t.tokens
      ensures TokenOk(t, t.tokens[i])
    {
      assert i != id ==> TokenOk(s, s.tokens[i]);
    }
  }

  lemma AddOn(s: Limiter, id: nat, user: string, cap: nat, counter: nat, c: nat)
    requires CountOk(s, c) && counter < |s.active| && (id in s.tokens ==> s.tokens[id].Holding?)
    ensures var t := AddTo(s, id, user, cap, counter); t.active[c] == |On(t.tokens, c)|
  {
    var t := AddTo(s, id, user, cap, counter);
    var before := On(s.tokens, c);
    assert id !in before;
    if c == counter {
      assert On(t.tokens, c) == before + {id};
    } else {
      assert On(t.tokens, c) == before;
    }
  }

  lemma AddCounts(s: Limiter, id: nat, user: string, cap: nat, counter: nat, c: nat)
    requires CountOk(s, c) && counter < |s.active| && cap <= s.ceiling
    requires id in s.tokens ==> s.tokens[id].Holding?
    ensures CountOk(AddTo(s, id, user, cap, counter), c)
  {
    var t := AddTo(s, id, user, cap, counter);
    AddOn(s, id, user, cap, counter, c);
    if t.tokens[id].Permit? && c == counter {
      PermitsAreOn(t.tokens, c);
    } else {
      assert Permits(t.tokens, c) == Permits(s.tokens, c);
    }
  }

  /** fetch_add. */
  lemma AddKeeps(s: Limiter, id: nat, user: string, cap: nat, counter: nat)
    requires Inv(s) && counter < |s.active| && cap <= s.ceiling
    requires id in s.tokens ==> s.tokens[id].Holding?
    ensures Inv(AddTo(s, id, user, cap, counter))
  {
    var t := AddTo(s, id, user, cap, counter);
    forall c | 0 <= c < |t.active|
      ensures CountOk(t, c)
    {
      AddCounts(s, id, user, cap, counter, c);
    }
    TokensStay(s, t, id);
  }

  lemma SubCounts(s: Limiter, id: nat, counter: nat, user: string, c: nat)
    requires CountOk(s, c) && id in s.tokens && counter < |s.active|
    requires (s.tokens[id].Rolling? || s.tokens[id].Permit?) && s.tokens[id].counter == counter
    ensures CountOk(Without(Counted(s, counter, -1), id), c)
    ensures CountOk(WithToken(Counted(s, counter, -1), id, Removing(user, counter)), c)
    ensures s.active[c] > 0 || c != counter
  {
    Replace(s.tokens, id, Removing(user, counter), c);
    assert c == counter ==> id in On(s.tokens, c);
    assert c != counter ==> On(s.tokens, c) - {id} == On(s.tokens, c);
    SubsetSize(Permits(s.tokens, c) - {id}, Permits(s.tokens, c));
  }

  /** fetch_sub by a thread that had counted itself in. */
  lemma SubKeeps(s: Limiter, id: nat, counter: nat, user: string)
    requires Inv(s) && id in s.tokens && counter < |s.active|
    requires (s.tokens[id].Rolling? || s.tokens[id].Permit?) && s.tokens[id].counter == counter
    ensures s.active[counter] > 0
    ensures Inv(Without(Counted(s, counter, -1), id))
    ensures Inv(WithToken(Counted(s, counter, -1), id, Removing(user, counter)))
  {
    var a := Without(Counted(s, counter, -1), id);
    var b := WithToken(Counted(s, counter, -1), id, Removing(user, counter));
    forall c | 0 <= c < |s.active|
      ensures CountOk(a, c) && CountOk(b, c)
    {
      SubCounts(s, id, counter, user, c);
    }
    SubCounts(s, id, counter, user, counter);
    TokensStay(s, a, id);
    TokensStay(s, b, id);
  }

  lemma SetCapKeeps(s: Limiter, cap: nat)
    requires Inv(s)
    ensures Inv(Next(s, SetCap(cap)))
  {
    var t := Next(s, SetCap(cap));
    forall c | 0 <= c < |t.active|
      ensures CountOk(t, c)
    {
      assert CountOk(s, c);
    }
    forall i | i in t.tokens
      ensures TokenOk(t, t.tokens[i])
    {
      assert TokenOk(s, s.tokens[i]);
    }
  }

  lemma EntryGone(s: Limiter, user: string)
    requires Inv(s)
    ensures Inv(s.(table := s.table - {user}))
  {
    var t := s.(table := s.table - {user});
    forall c | 0 <= c < |t.active|
      ensures CountOk(t, c)
    {
      assert CountOk(s, c);
    }
    forall i | i in t.tokens
      ensures TokenOk(t, t.tokens[i])
    {
      assert TokenOk(s, s.tokens[i]);
    }
  }

  lemma GetCounterKeeps(s: Limiter, id: nat)
    requires Inv(s) && id in s.tokens && s.tokens[id].Capped?
    ensures Inv(Next(s, GetCounter(id)))
  {
    var t := s.tokens[id];
    assert TokenOk(s, t);
    EntryKeeps(s, t.user);
    var e := WithEntry(s, t.user);
    UncountedKeeps(e, id, Holding(t.user, t.cap, e.table[t.user]));
  }

  lemma AddStepKeeps(s: Limiter, id: nat)
    requires Inv(s) && id in s.tokens && s.tokens[id].Holding?
    ensures Inv(Next(s, Add(id)))
  {
    var t := s.tokens[id];
    assert TokenOk(s, t);
    AddKeeps(s, id, t.user, t.cap, t.counter);
  }

  lemma LeaveKeeps(s: Limiter, id: nat)
    requires Inv(s) && id in s.tokens && (s.tokens[id].Rolling? || s.tokens[id].Permit?)
    ensures Inv(Next(s, Rollback(id))) && Inv(Next(s, Step.Drop(id)))
  {
    assert TokenOk(s, s.tokens[id]);
    SubKeeps(s, id, s.tokens[id].counter, s.tokens[id].user);
  }

  lemma RemoveIfKeeps(s: Limiter, id: nat)
    requires Inv(s) && id in s.tokens && s.tokens[id].Removing?
    ensures Inv(Next(s, RemoveIf(id)))
  {
    assert TokenOk(s, s.tokens[id]);
    UncountedKeeps(s, id, s.tokens[id]);
    EntryGone(Without(s, id), s.tokens[id].user);
  }

  lemma AcquireNowKeeps(s: Limiter, id: nat, user: string)
    requires Inv(s) && id !in s.tokens && s.cap != UNLIMITED
    ensures Inv(Next(s, AcquireNow(id, user)))
  {
    EntryKeeps(s, user);
    var e := WithEntry(s, user);
    AddKeeps(e, id, user, s.cap, e.table[user]);
  }

  lemma StepKeeps(s: Limiter, step: Step)
    requires Inv(s)
    ensures Inv(Next(s, step))
  {
    if Next(s, step) != s {
      match step {
        case ReadCap(id, user) => UncountedKeeps(s, id, Capped(user, s.cap));
        case GetCounter(id) => GetCounterKeeps(s, id);
        case Add(id) => AddStepKeeps(s, id);
        case Rollback(id) => LeaveKeeps(s, id);
        case Drop(id) => LeaveKeeps(s, id);
        case RemoveIf(id) => RemoveIfKeeps(s, id);
        case SetCap(cap) => SetCapKeeps(s, cap);
        case AcquireNow(id, user) => AcquireNowKeeps(s, id, user);
      }
    }
  }

  lemma {:induction false} RunKeeps(cap: nat, steps: seq<Step>)
    ensures Inv(Run(cap, steps))
    decreases |steps|
  {
    if steps != [] {
      RunKeeps(cap, steps[..|steps| - 1]);
      StepKeeps(Run(cap, steps[..|steps| - 1]), steps[|steps| - 1]);
    }
  }

  /** Admission, over every interleaving and across cap changes: each counter is
      exactly the live permits on it plus the attempts still to be rolled back,
      so it never underflows, and no counter ever holds more permits than the
      largest finite cap there has been. */
  lemma CounterSafety(cap: nat, steps: seq<Step>, counter: nat)
    requires counter < |Run(cap, steps).active|
    ensures var s := Run(cap, steps);
            && s.active[counter] == |On(s.tokens, counter)| >= 0
            && |Permits(s.tokens, counter)| <= s.ceiling
  {
    RunKeeps(cap, steps);
    assert CountOk(Run(cap, steps), counter);
  }

  // -------------------------------------------------------------------- per user

  /** An attempt counts itself on a counter that the user's entry no longer
      names. */
  predicate Orphaned(s: Limiter, step: Step) {
    && step.Add? && step.id in s.tokens && s.tokens[step.id].Holding?
    && var t := s.tokens[step.id]; t.user !in s.table || s.table[t.user] != t.counter
  }

  /** Every thread counted in is on its user's current counter. */
  ghost predicate Mapped(s: Limiter) {
    forall id :: id in s.tokens && (s.tokens[id].Rolling? || s.tokens[id].Permit?) ==>
      s.tokens[id].user in s.table && s.table[s.tokens[id].user] == s.tokens[id].counter
  }

  lemma RemoveKeepsMapped(s: Limiter, id: nat)
    requires Inv(s) && Mapped(s)
    ensures Mapped(Next(s, RemoveIf(id)))
  {
    var t := Next(s, RemoveIf(id));
    forall i | i in t.tokens && (t.tokens[i].Rolling? || t.tokens[i].Permit?)
      ensures t.tokens[i].user in t.table && t.table[t.tokens[i].user] == t.tokens[i].counter
    {
      assert s.tokens[i] == t.tokens[i] && TokenOk(s, s.tokens[i]);
      assert CountOk(s, s.tokens[i].counter) && i in On(s.tokens, s.tokens[i].counter);
    }
  }

  lemma StepKeepsMapped(s: Limiter, step: Step)
    requires Inv(s) && Mapped(s) && !Orphaned(s, step)
    ensures Mapped(Next(s, step))
  {
    match step {
      case RemoveIf(id) => RemoveKeepsMapped(s, id);
      case AcquireNow(id, user) => AcquireKeepsMapped(s, id, user);
      case _ =>
    }
  }

  lemma AcquireKeepsMapped(s: Limiter, id: nat, user: string)
    requires Inv(s) && Mapped(s)
    ensures Mapped(Next(s, AcquireNow(id, user)))
  {
    var t := Next(s, AcquireNow(id, user));
    forall i | i in t.tokens && (t.tokens[i].Rolling? || t.tokens[i].Permit?)
      ensures t.tokens[i].user in t.table && t.table[t.tokens[i].user] == t.tokens[i].counter
    {
      assert i in s.tokens ==> t.tokens[i] == s.tokens[i];
    }
  }

  /** An orphaned attempt leaves a thread counted in where its user's entry does
      not see it. */
  lemma OrphanUnmaps(s: Limiter, step: Step)
    requires Inv(s) && Orphaned(s, step)
    ensures !Mapped(Next(s, step))
  {
    var t := s.tokens[step.id];
    assert TokenOk(s, t);
    var u := Next(s, step).tokens[step.id];
    assert (u.Rolling? || u.Permit?) && u.user == t.user && u.counter == t.counter;
  }

  ghost predicate OrphanFree(cap: nat, steps: seq<Step>) {
    forall i :: 0 <= i < |steps| ==> !Orphaned(Run(cap, steps[..i]), steps[i])
  }

  lemma {:induction false} RunKeepsMapped(cap: nat, steps: seq<Step>)
    requires OrphanFree(cap, steps)
    ensures Mapped(Run(cap, steps))
    decreases |steps|
  {
    if steps != [] {
      var before := steps[..|steps| - 1];
      assert forall i :: 0 <= i < |before| ==> before[..i] == steps[..i];
      RunKeepsMapped(cap, before);
      RunKeeps(cap, before);
      StepKeepsMapped(Run(cap, before), steps[|steps| - 1]);
    }
  }

  /** Accounting, exactly: throughout a run every live permit and every attempt
      still to be rolled back is on its user's current counter, if and only if no
      attempt of the run is orphaned. */
  lemma AccountedIff(cap: nat, steps: seq<Step>)
    ensures OrphanFree(cap, steps) <==> AlwaysMapped(cap, steps)
  {
    if OrphanFree(cap, steps) {
      forall i | 0 <= i <= |steps|
        ensures MappedAfter(cap, steps, i)
      {
        assert forall j :: 0 <= j < i ==> steps[..i][..j] == steps[..j];
        RunKeepsMapped(cap, steps[..i]);
      }
    }
    if AlwaysMapped(cap, steps) {
      forall i | 0 <= i < |steps|
        ensures !Orphaned(Run(cap, steps[..i]), steps[i])
      {
        assert MappedAfter(cap, steps, i + 1);
        OrphanShows(cap, steps, i);
      }
    }
  }

  ghost predicate MappedAfter(cap: nat, steps: seq<Step>, i: nat)
    requires i <= |steps|
  {
    Mapped(Run(cap, steps[..i]))
  }

  ghost predicate AlwaysMapped(cap: nat, steps: seq<Step>) {
    forall i :: 0 <= i <= |steps| ==> MappedAfter(cap, steps, i)
  }

  lemma OrphanShows(cap: nat, steps: seq<Step>, i: nat)
    requires i < |steps|
    ensures Orphaned(Run(cap, steps[..i]), steps[i]) ==> !MappedAfter(cap, steps, i + 1)
  {
    if Orphaned(Run(cap, steps[..i]), steps[i]) {
      assert steps[..i + 1][..i] == steps[..i];
      RunKeeps(cap, steps[..i]);
      OrphanUnmaps(Run(cap, steps[..i]), steps[i]);
    }
  }

  lemma CapOfUser(s: Limiter, user: string)
    requires Inv(s) && Mapped(s)
    ensures |PermitsOf(s.tokens, user)| <= s.ceiling
    ensures user !in s.table ==> PermitsOf(s.tokens, user) == {}
  {
    if user in s.table {
      var c := s.table[user];
      assert CountOk(s, c);
      SubsetSize(PermitsOf(s.tokens, user), Permits(s.tokens, c));
    } else {
      assert PermitsOf(s.tokens, user) == {};
    }
  }

  /** As long as no attempt is orphaned, the cap holds for every user. */
  lemma UserCap(cap: nat, steps: seq<Step>, user: string)
    requires OrphanFree(cap, steps)
    ensures |PermitsOf(Run(cap, steps).tokens, user)| <= Run(cap, steps).ceiling
  {
    RunKeepsMapped(cap, steps);
    RunKeeps(cap, steps);
    CapOfUser(Run(cap, steps), user);
  }

  // ------------------------------------------------------------ acquire in one step

  ghost predicate AtomicAcquire(steps: seq<Step>) {
    forall i :: 0 <= i < |steps| ==> !steps[i].ReadCap?
  }

  /** Only permits and clean-ups are under way, and every entry has one of them. */
  ghost predicate Settled(s: Limiter) {
    && (forall id :: id in s.tokens ==> s.tokens[id].Permit? || s.tokens[id].Removing?)
    && (forall u :: u in s.table ==> s.table[u] < |s.active| && (s.active[s.table[u]] > 0 || Cleaning(s, u)))
  }

  ghost predicate Cleaning(s: Limiter, user: string)
    requires user in s.table
  {
    exists id :: id in s.tokens && s.tokens[id] == Removing(user, s.table[user])
  }

  lemma DropSettles(s: Limiter, id: nat)
    requires Inv(s) && Mapped(s) && Settled(s)
    ensures Settled(Next(s, Drop(id)))
  {
    var t := Next(s, Drop(id));
    if t != s {
      var p := s.tokens[id];
      forall u | u in t.table
        ensures t.active[t.table[u]] > 0 || Cleaning(t, u)
      {
        if u == p.user {
          SubKeeps(s, id, p.counter, p.user);
          if s.active[p.counter] <= 1 {
            assert t.tokens[id] == Removing(u, t.table[u]);
          }
        } else if s.active[s.table[u]] <= 0 {
          var r :| r in s.tokens && s.tokens[r] == Removing(u, s.table[u]);
          assert t.tokens[r] == s.tokens[r];
        }
      }
    }
  }

  lemma EntryGoes(s: Limiter, id: nat, user: string)
    requires Inv(s) && user in s.table && s.active[s.table[user]] <= 0
    requires id in s.tokens && s.tokens[id] == Removing(user, s.table[user])
    ensures user !in Next(s, RemoveIf(id)).table
  {
    assert CountOk(s, s.table[user]);
  }

  lemma RemoveSettles(s: Limiter, id: nat)
    requires Inv(s) && Mapped(s) && Settled(s)
    ensures Settled(Next(s, RemoveIf(id)))
  {
    var t := Next(s, RemoveIf(id));
    if t != s {
      forall u | u in t.table
        ensures t.active[t.table[u]] > 0 || Cleaning(t, u)
      {
        if s.active[s.table[u]] <= 0 {
          var r :| r in s.tokens && s.tokens[r] == Removing(u, s.table[u]);
          EntryGoes(s, r, u);
          assert t.tokens[r] == s.tokens[r];
        }
      }
    }
  }

  lemma AcquireSettles(s: Limiter, id: nat, user: string)
    requires Inv(s) && Mapped(s) && Settled(s)
    ensures Settled(Next(s, AcquireNow(id, user)))
  {
    var t := Next(s, AcquireNow(id, user));
    if t != s {
      EntryKeeps(s, user);
      var e := WithEntry(s, user);
      forall u | u in t.table
        ensures t.table[u] < |t.active| && (t.active[t.table[u]] > 0 || Cleaning(t, u))
      {
        if u == user {
          assert CountOk(e, e.table[user]);
        } else {
          assert t.table[u] == s.table[u] && t.active[t.table[u]] == s.active[s.table[u]];
          if s.active[s.table[u]] <= 0 {
            var r :| r in s.tokens && s.tokens[r] == Removing(u, s.table[u]);
            assert t.tokens[r] == s.tokens[r];
          }
        }
      }
    }
  }

  lemma {:induction false} AtomicSettles(cap: nat, steps: seq<Step>)
    requires AtomicAcquire(steps)
    ensures Settled(Run(cap, steps)) && Mapped(Run(cap, steps))
    decreases |steps|
  {
    if steps != [] {
      var before := steps[..|steps| - 1];
      var step := steps[|steps| - 1];
      AtomicSettles(cap, before);
      RunKeeps(cap, before);
      var s := Run(cap, before);
      StepKeepsMapped(s, step);
      match step {
        case Drop(id) => DropSettles(s, id);
        case RemoveIf(id) => RemoveSettles(s, id);
        case AcquireNow(id, user) => AcquireSettles(s, id, user);
        case SetCap(_) =>
          var t := Next(s, step);
          forall u | u in t.table
            ensures t.active[t.table[u]] > 0 || Cleaning(t, u)
          {
            if s.active[s.table[u]] <= 0 {
              var r :| r in s.tokens && s.tokens[r] == Removing(u, s.table[u]);
              assert t.tokens[r] == s.tokens[r];
            }
          }
        case ReadCap(_, _) => assert false;
        case _ => assert Next(s, step) == s;
      }
    }
  }

  lemma EntryHasPermit(s: Limiter, user: string)
    requires Inv(s) && Mapped(s) && Settled(s) && user in s.table
    ensures PermitsOf(s.tokens, user) != {} || Cleaning(s, user)
  {
    var c := s.table[user];
    if s.active[c] > 0 {
      assert CountOk(s, c);
      var id :| id in On(s.tokens, c);
      assert s.tokens[id].user == user by {
        assert s.table[s.tokens[id].user] == c;
      }
      assert id in PermitsOf(s.tokens, user);
    }
  }

  /** With acquire in one step, across cap changes and drops in two: no user holds
      more permits than the largest cap, and a user has an entry exactly when it
      has a live permit or a drop of its last one is about to remove the entry. */
  lemma AtomicAcquireSafety(cap: nat, steps: seq<Step>, user: string)
    requires AtomicAcquire(steps)
    ensures var s := Run(cap, steps);
            && |PermitsOf(s.tokens, user)| <= s.ceiling
            && (PermitsOf(s.tokens, user) != {} ==> user in s.table)
            && (user in s.table ==> PermitsOf(s.tokens, user) != {} || Cleaning(s, user))
  {
    AtomicSettles(cap, steps);
    RunKeeps(cap, steps);
    CapOfUser(Run(cap, steps), user);
    if user in Run(cap, steps).table {
      EntryHasPermit(Run(cap, steps), user);
    }
  }
}
