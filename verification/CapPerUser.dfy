/**
 When the cap holds per user.

 The cap is checked against a counter object.  An attempt that counts itself on a
 counter which its user's entry no longer names is not seen by the attempts after
 it; the first such attempt of a run is always granted, and from there the user can
 get one permit more than any cap there has been.
 */
module CapPerUser {
  import opened Bytes
  import opened UserLimiter

  // ------------------------------------------------------------ whose counter it is

  predicate UsesCounter(t: Token, counter: nat) {
    !t.Capped? && t.counter == counter
  }

  /** A counter that the table names is used by its own user only. */
  ghost predicate Owned(s: Limiter) {
    forall id, v :: id in s.tokens && v in s.table && UsesCounter(s.tokens[id], s.table[v]) ==> s.tokens[id].user == v
  }

  lemma EntryKeepsOwned(s: Limiter, user: string)
    requires Inv(s) && Owned(s)
    ensures Owned(WithEntry(s, user))
  {
    var t := WithEntry(s, user);
    forall id, v | id in t.tokens && v in t.table && UsesCounter(t.tokens[id], t.table[v])
      ensures t.tokens[id].user == v
    {
      assert TokenOk(s, s.tokens[id]);
    }
  }

  lemma TokenKeepsOwned(s: Limiter, id: nat, t: Token)
    requires Owned(s) && (forall v :: v in s.table && UsesCounter(t, s.table[v]) ==> t.user == v)
    ensures Owned(WithToken(s, id, t))
  {
  }

  lemma StepKeepsOwned(s: Limiter, step: Step)
    requires Inv(s) && Owned(s)
    ensures Owned(Next(s, step))
  {
    match step {
      case GetCounter(id) =>
        if id in s.tokens && s.tokens[id].Capped? {
          var t := s.tokens[id];
          EntryKeeps(s, t.user);
          EntryKeepsOwned(s, t.user);
          var e := WithEntry(s, t.user);
          TokenKeepsOwned(e, id, Holding(t.user, t.cap, e.table[t.user]));
        }
      case AcquireNow(id, user) =>
        EntryKeeps(s, user);
        EntryKeepsOwned(s, user);
        var e := WithEntry(s, user);
        TokenKeepsOwned(Counted(e, e.table[user], 1), id, Permit(user, e.table[user]));
      case _ =>
    }
  }

  lemma {:induction false} RunKeepsOwned(cap: nat, steps: seq<Step>)
    ensures Inv(Run(cap, steps)) && Owned(Run(cap, steps))
    decreases |steps|
  {
    RunKeeps(cap, steps);
    if steps != [] {
      RunKeepsOwned(cap, steps[..|steps| - 1]);
      StepKeepsOwned(Run(cap, steps[..|steps| - 1]), steps[|steps| - 1]);
    }
  }

  /** The first orphaned attempt is granted, whatever its cap: nobody is counted
      where it counts. */
  lemma OrphanIsGranted(s: Limiter, step: Step)
    requires Inv(s) && Owned(s) && Mapped(s) && Orphaned(s, step)
    ensures var t := s.tokens[step.id];
            && t.counter < |s.active|
            && Next(s, step) == WithToken(Counted(s, t.counter, 1), step.id, Permit(t.user, t.counter))
  {
    var t := s.tokens[step.id];
    assert TokenOk(s, t) && CountOk(s, t.counter);
    forall i | i in s.tokens
      ensures i !in On(s.tokens, t.counter)
    {
      var v := s.tokens[i].user;
      if v in s.table && s.table[v] == t.counter {
        assert UsesCounter(t, s.table[v]);
      }
    }
    assert On(s.tokens, t.counter) == {};
  }

  // ------------------------------------------------------------------- going on

  function Onward(s: Limiter, steps: seq<Step>): Limiter
    decreases |steps|
  {
    if steps == [] then s else Next(Onward(s, steps[..|steps| - 1]), steps[|steps| - 1])
  }

  lemma {:induction false} RunOnward(cap: nat, a: seq<Step>, b: seq<Step>)
    ensures Run(cap, a + b) == Onward(Run(cap, a), b)
    decreases |b|
  {
    if b == [] {
      assert a + b == a;
    } else {
      var before := b[..|b| - 1];
      assert (a + b)[..|a + b| - 1] == a + before;
      RunOnward(cap, a, before);
    }
  }

  lemma {:induction false} OnwardJoined(s: Limiter, a: seq<Step>, b: seq<Step>)
    ensures Onward(s, a + b) == Onward(Onward(s, a), b)
    decreases |b|
  {
    if b == [] {
      assert a + b == a;
    } else {
      var before := b[..|b| - 1];
      assert (a + b)[..|a + b| - 1] == a + before;
      OnwardJoined(s, a, before);
    }
  }

  lemma OnwardFirst(s: Limiter, step: Step, more: seq<Step>)
    ensures Onward(s, [step] + more) == Onward(Next(s, step), more)
  {
    OnwardJoined(s, [step], more);
    assert [step][..0] == [];
    assert Onward(s, [step]) == Next(Onward(s, []), step);
  }

  ghost predicate NoAdds(steps: seq<Step>) {
    forall i :: 0 <= i < |steps| ==> !steps[i].Add?
  }

  // ---------------------------------------------------------- clearing and filling

  function Undoing(s: Limiter): set<nat> {
    set id | id in s.tokens && s.tokens[id].Rolling?
  }

  /** Only rollbacks happened. */
  ghost predicate Kept(s: Limiter, t: Limiter) {
    && t.cap == s.cap && t.ceiling == s.ceiling && t.table == s.table && |t.active| == |s.active|
    && (forall id :: id in s.tokens && s.tokens[id].Permit? ==> id in t.tokens && t.tokens[id] == s.tokens[id])
  }

  lemma RollOne(s: Limiter, id: nat)
    requires Inv(s) && id in Undoing(s)
    ensures var t := Next(s, Rollback(id)); Inv(t) && Kept(s, t) && Undoing(t) == Undoing(s) - {id}
  {
    assert TokenOk(s, s.tokens[id]);
    StepKeeps(s, Rollback(id));
  }

  /** Every attempt over the cap can undo its increment. */
  lemma {:induction false} RollBack(s: Limiter) returns (more: seq<Step>)
    requires Inv(s) && Owned(s)
    ensures NoAdds(more)
    ensures var t := Onward(s, more); Inv(t) && Owned(t) && Kept(s, t) && Undoing(t) == {}
    decreases |Undoing(s)|
  {
    if Undoing(s) == {} {
      more := [];
    } else {
      var id :| id in Undoing(s);
      RollOne(s, id);
      StepKeepsOwned(s, Rollback(id));
      var rest := RollBack(Next(s, Rollback(id)));
      OnwardFirst(s, Rollback(id), rest);
      more := [Rollback(id)] + rest;
    }
  }

  /** A user holds a permit that its current entry does not count. */
  ghost predicate Outside(s: Limiter, user: string, id: nat) {
    && id in s.tokens && s.tokens[id].Permit? && s.tokens[id].user == user
    && (user in s.table ==> s.table[user] != s.tokens[id].counter)
  }

  function Held(s: Limiter, user: string): int {
    if user in s.table && s.table[user] < |s.active| then s.active[s.table[user]] else 0
  }

  /** A full counter and a permit outside it are one permit too many. */
  lemma FullAndOutside(s: Limiter, user: string, id: nat)
    requires Inv(s) && Owned(s) && Undoing(s) == {} && Outside(s, user, id)
    requires user in s.table && s.active[s.table[user]] == s.ceiling
    ensures |PermitsOf(s.tokens, user)| > s.ceiling
  {
    var c := s.table[user];
    assert CountOk(s, c);
    var on := On(s.tokens, c);
    forall i | i in on
      ensures i in PermitsOf(s.tokens, user)
    {
      assert i !in Undoing(s);
      assert UsesCounter(s.tokens[i], c);
    }
    assert id !in on && id in PermitsOf(s.tokens, user);
    SubsetSize(on + {id}, PermitsOf(s.tokens, user));
  }

  lemma HeldInBounds(s: Limiter, user: string)
    requires Inv(s) && Undoing(s) == {}
    ensures 0 <= Held(s, user) <= s.ceiling
  {
    if user in s.table {
      var c := s.table[user];
      assert CountOk(s, c);
      assert On(s.tokens, c) == Permits(s.tokens, c) by {
        forall i | i in On(s.tokens, c)
          ensures i in Permits(s.tokens, c)
        {
          assert i !in Undoing(s);
        }
      }
    }
  }

  /** One more attempt of the user below the cap. */
  lemma AcquireMore(s: Limiter, user: string, id: nat, spare: nat)
    requires Inv(s) && Owned(s) && Undoing(s) == {} && Outside(s, user, id) && spare !in s.tokens
    requires s.cap == s.ceiling && Held(s, user) < s.ceiling
    ensures var t := Next(s, AcquireNow(spare, user));
            && Inv(t) && Owned(t) && Undoing(t) == {} && Outside(t, user, id)
            && t.cap == s.cap && t.ceiling == s.ceiling && Held(t, user) == Held(s, user) + 1
  {
    StepKeeps(s, AcquireNow(spare, user));
    StepKeepsOwned(s, AcquireNow(spare, user));
    EntryKeeps(s, user);
    assert TokenOk(s, s.tokens[id]);
    var e := WithEntry(s, user);
    var t := Next(s, AcquireNow(spare, user));
    assert t == AddTo(e, spare, user, s.cap, e.table[user]);
    assert t.tokens[spare].Permit?;
    assert Undoing(t) == {} by {
      forall i | i in t.tokens
        ensures !t.tokens[i].Rolling?
      {
        assert i != spare ==> i !in Undoing(s);
      }
    }
  }

  /** The user fills its current counter up to the cap. */
  lemma {:induction false} FillUp(s: Limiter, user: string, id: nat) returns (more: seq<Step>)
    requires Inv(s) && Owned(s) && Undoing(s) == {} && Outside(s, user, id) && s.cap == s.ceiling
    ensures NoAdds(more) && Onward(s, more).ceiling == s.ceiling && Onward(s, more).cap == s.cap
    ensures |PermitsOf(Onward(s, more).tokens, user)| > s.ceiling
    decreases s.ceiling - Held(s, user)
  {
    HeldInBounds(s, user);
    if Held(s, user) == s.ceiling {
      FullAndOutside(s, user, id);
      more := [];
    } else {
      var spare := Unused(s.tokens.Keys);
      AcquireMore(s, user, id, spare);
      var t := Next(s, AcquireNow(spare, user));
      var rest := FillUp(t, user, id);
      OnwardFirst(s, AcquireNow(spare, user), rest);
      more := [AcquireNow(spare, user)] + rest;
    }
  }

  /** From a permit outside the current entry, the user can hold more permits than
      the largest cap there has been. */
  lemma PassCap(s: Limiter, user: string, id: nat) returns (more: seq<Step>)
    requires Inv(s) && Owned(s) && Outside(s, user, id) && s.ceiling >= 1
    ensures NoAdds(more) && Onward(s, more).ceiling == s.ceiling
    ensures |PermitsOf(Onward(s, more).tokens, user)| > s.ceiling
  {
    var t := Next(s, SetCap(s.ceiling));
    SetCapKeeps(s, s.ceiling);
    StepKeepsOwned(s, SetCap(s.ceiling));
    assert t.cap == t.ceiling == s.ceiling;
    var rolls := RollBack(t);
    var u := Onward(t, rolls);
    var fills := FillUp(u, user, id);
    more := [SetCap(s.ceiling)] + (rolls + fills);
    OnwardFirst(s, SetCap(s.ceiling), rolls + fills);
    OnwardJoined(t, rolls, fills);
  }

  // ------------------------------------------------------------------ the theorems

  /** Some user holds more permits than the largest finite cap there has been. */
  ghost predicate OverCap(s: Limiter) {
    exists user :: |PermitsOf(s.tokens, user)| > s.ceiling
  }

  /** The run up to `i`, continued differently. */
  function Continued(steps: seq<Step>, i: nat, more: seq<Step>): seq<Step>
    requires i <= |steps|
  {
    steps[..i] + more
  }

  ghost predicate OrphanFreeFrom(cap: nat, steps: seq<Step>, i: nat) {
    forall j :: i <= j < |steps| ==> !Orphaned(Run(cap, steps[..j]), steps[j])
  }

  /** At no point of the run can a continuation without a further orphaned attempt
      bring a user over the cap. */
  ghost predicate NeverOverCap(cap: nat, steps: seq<Step>) {
    forall i, more :: 0 <= i <= |steps| && OrphanFreeFrom(cap, Continued(steps, i, more), i) ==>
      !OverCap(Run(cap, Continued(steps, i, more)))
  }

  /** An orphaned attempt after which the user can pass the cap. */
  lemma OrphanBreaksCap(cap: nat, steps: seq<Step>, i: nat) returns (more: seq<Step>)
    requires i < |steps| && OrphanFree(cap, steps[..i]) && Orphaned(Run(cap, steps[..i]), steps[i])
    ensures NoAdds(more) && OverCap(Run(cap, Continued(steps, i + 1, more)))
  {
    var s := Run(cap, steps[..i]);
    RunKeepsOwned(cap, steps[..i]);
    RunKeepsMapped(cap, steps[..i]);
    OrphanIsGranted(s, steps[i]);
    var token := s.tokens[steps[i].id];
    assert TokenOk(s, token);
    StepKeeps(s, steps[i]);
    StepKeepsOwned(s, steps[i]);
    var t := Next(s, steps[i]);
    assert Outside(t, token.user, steps[i].id);
    assert steps[..i + 1][..i] == steps[..i];
    more := PassCap(t, token.user, steps[i].id);
    RunOnward(cap, steps[..i + 1], more);
  }

  lemma {:induction false} FirstOrphan(cap: nat, steps: seq<Step>) returns (i: nat)
    requires !OrphanFree(cap, steps)
    ensures i < |steps| && OrphanFree(cap, steps[..i]) && Orphaned(Run(cap, steps[..i]), steps[i])
    decreases |steps|
  {
    var k :| 0 <= k < |steps| && Orphaned(Run(cap, steps[..k]), steps[k]);
    if OrphanFree(cap, steps[..k]) {
      i := k;
    } else {
      i := FirstOrphan(cap, steps[..k]);
      assert steps[..k][..i] == steps[..i];
    }
  }

  lemma FreeThenFree(cap: nat, steps: seq<Step>, i: nat, more: seq<Step>)
    requires i <= |steps| && OrphanFree(cap, steps) && OrphanFreeFrom(cap, Continued(steps, i, more), i)
    ensures OrphanFree(cap, Continued(steps, i, more))
  {
    var all := Continued(steps, i, more);
    forall j | 0 <= j < |all|
      ensures !Orphaned(Run(cap, all[..j]), all[j])
    {
      if j < i {
        assert all[..j] == steps[..j] && all[j] == steps[j];
      }
    }
  }

  lemma QuietContinuation(cap: nat, steps: seq<Step>, i: nat, more: seq<Step>)
    requires i <= |steps| && NoAdds(more)
    ensures OrphanFreeFrom(cap, Continued(steps, i, more), i)
  {
    var all := Continued(steps, i, more);
    assert forall j :: i <= j < |all| ==> all[j] == more[j - i];
  }

  /** The cap per user, exactly: in a run, however it goes on without another
      orphaned attempt, no user holds more permits than the largest finite cap
      there has been, if and only if no attempt of the run counts itself on a
      counter that its user's entry no longer names. */
  lemma UserCapIff(cap: nat, steps: seq<Step>)
    ensures OrphanFree(cap, steps) <==> NeverOverCap(cap, steps)
  {
    if OrphanFree(cap, steps) {
      forall i, more | 0 <= i <= |steps| && OrphanFreeFrom(cap, Continued(steps, i, more), i)
        ensures !OverCap(Run(cap, Continued(steps, i, more)))
      {
        var all := Continued(steps, i, more);
        FreeThenFree(cap, steps, i, more);
        forall user
          ensures |PermitsOf(Run(cap, all).tokens, user)| <= Run(cap, all).ceiling
        {
          UserCap(cap, all, user);
        }
      }
    } else {
      var i := FirstOrphan(cap, steps);
      var more := OrphanBreaksCap(cap, steps, i);
      QuietContinuation(cap, steps, i + 1, more);
      assert OverCap(Run(cap, Continued(steps, i + 1, more)));
    }
  }

  // --------------------------------------------------------- a run for every cap

  /** A user's last permit is about to be dropped while a second attempt already has
      its counter. */
  function Racing(cap: nat, user: string): Limiter {
    Limiter(cap, cap, [1], map[user := 0], map[0 := Permit(user, 0), 1 := Holding(user, cap, 0)])
  }

  /** The entry is gone, and the attempt still has its counter. */
  function Detached(cap: nat, user: string): Limiter {
    Limiter(cap, cap, [0], map[], map[1 := Holding(user, cap, 0)])
  }

  lemma RaceBegins(cap: nat, user: string)
    requires cap >= 1 && cap != UNLIMITED
    ensures Onward(NewLimiter(cap), [AcquireNow(0, user), ReadCap(1, user), GetCounter(1)]) == Racing(cap, user)
  {
    var steps := [AcquireNow(0, user), ReadCap(1, user), GetCounter(1)];
    var s := Next(NewLimiter(cap), AcquireNow(0, user));
    assert s == Limiter(cap, cap, [1], map[user := 0], map[0 := Permit(user, 0)]);
    var t := Next(s, ReadCap(1, user));
    assert t == s.(tokens := map[0 := Permit(user, 0), 1 := Capped(user, cap)]);
    assert steps[..2] == [AcquireNow(0, user), ReadCap(1, user)] && steps[..2][..1] == [AcquireNow(0, user)];
    assert steps[..2][..1][..0] == [];
    assert Onward(NewLimiter(cap), steps[..2][..1]) == s;
    assert Onward(NewLimiter(cap), steps[..2]) == t;
  }

  lemma EntryRemoved(cap: nat, user: string)
    requires cap >= 1
    ensures Onward(Racing(cap, user), [Drop(0), RemoveIf(0)]) == Detached(cap, user)
  {
    var s := Next(Racing(cap, user), Drop(0));
    assert s == Limiter(cap, cap, [0], map[user := 0], map[0 := Removing(user, 0), 1 := Holding(user, cap, 0)]);
    assert s.table - {user} == map[];
    assert s.tokens - {0} == map[1 := Holding(user, cap, 0)];
    var steps := [Drop(0), RemoveIf(0)];
    assert steps[..1] == [Drop(0)] && steps[..1][..0] == [];
    assert Onward(Racing(cap, user), steps[..1]) == s;
  }

  lemma DetachedRun(cap: nat, user: string) returns (steps: seq<Step>)
    requires cap >= 1 && cap != UNLIMITED
    ensures Run(cap, steps) == Detached(cap, user)
  {
    var a, b := [AcquireNow(0, user), ReadCap(1, user), GetCounter(1)], [Drop(0), RemoveIf(0)];
    RaceBegins(cap, user);
    EntryRemoved(cap, user);
    RunOnward(cap, [], a);
    assert [] + a == a;
    RunOnward(cap, a, b);
    steps := a + b;
  }

  /** For every finite cap and every user there is a run, with the cap never changed,
      in which the user holds one permit more than the cap. */
  lemma OrphanPassesCap(cap: nat, user: string)
    requires cap >= 1 && cap != UNLIMITED
    ensures exists steps :: Run(cap, steps).cap == Run(cap, steps).ceiling == cap
                            && |PermitsOf(Run(cap, steps).tokens, user)| > cap
  {
    var steps := DetachedRun(cap, user);
    RunKeepsOwned(cap, steps);
    var s := Detached(cap, user);
    StepKeeps(s, Add(1));
    StepKeepsOwned(s, Add(1));
    var t := Next(s, Add(1));
    assert t == Limiter(cap, cap, [1], map[], map[1 := Permit(user, 0)]);
    var more := FillUp(t, user, 1);
    RunOnward(cap, steps, [Add(1)] + more);
    OnwardFirst(s, Add(1), more);
    assert |PermitsOf(Run(cap, steps + ([Add(1)] + more)).tokens, user)| > cap;
  }
}
