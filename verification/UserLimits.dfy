/** The limiter as one thread sees it, and why an attempt that nobody interrupts is
    one step. */
module UserLimits {
  import opened Bytes
  import opened UserLimiter

  /** Without a user, or at the cap, there is no permit; with limiting off there is
      one that counts nowhere. */
  datatype Admission = Refused | Uncounted | Granted

  lemma AcquireKeeps(s: Limiter, id: nat, user: string)
    requires Inv(s) && id !in s.tokens && s.cap != UNLIMITED
    ensures Inv(Next(s, AcquireNow(id, user)))
    ensures var e := WithEntry(s, user); e.table[user] < |e.active|
  {
    AcquireNowKeeps(s, id, user);
    EntryKeeps(s, user);
  }

  /** A permit dropped by a thread that nobody interrupts. */
  function DropNow(s: Limiter, id: nat): Limiter
    requires id in s.tokens && s.tokens[id].Permit? && s.tokens[id].counter < |s.active|
  {
    var t := s.tokens[id];
    var d := Without(Counted(s, t.counter, -1), id);
    if d.active[t.counter] == 0 && t.user in d.table && d.table[t.user] == t.counter then
      d.(table := d.table - {t.user})
    else
      d
  }

  lemma DropIsTwoSteps(s: Limiter, id: nat)
    requires id in s.tokens && s.tokens[id].Permit?
    requires s.tokens[id].counter < |s.active| && s.active[s.tokens[id].counter] > 0
    ensures Next(Next(s, Step.Drop(id)), RemoveIf(id)) == DropNow(s, id)
  {
    var t := s.tokens[id];
    assert s.tokens[id := Removing(t.user, t.counter)] - {id} == s.tokens - {id};
  }

  lemma DropKeeps(s: Limiter, id: nat)
    requires Inv(s) && id in s.tokens && s.tokens[id].Permit?
    ensures var counter := s.tokens[id].counter; counter < |s.active| && s.active[counter] > 0
    ensures Inv(Next(Next(s, Step.Drop(id)), RemoveIf(id)))
  {
    assert TokenOk(s, s.tokens[id]);
    SubKeeps(s, id, s.tokens[id].counter, s.tokens[id].user);
    LeaveKeeps(s, id);
    StepKeeps(Next(s, Step.Drop(id)), RemoveIf(id));
  }

  class UserConnectionLimiter {
    var cap: nat
    var active: seq<int>
    var table: map<string, nat>
    var permits: map<nat, Token>

    /** The largest finite cap there has been. */
    ghost var ceiling: nat

    ghost function View(): Limiter
      reads this
    {
      Limiter(cap, ceiling, active, table, permits)
    }

    ghost predicate Valid()
      reads this
    {
      Inv(View())
    }

    constructor (maxConnections: nat)
      ensures Valid() && View() == NewLimiter(maxConnections)
    {
      cap := if maxConnections >= 1 then maxConnections else 1;
      active, table, permits := [], map[], map[];
      ceiling := NewLimiter(maxConnections).ceiling;
    }

    method SetMaxConnections(maxConnections: nat)
      requires Valid()
      modifies this
      ensures Valid() && View() == Next(old(View()), SetCap(maxConnections))
    {
      SetCapKeeps(View(), maxConnections);
      cap := if maxConnections >= 1 then maxConnections else 1;
      ceiling := if cap != UNLIMITED && cap > ceiling then cap else ceiling;
    }

    /** try_acquire. */
    method TryAcquire(id: nat, user: Option<string>) returns (admission: Admission)
      requires Valid() && id !in permits
      modifies this
      ensures Valid()
      ensures user.None? ==> admission.Refused? && View() == old(View())
      ensures user.Some? && old(cap) == UNLIMITED ==> admission.Uncounted? && View() == old(View())
      ensures user.Some? && old(cap) != UNLIMITED ==>
                && View() == Next(old(View()), AcquireNow(id, user.value))
                && !admission.Uncounted? && (admission.Granted? <==> id in permits)
    {
      if user.None? {
        return Refused;
      }
      if cap == UNLIMITED {
        return Uncounted;
      }
      ghost var entry := WithEntry(View(), user.value);
      AcquireKeeps(View(), id, user.value);
      if user.value !in table {
        table := table[user.value := |active|];
        active := active + [0];
      }
      assert View() == entry;
      var counter := table[user.value];
      active := active[counter := active[counter] + 1];
      if active[counter] > cap {
        active := active[counter := active[counter] - 1];
        assert active == entry.active;
        assert View() == entry;
        return Refused;
      }
      permits := permits[id := Permit(user.value, counter)];
      assert View() == AddTo(entry, id, user.value, cap, counter);
      return Granted;
    }

    /** Dropping a permit. */
    method Drop(id: nat)
      requires Valid() && id in permits && permits[id].Permit?
      modifies this
      ensures Valid() && View() == Next(Next(old(View()), Step.Drop(id)), RemoveIf(id)) && id !in permits
    {
      var permit := permits[id];
      DropKeeps(View(), id);
      DropIsTwoSteps(View(), id);
      var previous := active[permit.counter];
      active := active[permit.counter := previous - 1];
      permits := permits - {id};
      if previous <= 1 {
        if permit.user in table && table[permit.user] == permit.counter && active[permit.counter] == 0 {
          table := table - {permit.user};
        }
      }
    }
  }

  lemma GetsCounter(s: Limiter, id: nat, user: string)
    requires Inv(s) && id !in s.tokens && s.cap != UNLIMITED
    ensures var e := WithEntry(s, user);
            Next(Next(s, ReadCap(id, user)), GetCounter(id)) == WithToken(e, id, Holding(user, s.cap, e.table[user]))
  {
    var e := WithEntry(s, user);
    var holding := Holding(user, s.cap, e.table[user]);
    assert s.tokens[id := Capped(user, s.cap)][id := holding] == s.tokens[id := holding];
  }

  lemma CountsOrUndoes(e: Limiter, id: nat, user: string, cap: nat, counter: nat)
    requires id !in e.tokens && counter < |e.active|
    ensures Next(Next(WithToken(e, id, Holding(user, cap, counter)), Add(id)), Rollback(id))
         == if e.active[counter] + 1 > cap then e else AddTo(e, id, user, cap, counter)
  {
    var held := WithToken(e, id, Holding(user, cap, counter));
    var added := Next(held, Add(id));
    if e.active[counter] + 1 > cap {
      var undone := Next(added, Rollback(id));
      assert undone.tokens == e.tokens;
      assert undone.active == e.active;
    } else {
      assert added.tokens == e.tokens[id := Permit(user, counter)];
    }
  }

  /** An attempt whose four steps nobody interrupts is the single step. */
  lemma UninterruptedIsOneStep(s: Limiter, id: nat, user: string)
    requires Inv(s) && id !in s.tokens && s.cap != UNLIMITED
    ensures Next(Next(Next(Next(s, ReadCap(id, user)), GetCounter(id)), Add(id)), Rollback(id))
         == Next(s, AcquireNow(id, user))
  {
    EntryKeeps(s, user);
    GetsCounter(s, id, user);
    CountsOrUndoes(WithEntry(s, user), id, user, s.cap, WithEntry(s, user).table[user]);
  }
}
