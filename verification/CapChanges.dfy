/** Admission by the cap that is in force: which attempts are granted and which are
    refused, across changes of the cap. */
module CapChanges {
  import opened UserLimiter

  /** The cap that was set last. */
  function LastCap(cap: nat, steps: seq<Step>): nat {
    if steps == [] then
      cap
    else
      match steps[|steps| - 1]
      case SetCap(c) => c
      case _ => LastCap(cap, steps[..|steps| - 1])
  }

  /** A cap of zero counts as one. */
  function InForce(cap: nat, steps: seq<Step>): nat {
    if LastCap(cap, steps) == 0 then 1 else LastCap(cap, steps)
  }

  lemma CapAfter(s: Limiter, step: Step)
    ensures Next(s, step).cap == if !step.SetCap? then s.cap else if step.cap == 0 then 1 else step.cap
  {
  }

  lemma {:induction false} CapIsInForce(cap: nat, steps: seq<Step>)
    ensures Run(cap, steps).cap == InForce(cap, steps)
    decreases |steps|
  {
    if steps != [] {
      CapIsInForce(cap, steps[..|steps| - 1]);
      CapAfter(Run(cap, steps[..|steps| - 1]), steps[|steps| - 1]);
    }
  }

  lemma OneMoreStep(cap: nat, steps: seq<Step>, k: nat)
    requires k < |steps|
    ensures Run(cap, steps[..k + 1]) == Next(Run(cap, steps[..k]), steps[k])
  {
    assert steps[..k + 1][..k] == steps[..k];
  }

  predicate Of(step: Step, id: nat) {
    !step.SetCap? && step.id == id
  }

  lemma OthersLeave(s: Limiter, step: Step, id: nat)
    requires id in s.tokens && !Of(step, id)
    ensures var t := Next(s, step); id in t.tokens && t.tokens[id] == s.tokens[id]
  {
  }

  lemma {:induction false} StaysAs(cap: nat, steps: seq<Step>, i: nat, j: nat, id: nat)
    requires i <= j <= |steps| && id in Run(cap, steps[..i]).tokens
    requires forall k :: i <= k < j ==> !Of(steps[k], id)
    ensures id in Run(cap, steps[..j]).tokens && Run(cap, steps[..j]).tokens[id] == Run(cap, steps[..i]).tokens[id]
    decreases j
  {
    if i < j {
      StaysAs(cap, steps, i, j - 1, id);
      OneMoreStep(cap, steps, j - 1);
      OthersLeave(Run(cap, steps[..j - 1]), steps[j - 1], id);
    }
  }

  /** An attempt of a user, with the places of its three steps in a run. */
  ghost predicate Attempt(cap: nat, steps: seq<Step>, i: nat, j: nat, k: nat, id: nat, user: string) {
    && i < j < k < |steps|
    && steps[i] == ReadCap(id, user) && steps[j] == GetCounter(id) && steps[k] == Add(id)
    && id !in Run(cap, steps[..i]).tokens && InForce(cap, steps[..i]) != UNLIMITED
    && (forall n :: i < n < k && n != j ==> !Of(steps[n], id))
  }

  lemma AttemptHolds(cap: nat, steps: seq<Step>, i: nat, j: nat, k: nat, id: nat, user: string)
    requires Attempt(cap, steps, i, j, k, id, user)
    ensures var t := Run(cap, steps[..k]).tokens;
            && id in t && t[id].Holding? && t[id].user == user && t[id].cap == InForce(cap, steps[..i])
            && user in Run(cap, steps[..j + 1]).table && t[id].counter == Run(cap, steps[..j + 1]).table[user]
  {
    CapIsInForce(cap, steps[..i]);
    OneMoreStep(cap, steps, i);
    OneMoreStep(cap, steps, j);
    StaysAs(cap, steps, i + 1, j, id);
    StaysAs(cap, steps, j + 1, k, id);
  }

  lemma AddDecides(s: Limiter, id: nat)
    requires Inv(s) && id in s.tokens && s.tokens[id].Holding?
    ensures var h, t := s.tokens[id], Next(s, Add(id));
            && id in t.tokens
            && t.tokens[id] == if |On(s.tokens, h.counter)| < h.cap then Permit(h.user, h.counter)
                               else Rolling(h.user, h.counter)
  {
    assert TokenOk(s, s.tokens[id]) && CountOk(s, s.tokens[id].counter);
  }

  /** Admission in every interleaving: an attempt is granted if and only if, when it
      counts itself, the permits on its counter and the attempts still to be rolled
      back are fewer than the cap that was in force when it began.  So a lowered cap
      binds every attempt that begins after it. */
  lemma GrantedIff(cap: nat, steps: seq<Step>, i: nat, j: nat, k: nat, id: nat, user: string)
    requires Attempt(cap, steps, i, j, k, id, user)
    ensures user in Run(cap, steps[..j + 1]).table
    ensures var s, t := Run(cap, steps[..k]), Run(cap, steps[..k + 1]);
            var counter := Run(cap, steps[..j + 1]).table[user];
            && id in t.tokens
            && t.tokens[id] == if |On(s.tokens, counter)| < InForce(cap, steps[..i]) then Permit(user, counter)
                               else Rolling(user, counter)
  {
    AttemptHolds(cap, steps, i, j, k, id, user);
    RunKeeps(cap, steps[..k]);
    AddDecides(Run(cap, steps[..k]), id);
    OneMoreStep(cap, steps, k);
  }

  lemma PermitsOnEntry(s: Limiter, user: string)
    requires Inv(s) && Mapped(s) && Settled(s) && user in s.table
    ensures s.active[s.table[user]] == |PermitsOf(s.tokens, user)|
  {
    var c := s.table[user];
    assert CountOk(s, c);
    forall id | id in On(s.tokens, c)
      ensures id in PermitsOf(s.tokens, user)
    {
      assert s.table[s.tokens[id].user] == c;
    }
    assert On(s.tokens, c) == PermitsOf(s.tokens, user);
  }

  lemma AcquireDecides(s: Limiter, id: nat, user: string)
    requires Inv(s) && Mapped(s) && Settled(s) && id !in s.tokens && s.cap != UNLIMITED
    ensures id in Next(s, AcquireNow(id, user)).tokens <==> |PermitsOf(s.tokens, user)| < s.cap
  {
    if user in s.table {
      PermitsOnEntry(s, user);
    } else {
      CapOfUser(s, user);
    }
  }

  lemma PermitsAfter(s: Limiter, id: nat, user: string)
    requires id !in s.tokens
    ensures var t := Next(s, AcquireNow(id, user)).tokens;
            PermitsOf(t, user) == PermitsOf(s.tokens, user) + (if id in t then {id} else {})
  {
  }

  /** Admission with acquire in one step, in the user's own terms: granted if and only
      if the user holds fewer permits than the cap in force. */
  lemma GrantedAtOnceIff(cap: nat, steps: seq<Step>, id: nat, user: string)
    requires AtomicAcquire(steps) && id !in Run(cap, steps).tokens && InForce(cap, steps) != UNLIMITED
    ensures var s := Run(cap, steps);
            var t := Next(s, AcquireNow(id, user));
            && (id in t.tokens <==> |PermitsOf(s.tokens, user)| < InForce(cap, steps))
            && PermitsOf(t.tokens, user) == PermitsOf(s.tokens, user) + (if id in t.tokens then {id} else {})
  {
    CapIsInForce(cap, steps);
    RunKeeps(cap, steps);
    AtomicSettles(cap, steps);
    var s := Run(cap, steps);
    AcquireDecides(s, id, user);
    PermitsAfter(s, id, user);
  }
}
