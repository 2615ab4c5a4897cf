/**
 What the splice relay makes of what the kernel reports: when it fails, times out or
 ends a direction, and that it delivers everything unless it is told otherwise.
 */
module UringDelivery {
  import opened Bytes
  import opened UringRelay

  // ------------------------------------------------------ what a turn makes of it

  /** A splice in has reported an error. */
  predicate ReadFailed(c: Chan) {
    c.op.Completed? && c.op.kind.In? && (c.op.res.Again? || c.op.res.Errno?)
  }

  /** A splice in has reported that there is no more. */
  predicate ReadEnded(c: Chan) {
    c.op.Completed? && c.op.kind.In? && (c.op.res == Moved(0) || c.op.res.Canceled?)
  }

  /** A splice out has moved nothing, and not for want of room. */
  predicate WriteEnded(c: Chan) {
    c.op.Completed? && c.op.kind.Out? && (c.op.res == Moved(0) || c.op.res.Canceled? || c.op.res.Errno?)
  }

  function Settled(c: Chan): Chan {
    if !c.op.Completed? then c
    else if c.op.kind.In? then HandleIn(c, c.op.res).c
    else HandleOut(c, c.op.res).c
  }

  /** How a batch leaves the machine: failed exactly if a splice in has, and otherwise
      with every completion settled. */
  ghost predicate Batched(m: Machine, n: Machine) {
    && (n.status.FailedIo? <==> ReadFailed(m.ab) || ReadFailed(m.ba))
    && (n.status.FailedIo? || n.status.Running?)
    && (n.status.Running? ==> n.ab == Settled(m.ab) && n.ba == Settled(m.ba))
    && (n.ab == m.ab || n.ab == Settled(m.ab)) && (n.ba == m.ba || n.ba == Settled(m.ba))
  }

  lemma SettledOnce(c: Chan)
    requires Drives(c) && c.op.Completed? && !ReadFailed(c)
    ensures !Settled(c).op.Completed? && Settled(Settled(c)) == Settled(c)
  {
    if c.op.kind.In? {
      HandleInKeeps(c);
    } else {
      HandleOutKeeps(c);
    }
  }

  lemma HandledOne(m: Machine, cqes: seq<Cqe>)
    requires Inv(m, cqes) && m.status.Running? && cqes != [] && !cqes[0].poll
    ensures var d := cqes[0].dir;
            var n := Handle(m, cqes[0]);
            && (n.status.FailedIo? <==> ReadFailed(m.Get(d)))
            && n.Get(d) == Settled(m.Get(d)) && m.Get(d).op.Completed?
            && (forall o: Dir :: o != d ==> n.Get(o) == m.Get(o))
  {
    var c := m.Get(cqes[0].dir);
    if c.op.kind.Out? {
      HandleOutKeeps(c);
    }
  }

  lemma {:induction false} BatchSettles(m: Machine, cqes: seq<Cqe>)
    requires Inv(m, cqes) && m.status.Running?
    ensures Batched(m, HandleAll(m, cqes))
    decreases |cqes|
  {
    if cqes != [] {
      HandleKeeps(m, cqes);
      var n := Handle(m, cqes[0]);
      assert n.Get(AB) == n.ab && n.Get(BA) == n.ba && m.Get(AB) == m.ab && m.Get(BA) == m.ba;
      if !cqes[0].poll {
        HandledOne(m, cqes);
        if n.status.Running? {
          SettledOnce(m.Get(cqes[0].dir));
        }
      }
      if n.status.Running? {
        BatchSettles(n, cqes[1..]);
      } else {
        StoppedStays(n, cqes[1..]);
      }
    }
  }

  /** A direction after a turn. */
  function AfterTurn(c: Chan): Chan {
    Submit(HalfClose(Settled(c)))
  }

  lemma TurnSettles(m: Machine)
    requires Safe(m) && m.status.Running?
    ensures var t := Turn(m);
            && (t.status.FailedIo? <==> ReadFailed(m.ab) || ReadFailed(m.ba))
            && (t.status.Finished? ==> AfterTurn(m.ab).op.Idle? && AfterTurn(m.ba).op.Idle?)
            && (t.status.FailedIo? || t.status.Finished? || t.status.Running?)
            && (!t.status.FailedIo? ==> t.ab == AfterTurn(m.ab) && t.ba == AfterTurn(m.ba) && t.cq == [])
            && (t.status.FailedIo? ==>
                  (t.ab == m.ab || t.ab == Settled(m.ab)) && (t.ba == m.ba || t.ba == Settled(m.ba)))
  {
    var start := m.(cq := []);
    assert Inv(start, m.cq);
    BatchSettles(start, m.cq);
    BatchLeavesQueue(start, m.cq);
    TurnSafe(m);
  }

  // ---------------------------------------------------------- how a run can end

  lemma OneMoreStep(a: seq<Byte>, b: seq<Byte>, steps: seq<Step>, s: Step)
    ensures Run(a, b, steps + [s]) == Next(Run(a, b, steps), s)
  {
    assert (steps + [s])[..|steps|] == steps;
  }

  /** A turn of the `k`-th step finds a failed splice in. */
  ghost predicate FailsAt(a: seq<Byte>, b: seq<Byte>, steps: seq<Step>, k: nat)
    requires k < |steps|
  {
    var m := Run(a, b, steps[..k]);
    steps[k].TakeTurn? && m.status.Running? && (ReadFailed(m.ab) || ReadFailed(m.ba))
  }

  /** The drain deadline passes in the `k`-th step, with a direction ended. */
  ghost predicate ExpiresAt(a: seq<Byte>, b: seq<Byte>, steps: seq<Step>, k: nat)
    requires k < |steps|
  {
    var m := Run(a, b, steps[..k]);
    steps[k].Expire? && m.status.Running? && (m.ab.eof || m.ba.eof)
  }

  ghost predicate Fails(a: seq<Byte>, b: seq<Byte>, steps: seq<Step>) {
    exists k: nat :: k < |steps| && FailsAt(a, b, steps, k)
  }

  ghost predicate Expires(a: seq<Byte>, b: seq<Byte>, steps: seq<Step>) {
    exists k: nat :: k < |steps| && ExpiresAt(a, b, steps, k)
  }

  lemma FailsLater(a: seq<Byte>, b: seq<Byte>, steps: seq<Step>)
    requires steps != []
    ensures Fails(a, b, steps) <==> Fails(a, b, steps[..|steps| - 1]) || FailsAt(a, b, steps, |steps| - 1)
  {
    var before := steps[..|steps| - 1];
    assert forall k: nat :: k < |before| ==> before[..k] == steps[..k] && before[k] == steps[k];
    if Fails(a, b, before) {
      var k: nat :| k < |before| && FailsAt(a, b, before, k);
      assert FailsAt(a, b, steps, k);
    } else if Fails(a, b, steps) {
      var k: nat :| k < |steps| && FailsAt(a, b, steps, k);
      assert k < |before| ==> FailsAt(a, b, before, k);
    }
  }

  lemma ExpiresLater(a: seq<Byte>, b: seq<Byte>, steps: seq<Step>)
    requires steps != []
    ensures Expires(a, b, steps) <==> Expires(a, b, steps[..|steps| - 1]) || ExpiresAt(a, b, steps, |steps| - 1)
  {
    var before := steps[..|steps| - 1];
    assert forall k: nat :: k < |before| ==> before[..k] == steps[..k] && before[k] == steps[k];
    if Expires(a, b, before) {
      var k: nat :| k < |before| && ExpiresAt(a, b, before, k);
      assert ExpiresAt(a, b, steps, k);
    } else if Expires(a, b, steps) {
      var k: nat :| k < |steps| && ExpiresAt(a, b, steps, k);
      assert k < |before| ==> ExpiresAt(a, b, before, k);
    }
  }

  lemma StepStatus(m: Machine, s: Step)
    requires Safe(m) && m.status.Running?
    ensures Next(m, s).status.FailedIo? <==> s.TakeTurn? && (ReadFailed(m.ab) || ReadFailed(m.ba))
    ensures Next(m, s).status.TimedOut? <==> s.Expire? && (m.ab.eof || m.ba.eof)
  {
    TurnSettles(m);
  }

  /** The relay reports an error if and only if a turn found a splice in that had
      failed, and gives up waiting if and only if the deadline passed after a direction
      had ended. */
  lemma {:induction false} StatusIff(a: seq<Byte>, b: seq<Byte>, steps: seq<Step>)
    ensures Run(a, b, steps).status.FailedIo? <==> Fails(a, b, steps)
    ensures Run(a, b, steps).status.TimedOut? <==> Expires(a, b, steps)
    ensures Run(a, b, steps).status.Running? ==> !Fails(a, b, steps) && !Expires(a, b, steps)
    decreases |steps|
  {
    if steps != [] {
      var before, s := steps[..|steps| - 1], steps[|steps| - 1];
      StatusIff(a, b, before);
      FailsLater(a, b, steps);
      ExpiresLater(a, b, steps);
      UringSafety(a, b, before);
      if Run(a, b, before).status.Running? {
        StepStatus(Run(a, b, before), s);
      }
    }
  }

  lemma SettledEnds(c: Chan)
    requires Drives(c)
    ensures Settled(c).eof <==> c.eof || ReadEnded(c) || WriteEnded(c)
    ensures AfterTurn(c).eof == Settled(c).eof
    ensures AfterTurn(c).halfClosed <==> c.halfClosed || c.shutdownDue || ReadEnded(c)
  {
  }

  lemma TurnEnds(m: Machine, d: Dir)
    requires Safe(m) && m.status.Running?
    ensures var c, t := m.Get(d), Turn(m);
            && (t.Get(d).eof ==> c.eof || ReadEnded(c) || WriteEnded(c))
            && (!t.status.FailedIo? ==>
                  && (t.Get(d).eof <==> c.eof || ReadEnded(c) || WriteEnded(c))
                  && (t.Get(d).halfClosed <==> c.halfClosed || ReadEnded(c)))
  {
    SettledEnds(m.ab);
    SettledEnds(m.ba);
    TurnSettles(m);
  }

  lemma OthersEndNothing(m: Machine, s: Step, d: Dir)
    requires !s.TakeTurn?
    ensures Next(m, s).Get(d).eof == m.Get(d).eof && Next(m, s).Get(d).halfClosed == m.Get(d).halfClosed
  {
  }

  /** A direction ends in a step exactly if that is a turn which finds that its source
      has no more, or that its destination takes no more; in the first case, and only
      then, the destination is half-closed.  In a turn that fails it need not get that
      far. */
  lemma EndsIff(a: seq<Byte>, b: seq<Byte>, steps: seq<Step>, s: Step, d: Dir)
    ensures var m, n := Run(a, b, steps), Run(a, b, steps + [s]);
            var c := m.Get(d);
            m.status.Running? && !c.eof ==>
              && (n.Get(d).eof ==> s.TakeTurn? && (ReadEnded(c) || WriteEnded(c)))
              && (!n.status.FailedIo? ==>
                    && (n.Get(d).eof <==> s.TakeTurn? && (ReadEnded(c) || WriteEnded(c)))
                    && (n.Get(d).halfClosed <==> s.TakeTurn? && ReadEnded(c)))
  {
    OneMoreStep(a, b, steps, s);
    UringSafety(a, b, steps);
    var m := Run(a, b, steps);
    if m.status.Running? {
      if s.TakeTurn? {
        TurnEnds(m, d);
      } else {
        OthersEndNothing(m, s, d);
      }
    }
  }

  lemma SettledGoesOn(c: Chan)
    requires Drives(c) && c.op.Completed? && !ReadFailed(c) && !ReadEnded(c) && !WriteEnded(c)
    ensures AfterTurn(c).op
         == Submitted(if c.pipe == [] then In else Out(|c.pipe|, c.op.kind.Out? && c.op.res.Again?))
    ensures AfterTurn(c).pipe == c.pipe
  {
  }

  /** A direction that does not end goes on: a turn that finds its completion submits a
      splice out of the pipe for all that the pipe holds, behind a poll exactly after
      want of room, or, with the pipe empty, a splice in. */
  lemma GoesOn(a: seq<Byte>, b: seq<Byte>, steps: seq<Step>, d: Dir)
    ensures var m, n := Run(a, b, steps), Run(a, b, steps + [TakeTurn]);
            var c := m.Get(d);
            m.status.Running? && !n.status.FailedIo? && c.op.Completed? && !ReadEnded(c) && !WriteEnded(c) ==>
              && n.status.Running?
              && n.Get(d).op
                 == Submitted(if c.pipe == [] then In else Out(|c.pipe|, c.op.kind.Out? && c.op.res.Again?))
  {
    OneMoreStep(a, b, steps, TakeTurn);
    UringSafety(a, b, steps);
    var m := Run(a, b, steps);
    var c := m.Get(d);
    if m.status.Running? && c.op.Completed? && !ReadEnded(c) && !WriteEnded(c) && !Turn(m).status.FailedIo? {
      TurnSettles(m);
      SettledGoesOn(c);
    }
  }

  // ------------------------------------------------------------------- delivery

  /** Nothing that the kernel has reported keeps a direction from delivering all of its
      source: it has not ended before that, and is not about to. */
  predicate Intact(c: Chan) {
    match c.op
    case Idle => c.delivered == c.full
    case Canceling(kind) => kind.In? && c.source == []
    case Completed(kind, res) =>
      if kind.In? then (res.Moved? && res.n > 0) || (ReadEnded(c) && c.source == [])
      else res.Again? || (res.Moved? && res.n > 0)
    case _ => true
  }

  predicate AllIntact(m: Machine) {
    (m.status.Running? || m.status.Finished?) && Intact(m.ab) && Intact(m.ba)
  }

  /** The relay has finished with everything delivered. */
  predicate DeliveredAll(m: Machine) {
    m.status.Finished? && m.ab.delivered == m.ab.full && m.ba.delivered == m.ba.full
  }

  lemma FinishedIntact(m: Machine)
    requires Safe(m) && m.status.Finished?
    ensures AllIntact(m) <==> DeliveredAll(m)
  {
  }

  lemma SettledIntact(c: Chan)
    requires Drives(c) && !ReadFailed(c) && !c.op.Queued?
    ensures Intact(AfterTurn(c)) <==> Intact(c)
  {
    assert c.op.Completed? && c.pipe == [] ==> c.full == c.delivered + c.source;
    assert |c.full| == |c.delivered| + |c.pipe| + |c.source|;
    if c.source == [] && c.pipe == [] {
      assert c.delivered + [] + [] == c.delivered;
    }
  }

  /** What is lost stays lost. */
  lemma IntactBefore(m: Machine, s: Step)
    requires Safe(m) && AllIntact(Next(m, s))
    ensures AllIntact(m)
  {
    if m.status.Running? && s.TakeTurn? {
      TurnSettles(m);
      SettledIntact(m.ab);
      SettledIntact(m.ba);
    }
  }

  lemma {:induction false} IntactAllAlong(a: seq<Byte>, b: seq<Byte>, steps: seq<Step>, more: seq<Step>)
    requires AllIntact(Run(a, b, steps + more))
    ensures AllIntact(Run(a, b, steps))
    decreases |more|
  {
    if more == [] {
      assert steps + more == steps;
    } else {
      var before := more[..|more| - 1];
      assert (steps + more)[..|steps + more| - 1] == steps + before;
      UringSafety(a, b, steps + before);
      IntactBefore(Run(a, b, steps + before), more[|more| - 1]);
      IntactAllAlong(a, b, steps, before);
    }
  }

  /** What a working kernel may report: a splice in that ends finds nothing left, and a
      splice out moves something or waits for room. */
  predicate Reports(c: Chan, res: Res) {
    Possible(c, res) ==>
      if c.op.kind.In? then (res.Moved? && res.n > 0) || ((res == Moved(0) || res.Canceled?) && c.source == [])
      else res.Again? || (res.Moved? && res.n > 0)
  }

  predicate Works(m: Machine, s: Step) {
    match s
    case Complete(d, res) => Reports(m.Get(d), res)
    case PollFails(d) => m.Get(d).op.Submitted? ==> m.Get(d).op.kind.In? && m.Get(d).source == []
    case TakeTurn => true
    case Expire => false
  }

  /** How much a direction has left to do, beside moving its bytes. */
  function Phase(c: Chan): nat {
    match c.op
    case Idle => 0
    case Queued(_) => 0
    case Canceling(_) => 2
    case Submitted(kind) => if kind.In? then 3 else 5
    case Completed(kind, res) =>
      if kind.In? then if res.Moved? && res.n > 0 then 6 else 1
      else if c.pipe == [] then 4 else 6
  }

  function Left(c: Chan): nat {
    8 * |c.source| + 4 * |c.pipe| + Phase(c)
  }

  function LeftAll(m: Machine): nat {
    3 * (Left(m.ab) + Left(m.ba)) + |m.cq|
  }

  /** The kernel reports want of room. */
  predicate Waits(s: Step) {
    s.Complete? && s.res.Again?
  }

  lemma ReportLeaves(c: Chan, res: Res)
    requires Drives(c) && Intact(c) && Possible(c, res) && Reports(c, res)
    ensures Intact(Executed(c, res)) && Left(Executed(c, res)) + 1 <= Left(c) + if res.Again? then 2 else 0
  {
  }

  lemma TurnLeaves(c: Chan)
    requires Drives(c) && Intact(c) && !c.op.Queued?
    ensures !ReadFailed(c) && Left(AfterTurn(c)) <= Left(c)
  {
  }

  lemma EmptyTurn(m: Machine)
    requires Safe(m) && m.status.Running? && m.cq == []
    ensures Turn(m) == m
  {
    assert m.(cq := []) == m;
  }

  /** What a step of a working kernel does, and a turn: nothing is lost, and there is
      less to do, unless the kernel reports want of room. */
  lemma WorkLeaves(m: Machine, s: Step)
    requires Safe(m) && AllIntact(m) && m.status.Running? && Works(m, s)
    ensures AllIntact(Next(m, s))
    ensures Next(m, s) != m ==> LeftAll(Next(m, s)) + 1 <= LeftAll(m) + if Waits(s) then 6 else 0
  {
    match s {
      case Complete(d, res) =>
        if Possible(m.Get(d), res) {
          ReportLeaves(m.Get(d), res);
        }
      case PollFails(d) =>
      case TakeTurn =>
        TurnSettles(m);
        TurnLeaves(m.ab);
        TurnLeaves(m.ba);
        SettledIntact(m.ab);
        SettledIntact(m.ba);
        if m.cq == [] {
          EmptyTurn(m);
        }
    }
  }

  /** While the relay runs, there is a step that a working kernel, or the relay, takes. */
  lemma CanWork(m: Machine) returns (s: Step)
    requires Safe(m) && AllIntact(m) && m.status.Running?
    ensures Works(m, s) && !Waits(s) && Next(m, s) != m
  {
    if m.cq != [] {
      s := TakeTurn;
      TurnSettles(m);
      TurnLeaves(m.ab);
      TurnLeaves(m.ba);
    } else {
      var d := if m.ab.eof then BA else AB;
      var c := m.Get(d);
      assert !c.op.Completed?;
      s := Complete(d, if c.op.Canceling? then Canceled
                       else if c.op.kind.In? then Moved(|c.source|) else Moved(c.op.kind.len));
    }
  }

  lemma {:induction false} CanDeliver(a: seq<Byte>, b: seq<Byte>, steps: seq<Step>) returns (more: seq<Step>)
    requires AllIntact(Run(a, b, steps))
    ensures DeliveredAll(Run(a, b, steps + more))
    decreases LeftAll(Run(a, b, steps))
  {
    var m := Run(a, b, steps);
    UringSafety(a, b, steps);
    if m.status.Finished? {
      FinishedIntact(m);
      more := [];
      assert steps + more == steps;
    } else {
      var s := CanWork(m);
      WorkLeaves(m, s);
      OneMoreStep(a, b, steps, s);
      var rest := CanDeliver(a, b, steps + [s]);
      more := [s] + rest;
      assert steps + more == (steps + [s]) + rest;
    }
  }

  /** Delivery: at any point of any run, the relay can still finish with everything of
      both sources delivered if and only if it has not failed or given up, and neither
      direction has ended, or been told to, before it had delivered everything. */
  lemma DeliversIff(a: seq<Byte>, b: seq<Byte>, steps: seq<Step>)
    ensures (exists more :: DeliveredAll(Run(a, b, steps + more))) <==> AllIntact(Run(a, b, steps))
    ensures Run(a, b, steps).ab.full == a && Run(a, b, steps).ba.full == b
  {
    SourcesStay(a, b, steps);
    if AllIntact(Run(a, b, steps)) {
      var more := CanDeliver(a, b, steps);
    }
    if more :| DeliveredAll(Run(a, b, steps + more)) {
      UringSafety(a, b, steps + more);
      FinishedIntact(Run(a, b, steps + more));
      IntactAllAlong(a, b, steps, more);
    }
  }

  // ------------------------------------------------- delivery cannot be put off

  ghost predicate WorksAll(a: seq<Byte>, b: seq<Byte>, steps: seq<Step>) {
    forall i :: 0 <= i < |steps| ==> Works(Run(a, b, steps[..i]), steps[i])
  }

  /** How many steps changed anything, and how many reported want of room. */
  ghost function Effective(a: seq<Byte>, b: seq<Byte>, steps: seq<Step>): nat {
    if steps == [] then
      0
    else
      Effective(a, b, steps[..|steps| - 1]) + if Run(a, b, steps) != Run(a, b, steps[..|steps| - 1]) then 1 else 0
  }

  function Waited(steps: seq<Step>): nat {
    if steps == [] then 0 else Waited(steps[..|steps| - 1]) + if Waits(steps[|steps| - 1]) then 1 else 0
  }

  lemma {:induction false} WorkIsBounded(a: seq<Byte>, b: seq<Byte>, steps: seq<Step>)
    requires WorksAll(a, b, steps)
    ensures AllIntact(Run(a, b, steps))
    ensures LeftAll(Run(a, b, steps)) + Effective(a, b, steps) <= 24 * (|a| + |b|) + 18 + 6 * Waited(steps)
    decreases |steps|
  {
    if steps != [] {
      var before, s := steps[..|steps| - 1], steps[|steps| - 1];
      assert forall i :: 0 <= i < |before| ==> before[..i] == steps[..i] && before[i] == steps[i];
      WorkIsBounded(a, b, before);
      UringSafety(a, b, before);
      var m := Run(a, b, before);
      if m.status.Running? {
        WorkLeaves(m, s);
      }
    }
  }

  /** Over a working kernel, whatever the interleaving and however much it moves at a
      time: the relay does not fail, the number of steps that change anything is bounded
      but for those that report want of room, as long as the relay runs another such
      step is possible, and when it finishes it has delivered everything. */
  lemma WorkDelivers(a: seq<Byte>, b: seq<Byte>, steps: seq<Step>)
    requires WorksAll(a, b, steps)
    ensures var m := Run(a, b, steps);
            && Effective(a, b, steps) <= 24 * (|a| + |b|) + 18 + 6 * Waited(steps)
            && (m.status.Running? ==> exists s :: Works(m, s) && !Waits(s) && Next(m, s) != m)
            && (!m.status.Running? ==> m.status.Finished? && m.ab.delivered == a && m.ba.delivered == b)
  {
    var m := Run(a, b, steps);
    WorkIsBounded(a, b, steps);
    UringSafety(a, b, steps);
    SourcesStay(a, b, steps);
    if m.status.Running? {
      var s := CanWork(m);
    } else {
      FinishedIntact(m);
    }
  }
}
