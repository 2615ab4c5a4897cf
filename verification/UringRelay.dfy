/**
 The io_uring splice relay: two directions, each moving bytes socket -> pipe ->
 socket with asynchronous operations that the kernel completes in any order and
 with any result.

 A direction (`Chan`) has the relay's own counters and, beside them, what the
 kernel holds: the bytes still in the source socket, in the pipe, and delivered.
 A run is any interleaving of kernel completions with turns of the relay's loop.
 */
module UringRelay {
  import opened Bytes

  const RING_ENTRIES := 32
  const CQE_SLOTS := 16

  datatype Dir = AB | BA

  /** A splice: from the source into the pipe, or `len` bytes out of the pipe,
      behind a writability poll if `guarded`.  Splices in are always guarded. */
  datatype Kind = In | Out(len: nat, guarded: bool)

  datatype Res = Moved(n: nat) | Again | Canceled | Errno

  /** `Canceling`: the poll in front has failed, and the splice has yet to report
      that it was cancelled. */
  datatype Op =
    Idle | Queued(kind: Kind) | Submitted(kind: Kind) | Canceling(kind: Kind) | Completed(kind: Kind, res: Res)

  datatype Chan = Chan(
    // the relay's counters and flags
    inPipe: nat, eof: bool, pending: int, total: nat, shutdownDue: bool, halfClosed: bool,
    // the kernel's side
    op: Op, full: seq<Byte>, source: seq<Byte>, pipe: seq<Byte>, delivered: seq<Byte>)

  /** A completion: of the poll in front of a splice, or of the splice. */
  datatype Cqe = Cqe(dir: Dir, poll: bool, isIn: bool, res: Res)

  datatype Status = Running | Finished | FailedIo | TimedOut

  datatype Machine = Machine(ab: Chan, ba: Chan, cq: seq<Cqe>, sq: nat, status: Status) {
    function Get(d: Dir): Chan {
      if d.AB? then ab else ba
    }
    function Set(d: Dir, c: Chan): Machine {
      if d.AB? then this.(ab := c) else this.(ba := c)
    }
  }

  // --------------------------------------------------------------- the kernel

  /** What a submitted splice may report. */
  predicate Possible(c: Chan, res: Res) {
    || (c.op.Submitted? && (res.Moved? ==> if c.op.kind.In? then res.n <= |c.source| else res.n <= c.op.kind.len))
    || (c.op.Canceling? && res.Canceled?)
  }

  function Executed(c: Chan, res: Res): Chan
    requires Possible(c, res)
  {
    var d := c.(op := Completed(c.op.kind, res));
    if !res.Moved? then
      d
    else if c.op.kind.In? then
      d.(pipe := c.pipe + c.source[..res.n], source := c.source[res.n..])
    else if res.n <= |c.pipe| then
      d.(delivered := c.delivered + c.pipe[..res.n], pipe := c.pipe[res.n..])
    else
      d
  }

  // ------------------------------------------------------------ the relay's turn

  /** A direction after one completion, the submission slots it took, and whether
      the relay gives up. */
  datatype Handled = Handled(c: Chan, pushed: nat, failed: bool)

  function PushIn(c: Chan): Handled {
    Handled(c.(op := Queued(In), pending := c.pending + 1), 2, false)
  }

  function PushOut(c: Chan): Handled {
    Handled(c.(op := Queued(Out(c.inPipe, false)), pending := c.pending + 1), 1, false)
  }

  function PushOutGuarded(c: Chan): Handled {
    Handled(c.(op := Queued(Out(c.inPipe, true)), pending := c.pending + 1), 2, false)
  }

  function HandleIn(c0: Chan, res: Res): Handled {
    var c := c0.(pending := c0.pending - 1, op := Idle);
    if res == Moved(0) || res.Canceled? then
      Handled(c.(eof := true, shutdownDue := true), 0, false)
    else if !res.Moved? then
      Handled(c, 0, true)
    else
      PushOut(c.(inPipe := c.inPipe + res.n))
  }

  function HandleOut(c0: Chan, res: Res): Handled {
    var c := c0.(pending := c0.pending - 1, op := Idle);
    if res.Again? then
      PushOutGuarded(c)
    else if res.Moved? && res.n > 0 then
      var d := c.(inPipe := c.inPipe - Min(res.n, c.inPipe), total := c.total + res.n);
      if d.inPipe > 0 then PushOut(d) else if !d.eof then PushIn(d) else Handled(d, 0, false)
    else
      Handled(c.(eof := true), 0, false)
  }

  function Handle(m: Machine, e: Cqe): Machine {
    if e.poll || !m.status.Running? then
      m
    else
      var h := if e.isIn then HandleIn(m.Get(e.dir), e.res) else HandleOut(m.Get(e.dir), e.res);
      m.Set(e.dir, h.c).(sq := m.sq + h.pushed, status := if h.failed then FailedIo else Running)
  }

  function HandleAll(m: Machine, cqes: seq<Cqe>): Machine
    decreases |cqes|
  {
    if cqes == [] then m else HandleAll(Handle(m, cqes[0]), cqes[1..])
  }

  function HalfClose(c: Chan): Chan {
    if c.shutdownDue then c.(shutdownDue := false, halfClosed := true) else c
  }

  function Submit(c: Chan): Chan {
    if c.op.Queued? then c.(op := Submitted(c.op.kind)) else c
  }

  function IsDone(m: Machine): bool {
    m.ab.eof && m.ba.eof && m.ab.pending == 0 && m.ba.pending == 0
  }

  /** The end of a turn: deferred half-closes, the exit test, submission. */
  function EndTurn(m: Machine): Machine {
    if !m.status.Running? then
      m
    else
      var closed := m.(ab := HalfClose(m.ab), ba := HalfClose(m.ba));
      if IsDone(closed) then
        closed.(status := Finished)
      else
        closed.(ab := Submit(closed.ab), ba := Submit(closed.ba), sq := 0)
  }

  function Turn(m: Machine): Machine {
    EndTurn(HandleAll(m.(cq := []), m.cq))
  }

  // --------------------------------------------------------------------- runs

  datatype Step = Complete(dir: Dir, res: Res) | PollFails(dir: Dir) | TakeTurn | Expire

  /** One step; a step that cannot happen leaves the machine as it is. */
  function Next(m: Machine, s: Step): Machine {
    if !m.status.Running? then
      m
    else
      match s
      case Complete(dir, res) =>
        var c := m.Get(dir);
        if Possible(c, res) then
          m.Set(dir, Executed(c, res)).(cq := m.cq + [Cqe(dir, false, c.op.kind.In?, res)])
        else
          m
      case PollFails(dir) =>
        var c := m.Get(dir);
        if c.op.Submitted? && (c.op.kind.In? || c.op.kind.guarded) then
          m.Set(dir, c.(op := Canceling(c.op.kind))).(cq := m.cq + [Cqe(dir, true, c.op.kind.In?, Errno)])
        else
          m
      case TakeTurn => Turn(m)
      case Expire => if m.ab.eof || m.ba.eof then m.(status := TimedOut) else m
  }

  function NewChan(full: seq<Byte>): Chan {
    Chan(0, false, 1, 0, false, false, Submitted(In), full, full, [], [])
  }

  function Run(a: seq<Byte>, b: seq<Byte>, steps: seq<Step>): Machine {
    if steps == [] then
      Machine(NewChan(a), NewChan(b), [], 0, Running)
    else
      Next(Run(a, b, steps[..|steps| - 1]), steps[|steps| - 1])
  }

  // -------------------------------------------------------------- the invariant

  /** Bytes the kernel has moved that the relay has not been told of yet. */
  function UntoldIn(c: Chan): nat {
    if c.op.Completed? && c.op.kind.In? && c.op.res.Moved? then c.op.res.n else 0
  }

  function UntoldOut(c: Chan): nat {
    if c.op.Completed? && c.op.kind.Out? && c.op.res.Moved? then c.op.res.n else 0
  }

  /** What every direction keeps, whatever completes and however the run ends:
      nothing is lost, duplicated or reordered; what is delivered is a prefix of
      the source; the counters are what the kernel did, up to the one completion
      not yet handled; the destination is half-closed only with the pipe empty. */
  predicate Conserves(c: Chan) {
    && c.full == c.delivered + c.pipe + c.source
    && c.inPipe + UntoldIn(c) == |c.pipe| + UntoldOut(c)
    && c.total + UntoldOut(c) == |c.delivered|
    && (c.shutdownDue || c.halfClosed ==> c.eof && c.pipe == [])
    && 0 <= c.pending <= 1
  }

  /** And while the relay runs: one splice is outstanding, or the direction has
      ended; a splice in finds the pipe empty, a splice out asks for all of it. */
  predicate Drives(c: Chan) {
    && Conserves(c)
    && c.pending == (if c.op.Idle? then 0 else 1)
    && c.eof == c.op.Idle?
    && (!c.op.Idle? && c.op.kind.In? ==> c.inPipe == 0)
    && (!c.op.Idle? && c.op.kind.Out? ==> c.op.kind.len == c.inPipe > 0)
    && (c.op.Completed? && c.op.res.Moved? && c.op.kind.Out? ==> c.op.res.n <= c.op.kind.len)
    && (c.eof && !c.shutdownDue && !c.halfClosed ==> c.pipe != [])
  }

  /** At most a poll and then a splice wait for each direction, and the splice is
      the outstanding one. */
  predicate Waiting(m: Machine, cq: seq<Cqe>) {
    && (forall i, j :: 0 <= i < j < |cq| && cq[i].dir == cq[j].dir ==> cq[i].poll && !cq[j].poll)
    && (forall i :: 0 <= i < |cq| ==>
          var op := m.Get(cq[i].dir).op;
          if cq[i].poll then op.Canceling? || op.Completed?
          else op.Completed? && op.res == cq[i].res && op.kind.In? == cq[i].isIn)
  }

  predicate HasSplice(cq: seq<Cqe>, d: Dir) {
    exists i :: 0 <= i < |cq| && cq[i].dir == d && !cq[i].poll
  }

  /** No completion is lost: what the kernel has finished waits to be handled. */
  predicate Told(m: Machine, cq: seq<Cqe>) {
    && (m.ab.op.Completed? ==> HasSplice(cq, AB))
    && (m.ba.op.Completed? ==> HasSplice(cq, BA))
  }

  /** A poll and a splice, or a splice alone. */
  function SlotsOf(c: Chan): nat {
    if !c.op.Queued? then 0 else if c.op.kind.Out? && !c.op.kind.guarded then 1 else 2
  }

  predicate Slots(m: Machine) {
    m.sq == SlotsOf(m.ab) + SlotsOf(m.ba)
  }

  predicate Inv(m: Machine, cq: seq<Cqe>) {
    Drives(m.ab) && Drives(m.ba) && Waiting(m, cq) && Told(m, cq) && Slots(m)
  }

  // ---------------------------------------------------------------- kernel steps

  lemma ExecutedIn(c: Chan, n: nat)
    requires Drives(c) && c.op == Submitted(In) && n <= |c.source|
    ensures Drives(Executed(c, Moved(n)))
  {
    assert c.source == c.source[..n] + c.source[n..];
    assert c.delivered + c.pipe + c.source == c.delivered + (c.pipe + c.source[..n]) + c.source[n..];
  }

  lemma ExecutedOut(c: Chan, n: nat)
    requires Drives(c) && c.op.Submitted? && c.op.kind.Out? && n <= c.op.kind.len
    ensures Drives(Executed(c, Moved(n)))
  {
    assert c.pipe == c.pipe[..n] + c.pipe[n..];
    assert c.delivered + c.pipe + c.source == (c.delivered + c.pipe[..n]) + c.pipe[n..] + c.source;
  }

  lemma ExecutedKeeps(c: Chan, res: Res)
    requires Drives(c) && Possible(c, res)
    ensures Drives(Executed(c, res))
  {
    if res.Moved? {
      if c.op.kind.In? {
        ExecutedIn(c, res.n);
      } else {
        ExecutedOut(c, res.n);
      }
    }
  }

  lemma HasSpliceMore(a: seq<Cqe>, b: seq<Cqe>, d: Dir)
    ensures HasSplice(a, d) || HasSplice(b, d) ==> HasSplice(a + b, d)
  {
    if HasSplice(a, d) {
      var i :| 0 <= i < |a| && a[i].dir == d && !a[i].poll;
      assert (a + b)[i] == a[i];
    } else if HasSplice(b, d) {
      var i :| 0 <= i < |b| && b[i].dir == d && !b[i].poll;
      assert (a + b)[|a| + i] == b[i];
    }
  }

  /** A completion joins the queue. */
  lemma WaitingMore(m: Machine, n: Machine, e: Cqe)
    requires Waiting(m, m.cq) && Told(m, m.cq)
    requires forall d: Dir :: d != e.dir ==> n.Get(d) == m.Get(d)
    requires var before, after := m.Get(e.dir).op, n.Get(e.dir).op;
             if e.poll then before.Submitted? && after.Canceling?
             else (before.Submitted? || before.Canceling?) && after.Completed? && after.res == e.res
                  && after.kind.In? == e.isIn
    ensures Waiting(n, m.cq + [e]) && Told(n, m.cq + [e])
  {
    assert n.Get(AB) == n.ab && n.Get(BA) == n.ba;
    assert !e.poll ==> [e][0].dir == e.dir && HasSplice([e], e.dir);
    HasSpliceMore(m.cq, [e], AB);
    HasSpliceMore(m.cq, [e], BA);
    assert forall i :: 0 <= i < |m.cq| && m.cq[i].dir == e.dir ==> m.cq[i].poll && !e.poll;
  }

  lemma CompleteKeeps(m: Machine, dir: Dir, res: Res)
    requires Inv(m, m.cq) && m.status.Running? && Possible(m.Get(dir), res)
    ensures var n := Next(m, Complete(dir, res)); Inv(n, n.cq)
  {
    var c := m.Get(dir);
    ExecutedKeeps(c, res);
    WaitingMore(m, Next(m, Complete(dir, res)), Cqe(dir, false, c.op.kind.In?, res));
  }

  lemma PollFailsKeeps(m: Machine, dir: Dir)
    requires Inv(m, m.cq) && m.status.Running?
    ensures var n := Next(m, PollFails(dir)); Inv(n, n.cq)
  {
    var c := m.Get(dir);
    var n := Next(m, PollFails(dir));
    if n != m {
      WaitingMore(m, n, Cqe(dir, true, c.op.kind.In?, Errno));
    }
  }

  // ----------------------------------------------------------- the relay's turn

  /** Handling its own completion, a direction ends or queues exactly one more
      splice. */
  lemma HandleInKeeps(c: Chan)
    requires Drives(c) && c.op.Completed? && c.op.kind.In?
    ensures var h := HandleIn(c, c.op.res);
            && Conserves(h.c)
            && (!h.failed ==> Drives(h.c) && h.pushed == SlotsOf(h.c) && !h.c.op.Completed?)
            && (h.failed ==> h.pushed == 0)
  {
  }

  lemma HandleOutKeeps(c: Chan)
    requires Drives(c) && c.op.Completed? && c.op.kind.Out?
    ensures var h := HandleOut(c, c.op.res);
            && Drives(h.c) && !h.failed
            && h.pushed == SlotsOf(h.c) && !h.c.op.Completed?
  {
  }

  lemma HasSpliceLess(cqes: seq<Cqe>, d: Dir)
    requires cqes != [] && HasSplice(cqes, d)
    ensures (!cqes[0].poll && cqes[0].dir == d) || HasSplice(cqes[1..], d)
  {
    var i :| 0 <= i < |cqes| && cqes[i].dir == d && !cqes[i].poll;
    if i > 0 {
      assert cqes[1..][i - 1] == cqes[i];
    }
  }

  /** A handled completion leaves the queue. */
  lemma WaitingLess(m: Machine, n: Machine, cqes: seq<Cqe>)
    requires Waiting(m, cqes) && cqes != []
    requires forall d: Dir :: cqes[0].poll || d != cqes[0].dir ==> n.Get(d) == m.Get(d)
    requires Told(m, cqes) && (!cqes[0].poll ==> !n.Get(cqes[0].dir).op.Completed?)
    ensures Waiting(n, cqes[1..]) && Told(n, cqes[1..])
  {
    var rest := cqes[1..];
    assert n.Get(AB) == n.ab && n.Get(BA) == n.ba;
    if HasSplice(cqes, AB) {
      HasSpliceLess(cqes, AB);
    }
    if HasSplice(cqes, BA) {
      HasSpliceLess(cqes, BA);
    }
    assert forall i :: 0 <= i < |rest| ==> rest[i] == cqes[i + 1];
    if !cqes[0].poll {
      assert forall i :: 0 <= i < |rest| ==> rest[i].dir != cqes[0].dir;
    }
  }

  /** A direction that has been handled takes its place. */
  lemma HandledKeeps(m: Machine, d: Dir, h: Handled)
    requires Drives(m.ab) && Drives(m.ba) && Slots(m) && m.Get(d).op.Completed? && Conserves(h.c)
    requires if h.failed then h.pushed == 0
             else Drives(h.c) && h.pushed == SlotsOf(h.c) && !h.c.op.Completed?
    ensures var n := m.Set(d, h.c).(sq := m.sq + h.pushed);
            && Conserves(n.ab) && Conserves(n.ba) && n.sq <= 4
            && (!h.failed ==> Drives(n.ab) && Drives(n.ba) && Slots(n) && !n.Get(d).op.Completed?)
  {
  }

  lemma SpliceKeeps(m: Machine, cqes: seq<Cqe>)
    requires Inv(m, cqes) && m.status.Running? && cqes != [] && !cqes[0].poll
    ensures var n := Handle(m, cqes[0]);
            && Conserves(n.ab) && Conserves(n.ba) && n.sq <= 4
            && (n.status.Running? || n.status.FailedIo?)
            && (n.status.Running? ==>
                  Drives(n.ab) && Drives(n.ba) && Slots(n) && !n.Get(cqes[0].dir).op.Completed?)
  {
    var c := m.Get(cqes[0].dir);
    if cqes[0].isIn {
      HandleInKeeps(c);
      HandledKeeps(m, cqes[0].dir, HandleIn(c, c.op.res));
    } else {
      HandleOutKeeps(c);
      HandledKeeps(m, cqes[0].dir, HandleOut(c, c.op.res));
    }
  }

  lemma HandleKeeps(m: Machine, cqes: seq<Cqe>)
    requires Inv(m, cqes) && m.status.Running? && cqes != []
    ensures var n := Handle(m, cqes[0]);
            && (n.status.Running? ==> Inv(n, cqes[1..]))
            && (n.status.FailedIo? ==> Conserves(n.ab) && Conserves(n.ba) && n.sq <= 4)
            && (n.status.Running? || n.status.FailedIo?)
  {
    var n := Handle(m, cqes[0]);
    if !cqes[0].poll {
      SpliceKeeps(m, cqes);
    }
    if n.status.Running? {
      WaitingLess(m, n, cqes);
    }
  }

  /** What may hold after any part of a batch. */
  predicate AfterBatch(m: Machine) {
    && m.sq <= 4
    && Conserves(m.ab) && Conserves(m.ba)
    && (m.status.Running? ==> Inv(m, []))
    && (m.status.Running? || m.status.FailedIo?)
  }

  lemma {:induction false} StoppedStays(m: Machine, cqes: seq<Cqe>)
    requires !m.status.Running?
    ensures HandleAll(m, cqes) == m
    decreases |cqes|
  {
    if cqes != [] {
      StoppedStays(m, cqes[1..]);
    }
  }

  lemma {:induction false} HandleAllKeeps(m: Machine, cqes: seq<Cqe>)
    requires Inv(m, cqes) && m.status.Running?
    ensures AfterBatch(HandleAll(m, cqes))
    decreases |cqes|
  {
    if cqes != [] {
      HandleKeeps(m, cqes);
      var n := Handle(m, cqes[0]);
      if n.status.Running? {
        HandleAllKeeps(n, cqes[1..]);
      } else {
        StoppedStays(n, cqes[1..]);
      }
    }
  }

  /** Of any five completions, three are of one direction. */
  lemma ThreeAgree(cq: seq<Cqe>) returns (i: nat, j: nat, k: nat)
    requires |cq| >= 5
    ensures i < j < k < 5 && cq[i].dir == cq[j].dir == cq[k].dir
  {
    var first := cq[0].dir;
    if cq[1].dir == first {
      i, j := 0, 1;
      if cq[2].dir == first { return 0, 1, 2; }
      if cq[3].dir == first { return 0, 1, 3; }
      if cq[4].dir == first { return 0, 1, 4; }
      return 2, 3, 4;
    }
    if cq[2].dir == first {
      if cq[3].dir == first { return 0, 2, 3; }
      if cq[4].dir == first { return 0, 2, 4; }
      return 1, 3, 4;
    }
    if cq[3].dir == first && cq[4].dir == first { return 0, 3, 4; }
    if cq[3].dir == first { return 1, 2, 4; }
    return 1, 2, 3;
  }

  /** At most four completions wait at any time. */
  lemma FourWait(m: Machine, cq: seq<Cqe>)
    requires Waiting(m, cq)
    ensures |cq| <= 4
  {
    if |cq| >= 5 {
      var i, j, k := ThreeAgree(cq);
      assert false;
    }
  }

  /** What holds of every state of every run. */
  predicate Safe(m: Machine) {
    && Conserves(m.ab) && Conserves(m.ba)
    && |m.cq| <= 4
    && (m.status.Running? ==> Inv(m, m.cq) && m.sq == 0 && Moving(m))
    && (m.status.Finished? ==> Ended(m.ab) && Ended(m.ba))
  }

  /** Nothing is left to submit or to half-close, and the relay is not done. */
  predicate Moving(m: Machine) {
    !m.ab.op.Queued? && !m.ba.op.Queued? && !m.ab.shutdownDue && !m.ba.shutdownDue && !IsDone(m)
  }

  /** A direction that goes on: the kernel has its splice, or a completion of it
      waits to be handled. */
  predicate UnderWay(m: Machine, d: Dir) {
    var op := m.Get(d).op;
    op.Submitted? || op.Canceling? || (op.Completed? && HasSplice(m.cq, d))
  }

  /** The relay cannot hang by itself: at every point of every run, while it runs,
      some direction has not ended, and each that has not is under way. */
  lemma NeverStuck(a: seq<Byte>, b: seq<Byte>, steps: seq<Step>)
    ensures var m := Run(a, b, steps);
            m.status.Running? ==>
              && m.sq == 0 && !(m.ab.eof && m.ba.eof)
              && (forall d: Dir :: !m.Get(d).eof ==> UnderWay(m, d))
  {
    UringSafety(a, b, steps);
    var m := Run(a, b, steps);
    assert m.Get(AB) == m.ab && m.Get(BA) == m.ba;
  }

  /** A direction that ended while the relay was still running. */
  predicate Ended(c: Chan) {
    && c.eof && c.op.Idle?
    && c.total == |c.delivered|
    && (c.halfClosed <==> c.pipe == [])
  }

  lemma EndTurnKeeps(c: Chan)
    requires Drives(c) && !c.op.Completed?
    ensures Drives(HalfClose(c)) && Drives(Submit(HalfClose(c)))
    ensures HalfClose(c).eof ==> Ended(HalfClose(c))
  {
  }

  lemma EndTurnSafe(m: Machine)
    requires AfterBatch(m) && m.cq == []
    requires m.status.Running? ==> !m.ab.op.Completed? && !m.ba.op.Completed?
    ensures Safe(EndTurn(m))
  {
    if m.status.Running? {
      EndTurnKeeps(m.ab);
      EndTurnKeeps(m.ba);
    }
  }

  lemma TurnSafe(m: Machine)
    requires Safe(m) && m.status.Running?
    ensures Safe(Turn(m)) && HandleAll(m.(cq := []), m.cq).sq <= 4
  {
    var start := m.(cq := []);
    HandleAllKeeps(start, m.cq);
    BatchLeavesQueue(start, m.cq);
    EndTurnSafe(HandleAll(start, m.cq));
  }

  lemma {:induction false} BatchLeavesQueue(m: Machine, cqes: seq<Cqe>)
    ensures HandleAll(m, cqes).cq == m.cq
    decreases |cqes|
  {
    if cqes != [] {
      BatchLeavesQueue(Handle(m, cqes[0]), cqes[1..]);
    }
  }

  lemma CompleteSafe(m: Machine, dir: Dir, res: Res)
    requires Safe(m) && m.status.Running? && Possible(m.Get(dir), res)
    ensures Safe(Next(m, Complete(dir, res)))
  {
    var n := Next(m, Complete(dir, res));
    CompleteKeeps(m, dir, res);
    FourWait(n, n.cq);
  }

  lemma PollFailsSafe(m: Machine, dir: Dir)
    requires Safe(m) && m.status.Running?
    ensures Safe(Next(m, PollFails(dir)))
  {
    var n := Next(m, PollFails(dir));
    PollFailsKeeps(m, dir);
    FourWait(n, n.cq);
  }

  lemma NextSafe(m: Machine, s: Step)
    requires Safe(m)
    ensures Safe(Next(m, s))
  {
    if m.status.Running? {
      match s {
        case Complete(dir, res) =>
          if Possible(m.Get(dir), res) {
            CompleteSafe(m, dir, res);
          }
        case PollFails(dir) => PollFailsSafe(m, dir);
        case TakeTurn => TurnSafe(m);
        case Expire =>
      }
    }
  }

  /** io_uring relay safety, over every interleaving of completions and turns and
      every result: each direction conserves its bytes in order and counts them,
      never has more than one splice outstanding nor a negative counter, and is
      half-closed only with its pipe empty; no more than four completions wait;
      and when the relay finishes, each direction has reported exactly what it
      delivered, and delivered everything it took unless its destination failed,
      in which case it was not half-closed. */
  lemma {:induction false} UringSafety(a: seq<Byte>, b: seq<Byte>, steps: seq<Step>)
    ensures Safe(Run(a, b, steps))
    ensures Run(a, b, steps).ab.delivered <= a && Run(a, b, steps).ba.delivered <= b
    decreases |steps|
  {
    if steps == [] {
      assert [] + [] + a == a && [] + [] + b == b;
    } else {
      UringSafety(a, b, steps[..|steps| - 1]);
      NextSafe(Run(a, b, steps[..|steps| - 1]), steps[|steps| - 1]);
    }
    SourcesStay(a, b, steps);
    var m := Run(a, b, steps);
    assert m.ab.full == m.ab.delivered + (m.ab.pipe + m.ab.source);
    assert m.ba.full == m.ba.delivered + (m.ba.pipe + m.ba.source);
  }

  lemma {:induction false} BatchKeepsSources(m: Machine, cqes: seq<Cqe>)
    ensures HandleAll(m, cqes).ab.full == m.ab.full && HandleAll(m, cqes).ba.full == m.ba.full
    decreases |cqes|
  {
    if cqes != [] {
      BatchKeepsSources(Handle(m, cqes[0]), cqes[1..]);
    }
  }

  lemma StepKeepsSources(m: Machine, s: Step)
    ensures Next(m, s).ab.full == m.ab.full && Next(m, s).ba.full == m.ba.full
  {
    if s.TakeTurn? {
      BatchKeepsSources(m.(cq := []), m.cq);
    }
  }

  lemma {:induction false} SourcesStay(a: seq<Byte>, b: seq<Byte>, steps: seq<Step>)
    ensures Run(a, b, steps).ab.full == a && Run(a, b, steps).ba.full == b
    decreases |steps|
  {
    if steps != [] {
      SourcesStay(a, b, steps[..|steps| - 1]);
      StepKeepsSources(Run(a, b, steps[..|steps| - 1]), steps[|steps| - 1]);
    }
  }

  // ------------------------------------------------------------ the loop itself

  class UringBidir {
    var m: Machine

    /** Copies the waiting completions into the fixed buffer.  None is dropped. */
    method Collect() returns (cqes: seq<Cqe>)
      requires |m.cq| <= CQE_SLOTS
      modifies this
      ensures cqes == old(m.cq) && m == old(m).(cq := [])
    {
      cqes := [];
      var i := 0;
      while i < |m.cq|
        invariant 0 <= i <= |m.cq| && m == old(m)
        invariant cqes == m.cq[..i]
      {
        if |cqes| < CQE_SLOTS {
          cqes := cqes + [m.cq[i]];
        }
        i := i + 1;
      }
      assert m.cq[..|m.cq|] == m.cq;
      m := m.(cq := []);
    }

    /** One turn of the event loop: collect the waiting completions, handle each,
        half-close, submit.  The submission ring is never full. */
    method TakeTurn()
      requires Safe(m) && m.status.Running?
      modifies this
      ensures m == Turn(old(m)) && Safe(m)
    {
      TurnSafe(m);
      var cqes := Collect();
      ghost var goal := HandleAll(m, cqes);
      ghost var rest := cqes;
      var i := 0;
      while i < |cqes|
        invariant 0 <= i <= |cqes| && rest == cqes[i..]
        invariant HandleAll(m, rest) == goal
        invariant m.status.Running? ==> Inv(m, rest)
        invariant m.sq <= 4 <= RING_ENTRIES
      {
        HandleOne(cqes[i], rest);
        rest := rest[1..];
        i := i + 1;
      }
      m := EndTurn(m);
    }

    method HandleOne(cqe: Cqe, ghost rest: seq<Cqe>)
      requires rest != [] && rest[0] == cqe && m.sq <= 4 && (m.status.Running? ==> Inv(m, rest))
      modifies this
      ensures m == Handle(old(m), cqe) && m.sq <= 4 && (m.status.Running? ==> Inv(m, rest[1..]))
    {
      if m.status.Running? {
        HandleKeeps(m, rest);
      }
      m := Handle(m, cqe);
    }
  }
}
