/**
 One direction of the v2 relay: write, flush, read, flush, shut down, once per
 poll, over a reader and a writer that may answer anything.

 Every call made on the reader or writer is kept in a log.  What the relay
 promises is said about the log alone: nothing is lost or reordered, nothing is
 read after end of stream, and shutdown comes only after everything read has
 been written and flushed.
 */
module RelayDirection {
  import opened Bytes
  import opened RelayBuffer

  datatype Policy = Immediate | Deferred | Adaptive

  datatype Answer = Done(n: nat) | NotYet | Error
  datatype ReadAnswer = Data(bytes: seq<Byte>) | NoData | ReadError

  /** How reader and writer answer during one poll.  `flush` answers the policy's
      own flush, `lastFlush` the one before shutdown, `slack` is the allocator. */
  datatype Env = Env(
    write: Answer, flush: Answer, read: ReadAnswer, slack: nat, lastFlush: Answer, shutdown: Answer)

  datatype IoCall =
    | Wrote(data: seq<Byte>) | WriteWaits
    | Flushed | FlushWaits
    | Got(data: seq<Byte>) | GotEof | ReadWaits
    | ShutDown | ShutdownWaits
    | Broke

  /** The fields of a direction. */
  datatype Dir = Dir(
    pending: Ring, scratch: nat, eof: bool, shutdown: bool, flushPending: bool,
    bytes: nat, readOps: nat, writeOps: nat, flushOps: nat, growEvents: nat)
  {
    predicate Done()
      requires pending.Valid()
    {
      eof && pending.Len() == 0 && shutdown
    }
  }

  /** A poll under way. */
  datatype Poll = Poll(d: Dir, log: seq<IoCall>, failed: bool, moved: bool, readWaited: bool) {
    function Log(c: IoCall): Poll {
      this.(log := log + [c])
    }
    function Fail(): Poll {
      this.(log := log + [Broke], failed := true)
    }
    predicate Valid() {
      d.pending.Valid()
    }
  }

  // ------------------------------------------------------------------ one poll

  /** The writer has taken `k` bytes. */
  function Accept(p: Policy, d: Dir, k: nat): Dir
    requires d.pending.Valid()
  {
    d.(pending := d.pending.Eat(k), bytes := d.bytes + k, writeOps := d.writeOps + 1,
       flushPending := d.flushPending || p != Deferred)
  }

  function WritePhase(p: Policy, a: Poll, e: Env): Poll
    requires a.Valid()
  {
    if a.d.pending.Len() == 0 then
      a
    else
      match e.write
      case NotYet => a.Log(WriteWaits)
      case Error => a.Fail()
      case Done(n) =>
        var k := Min(n, a.d.pending.Len());
        if k == 0 then
          a.Fail()
        else
          a.Log(Wrote(a.d.pending.Contents()[..k])).(d := Accept(p, a.d, k), moved := true)
  }

  function FlushNow(a: Poll, answer: Answer): Poll {
    match answer
    case NotYet => a.Log(FlushWaits)
    case Error => a.Fail()
    case Done(_) => a.Log(Flushed).(d := a.d.(flushPending := false, flushOps := a.d.flushOps + 1), moved := true)
  }

  function ImmediatePhase(p: Policy, a: Poll, e: Env): Poll
    requires a.Valid()
  {
    if !a.failed && p == Immediate && a.d.flushPending && a.d.pending.Len() == 0 then FlushNow(a, e.flush) else a
  }

  /** Grow buffer and scratch when a read filled the buffer to the brim. */
  function AfterRead(d: Dir, got: nat, asked: nat, slack: nat): (after: Dir)
    requires d.pending.Valid()
    ensures after.pending.Valid() && after.pending.Contents() == d.pending.Contents()
  {
    if got == asked && d.pending.Room() == 0 && d.pending.cap < d.pending.max then
      GrownKeeps(d.pending, slack);
      var bigger := d.pending.Grown(slack);
      d.(pending := bigger, growEvents := d.growEvents + 1, scratch := Min(2 * d.scratch, bigger.cap))
    else
      d
  }

  /** Bytes just read go into the buffer. */
  function Absorb(d: Dir, got: seq<Byte>, asked: nat, slack: nat): (after: Dir)
    requires d.pending.Valid() && |got| <= d.pending.Room()
    ensures after.pending.Valid() && after.pending.Contents() == d.pending.Contents() + got
  {
    PushAppends(d.pending, got);
    assert got[..|got|] == got;
    AfterRead(d.(pending := d.pending.Push(got), readOps := d.readOps + 1), |got|, asked, slack)
  }

  function ReadPhase(a: Poll, e: Env): Poll
    requires a.Valid()
  {
    if a.failed || a.d.eof || a.d.pending.Room() == 0 then
      a
    else
      var asked := Min(a.d.pending.Room(), a.d.scratch);
      match e.read
      case NoData => a.Log(ReadWaits).(readWaited := true)
      case ReadError => a.Fail()
      case Data(bytes) =>
        var got := bytes[..Min(|bytes|, asked)];
        if got == [] then
          a.Log(GotEof).(d := a.d.(eof := true), moved := true)
        else
          a.Log(Got(got)).(d := Absorb(a.d, got, asked, e.slack), moved := true)
  }

  function AdaptivePhase(p: Policy, a: Poll, e: Env): Poll
    requires a.Valid()
  {
    if !a.failed && p == Adaptive && a.d.flushPending && a.d.pending.Len() == 0 && (a.readWaited || a.d.eof)
    then FlushNow(a, e.flush) else a
  }

  function ShutNow(a: Poll, answer: Answer): Poll {
    match answer
    case NotYet => a.Log(ShutdownWaits)
    case Error => a.Fail()
    case Done(_) => a.Log(ShutDown).(d := a.d.(shutdown := true), moved := true)
  }

  function FinishPhase(p: Policy, a: Poll, e: Env): Poll
    requires a.Valid()
  {
    if a.failed || !a.d.eof || a.d.pending.Len() != 0 || a.d.shutdown then
      a
    else if a.d.flushPending || p == Deferred then
      var f := FlushNow(a, e.lastFlush);
      if e.lastFlush.Done? then ShutNow(f, e.shutdown) else f
    else
      ShutNow(a, e.shutdown)
  }

  lemma WriteValid(p: Policy, a: Poll, e: Env)
    requires a.Valid()
    ensures WritePhase(p, a, e).Valid()
  {
    if e.write.Done? {
      EatDrops(a.d.pending, Min(e.write.n, a.d.pending.Len()));
    }
  }

  lemma OtherPhasesValid(p: Policy, a: Poll, e: Env)
    requires a.Valid()
    ensures ImmediatePhase(p, a, e).Valid()
    ensures ReadPhase(a, e).Valid()
    ensures AdaptivePhase(p, a, e).Valid()
    ensures FinishPhase(p, a, e).Valid()
  {
  }

  function FirstHalf(p: Policy, d: Dir, log: seq<IoCall>, e: Env): (a: Poll)
    requires d.pending.Valid()
    ensures a.Valid()
  {
    var a0 := Poll(d, log, false, false, false);
    WriteValid(p, a0, e);
    var a1 := WritePhase(p, a0, e);
    OtherPhasesValid(p, a1, e);
    ImmediatePhase(p, a1, e)
  }

  function SecondHalf(p: Policy, a: Poll, e: Env): (b: Poll)
    requires a.Valid()
    ensures b.Valid()
  {
    OtherPhasesValid(p, a, e);
    var a1 := ReadPhase(a, e);
    OtherPhasesValid(p, a1, e);
    var a2 := AdaptivePhase(p, a1, e);
    OtherPhasesValid(p, a2, e);
    FinishPhase(p, a2, e)
  }

  /** poll_relay_direction. */
  function PollOnce(p: Policy, d: Dir, log: seq<IoCall>, e: Env): (a: Poll)
    requires d.pending.Valid()
    ensures a.Valid()
  {
    SecondHalf(p, FirstHalf(p, d, log, e), e)
  }

  // -------------------------------------------------------- reading off the log

  /** What a log says of the connection: the bytes written and received, whether
      everything written has been flushed, whether the source has ended and the
      sink has been shut down, whether every call was in order, and how many reads,
      writes and flushes succeeded. */
  datatype History = History(
    written: seq<Byte>, received: seq<Byte>, flushed: bool, eof: bool, shut: bool, proper: bool,
    readCount: nat, writeCount: nat, flushCount: nat)

  const Start := History([], [], true, false, false, true, 0, 0, 0)

  /** What may come next. */
  predicate Allowed(h: History, c: IoCall) {
    match c
    case Wrote(data) => data != [] && !h.shut && h.written + data <= h.received
    case Got(data) => data != [] && !h.eof
    case GotEof => !h.eof
    case ReadWaits => !h.eof
    case ShutDown => h.eof && h.written == h.received && h.flushed && !h.shut
    case ShutdownWaits => h.eof && h.written == h.received && h.flushed && !h.shut
    case _ => true
  }

  function Note(h: History, c: IoCall): History {
    History(
      if c.Wrote? then h.written + c.data else h.written,
      if c.Got? then h.received + c.data else h.received,
      c.Flushed? || (!c.Wrote? && h.flushed),
      h.eof || c.GotEof?,
      h.shut || c.ShutDown?,
      h.proper && Allowed(h, c),
      h.readCount + (if c.Got? then 1 else 0),
      h.writeCount + (if c.Wrote? then 1 else 0),
      h.flushCount + (if c.Flushed? then 1 else 0))
  }

  function Recall(log: seq<IoCall>): History {
    if log == [] then Start else Note(Recall(log[..|log| - 1]), log[|log| - 1])
  }

  lemma Recalled(log: seq<IoCall>, c: IoCall)
    ensures Recall(log + [c]) == Note(Recall(log), c)
  {
    assert (log + [c])[..|log|] == log;
  }

  // --------------------------------------------------------------- the invariant

  ghost predicate Agrees(p: Policy, d: Dir, h: History) {
    && d.pending.Valid()
    && 1 <= d.scratch <= d.pending.cap
    && h.received == h.written + d.pending.Contents()
    && d.bytes == |h.written|
    && d.eof == h.eof
    && d.shutdown == h.shut
    && (d.shutdown ==> d.eof && d.pending.Len() == 0)
    && (p != Deferred && !d.flushPending ==> h.flushed)
    && d.readOps == h.readCount && d.writeOps == h.writeCount && d.flushOps == h.flushCount
    && (d.pending.Room() == 0 ==> d.pending.cap >= d.pending.max)
    && h.proper
  }

  ghost predicate Inv(p: Policy, d: Dir, log: seq<IoCall>) {
    Agrees(p, d, Recall(log))
  }

  /** A call that moves no bytes. */
  lemma QuietKeeps(p: Policy, d: Dir, log: seq<IoCall>, c: IoCall)
    requires Inv(p, d, log)
    requires c.WriteWaits? || c.FlushWaits? || c.Broke? || (c.ReadWaits? && !d.eof)
    ensures Inv(p, d, log + [c])
  {
    Recalled(log, c);
  }

  lemma SplitHeld(written: seq<Byte>, held: seq<Byte>, k: nat)
    requires k <= |held|
    ensures (written + held[..k]) + held[k..] == written + held
    ensures written + held[..k] <= written + held
  {
    assert held == held[..k] + held[k..];
    Associate(written, held[..k], held[k..]);
  }

  lemma WroteKeeps(p: Policy, d: Dir, log: seq<IoCall>, k: nat)
    requires Inv(p, d, log) && 0 < k <= d.pending.Len()
    ensures Inv(p, Accept(p, d, k), log + [Wrote(d.pending.Contents()[..k])])
  {
    var held := d.pending.Contents();
    EatDrops(d.pending, k);
    Recalled(log, Wrote(held[..k]));
    SplitHeld(Recall(log).written, held, k);
  }

  lemma WriteKeeps(p: Policy, a: Poll, e: Env)
    requires Inv(p, a.d, a.log) && !a.failed
    ensures var b := WritePhase(p, a, e); Inv(p, b.d, b.log)
  {
    if a.d.pending.Len() != 0 {
      if e.write.NotYet? {
        QuietKeeps(p, a.d, a.log, WriteWaits);
      } else if e.write.Error? || e.write.n == 0 {
        QuietKeeps(p, a.d, a.log, Broke);
      } else {
        WroteKeeps(p, a.d, a.log, Min(e.write.n, a.d.pending.Len()));
      }
    }
  }

  lemma FlushKeeps(p: Policy, a: Poll, answer: Answer)
    requires Inv(p, a.d, a.log)
    ensures var b := FlushNow(a, answer); Inv(p, b.d, b.log) && (answer.Done? ==> Recall(b.log).flushed)
  {
    QuietKeeps(p, a.d, a.log, FlushWaits);
    QuietKeeps(p, a.d, a.log, Broke);
    Recalled(a.log, Flushed);
  }

  /** The relay's own assertion, that all it read fits the buffer, always holds,
      and the scratch buffer never shrinks. */
  lemma ReadFits(d: Dir, got: seq<Byte>, asked: nat, slack: nat)
    requires d.pending.Valid() && 1 <= d.scratch <= d.pending.cap
    requires |got| <= asked == Min(d.pending.Room(), d.scratch)
    ensures Min(|got|, d.pending.Room()) == |got|
    ensures d.scratch <= Absorb(d, got, asked, slack).scratch <= Absorb(d, got, asked, slack).pending.cap
  {
    PushAppends(d.pending, got);
    GrownKeeps(d.pending.Push(got), slack);
  }

  /** A read makes the buffer grow exactly when it fills it below its largest size: to
      at least twice the size, or the largest, with a scratch buffer of twice the size,
      or that of the buffer.  Otherwise all sizes stay. */
  lemma GrowsIff(d: Dir, got: seq<Byte>, slack: nat)
    requires d.pending.Valid() && 0 < |got| <= Min(d.pending.Room(), d.scratch)
    ensures var after := Absorb(d, got, Min(d.pending.Room(), d.scratch), slack);
            if |got| == d.pending.Room() && d.pending.cap < d.pending.max then
              && after.growEvents == d.growEvents + 1
              && (after.pending.cap >= 2 * d.pending.cap || after.pending.cap >= d.pending.max)
              && after.scratch == Min(2 * d.scratch, after.pending.cap)
            else
              after.growEvents == d.growEvents && after.pending.cap == d.pending.cap && after.scratch == d.scratch
  {
    PushAppends(d.pending, got);
    GrownKeeps(d.pending.Push(got), slack);
  }

  lemma GotKeeps(p: Policy, d: Dir, log: seq<IoCall>, got: seq<Byte>, asked: nat, slack: nat)
    requires Inv(p, d, log) && !d.eof && 0 < |got| <= asked == Min(d.pending.Room(), d.scratch)
    ensures Inv(p, Absorb(d, got, asked, slack), log + [Got(got)])
  {
    ReadFits(d, got, asked, slack);
    Recalled(log, Got(got));
    Associate(Recall(log).written, d.pending.Contents(), got);
  }

  lemma ReadKeeps(p: Policy, a: Poll, e: Env)
    requires Inv(p, a.d, a.log)
    ensures var b := ReadPhase(a, e); Inv(p, b.d, b.log)
  {
    if !a.failed && !a.d.eof && a.d.pending.Room() > 0 {
      match e.read {
        case NoData => QuietKeeps(p, a.d, a.log, ReadWaits);
        case ReadError => QuietKeeps(p, a.d, a.log, Broke);
        case Data(bytes) =>
          var asked := Min(a.d.pending.Room(), a.d.scratch);
          var got := bytes[..Min(|bytes|, asked)];
          if got == [] {
            Recalled(a.log, GotEof);
          } else {
            GotKeeps(p, a.d, a.log, got, asked, e.slack);
          }
      }
    }
  }

  lemma ShutKeeps(p: Policy, a: Poll, answer: Answer)
    requires Inv(p, a.d, a.log) && a.d.eof && a.d.pending.Len() == 0 && !a.d.shutdown && Recall(a.log).flushed
    ensures var b := ShutNow(a, answer); Inv(p, b.d, b.log)
  {
    match answer {
      case NotYet => Recalled(a.log, ShutdownWaits);
      case Error => QuietKeeps(p, a.d, a.log, Broke);
      case Done(_) => Recalled(a.log, ShutDown);
    }
  }

  lemma FinishKeeps(p: Policy, a: Poll, e: Env)
    requires Inv(p, a.d, a.log)
    ensures var b := FinishPhase(p, a, e); Inv(p, b.d, b.log)
  {
    if !a.failed && a.d.eof && a.d.pending.Len() == 0 && !a.d.shutdown {
      if a.d.flushPending || p == Deferred {
        FlushKeeps(p, a, e.lastFlush);
        if e.lastFlush.Done? {
          ShutKeeps(p, FlushNow(a, e.lastFlush), e.shutdown);
        }
      } else {
        ShutKeeps(p, a, e.shutdown);
      }
    }
  }

  lemma PollKeeps(p: Policy, d: Dir, log: seq<IoCall>, e: Env)
    requires Inv(p, d, log)
    ensures var a := PollOnce(p, d, log, e); Inv(p, a.d, a.log)
  {
    var a0 := Poll(d, log, false, false, false);
    WriteKeeps(p, a0, e);
    var a1 := WritePhase(p, a0, e);
    FlushKeeps(p, a1, e.flush);
    var a2 := ImmediatePhase(p, a1, e);
    ReadKeeps(p, a2, e);
    var a3 := ReadPhase(a2, e);
    FlushKeeps(p, a3, e.flush);
    var a4 := AdaptivePhase(p, a3, e);
    FinishKeeps(p, a4, e);
  }

  // ----------------------------------------------------------------- whole runs

  datatype Options = Options(initial: nat, max: nat, slack: nat)

  function NewDir(o: Options): (d: Dir)
    ensures d.pending.Valid()
  {
    var initial := Max(o.initial, 1);
    Dir(Ring([], 0, initial + o.slack, Max(o.max, initial)), initial, false, false, false, 0, 0, 0, 0, 0)
  }

  /** Polls in a row; an error ends the relay. */
  function PollAll(p: Policy, o: Options, envs: seq<Env>): (a: Poll)
    ensures a.Valid()
  {
    if envs == [] then
      Poll(NewDir(o), [], false, false, false)
    else
      var a := PollAll(p, o, envs[..|envs| - 1]);
      if a.failed then a else PollOnce(p, a.d, a.log, envs[|envs| - 1])
  }

  lemma {:induction false} RunKeeps(p: Policy, o: Options, envs: seq<Env>)
    ensures var a := PollAll(p, o, envs); Inv(p, a.d, a.log)
    decreases |envs|
  {
    if envs != [] {
      var before := envs[..|envs| - 1];
      RunKeeps(p, o, before);
      var a := PollAll(p, o, before);
      if !a.failed {
        PollKeeps(p, a.d, a.log, envs[|envs| - 1]);
      }
    }
  }

  /** Direction safety, over every sequence of polls, every policy and every
      answer of reader, writer and allocator: what was written, followed by what
      is buffered, is what was received; the counters are the bytes written and the
      reads, writes and flushes that succeeded; the buffer is full only once it has
      its largest size; every call on reader and writer was in order; and a finished
      direction has delivered and flushed everything up to the end of its source. */
  lemma DirectionSafety(p: Policy, o: Options, envs: seq<Env>)
    ensures var a := PollAll(p, o, envs);
            var h := Recall(a.log);
            && h.received == h.written + a.d.pending.Contents()
            && a.d.bytes == |h.written|
            && a.d.readOps == h.readCount && a.d.writeOps == h.writeCount && a.d.flushOps == h.flushCount
            && (a.d.pending.Room() == 0 ==> a.d.pending.cap >= a.d.pending.max)
            && h.proper
            && (a.d.Done() ==> h.eof && h.written == h.received && h.shut)
  {
    RunKeeps(p, o, envs);
    var a := PollAll(p, o, envs);
    if a.d.Done() {
      assert Recall(a.log).written + [] == Recall(a.log).written;
    }
  }

  // ------------------------------------------------------------- no lost wakeup

  predicate Waits(c: IoCall) {
    c.WriteWaits? || c.FlushWaits? || c.ReadWaits? || c.ShutdownWaits?
  }

  predicate Advances(c: IoCall) {
    c.Wrote? || c.Flushed? || c.Got? || c.GotEof? || c.ShutDown?
  }

  predicate WriteRefused(c: IoCall) {
    c.WriteWaits?
  }

  predicate ReadRefused(c: IoCall) {
    c.ReadWaits?
  }

  predicate EndRefused(c: IoCall) {
    c.FlushWaits? || c.ShutdownWaits?
  }

  ghost predicate Since(log: seq<IoCall>, from: nat, which: IoCall -> bool) {
    exists i :: from <= i < |log| && which(log[i])
  }

  /** Nothing has advanced since. */
  ghost predicate Still(log: seq<IoCall>, from: nat) {
    forall i :: from <= i < |log| ==> !Advances(log[i])
  }

  /** Everything that could make the direction go on has refused: its writer while
      bytes are pending, its reader while there is room and no end, and the flush or
      shutdown at the end. */
  ghost predicate Refused(d: Dir, log: seq<IoCall>, from: nat)
    requires d.pending.Valid()
  {
    && (d.pending.Len() > 0 ==> Since(log, from, WriteRefused))
    && (!d.eof && d.pending.Room() > 0 ==> Since(log, from, ReadRefused))
    && (d.eof && d.pending.Len() == 0 && !d.shutdown ==> Since(log, from, EndRefused))
  }

  /** So, unless it is finished, some wakeup is registered. */
  lemma RefusedWaits(d: Dir, log: seq<IoCall>, from: nat)
    requires d.pending.Valid() && Refused(d, log, from) && !d.Done()
    ensures Since(log, from, Waits)
  {
    if d.pending.Len() > 0 {
      var i :| from <= i < |log| && WriteRefused(log[i]);
      assert Waits(log[i]);
    } else if !d.eof {
      assert d.pending.Room() > 0;
      var i :| from <= i < |log| && ReadRefused(log[i]);
      assert Waits(log[i]);
    } else {
      var i :| from <= i < |log| && EndRefused(log[i]);
      assert Waits(log[i]);
    }
  }

  /** How a phase may change a poll: it only adds to the log, it reports movement
      exactly when something advanced, and without movement the fields stay. */
  ghost predicate Grew(a: Poll, b: Poll, from: nat) {
    && from <= |a.log| && a.log <= b.log
    && (a.moved ==> b.moved)
    && ((a.moved ==> Since(a.log, from, Advances)) ==> (b.moved ==> Since(b.log, from, Advances)))
    && (!b.moved ==> b.d == a.d && (Still(a.log, from) ==> Still(b.log, from)))
  }

  lemma SinceStays(a: seq<IoCall>, b: seq<IoCall>, from: nat, which: IoCall -> bool)
    requires a <= b && Since(a, from, which)
    ensures Since(b, from, which)
  {
    var i :| from <= i < |a| && which(a[i]);
    assert b[i] == a[i];
  }

  /** One logged call. */
  lemma OneCall(a: Poll, b: Poll, from: nat)
    requires from <= |a.log| && |b.log| == |a.log| + 1 && a.log <= b.log
    requires b.moved == (a.moved || Advances(b.log[|a.log|]))
    requires !Advances(b.log[|a.log|]) ==> b.d == a.d
    ensures Grew(a, b, from)
    ensures WriteRefused(b.log[|a.log|]) ==> Since(b.log, from, WriteRefused)
    ensures ReadRefused(b.log[|a.log|]) ==> Since(b.log, from, ReadRefused)
    ensures EndRefused(b.log[|a.log|]) ==> Since(b.log, from, EndRefused)
  {
    assert from <= |a.log| < |b.log|;
    if a.moved && Since(a.log, from, Advances) {
      SinceStays(a.log, b.log, from, Advances);
    }
  }

  lemma GrewThen(a: Poll, b: Poll, c: Poll, from: nat)
    requires Grew(a, b, from) && Grew(b, c, from)
    ensures Grew(a, c, from)
  {
  }

  lemma WriteGrew(p: Policy, a: Poll, e: Env, from: nat)
    requires a.Valid() && from <= |a.log| && !a.failed
    ensures var b := WritePhase(p, a, e);
            Grew(a, b, from)
            && (b.failed || a.d.pending.Len() == 0 || b.moved || Since(b.log, from, WriteRefused))
  {
    var b := WritePhase(p, a, e);
    if b != a {
      OneCall(a, b, from);
    }
  }

  lemma FlushGrew(a: Poll, answer: Answer, from: nat)
    requires from <= |a.log|
    ensures var b := FlushNow(a, answer);
            && Grew(a, b, from) && (answer.Done? ==> b.moved)
            && (b.failed || answer.Done? || Since(b.log, from, EndRefused))
  {
    OneCall(a, FlushNow(a, answer), from);
  }

  lemma ReadGrew(a: Poll, e: Env, from: nat)
    requires a.Valid() && from <= |a.log|
    ensures var b := ReadPhase(a, e);
            Grew(a, b, from)
            && (b.failed || a.d.eof || a.d.pending.Room() == 0 || b.moved || Since(b.log, from, ReadRefused))
  {
    var b := ReadPhase(a, e);
    if b != a {
      OneCall(a, b, from);
    }
  }

  lemma ShutGrew(a: Poll, answer: Answer, from: nat)
    requires from <= |a.log|
    ensures var b := ShutNow(a, answer);
            Grew(a, b, from) && (b.failed || b.moved || Since(b.log, from, EndRefused))
  {
    OneCall(a, ShutNow(a, answer), from);
  }

  lemma FinishGrew(p: Policy, a: Poll, e: Env, from: nat)
    requires a.Valid() && from <= |a.log|
    ensures var b := FinishPhase(p, a, e);
            && Grew(a, b, from)
            && (b.failed || b.moved || !a.d.eof || a.d.pending.Len() != 0 || a.d.shutdown
                || Since(b.log, from, EndRefused))
  {
    if !a.failed && a.d.eof && a.d.pending.Len() == 0 && !a.d.shutdown {
      if a.d.flushPending || p == Deferred {
        var f := FlushNow(a, e.lastFlush);
        FlushGrew(a, e.lastFlush, from);
        if e.lastFlush.Done? {
          ShutGrew(f, e.shutdown, from);
          GrewThen(a, f, ShutNow(f, e.shutdown), from);
        }
      } else {
        ShutGrew(a, e.shutdown, from);
      }
    }
  }

  /** No lost wakeup, one direction: a poll that moves nothing changes nothing, and
      in that very poll its writer refused if bytes are pending, its reader if there
      is room and no end, and the last flush or the shutdown if only those are left;
      so unless it is finished a wakeup is registered.  A poll that reports movement
      did advance the reader or the writer. */
  lemma PollWakes(p: Policy, d: Dir, log: seq<IoCall>, e: Env)
    requires d.pending.Valid()
    ensures var a := PollOnce(p, d, log, e);
            && log <= a.log
            && (!a.failed && !a.moved ==>
                  && a.d == d && Still(a.log, |log|) && Refused(d, a.log, |log|)
                  && (d.Done() || Since(a.log, |log|, Waits)))
            && (a.moved ==> Since(a.log, |log|, Advances))
  {
    var from := |log|;
    var a0 := Poll(d, log, false, false, false);
    var a1 := WritePhase(p, a0, e);
    WriteGrew(p, a0, e, from);
    WriteValid(p, a0, e);
    var a2 := FirstHalf(p, d, log, e);
    FlushGrew(a1, e.flush, from);
    var a3 := ReadPhase(a2, e);
    ReadGrew(a2, e, from);
    OtherPhasesValid(p, a2, e);
    var a4 := AdaptivePhase(p, a3, e);
    FlushGrew(a3, e.flush, from);
    OtherPhasesValid(p, a3, e);
    var a5 := PollOnce(p, d, log, e);
    FinishGrew(p, a4, e, from);
    GrewThen(a0, a1, a2, from);
    GrewThen(a0, a2, a3, from);
    GrewThen(a0, a3, a4, from);
    GrewThen(a0, a4, a5, from);
    if !a5.failed && !a5.moved {
      Blocked(d, |log|, a1, a3, a5);
      if !d.Done() {
        RefusedWaits(d, a5.log, |log|);
      }
    }
  }

  lemma Blocked(d: Dir, from: nat, a1: Poll, a3: Poll, a5: Poll)
    requires d.pending.Valid() && a1.log <= a3.log <= a5.log
    requires d.pending.Len() == 0 || Since(a1.log, from, WriteRefused)
    requires d.eof || d.pending.Room() == 0 || Since(a3.log, from, ReadRefused)
    requires !d.eof || d.pending.Len() != 0 || d.shutdown || Since(a5.log, from, EndRefused)
    ensures Refused(d, a5.log, from)
  {
    if d.pending.Len() != 0 {
      SinceStays(a1.log, a5.log, from, WriteRefused);
    }
    if !d.eof && d.pending.Room() > 0 {
      SinceStays(a3.log, a5.log, from, ReadRefused);
    }
  }

  // ------------------------------------------------------------- prompt flushes

  predicate FlushRefused(c: IoCall) {
    c.FlushWaits?
  }

  /** Everything written has been flushed, bytes still wait to be written, or the
      writer has refused a flush since. */
  ghost predicate FlushedOrRefused(d: Dir, log: seq<IoCall>, from: nat)
    requires d.pending.Valid()
  {
    Recall(log).flushed || d.pending.Len() > 0 || Since(log, from, FlushRefused)
  }

  /** The same, by the relay's own flag. */
  ghost predicate Tried(a: Poll, from: nat)
    requires a.Valid()
  {
    a.failed || !a.d.flushPending || a.d.pending.Len() > 0 || Since(a.log, from, FlushRefused)
  }

  lemma FlushTried(a: Poll, answer: Answer, from: nat)
    requires a.Valid() && from <= |a.log|
    ensures Tried(FlushNow(a, answer), from)
  {
    var b := FlushNow(a, answer);
    assert answer.NotYet? ==> FlushRefused(b.log[|a.log|]);
  }

  lemma FirstTried(p: Policy, d: Dir, log: seq<IoCall>, e: Env)
    requires d.pending.Valid() && p == Immediate
    ensures var a := FirstHalf(p, d, log, e); log <= a.log && Tried(a, |log|)
  {
    var a0 := Poll(d, log, false, false, false);
    WriteValid(p, a0, e);
    FlushTried(WritePhase(p, a0, e), e.flush, |log|);
  }

  lemma FirstGrows(p: Policy, d: Dir, log: seq<IoCall>, e: Env)
    requires d.pending.Valid()
    ensures var a := FirstHalf(p, d, log, e); log <= a.log && !a.readWaited
  {
  }

  lemma StaysTried(a: Poll, b: Poll, from: nat)
    requires a.Valid() && b.Valid() && Tried(a, from) && a.log <= b.log
    requires a.failed ==> b.failed
    requires b.d.flushPending ==> a.d.flushPending
    requires a.d.pending.Len() > 0 ==> b.d.pending.Len() > 0
    ensures Tried(b, from)
  {
    if Since(a.log, from, FlushRefused) {
      SinceStays(a.log, b.log, from, FlushRefused);
    }
  }

  /** What is left to flush before the end phase of a poll. */
  lemma ReadTried(p: Policy, a: Poll, e: Env, from: nat)
    requires a.Valid() && from <= |a.log| && !a.readWaited && p != Deferred && (p == Immediate ==> Tried(a, from))
    ensures var c := AdaptivePhase(p, ReadPhase(a, e), e); c.Valid() && Tried(c, from)
  {
    OtherPhasesValid(p, a, e);
    var b := ReadPhase(a, e);
    if p == Immediate {
      StaysTried(a, b, from);
    } else {
      FlushTried(b, e.flush, from);
      assert b.d.pending.Len() == 0 ==> b.d.pending.Room() > 0;
    }
  }

  lemma FinishTried(p: Policy, a: Poll, e: Env, from: nat)
    requires a.Valid() && Tried(a, from)
    ensures Tried(FinishPhase(p, a, e), from)
  {
    StaysTried(a, FinishPhase(p, a, e), from);
  }

  lemma PollTried(p: Policy, d: Dir, log: seq<IoCall>, e: Env)
    requires d.pending.Valid() && p != Deferred
    ensures Tried(PollOnce(p, d, log, e), |log|)
  {
    FirstGrows(p, d, log, e);
    if p == Immediate {
      FirstTried(p, d, log, e);
    }
    var a := FirstHalf(p, d, log, e);
    ReadTried(p, a, e, |log|);
    OtherPhasesValid(p, a, e);
    FinishTried(p, AdaptivePhase(p, ReadPhase(a, e), e), e, |log|);
  }

  /** Flushes are prompt: under Immediate and Adaptive, after every poll that does not
      fail, all that was written has been flushed, unless there is more to write or the
      writer refused the flush in that very poll.  So no byte stays behind unflushed
      because the source pauses. */
  lemma PollFlushes(p: Policy, d: Dir, log: seq<IoCall>, e: Env)
    requires Inv(p, d, log) && p != Deferred
    ensures var a := PollOnce(p, d, log, e); a.failed || FlushedOrRefused(a.d, a.log, |log|)
  {
    PollKeeps(p, d, log, e);
    PollTried(p, d, log, e);
  }

  predicate Reads(c: IoCall) {
    c.Got? || c.GotEof? || c.ReadWaits?
  }

  /** No read comes while all that was received is written but not flushed, unless the
      flush was refused just before. */
  ghost predicate FlushesFirst(log: seq<IoCall>) {
    forall i :: 0 <= i < |log| && Reads(log[i]) ==> MayRead(log[..i])
  }

  ghost predicate MayRead(log: seq<IoCall>) {
    var h := Recall(log);
    h.flushed || h.written != h.received || (log != [] && log[|log| - 1].FlushWaits?)
  }

  lemma OneMoreCall(log: seq<IoCall>, c: IoCall)
    requires FlushesFirst(log) && (Reads(c) ==> MayRead(log))
    ensures FlushesFirst(log + [c])
  {
    var more := log + [c];
    forall i | 0 <= i < |more| && Reads(more[i])
      ensures MayRead(more[..i])
    {
      assert more[..i] == log[..i];
      assert i == |log| ==> log[..i] == log;
    }
  }

  lemma QuietWrite(a: Poll, e: Env)
    requires a.Valid() && FlushesFirst(a.log)
    ensures FlushesFirst(WritePhase(Immediate, a, e).log)
  {
    var b := WritePhase(Immediate, a, e);
    if b != a {
      OneMoreCall(a.log, b.log[|a.log|]);
    }
  }

  lemma QuietFlush(a: Poll, answer: Answer)
    requires FlushesFirst(a.log)
    ensures FlushesFirst(FlushNow(a, answer).log)
  {
    var b := FlushNow(a, answer);
    OneMoreCall(a.log, b.log[|a.log|]);
  }

  lemma QuietShut(a: Poll, answer: Answer)
    requires FlushesFirst(a.log)
    ensures FlushesFirst(ShutNow(a, answer).log)
  {
    var b := ShutNow(a, answer);
    OneMoreCall(a.log, b.log[|a.log|]);
  }

  lemma FlushMayRead(a: Poll, answer: Answer)
    requires Inv(Immediate, a.d, a.log)
    ensures var b := FlushNow(a, answer); b.failed || MayRead(b.log)
  {
    FlushKeeps(Immediate, a, answer);
  }

  lemma HeldMayRead(d: Dir, log: seq<IoCall>)
    requires Inv(Immediate, d, log) && (!d.flushPending || d.pending.Len() > 0)
    ensures MayRead(log)
  {
    var h := Recall(log);
    assert |h.received| == |h.written| + d.pending.Len();
  }

  lemma ImmediateHalf(d: Dir, log: seq<IoCall>, e: Env)
    requires Inv(Immediate, d, log) && FlushesFirst(log)
    ensures var a := FirstHalf(Immediate, d, log, e); FlushesFirst(a.log) && (a.failed || MayRead(a.log))
  {
    var a0 := Poll(d, log, false, false, false);
    WriteKeeps(Immediate, a0, e);
    QuietWrite(a0, e);
    var a1 := WritePhase(Immediate, a0, e);
    QuietFlush(a1, e.flush);
    FlushMayRead(a1, e.flush);
    if !a1.failed && (!a1.d.flushPending || a1.d.pending.Len() > 0) {
      HeldMayRead(a1.d, a1.log);
    }
  }

  lemma QuietRest(a: Poll, e: Env)
    requires a.Valid() && FlushesFirst(a.log)
    ensures FlushesFirst(FinishPhase(Immediate, a, e).log)
  {
    QuietFlush(a, e.lastFlush);
    QuietShut(FlushNow(a, e.lastFlush), e.shutdown);
    QuietShut(a, e.shutdown);
  }

  lemma FirstReads(a: Poll, e: Env)
    requires a.Valid() && FlushesFirst(a.log) && (a.failed || MayRead(a.log))
    ensures FlushesFirst(ReadPhase(a, e).log)
  {
    var b := ReadPhase(a, e);
    if b != a {
      OneMoreCall(a.log, b.log[|a.log|]);
    }
  }

  /** Immediate flushes before it reads, at every point of every run. */
  lemma {:induction false} ImmediateFlushesFirst(o: Options, envs: seq<Env>)
    ensures FlushesFirst(PollAll(Immediate, o, envs).log)
    decreases |envs|
  {
    if envs != [] {
      var before := envs[..|envs| - 1];
      var e := envs[|envs| - 1];
      ImmediateFlushesFirst(o, before);
      RunKeeps(Immediate, o, before);
      var a := PollAll(Immediate, o, before);
      if !a.failed {
        ImmediateHalf(a.d, a.log, e);
        var b := FirstHalf(Immediate, a.d, a.log, e);
        OtherPhasesValid(Immediate, b, e);
        FirstReads(b, e);
        QuietRest(ReadPhase(b, e), e);
      }
    }
  }

  // --------------------------------------------------------- flush coalescing

  /** Answers with a flush that is always ready. */
  predicate FlushReady(e: Env) {
    e.flush.Done? && e.lastFlush.Done?
  }

  function SansFlush(d: Dir): Dir {
    d.(flushPending := false, flushOps := 0)
  }

  /** Immediate and Adaptive side by side: the same but for flushing, and
      Adaptive owes at most the flush that Immediate has already made. */
  ghost predicate Coupled(i: Dir, a: Dir)
    requires i.pending.Valid() && a.pending.Valid()
  {
    && SansFlush(i) == SansFlush(a)
    && (i.pending.Len() == 0 ==> !i.flushPending)
    && a.flushOps + (if a.flushPending && a.pending.Len() == 0 then 1 else 0) <= i.flushOps
  }

  /** The same, in the middle of a poll. */
  ghost predicate CoupledPoll(i: Poll, a: Poll) {
    i.Valid() && a.Valid() && Coupled(i.d, a.d) && i.failed == a.failed && i.readWaited == a.readWaited
  }

  lemma SameButFlush(i: Dir, a: Dir)
    requires SansFlush(i) == SansFlush(a)
    ensures i == a.(flushPending := i.flushPending, flushOps := i.flushOps)
  {
  }

  lemma FirstHalfCoupled(i: Dir, a: Dir, li: seq<IoCall>, la: seq<IoCall>, e: Env)
    requires i.pending.Valid() && a.pending.Valid() && Coupled(i, a) && FlushReady(e)
    ensures CoupledPoll(FirstHalf(Immediate, i, li, e), FirstHalf(Adaptive, a, la, e))
  {
    SameButFlush(i, a);
    var i1 := WritePhase(Immediate, Poll(i, li, false, false, false), e);
    var a1 := WritePhase(Adaptive, Poll(a, la, false, false, false), e);
    assert SansFlush(i1.d) == SansFlush(a1.d);
  }

  lemma AbsorbIgnoresFlush(d: Dir, flushPending: bool, flushOps: nat, got: seq<Byte>, asked: nat, slack: nat)
    requires d.pending.Valid() && |got| <= d.pending.Room()
    ensures Absorb(d.(flushPending := flushPending, flushOps := flushOps), got, asked, slack)
         == Absorb(d, got, asked, slack).(flushPending := flushPending, flushOps := flushOps)
    ensures Absorb(d, got, asked, slack).flushPending == d.flushPending
    ensures Absorb(d, got, asked, slack).flushOps == d.flushOps
  {
  }

  lemma ReadCoupled(i: Poll, a: Poll, e: Env)
    requires CoupledPoll(i, a)
    ensures CoupledPoll(ReadPhase(i, e), ReadPhase(a, e))
  {
    SameButFlush(i.d, a.d);
    if !i.failed && !i.d.eof && i.d.pending.Room() > 0 && e.read.Data? {
      var asked := Min(i.d.pending.Room(), i.d.scratch);
      var got := e.read.bytes[..Min(|e.read.bytes|, asked)];
      if got != [] {
        AbsorbIgnoresFlush(a.d, i.d.flushPending, i.d.flushOps, got, asked, e.slack);
        assert Absorb(i.d, got, asked, e.slack).pending.Len() > 0;
      }
    }
  }

  lemma AdaptiveCoupled(i: Poll, a: Poll, e: Env)
    requires CoupledPoll(i, a) && FlushReady(e)
    ensures CoupledPoll(i, AdaptivePhase(Adaptive, a, e))
    ensures !a.failed && a.d.eof && a.d.pending.Len() == 0 ==> !AdaptivePhase(Adaptive, a, e).d.flushPending
  {
  }

  lemma FinishCoupled(i: Poll, a: Poll, e: Env)
    requires CoupledPoll(i, a)
    requires !a.failed && a.d.eof && a.d.pending.Len() == 0 ==> !a.d.flushPending
    ensures CoupledPoll(FinishPhase(Immediate, i, e), FinishPhase(Adaptive, a, e))
  {
    SameButFlush(i.d, a.d);
  }

  lemma SecondHalfCoupled(i: Poll, a: Poll, e: Env)
    requires CoupledPoll(i, a) && FlushReady(e)
    ensures CoupledPoll(SecondHalf(Immediate, i, e), SecondHalf(Adaptive, a, e))
  {
    ReadCoupled(i, a, e);
    AdaptiveCoupled(ReadPhase(i, e), ReadPhase(a, e), e);
    FinishCoupled(ReadPhase(i, e), AdaptivePhase(Adaptive, ReadPhase(a, e), e), e);
  }

  /** What one poll writes, and what it reads, as a function of its answers. */
  function WriteOf(d: Dir, e: Env): seq<Byte>
    requires d.pending.Valid()
  {
    if d.pending.Len() > 0 && e.write.Done? then d.pending.Contents()[..Min(e.write.n, d.pending.Len())] else []
  }

  function ReadOf(a: Poll, e: Env): seq<Byte>
    requires a.Valid()
  {
    if !a.failed && !a.d.eof && a.d.pending.Room() > 0 && e.read.Data? then
      e.read.bytes[..Min(|e.read.bytes|, Min(a.d.pending.Room(), a.d.scratch))]
    else
      []
  }

  /** The bytes a log has moved. */
  function Moved(log: seq<IoCall>): (seq<Byte>, seq<Byte>) {
    (Recall(log).written, Recall(log).received)
  }

  lemma FlushMovesNothing(a: Poll, answer: Answer)
    ensures Moved(FlushNow(a, answer).log) == Moved(a.log)
  {
    Recalled(a.log, FlushWaits);
    Recalled(a.log, Flushed);
    Recalled(a.log, Broke);
  }

  lemma ShutMovesNothing(a: Poll, answer: Answer)
    ensures Moved(ShutNow(a, answer).log) == Moved(a.log)
  {
    Recalled(a.log, ShutdownWaits);
    Recalled(a.log, ShutDown);
    Recalled(a.log, Broke);
  }

  lemma FinishMovesNothing(p: Policy, a: Poll, e: Env)
    requires a.Valid()
    ensures Moved(FinishPhase(p, a, e).log) == Moved(a.log)
  {
    FlushMovesNothing(a, e.lastFlush);
    ShutMovesNothing(FlushNow(a, e.lastFlush), e.shutdown);
    ShutMovesNothing(a, e.shutdown);
  }

  lemma MovedMore(log: seq<IoCall>, c: IoCall)
    ensures Moved(log + [c]) == (Moved(log).0 + (if c.Wrote? then c.data else []),
                                 Moved(log).1 + (if c.Got? then c.data else []))
  {
    Recalled(log, c);
    assert Moved(log).0 + [] == Moved(log).0 && Moved(log).1 + [] == Moved(log).1;
  }

  lemma WriteMoves(p: Policy, a: Poll, e: Env)
    requires a.Valid()
    ensures Moved(WritePhase(p, a, e).log) == (Moved(a.log).0 + WriteOf(a.d, e), Moved(a.log).1)
  {
    assert Moved(a.log).0 + [] == Moved(a.log).0 && Moved(a.log).1 + [] == Moved(a.log).1;
    if a.d.pending.Len() > 0 {
      var c := if e.write.NotYet? then WriteWaits
               else if e.write.Error? || Min(e.write.n, a.d.pending.Len()) == 0 then Broke
               else Wrote(WriteOf(a.d, e));
      assert WritePhase(p, a, e).log == a.log + [c];
      MovedMore(a.log, c);
    }
  }

  lemma ReadMoves(a: Poll, e: Env)
    requires a.Valid()
    ensures Moved(ReadPhase(a, e).log) == (Moved(a.log).0, Moved(a.log).1 + ReadOf(a, e))
  {
    assert Moved(a.log).0 + [] == Moved(a.log).0 && Moved(a.log).1 + [] == Moved(a.log).1;
    if !a.failed && !a.d.eof && a.d.pending.Room() > 0 {
      var c := if e.read.NoData? then ReadWaits
               else if e.read.ReadError? then Broke
               else if ReadOf(a, e) == [] then GotEof
               else Got(ReadOf(a, e));
      assert ReadPhase(a, e).log == a.log + [c];
      MovedMore(a.log, c);
    }
  }

  lemma PollMoves(p: Policy, d: Dir, log: seq<IoCall>, e: Env)
    requires d.pending.Valid()
    ensures Moved(PollOnce(p, d, log, e).log)
         == (Moved(log).0 + WriteOf(d, e), Moved(log).1 + ReadOf(FirstHalf(p, d, log, e), e))
  {
    var a0 := Poll(d, log, false, false, false);
    WriteMoves(p, a0, e);
    WriteValid(p, a0, e);
    FlushMovesNothing(WritePhase(p, a0, e), e.flush);
    var a2 := FirstHalf(p, d, log, e);
    assert Moved(a2.log) == (Moved(log).0 + WriteOf(d, e), Moved(log).1);
    ReadMoves(a2, e);
    OtherPhasesValid(p, a2, e);
    var a3 := ReadPhase(a2, e);
    FlushMovesNothing(a3, e.flush);
    OtherPhasesValid(p, a3, e);
    FinishMovesNothing(p, AdaptivePhase(p, a3, e), e);
  }

  /** Flush coalescing is sound: on the same answers, with a flush that is always
      ready, Adaptive and Immediate have the same buffers, counters and errors
      and have moved the same bytes, and Adaptive never has flushed more often,
      at any point of any run. */
  lemma {:induction false} CoalescingIsSound(o: Options, envs: seq<Env>)
    requires forall k :: 0 <= k < |envs| ==> FlushReady(envs[k])
    ensures var i := PollAll(Immediate, o, envs);
            var a := PollAll(Adaptive, o, envs);
            && CoupledPoll(i, a)
            && Moved(i.log) == Moved(a.log)
            && a.d.flushOps <= i.d.flushOps
    decreases |envs|
  {
    if envs != [] {
      var before := envs[..|envs| - 1];
      var e := envs[|envs| - 1];
      CoalescingIsSound(o, before);
      var i := PollAll(Immediate, o, before);
      var a := PollAll(Adaptive, o, before);
      if !i.failed {
        FirstHalfCoupled(i.d, a.d, i.log, a.log, e);
        SecondHalfCoupled(FirstHalf(Immediate, i.d, i.log, e), FirstHalf(Adaptive, a.d, a.log, e), e);
        PollMoves(Immediate, i.d, i.log, e);
        PollMoves(Adaptive, a.d, a.log, e);
        SameButFlush(i.d, a.d);
        SameButFlush(FirstHalf(Immediate, i.d, i.log, e).d, FirstHalf(Adaptive, a.d, a.log, e).d);
      }
    }
  }
}
