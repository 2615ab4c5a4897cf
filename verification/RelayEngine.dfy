/** The v2 relay as it runs: two directions with their own buffers, polled in
    rounds by one future. */
module RelayEngine {
  import opened Bytes
  import opened RelayBuffer
  import opened RelayDirection

  class RelayDirectionState {
    const pending: RelayRingBuffer
    var scratch: nat
    var readEof: bool
    var shutdownSent: bool
    var flushPending: bool
    var bytes: nat
    var readOps: nat
    var writeOps: nat
    var flushOps: nat
    var growEvents: nat

    /** Every call made on the reader and the writer. */
    ghost var log: seq<IoCall>

    function View(): Dir
      reads this, pending
    {
      Dir(pending.View(), scratch, readEof, shutdownSent, flushPending, bytes, readOps, writeOps, flushOps, growEvents)
    }

    ghost predicate Valid()
      reads this, pending
    {
      pending.View().Valid()
    }

    /** The poll so far, as the specification sees it. */
    ghost function Now(failed: bool, moved: bool, readWaited: bool): Poll
      reads this, pending
    {
      Poll(View(), log, failed, moved, readWaited)
    }

    /** The object has been polled with these answers since it was made, without
        failing. */
    ghost predicate Reached(p: Policy, o: Options, past: seq<Env>)
      reads this, pending
    {
      var a := PollAll(p, o, past);
      Valid() && !a.failed && View() == a.d && log == a.log
    }

    /** Nothing has advanced since, all that the direction waits for has refused, and
        unless it is finished its wakeup is registered. */
    ghost predicate Blocked(mark: nat)
      requires Valid()
      reads this, pending
    {
      (Done() || Since(log, mark, Waits)) && Still(log, mark) && Refused(View(), log, mark)
    }

    /** Under Immediate and Adaptive, what has been written in full is flushed, or the
        flush has been refused since. */
    ghost predicate Prompt(p: Policy, mark: nat)
      requires Valid()
      reads this, pending
    {
      p == Deferred || FlushedOrRefused(View(), log, mark)
    }

    constructor (o: Options)
      ensures Valid() && fresh(pending) && log == []
      ensures View() == NewDir(o)
    {
      var initial := Max(o.initial, 1);
      pending := new RelayRingBuffer(initial, Max(o.max, initial), o.slack);
      scratch := initial;
      readEof, shutdownSent, flushPending := false, false, false;
      bytes, readOps, writeOps, flushOps, growEvents := 0, 0, 0, 0, 0;
      log := [];
    }

    predicate Done()
      requires Valid()
      reads this, pending
    {
      readEof && pending.View().Len() == 0 && shutdownSent
    }

    /** The writer took `k` bytes. */
    method Accepted(p: Policy, k: nat)
      requires Valid() && 0 < k <= pending.View().Len()
      modifies this, pending
      ensures Valid() && log == old(log) + [Wrote(old(pending.View().Contents())[..k])]
      ensures View() == Accept(p, old(View()), k)
    {
      log := log + [Wrote(pending.buf[pending.start..][..k])];
      pending.Consume(k);
      bytes := bytes + k;
      writeOps := writeOps + 1;
      if p == Immediate || p == Adaptive {
        flushPending := true;
      }
    }

    method Write(p: Policy, e: Env) returns (failed: bool, moved: bool)
      requires Valid()
      modifies this, pending
      ensures Valid()
      ensures Now(failed, moved, false) == WritePhase(p, old(Now(false, false, false)), e)
    {
      failed, moved := false, false;
      WriteValid(p, Now(false, false, false), e);
      if pending.View().Len() > 0 {
        var front := pending.buf[pending.start..];
        match e.write {
          case NotYet => log := log + [WriteWaits];
          case Error =>
            log := log + [Broke];
            failed := true;
          case Done(n) =>
            var k := Min(n, |front|);
            if k == 0 {
              log := log + [Broke];
              failed := true;
            } else {
              Accepted(p, k);
              moved := true;
            }
        }
      }
    }

    method Flush(answer: Answer, moved0: bool, ghost waited: bool) returns (failed: bool, moved: bool)
      modifies this`flushPending, this`flushOps, this`log
      ensures Now(failed, moved, waited) == FlushNow(old(Now(false, moved0, waited)), answer)
    {
      failed, moved := false, moved0;
      match answer {
        case NotYet => log := log + [FlushWaits];
        case Error =>
          log := log + [Broke];
          failed := true;
        case Done(_) =>
          log := log + [Flushed];
          flushPending := false;
          flushOps := flushOps + 1;
          moved := true;
      }
    }

    method Read(e: Env, moved0: bool) returns (failed: bool, moved: bool, waited: bool)
      requires Valid()
      modifies this, pending
      ensures Valid()
      ensures Now(failed, moved, waited) == ReadPhase(old(Now(false, moved0, false)), e)
    {
      failed, moved, waited := false, moved0, false;
      OtherPhasesValid(Immediate, Now(false, moved0, false), e);
      if !readEof && pending.View().Room() > 0 {
        var readLen := Min(pending.View().Room(), scratch);
        match e.read {
          case NoData =>
            log := log + [ReadWaits];
            waited := true;
          case ReadError =>
            log := log + [Broke];
            failed := true;
          case Data(data) =>
            var filled := data[..Min(|data|, readLen)];
            moved := true;
            if filled == [] {
              log := log + [GotEof];
              readEof := true;
            } else {
              log := log + [Got(filled)];
              Absorbed(e, filled, readLen);
            }
        }
      }
    }

    /** The bytes of one read go into the buffer, all of them. */
    method Absorbed(e: Env, filled: seq<Byte>, readLen: nat)
      requires Valid() && |filled| <= pending.View().Room()
      modifies this`readOps, this`growEvents, this`scratch, pending
      ensures Valid() && View() == Absorb(old(View()), filled, readLen, e.slack)
    {
      var pushed := pending.PushSlice(filled);
      assert pushed == |filled|;
      readOps := readOps + 1;
      if |filled| == readLen && pending.View().Room() == 0 {
        var grew := pending.Grow(e.slack);
        if grew {
          growEvents := growEvents + 1;
          scratch := Min(2 * scratch, pending.capacity);
        }
      }
    }

    method Finish(p: Policy, e: Env, moved0: bool, ghost waited: bool) returns (failed: bool, moved: bool)
      requires Valid()
      modifies this`flushPending, this`flushOps, this`shutdownSent, this`log
      ensures Now(failed, moved, waited) == FinishPhase(p, old(Now(false, moved0, waited)), e)
    {
      failed, moved := false, moved0;
      if readEof && pending.View().Len() == 0 && !shutdownSent {
        if flushPending || p == Deferred {
          failed, moved := Flush(e.lastFlush, moved, waited);
          if failed || e.lastFlush.NotYet? {
            return;
          }
        }
        match e.shutdown {
          case NotYet => log := log + [ShutdownWaits];
          case Error =>
            log := log + [Broke];
            failed := true;
          case Done(_) =>
            log := log + [ShutDown];
            shutdownSent := true;
            moved := true;
        }
      }
    }

    method WriteHalf(p: Policy, e: Env) returns (failed: bool, moved: bool)
      requires Valid()
      modifies this, pending
      ensures Valid() && Now(failed, moved, false) == FirstHalf(p, old(View()), old(log), e)
    {
      failed, moved := Write(p, e);
      if failed {
        return;
      }
      if p == Immediate && flushPending && pending.View().Len() == 0 {
        failed, moved := Flush(e.flush, moved, false);
      }
    }

    /** poll_relay_direction. */
    method PollDirection(p: Policy, e: Env) returns (failed: bool, moved: bool)
      requires Valid()
      modifies this, pending
      ensures Valid()
      ensures var a := PollOnce(p, old(View()), old(log), e);
              View() == a.d && log == a.log && failed == a.failed && moved == a.moved
    {
      failed, moved := WriteHalf(p, e);
      if failed {
        return;
      }
      ghost var waited;
      failed, moved, waited := ReadHalf(p, e, moved);
    }

    method ReadHalf(p: Policy, e: Env, moved0: bool) returns (failed: bool, moved: bool, ghost readWaited: bool)
      requires Valid()
      modifies this, pending
      ensures Valid() && Now(failed, moved, readWaited) == SecondHalf(p, old(Now(false, moved0, false)), e)
    {
      moved := moved0;
      var waited;
      failed, moved, waited := Read(e, moved);
      readWaited := waited;
      if failed {
        return;
      }
      if p == Adaptive && flushPending && pending.View().Len() == 0 && (waited || readEof) {
        failed, moved := Flush(e.flush, moved, waited);
        if failed {
          return;
        }
      }
      failed, moved := Finish(p, e, moved, waited);
    }
  }

  // ------------------------------------------------------------ both directions

  datatype Relay = Finished | Waiting | Failed | MoreAnswersNeeded

  /** How often reader or writer advanced. */
  function Advanced(log: seq<IoCall>): nat {
    if log == [] then 0 else Advanced(log[..|log| - 1]) + if Advances(log[|log| - 1]) then 1 else 0
  }

  lemma {:induction false} AdvancedGrows(a: seq<IoCall>, b: seq<IoCall>)
    requires a <= b
    ensures Advanced(a) <= Advanced(b)
    ensures Since(b, |a|, Advances) ==> Advanced(a) < Advanced(b)
    decreases |b|
  {
    if |a| < |b| {
      var c := b[..|b| - 1];
      AdvancedGrows(a, c);
      if Since(b, |a|, Advances) && !Advances(b[|b| - 1]) {
        var i :| |a| <= i < |b| && Advances(b[i]);
        assert c[i] == b[i];
      }
    } else {
      assert a == b;
    }
  }

  /** The answers of one direction over several rounds. */
  function Ups(envs: seq<(Env, Env)>): (ups: seq<Env>)
    ensures |ups| == |envs|
  {
    seq(|envs|, i requires 0 <= i < |envs| => envs[i].0)
  }

  function Downs(envs: seq<(Env, Env)>): (downs: seq<Env>)
    ensures |downs| == |envs|
  {
    seq(|envs|, i requires 0 <= i < |envs| => envs[i].1)
  }

  lemma OneMorePoll(p: Policy, o: Options, past: seq<Env>, e: Env)
    ensures var a := PollAll(p, o, past);
            !a.failed ==> PollAll(p, o, past + [e]) == PollOnce(p, a.d, a.log, e)
  {
    assert (past + [e])[..|past|] == past;
  }

  lemma OneMoreRound(pastUp: seq<Env>, pastDown: seq<Env>, envs: seq<(Env, Env)>, k: nat)
    requires k < |envs|
    ensures pastUp + Ups(envs[..k + 1]) == (pastUp + Ups(envs[..k])) + [envs[k].0]
    ensures pastDown + Downs(envs[..k + 1]) == (pastDown + Downs(envs[..k])) + [envs[k].1]
  {
    assert Ups(envs[..k + 1]) == Ups(envs[..k]) + [envs[k].0];
    assert Downs(envs[..k + 1]) == Downs(envs[..k]) + [envs[k].1];
  }

  /** One direction of one round: the object goes from one point of its run to the
      next. */
  method PollNext(x: RelayDirectionState, p: Policy, e: Env, ghost o: Options, ghost past: seq<Env>)
    returns (failed: bool, moved: bool)
    requires x.Reached(p, o, past)
    modifies x, x.pending
    ensures x.Valid() && old(x.log) <= x.log
    ensures if failed then PollAll(p, o, past + [e]).failed else x.Reached(p, o, past + [e])
    ensures !failed && !moved ==> x.Blocked(|old(x.log)|)
    ensures !failed ==> x.Prompt(p, |old(x.log)|)
    ensures Advanced(x.log) >= Advanced(old(x.log)) + if moved then 1 else 0
  {
    OneMorePoll(p, o, past, e);
    RunKeeps(p, o, past);
    if p != Deferred {
      PollFlushes(p, x.View(), x.log, e);
    }
    PollWakes(p, x.View(), x.log, e);
    failed, moved := x.PollDirection(p, e);
    AdvancedGrows(old(x.log), x.log);
  }

  /** Both directions in turn, the second only if the first did not fail. */
  method PollRound(
    up: RelayDirectionState, down: RelayDirectionState, p: Policy, e: (Env, Env),
    ghost o: Options, ghost ups: seq<Env>, ghost downs: seq<Env>)
    returns (failed: bool, moved: bool)
    requires up != down && up.pending != down.pending && up.Reached(p, o, ups) && down.Reached(p, o, downs)
    modifies up, up.pending, down, down.pending
    ensures up.Valid() && down.Valid() && old(up.log) <= up.log && old(down.log) <= down.log
    ensures failed ==> PollAll(p, o, ups + [e.0]).failed || PollAll(p, o, downs + [e.1]).failed
    ensures !failed ==> up.Reached(p, o, ups + [e.0]) && down.Reached(p, o, downs + [e.1])
    ensures !failed && !moved ==> up.Blocked(|old(up.log)|) && down.Blocked(|old(down.log)|)
    ensures !failed ==> up.Prompt(p, |old(up.log)|) && down.Prompt(p, |old(down.log)|)
    ensures Advanced(up.log) + Advanced(down.log)
         >= old(Advanced(up.log) + Advanced(down.log)) + if moved then 1 else 0
  {
    failed, moved := PollNext(up, p, e.0, o, ups);
    if !failed {
      var movedDown;
      failed, movedDown := PollNext(down, p, e.1, o, downs);
      moved := moved || movedDown;
    }
  }

  /** Everything up to the end of the source has been written and shut down. */
  ghost predicate Delivered(x: RelayDirectionState)
    reads x, x.pending
  {
    var h := Recall(x.log);
    x.Valid() && x.Done() && h.eof && h.shut && h.written == h.received && x.bytes == |h.received|
  }

  lemma DoneDelivers(x: RelayDirectionState, p: Policy, o: Options, past: seq<Env>)
    requires x.Reached(p, o, past) && x.Done()
    ensures Delivered(x)
  {
    DirectionSafety(p, o, past);
  }

  /** The polling loop of the relay future, from any point of a run of both
      directions.  Each direction is polled once a round until one fails.  The loop
      finishes only when both directions have, and then all that either received
      has been delivered.  It returns `Waiting` only when, in that very round,
      nothing advanced and each unfinished direction was refused by every reader,
      writer, flush or shutdown it waits for, so its wakeup is registered; and it
      goes round again only when reader or writer advanced.  Under Immediate and
      Adaptive, whatever either direction has written in full is flushed when the loop
      stops, or its flush was refused in the last round. */
  method PollRelay(
    up: RelayDirectionState, down: RelayDirectionState, p: Policy, envs: seq<(Env, Env)>,
    ghost o: Options, ghost pastUp: seq<Env>, ghost pastDown: seq<Env>)
    returns (result: Relay, rounds: nat, ghost upMark: nat, ghost downMark: nat)
    requires up != down && up.pending != down.pending && up.Reached(p, o, pastUp) && down.Reached(p, o, pastDown)
    modifies up, up.pending, down, down.pending
    ensures up.Valid() && down.Valid() && rounds <= |envs|
    ensures result.Failed? ==>
              rounds > 0 && (PollAll(p, o, pastUp + Ups(envs[..rounds])).failed
                             || PollAll(p, o, pastDown + Downs(envs[..rounds])).failed)
    ensures !result.Failed? ==>
              up.Reached(p, o, pastUp + Ups(envs[..rounds])) && down.Reached(p, o, pastDown + Downs(envs[..rounds]))
    ensures result.Finished? ==> Delivered(up) && Delivered(down)
    ensures result.MoreAnswersNeeded? ==> rounds == |envs|
    ensures result.Finished? || result.Waiting? ==> up.Prompt(p, upMark) && down.Prompt(p, downMark)
    ensures result.Waiting? ==>
              && rounds > 0 && !(up.Done() && down.Done())
              && up.Blocked(upMark) && down.Blocked(downMark)
              && Advanced(up.log) + Advanced(down.log) >= old(Advanced(up.log) + Advanced(down.log)) + rounds - 1
  {
    rounds, upMark, downMark := 0, |up.log|, |down.log|;
    ghost var ups, downs := pastUp, pastDown;
    assert pastUp + [] == pastUp && pastDown + [] == pastDown;
    while rounds < |envs|
      invariant rounds <= |envs| && up.Reached(p, o, ups) && down.Reached(p, o, downs)
      invariant ups == pastUp + Ups(envs[..rounds]) && downs == pastDown + Downs(envs[..rounds])
      invariant Advanced(up.log) + Advanced(down.log) >= old(Advanced(up.log) + Advanced(down.log)) + rounds
    {
      upMark, downMark := |up.log|, |down.log|;
      var failed, moved := PollRound(up, down, p, envs[rounds], o, ups, downs);
      OneMoreRound(pastUp, pastDown, envs, rounds);
      ups, downs := ups + [envs[rounds].0], downs + [envs[rounds].1];
      rounds := rounds + 1;
      if failed {
        return Failed, rounds, upMark, downMark;
      }
      if up.Done() && down.Done() {
        DoneDelivers(up, p, o, ups);
        DoneDelivers(down, p, o, downs);
        return Finished, rounds, upMark, downMark;
      }
      if !moved {
        return Waiting, rounds, upMark, downMark;
      }
    }
    return MoreAnswersNeeded, rounds, upMark, downMark;
  }
}
