/**
 The poll contract is exactly what the server-side round trip needs: wherever a run
 departs from it, the run can go on, within the contract, to a point where the peer
 has read something other than what the writer reported.
 */
module VisionContract {
  import opened Bytes
  import opened VisionCodec
  import opened VisionWriter
  import opened VisionSession

  /** The peer has read bytes that were never offered, or, with no write
      outstanding, not exactly the bytes reported as written. */
  ghost predicate Broken(uuid: Uuid, s: Session) {
    var out := Run(uuid, Fresh, s.wire).out;
    !(out <= s.acked + s.owed) || (s.open && s.owed == [] && out != s.acked)
  }

  /** Where the invariant holds nothing is broken. */
  lemma InvReads(uuid: Uuid, s: Session, e: Emission)
    requires Inv(uuid, s, e)
    ensures !Broken(uuid, s)
    ensures s.open && s.w.buf == [] ==> Run(uuid, Fresh, s.wire).out == s.acked
  {
    EmissionRead(uuid, e);
    if s.open {
      PrefixOf(s.wire, Unsent(s.w), Encode(uuid, e));
    }
    PrefixReadsPrefix(uuid, s.wire, Encode(uuid, e));
    if s.open && s.owed == [] {
      assert s.w.buf == [];
      assert s.wire + [] == s.wire && s.acked + [] == s.acked;
    }
    if s.open && s.w.buf == [] {
      assert s.wire + [] == s.wire && s.acked + [] == s.acked;
    }
  }

  /** As if the outstanding write had been reported. */
  function Told(s: Session): Session {
    s.(acked := s.acked + s.owed, owed := [])
  }

  /** The write that a caller repeats until it is reported. */
  function Retry(s: Session): Event {
    Write(s.owed, [Accept(|s.owed| + OPENING)])
  }

  /** If a frame went out without its write being reported, the retry sends the
      payload again. */
  lemma RetrySendsAgain(uuid: Uuid, s: Session, e: Emission)
    requires s.open && s.w.buf == [] && s.owed != [] && Inv(uuid, Told(s), e) && (!s.readDirect ==> |s.owed| < 65536)
    ensures Legal(uuid, s, Retry(s))
    ensures Run(uuid, Fresh, Apply(uuid, s, Retry(s)).wire).out == (s.acked + s.owed) + s.owed
    ensures Broken(uuid, Apply(uuid, s, Retry(s)))
  {
    var ev := Retry(s);
    WriteAtOnce(Config(uuid, true, s.readDirect), s.w, s.owed);
    var t, told := Apply(uuid, s, ev), Apply(uuid, Told(s), ev);
    var f := StepKeeps(uuid, Told(s), ev, e);
    InvReads(uuid, told, f);
    assert s.owed[..|s.owed|] == s.owed;
    assert t.wire == told.wire && t.acked == s.acked + s.owed && told.acked == (s.acked + s.owed) + s.owed;
    assert t.open && t.owed == [] && |told.acked| > |t.acked|;
  }

  /** A retry with other bytes that gets through reports bytes that were not sent. */
  lemma WrongRetry(uuid: Uuid, s: Session, ev: Event, e: Emission)
    requires Inv(uuid, s, e) && s.open && ev.Write? && Fits(s, ev) && !Contract(uuid, s, ev)
    ensures Broken(uuid, Apply(uuid, s, ev))
  {
    var c := Config(uuid, true, s.readDirect);
    var right := Write(s.owed, ev.answers);
    RetryIgnoresData(c, s.w, ev.data, s.owed, ev.answers);
    RetryOnlyDrains(c, s.w, s.owed, ev.answers);
    var t, told := Apply(uuid, s, ev), Apply(uuid, s, right);
    RetryKeeps(uuid, s, right, e);
    InvReads(uuid, told, e);
    assert s.owed[..|s.owed|] == s.owed;
    assert t.wire == told.wire && told.acked == s.acked + s.owed && t.open && t.owed == [];
    if |s.owed| <= |ev.data| {
      assert ev.data[..|s.owed|] != s.owed;
      SameTail(s.acked, ev.data[..|s.owed|], s.owed);
    } else {
      assert |told.acked| > |t.acked|;
    }
  }

  lemma SameTail(a: seq<Byte>, x: seq<Byte>, y: seq<Byte>)
    ensures a + x == a + y ==> x == y
  {
    assert (a + x)[|a|..] == x && (a + y)[|a|..] == y;
  }

  /** A flush that finishes the frame, whether it reports so or not. */
  lemma FinishingFlush(uuid: Uuid, s: Session, ev: Event, e: Emission)
    requires Inv(uuid, s, e) && s.open && ev.Flush? && !Contract(uuid, s, ev)
    ensures var t := Apply(uuid, s, ev);
            && t.open && t.w.buf == [] && t.owed == s.owed != [] && Inv(uuid, Told(t), e)
            && (!t.readDirect ==> |t.owed| < 65536)
  {
    var t := Apply(uuid, s, ev);
    DrainSends(s.w, ev.answers);
    assert t.wire == s.wire + Unsent(s.w);
    assert t.wire + [] == t.wire && Told(t).acked + [] == Told(t).acked;
  }

  /** A handoff that finishes a `continue` frame and gets through. */
  lemma FinishingHandoff(uuid: Uuid, s: Session, ev: Event, e: Emission)
    requires Inv(uuid, s, e) && s.open && ev.SendHandoff? && !Contract(uuid, s, ev) && !s.w.pendingDirect
    ensures var t := Apply(uuid, s, ev);
            && t.open && t.w.buf == [] && t.owed == s.owed != [] && t.readDirect
            && Inv(uuid, Told(t), e.(direct := Some([])))
  {
    var c := Config(uuid, true, s.readDirect);
    var t := Apply(uuid, s, ev);
    HandoffSends(c, s.w, ev.answers, ev.before, ev.last);
    HandoffFrame(uuid, s, e, Handoff(c, s.w, ev.answers, ev.before, ev.last).sent);
    assert t.wire + [] == t.wire && Told(t).acked + [] == Told(t).acked;
  }

  /** Bytes after a `direct` frame are plaintext to the peer. */
  lemma AfterDirect(uuid: Uuid, e: Emission, more: seq<Byte>)
    requires e.Valid() && e.direct.Some?
    ensures Run(uuid, Fresh, Encode(uuid, e) + more).out == Payload(e) + more
  {
    EmissionRead(uuid, e);
    RunValid(uuid, Fresh, Encode(uuid, e));
    RunSplits(uuid, Fresh, Encode(uuid, e), more);
    FinishedIsRaw(Run(uuid, Fresh, Encode(uuid, e)).state, more);
  }

  /** A handoff over a waiting `direct` frame finishes it, after which the peer is
      raw, and then sends a `direct` frame of its own: what it gets through of that
      frame is plaintext to the peer, five bytes if it gets through it all. */
  lemma SecondDirectIsPlaintext(uuid: Uuid, s: Session, ev: Event, e: Emission)
    requires Inv(uuid, s, e) && s.open && ev.SendHandoff? && s.w.pendingDirect
    ensures var r := Handoff(Config(uuid, true, s.readDirect), s.w, ev.answers, ev.before, ev.last);
            var stray := if |r.sent| <= |Unsent(s.w)| then [] else r.sent[|Unsent(s.w)|..];
            && stray <= [DIRECT, 0, 0, 0, 0]
            && (r.outcome.Ready? ==> stray == [DIRECT, 0, 0, 0, 0])
            && (stray != [] ==> Run(uuid, Fresh, s.wire + r.sent).out == (s.acked + s.owed) + stray)
  {
    var c := Config(uuid, true, s.readDirect);
    var r := Handoff(c, s.w, ev.answers, ev.before, ev.last);
    HandoffSends(c, s.w, ev.answers, ev.before, ev.last);
    var frame := Chunk(uuid, [], DIRECT, false);
    assert frame == [DIRECT, 0, 0, 0, 0];
    if |r.sent| > |Unsent(s.w)| {
      var stray := r.sent[|Unsent(s.w)|..];
      StrayOf(r.sent, Unsent(s.w), frame);
      Associate(s.wire, Unsent(s.w), stray);
      AfterDirect(uuid, e, stray);
    }
  }

  lemma StrayOf(sent: seq<Byte>, first: seq<Byte>, frame: seq<Byte>)
    requires sent <= first + frame && |sent| >= |first|
    ensures sent == first + sent[|first|..] && sent[|first|..] <= frame
    ensures sent == first + frame ==> sent[|first|..] == frame
  {
    assert sent == (first + frame)[..|sent|];
    assert sent[|first|..] == frame[..|sent| - |first|];
    assert sent[..|first|] == first;
  }

  lemma StrayHandoff(uuid: Uuid, s: Session, ev: Event, e: Emission)
    requires Inv(uuid, s, e) && s.open && ev.SendHandoff? && !Contract(uuid, s, ev) && s.w.pendingDirect
    ensures Broken(uuid, Apply(uuid, s, ev))
  {
    HandoffSends(Config(uuid, true, s.readDirect), s.w, ev.answers, ev.before, ev.last);
    SecondDirectIsPlaintext(uuid, s, ev, e);
  }

  /** Every departure from the contract breaks the round trip, at once or at the
      retry of the outstanding write. */
  lemma DepartureBreaks(uuid: Uuid, s: Session, ev: Event, e: Emission)
    requires Inv(uuid, s, e) && Fits(s, ev) && !Contract(uuid, s, ev)
    ensures Breaks(uuid, Apply(uuid, s, ev))
  {
    var t := Apply(uuid, s, ev);
    match ev {
      case Write(_, _) => WrongRetry(uuid, s, ev, e);
      case Flush(_, _) =>
        FinishingFlush(uuid, s, ev, e);
        RetrySendsAgain(uuid, t, e);
      case SendHandoff(_, _, _) =>
        if s.w.pendingDirect {
          StrayHandoff(uuid, s, ev, e);
        } else {
          FinishingHandoff(uuid, s, ev, e);
          RetrySendsAgain(uuid, t, e.(direct := Some([])));
        }
    }
  }

  // ------------------------------------------------------------------- over runs

  ghost predicate FitsRun(uuid: Uuid, events: seq<Event>) {
    forall i :: 0 <= i < |events| ==> Fits(Replay(uuid, events[..i]), events[i])
  }

  /** The contract is kept from `i` on. */
  ghost predicate ContractFrom(uuid: Uuid, events: seq<Event>, i: nat) {
    forall j :: i <= j < |events| ==> Contract(uuid, Replay(uuid, events[..j]), events[j])
  }

  ghost predicate Proper(uuid: Uuid, events: seq<Event>, i: nat) {
    FitsRun(uuid, events) && ContractFrom(uuid, events, i)
  }

  /** The run up to `i`, continued differently. */
  function Continued(events: seq<Event>, i: nat, more: seq<Event>): seq<Event>
    requires i <= |events|
  {
    events[..i] + more
  }

  /** At no point of the run can a continuation within the contract break the round
      trip. */
  ghost predicate NeverBroken(uuid: Uuid, events: seq<Event>) {
    forall i, more :: 0 <= i <= |events| && Proper(uuid, Continued(events, i, more), i) ==>
      !Broken(uuid, Replay(uuid, Continued(events, i, more)))
  }

  lemma KeptThenKept(uuid: Uuid, events: seq<Event>, i: nat, more: seq<Event>)
    requires i <= |events| && ContractFrom(uuid, events, 0)
    requires Proper(uuid, Continued(events, i, more), i)
    ensures LegalRun(uuid, Continued(events, i, more))
  {
    var all := Continued(events, i, more);
    forall j | 0 <= j < |all|
      ensures Contract(uuid, Replay(uuid, all[..j]), all[j])
    {
      if j < i {
        assert all[..j] == events[..j] && all[j] == events[j];
      }
    }
  }

  lemma {:induction false} FirstDeparture(uuid: Uuid, events: seq<Event>) returns (i: nat)
    requires !ContractFrom(uuid, events, 0)
    ensures i < |events| && ContractFrom(uuid, events[..i], 0)
    ensures !Contract(uuid, Replay(uuid, events[..i]), events[i])
    decreases |events|
  {
    var k :| 0 <= k < |events| && !Contract(uuid, Replay(uuid, events[..k]), events[k]);
    if ContractFrom(uuid, events[..k], 0) {
      i := k;
    } else {
      i := FirstDeparture(uuid, events[..k]);
      assert events[..k][..i] == events[..i];
    }
  }

  lemma FitsPrefix(uuid: Uuid, events: seq<Event>, i: nat)
    requires i <= |events| && FitsRun(uuid, events)
    ensures FitsRun(uuid, events[..i])
  {
    assert forall j :: 0 <= j < i ==> events[..i][..j] == events[..j];
  }

  /** One more event, of any kind. */
  lemma OneMore(uuid: Uuid, events: seq<Event>, ev: Event)
    ensures Replay(uuid, events + [ev]) == Apply(uuid, Replay(uuid, events), ev)
    ensures FitsRun(uuid, events) && Fits(Replay(uuid, events), ev) ==> FitsRun(uuid, events + [ev])
    ensures Contract(uuid, Replay(uuid, events), ev) ==> ContractFrom(uuid, events + [ev], |events|)
  {
    var all := events + [ev];
    assert all[..|events|] == events;
    assert forall j :: 0 <= j < |events| ==> all[..j] == events[..j];
  }

  /** The server-side round trip, exactly: for a run whose `continue` payloads fit
      their frames, the peer always reads what was reported, however the run goes on
      within the poll contract, if and only if the run keeps the contract. */
  lemma ContractIff(uuid: Uuid, events: seq<Event>)
    requires FitsRun(uuid, events)
    ensures ContractFrom(uuid, events, 0) <==> NeverBroken(uuid, events)
  {
    if ContractFrom(uuid, events, 0) {
      forall i, more | 0 <= i <= |events| && Proper(uuid, Continued(events, i, more), i)
        ensures !Broken(uuid, Replay(uuid, Continued(events, i, more)))
      {
        KeptThenKept(uuid, events, i, more);
        var e := RunKeeps(uuid, Continued(events, i, more));
        InvReads(uuid, Replay(uuid, Continued(events, i, more)), e);
      }
    } else {
      var i, more := BreakingRun(uuid, events);
      assert Broken(uuid, Replay(uuid, Continued(events, i, more)));
    }
  }

  /** Broken at once, or at the retry. */
  ghost predicate Breaks(uuid: Uuid, t: Session) {
    Broken(uuid, t) || (Legal(uuid, t, Retry(t)) && Broken(uuid, Apply(uuid, t, Retry(t))))
  }

  lemma BreakFrom(uuid: Uuid, events: seq<Event>, i: nat) returns (more: seq<Event>)
    requires i <= |events| && FitsRun(uuid, events[..i]) && Breaks(uuid, Replay(uuid, events[..i]))
    ensures Proper(uuid, Continued(events, i, more), i) && Broken(uuid, Replay(uuid, Continued(events, i, more)))
  {
    var t := Replay(uuid, events[..i]);
    if Broken(uuid, t) {
      more := [];
      assert Continued(events, i, more) == events[..i];
    } else {
      more := [Retry(t)];
      OneMore(uuid, events[..i], Retry(t));
    }
  }

  lemma DepartsAt(uuid: Uuid, events: seq<Event>, k: nat)
    requires k < |events| && FitsRun(uuid, events) && ContractFrom(uuid, events[..k], 0)
    requires !Contract(uuid, Replay(uuid, events[..k]), events[k])
    ensures Breaks(uuid, Replay(uuid, events[..k + 1]))
  {
    FitsPrefix(uuid, events, k);
    var e := RunKeeps(uuid, events[..k]);
    DepartureBreaks(uuid, Replay(uuid, events[..k]), events[k], e);
    assert events[..k + 1] == events[..k] + [events[k]];
    OneMore(uuid, events[..k], events[k]);
  }

  lemma BreakingRun(uuid: Uuid, events: seq<Event>) returns (i: nat, more: seq<Event>)
    requires FitsRun(uuid, events) && !ContractFrom(uuid, events, 0)
    ensures i <= |events| && Proper(uuid, Continued(events, i, more), i)
    ensures Broken(uuid, Replay(uuid, Continued(events, i, more)))
  {
    var k := FirstDeparture(uuid, events);
    DepartsAt(uuid, events, k);
    i := k + 1;
    FitsPrefix(uuid, events, i);
    more := BreakFrom(uuid, events, i);
  }
}
