/**
 Whole runs of a server-inbound Vision writer against the peer's parser.

 The writer sends `continue` frames, then at most one `direct` frame, then raw
 bytes; everything it was told is sent comes out of the peer's parser, once and in
 order.
 */
module VisionSession {
  import opened Bytes
  import opened VisionCodec
  import opened VisionWriter

  // ------------------------------------------------- what a server has framed

  datatype Emission = Emission(conts: seq<seq<Byte>>, direct: Option<seq<Byte>>, raw: seq<Byte>) {
    ghost predicate Valid() {
      && (forall i :: 0 <= i < |conts| ==> |conts[i]| < 65536)
      && (direct.None? ==> raw == [])
    }
  }

  function Frames(contents: seq<seq<Byte>>): seq<Byte> {
    if contents == [] then [] else FrameBytes(Frame(CONTINUE, contents[0], [])) + Frames(contents[1..])
  }

  function Last(e: Emission): seq<Byte> {
    if e.direct.Some? then FrameBytes(Frame(DIRECT, e.direct.value, [])) + e.raw else e.raw
  }

  function Encode(uuid: Uuid, e: Emission): seq<Byte> {
    (if e.conts == [] && e.direct.None? then [] else uuid) + Frames(e.conts) + Last(e)
  }

  function Payload(e: Emission): seq<Byte> {
    Concat(e.conts) + (if e.direct.Some? then e.direct.value else []) + e.raw
  }

  lemma {:induction false} FramesAppend(a: seq<seq<Byte>>, x: seq<Byte>)
    ensures Frames(a + [x]) == Frames(a) + FrameBytes(Frame(CONTINUE, x, []))
  {
    if a == [] {
      assert [x][1..] == [];
    } else {
      FramesAppend(a[1..], x);
      assert (a + [x])[1..] == a[1..] + [x];
    }
  }

  /** `continue` frames, read by the peer. */
  lemma {:induction false} FramesRead(s: Unpadding, contents: seq<seq<Byte>>, rest: seq<Byte>)
    requires s.AtHeader()
    requires forall i :: 0 <= i < |contents| ==> |contents[i]| < 65536
    ensures exists t: Unpadding :: t.AtHeader()
              && Inside(s, Frames(contents) + rest) == Then(Fed(t, Concat(contents), false), Inside(t, rest))
    decreases |contents|
  {
    if contents == [] {
      assert Frames(contents) + rest == rest;
      ThenNothing(Inside(s, rest), s);
    } else {
      var tail := Frames(contents[1..]) + rest;
      var first := Frame(CONTINUE, contents[0], []);
      assert Frames(contents) + rest == FrameBytes(first) + tail;
      FrameRead(s, first, tail);
      FramesRead(After(CONTINUE), contents[1..], rest);
      var t: Unpadding :| t.AtHeader()
        && Inside(After(CONTINUE), tail) == Then(Fed(t, Concat(contents[1..]), false), Inside(t, rest));
      ThenAssociates(Fed(After(CONTINUE), contents[0], false), Fed(t, Concat(contents[1..]), false), Inside(t, rest));
    }
  }

  lemma FramesLength(contents: seq<seq<Byte>>)
    requires contents != []
    ensures |Frames(contents)| >= 5
  {
  }

  /** What a server framed is what its peer unpads. */
  lemma EmissionRead(uuid: Uuid, e: Emission)
    requires e.Valid()
    ensures Run(uuid, Fresh, Encode(uuid, e)).out == Payload(e)
    ensures Run(uuid, Fresh, Encode(uuid, e)).direct <==> e.direct.Some?
  {
    if e.conts == [] && e.direct.None? {
      assert Encode(uuid, e) == [] && Payload(e) == [];
    } else {
      var wire := Frames(e.conts) + Last(e);
      assert Encode(uuid, e) == uuid + wire;
      if e.conts != [] {
        FramesLength(e.conts);
      }
      assert |wire| >= 5;
      OpeningRead(uuid, wire);
      FramesRead(Fresh.(command := 5), e.conts, Last(e));
      var t: Unpadding :| t.AtHeader()
        && Inside(Fresh.(command := 5), wire) == Then(Fed(t, Concat(e.conts), false), Inside(t, Last(e)));
      if e.direct.Some? {
        LastFrameRead(t, DIRECT, e.direct.value, e.raw);
        assert Concat(e.conts) + (e.direct.value + e.raw) == Payload(e);
      } else {
        assert Last(e) == [];
        assert Concat(e.conts) + [] == Payload(e);
      }
    }
  }

  /** The 16-bit bound is tight in every position: after any frames that fit, one
      more `continue` frame comes back exactly when it fits too. */
  lemma NextContinueIff(uuid: Uuid, e: Emission, data: seq<Byte>)
    requires e.Valid() && e.direct.None?
    ensures var f := e.(conts := e.conts + [data]);
            Run(uuid, Fresh, Encode(uuid, f)).out == Payload(f) <==> |data| < 65536
  {
    var f := e.(conts := e.conts + [data]);
    var frame := FrameBytes(Frame(CONTINUE, data, []));
    var wire := Frames(e.conts) + frame;
    FramesAppend(e.conts, data);
    ConcatOne(e.conts, data);
    assert Encode(uuid, f) == uuid + wire && Payload(f) == Concat(e.conts) + data;
    OpeningRead(uuid, wire);
    FramesRead(Fresh.(command := 5), e.conts, frame);
    var t: Unpadding :| t.AtHeader()
      && Inside(Fresh.(command := 5), wire) == Then(Fed(t, Concat(e.conts), false), Inside(t, frame));
    ContinueFrameIff(t, data);
    var got := Inside(t, frame).out;
    assert (Concat(e.conts) + got)[|Concat(e.conts)|..] == got;
    assert (Concat(e.conts) + data)[|Concat(e.conts)|..] == data;
  }

  lemma EncodeContinue(uuid: Uuid, e: Emission, data: seq<Byte>)
    requires e.Valid() && e.direct.None?
    ensures var f := e.(conts := e.conts + [data]);
            && Encode(uuid, f) == Encode(uuid, e) + Chunk(uuid, data, CONTINUE, e.conts == [])
            && Payload(f) == Payload(e) + data
  {
    FramesAppend(e.conts, data);
    ConcatOne(e.conts, data);
    if e.conts == [] {
      assert Frames(e.conts) == [];
    }
  }

  lemma EncodeDirect(uuid: Uuid, e: Emission, data: seq<Byte>)
    requires e.Valid() && e.direct.None?
    ensures var f := e.(direct := Some(data));
            && Encode(uuid, f) == Encode(uuid, e) + Chunk(uuid, data, DIRECT, e.conts == [])
            && Payload(f) == Payload(e) + data
  {
    if e.conts == [] {
      assert Frames(e.conts) == [];
    }
  }

  lemma EncodeRaw(uuid: Uuid, e: Emission, data: seq<Byte>)
    requires e.Valid() && e.direct.Some?
    ensures var f := e.(raw := e.raw + data);
            Encode(uuid, f) == Encode(uuid, e) + data && Payload(f) == Payload(e) + data
  {
    var last := FrameBytes(Frame(DIRECT, e.direct.value, []));
    Associate(last, e.raw, data);
    Associate(uuid + Frames(e.conts), Last(e), data);
    Associate(Concat(e.conts) + e.direct.value, e.raw, data);
  }

  // ---------------------------------------------------------- the server's run

  datatype Event =
    | Write(data: seq<Byte>, answers: seq<Answer>)
    | Flush(answers: seq<Answer>, own: FlushAnswer)
    | ClientDirect
    | SendHandoff(answers: seq<Answer>, before: FlushAnswer, last: FlushAnswer)

  /** The writer, the bytes on the wire, the payload bytes reported as written,
      and the payload of a frame that is still going out. */
  datatype Session = Session(
    w: Writer, readDirect: bool, wire: seq<Byte>, acked: seq<Byte>, owed: seq<Byte>, open: bool)

  const Begin := Session(FreshWriter, false, [], [], [], true)

  /** A payload that will be framed with `continue` fits the 16-bit length. */
  ghost predicate Fits(s: Session, ev: Event) {
    s.open && ev.Write? && s.w.buf == [] && !s.readDirect ==> |ev.data| < 65536
  }

  /** The poll contract: while a frame waits, the write is retried with the same
      bytes or more before anything else finishes the frame.  A flush or a retry
      with other bytes does no harm as long as it leaves the frame waiting, or the
      stream broken.  A handoff holds the stream until it is through, so one that gets
      stuck is the last of the run; it does harm if it gets through, or if it sends
      anything after a waiting `direct` frame. */
  ghost predicate Contract(uuid: Uuid, s: Session, ev: Event) {
    var c := Config(uuid, true, s.readDirect);
    s.open && s.w.buf != [] ==>
      match ev
      case Write(data, answers) => PollWrite(c, s.w, data, answers).outcome.Ready? ==> s.owed <= data
      case Flush(answers, own) =>
        var r := PollFlush(s.w, answers, own);
        r.outcome.Failed? || r.w.buf != []
      case ClientDirect => true
      case SendHandoff(answers, before, last) =>
        s.readDirect && !s.w.direct ==>
          var r := Handoff(c, s.w, answers, before, last);
          !r.outcome.Ready? && (s.w.pendingDirect ==> |r.sent| <= |Unsent(s.w)|)
  }

  ghost predicate Legal(uuid: Uuid, s: Session, ev: Event) {
    Fits(s, ev) && Contract(uuid, s, ev)
  }

  function Apply(uuid: Uuid, s: Session, ev: Event): Session {
    if !s.open then
      s
    else
      var c := Config(uuid, true, s.readDirect);
      match ev
      case Write(data, answers) =>
        var r := PollWrite(c, s.w, data, answers);
        Session(r.w, s.readDirect, s.wire + r.sent,
                if r.outcome.Ready? && r.outcome.n <= |data| then s.acked + data[..r.outcome.n] else s.acked,
                if r.w.buf == [] then [] else if s.w.buf == [] then data else s.owed,
                !r.outcome.Failed?)
      case Flush(answers, own) =>
        var r := PollFlush(s.w, answers, own);
        s.(w := r.w, wire := s.wire + r.sent, open := !r.outcome.Failed?)
      case ClientDirect =>
        s.(readDirect := true)
      case SendHandoff(answers, before, last) =>
        var r := Handoff(c, s.w, answers, before, last);
        s.(w := r.w, wire := s.wire + r.sent, open := r.outcome.Ready?)
  }

  function Replay(uuid: Uuid, events: seq<Event>): Session {
    if events == [] then
      Begin
    else
      Apply(uuid, Replay(uuid, events[..|events| - 1]), events[|events| - 1])
  }

  ghost predicate LegalRun(uuid: Uuid, events: seq<Event>) {
    forall i :: 0 <= i < |events| ==> Legal(uuid, Replay(uuid, events[..i]), events[i])
  }

  /** The wire, with what is still in the buffer, is the encoding of `e`, and the
      payload of `e` is what was reported plus what is still going out. */
  ghost predicate Inv(uuid: Uuid, s: Session, e: Emission) {
    && e.Valid()
    && Payload(e) == s.acked + s.owed
    && if s.open then Live(uuid, s, e) else s.wire <= Encode(uuid, e)
  }

  ghost predicate Live(uuid: Uuid, s: Session, e: Emission) {
    && s.w.Valid()
    && s.wire + Unsent(s.w) == Encode(uuid, e)
    && (s.w.uuidOnce <==> e.conts == [] && e.direct.None?)
    && (e.direct.Some? <==> s.w.direct || s.w.pendingDirect)
    && (e.direct.Some? ==> s.readDirect)
    && (s.w.buf != [] && !s.w.pendingDirect ==> |s.owed| < 65536)
    && (s.w.buf != [] ==> |s.owed| == s.w.consumed)
    && (s.w.buf == [] ==> s.owed == [])
    && (s.w.pendingDirect ==> e.raw == [])
  }

  lemma PrefixOf(a: seq<Byte>, b: seq<Byte>, whole: seq<Byte>)
    requires a + b == whole
    ensures a <= whole
  {
  }

  lemma RetryKeeps(uuid: Uuid, s: Session, ev: Event, e: Emission)
    requires Inv(uuid, s, e) && s.open && ev.Write? && s.w.buf != [] && Legal(uuid, s, ev)
    ensures Inv(uuid, Apply(uuid, s, ev), e)
  {
    var c := Config(uuid, true, s.readDirect);
    var r := PollWrite(c, s.w, ev.data, ev.answers);
    RetryOnlyDrains(c, s.w, ev.data, ev.answers);
    var t := Apply(uuid, s, ev);
    Associate(s.wire, r.sent, Unsent(r.w));
    if r.outcome.Ready? {
      assert ev.data[..|s.owed|] == s.owed;
      assert t.acked + t.owed == s.acked + s.owed;
    }
    PrefixOf(t.wire, Unsent(t.w), Encode(uuid, e));
  }

  /** What a legal write adds to the emission when no frame is waiting. */
  function Grown(s: Session, ev: Event, e: Emission): Emission
    requires ev.Write?
  {
    if s.w.direct then
      var r := PassThrough(s.w, ev.data, ev.answers);
      if r.outcome.Ready? then e.(raw := e.raw + r.sent) else e
    else if ev.data == [] then
      e
    else if s.readDirect then
      e.(direct := Some(ev.data))
    else
      e.(conts := e.conts + [ev.data])
  }

  lemma RawWriteKeeps(uuid: Uuid, s: Session, ev: Event, e: Emission)
    requires Inv(uuid, s, e) && s.open && ev.Write? && s.w.buf == [] && (s.w.direct || ev.data == [])
    ensures Inv(uuid, Apply(uuid, s, ev), Grown(s, ev, e))
  {
    var r := PassThrough(s.w, ev.data, ev.answers);
    PassThroughSends(s.w, ev.data, ev.answers);
    var t := Apply(uuid, s, ev);
    assert s.wire + [] == s.wire && s.acked + [] == s.acked && s.wire + r.sent + [] == s.wire + r.sent;
    if s.w.direct {
      EncodeRaw(uuid, e, r.sent);
      if !r.outcome.Ready? {
        assert t.wire == s.wire;
      }
    } else {
      assert r.sent == [];
      assert t.wire == s.wire && t.acked == s.acked;
    }
  }

  lemma GrownEncodes(uuid: Uuid, s: Session, ev: Event, e: Emission)
    requires Inv(uuid, s, e) && s.open && ev.Write? && Legal(uuid, s, ev)
    requires s.w.buf == [] && !s.w.direct && ev.data != []
    ensures var f := Grown(s, ev, e);
            && f.Valid()
            && Encode(uuid, f)
               == s.wire + Chunk(uuid, ev.data, Command(Config(uuid, true, s.readDirect), ev.data), s.w.uuidOnce)
            && Payload(f) == s.acked + ev.data
            && (f.direct.Some? <==> s.readDirect)
            && f.raw == [] && (f.conts != [] || f.direct.Some?)
  {
    assert s.wire + [] == s.wire && s.acked + [] == s.acked;
    if s.readDirect {
      EncodeDirect(uuid, e, ev.data);
    } else {
      EncodeContinue(uuid, e, ev.data);
    }
  }

  lemma FrameWriteKeeps(uuid: Uuid, s: Session, ev: Event, e: Emission)
    requires Inv(uuid, s, e) && s.open && ev.Write? && Legal(uuid, s, ev)
    requires s.w.buf == [] && !s.w.direct && ev.data != []
    ensures Inv(uuid, Apply(uuid, s, ev), Grown(s, ev, e))
  {
    var c := Config(uuid, true, s.readDirect);
    var r := WriteFresh(c, s.w, ev.data, ev.answers);
    WriteFreshFrames(c, s.w, ev.data, ev.answers);
    GrownEncodes(uuid, s, ev, e);
    var t := Apply(uuid, s, ev);
    Associate(s.wire, r.sent, Unsent(r.w));
    if r.outcome.Ready? {
      assert ev.data[..|ev.data|] == ev.data;
      assert t.acked + [] == t.acked;
    }
    assert t.acked + t.owed == s.acked + ev.data;
    PrefixOf(t.wire, Unsent(t.w), Encode(uuid, Grown(s, ev, e)));
  }

  lemma FlushKeeps(uuid: Uuid, s: Session, ev: Event, e: Emission)
    requires Inv(uuid, s, e) && s.open && ev.Flush? && Legal(uuid, s, ev)
    ensures Inv(uuid, Apply(uuid, s, ev), e)
  {
    var r := PollFlush(s.w, ev.answers, ev.own);
    DrainSends(s.w, ev.answers);
    SentAndUnsent(s.w, Drain(s.w, ev.answers));
    Associate(s.wire, r.sent, Unsent(r.w));
    PrefixOf(s.wire + r.sent, Unsent(r.w), Encode(uuid, e));
  }

  /** What the handoff has sent belongs to the emission with an empty `direct`
      payload at its end. */
  lemma HandoffFrame(uuid: Uuid, s: Session, e: Emission, sent: seq<Byte>)
    requires Inv(uuid, s, e) && s.open && !s.w.direct && !s.w.pendingDirect
    requires sent <= Unsent(s.w) + Chunk(uuid, [], DIRECT, s.w.uuidOnce)
    ensures var f := e.(direct := Some([]));
            && f.Valid() && Payload(f) == Payload(e) && s.wire + sent <= Encode(uuid, f)
            && (sent == Unsent(s.w) + Chunk(uuid, [], DIRECT, s.w.uuidOnce) ==> s.wire + sent == Encode(uuid, f))
  {
    var frame := Chunk(uuid, [], DIRECT, s.w.uuidOnce);
    var f := e.(direct := Some([]));
    EncodeDirect(uuid, e, []);
    assert Payload(e) + [] == Payload(e);
    Associate(s.wire, Unsent(s.w), frame);
    assert Encode(uuid, f) == s.wire + (Unsent(s.w) + frame);
    var rest := (Unsent(s.w) + frame)[|sent|..];
    assert Unsent(s.w) + frame == sent + rest;
    Associate(s.wire, sent, rest);
    PrefixOf(s.wire + sent, rest, Encode(uuid, f));
  }

  lemma HandoffKeeps(uuid: Uuid, s: Session, ev: Event, e: Emission) returns (f: Emission)
    requires Inv(uuid, s, e) && s.open && ev.SendHandoff? && Legal(uuid, s, ev)
    ensures Inv(uuid, Apply(uuid, s, ev), f)
  {
    var c := Config(uuid, true, s.readDirect);
    var r := Handoff(c, s.w, ev.answers, ev.before, ev.last);
    var t := Apply(uuid, s, ev);
    f := e;
    assert s.wire + [] == s.wire && s.acked + [] == s.acked;
    if s.readDirect && !s.w.direct {
      HandoffSends(c, s.w, ev.answers, ev.before, ev.last);
      if s.w.pendingDirect {
        assert r.sent <= Unsent(s.w);
        var rest := Unsent(s.w)[|r.sent|..];
        assert Unsent(s.w) == r.sent + rest;
        Associate(s.wire, r.sent, rest);
        PrefixOf(t.wire, rest, Encode(uuid, e));
      } else {
        f := e.(direct := Some([]));
        HandoffFrame(uuid, s, e, r.sent);
        assert t.wire + [] == t.wire;
      }
    }
  }

  lemma StepKeeps(uuid: Uuid, s: Session, ev: Event, e: Emission) returns (f: Emission)
    requires Inv(uuid, s, e) && Legal(uuid, s, ev)
    ensures Inv(uuid, Apply(uuid, s, ev), f)
  {
    f := e;
    if s.open {
      match ev {
        case Write(data, _) =>
          if s.w.buf != [] {
            RetryKeeps(uuid, s, ev, e);
          } else if s.w.direct || data == [] {
            RawWriteKeeps(uuid, s, ev, e);
            f := Grown(s, ev, e);
          } else {
            FrameWriteKeeps(uuid, s, ev, e);
            f := Grown(s, ev, e);
          }
        case Flush(_, _) => FlushKeeps(uuid, s, ev, e);
        case ClientDirect =>
        case SendHandoff(_, _, _) => f := HandoffKeeps(uuid, s, ev, e);
      }
    }
  }

  lemma {:induction false} RunKeeps(uuid: Uuid, events: seq<Event>) returns (e: Emission)
    requires LegalRun(uuid, events)
    ensures Inv(uuid, Replay(uuid, events), e)
    decreases |events|
  {
    if events == [] {
      e := Emission([], None, []);
      assert Encode(uuid, e) == [] && Payload(e) == [];
    } else {
      var before := events[..|events| - 1];
      assert forall i :: 0 <= i < |before| ==> before[..i] == events[..i];
      var d := RunKeeps(uuid, before);
      e := StepKeeps(uuid, Replay(uuid, before), events[|events| - 1], d);
    }
  }

  lemma PrefixReadsPrefix(uuid: Uuid, a: seq<Byte>, b: seq<Byte>)
    requires a <= b
    ensures Run(uuid, Fresh, a).out <= Run(uuid, Fresh, b).out
  {
    RunSplits(uuid, Fresh, a, b[|a|..]);
    assert a + b[|a|..] == b;
  }

  /** The server-side round trip, for every legal run of writes, flushes,
      client `direct` commands and handoffs, every pattern of partial and
      refused writes below, and every way the network cuts the bytes: the peer
      never sees anything but a prefix of the payload, and once no frame is
      waiting it has exactly the bytes the writer reported as written.  The
      peer's switch to direct copy is reported by exactly one of its calls if
      the writer has switched, and by none otherwise. */
  lemma ServerRoundTrip(uuid: Uuid, events: seq<Event>, chunks: seq<seq<Byte>>)
    requires LegalRun(uuid, events)
    requires Concat(chunks) == Replay(uuid, events).wire
    ensures var s := Replay(uuid, events);
            var peer := RunChunks(uuid, Fresh, chunks);
            && peer.out <= s.acked + s.owed
            && (s.open && s.w.buf == [] ==>
                  && peer.out == s.acked
                  && Switches(uuid, Fresh, chunks) == if s.w.direct then 1 else 0)
  {
    var s := Replay(uuid, events);
    var e := RunKeeps(uuid, events);
    FragmentationIndependence(uuid, Fresh, chunks);
    EmissionRead(uuid, e);
    if s.open {
      PrefixOf(s.wire, Unsent(s.w), Encode(uuid, e));
    }
    PrefixReadsPrefix(uuid, s.wire, Encode(uuid, e));
    if s.open && s.w.buf == [] {
      assert s.wire + [] == s.wire && s.acked + [] == s.acked;
    }
  }

  lemma OneMoreEvent(uuid: Uuid, events: seq<Event>, ev: Event)
    ensures Replay(uuid, events + [ev]) == Apply(uuid, Replay(uuid, events), ev)
  {
    assert (events + [ev])[..|events|] == events;
  }

  /** The handoff does its work.  In every legal run in which the client's `direct`
      has arrived, a handoff that comes back leaves the writer in direct copy, with
      nothing waiting, and the peer has read all that was reported and has been told
      to switch, once.  Before that `direct` it sends nothing and changes nothing. */
  lemma HandoffSwitches(
    uuid: Uuid, events: seq<Event>, answers: seq<Answer>, before: FlushAnswer, last: FlushAnswer,
    chunks: seq<seq<Byte>>)
    requires LegalRun(uuid, events + [SendHandoff(answers, before, last)]) && Replay(uuid, events).open
    requires Concat(chunks) == Replay(uuid, events + [SendHandoff(answers, before, last)]).wire
    ensures var s := Replay(uuid, events);
            var t := Replay(uuid, events + [SendHandoff(answers, before, last)]);
            && (!s.readDirect ==> t == s)
            && (s.readDirect && t.open ==>
                  && t.w.direct && t.w.buf == []
                  && RunChunks(uuid, Fresh, chunks).out == t.acked == s.acked
                  && Switches(uuid, Fresh, chunks) == 1)
  {
    var ev := SendHandoff(answers, before, last);
    var s := Replay(uuid, events);
    var c := Config(uuid, true, s.readDirect);
    OneMoreEvent(uuid, events, ev);
    var e := RunKeeps(uuid, events + [ev]);
    ServerRoundTrip(uuid, events + [ev], chunks);
    assert s.wire + [] == s.wire;
    if !s.readDirect || s.w.direct {
      NoHandoffDue(c, s.w, answers, before, last);
    } else {
      LegalBefore(uuid, events, ev);
      var d := RunKeeps(uuid, events);
      HandoffSends(c, s.w, answers, before, last);
    }
  }

  lemma LegalBefore(uuid: Uuid, events: seq<Event>, ev: Event)
    requires LegalRun(uuid, events + [ev])
    ensures LegalRun(uuid, events) && Legal(uuid, Replay(uuid, events), ev)
  {
    var all := events + [ev];
    forall i | 0 <= i < |events|
      ensures Legal(uuid, Replay(uuid, events[..i]), events[i])
    {
      assert all[..i] == events[..i] && all[i] == events[i];
    }
    assert all[..|events|] == events && all[|events|] == ev;
  }
}
