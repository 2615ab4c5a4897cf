/**
 The framing writer: how poll_write, poll_flush and the direct-copy handoff put
 frames on a transport that may take any part of what it is offered, or nothing.

 A transport's behaviour during one call is a list of answers; running out of
 answers is the same as not being ready.
 */
module VisionWriter {
  import opened Bytes
  import opened VisionCodec
  import TlsRecords

  datatype Answer = Accept(n: nat) | NotReady | Broken

  datatype Outcome = Ready(n: nat) | Pending | Failed

  /** The writer's fields. */
  datatype Writer = Writer(
    uuidOnce: bool, direct: bool, buf: seq<Byte>, pos: nat, consumed: nat, pendingDirect: bool)
  {
    /** A frame in the buffer still has bytes to send and payload to report. */
    ghost predicate Valid() {
      && (buf != [] ==> pos < |buf| && consumed > 0 && !direct)
      && (buf == [] ==> pos == 0 && !pendingDirect)
      && (uuidOnce ==> buf == [])
    }
  }

  const FreshWriter := Writer(true, false, [], 0, 0, false)

  datatype Config = Config(uuid: Uuid, serverInbound: bool, readDirect: bool)

  /** One call: the new fields, the bytes that reached the transport, the result
      and how many of the transport's answers were used. */
  datatype Call = Call(w: Writer, sent: seq<Byte>, outcome: Outcome, used: nat)

  function Drain(w: Writer, answers: seq<Answer>): (c: Call)
    ensures c.used <= |answers|
    decreases |answers|
  {
    if w.pos >= |w.buf| then
      Call(w.(buf := [], pos := 0, direct := w.direct || w.pendingDirect, pendingDirect := false), [], Ready(0), 0)
    else if answers == [] then
      Call(w, [], Pending, 0)
    else if answers[0].NotReady? then
      Call(w, [], Pending, 1)
    else if answers[0].Broken? || answers[0].n == 0 then
      Call(w, [], Failed, 1)
    else
      var mid := w.pos + Min(answers[0].n, |w.buf| - w.pos);
      var rest := Drain(w.(pos := mid), answers[1..]);
      Call(rest.w, w.buf[w.pos..mid] + rest.sent, rest.outcome, 1 + rest.used)
  }

  /** Bytes handed to the transport as they are. */
  function PassThrough(w: Writer, data: seq<Byte>, answers: seq<Answer>): Call {
    if answers == [] then
      Call(w, [], Pending, 0)
    else if answers[0].NotReady? then
      Call(w, [], Pending, 1)
    else if answers[0].Broken? then
      Call(w, [], Failed, 1)
    else
      var n := Min(answers[0].n, |data|);
      Call(w, data[..n], Ready(n), 1)
  }

  predicate ApplicationData(data: seq<Byte>) {
    |data| >= 6 && data[..3] == TlsRecords.APPLICATION_DATA && TlsRecords.Whole(data)
  }

  function Command(c: Config, data: seq<Byte>): Byte {
    if c.serverInbound then
      if c.readDirect then DIRECT else CONTINUE
    else if ApplicationData(data) then
      DIRECT
    else
      END
  }

  /** The fields just after a new frame was built. */
  function Framed(c: Config, w: Writer, data: seq<Byte>): Writer {
    w.(uuidOnce := false,
       buf := Chunk(c.uuid, data, Command(c, data), w.uuidOnce),
       pos := 0,
       consumed := |data|,
       pendingDirect := Command(c, data) == DIRECT)
  }

  /** A write with no frame waiting. */
  function WriteFresh(c: Config, w: Writer, data: seq<Byte>, answers: seq<Answer>): Call {
    if w.direct || data == [] then
      PassThrough(w, data, answers)
    else
      var d := Drain(Framed(c, w, data), answers);
      if d.outcome.Ready? then
        Call(d.w.(consumed := 0), d.sent, Ready(|data|), d.used)
      else
        d
  }

  function PollWrite(c: Config, w: Writer, data: seq<Byte>, answers: seq<Answer>): Call {
    if w.buf == [] then
      WriteFresh(c, w, data, answers)
    else
      var d := Drain(w, answers);
      if !d.outcome.Ready? then
        d
      else if d.w.consumed > 0 then
        Call(d.w.(consumed := 0), d.sent, Ready(d.w.consumed), d.used)
      else
        var f := WriteFresh(c, d.w, data, answers[d.used..]);
        Call(f.w, d.sent + f.sent, f.outcome, d.used + f.used)
  }

  /** What the transport says to a flush or shutdown of its own. */
  datatype FlushAnswer = FlushDone | FlushNotReady | FlushBroken

  function Flushing(answer: FlushAnswer): Outcome {
    match answer
    case FlushDone => Ready(0)
    case FlushNotReady => Pending
    case FlushBroken => Failed
  }

  /** poll_flush and poll_shutdown drain the frame first, and then report what the
      transport says: they can come back pending with the frame gone. */
  function PollFlush(w: Writer, answers: seq<Answer>, own: FlushAnswer): Call {
    var d := Drain(w, answers);
    if d.outcome.Ready? then d.(outcome := Flushing(own)) else d
  }

  function NeedsHandoff(c: Config, w: Writer): bool {
    c.serverInbound && c.readDirect && !w.direct
  }

  // -------------------------------------------------------------- what drains

  /** A call sent a prefix of what was left, and succeeded exactly when nothing
      is left. */
  ghost predicate Sends(w: Writer, d: Call)
    requires w.pos <= |w.buf|
  {
    if d.outcome.Ready? then
      && d.sent == w.buf[w.pos..]
      && d.w == w.(buf := [], pos := 0, direct := w.direct || w.pendingDirect, pendingDirect := false)
    else
      && d.w == w.(pos := w.pos + |d.sent|)
      && d.w.pos < |w.buf|
      && d.sent == w.buf[w.pos..d.w.pos]
  }

  lemma SendsMore(w: Writer, mid: nat, d: Call, all: Call)
    requires w.pos <= mid <= |w.buf| && Sends(w.(pos := mid), d)
    requires all.w == d.w && all.sent == w.buf[w.pos..mid] + d.sent && all.outcome == d.outcome
    ensures Sends(w, all)
  {
    if d.outcome.Ready? {
      assert w.buf[w.pos..mid] + w.buf[mid..] == w.buf[w.pos..];
    } else {
      assert w.buf[w.pos..mid] + w.buf[mid..d.w.pos] == w.buf[w.pos..d.w.pos];
    }
  }

  /** A drain that the first answer starts. */
  lemma DrainSteps(w: Writer, answers: seq<Answer>) returns (mid: nat, d: Call, all: Call)
    requires w.pos < |w.buf| && answers != [] && answers[0].Accept? && answers[0].n > 0
    ensures all == Drain(w, answers) && mid == w.pos + Min(answers[0].n, |w.buf| - w.pos)
    ensures d == Drain(w.(pos := mid), answers[1..])
    ensures all.w == d.w && all.sent == w.buf[w.pos..mid] + d.sent && all.outcome == d.outcome
    ensures all.used == 1 + d.used
  {
    mid := w.pos + Min(answers[0].n, |w.buf| - w.pos);
    d := Drain(w.(pos := mid), answers[1..]);
    all := Drain(w, answers);
  }

  lemma {:induction false} DrainSends(w: Writer, answers: seq<Answer>)
    requires w.pos <= |w.buf|
    ensures Sends(w, Drain(w, answers))
    decreases |answers|
  {
    if w.pos < |w.buf| && answers != [] && answers[0].Accept? && answers[0].n > 0 {
      var mid, d, all := DrainSteps(w, answers);
      DrainSends(w.(pos := mid), answers[1..]);
      SendsMore(w, mid, d, all);
    } else {
      DrainStays(w, answers);
    }
  }

  lemma DrainStays(w: Writer, answers: seq<Answer>)
    requires w.pos <= |w.buf|
    requires w.pos == |w.buf| || answers == [] || !answers[0].Accept? || answers[0].n == 0
    ensures Sends(w, Drain(w, answers))
  {
  }

  /** The payloads that a client sends with `direct`: application-data records, whole
      ones and nothing else, with at least a byte in them. */
  lemma ApplicationDataIff(data: seq<Byte>)
    ensures ApplicationData(data) <==> |data| >= 6 && TlsRecords.MadeOfRecords(data)
  {
    TlsRecords.WholeIffRecords(data);
  }

  // ------------------------------------------------------------- what calls tell

  /** What a caller is told follows the last answer that the call used: to wait if the
      transport was not ready or has no more answers, of an error if it was broken or
      took nothing.  Each answer before that one was progress. */
  ghost predicate Tells(answers: seq<Answer>, outcome: Outcome, used: nat) {
    && used <= |answers|
    && (forall i :: 0 <= i < used - 1 ==> answers[i].Accept?)
    && (used > 0 && answers[used - 1].NotReady? ==> outcome.Pending?)
    && (used > 0 && answers[used - 1].Broken? ==> outcome.Failed?)
    && (outcome.Pending? ==> used == |answers| || (used > 0 && answers[used - 1].NotReady?))
    && (outcome.Failed? ==> used > 0 && (answers[used - 1].Broken? || answers[used - 1] == Accept(0)))
  }

  lemma TellsLater(answers: seq<Answer>, outcome: Outcome, used: nat)
    requires answers != [] && answers[0].Accept? && Tells(answers[1..], outcome, used)
    ensures Tells(answers, outcome, used + 1)
  {
    var rest := answers[1..];
    assert forall i :: 0 <= i < |rest| ==> rest[i] == answers[i + 1];
  }

  lemma {:induction false} DrainTells(w: Writer, answers: seq<Answer>)
    requires w.pos <= |w.buf|
    ensures var d := Drain(w, answers); Tells(answers, d.outcome, d.used)
    decreases |answers|
  {
    if w.pos < |w.buf| && answers != [] && answers[0].Accept? && answers[0].n > 0 {
      var v := w.(pos := w.pos + Min(answers[0].n, |w.buf| - w.pos));
      DrainTells(v, answers[1..]);
      var d := Drain(v, answers[1..]);
      TellsLater(answers, d.outcome, d.used);
    }
  }

  /** So for every write, of a frame, of what waits, or raw. */
  lemma WriteTells(c: Config, w: Writer, data: seq<Byte>, answers: seq<Answer>)
    requires w.Valid()
    ensures var r := PollWrite(c, w, data, answers); Tells(answers, r.outcome, r.used)
  {
    if w.buf != [] {
      DrainTells(w, answers);
      DrainSends(w, answers);
    } else if !w.direct && data != [] {
      DrainTells(Framed(c, w, data), answers);
    }
  }

  /** How much the transport was ready to take. */
  function Taken(answers: seq<Answer>): nat {
    if answers == [] then 0 else (if answers[0].Accept? then answers[0].n else 0) + Taken(answers[1..])
  }

  lemma TakenMore(answers: seq<Answer>, k: nat)
    requires k < |answers|
    ensures Taken(answers[..k + 1]) == (if answers[0].Accept? then answers[0].n else 0) + Taken(answers[1..][..k])
  {
    assert answers[..k + 1][1..] == answers[1..][..k];
  }

  lemma TakesMore(w: Writer, answers: seq<Answer>, mid: nat, d: Call, all: Call)
    requires w.pos < |w.buf| && answers != [] && answers[0].Accept? && d.used < |answers|
    requires mid == w.pos + Min(answers[0].n, |w.buf| - w.pos)
    requires |d.sent| == Min(Taken(answers[1..][..d.used]), |w.buf| - mid)
    requires all.used == 1 + d.used && all.sent == w.buf[w.pos..mid] + d.sent
    ensures |all.sent| == Min(Taken(answers[..all.used]), |w.buf| - w.pos)
  {
    TakenMore(answers, d.used);
  }

  lemma {:induction false} DrainTakes(w: Writer, answers: seq<Answer>)
    requires w.pos <= |w.buf|
    ensures var d := Drain(w, answers); |d.sent| == Min(Taken(answers[..d.used]), |w.buf| - w.pos)
    decreases |answers|
  {
    if w.pos < |w.buf| && answers != [] {
      if answers[0].Accept? && answers[0].n > 0 {
        var mid, d, all := DrainSteps(w, answers);
        DrainTakes(w.(pos := mid), answers[1..]);
        TakesMore(w, answers, mid, d, all);
      } else {
        TakenMore(answers, 0);
      }
    }
  }

  /** A write sends as much as the transport is ready to take, of what there is to
      send: the rest of a frame that waits, a new frame, or the bytes themselves. */
  lemma WriteTakes(c: Config, w: Writer, data: seq<Byte>, answers: seq<Answer>)
    requires w.Valid()
    ensures var r := PollWrite(c, w, data, answers);
            var all := if w.buf != [] then Unsent(w)
                       else if w.direct then data
                       else if data == [] then []
                       else Chunk(c.uuid, data, Command(c, data), w.uuidOnce);
            r.used <= |answers| && |r.sent| == Min(Taken(answers[..r.used]), |all|)
  {
    WriteTells(c, w, data, answers);
    if w.buf != [] {
      DrainTakes(w, answers);
      DrainSends(w, answers);
    } else if !w.direct && data != [] {
      DrainTakes(Framed(c, w, data), answers);
    } else if answers != [] {
      assert answers[..1][1..] == [];
    }
  }

  /** And for a flush: as long as the frame is not gone it tells that of the frame, and
      then what the transport says of its own. */
  lemma FlushTells(w: Writer, answers: seq<Answer>, own: FlushAnswer)
    requires w.Valid()
    ensures var r := PollFlush(w, answers, own);
            if r.w.buf != [] then
              Tells(answers, r.outcome, r.used) && !r.outcome.Ready?
            else
              && (r.outcome.Ready? <==> own.FlushDone?)
              && (r.outcome.Pending? <==> own.FlushNotReady?)
              && (r.outcome.Failed? <==> own.FlushBroken?)
  {
    DrainTells(w, answers);
    DrainSends(w, answers);
  }

  /** What a writer still owes the transport. */
  function Unsent(w: Writer): seq<Byte> {
    if w.pos <= |w.buf| then w.buf[w.pos..] else []
  }

  /** Sent and still unsent together are what there was to send. */
  lemma SentAndUnsent(w: Writer, d: Call)
    requires w.pos <= |w.buf| && Sends(w, d)
    ensures d.sent + Unsent(d.w) == Unsent(w)
  {
    if !d.outcome.Ready? {
      assert w.buf[w.pos..d.w.pos] + w.buf[d.w.pos..] == w.buf[w.pos..];
    }
  }

  /** Bytes handed to the transport as they are. */
  lemma PassThroughSends(w: Writer, data: seq<Byte>, answers: seq<Answer>)
    ensures var r := PassThrough(w, data, answers);
            && r.w == w
            && (r.outcome.Ready? ==> r.outcome.n <= |data| && r.sent == data[..r.outcome.n])
            && (!r.outcome.Ready? ==> r.sent == [])
  {
  }

  /** One frame, exactly once: a write with nothing waiting puts its frame on the
      wire or keeps the unsent rest of it, and says how much payload it framed
      once the last byte is gone. */
  lemma WriteFreshFrames(c: Config, w: Writer, data: seq<Byte>, answers: seq<Answer>)
    requires w.Valid() && w.buf == [] && !w.direct && data != []
    ensures var r := WriteFresh(c, w, data, answers);
            && r.w.Valid()
            && !r.w.uuidOnce
            && r.sent + Unsent(r.w) == Chunk(c.uuid, data, Command(c, data), w.uuidOnce)
            && (r.outcome.Ready? <==> r.w.buf == [])
            && (r.outcome.Ready? ==>
                  r.outcome.n == |data| && r.w.consumed == 0 && r.w.direct == (Command(c, data) == DIRECT))
            && (!r.outcome.Ready? ==>
                  r.w.consumed == |data| && !r.w.direct && r.w.pendingDirect == (Command(c, data) == DIRECT))
  {
    var f := Framed(c, w, data);
    var d := Drain(f, answers);
    DrainSends(f, answers);
    SentAndUnsent(f, d);
    assert Unsent(f) == f.buf;
  }

  /** A retry, with the same bytes or more, sends only the rest of the waiting
      frame, and reports the length that was framed and not the length offered. */
  lemma RetryOnlyDrains(c: Config, w: Writer, data: seq<Byte>, answers: seq<Answer>)
    requires w.Valid() && w.buf != []
    ensures var r := PollWrite(c, w, data, answers);
            && r.w.Valid()
            && r.w.uuidOnce == w.uuidOnce
            && r.sent + Unsent(r.w) == Unsent(w)
            && (r.outcome.Ready? <==> r.w.buf == [])
            && (r.outcome.Ready? ==>
                  r.outcome.n == w.consumed && r.w.consumed == 0 && r.w.direct == w.pendingDirect)
            && (!r.outcome.Ready? ==>
                  r.w.consumed == w.consumed && !r.w.direct && r.w.pendingDirect == w.pendingDirect && r.w.buf == w.buf)
  {
    DrainSends(w, answers);
    SentAndUnsent(w, Drain(w, answers));
  }

  /** So the bytes it is offered make no difference. */
  lemma RetryIgnoresData(c: Config, w: Writer, data: seq<Byte>, other: seq<Byte>, answers: seq<Answer>)
    requires w.Valid() && w.buf != []
    ensures PollWrite(c, w, data, answers) == PollWrite(c, w, other, answers)
  {
    DrainSends(w, answers);
  }

  /** What a flush and then a retry put on the wire beyond the waiting frame. */
  function SentAgain(
    c: Config, w: Writer, data: seq<Byte>, a1: seq<Answer>, own: FlushAnswer, a2: seq<Answer>): seq<Byte>
  {
    var flushed := PollFlush(w, a1, own);
    if flushed.w.buf != [] then
      []
    else if w.pendingDirect then
      PassThrough(flushed.w, data, a2).sent
    else
      Chunk(c.uuid, data, Command(c, data), false)
  }

  /** A flush between a refused write and its retry, for every answer of the
      transport.  If the frame still waits after the flush, the two send what was
      left of it and nothing else.  If the flush finishes the frame, the retry starts
      over, whatever the flush reported: it sends its bytes again, in a second frame
      or, after `direct`, raw.  So the payload is sent once exactly when the frame
      still waits, or the retry sends nothing. */
  lemma FlushThenRetry(
    c: Config, w: Writer, data: seq<Byte>, a1: seq<Answer>, own: FlushAnswer, a2: seq<Answer>)
    requires w.Valid() && w.buf != [] && data != []
    ensures var flushed := PollFlush(w, a1, own);
            var retried := PollWrite(c, flushed.w, data, a2);
            var again := SentAgain(c, w, data, a1, own, a2);
            && (flushed.sent + retried.sent) + Unsent(retried.w) == Unsent(w) + again
            && (again == [] <==> flushed.w.buf != [] || (w.pendingDirect && retried.sent == []))
            && (w.pendingDirect ==> again <= data)
            && (retried.outcome.Ready? ==>
                  retried.outcome.n == if flushed.w.buf != [] then w.consumed
                                       else if w.pendingDirect then |again| else |data|)
  {
    var flushed := PollFlush(w, a1, own);
    var retried := PollWrite(c, flushed.w, data, a2);
    DrainSends(w, a1);
    SentAndUnsent(w, Drain(w, a1));
    Associate(flushed.sent, retried.sent, Unsent(retried.w));
    if flushed.w.buf != [] {
      RetryOnlyDrains(c, flushed.w, data, a2);
      assert Unsent(w) + [] == Unsent(w);
    } else if w.pendingDirect {
      PassThroughSends(flushed.w, data, a2);
      assert flushed.sent + [] == flushed.sent && retried.sent + [] == retried.sent;
    } else {
      WriteFreshFrames(c, flushed.w, data, a2);
      assert flushed.sent + [] == flushed.sent;
    }
  }

  /** And a flush can come back pending with the frame gone: its outcome does not
      tell. */
  lemma PendingFlushCanFinish(w: Writer, n: nat)
    requires w.Valid() && w.buf != [] && n >= |w.buf| - w.pos
    ensures var flushed := PollFlush(w, [Accept(n)], FlushNotReady);
            flushed.outcome == Pending && flushed.w.buf == [] && flushed.sent == Unsent(w)
  {
    var done := w.(pos := |w.buf|);
    assert [Accept(n)][1..] == [];
    assert Drain(done, []).outcome == Ready(0) && Drain(done, []).sent == [];
    assert w.buf[w.pos..|w.buf|] + [] == Unsent(w);
  }

  /** A transport that takes all it is offered. */
  lemma WriteAtOnce(c: Config, w: Writer, data: seq<Byte>)
    requires w.Valid() && w.buf == [] && data != []
    ensures var r := PollWrite(c, w, data, [Accept(|data| + OPENING)]);
            && r.outcome == Ready(|data|)
            && if w.direct then
                 r.sent == data && r.w == w
               else
                 && r.sent == Chunk(c.uuid, data, Command(c, data), w.uuidOnce)
                 && r.w == w.(uuidOnce := false, direct := Command(c, data) == DIRECT, consumed := 0)
  {
    var answers := [Accept(|data| + OPENING)];
    if w.direct {
      assert data[..|data|] == data;
    } else {
      var f := Framed(c, w, data);
      var done := f.(pos := |f.buf|);
      assert |f.buf| <= |data| + OPENING;
      assert answers[1..] == [];
      assert Drain(done, []).sent == [] && Drain(done, []).outcome == Ready(0);
      assert Drain(f, answers).sent == f.buf[0..|f.buf|] + [];
      assert f.buf[0..|f.buf|] == f.buf;
    }
  }

  // ------------------------------------------------------------------ handoff

  /** The answers an awaiting caller sees: it waits out the transport's pauses. */
  function Awaited(answers: seq<Answer>): seq<Answer> {
    if answers == [] then
      []
    else if answers[0].NotReady? then
      Awaited(answers[1..])
    else
      [answers[0]] + Awaited(answers[1..])
  }

  /** An empty `direct` frame, and then a flush of the transport. */
  function SendDirect(c: Config, w: Writer, answers: seq<Answer>, last: FlushAnswer): Call {
    var frame := Chunk(c.uuid, [], DIRECT, w.uuidOnce);
    var after := w.(uuidOnce := false);
    var d := Drain(after.(buf := frame, pos := 0), answers);
    if !d.outcome.Ready? then
      Call(after, d.sent, d.outcome, d.used)
    else
      Call(after.(direct := after.direct || last.FlushDone?), d.sent, Flushing(last), d.used)
  }

  /** The authenticated downlink handoff: flush, then an empty `direct` frame, then
      a flush of the transport.  An outcome other than ready leaves the caller inside
      the handoff, which holds the stream exclusively, so nothing else follows. */
  function Handoff(c: Config, w: Writer, answers: seq<Answer>, before: FlushAnswer, last: FlushAnswer): Call {
    if !NeedsHandoff(c, w) then
      Call(w, [], Ready(0), 0)
    else
      var live := Awaited(answers);
      var flushed := PollFlush(w, live, before);
      if !flushed.outcome.Ready? then
        flushed
      else
        var h := SendDirect(c, flushed.w, live[flushed.used..], last);
        Call(h.w, flushed.sent + h.sent, h.outcome, flushed.used + h.used)
  }

  lemma {:induction false} AwaitedJoined(a: seq<Answer>, b: seq<Answer>)
    ensures Awaited(a + b) == Awaited(a) + Awaited(b)
    decreases |a|
  {
    if a == [] {
      assert a + b == b;
    } else {
      assert (a + b)[1..] == a[1..] + b;
      AwaitedJoined(a[1..], b);
    }
  }

  /** The handoff waits out every pause of the transport, wherever it comes, but no
      failure: that it reports at once. */
  lemma HandoffWaits(
    c: Config, w: Writer, a: seq<Answer>, b: seq<Answer>, before: FlushAnswer, last: FlushAnswer)
    requires w.Valid()
    ensures Handoff(c, w, a + [NotReady] + b, before, last) == Handoff(c, w, a + b, before, last)
    ensures c.serverInbound && c.readDirect && !w.direct && w.buf != [] ==>
              var r := Handoff(c, w, [Broken] + b, before, last);
              r.outcome.Failed? && r.sent == [] && r.w == w
  {
    AwaitedJoined(a + [NotReady], b);
    AwaitedJoined(a, [NotReady]);
    AwaitedJoined(a, b);
    assert Awaited([NotReady]) == Awaited([NotReady][1..]) == [];
    assert Awaited(a) + [] == Awaited(a);
    assert Awaited([Broken] + b)[0] == Broken;
  }

  /** A stream that is not the server's side, has not been told `direct`, or is in
      direct copy already owes no handoff: nothing is sent, and nothing changes. */
  lemma NoHandoffDue(c: Config, w: Writer, answers: seq<Answer>, before: FlushAnswer, last: FlushAnswer)
    requires !c.serverInbound || !c.readDirect || w.direct
    ensures Handoff(c, w, answers, before, last) == Call(w, [], Ready(0), 0)
  {
  }

  /** A frame sent on its own: a prefix of it gets out, all of it exactly when the
      transport took it. */
  lemma FrameOut(w: Writer, frame: seq<Byte>, answers: seq<Answer>)
    ensures var d := Drain(w.(buf := frame, pos := 0), answers);
            d.sent <= frame && (d.outcome.Ready? <==> d.sent == frame)
  {
    var filled := w.(buf := frame, pos := 0);
    var d := Drain(filled, answers);
    DrainSends(filled, answers);
    SentAndUnsent(filled, d);
    assert Unsent(filled) == frame;
    assert |d.sent| + |Unsent(d.w)| == |frame|;
  }

  /** The handoff finishes a waiting frame and sends one empty `direct` frame or a
      prefix of it.  It gets through exactly when all of that is gone and the
      transport has flushed it, and it opens direct copy exactly then, or when the
      frame it finished was a `direct` frame itself; a frame it cannot finish keeps
      waiting. */
  lemma HandoffSends(c: Config, w: Writer, answers: seq<Answer>, before: FlushAnswer, last: FlushAnswer)
    requires w.Valid() && c.serverInbound && c.readDirect && !w.direct
    ensures var r := Handoff(c, w, answers, before, last);
            var frame := Chunk(c.uuid, [], DIRECT, w.uuidOnce);
            var after := w.(buf := [], pos := 0, pendingDirect := false,
                            uuidOnce := w.uuidOnce && !before.FlushDone?);
            && r.sent <= Unsent(w) + frame
            && (r.outcome.Ready? <==> r.sent == Unsent(w) + frame && last.FlushDone?)
            && (r.w.direct <==> r.outcome.Ready? || (w.pendingDirect && |r.sent| >= |Unsent(w)|))
            && (|r.sent| >= |Unsent(w)| ==> r.w == after.(direct := r.outcome.Ready? || w.pendingDirect))
            && (|r.sent| < |Unsent(w)| ==> r.w.Valid() && r.w.buf == w.buf && r.sent + Unsent(r.w) == Unsent(w))
  {
    var live := Awaited(answers);
    var drained := Drain(w, live);
    DrainSends(w, live);
    SentAndUnsent(w, drained);
    var frame := Chunk(c.uuid, [], DIRECT, w.uuidOnce);
    assert |frame| >= 5;
    if drained.outcome.Ready? {
      assert drained.sent == Unsent(w) && Unsent(w) + [] == Unsent(w);
      if before.FlushDone? {
        FrameOut(drained.w.(uuidOnce := false), frame, live[drained.used..]);
      }
    } else {
      assert |drained.sent| + |Unsent(drained.w)| == |Unsent(w)|;
    }
  }
}
