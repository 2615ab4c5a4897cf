/** The stream object: a transport below, plaintext above. */
module VisionStreams {
  import opened Bytes
  import opened VisionCodec
  import opened VisionUnpadding
  import opened VisionWriter

  /** How the transport answers one read: with some of what has arrived, not
      yet, or with an error.  Giving nothing is end of stream. */
  datatype ReadAnswer = Give(n: nat) | NoData | ReadError

  datatype ReadOutcome = ReadReady | ReadPending | ReadFailed

  /** The size of the buffer that the transport is read into. */
  const TEMPORARY := 8192

  /** What a drain will do, told after it has used some answers. */
  ghost predicate Continues(goal: Call, sent: seq<Byte>, used: nat, w: Writer, rest: seq<Answer>) {
    var r := Drain(w, rest);
    goal == Call(r.w, sent + r.sent, r.outcome, used + r.used)
  }

  lemma DrainStops(goal: Call, sent: seq<Byte>, used: nat, w: Writer, rest: seq<Answer>)
    requires Continues(goal, sent, used, w, rest)
    requires w.pos >= |w.buf| || rest == [] || !rest[0].Accept? || rest[0].n == 0
    ensures goal.sent == sent
    ensures w.pos < |w.buf| ==> goal.w == w
    ensures goal.used == used + if w.pos >= |w.buf| || rest == [] then 0 else 1
    ensures goal.outcome == if w.pos >= |w.buf| then Ready(0)
                            else if rest == [] || rest[0].NotReady? then Pending
                            else Failed
    ensures w.pos >= |w.buf| ==>
              goal.w == w.(buf := [], pos := 0, direct := w.direct || w.pendingDirect, pendingDirect := false)
  {
    assert sent + [] == sent;
  }

  lemma DrainAccepts(goal: Call, sent: seq<Byte>, used: nat, w: Writer, rest: seq<Answer>)
    requires rest != [] && Continues(goal, sent, used, w, rest)
    requires w.pos < |w.buf| && rest[0].Accept? && rest[0].n > 0
    ensures var n := Min(rest[0].n, |w.buf| - w.pos);
            Continues(goal, sent + w.buf[w.pos..w.pos + n], used + 1, w.(pos := w.pos + n), rest[1..])
  {
    var n := Min(rest[0].n, |w.buf| - w.pos);
    Associate(sent, w.buf[w.pos..w.pos + n], Drain(w.(pos := w.pos + n), rest[1..]).sent);
  }

  /** What one read gets of the bytes that have not been taken. */
  function Given(answer: ReadAnswer, room: nat, left: seq<Byte>): seq<Byte> {
    if answer.Give? then left[..Min(answer.n, Min(room, |left|))] else []
  }

  /** What several reads get one after another, when `before` has been taken already:
      up to a buffer each, and as much as the caller asks for in direct copy. */
  function TakenBy(uuid: Uuid, before: seq<Byte>, left: seq<Byte>, room: nat, answers: seq<ReadAnswer>):
    (got: seq<Byte>)
    ensures got <= left
    decreases |answers|
  {
    if answers == [] then
      []
    else
      var got := TakenBy(uuid, before, left, room, answers[..|answers| - 1]);
      var direct := Run(uuid, Fresh, before + got).direct;
      assert left == got + left[|got|..];
      got + Given(answers[|answers| - 1], if direct then room else TEMPORARY, left[|got|..])
  }

  /** What the caller is told when the last read was answered so, and there is or is
      not something to hand out. */
  function Told(answer: ReadAnswer, gave: bool, plain: bool): ReadOutcome {
    match answer
    case NoData => ReadPending
    case ReadError => ReadFailed
    case Give(_) => if plain || !gave then ReadReady else ReadPending
  }

  /** These reads have brought the transport from `left` to `incoming`. */
  ghost predicate Came(
    uuid: Uuid, before: seq<Byte>, left: seq<Byte>, room: nat, answers: seq<ReadAnswer>, taken: seq<Byte>,
    incoming: seq<Byte>)
  {
    var got := TakenBy(uuid, before, left, room, answers);
    taken == before + got && got + incoming == left
  }

  /** One more read. */
  lemma CameFurther(
    uuid: Uuid, before: seq<Byte>, left: seq<Byte>, room: nat, answers: seq<ReadAnswer>, k: nat, taken: seq<Byte>,
    incoming: seq<Byte>, got: seq<Byte>, rest: seq<Byte>)
    requires k < |answers| && Came(uuid, before, left, room, answers[..k], taken, incoming) && got + rest == incoming
    requires got == Given(answers[k], if Run(uuid, Fresh, taken).direct then room else TEMPORARY, incoming)
    ensures Came(uuid, before, left, room, answers[..k + 1], taken + got, rest)
    ensures GaveSome(uuid, before, left, room, answers, k) <==> got != []
  {
    assert answers[..k + 1][..k] == answers[..k];
    var sofar := TakenBy(uuid, before, left, room, answers[..k]);
    assert left[|sofar|..] == incoming;
    assert TakenBy(uuid, before, left, room, answers[..k + 1]) == sofar + got;
    Associate(before, sofar, got);
    Associate(sofar, got, rest);
  }

  /** The `k`-th read got something. */
  ghost predicate GaveSome(
    uuid: Uuid, before: seq<Byte>, left: seq<Byte>, room: nat, answers: seq<ReadAnswer>, k: nat)
    requires k < |answers|
  {
    TakenBy(uuid, before, left, room, answers[..k]) != TakenBy(uuid, before, left, room, answers[..k + 1])
  }

  /** The `k`-th read got something, and none of what has been taken since `before` is
      plaintext yet. */
  ghost predicate Fruitless(
    uuid: Uuid, before: seq<Byte>, left: seq<Byte>, room: nat, answers: seq<ReadAnswer>, k: nat)
    requires k < |answers|
  {
    && GaveSome(uuid, before, left, room, answers, k)
    && Run(uuid, Fresh, before + TakenBy(uuid, before, left, room, answers[..k + 1])).out
       == Run(uuid, Fresh, before).out
  }

  ghost predicate AllFruitless(
    uuid: Uuid, before: seq<Byte>, left: seq<Byte>, room: nat, answers: seq<ReadAnswer>, n: int)
    requires n <= |answers|
  {
    forall k :: 0 <= k < n ==> Fruitless(uuid, before, left, room, answers, k)
  }

  /** A call that has used the first answers: all its reads but the last got bytes
      without plaintext, and it tells what the last one and the plaintext say. */
  ghost predicate Reads(
    uuid: Uuid, before: seq<Byte>, left: seq<Byte>, room: nat, answers: seq<ReadAnswer>, used: nat,
    outcome: ReadOutcome, plain: bool)
    requires 0 < used <= |answers|
  {
    && AllFruitless(uuid, before, left, room, answers, used - 1)
    && outcome == Told(answers[used - 1], GaveSome(uuid, before, left, room, answers, used - 1), plain)
  }

  /** One more read, after none that was fruitful. */
  lemma ReadsOn(
    uuid: Uuid, before: seq<Byte>, left: seq<Byte>, room: nat, answers: seq<ReadAnswer>, k: nat, taken: seq<Byte>,
    incoming: seq<Byte>, got: seq<Byte>, rest: seq<Byte>, plain: bool)
    requires k < |answers| && Came(uuid, before, left, room, answers[..k], taken, incoming) && got + rest == incoming
    requires got == Given(answers[k], if Run(uuid, Fresh, taken).direct then room else TEMPORARY, incoming)
    requires AllFruitless(uuid, before, left, room, answers, k)
    requires plain <==> Run(uuid, Fresh, taken + got).out != Run(uuid, Fresh, before).out
    ensures Came(uuid, before, left, room, answers[..k + 1], taken + got, rest)
    ensures Reads(uuid, before, left, room, answers, k + 1, Told(answers[k], got != [], plain), plain)
    ensures got != [] && !plain ==> AllFruitless(uuid, before, left, room, answers, k + 1)
  {
    CameFurther(uuid, before, left, room, answers, k, taken, incoming, got, rest);
    assert got != [] && !plain ==> Fruitless(uuid, before, left, room, answers, k);
  }

  class VisionStream {
    const uuid: Uuid
    const serverInbound: bool
    const readState: VisionUnpaddingState
    var readBuf: seq<Byte>
    var readDirectCopy: bool
    var writeUuidOnce: bool
    var writeDirectCopy: bool
    var writeBuf: seq<Byte>
    var writePos: nat
    var writePendingConsumed: nat
    var writePendingDirect: bool

    /** The transport: bytes that it will deliver, and bytes it has taken. */
    var incoming: seq<Byte>
    var wire: seq<Byte>

    /** Bytes taken from the transport, and plaintext handed to callers. */
    ghost var taken: seq<Byte>
    ghost var handed: seq<Byte>

    /** Plaintext handed out, with what is buffered, is always the unpadding of
        exactly the bytes taken from the transport, and the stream is in direct
        copy exactly when those bytes contained the `direct` command. */
    ghost predicate ReadValid()
      reads this, readState
    {
      var r := Run(uuid, Fresh, taken);
      && readState.View() == r.state
      && handed + readBuf == r.out
      && readDirectCopy == r.direct
    }

    function WriterView(): Writer
      reads this
    {
      Writer(writeUuidOnce, writeDirectCopy, writeBuf, writePos, writePendingConsumed, writePendingDirect)
    }

    function ConfigView(): Config
      reads this
    {
      Config(uuid, serverInbound, readDirectCopy)
    }

    constructor (uuid: Uuid, serverInbound: bool, incoming: seq<Byte>)
      ensures ReadValid() && fresh(readState)
      ensures WriterView() == FreshWriter && ConfigView() == Config(uuid, serverInbound, false)
      ensures this.incoming == incoming && wire == [] && taken == [] && handed == []
    {
      this.uuid, this.serverInbound, this.incoming := uuid, serverInbound, incoming;
      readState := new VisionUnpaddingState();
      readBuf, readDirectCopy := [], false;
      writeUuidOnce, writeDirectCopy, writeBuf, writePos := true, false, [], 0;
      writePendingConsumed, writePendingDirect := 0, false;
      wire, taken, handed := [], [], [];
      new;
      assert Run(uuid, Fresh, []) == Fed(Fresh, [], false);
    }

    predicate IsDirectCopyReady()
      reads this
    {
      readDirectCopy && writeDirectCopy && readBuf == [] && writeBuf == []
    }

    /** One read of the transport into a buffer of `room` bytes. */
    method ReadInner(answer: ReadAnswer, room: nat) returns (outcome: ReadOutcome, got: seq<Byte>)
      modifies this`incoming, this`taken
      ensures got == Given(answer, room, old(incoming))
      ensures got + incoming == old(incoming) && taken == old(taken) + got
      ensures outcome == Told(answer, false, false)
    {
      got := [];
      match answer {
        case Give(n) =>
          var k := Min(n, Min(room, |incoming|));
          got, incoming := incoming[..k], incoming[k..];
          taken := taken + got;
          outcome := ReadReady;
        case NoData => outcome := ReadPending;
        case ReadError => outcome := ReadFailed;
      }
    }

    /** Splitting decoded plaintext between the caller's buffer and `readBuf`. */
    method HandOut(plain: seq<Byte>, room: nat) returns (out: seq<Byte>)
      modifies this`readBuf, this`handed
      ensures out + readBuf == plain && |out| == Min(room, |plain|)
      ensures handed == old(handed) + out
    {
      var n := Min(room, |plain|);
      out := plain[..n];
      readBuf := plain[n..];
      handed := handed + out;
    }

    /** Unpads bytes that have just been taken. */
    method Decode(got: seq<Byte>, ghost before: seq<Byte>) returns (plain: seq<Byte>)
      requires taken == before + got && !readDirectCopy
      requires Run(uuid, Fresh, before) == Fed(readState.View(), handed, false)
      modifies this`readDirectCopy, readState
      ensures Run(uuid, Fresh, taken) == Fed(readState.View(), handed + plain, readDirectCopy)
    {
      RunValid(uuid, Fresh, before);
      RunSplits(uuid, Fresh, before, got);
      var switched;
      plain, switched := readState.Feed(uuid, got);
      if switched {
        readDirectCopy := true;
      }
    }

    /** A read of the transport past the parser, in direct copy. */
    method ReadRaw(answer: ReadAnswer, room: nat) returns (outcome: ReadOutcome, out: seq<Byte>)
      requires ReadValid() && readBuf == [] && readDirectCopy
      modifies this`incoming, this`taken, this`handed
      ensures ReadValid() && out == Given(answer, room, old(incoming))
      ensures taken == old(taken) + out && out + incoming == old(incoming) && handed == old(handed) + out
      ensures outcome == Told(answer, out != [], out != [])
    {
      RunValid(uuid, Fresh, taken);
      ghost var before := taken;
      outcome, out := ReadInner(answer, room);
      RunSplits(uuid, Fresh, before, out);
      FinishedIsRaw(readState.View(), out);
      handed := handed + out;
      assert old(handed) + [] == old(handed) && handed + [] == handed;
    }

    /** One turn of the loop of poll_read: another one follows if bytes came in that
        hold no plaintext yet. */
    method ReadOnce(answer: ReadAnswer, room: nat) returns (outcome: ReadOutcome, out: seq<Byte>, again: bool)
      requires ReadValid() && readBuf == []
      modifies this`readBuf, this`readDirectCopy, this`incoming, this`taken, this`handed, readState
      ensures ReadValid()
      ensures var got := Given(answer, if old(readDirectCopy) then room else TEMPORARY, old(incoming));
              && taken == old(taken) + got && got + incoming == old(incoming)
              && outcome == Told(answer, got != [], out + readBuf != [])
              && (again <==> answer.Give? && got != [] && out + readBuf == [])
      ensures handed == old(handed) + out && |out| == Min(room, |out + readBuf|)
    {
      ghost var before := taken;
      again := false;
      assert handed + [] == handed;
      if readDirectCopy {
        outcome, out := ReadRaw(answer, room);
        assert out + [] == out;
        return;
      }
      var got;
      outcome, got := ReadInner(answer, TEMPORARY);
      out := [];
      if got == [] {
        assert taken == before;
        return;
      }
      var plain := Decode(got, before);
      if plain == [] {
        assert handed + plain == handed;
        return ReadPending, [], true;
      }
      out := HandOut(plain, room);
      Associate(old(handed), out, readBuf);
    }

    /** A turn of the loop, after turns without plaintext. */
    method ReadTurn(
      room: nat, answers: seq<ReadAnswer>, used: nat, ghost before: seq<Byte>, ghost left: seq<Byte>)
      returns (outcome: ReadOutcome, out: seq<Byte>, again: bool)
      requires ReadValid() && readBuf == [] && used < |answers| && handed == Run(uuid, Fresh, before).out
      requires Came(uuid, before, left, room, answers[..used], taken, incoming)
      requires AllFruitless(uuid, before, left, room, answers, used)
      modifies this`readBuf, this`readDirectCopy, this`incoming, this`taken, this`handed, readState
      ensures ReadValid() && handed == old(handed) + out && |out| == Min(room, |out + readBuf|)
      ensures Came(uuid, before, left, room, answers[..used + 1], taken, incoming)
      ensures Reads(uuid, before, left, room, answers, used + 1, outcome, out + readBuf != [])
      ensures again ==>
                && out + readBuf == [] && outcome.ReadPending?
                && AllFruitless(uuid, before, left, room, answers, used + 1)
      ensures !again && outcome.ReadPending? ==> !answers[used].Give?
    {
      ghost var was, ahead := taken, incoming;
      outcome, out, again := ReadOnce(answers[used], room);
      ghost var got := Given(answers[used], if old(readDirectCopy) then room else TEMPORARY, ahead);
      Associate(old(handed), out, readBuf);
      assert old(handed) + [] == old(handed);
      ReadsOn(uuid, before, left, room, answers, used, was, ahead, got, incoming, out + readBuf != []);
    }

    /** The loop of poll_read. */
    method ReadLoop(room: nat, answers: seq<ReadAnswer>) returns (outcome: ReadOutcome, out: seq<Byte>, used: nat)
      requires ReadValid() && readBuf == [] && answers != []
      modifies this`readBuf, this`readDirectCopy, this`incoming, this`taken, this`handed, readState
      ensures ReadValid() && handed == old(handed) + out && 0 < used <= |answers|
      ensures Came(uuid, old(taken), old(incoming), room, answers[..used], taken, incoming)
      ensures |out| == Min(room, |out + readBuf|)
      ensures Reads(uuid, old(taken), old(incoming), room, answers, used, outcome, out + readBuf != [])
      ensures outcome.ReadPending? && answers[used - 1].Give? ==> used == |answers|
    {
      used, out, outcome := 0, [], ReadPending;
      ghost var before, left, plain := taken, incoming, handed;
      assert taken + [] == taken && handed + [] == handed && [] + incoming == incoming;
      while used < |answers|
        invariant 0 <= used <= |answers| && ReadValid() && handed == plain && readBuf == []
        invariant plain == Run(uuid, Fresh, before).out && out == []
        invariant Came(uuid, before, left, room, answers[..used], taken, incoming)
        invariant AllFruitless(uuid, before, left, room, answers, used)
        invariant used > 0 ==>
                    outcome.ReadPending? && Reads(uuid, before, left, room, answers, used, outcome, false)
      {
        var again;
        outcome, out, again := ReadTurn(room, answers, used, before, left);
        used := used + 1;
        if !again {
          return;
        }
      }
    }

    /** poll_read into a buffer of `room` bytes.  Buffered plaintext is handed out
        first.  Otherwise the transport is read until bytes hold plaintext, nothing
        comes, or it refuses or fails: the caller gets as much as fits of all that
        those bytes hold, is told to wait only if the last read was refused or there
        are no more answers, of an error exactly if it failed, and of the end of the
        stream exactly if it got nothing. */
    method PollRead(room: nat, answers: seq<ReadAnswer>) returns (outcome: ReadOutcome, out: seq<Byte>, used: nat)
      requires ReadValid()
      modifies this`readBuf, this`readDirectCopy, this`incoming, this`taken, this`handed, readState
      ensures ReadValid() && handed == old(handed) + out && used <= |answers|
      ensures Came(uuid, old(taken), old(incoming), room, answers[..used], taken, incoming)
      ensures |out| == Min(room, |out + readBuf|)
      ensures old(readBuf) != [] ==> outcome.ReadReady? && used == 0 && out + readBuf == old(readBuf)
      ensures old(readBuf) == [] && answers == [] ==> outcome.ReadPending?
      ensures old(readBuf) == [] && answers != [] ==>
                && used > 0
                && Reads(uuid, old(taken), old(incoming), room, answers, used, outcome, out + readBuf != [])
                && (outcome.ReadPending? && answers[used - 1].Give? ==> used == |answers|)
    {
      assert taken + [] == taken && handed + [] == handed && [] + incoming == incoming;
      if readBuf != [] {
        out := HandOut(readBuf, room);
        Associate(old(handed), out, readBuf);
        return ReadReady, out, 0;
      }
      if answers == [] {
        return ReadPending, [], 0;
      }
      outcome, out, used := ReadLoop(room, answers);
    }

    /** The transport accepts some bytes of the frame, on the way to `goal`. */
    method SendPiece(answer: Answer, ghost goal: Call, ghost sent: seq<Byte>, ghost used: nat, ghost rest: seq<Answer>)
      returns (piece: seq<Byte>)
      requires writePos < |writeBuf| && answer.Accept? && answer.n > 0 && rest != [] && rest[0] == answer
      requires Continues(goal, sent, used, WriterView(), rest)
      modifies this`writePos, this`wire
      ensures Continues(goal, sent + piece, used + 1, WriterView(), rest[1..]) && wire == old(wire) + piece
    {
      DrainAccepts(goal, sent, used, WriterView(), rest);
      var n := Min(answer.n, |writeBuf| - writePos);
      piece := writeBuf[writePos..writePos + n];
      wire := wire + piece;
      writePos := writePos + n;
    }

    /** poll_drain_write_buf. */
    method PollDrain(answers: seq<Answer>) returns (outcome: Outcome, used: nat)
      modifies this`writeBuf, this`writePos, this`writeDirectCopy, this`writePendingDirect, this`wire
      ensures var d := Drain(old(WriterView()), answers);
              WriterView() == d.w && wire == old(wire) + d.sent && outcome == d.outcome && used == d.used
    {
      used := 0;
      ghost var goal := Drain(WriterView(), answers);
      ghost var sent: seq<Byte> := [];
      ghost var rest := answers;
      assert wire + [] == wire && [] + goal.sent == goal.sent;
      while writePos < |writeBuf|
        invariant 0 <= used <= |answers| && rest == answers[used..]
        invariant wire == old(wire) + sent
        invariant Continues(goal, sent, used, WriterView(), rest)
        decreases |answers| - used
      {
        if used == |answers| {
          DrainStops(goal, sent, used, WriterView(), rest);
          return Pending, used;
        }
        var answer := answers[used];
        if answer.NotReady? || answer.Broken? || answer.n == 0 {
          DrainStops(goal, sent, used, WriterView(), rest);
          return if answer.NotReady? then Pending else Failed, used + 1;
        }
        var piece := SendPiece(answer, goal, sent, used, rest);
        Associate(old(wire), sent, piece);
        rest, sent := rest[1..], sent + piece;
        used := used + 1;
        assert rest == answers[used..];
      }
      DrainStops(goal, sent, used, WriterView(), rest);
      Emptied();
      outcome := Ready(0);
    }

    /** The frame is out: a pending switch to direct copy takes effect. */
    method Emptied()
      modifies this`writeBuf, this`writePos, this`writeDirectCopy, this`writePendingDirect
      ensures var w := old(WriterView());
              WriterView() == w.(buf := [], pos := 0, direct := w.direct || w.pendingDirect, pendingDirect := false)
    {
      writeBuf, writePos := [], 0;
      if writePendingDirect {
        writeDirectCopy, writePendingDirect := true, false;
      }
    }

    /** poll_flush and poll_shutdown. */
    method PollFlush(answers: seq<Answer>, own: FlushAnswer) returns (outcome: Outcome, used: nat)
      modifies this`writeBuf, this`writePos, this`writeDirectCopy, this`writePendingDirect, this`wire
      ensures var d := VisionWriter.PollFlush(old(WriterView()), answers, own);
              WriterView() == d.w && wire == old(wire) + d.sent && outcome == d.outcome && used == d.used
    {
      outcome, used := PollDrain(answers);
      if outcome.Ready? {
        match own {
          case FlushDone => outcome := Ready(0);
          case FlushNotReady => outcome := Pending;
          case FlushBroken => outcome := Failed;
        }
      }
    }

    /** One write of the transport as it is. */
    method WriteInner(data: seq<Byte>, answers: seq<Answer>) returns (outcome: Outcome, used: nat)
      modifies this`wire
      ensures var d := PassThrough(WriterView(), data, answers);
              wire == old(wire) + d.sent && outcome == d.outcome && used == d.used
    {
      assert wire + [] == wire;
      if answers == [] {
        return Pending, 0;
      }
      match answers[0] {
        case NotReady => outcome := Pending;
        case Broken => outcome := Failed;
        case Accept(k) =>
          var n := Min(k, |data|);
          wire := wire + data[..n];
          outcome := Ready(n);
      }
      used := 1;
    }

    /** poll_write when no frame is waiting. */
    method WriteNew(data: seq<Byte>, answers: seq<Answer>) returns (outcome: Outcome, used: nat)
      modifies this`writeUuidOnce, this`writeDirectCopy, this`writeBuf, this`writePos,
               this`writePendingConsumed, this`writePendingDirect, this`wire
      ensures var d := WriteFresh(ConfigView(), old(WriterView()), data, answers);
              WriterView() == d.w && wire == old(wire) + d.sent && outcome == d.outcome && used == d.used
    {
      if writeDirectCopy || data == [] {
        outcome, used := WriteInner(data, answers);
        return;
      }
      var includeUuid := writeUuidOnce;
      if includeUuid {
        writeUuidOnce := false;
      }
      var command := Command(ConfigView(), data);
      writeBuf := Chunk(uuid, data, command, includeUuid);
      writePos := 0;
      writePendingConsumed := |data|;
      writePendingDirect := command == DIRECT;
      assert WriterView() == Framed(ConfigView(), old(WriterView()), data);
      outcome, used := PollDrain(answers);
      if outcome.Ready? {
        writePendingConsumed := 0;
        outcome := Ready(|data|);
      }
    }

    /** poll_write. */
    method PollWrite(data: seq<Byte>, answers: seq<Answer>) returns (outcome: Outcome, used: nat)
      modifies this`writeUuidOnce, this`writeDirectCopy, this`writeBuf, this`writePos,
               this`writePendingConsumed, this`writePendingDirect, this`wire
      ensures var d := VisionWriter.PollWrite(ConfigView(), old(WriterView()), data, answers);
              WriterView() == d.w && wire == old(wire) + d.sent && outcome == d.outcome && used == d.used
    {
      if writeBuf == [] {
        outcome, used := WriteNew(data, answers);
        return;
      }
      outcome, used := PollDrain(answers);
      if !outcome.Ready? {
        return;
      }
      if writePendingConsumed > 0 {
        var consumed := writePendingConsumed;
        writePendingConsumed := 0;
        return Ready(consumed), used;
      }
      ghost var drained := Drain(old(WriterView()), answers);
      ghost var after := WriteFresh(ConfigView(), drained.w, data, answers[used..]);
      var more;
      outcome, more := WriteNew(data, answers[used..]);
      Associate(old(wire), drained.sent, after.sent);
      used := used + more;
    }

    /** The transport accepts some bytes of a frame that the stream does not hold. */
    method WritePiece(
      frame: seq<Byte>, pos: nat, answer: Answer, ghost goal: Call, ghost sent: seq<Byte>, ghost used: nat,
      ghost w: Writer, ghost rest: seq<Answer>)
      returns (n: nat)
      requires pos < |frame| && answer.Accept? && answer.n > 0 && rest != [] && rest[0] == answer
      requires w.buf == frame && w.pos == pos && Continues(goal, sent, used, w, rest)
      modifies this`wire
      ensures 0 < n <= |frame| - pos && wire == old(wire) + frame[pos..pos + n]
      ensures Continues(goal, sent + frame[pos..pos + n], used + 1, w.(pos := pos + n), rest[1..])
    {
      DrainAccepts(goal, sent, used, w, rest);
      n := Min(answer.n, |frame| - pos);
      wire := wire + frame[pos..pos + n];
    }

    /** The transport's own write_all. */
    method WriteAll(frame: seq<Byte>, answers: seq<Answer>) returns (outcome: Outcome, used: nat)
      modifies this`wire
      ensures var d := Drain(WriterView().(buf := frame, pos := 0), answers);
              wire == old(wire) + d.sent && outcome == d.outcome && used == d.used
    {
      used := 0;
      var pos: nat := 0;
      ghost var w := WriterView().(buf := frame, pos := 0);
      ghost var goal := Drain(w, answers);
      ghost var sent: seq<Byte> := [];
      ghost var rest := answers;
      assert wire + [] == wire && [] + goal.sent == goal.sent;
      while pos < |frame|
        invariant 0 <= used <= |answers| && rest == answers[used..] && pos <= |frame|
        invariant w.buf == frame && w.pos == pos && wire == old(wire) + sent
        invariant Continues(goal, sent, used, w, rest)
        decreases |answers| - used
      {
        if used == |answers| {
          DrainStops(goal, sent, used, w, rest);
          return Pending, used;
        }
        var answer := answers[used];
        if answer.NotReady? || answer.Broken? || answer.n == 0 {
          DrainStops(goal, sent, used, w, rest);
          return if answer.NotReady? then Pending else Failed, used + 1;
        }
        var n := WritePiece(frame, pos, answer, goal, sent, used, w, rest);
        Associate(old(wire), sent, frame[pos..pos + n]);
        rest, sent, w := rest[1..], sent + frame[pos..pos + n], w.(pos := pos + n);
        pos, used := pos + n, used + 1;
        assert rest == answers[used..];
      }
      DrainStops(goal, sent, used, w, rest);
      outcome := Ready(0);
    }

    /** The empty `direct` frame of the handoff. */
    method SendDirect(answers: seq<Answer>, last: FlushAnswer) returns (outcome: Outcome)
      modifies this`writeUuidOnce, this`writeDirectCopy, this`wire
      ensures var d := VisionWriter.SendDirect(ConfigView(), old(WriterView()), answers, last);
              WriterView() == d.w && wire == old(wire) + d.sent && outcome == d.outcome
    {
      var frame := Chunk(uuid, [], DIRECT, writeUuidOnce);
      writeUuidOnce := false;
      var used;
      outcome, used := WriteAll(frame, answers);
      if outcome.Ready? {
        match last {
          case FlushDone =>
            writeDirectCopy := true;
            outcome := Ready(0);
          case FlushNotReady => outcome := Pending;
          case FlushBroken => outcome := Failed;
        }
      }
    }

    /** complete_server_direct_handoff; awaiting, it waits out the transport's pauses. */
    method CompleteServerDirectHandoff(answers: seq<Answer>, before: FlushAnswer, last: FlushAnswer)
      returns (outcome: Outcome)
      modifies this`writeUuidOnce, this`writeDirectCopy, this`writeBuf, this`writePos, this`writePendingDirect,
               this`wire
      ensures var d := Handoff(ConfigView(), old(WriterView()), answers, before, last);
              WriterView() == d.w && wire == old(wire) + d.sent && outcome == d.outcome
    {
      assert wire + [] == wire;
      if !serverInbound || !readDirectCopy || writeDirectCopy {
        return Ready(0);
      }
      var live := Awaited(answers);
      var used;
      outcome, used := PollFlush(live, before);
      if !outcome.Ready? {
        return;
      }
      ghost var flushed := VisionWriter.PollFlush(old(WriterView()), live, before);
      ghost var h := VisionWriter.SendDirect(ConfigView(), WriterView(), live[used..], last);
      outcome := SendDirect(live[used..], last);
      Associate(old(wire), flushed.sent, h.sent);
    }

    /** Nothing is held back once direct copy is ready: callers have all the
        plaintext of the bytes taken, both parsers are out of the way, and every
        write goes to the transport as it is. */
    lemma DirectCopyHoldsNothing()
      requires ReadValid() && IsDirectCopyReady()
      ensures handed == Run(uuid, Fresh, taken).out
      ensures forall more: seq<Byte> :: Run(uuid, Fresh, taken + more).out == handed + more
      ensures Unsent(WriterView()) == []
      ensures forall data: seq<Byte>, answers: seq<Answer> ::
                VisionWriter.PollWrite(ConfigView(), WriterView(), data, answers)
                == PassThrough(WriterView(), data, answers)
    {
      assert handed + [] == handed;
      RunValid(uuid, Fresh, taken);
      forall more: seq<Byte>
        ensures Run(uuid, Fresh, taken + more).out == handed + more
      {
        RunSplits(uuid, Fresh, taken, more);
        FinishedIsRaw(readState.View(), more);
      }
    }
  }
}
