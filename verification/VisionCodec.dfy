/**
 XTLS Vision framing as a language: what an unpadding peer makes of any byte
 string, and what a padding peer puts on the wire.

 `Run` is the meaning of the incremental parser: the first 21 bytes decide
 whether the stream is framed at all, and from there `Inside` reads one byte at
 a time.  The chunk-at-a-time parser of the source is proved equal to it in
 `VisionUnpadding`.
 */
module VisionCodec {
  import opened Bytes

  const INITIAL := -1
  const CONTINUE: Byte := 0
  const END: Byte := 1
  const DIRECT: Byte := 2

  /** Bytes that decide whether a stream is framed: a UUID and one frame header. */
  const OPENING := 21

  type Uuid = u: seq<Byte> | |u| == 16 witness seq(16, _ => 0)

  /** The unpadding state, field by field. */
  datatype Unpadding = Unpadding(
    command: int, content: int, padding: int, current: int, pending: seq<Byte>, finished: bool)
  {
    /** Nothing has been decided about the stream yet. */
    predicate AtStart() {
      command == INITIAL && content == INITIAL && padding == INITIAL
    }

    /** Everything before the next header has been read. */
    predicate AtHeader() {
      command == 5 && content <= 0 && padding <= 0 && pending == [] && !finished
    }

    predicate Valid() {
      && (pending != [] ==> AtStart() && !finished && |pending| < OPENING)
      && (!finished && !AtStart() ==> command > 0 || content > 0 || padding > 0)
      && InBounds()
    }

    /** Lengths are 16 bits wide, and have only their high byte until the low one
        arrives. */
    predicate InBounds() {
      && command <= 5 && content <= 65535 && padding <= 65535
      && (command == 3 ==> content <= 65280 && content % 256 == 0)
      && (command == 1 ==> padding <= 65280 && padding % 256 == 0)
    }
  }

  const Fresh := Unpadding(INITIAL, INITIAL, INITIAL, 0, [], false)

  /** What one call hands back: new state, plaintext, and the direct-copy switch. */
  datatype Fed = Fed(state: Unpadding, out: seq<Byte>, direct: bool)

  /** What two calls in a row hand back together. */
  function Then(a: Fed, b: Fed): Fed {
    Fed(b.state, a.out + b.out, a.direct || b.direct)
  }

  /** Once a frame has been read to its end, either expect the next or go raw. */
  function Settle(s: Unpadding): Fed {
    if s.command <= 0 && s.content <= 0 && s.padding <= 0 then
      if s.current == CONTINUE then
        Fed(s.(command := 5), [], false)
      else
        Fed(s.(command := INITIAL, content := INITIAL, padding := INITIAL, finished := true), [], s.current == DIRECT)
    else
      Fed(s, [], false)
  }

  /** The five header bytes: command, content length, padding length.
      The low byte of each length is or-ed in the source; the length is a multiple
      of 256 there, by the state's validity, so the sum is the same number. */
  function HeaderByte(s: Unpadding, b: Byte): Unpadding {
    var next := s.(command := s.command - 1);
    match s.command
    case 5 => next.(current := b)
    case 4 => next.(content := b * 256)
    case 3 => next.(content := s.content + b)
    case 2 => next.(padding := b * 256)
    case 1 => next.(padding := s.padding + b)
    case _ => next
  }

  /** One byte inside the framing. */
  function FrameByte(s: Unpadding, b: Byte): Fed {
    if s.command > 0 then
      Settle(HeaderByte(s, b))
    else if s.content > 0 then
      var f := Settle(s.(content := s.content - 1));
      Fed(f.state, [b], f.direct)
    else
      Settle(s.(padding := s.padding - 1))
  }

  /** A whole input, once the stream is known to be framed or raw. */
  function Inside(s: Unpadding, input: seq<Byte>): Fed
    decreases |input|
  {
    if input == [] then
      Fed(s, [], false)
    else if s.finished then
      Fed(s, input, false)
    else
      Then(FrameByte(s, input[0]), Inside(FrameByte(s, input[0]).state, input[1..]))
  }

  /** A whole input from any state. */
  function Run(uuid: Uuid, s: Unpadding, input: seq<Byte>): Fed {
    if s.finished || !s.AtStart() then
      Inside(s, input)
    else
      var seen := s.pending + input;
      if |seen| < OPENING then
        Fed(s.(pending := seen), [], false)
      else if seen[..16] == uuid then
        Inside(s.(command := 5, pending := []), seen[16..])
      else
        Fed(s.(pending := [], finished := true), seen, false)
  }

  // ---------------------------------------------------------------- splitting

  lemma ThenNothing(r: Fed, s: Unpadding)
    ensures Then(Fed(s, [], false), r) == r
  {
    assert [] + r.out == r.out;
  }

  lemma ThenAssociates(a: Fed, b: Fed, c: Fed)
    ensures Then(Then(a, b), c) == Then(a, Then(b, c))
  {
    assert (a.out + b.out) + c.out == a.out + (b.out + c.out);
  }

  lemma {:induction false} InsideSplits(s: Unpadding, a: seq<Byte>, b: seq<Byte>)
    ensures Inside(s, a + b) == Then(Inside(s, a), Inside(Inside(s, a).state, b))
    decreases |a|
  {
    if a == [] {
      assert a + b == b;
      ThenNothing(Inside(s, b), s);
    } else if s.finished {
      assert b == [] ==> a + b == a;
    } else {
      var f := FrameByte(s, a[0]);
      var r := Inside(f.state, a[1..]);
      assert (a + b)[0] == a[0] && (a + b)[1..] == a[1..] + b;
      InsideSplits(f.state, a[1..], b);
      ThenAssociates(f, r, Inside(r.state, b));
    }
  }

  /** A frame byte keeps the state well formed and never goes back to the start. */
  lemma FrameByteValid(s: Unpadding, b: Byte)
    requires s.Valid() && !s.finished && !s.AtStart()
    ensures FrameByte(s, b).state.Valid()
    ensures FrameByte(s, b).state.finished || !FrameByte(s, b).state.AtStart()
    ensures FrameByte(s, b).direct ==> FrameByte(s, b).state.finished
  {
  }

  lemma {:induction false} InsideValid(s: Unpadding, input: seq<Byte>)
    requires s.Valid() && (s.finished || !s.AtStart())
    ensures var r := Inside(s, input);
            r.state.Valid() && (r.state.finished || !r.state.AtStart()) && (r.direct ==> r.state.finished)
    decreases |input|
  {
    if input != [] && !s.finished {
      FrameByteValid(s, input[0]);
      InsideValid(FrameByte(s, input[0]).state, input[1..]);
      if FrameByte(s, input[0]).state.finished {
        FinishedIsRaw(FrameByte(s, input[0]).state, input[1..]);
      }
    }
  }

  lemma RunValid(uuid: Uuid, s: Unpadding, input: seq<Byte>)
    requires s.Valid()
    ensures Run(uuid, s, input).state.Valid()
    ensures Run(uuid, s, input).direct ==> Run(uuid, s, input).state.finished
  {
    if s.finished || !s.AtStart() {
      InsideValid(s, input);
    } else if |s.pending + input| >= OPENING && (s.pending + input)[..16] == uuid {
      InsideValid(s.(command := 5, pending := []), (s.pending + input)[16..]);
    }
  }

  /** After the switch, or the end command, bytes pass through untouched. */
  lemma FinishedIsRaw(s: Unpadding, input: seq<Byte>)
    requires s.finished
    ensures Inside(s, input) == Fed(s, input, false)
  {
  }

  /** Fragmentation independence, two pieces: output, final state and switch
      do not depend on where the input was cut. */
  lemma RunSplits(uuid: Uuid, s: Unpadding, a: seq<Byte>, b: seq<Byte>)
    requires s.Valid()
    ensures Run(uuid, s, a + b) == Then(Run(uuid, s, a), Run(uuid, Run(uuid, s, a).state, b))
  {
    if s.finished || !s.AtStart() {
      InsideValid(s, a);
      InsideSplits(s, a, b);
    } else {
      var seen := s.pending + a;
      assert seen + b == s.pending + (a + b);
      if |seen| < OPENING {
      } else if seen[..16] == uuid {
        var framed := s.(command := 5, pending := []);
        assert (seen + b)[16..] == seen[16..] + b;
        assert (seen + b)[..16] == seen[..16];
        InsideValid(framed, seen[16..]);
        InsideSplits(framed, seen[16..], b);
      } else {
        assert (seen + b)[..16] == seen[..16];
        FinishedIsRaw(s.(pending := [], finished := true), b);
        assert b == [] ==> seen + b == seen;
      }
    }
  }

  /** Feeding the chunks one call at a time. */
  function RunChunks(uuid: Uuid, s: Unpadding, chunks: seq<seq<Byte>>): Fed
    decreases |chunks|
  {
    if chunks == [] then
      Fed(s, [], false)
    else
      Then(Run(uuid, s, chunks[0]), RunChunks(uuid, Run(uuid, s, chunks[0]).state, chunks[1..]))
  }

  /** How many of those calls reported the switch. */
  function Switches(uuid: Uuid, s: Unpadding, chunks: seq<seq<Byte>>): nat
    decreases |chunks|
  {
    if chunks == [] then
      0
    else
      (if Run(uuid, s, chunks[0]).direct then 1 else 0) + Switches(uuid, Run(uuid, s, chunks[0]).state, chunks[1..])
  }

  /** Fragmentation independence: however a byte string is cut into calls, the
      plaintext, the final state and the switch are those of one call, and the
      switch is reported by exactly one call or by none. */
  lemma {:induction false} FragmentationIndependence(uuid: Uuid, s: Unpadding, chunks: seq<seq<Byte>>)
    requires s.Valid()
    ensures RunChunks(uuid, s, chunks) == Run(uuid, s, Concat(chunks))
    ensures Switches(uuid, s, chunks) == if Run(uuid, s, Concat(chunks)).direct then 1 else 0
    decreases |chunks|
  {
    if chunks == [] {
      assert s.pending + [] == s.pending;
    } else {
      var first := Run(uuid, s, chunks[0]);
      RunValid(uuid, s, chunks[0]);
      FragmentationIndependence(uuid, first.state, chunks[1..]);
      RunSplits(uuid, s, chunks[0], Concat(chunks[1..]));
      if first.direct {
        FinishedIsRaw(first.state, Concat(chunks[1..]));
      }
    }
  }

  // ------------------------------------------------------------ block reading

  /** Content comes out as it went in, a block of any size at a time. */
  lemma {:induction false} ContentBytes(s: Unpadding, block: seq<Byte>)
    requires s.command <= 0 && !s.finished && 0 < |block| <= s.content
    ensures var f := Settle(s.(content := s.content - |block|));
            Inside(s, block) == Fed(f.state, block, f.direct)
    decreases |block|
  {
    var s1 := s.(content := s.content - 1);
    if |block| == 1 {
      assert block == [block[0]] && block[1..] == [];
      assert Inside(Settle(s1).state, []).out == [];
    } else {
      assert FrameByte(s, block[0]) == Fed(s1, [block[0]], false);
      ContentBytes(s1, block[1..]);
      assert [block[0]] + block[1..] == block;
    }
  }

  lemma ContentThen(s: Unpadding, block: seq<Byte>, rest: seq<Byte>)
    requires s.command <= 0 && !s.finished && 0 < |block| <= s.content
    ensures var f := Settle(s.(content := s.content - |block|));
            Inside(s, block + rest) == Then(Fed(f.state, block, f.direct), Inside(f.state, rest))
  {
    assert Inside(s, block + rest) == Then(Inside(s, block), Inside(Inside(s, block).state, rest)) by {
      InsideSplits(s, block, rest);
    }
    ContentBytes(s, block);
  }

  lemma ContentBlock(s: Unpadding, n: nat, input: seq<Byte>)
    requires s.command <= 0 && !s.finished && 0 < n <= s.content && n <= |input|
    ensures var f := Settle(s.(content := s.content - n));
            Inside(s, input) == Then(Fed(f.state, input[..n], f.direct), Inside(f.state, input[n..]))
  {
    assert input == input[..n] + input[n..];
    ContentThen(s, input[..n], input[n..]);
  }

  /** Padding is skipped in blocks of any size. */
  lemma {:induction false} PaddingBlock(s: Unpadding, n: nat, input: seq<Byte>)
    requires s.command <= 0 && s.content <= 0 && !s.finished && 0 < n <= s.padding && n <= |input|
    ensures var f := Settle(s.(padding := s.padding - n));
            Inside(s, input) == Then(Fed(f.state, [], f.direct), Inside(f.state, input[n..]))
    decreases n
  {
    if n > 1 {
      PaddingBlock(s.(padding := s.padding - 1), n - 1, input[1..]);
      assert input[1..][n - 1..] == input[n..];
    }
  }

  // ------------------------------------------------------------------- frames

  datatype Frame = Frame(command: Byte, content: seq<Byte>, padding: seq<Byte>)

  function Header(command: Byte, content: nat, padding: nat): (h: seq<Byte>)
    ensures |h| == 5
  {
    [command, content / 256 % 256, content % 256, padding / 256 % 256, padding % 256]
  }

  function FrameBytes(f: Frame): seq<Byte> {
    Header(f.command, |f.content|, |f.padding|) + f.content + f.padding
  }

  /** `fill_vision_chunk`: one frame without padding, the UUID before the first. */
  function Chunk(uuid: Uuid, content: seq<Byte>, command: Byte, includeUuid: bool): seq<Byte> {
    (if includeUuid then uuid else []) + FrameBytes(Frame(command, content, []))
  }

  /** The state after the frame's last byte. */
  function After(command: Byte): Unpadding {
    if command == CONTINUE then
      Unpadding(5, 0, 0, 0, [], false)
    else
      Unpadding(INITIAL, INITIAL, INITIAL, command, [], true)
  }

  lemma TwoBytes(n: nat)
    ensures n / 256 % 256 * 256 + n % 256 == n % 65536
  {
  }

  lemma InsideOne(s: Unpadding, b: Byte, rest: seq<Byte>)
    requires !s.finished
    ensures Inside(s, [b] + rest) == Then(FrameByte(s, b), Inside(FrameByte(s, b).state, rest))
  {
    assert ([b] + rest)[1..] == rest;
  }

  /** A header byte that is not the last. */
  lemma HeaderStep(s: Unpadding, b: Byte, rest: seq<Byte>)
    requires s.command > 1 && !s.finished
    ensures Inside(s, [b] + rest) == Inside(HeaderByte(s, b), rest)
  {
    InsideOne(s, b, rest);
    ThenNothing(Inside(HeaderByte(s, b), rest), HeaderByte(s, b));
  }

  lemma FiveBytesRead(s: Unpadding, b0: Byte, b1: Byte, b2: Byte, b3: Byte, b4: Byte, rest: seq<Byte>)
    requires s.AtHeader()
    ensures var f := Settle(Unpadding(0, b1 * 256 + b2, b3 * 256 + b4, b0, [], false));
            Inside(s, [b0] + ([b1] + ([b2] + ([b3] + ([b4] + rest))))) == Then(f, Inside(f.state, rest))
  {
    var s1 := HeaderByte(s, b0);
    var s2 := HeaderByte(s1, b1);
    var s3 := HeaderByte(s2, b2);
    var s4 := HeaderByte(s3, b3);
    HeaderStep(s, b0, [b1] + ([b2] + ([b3] + ([b4] + rest))));
    HeaderStep(s1, b1, [b2] + ([b3] + ([b4] + rest)));
    HeaderStep(s2, b2, [b3] + ([b4] + rest));
    HeaderStep(s3, b3, [b4] + rest);
    InsideOne(s4, b4, rest);
    assert HeaderByte(s4, b4) == Unpadding(0, b1 * 256 + b2, b3 * 256 + b4, b0, [], false);
  }

  lemma FiveThenRest(b0: Byte, b1: Byte, b2: Byte, b3: Byte, b4: Byte, rest: seq<Byte>)
    ensures [b0, b1, b2, b3, b4] + rest == [b0] + ([b1] + ([b2] + ([b3] + ([b4] + rest))))
  {
  }

  /** Reading a header leaves exactly the lengths it names, modulo 65536. */
  lemma HeaderRead(s: Unpadding, command: Byte, content: nat, padding: nat, rest: seq<Byte>)
    requires s.AtHeader()
    ensures var f := Settle(Unpadding(0, content % 65536, padding % 65536, command, [], false));
            Inside(s, Header(command, content, padding) + rest) == Then(f, Inside(f.state, rest))
  {
    TwoBytes(content);
    TwoBytes(padding);
    FiveBytesRead(s, command, content / 256 % 256, content % 256, padding / 256 % 256, padding % 256, rest);
    FiveThenRest(command, content / 256 % 256, content % 256, padding / 256 % 256, padding % 256, rest);
  }

  /** The padding that a header announced, read to the end. */
  lemma PaddingRead(command: Byte, padding: seq<Byte>, rest: seq<Byte>)
    ensures var f := Settle(Unpadding(0, 0, |padding|, command, [], false));
            Then(f, Inside(f.state, padding + rest))
            == Then(Fed(After(command), [], command == DIRECT), Inside(After(command), rest))
  {
    if |padding| > 0 {
      PaddingBlock(Unpadding(0, 0, |padding|, command, [], false), |padding|, padding + rest);
      assert (padding + rest)[|padding|..] == rest;
    } else {
      assert padding + rest == rest;
    }
  }

  /** The content that a header announced, read to the end. */
  lemma ContentRead(command: Byte, content: seq<Byte>, padding: nat, rest: seq<Byte>)
    ensures var f := Settle(Unpadding(0, |content|, padding, command, [], false));
            var g := Settle(Unpadding(0, 0, padding, command, [], false));
            Then(f, Inside(f.state, content + rest)) == Then(Fed(g.state, content, g.direct), Inside(g.state, rest))
  {
    var s := Unpadding(0, |content|, padding, command, [], false);
    if |content| > 0 {
      assert Settle(s) == Fed(s, [], false);
      ContentThen(s, content, rest);
      ThenNothing(Inside(s, content + rest), s);
    } else {
      assert content + rest == rest && content == [];
    }
  }

  /** A header and the content it announces. */
  lemma HeaderContentRead(s: Unpadding, command: Byte, content: seq<Byte>, padding: nat, tail: seq<Byte>)
    requires s.AtHeader() && |content| < 65536 && padding < 65536
    ensures var g := Settle(Unpadding(0, 0, padding, command, [], false));
            Inside(s, Header(command, |content|, padding) + (content + tail))
            == Then(Fed(g.state, content, g.direct), Inside(g.state, tail))
  {
    var body := content + tail;
    var wire := Header(command, |content|, padding) + body;
    var f := Settle(Unpadding(0, |content|, padding, command, [], false));
    assert Inside(s, wire) == Then(f, Inside(f.state, body)) by {
      assert |content| % 65536 == |content| && padding % 65536 == padding;
      HeaderRead(s, command, |content|, padding, body);
    }
    ContentRead(command, content, padding, tail);
  }

  /** Gluing the padding to what came before it. */
  lemma PaddingAfterContent(command: Byte, content: seq<Byte>, padding: seq<Byte>, rest: seq<Byte>)
    ensures var g := Settle(Unpadding(0, 0, |padding|, command, [], false));
            Then(Fed(g.state, content, g.direct), Inside(g.state, padding + rest))
            == Then(Fed(After(command), content, command == DIRECT), Inside(After(command), rest))
  {
    var g := Settle(Unpadding(0, 0, |padding|, command, [], false));
    PaddingRead(command, padding, rest);
    ThenNothing(Inside(g.state, padding + rest), g.state);
    ThenNothing(Inside(After(command), rest), g.state);
  }

  /** Every frame of any Vision peer, padded or not, is read back exactly. */
  lemma FrameRead(s: Unpadding, f: Frame, rest: seq<Byte>)
    requires s.AtHeader() && |f.content| < 65536 && |f.padding| < 65536
    ensures Inside(s, FrameBytes(f) + rest)
         == Then(Fed(After(f.command), f.content, f.command == DIRECT), Inside(After(f.command), rest))
  {
    var tail := f.padding + rest;
    assert FrameBytes(f) + rest == Header(f.command, |f.content|, |f.padding|) + (f.content + tail);
    HeaderContentRead(s, f.command, f.content, |f.padding|, tail);
    PaddingAfterContent(f.command, f.content, f.padding, rest);
  }

  // ---------------------------------------------------- the 16-bit length field

  lemma SameHighByte(n: nat)
    ensures n / 256 % 256 == n % 65536 / 256 % 256
  {
    assert n / 256 == 256 * (n / 65536) + n % 65536 / 256;
  }

  lemma SameLowByte(n: nat)
    ensures n % 256 == n % 65536 % 256
  {
    assert n == 256 * (256 * (n / 65536)) + n % 65536;
  }

  lemma SameHeader(command: Byte, n: nat)
    ensures Header(command, n, 0) == Header(command, n % 65536, 0)
  {
    SameHighByte(n);
    SameLowByte(n);
  }

  /** A frame whose content is too long is, byte for byte, a shorter frame with
      the rest of the content behind it. */
  lemma LongFrameIsShort(command: Byte, content: seq<Byte>)
    ensures var c := |content| % 65536;
            FrameBytes(Frame(command, content, [])) == FrameBytes(Frame(command, content[..c], [])) + content[c..]
  {
    var c := |content| % 65536;
    SameHeader(command, |content|);
    var header := Header(command, |content|, 0);
    assert content[..c] + content[c..] == content;
    Associate(header, content[..c], content[c..]);
    assert FrameBytes(Frame(command, content, [])) == header + content;
    assert FrameBytes(Frame(command, content[..c], [])) == header + content[..c];
  }

  lemma {:induction false} NeverLonger(s: Unpadding, input: seq<Byte>)
    ensures |Inside(s, input).out| <= |input|
    decreases |input|
  {
    if input != [] && !s.finished {
      NeverLonger(FrameByte(s, input[0]).state, input[1..]);
    }
  }

  /** The length field is 16 bits wide: a `continue` frame comes back exactly
      when its content fits, for every content. */
  lemma ContinueFrameIff(s: Unpadding, content: seq<Byte>)
    requires s.AtHeader()
    ensures Inside(s, FrameBytes(Frame(CONTINUE, content, []))).out == content <==> |content| < 65536
  {
    var c := |content| % 65536;
    var short := Frame(CONTINUE, content[..c], []);
    LongFrameIsShort(CONTINUE, content);
    FrameRead(s, short, content[c..]);
    if |content| < 65536 {
      assert content[..c] == content && content[c..] == [];
    } else {
      var next := FrameByte(After(CONTINUE), content[c]);
      assert next.out == [];
      NeverLonger(next.state, content[c..][1..]);
      assert |Inside(After(CONTINUE), content[c..]).out| < |content[c..]|;
    }
  }

  /** An `end` or `direct` frame comes back whatever its length: what the length
      field cannot say is passed on as raw bytes, together with all that follows. */
  lemma LastFrameRead(s: Unpadding, command: Byte, content: seq<Byte>, rest: seq<Byte>)
    requires s.AtHeader() && command != CONTINUE
    ensures Inside(s, FrameBytes(Frame(command, content, [])) + rest)
         == Fed(After(command), content + rest, command == DIRECT)
  {
    var c := |content| % 65536;
    var short := Frame(command, content[..c], []);
    LongFrameIsShort(command, content);
    assert FrameBytes(Frame(command, content, [])) + rest == FrameBytes(short) + (content[c..] + rest);
    FrameRead(s, short, content[c..] + rest);
    assert content[..c] + (content[c..] + rest) == content + rest;
  }

  // ------------------------------------------------------------ opening bytes

  /** A stream that opens with the UUID and a whole header is framed. */
  lemma OpeningRead(uuid: Uuid, wire: seq<Byte>)
    requires |wire| >= 5
    ensures Run(uuid, Fresh, uuid + wire) == Inside(Fresh.(command := 5), wire)
  {
    var seen := uuid + wire;
    assert seen[..16] == uuid && seen[16..] == wire;
    RunOpens(uuid, seen);
  }

  lemma RunOpens(uuid: Uuid, seen: seq<Byte>)
    requires |seen| >= OPENING && seen[..16] == uuid
    ensures Run(uuid, Fresh, seen) == Inside(Fresh.(command := 5), seen[16..])
  {
    assert [] + seen == seen;
  }

  /** An unframed peer's bytes come through unchanged exactly when there are
      none or at least 21, and they do not open with the UUID.  Fewer stay
      behind in the parser.  They never switch it to direct copy. */
  lemma UnframedIff(uuid: Uuid, input: seq<Byte>)
    ensures Run(uuid, Fresh, input).out == input
       <==> input == [] || (|input| >= OPENING && input[..16] != uuid)
    ensures Run(uuid, Fresh, input).out == input ==> !Run(uuid, Fresh, input).direct
  {
    assert [] + input == input;
    if |input| >= OPENING && input[..16] == uuid {
      NeverLonger(Fresh.(command := 5), input[16..]);
    }
  }
}
