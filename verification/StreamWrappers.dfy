/**
 Peeling stream wrappers without losing a byte.

 A boxed stream is a nest of adapters over a transport.  Relay code recovers the
 raw socket, the direct-copy layer or the Vision layer from it, together with
 bytes that adapters above had already taken.  `Content` is what reading the
 stream to the end gives, whatever the nesting and wherever reading stands.
 */
module StreamWrappers {
  import opened Bytes
  import opened VisionCodec
  import VisionWriter

  /** `rest` is what a transport will still deliver.  A direct-copy layer that is
      ready holds `decoded` bytes above its transport; one that is not would
      still decode `framed`. */
  datatype Stream =
    | Tcp(rest: seq<Byte>)
    | Opaque(rest: seq<Byte>)
    | PrependedTcp(rest: seq<Byte>, prefix: seq<Byte>, prefixPos: nat)
    | PooledTcp(rest: seq<Byte>)
    | Prepended(inner: Stream, prefix: seq<Byte>, prefixPos: nat)
    | Pooled(inner: Stream)
    | DirectCopy(ready: bool, decoded: seq<Byte>, framed: seq<Byte>, under: Stream)
    | Vision(
        inner: Stream, uuid: Uuid, state: Unpadding, readBuf: seq<Byte>, readDirect: bool, writer: VisionWriter.Writer)
  {
    /** Vision layers reach direct copy only by finishing their parser. */
    ghost predicate Valid() {
      match this
      case Prepended(inner, _, _) => inner.Valid()
      case Pooled(inner) => inner.Valid()
      case DirectCopy(_, _, _, under) => under.Valid()
      case Vision(inner, _, state, _, direct, _) => inner.Valid() && state.Valid() && (direct ==> state.finished)
      case _ => true
    }
  }

  /** The unread part of a prefix. */
  function Unread(prefix: seq<Byte>, pos: nat): seq<Byte> {
    if pos >= |prefix| then [] else prefix[pos..]
  }

  function Content(s: Stream): seq<Byte> {
    match s
    case Tcp(rest) => rest
    case Opaque(rest) => rest
    case PooledTcp(rest) => rest
    case PrependedTcp(rest, prefix, pos) => Unread(prefix, pos) + rest
    case Prepended(inner, prefix, pos) => Unread(prefix, pos) + Content(inner)
    case Pooled(inner) => Content(inner)
    case DirectCopy(ready, decoded, framed, under) => decoded + if ready then Content(under) else framed
    case Vision(inner, uuid, state, buf, _, _) => buf + Run(uuid, state, Content(inner)).out
  }

  // -------------------------------------------------------------------- reads

  datatype Read = Read(out: seq<Byte>, after: Stream)

  function Take(data: seq<Byte>, room: nat, give: nat): nat {
    Min(give, Min(room, |data|))
  }

  /** Serving unread prefix bytes; the prefix is freed once exhausted. */
  function ReadPrefix(prefix: seq<Byte>, pos: nat, room: nat): (p: (seq<Byte>, seq<Byte>, nat))
    requires pos < |prefix|
    ensures p.0 + Unread(p.1, p.2) == Unread(prefix, pos)
  {
    var n := Min(|prefix| - pos, room);
    assert prefix[pos..pos + n] + prefix[pos + n..] == prefix[pos..];
    (prefix[pos..pos + n], if pos + n >= |prefix| then [] else prefix, if pos + n >= |prefix| then 0 else pos + n)
  }

  lemma SplitAt(data: seq<Byte>, k: nat, more: seq<Byte>)
    requires k <= |data|
    ensures data[..k] + (data[k..] + more) == data + more
  {
    assert data[..k] + data[k..] == data;
  }

  /** One poll of `poll_read` into `room` bytes, the transport giving at most
      `give`; a Vision poll that decodes nothing is one turn of its loop. */
  function PollRead(s: Stream, room: nat, give: nat): Read {
    match s
    case Tcp(rest) => var k := Take(rest, room, give); Read(rest[..k], Tcp(rest[k..]))
    case Opaque(rest) => var k := Take(rest, room, give); Read(rest[..k], Opaque(rest[k..]))
    case PooledTcp(rest) => var k := Take(rest, room, give); Read(rest[..k], PooledTcp(rest[k..]))
    case PrependedTcp(rest, prefix, pos) =>
      if pos < |prefix| then
        var p := ReadPrefix(prefix, pos, room);
        Read(p.0, PrependedTcp(rest, p.1, p.2))
      else
        var k := Take(rest, room, give); Read(rest[..k], PrependedTcp(rest[k..], prefix, pos))
    case Prepended(inner, prefix, pos) =>
      if pos < |prefix| then
        var p := ReadPrefix(prefix, pos, room);
        Read(p.0, Prepended(inner, p.1, p.2))
      else
        var r := PollRead(inner, room, give); Read(r.out, Prepended(r.after, prefix, pos))
    case Pooled(inner) =>
      var r := PollRead(inner, room, give); Read(r.out, Pooled(r.after))
    case DirectCopy(ready, decoded, framed, under) =>
      if decoded != [] then
        var k := Take(decoded, room, give); Read(decoded[..k], s.(decoded := decoded[k..]))
      else if ready then
        var r := PollRead(under, room, give); Read(r.out, s.(under := r.after))
      else
        var k := Take(framed, room, give); Read(framed[..k], s.(framed := framed[k..]))
    case Vision(inner, uuid, state, buf, direct, writer) =>
      if buf != [] then
        var n := Min(room, |buf|); Read(buf[..n], Vision(inner, uuid, state, buf[n..], direct, writer))
      else if direct then
        var r := PollRead(inner, room, give); Read(r.out, Vision(r.after, uuid, state, buf, direct, writer))
      else
        var r := PollRead(inner, 8192, give);
        var f := Run(uuid, state, r.out);
        var n := Min(room, |f.out|);
        Read(f.out[..n], Vision(r.after, uuid, f.state, f.out[n..], f.direct, writer))
  }

  lemma VisionReadKeeps(s: Stream, room: nat, r: Read)
    requires s.Vision? && s.Valid() && s.readBuf == [] && !s.readDirect
    requires r.after.Valid() && r.out + Content(r.after) == Content(s.inner)
    ensures var f := Run(s.uuid, s.state, r.out);
            var n := Min(room, |f.out|);
            var after := Vision(r.after, s.uuid, f.state, f.out[n..], f.direct, s.writer);
            after.Valid() && f.out[..n] + Content(after) == Content(s)
  {
    var f := Run(s.uuid, s.state, r.out);
    var n := Min(room, |f.out|);
    RunValid(s.uuid, s.state, r.out);
    RunSplits(s.uuid, s.state, r.out, Content(r.after));
    var later := Run(s.uuid, f.state, Content(r.after)).out;
    Associate(f.out[..n], f.out[n..], later);
    assert f.out[..n] + f.out[n..] == f.out;
    assert [] + Run(s.uuid, s.state, Content(s.inner)).out == Run(s.uuid, s.state, Content(s.inner)).out;
  }

  /** What one read of `s` must do. */
  ghost predicate Takes(s: Stream, r: Read) {
    r.after.Valid() && r.out + Content(r.after) == Content(s)
  }

  lemma EmptyFirst(x: seq<Byte>)
    ensures [] + x == x
  {
  }

  lemma CutAt(data: seq<Byte>, k: nat)
    requires k <= |data|
    ensures data[..k] + data[k..] == data
  {
  }

  lemma DecodedRead(s: Stream, room: nat, give: nat)
    requires s.DirectCopy? && s.Valid() && s.decoded != []
    ensures Takes(s, PollRead(s, room, give))
  {
    SplitAt(s.decoded, Take(s.decoded, room, give), if s.ready then Content(s.under) else s.framed);
  }

  lemma FramedRead(s: Stream, room: nat, give: nat)
    requires s.DirectCopy? && s.Valid() && s.decoded == [] && !s.ready
    ensures Takes(s, PollRead(s, room, give))
  {
    var k := Take(s.framed, room, give);
    CutAt(s.framed, k);
    EmptyFirst(s.framed);
    EmptyFirst(s.framed[k..]);
  }

  lemma ReadyRead(s: Stream, room: nat, give: nat)
    requires s.DirectCopy? && s.Valid() && s.decoded == [] && s.ready
    requires Takes(s.under, PollRead(s.under, room, give))
    ensures Takes(s, PollRead(s, room, give))
  {
    EmptyFirst(Content(s.under));
    EmptyFirst(Content(PollRead(s.under, room, give).after));
  }

  lemma TransportRead(s: Stream, room: nat, give: nat)
    requires s.Tcp? || s.Opaque? || s.PooledTcp?
    ensures Takes(s, PollRead(s, room, give))
  {
    CutAt(s.rest, Take(s.rest, room, give));
  }

  lemma PrependedTcpRead(s: Stream, room: nat, give: nat)
    requires s.PrependedTcp?
    ensures Takes(s, PollRead(s, room, give))
  {
    if s.prefixPos < |s.prefix| {
      var p := ReadPrefix(s.prefix, s.prefixPos, room);
      Associate(p.0, Unread(p.1, p.2), s.rest);
    } else {
      var k := Take(s.rest, room, give);
      CutAt(s.rest, k);
      EmptyFirst(s.rest);
      EmptyFirst(s.rest[k..]);
    }
  }

  lemma PrependedRead(s: Stream, room: nat, give: nat)
    requires s.Prepended? && s.Valid()
    requires Takes(s.inner, PollRead(s.inner, room, give))
    ensures Takes(s, PollRead(s, room, give))
  {
    if s.prefixPos < |s.prefix| {
      var p := ReadPrefix(s.prefix, s.prefixPos, room);
      Associate(p.0, Unread(p.1, p.2), Content(s.inner));
    } else {
      EmptyFirst(Content(s.inner));
      EmptyFirst(Content(PollRead(s.inner, room, give).after));
    }
  }

  lemma VisionRead(s: Stream, room: nat, give: nat)
    requires s.Vision? && s.Valid()
    requires Takes(s.inner, PollRead(s.inner, room, give)) && Takes(s.inner, PollRead(s.inner, 8192, give))
    ensures Takes(s, PollRead(s, room, give))
  {
    if s.readBuf != [] {
      SplitAt(s.readBuf, Min(room, |s.readBuf|), Run(s.uuid, s.state, Content(s.inner)).out);
    } else if s.readDirect {
      FinishedIsRaw(s.state, Content(s.inner));
      FinishedIsRaw(s.state, Content(PollRead(s.inner, room, give).after));
      EmptyFirst(Content(s.inner));
      EmptyFirst(Content(PollRead(s.inner, room, give).after));
    } else {
      VisionReadKeeps(s, room, PollRead(s.inner, 8192, give));
    }
  }

  /** Reading takes its bytes off the front of the content, at every nesting. */
  lemma {:induction false} ReadTakesContent(s: Stream, room: nat, give: nat)
    requires s.Valid()
    ensures PollRead(s, room, give).after.Valid()
    ensures PollRead(s, room, give).out + Content(PollRead(s, room, give).after) == Content(s)
    decreases s
  {
    match s {
      case Prepended(inner, _, _) =>
        ReadTakesContent(inner, room, give);
        PrependedRead(s, room, give);
      case Pooled(inner) =>
        ReadTakesContent(inner, room, give);
      case DirectCopy(ready, decoded, _, under) =>
        if decoded == [] && ready {
          ReadTakesContent(under, room, give);
          ReadyRead(s, room, give);
        } else if decoded == [] {
          FramedRead(s, room, give);
        } else {
          DecodedRead(s, room, give);
        }
      case Vision(inner, _, _, _, _, _) =>
        ReadTakesContent(inner, room, give);
        ReadTakesContent(inner, 8192, give);
        VisionRead(s, room, give);
      case PrependedTcp(_, _, _) =>
        PrependedTcpRead(s, room, give);
      case _ =>
        TransportRead(s, room, give);
    }
  }

  // ----------------------------------------------------------------- recovery

  /** Either the recovered layer with the bytes to serve before it, or the
      stream handed back. */
  datatype Recovery<T> = Recovered(layer: T, prefix: seq<Byte>) | Returned(stream: Stream)

  /** try_into_tcp_stream_with_prefix; the layer is what the socket will deliver. */
  function TryIntoTcpWithPrefix(s: Stream): Recovery<seq<Byte>> {
    match s
    case Tcp(rest) => Recovered(rest, [])
    case PrependedTcp(rest, prefix, pos) => Recovered(rest, Unread(prefix, pos))
    case PooledTcp(rest) => Recovered(rest, [])
    case Prepended(inner, prefix, pos) =>
      var unread := Unread(prefix, pos);
      (match TryIntoTcpWithPrefix(inner)
       case Recovered(tcp, innerPrefix) =>
         if unread == [] then Recovered(tcp, innerPrefix)
         else if innerPrefix == [] then Recovered(tcp, unread)
         else Recovered(tcp, unread + innerPrefix)
       case Returned(inner') => Returned(Prepended(inner', unread, 0)))
    case _ => Returned(s)
  }

  /** try_into_tcp_stream. */
  function TryIntoTcp(s: Stream): Recovery<seq<Byte>> {
    match TryIntoTcpWithPrefix(s)
    case Recovered(tcp, prefix) =>
      if prefix == [] then Recovered(tcp, []) else Returned(PrependedTcp(tcp, prefix, 0))
    case Returned(t) => Returned(t)
  }

  /** try_unwrap_direct_copy_stream_with_prefix. */
  function TryUnwrapDirect(s: Stream): Recovery<Stream> {
    match s
    case DirectCopy(ready, decoded, _, under) => if ready then Recovered(under, decoded) else Returned(s)
    case Prepended(inner, prefix, pos) =>
      var unread := Unread(prefix, pos);
      (match TryUnwrapDirect(inner)
       case Recovered(under, innerPrefix) => Recovered(under, unread + innerPrefix)
       case Returned(inner') => Returned(Prepended(inner', unread, 0)))
    case _ => Returned(s)
  }

  /** try_into_direct_copy_tcp_stream_with_prefix. */
  function TryIntoDirectTcp(s: Stream): Recovery<seq<Byte>> {
    match TryUnwrapDirect(s)
    case Recovered(inner, prefix) =>
      (match TryIntoTcpWithPrefix(inner)
       case Recovered(tcp, innerPrefix) => Recovered(tcp, prefix + innerPrefix)
       case Returned(inner') => Returned(Prepended(inner', prefix, 0)))
    case Returned(t) => TryIntoTcpWithPrefix(t)
  }

  function PrependPlaintext(v: Stream, prefix: seq<Byte>): Stream
    requires v.Vision?
  {
    v.(readBuf := prefix + v.readBuf)
  }

  /** try_into_vision_stream; the prefix ends up inside the layer. */
  function TryIntoVision(s: Stream): (r: Recovery<Stream>)
    ensures r.Recovered? ==> r.layer.Vision?
  {
    match s
    case Vision(_, _, _, _, _, _) => Recovered(s, [])
    case Prepended(inner, prefix, pos) =>
      var unread := Unread(prefix, pos);
      (match TryIntoVision(inner)
       case Recovered(v, p) => Recovered(PrependPlaintext(v, unread), p)
       case Returned(inner') => Returned(Prepended(inner', unread, 0)))
    case _ => Returned(s)
  }

  /** is_direct_copy_ready. */
  predicate DirectCopyReady(v: Stream)
    requires v.Vision?
  {
    v.readDirect && v.writer.direct && v.readBuf == [] && v.writer.buf == []
  }

  /** try_lower, once both directions of a Vision layer are in direct copy. */
  function TryLower(v: Stream): Recovery<seq<Byte>>
    requires v.Vision?
  {
    if DirectCopyReady(v) then TryIntoTcpWithPrefix(v.inner) else Returned(v)
  }

  function CanUnwrapDirect(s: Stream): bool {
    match s
    case DirectCopy(ready, _, _, _) => ready
    case Prepended(inner, prefix, pos) => pos >= |prefix| && CanUnwrapDirect(inner)
    case _ => false
  }

  // ----------------------------------- what recovery finds, seen from outside

  /** The stream below all boxed prepending adapters. */
  function Core(s: Stream): Stream {
    if s.Prepended? then Core(s.inner) else s
  }

  /** What those adapters still hold, outermost first. */
  function Held(s: Stream): seq<Byte> {
    if s.Prepended? then Unread(s.prefix, s.prefixPos) + Held(s.inner) else []
  }

  /** The same nest with the consumed parts of its prefixes dropped. */
  function Trimmed(s: Stream): Stream {
    if s.Prepended? then Prepended(Trimmed(s.inner), Unread(s.prefix, s.prefixPos), 0) else s
  }

  lemma {:induction false} ContentIsHeldAndCore(s: Stream)
    ensures Content(s) == Held(s) + Content(Core(s))
    decreases s
  {
    if s.Prepended? {
      ContentIsHeldAndCore(s.inner);
      Associate(Unread(s.prefix, s.prefixPos), Held(s.inner), Content(Core(s)));
    } else {
      assert [] + Content(s) == Content(s);
    }
  }

  lemma {:induction false} TrimmedKeepsContent(s: Stream)
    requires s.Valid()
    ensures Trimmed(s).Valid() && Content(Trimmed(s)) == Content(s)
    decreases s
  {
    if s.Prepended? {
      TrimmedKeepsContent(s.inner);
      var unread := Unread(s.prefix, s.prefixPos);
      assert Unread(unread, 0) == unread;
    }
  }

  /** Raw TCP is recovered exactly when it lies below the prepending adapters,
      with every byte they hold in front; otherwise the stream comes back with
      the same content. */
  lemma {:induction false} TcpRecovery(s: Stream)
    requires s.Valid()
    ensures var r := TryIntoTcpWithPrefix(s);
            var core := Core(s);
            && (r.Recovered? <==> core.Tcp? || core.PrependedTcp? || core.PooledTcp?)
            && (r.Recovered? ==> r.prefix + r.layer == Content(s))
            && (r.Returned? ==> r.stream == Trimmed(s) && Content(r.stream) == Content(s))
    decreases s
  {
    TrimmedKeepsContent(s);
    if s.Prepended? {
      TcpRecovery(s.inner);
      var unread := Unread(s.prefix, s.prefixPos);
      var r := TryIntoTcpWithPrefix(s.inner);
      if r.Recovered? {
        Associate(unread, r.prefix, r.layer);
        assert unread == [] ==> unread + (r.prefix + r.layer) == r.prefix + r.layer;
        assert unread + [] == unread;
      }
    } else if s.Tcp? || s.PooledTcp? {
      assert [] + s.rest == s.rest;
    }
  }

  lemma PlainTcpRecovery(s: Stream)
    requires s.Valid()
    ensures var r := TryIntoTcp(s);
            && (r.Recovered? ==> r.layer == Content(s))
            && (r.Returned? ==> Content(r.stream) == Content(s))
  {
    TcpRecovery(s);
    var r := TryIntoTcpWithPrefix(s);
    if r.Recovered? {
      if r.prefix == [] {
        assert [] + r.layer == r.layer;
      } else {
        assert Unread(r.prefix, 0) == r.prefix;
      }
    }
  }

  /** The direct-copy layer is removed exactly when it lies below the prepending
      adapters and is ready; and the readiness test says so, exactly when those
      adapters are also exhausted. */
  lemma {:induction false} DirectRecovery(s: Stream)
    requires s.Valid()
    ensures var r := TryUnwrapDirect(s);
            var core := Core(s);
            && (r.Recovered? <==> core.DirectCopy? && core.ready)
            && (r.Recovered? ==> r.layer == core.under && r.layer.Valid() && r.prefix == Held(s) + core.decoded
                                 && r.prefix + Content(r.layer) == Content(s))
            && (r.Returned? ==> r.stream == Trimmed(s) && Content(r.stream) == Content(s))
            && (CanUnwrapDirect(s) <==> r.Recovered? && Held(s) == [])
    decreases s
  {
    TrimmedKeepsContent(s);
    if s.Prepended? {
      DirectRecovery(s.inner);
      var unread := Unread(s.prefix, s.prefixPos);
      var r := TryUnwrapDirect(s.inner);
      if r.Recovered? {
        Associate(unread, Held(s.inner), Core(s).decoded);
        Associate(unread, r.prefix, Content(r.layer));
      }
      assert unread == [] <==> s.prefixPos >= |s.prefix|;
      assert Held(s) == [] <==> unread == [] && Held(s.inner) == [];
    } else if s.DirectCopy? {
      assert Held(s) + s.decoded == s.decoded;
    }
  }

  lemma DirectTcpRecovery(s: Stream)
    requires s.Valid()
    ensures var r := TryIntoDirectTcp(s);
            && (r.Recovered? ==> r.prefix + r.layer == Content(s))
            && (r.Returned? ==> Content(r.stream) == Content(s))
  {
    DirectRecovery(s);
    var r := TryUnwrapDirect(s);
    if r.Recovered? {
      TcpRecovery(r.layer);
      var t := TryIntoTcpWithPrefix(r.layer);
      if t.Recovered? {
        Associate(r.prefix, t.prefix, t.layer);
      } else {
        assert Unread(r.prefix, 0) == r.prefix;
      }
    } else {
      TrimmedKeepsContent(s);
      TcpRecovery(r.stream);
    }
  }

  /** A Vision layer is recovered exactly when it lies below the prepending
      adapters, and the plaintext they hold is served above its parser, not fed
      through it a second time. */
  lemma {:induction false} VisionRecovery(s: Stream)
    requires s.Valid()
    ensures var r := TryIntoVision(s);
            && (r.Recovered? <==> Core(s).Vision?)
            && (r.Recovered? ==> r.layer.Valid() && r.prefix == [] && Content(r.layer) == Content(s)
                                 && r.layer == Core(s).(readBuf := Held(s) + Core(s).readBuf))
            && (r.Returned? ==> r.stream == Trimmed(s) && Content(r.stream) == Content(s))
    decreases s
  {
    TrimmedKeepsContent(s);
    if s.Prepended? {
      VisionRecovery(s.inner);
      var r := TryIntoVision(s.inner);
      if r.Recovered? {
        var unread := Unread(s.prefix, s.prefixPos);
        var core := Core(s);
        Associate(unread, Held(s.inner), core.readBuf);
        Associate(unread, r.layer.readBuf, Run(core.uuid, core.state, Content(core.inner)).out);
      }
    } else if s.Vision? {
      assert [] + s.readBuf == s.readBuf;
    }
  }

  /** What is written to a layer passes to its transport as it is. */
  ghost predicate WritesRaw(w: VisionWriter.Writer) {
    forall c: VisionWriter.Config, data: seq<Byte>, answers: seq<VisionWriter.Answer> ::
      VisionWriter.PollWrite(c, w, data, answers) == VisionWriter.PassThrough(w, data, answers)
  }

  /** Lowering takes a Vision layer off exactly when both of its directions are in
      direct copy and hold nothing.  Its parser then has nothing left to say about the
      bytes below, so the content is kept, and its writer had nothing to add to what is
      written.  Any other layer comes back as it was. */
  lemma LoweringKeepsContent(v: Stream)
    requires v.Vision? && v.Valid()
    ensures var r := TryLower(v);
            var core := Core(v.inner);
            var ready := v.readDirect && v.writer.direct && v.readBuf == [] && v.writer.buf == [];
            && (!ready ==> r == Returned(v))
            && (ready ==> WritesRaw(v.writer) && (r.Returned? ==> r.stream == Trimmed(v.inner)))
            && (r.Recovered? <==> ready && (core.Tcp? || core.PrependedTcp? || core.PooledTcp?))
            && (r.Recovered? ==> r.prefix + r.layer == Content(v))
            && (r.Returned? ==> Content(r.stream) == Content(v))
  {
    if DirectCopyReady(v) {
      TcpRecovery(v.inner);
      FinishedIsRaw(v.state, Content(v.inner));
      assert [] + Content(v.inner) == Content(v.inner);
    }
  }
}
