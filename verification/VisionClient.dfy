/**
 Whole runs of a client Vision writer against the server's parser.

 A client frames each write with `end`, or with `direct` when it is made of whole
 TLS application-data records, after which it goes raw.  The server's parser goes
 raw after the first frame of either kind.
 */
module VisionClient {
  import opened Bytes
  import opened VisionCodec
  import opened TlsRecords
  import opened VisionWriter

  /** Where writing a payload in full has got to. */
  datatype Progress = Progress(w: Writer, sent: seq<Byte>, left: seq<Byte>)

  /** A payload is offered until all of it has been reported as written; the
      transport answers each attempt as it likes. */
  function WriteAll(uuid: Uuid, w: Writer, data: seq<Byte>, tries: seq<seq<Answer>>): Progress
    decreases |tries|
  {
    if data == [] || tries == [] then
      Progress(w, [], data)
    else
      var r := PollWrite(Config(uuid, false, false), w, data, tries[0]);
      if r.outcome.Failed? then
        Progress(r.w, r.sent, data)
      else
        var n := if r.outcome.Ready? then Min(r.outcome.n, |data|) else 0;
        var rest := WriteAll(uuid, r.w, data[n..], tries[1..]);
        Progress(rest.w, r.sent + rest.sent, rest.left)
  }

  /** A frame that waits goes out, whatever the answers. */
  lemma {:induction false} WaitingGoesOut(uuid: Uuid, w: Writer, data: seq<Byte>, tries: seq<seq<Answer>>)
    requires w.Valid() && w.buf != [] && w.consumed == |data|
    requires WriteAll(uuid, w, data, tries).left == []
    ensures WriteAll(uuid, w, data, tries).sent == Unsent(w)
    ensures WriteAll(uuid, w, data, tries).w
         == w.(buf := [], pos := 0, consumed := 0, direct := w.pendingDirect, pendingDirect := false)
    decreases |tries|
  {
    var c := Config(uuid, false, false);
    var r := PollWrite(c, w, data, tries[0]);
    RetryOnlyDrains(c, w, data, tries[0]);
    if r.outcome.Ready? {
      assert data[|data|..] == [];
      assert r.sent + [] == r.sent;
    } else {
      assert data[0..] == data;
      WaitingGoesOut(uuid, r.w, data, tries[1..]);
    }
  }

  /** One attempt once raw: some bytes go out as they are. */
  lemma RawTry(uuid: Uuid, w: Writer, data: seq<Byte>, tries: seq<seq<Answer>>)
    returns (first: seq<Byte>, rest: seq<Byte>)
    requires w.Valid() && w.buf == [] && w.direct && data != [] && WriteAll(uuid, w, data, tries).left == []
    ensures tries != [] && data == first + rest
    ensures WriteAll(uuid, w, data, tries)
         == var more := WriteAll(uuid, w, rest, tries[1..]); Progress(more.w, first + more.sent, more.left)
  {
    var r := PollWrite(Config(uuid, false, false), w, data, tries[0]);
    PassThroughSends(w, data, tries[0]);
    var n := if r.outcome.Ready? then r.outcome.n else 0;
    first, rest := data[..n], data[n..];
    assert r.w == w && r.sent == first;
  }

  /** Once raw, bytes go out as they are. */
  lemma {:induction false} RawGoesOut(uuid: Uuid, w: Writer, data: seq<Byte>, tries: seq<seq<Answer>>)
    requires w.Valid() && w.buf == [] && w.direct
    requires WriteAll(uuid, w, data, tries).left == []
    ensures WriteAll(uuid, w, data, tries) == Progress(w, data, [])
    decreases |tries|
  {
    if data != [] {
      var first, rest := RawTry(uuid, w, data, tries);
      RawGoesOut(uuid, w, rest, tries[1..]);
    }
  }

  /** A payload written in full is one frame on the wire, or raw. */
  lemma WrittenInFull(uuid: Uuid, w: Writer, data: seq<Byte>, tries: seq<seq<Answer>>)
    requires w.Valid() && w.buf == [] && data != []
    requires WriteAll(uuid, w, data, tries).left == []
    ensures var p := WriteAll(uuid, w, data, tries);
            if w.direct then
              p.sent == data && p.w == w
            else
              && p.sent == Chunk(uuid, data, if ApplicationData(data) then DIRECT else END, w.uuidOnce)
              && p.w == w.(uuidOnce := false, direct := ApplicationData(data), consumed := 0)
  {
    if w.direct {
      RawGoesOut(uuid, w, data, tries);
    } else {
      var c := Config(uuid, false, false);
      var r := PollWrite(c, w, data, tries[0]);
      WriteFreshFrames(c, w, data, tries[0]);
      if r.outcome.Ready? {
        assert data[|data|..] == [];
        assert r.sent + [] == r.sent;
      } else {
        assert data[0..] == data;
        WaitingGoesOut(uuid, r.w, data, tries[1..]);
      }
    }
  }

  // ----------------------------------------------------------------- whole runs

  datatype Push = Push(data: seq<Byte>, tries: seq<seq<Answer>>)

  /** What a client puts on the wire for payloads that are each written in full
      before the next. */
  function ClientWire(uuid: Uuid, w: Writer, pushes: seq<Push>): seq<Byte>
    decreases |pushes|
  {
    if pushes == [] then
      []
    else
      var p := WriteAll(uuid, w, pushes[0].data, pushes[0].tries);
      p.sent + ClientWire(uuid, p.w, pushes[1..])
  }

  ghost predicate Completed(uuid: Uuid, w: Writer, pushes: seq<Push>)
    decreases |pushes|
  {
    pushes == [] ||
    (var p := WriteAll(uuid, w, pushes[0].data, pushes[0].tries);
     pushes[0].data != [] && p.left == [] && Completed(uuid, p.w, pushes[1..]))
  }

  function Payloads(pushes: seq<Push>): seq<Byte> {
    if pushes == [] then [] else pushes[0].data + Payloads(pushes[1..])
  }

  lemma {:induction false} RawClientWire(uuid: Uuid, w: Writer, pushes: seq<Push>)
    requires w.Valid() && w.buf == [] && w.direct && Completed(uuid, w, pushes)
    ensures ClientWire(uuid, w, pushes) == Payloads(pushes)
    decreases |pushes|
  {
    if pushes != [] {
      WrittenInFull(uuid, w, pushes[0].data, pushes[0].tries);
      RawClientWire(uuid, w, pushes[1..]);
    }
  }

  /** After the first frame, every further one costs its header on the wire. */
  lemma {:induction false} LaterClientWire(uuid: Uuid, w: Writer, pushes: seq<Push>)
    requires w.Valid() && w.buf == [] && !w.direct && !w.uuidOnce && Completed(uuid, w, pushes)
    ensures |ClientWire(uuid, w, pushes)| >= |Payloads(pushes)| + (if pushes == [] then 0 else 5)
    decreases |pushes|
  {
    if pushes != [] {
      WrittenInFull(uuid, w, pushes[0].data, pushes[0].tries);
      var next := WriteAll(uuid, w, pushes[0].data, pushes[0].tries).w;
      if next.direct {
        RawClientWire(uuid, next, pushes[1..]);
      } else {
        LaterClientWire(uuid, next, pushes[1..]);
      }
    }
  }

  /** The server's parser goes raw after the client's first frame. */
  lemma FirstClientFrameRead(uuid: Uuid, pushes: seq<Push>)
    requires pushes != [] && Completed(uuid, FreshWriter, pushes)
    ensures var first := pushes[0].data;
            var w := FreshWriter.(uuidOnce := false, direct := ApplicationData(first));
            && w.Valid() && Completed(uuid, w, pushes[1..])
            && Run(uuid, Fresh, ClientWire(uuid, FreshWriter, pushes)).out == first + ClientWire(uuid, w, pushes[1..])
  {
    var first := pushes[0].data;
    var command := if ApplicationData(first) then DIRECT else END;
    var w := FreshWriter.(uuidOnce := false, direct := ApplicationData(first));
    WrittenInFull(uuid, FreshWriter, first, pushes[0].tries);
    var rest := ClientWire(uuid, w, pushes[1..]);
    var frame := FrameBytes(Frame(command, first, []));
    Associate(uuid, frame, rest);
    OpeningRead(uuid, frame + rest);
    LastFrameRead(Fresh.(command := 5), command, first, rest);
  }

  /** A client writer's payloads come out of the server's parser unchanged
      exactly when it sends at most one frame: one payload, or a first payload
      made of whole TLS application-data records, after which it goes raw.  This
      holds however the transport takes and refuses the bytes. */
  lemma ClientRoundTripIff(uuid: Uuid, pushes: seq<Push>)
    requires Completed(uuid, FreshWriter, pushes)
    ensures Run(uuid, Fresh, ClientWire(uuid, FreshWriter, pushes)).out == Payloads(pushes)
       <==> |pushes| <= 1 || (|pushes[0].data| >= 6 && MadeOfRecords(pushes[0].data))
  {
    if pushes != [] {
      ApplicationDataIff(pushes[0].data);
    }
    if pushes == [] {
      assert Run(uuid, Fresh, []).out == [];
    } else {
      var first := pushes[0].data;
      var w := FreshWriter.(uuidOnce := false, direct := ApplicationData(first));
      var rest := ClientWire(uuid, w, pushes[1..]);
      FirstClientFrameRead(uuid, pushes);
      if w.direct {
        RawClientWire(uuid, w, pushes[1..]);
      } else {
        LaterClientWire(uuid, w, pushes[1..]);
        if |pushes| == 1 {
          assert pushes[1..] == [];
        }
      }
      assert first + rest == Payloads(pushes) <==> rest == Payloads(pushes[1..]) by {
        assert (first + rest)[|first|..] == rest;
        assert Payloads(pushes)[|first|..] == Payloads(pushes[1..]);
      }
    }
  }
}
