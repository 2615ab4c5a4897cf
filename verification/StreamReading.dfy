/**
 Reading a wrapped stream to its end: whatever the nesting, reads that ask for
 something of transports that give something get all of the content, in a number of
 reads that the stream itself bounds.
 */
module StreamReading {
  import opened Bytes
  import opened VisionCodec
  import opened StreamWrappers

  /** What is left to read: every byte that is held somewhere, and a byte below a
      Vision layer several times, since it has to pass through the parser. */
  function Left(s: Stream): nat {
    match s
    case Tcp(rest) => |rest|
    case Opaque(rest) => |rest|
    case PooledTcp(rest) => |rest|
    case PrependedTcp(rest, prefix, pos) => |Unread(prefix, pos)| + |rest|
    case Prepended(inner, prefix, pos) => |Unread(prefix, pos)| + Left(inner)
    case Pooled(inner) => Left(inner)
    case DirectCopy(ready, decoded, framed, under) => |decoded| + if ready then Left(under) else |framed|
    case Vision(inner, _, state, buf, _, _) => |buf| + LeftBelow(state, Left(inner))
  }

  function LeftBelow(state: Unpadding, left: nat): nat {
    if left == 0 then 0 else 2 * |state.pending| + 3 * left
  }

  lemma {:induction false} NothingLeft(s: Stream)
    requires Left(s) == 0 && s.Valid()
    ensures Content(s) == []
    decreases s
  {
    match s {
      case Prepended(inner, _, _) => NothingLeft(inner);
      case Pooled(inner) => NothingLeft(inner);
      case DirectCopy(ready, _, _, under) =>
        if ready {
          NothingLeft(under);
        }
      case Vision(inner, uuid, state, _, _, _) =>
        NothingLeft(inner);
        NothingDecoded(uuid, state);
      case _ =>
    }
  }

  lemma NothingDecoded(uuid: Uuid, state: Unpadding)
    requires state.Valid()
    ensures Run(uuid, state, []) == Fed(state, [], false)
  {
    assert state.pending + [] == state.pending;
  }

  lemma {:induction false} InsideKeepsPending(s: Unpadding, input: seq<Byte>)
    ensures Inside(s, input).state.pending == s.pending
    decreases |input|
  {
    if input != [] && !s.finished {
      InsideKeepsPending(FrameByte(s, input[0]).state, input[1..]);
    }
  }

  /** The parser makes no bytes: what it hands out and still holds was held or came in. */
  lemma RunNeverLonger(uuid: Uuid, s: Unpadding, input: seq<Byte>)
    requires s.Valid()
    ensures var f := Run(uuid, s, input); |f.out| + |f.state.pending| <= |s.pending| + |input|
  {
    if s.finished || !s.AtStart() {
      NeverLonger(s, input);
      InsideKeepsPending(s, input);
    } else {
      var seen := s.pending + input;
      if |seen| >= OPENING && seen[..16] == uuid {
        var t := s.(command := 5, pending := []);
        NeverLonger(t, seen[16..]);
        InsideKeepsPending(t, seen[16..]);
      }
    }
  }

  /** What one read must do: it hands out no more than it takes away, and takes something
      away while anything is left. */
  ghost predicate Advances(s: Stream, r: Read) {
    Left(r.after) + |r.out| <= Left(s) && (Left(s) > 0 ==> Left(r.after) < Left(s))
  }

  lemma PrefixAdvances(prefix: seq<Byte>, pos: nat, room: nat)
    requires pos < |prefix| && room > 0
    ensures var p := ReadPrefix(prefix, pos, room);
            |p.0| > 0 && |p.0| + |Unread(p.1, p.2)| == |Unread(prefix, pos)|
  {
    var p := ReadPrefix(prefix, pos, room);
    assert |p.0 + Unread(p.1, p.2)| == |p.0| + |Unread(p.1, p.2)|;
  }

  lemma PrependedTcpAdvances(s: Stream, room: nat, give: nat)
    requires s.PrependedTcp? && room > 0 && give > 0
    ensures Advances(s, PollRead(s, room, give))
  {
    if s.prefixPos < |s.prefix| {
      PrefixAdvances(s.prefix, s.prefixPos, room);
    }
  }

  lemma PrependedAdvances(s: Stream, room: nat, give: nat)
    requires s.Prepended? && room > 0 && give > 0 && Advances(s.inner, PollRead(s.inner, room, give))
    ensures Advances(s, PollRead(s, room, give))
  {
    if s.prefixPos < |s.prefix| {
      PrefixAdvances(s.prefix, s.prefixPos, room);
    }
  }

  lemma DirectCopyAdvances(s: Stream, room: nat, give: nat)
    requires s.DirectCopy? && room > 0 && give > 0
    requires s.ready && s.decoded == [] ==> Advances(s.under, PollRead(s.under, room, give))
    ensures Advances(s, PollRead(s, room, give))
  {
  }

  /** A read through the parser: bytes that it keeps count less than they did below it. */
  lemma DecodingAdvances(p: nat, p': nat, below: nat, below': nat, got: nat, plain: nat, out: nat)
    requires below' + got <= below && (below > 0 ==> below' < below) && plain + p' <= p + got && out <= plain
    requires below == 0 ==> plain == 0
    ensures var before := if below == 0 then 0 else 2 * p + 3 * below;
            var after := plain - out + if below' == 0 then 0 else 2 * p' + 3 * below';
            after + out <= before && (before > 0 ==> after < before)
  {
  }

  lemma VisionAdvances(s: Stream, room: nat, give: nat)
    requires s.Vision? && s.Valid() && room > 0 && give > 0
    requires Advances(s.inner, PollRead(s.inner, room, give)) && Advances(s.inner, PollRead(s.inner, 8192, give))
    ensures Advances(s, PollRead(s, room, give))
  {
    if s.readBuf == [] && !s.readDirect {
      var r := PollRead(s.inner, 8192, give);
      var f := Run(s.uuid, s.state, r.out);
      RunNeverLonger(s.uuid, s.state, r.out);
      if Left(s.inner) == 0 {
        assert r.out == [];
        NothingDecoded(s.uuid, s.state);
      }
      DecodingAdvances(|s.state.pending|, |f.state.pending|, Left(s.inner), Left(r.after), |r.out|, |f.out|,
                       Min(room, |f.out|));
    }
  }

  lemma {:induction false} ReadAdvances(s: Stream, room: nat, give: nat)
    requires s.Valid() && room > 0 && give > 0
    ensures Advances(s, PollRead(s, room, give))
    decreases s
  {
    match s {
      case Prepended(inner, _, _) =>
        ReadAdvances(inner, room, give);
        PrependedAdvances(s, room, give);
      case Pooled(inner) =>
        ReadAdvances(inner, room, give);
      case DirectCopy(_, _, _, under) =>
        ReadAdvances(under, room, give);
        DirectCopyAdvances(s, room, give);
      case Vision(inner, _, _, _, _, _) =>
        ReadAdvances(inner, room, give);
        ReadAdvances(inner, 8192, give);
        VisionAdvances(s, room, give);
      case PrependedTcp(_, _, _) =>
        PrependedTcpAdvances(s, room, give);
      case _ =>
    }
  }

  // ------------------------------------------------------------------ many reads

  /** A read: how much the caller has room for, and the transport gives. */
  datatype Poll = Poll(room: nat, give: nat)

  function ReadAll(s: Stream, polls: seq<Poll>): Read
    decreases |polls|
  {
    if polls == [] then
      Read([], s)
    else
      var r := PollRead(s, polls[0].room, polls[0].give);
      var rest := ReadAll(r.after, polls[1..]);
      Read(r.out + rest.out, rest.after)
  }

  /** Reads in a row hand out the content from the front, none of it twice and none of
      it skipped, wherever they stop. */
  lemma {:induction false} ReadsTakeContent(s: Stream, polls: seq<Poll>)
    requires s.Valid()
    ensures ReadAll(s, polls).after.Valid() && ReadAll(s, polls).out + Content(ReadAll(s, polls).after) == Content(s)
    decreases |polls|
  {
    if polls == [] {
      assert [] + Content(s) == Content(s);
    } else {
      var r := PollRead(s, polls[0].room, polls[0].give);
      ReadTakesContent(s, polls[0].room, polls[0].give);
      ReadsTakeContent(r.after, polls[1..]);
      var rest := ReadAll(r.after, polls[1..]);
      Associate(r.out, rest.out, Content(rest.after));
    }
  }

  lemma {:induction false} ReadsUseUp(s: Stream, polls: seq<Poll>)
    requires s.Valid() && forall i :: 0 <= i < |polls| ==> polls[i].room > 0 && polls[i].give > 0
    ensures Left(ReadAll(s, polls).after) <= if |polls| >= Left(s) then 0 else Left(s) - |polls|
    decreases |polls|
  {
    if polls != [] {
      var r := PollRead(s, polls[0].room, polls[0].give);
      ReadAdvances(s, polls[0].room, polls[0].give);
      ReadTakesContent(s, polls[0].room, polls[0].give);
      assert forall i :: 0 <= i < |polls| - 1 ==> polls[1..][i] == polls[i + 1];
      ReadsUseUp(r.after, polls[1..]);
    }
  }

  /** And they get to its end: as many reads as there is left, each with room for
      something and a transport that gives something, hand out the whole content. */
  lemma ReadsToTheEnd(s: Stream, polls: seq<Poll>)
    requires s.Valid() && forall i :: 0 <= i < |polls| ==> polls[i].room > 0 && polls[i].give > 0
    requires |polls| >= Left(s)
    ensures ReadAll(s, polls).out == Content(s)
  {
    ReadsUseUp(s, polls);
    ReadsTakeContent(s, polls);
    NothingLeft(ReadAll(s, polls).after);
    assert ReadAll(s, polls).out + [] == ReadAll(s, polls).out;
  }
}
