/** The incremental unpadding parser, which works on whole chunks in place. */
module VisionUnpadding {
  import opened Bytes
  import opened VisionCodec

  class VisionUnpaddingState {
    var remainingCommand: int
    var remainingContent: int
    var remainingPadding: int
    var currentCommand: int
    var pendingInitial: seq<Byte>
    var finished: bool

    function View(): Unpadding
      reads this
    {
      Unpadding(remainingCommand, remainingContent, remainingPadding, currentCommand, pendingInitial, finished)
    }

    constructor ()
      ensures View() == Fresh
    {
      remainingCommand, remainingContent, remainingPadding := INITIAL, INITIAL, INITIAL;
      currentCommand, pendingInitial, finished := 0, [], false;
    }

    /** One of the five header bytes. */
    method TakeHeaderByte(b: Byte)
      requires View().Valid() && !finished && remainingCommand > 0
      modifies this
      ensures View() == HeaderByte(old(View()), b) && View().InBounds()
    {
      var byte: int := b;
      match remainingCommand {
        case 5 => currentCommand := byte;
        case 4 => remainingContent := byte * 256;
        case 3 => remainingContent := remainingContent + byte;
        case 2 => remainingPadding := byte * 256;
        case 1 => remainingPadding := remainingPadding + byte;
      }
      remainingCommand := remainingCommand - 1;
    }

    /** One pass of the framing branch: a header byte, or a block of content or
        padding. */
    method ReadBlock(input: seq<Byte>, pos: nat) returns (next: nat, out: seq<Byte>)
      requires pos < |input|
      requires View().Valid() && !finished && !View().AtStart()
      modifies this
      ensures pos < next <= |input|
      ensures var f := Settle(View());
              Inside(old(View()), input[pos..]) == Then(Fed(f.state, out, f.direct), Inside(f.state, input[next..]))
      ensures pendingInitial == old(pendingInitial) && !finished && View().InBounds()
    {
      ghost var was := View();
      ghost var rest := input[pos..];
      if remainingCommand > 0 {
        next, out := pos + 1, [];
        TakeHeaderByte(input[pos]);
        assert rest[0] == input[pos] && rest[1..] == input[next..];
        assert Settle(View()).out == [];
      } else if remainingContent > 0 {
        var take := Min(remainingContent, |input| - pos);
        out := input[pos..pos + take];
        next := pos + take;
        remainingContent := remainingContent - take;
        ContentBlock(was, take, rest);
        assert rest[..take] == out && rest[take..] == input[next..];
      } else {
        var skip := Min(remainingPadding, |input| - pos);
        out := [];
        next := pos + skip;
        remainingPadding := remainingPadding - skip;
        PaddingBlock(was, skip, rest);
        assert rest[skip..] == input[next..];
      }
    }

    /** At the end of a frame, expect the next header or go raw. */
    method EndFrame() returns (switched: bool)
      requires !finished && pendingInitial == [] && View().InBounds()
      modifies this
      ensures Fed(View(), [], switched) == Settle(old(View()))
      ensures View().Valid() && (!finished ==> !switched && !View().AtStart())
    {
      switched := false;
      if remainingCommand <= 0 && remainingContent <= 0 && remainingPadding <= 0 {
        if currentCommand == CONTINUE {
          remainingCommand := 5;
        } else {
          switched := currentCommand == DIRECT;
          finished := true;
          remainingCommand, remainingContent, remainingPadding := INITIAL, INITIAL, INITIAL;
        }
      }
    }

    /** A block, and the end of the frame if that is what it was. */
    method ReadOne(input: seq<Byte>, pos: nat) returns (next: nat, out: seq<Byte>, switched: bool)
      requires pos < |input|
      requires View().Valid() && !finished && !View().AtStart()
      modifies this
      ensures pos < next <= |input| && View().Valid() && (!finished ==> !switched && !View().AtStart())
      ensures Inside(old(View()), input[pos..]) == Then(Fed(View(), out, switched), Inside(View(), input[next..]))
    {
      next, out := ReadBlock(input, pos);
      switched := EndFrame();
    }

    /** The undecided start: either the whole chunk is dealt with here, or the
        UUID was found and framing begins at `pos`. */
    method Begin(uuid: Uuid, input: seq<Byte>) returns (done: bool, pos: nat, out: seq<Byte>, direct: bool)
      requires View().Valid() && View().AtStart() && !finished && input != []
      modifies this
      ensures View().Valid()
      ensures done ==> Fed(View(), out, direct) == Run(uuid, old(View()), input)
      ensures !done ==> !finished && !View().AtStart() && out == [] && !direct && pos < |input|
      ensures !done ==> Run(uuid, old(View()), input) == Inside(View(), input[pos..])
      decreases 1
    {
      ghost var seen := pendingInitial + input;
      pos, out, direct := 0, [], false;
      if pendingInitial == [] && |input| - pos >= 21 {
        assert seen == input;
        if input[pos..pos + 16] == uuid {
          pos := pos + 16;
          remainingCommand := 5;
          done := false;
        } else {
          finished := true;
          out := input[pos..];
          done := true;
        }
      } else {
        assert input[pos..] == input;
        pendingInitial := pendingInitial + input[pos..];
        done := true;
        if |pendingInitial| < 21 {
          return;
        }
        if pendingInitial[..16] == uuid {
          remainingCommand := 5;
          var pending := pendingInitial;
          pendingInitial := [];
          out, direct := Feed(uuid, pending[16..]);
          return;
        }
        finished := true;
        out := pendingInitial;
        pendingInitial := [];
      }
    }

    /** Feeds one chunk; `direct` is true when the stream should switch to
        direct copy. */
    method Feed(uuid: Uuid, input: seq<Byte>) returns (out: seq<Byte>, direct: bool)
      requires View().Valid()
      modifies this
      ensures Fed(View(), out, direct) == Run(uuid, old(View()), input)
      ensures View().Valid()
      decreases if View().AtStart() && !finished then 2 else 0
    {
      ghost var goal := Run(uuid, View(), input);
      out, direct := [], false;
      if finished {
        FinishedIsRaw(View(), input);
        return input, false;
      }
      var pos := 0;
      assert input[0..] == input;
      ThenNothing(goal, View());
      while pos < |input|
        invariant 0 <= pos <= |input|
        invariant View().Valid() && !finished && !direct
        invariant View().AtStart() ==> pos == 0 && out == [] && View() == old(View())
        invariant !View().AtStart() ==> goal == Then(Fed(View(), out, false), Inside(View(), input[pos..]))
        decreases |input| - pos
      {
        if remainingCommand == INITIAL && remainingContent == INITIAL && remainingPadding == INITIAL {
          var done;
          done, pos, out, direct := Begin(uuid, input);
          if done {
            return;
          }
          ThenNothing(goal, View());
        }

        ghost var soFar := Fed(View(), out, false);
        var next, block, switched := ReadOne(input, pos);
        ThenAssociates(soFar, Fed(View(), block, switched), Inside(View(), input[next..]));
        pos := next;
        out := out + block;
        if finished {
          direct := switched;
          FinishedIsRaw(View(), input[pos..]);
          if pos < |input| {
            out := out + input[pos..];
          }
          break;
        }
      }
    }

    /** Any number of calls on any chunks give what one call on the whole gives. */
    method FeedAll(uuid: Uuid, chunks: seq<seq<Byte>>) returns (out: seq<Byte>, switches: nat)
      requires View().Valid()
      modifies this
      ensures View() == Run(uuid, old(View()), Concat(chunks)).state
      ensures out == Run(uuid, old(View()), Concat(chunks)).out
      ensures switches == if Run(uuid, old(View()), Concat(chunks)).direct then 1 else 0
    {
      out, switches := [], 0;
      FragmentationIndependence(uuid, View(), chunks);
      ghost var goal := RunChunks(uuid, View(), chunks);
      ghost var rest := chunks;
      for i := 0 to |chunks|
        invariant View().Valid() && rest == chunks[i..]
        invariant goal.state == RunChunks(uuid, View(), rest).state
        invariant goal.out == out + RunChunks(uuid, View(), rest).out
        invariant switches + Switches(uuid, View(), rest) == Switches(uuid, old(View()), chunks)
      {
        var piece, direct := Feed(uuid, chunks[i]);
        rest := rest[1..];
        Associate(out, piece, RunChunks(uuid, View(), rest).out);
        out := out + piece;
        if direct {
          switches := switches + 1;
        }
      }
    }
  }
}
