# Blackwire data plane: a verified model

This project models the parts of Blackwire that move and steer bytes, and proves
what they keep over whole runs:

- XTLS Vision framing: the incremental unpadding parser, the framing writer that
  survives partial and refused writes, the two-sided switch to direct copy, and
  the functions that peel stream wrappers.
- Relay engine v2: the growable cursor buffer, the poll-driven direction with its
  three flush policies, the polling loop of both directions, and the paced copy
  loop.
- The io_uring splice relay, as a machine driven by kernel completions.
- The live router: its generation-stamped decision cache under hot reload, the
  CIDR search and the domain suffix walk.
- The balancer (round-robin tickets, adaptive scores with cooldowns and a switch
  margin) and the per-user connection limiter.
- The search for the server name in a TLS ClientHello.

## How it is built

Each operation has a specification on values (`Run`, `Drain`, `PollOnce`, `Next`,
`Decide`, `Walk`, ...).  Code that updates fields or loops is written again as a
class or a method with invariants and proved equal to that specification; the
lemmas are about the specification.  Sockets, the kernel, timers, the allocator
and the scheduler appear as sequences of answers or steps over which every theorem
quantifies.  `Fed`, `Call`, `Poll`, `Machine`, `Router` and `Limiter` are the states
of the parser, the writer, a relay direction, the splice relay, the router and the
limiter.

| file | contents |
|---|---|
| `Bytes.dfy` | bytes, options, small facts about sequences |
| `VisionCodec.dfy`, `VisionUnpadding.dfy` | the parser: meaning, fragmentation, frames; the parser object |
| `TlsRecords.dfy`, `VisionWriter.dfy` | the writer and the test that picks the `direct` command |
| `VisionSession.dfy`, `VisionContract.dfy`, `VisionClient.dfy` | writer and parser together: the server's round trip, the contract it needs, the client's |
| `VisionStreams.dfy`, `StreamWrappers.dfy`, `StreamReading.dfy` | the stream object; wrappers and their recovery; reading them to the end |
| `RelayBuffer.dfy`, `RelayDirection.dfy`, `RelayEngine.dfy`, `RelayPacing.dfy` | relay v2 and pacing |
| `UringRelay.dfy`, `UringDelivery.dfy` | the splice relay: safety, delivery |
| `RouteCache.dfy`, `RouteMatchers.dfy` | router cache; CIDR and suffix matching |
| `RoundRobin.dfy`, `AdaptiveBalancer.dfy`, `BalancerRuns.dfy`, `BalancerBounds.dfy` | balancer: tickets, adaptive picks, runs of picks, the jitter a margin absorbs |
| `UserLimiter.dfy`, `CapPerUser.dfy`, `CapChanges.dfy`, `UserLimits.dfy` | limiter: interleavings, the cap per user, changes of the cap, the object |
| `ClientHello.dfy` | server name extraction |

## Where the code does less than it says

For each of these the model follows the code, exhibits the failure and states
exactly when it does not occur.

- A `continue` frame carries at most 65535 bytes; a longer write is not read back
  (`ContinueFrameIff`, `NextContinueIff`).  `end` and `direct` frames are read back
  at any length (`LastFrameRead`).
- A client writer sends an `end` frame per write, but the parser goes raw after the
  first; only streams of at most one frame come back (`ClientRoundTripIff`).
- An unframed stream shorter than 21 bytes never leaves the parser (`UnframedIff`).
- While a refused write waits, a flush that finishes its frame makes the retry send
  the payload a second time, whatever the flush reports; one after which the frame
  still waits does no harm (`FlushThenRetry`).  The outcome does not tell: the
  transport's own flush can be pending with the frame gone (`PendingFlushCanFinish`).
  A handoff over a waiting `direct` frame sends another one, which
  the peer, raw by then, reads as five bytes of plaintext (`SecondDirectIsPlaintext`).
  The poll contract, that the write is retried before anything else finishes its
  frame, is exactly what the round trip needs (`ContractIff`).
- The router's documentation (`crates/blackwire-app/src/router.rs:23`) says that new
  connections see new rules immediately.  A lookup that loads the rules between the
  generation bump and the store caches an old decision under the new generation
  (`StaleStampIff`), and a lookup that begins after the reload can be answered from it
  (`StaleAfterReload`).  The promise holds for a run and its continuations if and only
  if no lookup of the run does that (`FreshIff`).
- The CIDR matcher says it answers for any of its ranges.  It looks at four entries
  only (`FoundIff`, `NestedRangesHide`), so it is the scan exactly when no address is
  hidden by four ranges (`SearchIsScanIff`), and it needs ranges whose host bits are
  zero (`SingleRangeIff`).
- The connection cap is per counter object, not per user, when an attempt has the
  counter of an entry that is then removed: for every cap a user can hold one permit
  more (`OrphanPassesCap`).  The cap per user holds for a run and its continuations if
  and only if the run has no such attempt (`UserCapIff`), and so does accounting per
  user (`AccountedIff`).
- The length of a server name is held against the bytes that have arrived and not
  against its extension, so a malformed one runs on into the bytes behind it; it stays
  inside exactly when it fits (`NameInsideIff`).
- The switch margin is there to prevent flapping
  (`crates/blackwire-app/src/balancer.rs:752`).  On scores that move by more than half
  of it a balancer can still switch twice; `BalancerAbsorbsIff` gives the jitter that it
  absorbs.
- Round-robin is fair over consecutive tickets unless they cross a wrap of the
  counter by a count that does not divide 2^64 (`FairIff`).

## Model

| member | source | states |
|---|---|---|
| `VisionCodec.RunSplits` | crates/blackwire-common/src/stream.rs:291-376 | from every reachable parser state, one call on two pieces joined hands back the same plaintext, final state and switch as two calls |
| `VisionCodec.FragmentationIndependence` | crates/blackwire-common/src/stream.rs:291-376 | any cutting of any input into calls gives the plaintext, state and switch of one call, and the switch is reported by exactly one of the calls or by none |
| `VisionCodec.FrameRead` | crates/blackwire-common/src/stream.rs:332-370 | any frame with content and padding under 65536 bytes and any command is read back exactly, whatever follows it |
| `VisionCodec.HeaderRead` | crates/blackwire-common/src/stream.rs:332-343 | a printed header is read as the lengths it was printed from, modulo 65536 |
| `VisionCodec.ContinueFrameIff` | crates/blackwire-common/src/stream.rs:736-756 | a `continue` frame comes back if and only if its content fits the 16-bit length |
| `VisionCodec.LastFrameRead` | crates/blackwire-common/src/stream.rs:354-370 | an `end` or `direct` frame of any length comes back followed by the raw rest, and switches exactly for `direct` |
| `VisionCodec.UnframedIff` | crates/blackwire-common/src/stream.rs:300-330 | an unframed peer's bytes come through unchanged if and only if there are none, or at least 21 that do not open with the UUID; they never switch the parser to direct copy |
| `VisionUnpadding.VisionUnpaddingState.Feed` | crates/blackwire-common/src/stream.rs:291-376 | the in-place parser, block by block and through its recursive start, computes the bytewise meaning and keeps a valid state |
| `VisionUnpadding.VisionUnpaddingState.FeedAll` | crates/blackwire-common/src/stream.rs:291-376 | any sequence of calls on the object amounts to one call on the joined bytes |
| `TlsRecords.IsCompleteTlsRecord` | crates/blackwire-common/src/stream.rs:762-779 | the position loop accepts exactly the buffers that split into whole records from the front |
| `TlsRecords.WholeIffRecords` | crates/blackwire-common/src/stream.rs:762-779 | those buffers are exactly the concatenations of application-data records with bodies under 65536 bytes |
| `VisionWriter.WriteFreshFrames` | crates/blackwire-common/src/stream.rs:667-707 | under every pattern of partial and refused writes, sent and unsent bytes together are one frame of the payload; the reported count is the payload's length, once all is out |
| `VisionWriter.RetryOnlyDrains` | crates/blackwire-common/src/stream.rs:652-666 | a retry with any bytes sends only what is left of the waiting frame and reports the length that was framed, not the length offered |
| `VisionWriter.ApplicationDataIff` | crates/blackwire-common/src/stream.rs:678-779 | a client sends with `direct` exactly the payloads that are nothing but whole application-data records, with at least a byte in them |
| `VisionWriter.WriteTells` | crates/blackwire-common/src/stream.rs:623-707 | a write reports pending exactly by a transport that is not ready or has no more answers, and an error exactly by one that is broken or takes nothing; every earlier answer was progress |
| `VisionWriter.WriteTakes` | crates/blackwire-common/src/stream.rs:623-707 | a write sends exactly as much as the transport is ready to take of what there is to send: the rest of the waiting frame, the new frame, or the bytes themselves |
| `VisionWriter.FlushTells` | crates/blackwire-common/src/stream.rs:709-721 | a flush reports the frame's outcome while the frame waits, and exactly the transport's own answer once it is gone |
| `VisionWriter.FlushThenRetry` | crates/blackwire-common/src/stream.rs:652-714 | for every answer of the transport, to the writes and to its own flush, a flush and then a retry send what was left of the frame, and again the payload, framed or raw, if and only if the frame no longer waits after the flush and the retry sends anything |
| `VisionWriter.PendingFlushCanFinish` | crates/blackwire-common/src/stream.rs:709-714 | a flush can come back pending with the whole frame gone |
| `VisionWriter.HandoffSends` | crates/blackwire-common/src/stream.rs:600-621 | whenever the stream is the server's side, has received the client's `direct` and is not in direct copy, with a frame waiting or not: the handoff sends the rest of a waiting frame and one empty `direct` frame, or a prefix of that; it gets through if and only if all of it is gone and the transport has flushed it, and opens direct copy exactly then or when the finished frame was a `direct` one; a frame it cannot finish keeps waiting |
| `VisionWriter.NoHandoffDue` | crates/blackwire-common/src/stream.rs:479-603 | a stream that is not the server's side, has not received the client's `direct`, or is in direct copy already sends nothing and changes nothing in a handoff |
| `VisionWriter.HandoffWaits` | crates/blackwire-common/src/stream.rs:600-621 | a pause of the transport anywhere in the handoff makes no difference to it, and a failure ends it at once |
| `VisionSession.EmissionRead` | crates/blackwire-common/src/stream.rs:736-756 | `continue` frames, then perhaps a `direct` frame, then raw bytes are unpadded to exactly their payloads, and the switch is reported if and only if `direct` was sent |
| `VisionSession.NextContinueIff` | crates/blackwire-common/src/stream.rs:749-754 | after any frames that fit, one more is read back if and only if it fits |
| `VisionSession.ServerRoundTrip` | crates/blackwire-common/src/stream.rs:600-756 | over every run within the poll contract of server writes, flushes, client `direct` commands and handoffs, every refusal below and every cutting of the wire: the peer sees a prefix of the payload, and exactly what was reported written once no frame waits; one of its calls reports the switch if the writer switched, none otherwise |
| `VisionSession.HandoffSwitches` | crates/blackwire-common/src/stream.rs:600-621 | in every legal run in which the client's `direct` has arrived, a handoff that returns leaves the writer in direct copy with nothing waiting, and the peer with all that was reported and exactly one switch; before that `direct` it does nothing |
| `VisionContract.ContractIff` | crates/blackwire-common/src/stream.rs:600-756 | the peer always reads exactly what was reported, however a run goes on within the poll contract, if and only if the run keeps the contract: every wrong retry, finishing flush or finishing handoff can be continued to a wrong reading |
| `VisionContract.SecondDirectIsPlaintext` | crates/blackwire-common/src/stream.rs:600-621 | what a handoff sends after a waiting `direct` frame is plaintext to the peer, five bytes if it gets through |
| `VisionContract.RetrySendsAgain` | crates/blackwire-common/src/stream.rs:652-707 | a frame that went out without its write being reported is sent again by the retry, and the peer reads the payload twice |
| `VisionClient.ClientRoundTripIff` | crates/blackwire-common/src/stream.rs:678-707 | however the transport takes and refuses the bytes, a client writer's payloads come back if and only if there is at most one, or the first is whole application-data records |
| `VisionStreams.VisionStream.PollRead` | crates/blackwire-common/src/stream.rs:531-594 | for all buffer sizes and transport answers: plaintext handed out plus buffered is the unpadding of the bytes taken; with nothing buffered the transport is read until its bytes hold plaintext, exactly the bytes that the used answers give are taken, and the caller gets as much as fits of all the plaintext they hold; pending exactly if the last read was refused or answers ran out, an error exactly if it failed, end of stream exactly if it gave nothing |
| `VisionStreams.VisionStream.PollDrain` | crates/blackwire-common/src/stream.rs:623-648 | the draining loop computes the specified drain: bytes on the wire, position, switch, outcome and answers used |
| `VisionStreams.VisionStream.PollWrite` | crates/blackwire-common/src/stream.rs:652-707 | the in-place writer computes the specified write, about which exactly-once framing is proved |
| `VisionStreams.VisionStream.PollFlush` | crates/blackwire-common/src/stream.rs:709-721 | the in-place flush computes the specified one: the drain, and then the transport's own answer |
| `VisionStreams.VisionStream.DirectCopyHoldsNothing` | crates/blackwire-common/src/stream.rs:460-465 | once direct copy is ready, callers have the plaintext of all bytes taken, nothing is unsent, all further bytes pass through raw, and so does every write |
| `VisionStreams.VisionStream.CompleteServerDirectHandoff` | crates/blackwire-common/src/stream.rs:600-621 | the in-place handoff computes the specified one, about which the switch of both sides is proved |
| `StreamWrappers.ReadTakesContent` | crates/blackwire-common/src/stream.rs:1115-1159 | at every nesting of wrappers and every read position, a read takes its bytes off the front of the stream's content and leaves the rest |
| `StreamReading.ReadsTakeContent` | crates/blackwire-common/src/stream.rs:1115-1159 | reads in a row hand out the content from the front, none of it twice or skipped, wherever they stop |
| `StreamReading.ReadsToTheEnd` | crates/blackwire-common/src/stream.rs:1115-1159 | at every nesting, as many reads as there are bytes to pass, each with room and a transport that gives something, hand out the whole content |
| `StreamWrappers.TcpRecovery` | crates/blackwire-common/src/stream.rs:905-960 | raw TCP is recovered exactly when it lies under the prepending adapters, with prefix and remaining bytes equal to the content; otherwise the stream comes back with the same content |
| `StreamWrappers.PlainTcpRecovery` | crates/blackwire-common/src/stream.rs:883-889 | recovery without a prefix loses nothing: the socket's bytes are the content, or the stream comes back with it |
| `StreamWrappers.DirectRecovery` | crates/blackwire-common/src/stream.rs:968-997 | the direct-copy layer is removed exactly when it is there and ready, in front of its layer come the held and decoded bytes; the readiness test agrees exactly when the adapters are exhausted |
| `StreamWrappers.DirectTcpRecovery` | crates/blackwire-common/src/stream.rs:1001-1016 | both recoveries in a row keep the content on every path |
| `StreamWrappers.VisionRecovery` | crates/blackwire-common/src/stream.rs:1030-1057 | a Vision layer is recovered exactly when it is there, with held plaintext in front of its own and not parsed a second time, and the content unchanged |
| `StreamWrappers.LoweringKeepsContent` | crates/blackwire-common/src/stream.rs:517-528 | a Vision layer is taken off if and only if both of its directions are in direct copy and hold nothing; the content is kept and its writer passed everything as it is; any other layer comes back unchanged |
| `RelayBuffer.RingRefinesFifo` | crates/blackwire-common/src/relay.rs:186-270 | every run of push, consume and grow gives the replies, contents and capacity of a bounded FIFO |
| `RelayBuffer.PushAppends` | crates/blackwire-common/src/relay.rs:219-230 | a push appends what fits, keeps capacity and maximum, and never outgrows the allocation |
| `RelayBuffer.GrowthBound` | crates/blackwire-common/src/relay.rs:248-256 | a buffer grows at most ceil(log2(max / initial)) times in any run, whatever the allocator gives |
| `RelayBuffer.RelayRingBuffer.PushSlice` | crates/blackwire-common/src/relay.rs:219-230 | contents become the old contents plus the pushed prefix, across compaction |
| `RelayBuffer.RelayRingBuffer.Consume` | crates/blackwire-common/src/relay.rs:238-245 | contents lose exactly the consumed prefix |
| `RelayBuffer.RelayRingBuffer.Grow` | crates/blackwire-common/src/relay.rs:248-256 | grows exactly below the maximum and keeps the contents |
| `RelayDirection.DirectionSafety` | crates/blackwire-common/src/relay.rs:399-545 | over every run, policy and answer: written then pending equals read, the counters equal the bytes written and the reads, writes and flushes made, the buffer is full only at its largest size, no read follows EOF, shutdown comes only after EOF with everything written and flushed, and a finished direction has delivered and shut down everything |
| `RelayDirection.ReadFits` | crates/blackwire-common/src/relay.rs:471-495 | what is read always fits the buffer, and scratch never shrinks nor passes the capacity |
| `RelayDirection.GrowsIff` | crates/blackwire-common/src/relay.rs:471-495 | a read makes the buffer grow if and only if it fills it below its largest size: at least to twice the size or the largest, and the scratch buffer to twice the size or that of the buffer |
| `RelayDirection.PollWakes` | crates/blackwire-common/src/relay.rs:412-544 | a poll without movement changes nothing, and in it the writer refused if bytes are pending, the reader if there is room and no end, the last flush or shutdown if only those are left; reported movement is real |
| `RelayDirection.PollFlushes` | crates/blackwire-common/src/relay.rs:449-518 | under Immediate and Adaptive, after every poll that does not fail everything written is flushed, unless bytes still wait to be written or the writer refused the flush in that poll: a pause of the source leaves nothing unflushed |
| `RelayDirection.ImmediateFlushesFirst` | crates/blackwire-common/src/relay.rs:449-465 | in every run of Immediate, no read comes while all that was received is written but not flushed, unless the flush was refused just before |
| `RelayDirection.CoalescingIsSound` | crates/blackwire-common/src/relay.rs:435-532 | with an always-ready flush, Adaptive and Immediate have the same buffers, counters, errors and moved bytes at every point of every run, and Adaptive never flushed more |
| `RelayEngine.RelayDirectionState.PollDirection` | crates/blackwire-common/src/relay.rs:399-545 | the in-place poll, with its early returns, computes the specified poll: state, calls made, error and movement |
| `RelayEngine.PollRelay` | crates/blackwire-common/src/relay.rs:351-396 | both directions are polled once a round; it finishes only with everything of both directions delivered, fails only if a direction failed, waits only if all that each unfinished direction waits for refused in that round, goes round again only after an advance, and under Immediate and Adaptive stops only with what was written in full flushed, or the flush refused in that round |
| `RelayPacing.PacingBound` | crates/blackwire-common/src/relay.rs:693-706 | after every write, for all read sizes and schedules, the total is at most prefix, burst, one buffer and the rate times elapsed plus one nanosecond, until a 64-bit ceiling is met |
| `RelayPacing.SleepsNoLonger` | crates/blackwire-common/src/relay.rs:693-706 | after a write within the free prefix and burst the loop goes on at once; after any other it sleeps, if at all, no longer than until the rate, counted from the first such write, allows what was written |
| `RelayPacing.CopyPaced` | crates/blackwire-common/src/relay.rs:667-706 | the loop passes through exactly the specified totals, times and pacing start, with or without a limit |
| `UringRelay.UringSafety` | crates/blackwire-common/src/splice.rs:343-516 | over every interleaving and result: each direction's source is delivered, in pipe and unread bytes in order, at most one splice is outstanding, half-close only with an empty pipe, at most four completions wait, delivered bytes are a prefix of the source, and a finished direction reports what it delivered |
| `UringRelay.NeverStuck` | crates/blackwire-common/src/splice.rs:343-516 | while the relay runs nothing stays queued, some direction has not ended, and each that has not has its splice in the kernel or its completion waiting |
| `UringRelay.FourWait` | crates/blackwire-common/src/splice.rs:139-150 | no more than four completions ever wait |
| `UringRelay.TurnSafe` | crates/blackwire-common/src/splice.rs:367-513 | a turn of the event loop keeps all of that and never queues more than four submissions |
| `UringRelay.UringBidir.Collect` | crates/blackwire-common/src/splice.rs:367-385 | the fixed 16-slot copy takes every waiting completion, in order |
| `UringRelay.UringBidir.TakeTurn` | crates/blackwire-common/src/splice.rs:367-513 | the loop over completions computes the specified turn and keeps safety, with room in the ring throughout |
| `UringDelivery.StatusIff` | crates/blackwire-common/src/splice.rs:343-516 | over every run: the relay reports an error if and only if a turn found a splice in that had failed, and times out if and only if the deadline passed after a direction had ended |
| `UringDelivery.EndsIff` | crates/blackwire-common/src/splice.rs:406-489 | a direction ends exactly in a turn which finds that its source has no more or its destination takes no more, and its destination is half-closed exactly in the first case |
| `UringDelivery.GoesOn` | crates/blackwire-common/src/splice.rs:406-489 | any other completion leads to a splice out of all that the pipe holds, behind a poll exactly after want of room, or to a splice in if the pipe is empty |
| `UringDelivery.DeliversIff` | crates/blackwire-common/src/splice.rs:343-516 | at any point of any run, the relay can still finish with everything of both sources delivered if and only if it has not failed or timed out and neither direction has ended, or been told to, too early |
| `UringDelivery.WorkDelivers` | crates/blackwire-common/src/splice.rs:343-516 | over a kernel that works, in every interleaving and for all amounts moved: the relay does not fail, the steps it takes are bounded but for reports of want of room, another one is always possible, and it finishes with everything delivered |
| `RouteCache.PickUncached` | crates/blackwire-app/src/router.rs:213-231 | the decision is that of the first matching rule, and the default exactly when none matches |
| `RouteCache.AtMostOneReloadBehind` | crates/blackwire-app/src/router.rs:148-209 | in every interleaving of lookups and a reload's steps, a decision is that of one stored rule set, at most one reload older than the one live when the lookup began |
| `RouteCache.FreshWithoutRace` | crates/blackwire-app/src/router.rs:148-209 | if no lookup loads rules inside the reload whose generation it carries, every decision is that of one stored rule set, no older than the rules live when its lookup began |
| `RouteCache.FreshIff` | crates/blackwire-app/src/router.rs:148-209 | no lookup of a run, however it goes on without another race, is answered from rules older than those live when it began, if and only if no lookup of the run loads its rules inside the reload whose generation it carries |
| `RouteCache.StaleAnswerIff` | crates/blackwire-app/src/router.rs:182-209 | a lookup is answered from older rules exactly when it probes an entry behind its own stamp and began in the generation of that stamp; a decision it computes itself is never old |
| `RouteCache.ServeRace` | crates/blackwire-app/src/router.rs:160-162 | from every racy load of every run, and for any rules stored next, the run can go on so that a lookup which begins afterwards is answered from the old ones |
| `RouteCache.AtomicSwapIsFresh` | crates/blackwire-app/src/router.rs:148-209 | with a reload in one step, every decision is that of rules live between the lookup's begin and its end |
| `RouteCache.StaleStampIff` | crates/blackwire-app/src/router.rs:160-162 | a decision falls behind its own generation stamp if and only if the rules were loaded between bump and store |
| `RouteCache.StaleAfterReload` | crates/blackwire-app/src/router.rs:160-162 | for any two rule sets that disagree, some run answers from the old ones a lookup that began after the reload |
| `RouteCache.ReloadIsSeen` | crates/blackwire-app/src/router.rs:148-209 | at any point of any run between reloads: after a reload that nobody interrupts, a lookup that nobody interrupts is decided by the new rules, whatever was cached or under way |
| `RouteCache.ReloadClears` | crates/blackwire-app/src/router.rs:148-170 | a reload leaves exactly the entries that its clearing missed, and a reload in one step none |
| `RouteCache.LiveRouter.Swap` | crates/blackwire-app/src/router.rs:148-170 | a reload leaves the new rules, an empty cache and the next generation |
| `RouteCache.LiveRouter.PickRouteMatch` | crates/blackwire-app/src/router.rs:182-209 | for one caller at a time, cached and uncached decisions agree after any lookups, reloads and expiries, and no other entry changes |
| `RouteMatchers.PartitionPoint` | crates/blackwire-app/src/router.rs:622-622 | the binary search finds the point that separates the ranges at or below the probe from the rest |
| `RouteMatchers.Matches` | crates/blackwire-app/src/router.rs:612-628 | the answer is that of the four ranges below the search point, and a positive one is always backed by a range that contains the address |
| `RouteMatchers.ContainsIff` | crates/blackwire-app/src/router.rs:587-627 | a range contains exactly the addresses of its family whose first `prefix` bits are its own, bit by bit, whatever its host bits |
| `RouteMatchers.WholeOrSingle` | crates/blackwire-app/src/router.rs:615-627 | a prefix of no bits takes in the whole family, one of 32 or 128 bits exactly its own address |
| `RouteMatchers.CanonicalIff` | crates/blackwire-app/src/router.rs:597-607 | a range is canonical if and only if all bits behind its prefix are zero |
| `RouteMatchers.FoundIff` | crates/blackwire-app/src/router.rs:622-627 | for canonical ranges, a covered address is found if and only if fewer than four ranges sort between the last covering one and the probe |
| `RouteMatchers.SearchIsScan` | crates/blackwire-app/src/router.rs:609-628 | for canonical ranges nested that shallowly the search is the linear scan, for every address |
| `RouteMatchers.SearchIsScanIff` | crates/blackwire-app/src/router.rs:609-628 | for canonical ranges the search is the scan for all addresses if and only if no address is covered by a range, by none later, and has the fourth range after that one at or below it |
| `RouteMatchers.DisjointIsScan` | crates/blackwire-app/src/router.rs:609-628 | in particular for pairwise disjoint canonical ranges |
| `RouteMatchers.NestedRangesHide` | crates/blackwire-app/src/router.rs:623-627 | four addresses listed inside any canonical range of six or more hide an address that the scan finds |
| `RouteMatchers.SingleRangeIff` | crates/blackwire-app/src/router.rs:597-628 | one range is searched correctly for all addresses if and only if its host bits are zero |
| `RouteMatchers.SuffixMatches` | crates/blackwire-app/src/router.rs:559-571 | the walk matches if and only if some suffix that begins at a label is listed |
| `RoundRobin.NthAliveIndex` | crates/blackwire-app/src/balancer.rs:217-229 | finds the alive member with exactly `n` alive members before it, and nothing exactly when there are too few |
| `RoundRobin.Tickets.Pick` | crates/blackwire-app/src/balancer.rs:172-180 | a ticket picks the alive member whose rank is its slot, never a dead one, and uses one ticket of the wrapping counter |
| `RoundRobin.FairIff` | crates/blackwire-app/src/balancer.rs:172-180 | `n` consecutive tickets name each of `n` slots exactly once if and only if they do not cross a wrap or `n` divides the counter's size |
| `RoundRobin.EachMemberOnce` | crates/blackwire-app/src/balancer.rs:206-229 | with a fixed alive set each alive member is then the pick of exactly one ticket, and no ticket picks two |
| `AdaptiveBalancer.ObservationsStayInRange` | crates/blackwire-app/src/balancer.rs:392-428 | over every run of connects: successes never pass attempts, even saturated; the average stays within the samples' range and exists exactly after a success; a cooldown needs a failure |
| `AdaptiveBalancer.ScoreInUnit` | crates/blackwire-app/src/balancer.rs:374-390 | scores lie between zero and one for any health and history |
| `AdaptiveBalancer.ScoreIs` | crates/blackwire-app/src/balancer.rs:374-390 | the weights of success rate, latency and stability, where stability is the share of the failure budget that connects and probes together have left, with their 32-bit sum |
| `AdaptiveBalancer.StabilityGoneIff` | crates/blackwire-app/src/balancer.rs:383-389 | nothing is left for stability if and only if the failures have reached the threshold and there is at least one |
| `AdaptiveBalancer.ProbeFailureCosts` | crates/blackwire-app/src/balancer.rs:383-389 | one more failed probe costs a fifth of its share of the budget, and nothing once the budget is used up |
| `AdaptiveBalancer.ConnectFailureCosts` | crates/blackwire-app/src/balancer.rs:374-428 | one more failed connect costs the same and half of what the success rate falls by, and leaves the latency alone |
| `AdaptiveBalancer.UntriedScore` | crates/blackwire-app/src/balancer.rs:374-390 | a member that was never tried scores by the latency of its probes against five seconds, and 0.7 without any |
| `AdaptiveBalancer.AverageConverges` | crates/blackwire-app/src/balancer.rs:407-416 | connects that take the same time bring the average closer by the share alpha each, with alpha held between one hundredth and one |
| `AdaptiveBalancer.FailuresCool` | crates/blackwire-app/src/balancer.rs:417-428 | failures in a row put a member into a cooldown from the last one on if and only if, with those before them, they reach the threshold |
| `AdaptiveBalancer.CoolsAfterFailures` | crates/blackwire-app/src/balancer.rs:417-428 | after as many failures in a row as the threshold a member is available if and only if it is alive and the cooldown since the last one is over |
| `AdaptiveBalancer.ProbesCool` | crates/blackwire-app/src/balancer.rs:351-372 | a check that finds as many failed probes as the threshold makes a member unavailable for the cooldown, and does not extend one that runs |
| `AdaptiveBalancer.ScoreReaches` | crates/blackwire-app/src/balancer.rs:374-428 | from any history without failures, and for every smoothing, successful connects bring a member to any score from 0.7 up to one, which itself is excluded |
| `AdaptiveBalancer.Runtime.ApplyProbeCooldowns` | crates/blackwire-app/src/balancer.rs:351-372 | each member enters a cooldown exactly as its probes say, and exactly the members that entered one are reported |
| `AdaptiveBalancer.Runtime.FindBest` | crates/blackwire-app/src/balancer.rs:261-276 | the first member of maximal score among those alive and not cooling, or none exactly when there is none |
| `AdaptiveBalancer.Runtime.PickAdaptive` | crates/blackwire-app/src/balancer.rs:256-349 | the pick is alive and not cooling whenever such a member exists, and is the current member unless the best beats it by more than the margin; with none available it is the first member |
| `AdaptiveBalancer.Runtime.ObserveConnect` | crates/blackwire-app/src/balancer.rs:392-428 | an observed connect updates its own member and no other, and an unknown index none |
| `AdaptiveBalancer.SelectsOne` | crates/blackwire-app/src/balancer.rs:278-301 | the choice among the members is determined |
| `BalancerRuns.PickRun` | crates/blackwire-app/src/balancer.rs:256-428 | any picks of one balancer, with connects observed and probes failing in between, are a run of choices, each made from the pick before it, on exactly the availability and scores that these leave, all scores between zero and one |
| `BalancerRuns.RunFromNew` | crates/blackwire-app/src/balancer.rs:256-428 | so are the picks of a new balancer, from its first one on |
| `BalancerRuns.PickedOnce` | crates/blackwire-app/src/balancer.rs:256-349 | a run has only one outcome |
| `BalancerRuns.AtMostOneSwitch` | crates/blackwire-app/src/balancer.rs:278-301 | while availability stays, with any member available or none, a run whose jitter the margin absorbs switches at most once |
| `BalancerBounds.AbsorbsIff` | crates/blackwire-app/src/balancer.rs:278-301 | for every margin and every start, over all sequences of scores between zero and one: all such runs switch at most once if and only if the margin is at least one or the jitter is within half the margin (current member gone), half the margin or twice the margin less one (available), two thirds of the margin or twice the margin less one (none yet) |
| `BalancerBounds.MakeRounds` | crates/blackwire-app/src/balancer.rs:256-428 | any sequence of scores from 0.7 up to one of three members, the first of them available or not from round to round, is what some new balancer sees |
| `BalancerBounds.BalancerAbsorbsIff` | crates/blackwire-app/src/balancer.rs:256-428 | over the lives of balancers from construction, any stretch of picks on steady availability switches at most once if the margin absorbs its jitter or every pick cools every member; and only if, for every smoothing and for margins up to 0.2 (available current member), 0.225 (none yet) or below 0.3 (gone) |
| `BalancerBounds.DefaultsFlap` | crates/blackwire-config/src/schema/routing.rs:170-181 | with the default margin and threshold, a balancer can switch twice on any jitter above half the margin, or two thirds of it from the first pick on |
| `BalancerRuns.WideMarginKeeps` | crates/blackwire-app/src/balancer.rs:278-301 | with a margin of one or more a member is never left while it is available |
| `UserLimiter.CounterSafety` | crates/blackwire-app/src/user_limits.rs:56-108 | over all interleavings and cap changes, each counter equals its live permits plus attempts awaiting rollback, never underflows, and holds no more permits than the largest finite cap |
| `UserLimiter.AccountedIff` | crates/blackwire-app/src/user_limits.rs:66-71 | throughout a run every counted thread is on its user's current counter if and only if no attempt counted on a counter its user's entry no longer names |
| `UserLimiter.UserCap` | crates/blackwire-app/src/user_limits.rs:56-82 | without such attempts the cap holds per user at every point |
| `CapPerUser.UserCapIff` | crates/blackwire-app/src/user_limits.rs:56-108 | no user of a run, however it goes on without another such attempt, holds more permits than the largest finite cap, if and only if no attempt of the run counts itself on a counter its user's entry no longer names |
| `CapPerUser.OrphanIsGranted` | crates/blackwire-app/src/user_limits.rs:66-77 | the first such attempt of any run is granted, whatever the cap |
| `CapPerUser.OrphanPassesCap` | crates/blackwire-app/src/user_limits.rs:56-108 | for every finite cap and user there is a run, the cap unchanged, in which the user holds one permit more |
| `UserLimiter.AtomicAcquireSafety` | crates/blackwire-app/src/user_limits.rs:47-108 | with acquire as one step the cap holds per user, and a user has an entry exactly while it has a live permit or the drop of its last one is cleaning up |
| `CapChanges.GrantedIff` | crates/blackwire-app/src/user_limits.rs:47-82 | in every interleaving and across changes of the cap, an attempt is granted if and only if the permits and pending rollbacks on its counter are fewer than the cap that was in force when it began |
| `CapChanges.GrantedAtOnceIff` | crates/blackwire-app/src/user_limits.rs:47-82 | with acquire as one step: granted if and only if the user holds fewer permits than the cap now in force, and then holds one more |
| `UserLimits.UninterruptedIsOneStep` | crates/blackwire-app/src/user_limits.rs:56-82 | an attempt whose steps nobody interrupts has the effect of the single step, refused or granted |
| `UserLimits.UserConnectionLimiter.TryAcquire` | crates/blackwire-app/src/user_limits.rs:56-82 | the in-place attempt refuses without a user, grants uncounted without a limit, and otherwise is the single step |
| `UserLimits.UserConnectionLimiter.Drop` | crates/blackwire-app/src/user_limits.rs:93-108 | dropping undoes one count and removes the entry exactly when it is still the permit's and counts nothing |
| `UserLimits.UserConnectionLimiter.SetMaxConnections` | crates/blackwire-app/src/user_limits.rs:47-50 | the cap changes in place, at least one, and permits and counters stay |
| `ClientHello.TlsSni` | crates/blackwire-app/src/sniff.rs:154-245 | for every byte string the search stays in bounds and ends, computes the specified walk, and returns only valid text that occurs in the input |
| `ClientHello.FindsServerName` | crates/blackwire-app/src/sniff.rs:154-245 | for every ClientHello (section 4.1.2 of RFC 8446) whose first usable server_name extension (section 3 of RFC 6066) starts with a host name, cut anywhere or followed by anything: exactly that name once its extension has arrived, and nothing before |
| `ClientHello.FindsNothing` | crates/blackwire-app/src/sniff.rs:154-245 | a ClientHello without one yields nothing, whatever follows it |
| `ClientHello.NameInsideIff` | crates/blackwire-app/src/sniff.rs:224-240 | for any length field: the returned bytes lie inside their extension if and only if the length fits it, and otherwise run on into the bytes behind it |

## Left out

- Tokio, sockets, wakers, eventfd, `libc` and io_uring calls, DNS and clocks: they appear as answers, steps and times.
- Cancelling the handoff future halfway. A flush of the transport itself moves no bytes of the model; its answer is modelled.
- `copy_bidirectional_pooled`, idle timers, and the epoll splice path with its drain timeout: easier than the modelled relays or cut off by wall-clock time.
- The relay recorder: it is called with the lengths that the byte counters add up.
- `AEAD`, connecting, zero-copy helpers, metrics, logging, statistics, the UI, stores and the command line.
- Keyword, regular-expression, GeoIP and GeoSite matchers, lower-casing, CIDR parsing and sorting: a rule's match is an arbitrary predicate, sorted ranges are given.
- The route cache key's hash: contexts are the keys, so the hash counts as injective; memory orderings are taken as sequentially consistent; the generation does not wrap.
- Random and latency-based balancing strategies: one draw or one minimum each.
- Rounding of `f64`: scores and averages are real numbers.
- HTTP host sniffing and destination override: easy next to the ClientHello walk.
- Vision's `i32` counters are unbounded integers; every valid parser state, and so every reachable one, has them at or below 65535.
- PacingBound: stops where the 64-bit byte counter or delay saturates, since the source then stops accounting for further bytes.
- The splice relay's drain deadline may expire at any time after one direction has ended; a failed poll reports before the splice it cancels.
- BalancerAbsorbsIff: for wider margins only the first half is about balancers. That jitter beyond the bound can switch twice is then shown for sequences of scores (AbsorbsIff) and not for a balancer: scores below 0.7 need failures, and how close to zero they come depends on 64-bit counters.
