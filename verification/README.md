# A verified model of quicz's byte plumbing

quicz is a QUIC library in Zig with C and Go companions. This project models the parts of it that
move bytes and packet numbers between parties that do not trust each other's timing, and proves
what those parts promise over whole runs.

**Two TLS endpoints and the host between them.** `Streams`, `Lanes`, `Callbacks`, `Endpoints` and
`PairWorld` specify an endpoint with four encryption levels (inbound bytes that TLS borrows and
gives back, outbound bytes, a history) and the world of two of them. OpenSSL is any caller at all:
any callbacks, any arguments, any order, any return code. `PairRun` adds the pump and the
80-iteration handshake loop and shows both to be world runs. `Deeds` and `PairDeeds` say the same
endpoints from the outside: each is a fold over the callbacks its TLS stack made and the bytes that
arrived, and the loop is determined by the drives and their return codes. `Buffers`, `LaneTables`, `TlsEndpoints`
and `Transcripts` are the program's tables and loops, changed in place, each method proved equal to
its specification, up to the file-level store whose accessors show the last run. This is the
plumbing for section 4.1.3 of RFC 9001.

**One TLS backend behind packet spaces.** `Adapter` is the specification with its size_t counters
modulo 2^64; `AdapterDeeds` tells its state and its answers from the outside; `AdapterClaims` and `AdapterDelivery` are what it promises over runs; `AdapterWrap`
exhibits a run in which confirmation lies; `TlsBackends` is the in-place program.

**Two small step systems.** `Dropper` is the compare-and-swap packet dropper under any number of
concurrent readers. `EventLoop` is controlled loss and the virtual clock.

**The receive side of the library.** `Reassembly` and `StreamReceive` are CRYPTO and STREAM
reassembly, final sizes and flow-control charging. `PacketRanges` is the bounded history of received
packet numbers and the ACK frame made from it. `PacketNumbers` is truncation and reconstruction of
packet numbers (sections A.2 and A.3 of RFC 9000), composed with that history and that ACK frame.

How to read it. History variables (`accepted`, `released`, `discarded`, `sent`, `pulled`, `log`)
record what happened and decide nothing; `EndpointIsTold` and `BackendIsTold` say that they do. A specification is a step function on values; a class has
a `View()` onto it. The `Disciplined` assumption of `PairWorld` is the only one made about OpenSSL,
and only by the claims that say so; it asks less than never releasing without a loan and returning
with no loan out.

Where the code says something else than its comments or its name:

- `ReceivedPacketRanges.contains` is documented to report whether a number remains in the history,
  but ranges descend and it stops at the first range the number does not exceed, so it sees the
  newest range only. `ContainsMissesOlderRange` is a number it denies; `ContainsCorrectIff` is when
  it is right. Nothing else in the library calls it.
- `handshake_confirmed` compares two wrapping counters. It means what it says exactly up to 2^64
  received bytes; `ConfirmedExactly` has the condition without that bound.
- The event loop's comment says the bounded step avoids an i64 overflow; the bounded addition itself
  overflows within one tick of the top, which `ReachesDeadline` states.
- The pair program checks pending room before history room; the first check never decides.
- A reset's check of the final size against the bytes received never fires after the check against
  the highest position.

## Model

| member | source | states |
|---|---|---|
| PairWorld.StreamIntegrity | examples/tls_openssl_pair_transcript.c:72-132 | in every state of every interleaving of callbacks, copies and provides with a faithful host: arrived ++ in flight ++ pending is the sender's history; released ++ buffered ++ in flight ++ pending is the history exactly when nothing was discarded; under lease discipline nothing is, and what the peer consumed is a prefix of the history |
| PairWorld.DisciplineKeepsLossless | examples/tls_openssl_pair_transcript.c:92-132 | a run in which no loan is given back that was not taken, and no loan is out when bytes arrive, never discards a byte |
| PairWorld.RunKeepsValid | examples/tls_openssl_pair_transcript.c:355-368 | the link invariant (receiver's bytes and the bytes in flight are what has left the sender, counted or in order) survives every run |
| PairWorld.EndsAlwaysValid | examples/tls_openssl_pair_transcript.c:72-177 | with no assumption on anyone: loans cover buffered bytes only, buffers stay within capacity, pending output is the tail of the history, running totals are history lengths |
| PairWorld.ProvidesNeverRefused | examples/tls_openssl_pair_transcript.c:745-791 | a host that provides no more than it copied out, in whatever order and with whatever contents, is never refused at a real level |
| PairWorld.LeaseStable | examples/tls_openssl_pair_transcript.c:92-132 | from a borrow until its release the borrowed prefix, its length and the released bytes are unchanged by any run |
| PairWorld.FlightFits | examples/tls_openssl_pair_transcript.c:355-368 | receiver's buffered bytes plus bytes in flight plus sender's pending bytes fit one buffer |
| PairRun.RelayRefinesPump | examples/tls_openssl_pair_transcript.c:355-368 | copying each level out of one endpoint and providing it to the other reaches exactly the pair state of one pump, and the pump succeeds |
| PairRun.LoopReaches | examples/tls_openssl_pair_transcript.c:508-521 | the bounded handshake loop is a run of the two-endpoint world in which the TLS stacks act exactly as driven, client then server, once each per completed iteration; no pump fails, and the loop stops only when both sides are done or 80 iterations are spent |
| PairRun.LoopStops | examples/tls_openssl_pair_transcript.c:508-521 | the iteration count is the least number after which each side has had a drive return 1, or 80; a side is done exactly when one of its drives returned 1 |
| PairDeeds.LoopIsTold | examples/tls_openssl_pair_transcript.c:508-521 | at the end of the loop each endpoint is the fold of the callbacks its own stack made in exactly those iterations |
| PairDeeds.EndpointIsTold | examples/tls_openssl_pair_transcript.c:72-177 | in every state of every run: current levels, secrets, history and peer parameters are what the callbacks told last, lanes are what arrivals, borrows and releases at their level make them, done and the last error follow the return codes |
| PairDeeds.RepliesAreTold | examples/tls_openssl_pair_transcript.c:72-177 | what each callback is answered in every state of every run, the lent bytes included, from the callbacks and arrivals before it |
| PairRun.TranscriptIntegrity | examples/tls_openssl_pair_transcript.c:481-531 | at the end of a one-shot run, for any behaviour of the TLS stack: it stopped where the return codes say, integrity holds at every level in both directions, byte counts are exact |
| PairRun.PumpReaches | examples/tls_openssl_pair_transcript.c:355-368 | a pump between valid endpoints with nothing in flight never fails and is a faithful, and if asked disciplined, run |
| Endpoints.SendAcceptedIffRoom | examples/tls_openssl_pair_transcript.c:72-90 | a send is accepted exactly when the level's history has room, although the code looks at the pending buffer first |
| Endpoints.HandleKeepsValid | examples/tls_openssl_pair_transcript.c:72-177 | any callback with any arguments keeps the endpoint valid, forges no arrival and recalls nothing that has left |
| Endpoints.CopyPending | examples/tls_openssl_pair_transcript.c:767-791 | a granted copy hands over exactly the pending bytes of its level; a refused one takes nothing |
| Endpoints.ProvideCrypto | examples/tls_openssl_pair_transcript.c:745-765 | accepted exactly at a real level with room; a refusal changes nothing |
| Lanes.LossAccounting | examples/tls_openssl_pair_transcript.c:114-132 | accepted bytes are the released, discarded and buffered ones; released ++ buffered is the accepted stream exactly when nothing was discarded |
| Lanes.ReleaseKeepsValid | examples/tls_openssl_pair_transcript.c:114-132 | after a release the arrivals are still the released and buffered bytes in order, interleaved with lost bytes that are exactly the discarded ones |
| Lanes.AppendKeepsValid | examples/tls_openssl_pair_transcript.c:745-765 | an append keeps the arrivals split that way, within capacity |
| Lanes.Release | examples/tls_openssl_pair_transcript.c:114-132 | a release is accepted exactly when it is within the loan, consumes its count and discards exactly what was buffered beyond the loan |
| Lanes.Borrow | examples/tls_openssl_pair_transcript.c:92-112 | lends everything buffered exactly when no loan is out and something is buffered; otherwise nothing changes |
| Streams.NothingLost | examples/tls_openssl_pair_transcript.c:114-132 | an interleaving with nothing lost is the kept stream itself |
| LaneTables.LaneTable.Extend | examples/tls_openssl_pair_transcript.c:745-765 | the in-place append is the lane specification's append; other levels keep their bytes |
| LaneTables.LaneTable.Lend | examples/tls_openssl_pair_transcript.c:92-112 | the in-place borrow is the specification's borrow and hands out the front of the row |
| LaneTables.LaneTable.TakeBack | examples/tls_openssl_pair_transcript.c:114-132 | the in-place release with its memmove is the specification's release; other levels keep their bytes |
| LaneTables.LaneTable.Compact | examples/tls_openssl_pair_transcript.c:122-129 | what is left of a row is the loan beyond the consumed prefix |
| Buffers.MoveDown | examples/tls_openssl_pair_transcript.c:122-129 | an overlapping move within a row leaves the moved bytes at its front and other rows alone |
| Buffers.CopyIn | examples/tls_openssl_pair_transcript.c:81-84 | a copy to an offset extends the row's prefix by the data and leaves other rows alone |
| TlsEndpoints.TlsEndpoint.constructor | examples/tls_openssl_pair_transcript.c:287-353 | a new endpoint is the specification's empty endpoint |
| TlsEndpoints.TlsEndpoint.Send | examples/tls_openssl_pair_transcript.c:72-90 | refines the send of the specification: pending, total and history change together or not at all |
| TlsEndpoints.TlsEndpoint.Receive | examples/tls_openssl_pair_transcript.c:92-112 | refines the borrow at the current read level |
| TlsEndpoints.TlsEndpoint.Release | examples/tls_openssl_pair_transcript.c:114-132 | refines the release at the current read level |
| TlsEndpoints.TlsEndpoint.YieldSecret | examples/tls_openssl_pair_transcript.c:134-161 | refines the yield, which EndpointIsTold describes: the level switches whatever the secret, a secret is kept only at 32 bytes |
| TlsEndpoints.TlsEndpoint.GotParams | examples/tls_openssl_pair_transcript.c:163-177 | refines the parameter callback, refusing what does not fit |
| TlsEndpoints.TlsEndpoint.DriveHandshake | examples/tls_openssl_pair_transcript.c:370-378 | refines a drive: the callbacks of the script in order, then the return code |
| TlsEndpoints.TlsEndpoint.Provide | examples/tls_openssl_pair_transcript.c:745-765 | refines the context's provide, including the refused levels and sizes |
| TlsEndpoints.TlsEndpoint.CopyPending | examples/tls_openssl_pair_transcript.c:767-791 | refines the context's copy, including every refusal |
| TlsEndpoints.PumpOne | examples/tls_openssl_pair_transcript.c:356-366 | one level of the in-place pump is one level of the specification's pump |
| TlsEndpoints.PumpCrypto | examples/tls_openssl_pair_transcript.c:355-368 | the in-place pump loop is the specification's pump, success or failure |
| Transcripts.HandshakeLoop | examples/tls_openssl_pair_transcript.c:508-521 | the in-place loop ends in exactly the states and count of the specification's loop, which LoopReaches, LoopStops and LoopIsTold describe by the callbacks and return codes alone |
| Transcripts.TranscriptStore.Run | examples/tls_openssl_pair_transcript.c:481-531 | after a run, failed or not, the accessors' view is for each side the fold of the callbacks made in that run; it stops where the return codes say, done flags are those of the return codes, reported counts are the exported lengths |
| Transcripts.OutcomeIsTold | examples/tls_openssl_pair_transcript.c:419-479 | what a run exports is, per side, the sends made at each level, the last parameters that fit and the last 32-byte secret of each level and direction, over exactly the drives made |
| Transcripts.AnswersAfterRun | examples/tls_openssl_pair_transcript.c:533-682 | what every crypto, secret and parameter accessor answers after a run, refusals included, in terms of the callbacks made |
| Transcripts.TranscriptStore.Perform | examples/tls_openssl_pair_transcript.c:253-531 | after any sequence of configurations and runs the accessors show the last run, though stale bytes remain in the tables |
| Transcripts.TranscriptStore.Configure | examples/tls_openssl_pair_transcript.c:253-285 | accepted exactly when both parameter blocks fit; a refusal changes nothing; nothing exported changes either way |
| Transcripts.SideTables.Clear | examples/tls_openssl_pair_transcript.c:484-499 | clearing lengths and flags alone leaves nothing visible |
| Transcripts.SideTables.Record | examples/tls_openssl_pair_transcript.c:419-479 | the three copies export exactly the endpoint's histories, parameters and secrets over whatever was there before |
| Transcripts.SideTables.RecordSecrets | examples/tls_openssl_pair_transcript.c:453-479 | the secret table shows exactly the endpoint's secrets, absent ones included |
| Transcripts.SideTables.CopyCrypto | examples/tls_openssl_pair_transcript.c:533-555 | answers with the exported bytes of a level or refuses, as a function of the view alone |
| Transcripts.SideTables.CopyParams | examples/tls_openssl_pair_transcript.c:589-619 | answers with the peer's parameters or refuses, as a function of the view alone |
| Transcripts.SideTables.CopySecret | examples/tls_openssl_pair_transcript.c:621-646 | answers with an available secret or refuses, as a function of the view alone |
| Transcripts.LoopFacts | examples/tls_openssl_pair_transcript.c:413-431 | the endpoints a loop ends with are valid, done or out of iterations, and their counters are the lengths they export |
| AdapterClaims.ConfirmedMeansIntact | examples/tls_openssl_backend_adapter.c:538-548 | in every reachable state whose arrivals a size_t can count, confirmed means exactly: TLS announced parameters that fit and brought a 32-byte secret of both directions at the handshake and the application level, something arrived, and at every level every received byte was released in order with none pending and none ever discarded |
| AdapterClaims.ConfirmedExactly | examples/tls_openssl_backend_adapter.c:538-548 | without that bound: confirmed exactly when those callbacks were made, arrivals are not a multiple of 2^64, and pending plus discarded bytes are one |
| AdapterDeeds.KeysAreTold | examples/tls_openssl_backend_adapter.c:538-548 | the keys count as ready exactly when the callbacks that bring them were made |
| AdapterDeeds.BackendIsTold | examples/tls_openssl_backend_adapter.c:84-222 | in every reachable state: current levels, parameters and secrets are what the callbacks told last; pending and sent bytes of a level are the sends made while it was the write level and that fitted; its lane is what arrivals, borrows and releases at it make it; the log's yields are the usable secrets brought |
| AdapterDeeds.AnswersAreTold | examples/tls_openssl_backend_adapter.c:368-457 | the status and bytes of every receive, pull and debugging call, from what happened before it and from TLS's own return code |
| AdapterDeeds.RepliesAreTold | examples/tls_openssl_backend_adapter.c:84-222 | what each callback is answered in every reachable state |
| AdapterDeeds.ErrorIsTold | examples/tls_openssl_backend_adapter.c:438-444 | the last error is the one of the last drive, none after a success |
| AdapterWrap.ConfirmationCanLieAfterWrap | examples/tls_openssl_backend_adapter.c:538-548 | a concrete run that confirms after 2^64 received bytes were discarded, so the bound above is needed |
| AdapterClaims.OnlyDeliveryUnconfirms | examples/tls_openssl_backend_adapter.c:368-389 | once confirmed, only an accepted nonempty receive can take confirmation back |
| AdapterClaims.QuietRunStaysConfirmed | examples/tls_openssl_backend_adapter.c:368-548 | confirmation survives any run without nonempty receives |
| AdapterClaims.LossIsFinal | examples/tls_openssl_backend_adapter.c:127-150 | once a byte has been discarded confirmation is false in every later state, within the counters' range |
| AdapterClaims.LossAccountingOverRuns | examples/tls_openssl_backend_adapter.c:105-150 | over any run: received is released plus pending plus what releases overran; released plus pending is received exactly when no release met bytes beyond its loan |
| AdapterClaims.Accounting | examples/tls_openssl_backend_adapter.c:624-639 | received bytes are the released, pending and discarded ones, summed over levels |
| AdapterClaims.StepTotals | examples/tls_openssl_backend_adapter.c:368-457 | only an accepted receive adds arrivals, only a driven pull discards, nothing takes a release back |
| Adapter.RunKeepsValid | examples/tls_openssl_backend_adapter.c:84-548 | every host call keeps the backend invariant: lanes sound, pulled ++ pending is what TLS sent, counters are the totals modulo 2^64 |
| Adapter.SpaceLevel | examples/tls_openssl_backend_adapter.c:332-348 | exactly three packet spaces exist and none maps to the early-data level |
| AdapterDelivery.ExactlyOnceDelivery | examples/tls_openssl_backend_adapter.c:391-457 | per packet space, the OK pulls so far followed by what waits are the sends TLS made while that space's level was its write level, in order, each that fitted; the generated counter is their total; early-data bytes never leave |
| AdapterDelivery.PullReply | examples/tls_openssl_backend_adapter.c:413-457 | a pull is OK exactly when it wrote bytes; it then empties its own level and no other; any other outcome takes nothing |
| AdapterDelivery.SpacesNeverMix | examples/tls_openssl_backend_adapter.c:332-348 | distinct packet spaces have distinct levels |
| AdapterDelivery.DeliveredIsPulled | examples/tls_openssl_backend_adapter.c:413-457 | the history of pulled bytes is the concatenation of what OK pulls wrote |
| AdapterDelivery.SecretHandOver | examples/tls_openssl_backend_adapter.c:502-536 | over whole runs: each hand-over gives the latest usable secret of both directions, none comes before both, two of a level have a yield between them, and their number is at most the yields minus one; the yields are those TLS made, the hand-overs the OK pulls with what they wrote |
| AdapterDelivery.HandOversAreReplies | examples/tls_openssl_backend_adapter.c:502-536 | the hand-overs on record are exactly the OK secret pulls, in order, with the bytes each wrote |
| AdapterDelivery.PullSecretsReply | examples/tls_openssl_backend_adapter.c:502-536 | a secret pull is OK exactly when both directions have been yielded and one came since the last hand-over |
| AdapterDelivery.RunKeepsLogged | examples/tls_openssl_backend_adapter.c:152-208 | the flags and secrets the program keeps are a function of the log of yields and hand-overs |
| AdapterDelivery.ParamsHandedOverOnce | examples/tls_openssl_backend_adapter.c:479-500 | between two accepted announcements the peer's parameters are handed over at most once, not at all if they already were, and surely by a pull with room |
| AdapterDelivery.StepParams | examples/tls_openssl_backend_adapter.c:479-500 | a parameter pull is OK exactly when parameters are known, not yet handed over and fit; it writes them byte for byte; no other call touches them |
| AdapterDelivery.ScriptParams | examples/tls_openssl_backend_adapter.c:210-222 | after any callbacks the parameters are the last accepted announcement, and one re-arms the hand-over |
| TlsBackends.TlsBackend.constructor | examples/tls_openssl_backend_adapter.c:285-330 | a new backend is the specification's empty backend |
| TlsBackends.TlsBackend.Send | examples/tls_openssl_backend_adapter.c:84-103 | refines the send, including the overflow flag and the wrapping counter, at the level BackendIsTold says |
| TlsBackends.TlsBackend.Receive | examples/tls_openssl_backend_adapter.c:105-125 | refines the borrow |
| TlsBackends.TlsBackend.Release | examples/tls_openssl_backend_adapter.c:127-150 | refines the release and its counter |
| TlsBackends.TlsBackend.YieldSecret | examples/tls_openssl_backend_adapter.c:152-208 | refines the yield: the level changes before a wrong length is refused, a stored secret re-arms its hand-over |
| TlsBackends.TlsBackend.GotParams | examples/tls_openssl_backend_adapter.c:210-222 | refines the parameter callback |
| TlsBackends.TlsBackend.Deliver | examples/tls_openssl_backend_adapter.c:368-389 | refines receive with its three outcomes |
| TlsBackends.TlsBackend.CopyPendingOutbound | examples/tls_openssl_backend_adapter.c:391-411 | refines the destructive copy |
| TlsBackends.TlsBackend.Pull | examples/tls_openssl_backend_adapter.c:413-457 | refines pull: pending bytes first, then a drive only for the Initial space, then overflow, bytes, pending or error in that order |
| TlsBackends.TlsBackend.PullParams | examples/tls_openssl_backend_adapter.c:479-500 | refines the hand-over-once of the peer's parameters |
| TlsBackends.TlsBackend.PullSecrets | examples/tls_openssl_backend_adapter.c:502-536 | refines both secret pulls |
| TlsBackends.TlsBackend.HandshakeConfirmed | examples/tls_openssl_backend_adapter.c:538-548 | computes the confirmation predicate that ConfirmedExactly describes by callbacks and bytes |
| TlsBackends.TlsBackend.PendingInboundLen | examples/tls_openssl_backend_adapter.c:624-634 | the level loop sums exactly the pending bytes |
| TlsBackends.TlsBackend.DebugConsume | examples/tls_openssl_backend_adapter.c:666-686 | refines a borrow followed by a full release |
| Dropper.ConcurrentSafety | examples/interop/go_echo_client/main.go:35-49 | any number of readers, any interleaving of loads and swaps: the counter is the number of discarded datagrams, never above the limit, and each reader's datagrams are delivered or dropped once, in its reading order |
| Dropper.NothingDroppedBefore | examples/interop/go_echo_client/main.go:41-47 | any number of readers: while nobody enables dropping nothing is dropped and everything settled is delivered in order |
| Dropper.DropNeedsEnable | examples/interop/go_echo_client/main.go:41-45 | a datagram is dropped only if its reader examined it after dropping was enabled |
| Dropper.ExaminedWhen | examples/interop/go_echo_client/main.go:41-47 | a datagram is handed on at its examination exactly when dropping has not been enabled by then |
| Dropper.LoneReader | examples/interop/go_echo_client/main.go:35-49 | the concurrent system with one reader delivers what repeated reads deliver on the same datagrams and enabling moments, so the burst law holds of it |
| Dropper.LostRace | examples/interop/go_echo_client/main.go:41-46 | a delivery by a reader that saw dropping enabled and room for a drop implies another reader's swap succeeded between its load and its swap |
| Dropper.BurstLaw | examples/interop/go_echo_client/main.go:35-49 | single reader, any moment of enabling: delivered is the input minus exactly the first limit datagrams examined after enabling |
| Dropper.DropConnection.ReadFrom | examples/interop/go_echo_client/main.go:35-49 | the loop computes one read of the specification and uses at most one more outcome than the drops still allowed |
| EventLoop.ControlledLoss | examples/interop_event_loopback.zig:157-178 | over any polls the sent datagrams are the polled ones in order minus exactly the first N ack-eliciting ones, N the larger of counter and one-shot flag; what is left of N is exact |
| EventLoop.PollAnswer | examples/interop_event_loopback.zig:157-178 | a poll is lost exactly while losses are due and the datagram elicits an ACK |
| EventLoop.FirstLostStays | examples/interop_event_loopback.zig:168-173 | the recorded number is the first ever lost, whatever was re-armed since |
| EventLoop.LossyEndpoint.PollOneRttAndSend | examples/interop_event_loopback.zig:157-178 | the in-place poll is the specification's step on the arming |
| EventLoop.Earliest | examples/interop_event_loopback.zig:280-291 | the earlier of two deadlines, absent only when both are |
| EventLoop.ClockNeverGoesBack | examples/interop_event_loopback.zig:297-332 | over every run the clock never decreases |
| EventLoop.StepStopsAtDeadlines | examples/interop_event_loopback.zig:326-331 | a step never passes a deadline still ahead on either side, moves at most one tick and never back, and does not move after progress or without a deadline |
| EventLoop.StepFailsWhen | examples/interop_event_loopback.zig:297-332 | the exact conditions under which a step fails to send or overflows |
| EventLoop.ReachesDeadline | examples/interop_event_loopback.zig:326-331 | an unchanged deadline d ahead is reached in exactly ceil((d - now) / 100000) idle steps when that many ticks fit an i64, and otherwise the addition overflows on the way |
| EventLoop.VirtualClock.StepEventLoop | examples/interop_event_loopback.zig:297-332 | the in-place step computes the specification's clock, a failing send included |
| Reassembly.Reassembles | src/quic/connection.zig:11452-11474 | over any run, whatever the order, overlap and repetition of frames: contiguous bytes are a prefix of the stream, after a drain they reach exactly the first missing position, and once all arrived they are the stream |
| Reassembly.RunMirrors | src/quic/connection.zig:11353-11418 | frames of one stream are never refused, and the buffer knows exactly the positions that arrived, each with its own byte |
| Reassembly.OrderDoesNotMatter | src/quic/connection.zig:11452-11474 | two drained runs that covered the same positions hold the same bytes |
| Reassembly.ChargedOnce | src/quic/connection.zig:11025-11031 | bytes held are as many as distinct positions arrived, so no byte is charged twice |
| Reassembly.SizeCountsPositions | src/quic/connection.zig:11025-11031 | the byte count is the number of positions known |
| Reassembly.CollectNewSegments | src/quic/connection.zig:11119-11189 | succeeds exactly when the frame contradicts nothing known, and then yields exactly the unknown positions, once each, with their count |
| Reassembly.ConflictingOverlap | src/quic/connection.zig:11053-11095 | reports a conflict exactly when the frame contradicts a known byte |
| Reassembly.EarliestOverlap | src/quic/connection.zig:11097-11117 | finds the buffered stretch that meets a range first, or that none does |
| Reassembly.ReceiveBuffer.Receive | src/quic/connection.zig:11452-11474 | refused exactly beyond the limit or on contradiction, changing nothing; otherwise the buffer knows what it knew plus the frame and nothing else |
| Reassembly.ReceiveBuffer.TakeIn | src/quic/connection.zig:11465-11473 | taking the collected segments in absorbs the frame and adds exactly their bytes |
| Reassembly.ReceiveBuffer.Drain | src/quic/connection.zig:11427-11450 | keeps every known byte, loses none, and leaves no known byte right after the contiguous ones |
| StreamReceive.RecvStream.ReceiveFrame | src/quic/connection.zig:11476-11528 | unlawful frames are rejected, lawful ones to a finished or reset stream ignored, others absorbed and charged unless the connection window is full; a final size never changes; the charge to other streams is untouched |
| StreamReceive.RecvStream.Screen | src/quic/connection.zig:11480-11501 | a frame is settled early exactly when a size rule, a late conflict or completion decides it |
| StreamReceive.RecvStream.ReceiveReset | src/quic/connection.zig:11240-11279 | rejected exactly on a size or window violation; an accepted reset leaves exactly the final size charged |
| StreamReceive.RecvStream.HighestEnd | src/quic/connection.zig:11033-11040 | one past the highest known position |
| StreamReceive.ReceivedFitsBelowHighest | src/quic/connection.zig:11249-11273 | a stream never holds more bytes than its highest position, so the reset's second size check can never fire |
| PacketRanges.AtMostOnce | src/quic/packet_number_space.zig:69-97 | over any sequence of arrivals a number is recorded exactly when it was never recorded before, is not forgotten and is not a stray below a full table: no packet is processed twice |
| PacketRanges.HistoryIsFaithful | src/quic/packet_number_space.zig:69-142 | after any sequence of arrivals the table holds exactly the recorded numbers that have not been forgotten, in ordered, separated ranges within the bound |
| PacketRanges.RecordEffect | src/quic/packet_number_space.zig:69-142 | a successful record adds its number and keeps every other not forgotten; a failed one changes nothing |
| PacketRanges.RecordedWhen | src/quic/packet_number_space.zig:47-97 | the exact condition under which a record succeeds |
| PacketRanges.ForgetsWhen | src/quic/packet_number_space.zig:126-137 | history is given up exactly when an isolated number enters a full table, and then exactly the oldest range and what lies below it |
| PacketRanges.FindPlaces | src/quic/packet_number_space.zig:54-60 | the scan's first deciding range is the right neighbour of the number |
| PacketRanges.AckRoundTrip | src/quic/frame_rules.zig:11-44 | the ACK frame built from the table passes the frame check, and membership read back from it is exactly the retained set |
| PacketRanges.AckValidWhen | src/quic/frame_rules.zig:11-25 | a frame passes the check exactly when its ranges do not reach below packet number 0 |
| PacketRanges.AckReads | src/quic/frame_rules.zig:27-44 | a number is acknowledged by a well-formed frame exactly when it lies in the first range or in one placed by the gaps and lengths above it |
| PacketRanges.ContainsMissesOlderRange | src/quic/packet_number_space.zig:38-45 | a retained packet number the lookup denies |
| PacketRanges.ContainsCorrectIff | src/quic/packet_number_space.zig:38-45 | the lookup is right about every number exactly when at most one range is held |
| PacketRanges.ContainsSeesNewestOnly | src/quic/packet_number_space.zig:38-45 | the lookup answers for the newest range only |
| PacketRanges.NextExpectedIsNew | src/quic/packet_number_space.zig:99-104 | the expected number is one above the largest retained number, until the number space is used up |
| PacketRanges.ReceivedPacketRanges.constructor | src/quic/packet_number_space.zig:30-36 | a new table is the empty history |
| PacketRanges.ReceivedPacketRanges.CanRecord | src/quic/packet_number_space.zig:47-62 | foretells whether a record succeeds |
| PacketRanges.ReceivedPacketRanges.RecordNumber | src/quic/packet_number_space.zig:64-97 | the in-place record is the specification's record |
| PacketRanges.ReceivedPacketRanges.InsertAt | src/quic/packet_number_space.zig:126-137 | the in-place insertion with eviction is the specification's insertion |
| PacketRanges.ReceivedPacketRanges.Remove | src/quic/packet_number_space.zig:139-142 | removes one entry and keeps the order of the rest |
| PacketRanges.ReceivedPacketRanges.Acknowledge | src/quic/packet_number_space.zig:106-124 | the loop builds the specification's ACK frame and changes nothing retained |
| PacketNumbers.NumberSurvives | src/quic/packet.zig:207-294 | the sender encodes a number relative to one it read in an ACK of this receiver; whatever was reordered, lost or forgotten since, the receiver recovers it exactly when no packet half a window or more ahead has overtaken it |
| PacketNumbers.ReconstructedWhen | src/quic/packet.zig:269-294 | the whole graph of reconstruction: for every expected number, truncated number and length, which packet number it returns, malformed arguments included |
| PacketNumbers.Encode | src/quic/packet.zig:207-226 | the exact condition under which an encoding exists, and that its length is the shortest whose half window covers the unacknowledged packets |
| PacketNumbers.LengthFor | src/quic/packet.zig:191-199 | the shortest length whose half window covers the unacknowledged packets |
| PacketNumbers.WireRoundTrip | src/quic/packet.zig:228-263 | reading back the bytes written gives the truncated number |
| PacketNumbers.WriteNumber | src/quic/packet.zig:228-240 | writes the low bytes, most significant first |
| PacketNumbers.ReadNumber | src/quic/packet.zig:256-263 | reads a big-endian number or runs out of input |
| PacketNumbers.ExpectedIsAbove | src/quic/connection.zig:10581-10593 | the expected number lies above everything ever accepted, forgotten or not |

## Left out

- OpenSSL itself, PSK, ALPN and alert callbacks, key logging and error queues: foreign code; it appears as an arbitrary caller and as an initialization that may fail.
- Callback counters, key-log byte counts and similar diagnostics, which no claim depends on.
- Null arguments, except where a null output buffer changes the answer (the pending copy and the crypto and secret accessors).
- Allocation failures, and the pass that sums lengths before a drain reserves memory.
- The local transport parameters an endpoint offers: they are stored by `Configure` and not followed into the TLS stack.
- `context_copy_secret` and the adapter's copy of handshake secrets for debugging: same answers as the modelled accessors.
- Secrets inside an endpoint or a backend are values rather than byte arrays; only the exported secret table is an array.
- Sockets, timers and the connection behind the event loop: a poll, an arrival and a due deadline are parameters of a step.
- The underlying read of the dropper: its outcomes are a parameter; the concurrent model has no network, only datagrams handed to readers.
- Stream identifiers, stream-count limits and the lists of streams: one stream and its share of the connection window are modelled; the states before a stream's first frame equal a new `RecvStream`.
- The u64 conversions of lengths in the receive path, which cannot fail below the 2^62 offset limit the code checks first.
- ACK delay and ECN counts in ACK frames, and the variable-length encoding of frames.
- Bit masks of packet numbers are written as remainders and multiples of the window; shifts of the wire bytes as divisions and multiplications by powers of 256.
- Loss recovery, congestion control, packet protection, key update, QPACK, endpoint routing, the other examples and interop clients: not part of this model.
- LossIsFinal: holds while the received bytes stay below 2^64, because beyond that the counters wrap as `ConfirmationCanLieAfterWrap` shows.
