# telefacet: a verified model

telefacet is a multi-threaded client for camera servers: it reassembles frames
that arrive in interleaved chunks, recycles their buffers between network and
display threads, runs captures on several servers at once, and saves what comes
back. This project models the parts behind its window and proves properties of
them over every input, every run or every interleaving. `dafny verify
dfyconfig.toml` checks all of it.

## How it is laid out

| part of the system | specification and theorems | the code in place |
|---|---|---|
| wire format, detection blocks | `Protocol`, `DetectionBlock` | the parsing loops in `DetectionBlock` |
| chunk reassembly | `Reassembly`, `FrameAssembly`, `DeliveredFrames`, `StagedFrames` | `ChunkReassembly`, `RecycledBuffers` |
| frame buffers | `BufferOwnership`, `PoolPolicy` | `FrameBuffers` |
| camera store | `Roster`, `LatestWins`, `FrameRate` | `CameraStore`, `MultiServerManager` |
| captures, one connection | `CaptureBooks`, `CaptureLink` | `WebSocketClient` |
| captures, the client | `Rendezvous`, `Outcomes` | `Client` |
| captures, everything together | `CaptureSystem` | |
| saving captures | `SaverQueue`, `CaptureNames` | `CaptureSaver` |
| stacked images | `StackImage`, `StackGray`, `Npy` | the methods there |

`Arithmetic`, `Bytes`, `Decimal`, `Seqs`, `Sorting` and `Options` are shared. A class method is proved
against a function on values, and the theorems are about those functions.
Threads are modelled as state machines whose steps are the source's critical
sections: `BufferOwnership`, `CaptureLink`, `CaptureSystem` and `SaverQueue`
quantify over all their runs.

The abstract server of `CaptureLink` promises what the source's comments rely
on (src/net/WebSocketClient.hpp:66-69, 150-152, 210-212 and 328-331,
src/net/WebSocketClient.cpp:65-69 and 177-179): messages arrive in order, one
capture of either kind runs at a time, every request gets one answer, frames
come after the result and as many as it announces, and a lost connection drops
what was outstanding. A *calm* run additionally keeps outstanding requests to
one kind, does not word an unrelated error like a refusal, and does not open a
connection in the middle of a send; the gate gives the first for free. Each of
these has a lemma that shows what goes wrong without it.

## Where the code does less than its comments say

Each is stated with the exact condition under which the claim holds.

- A zero-length chunk is counted every time it arrives: `OrderFreeExactly`.
- A frame whose chunks fall short of its size, and every header-only frame,
  shows what the recycled buffer held: `RecycledBytesLeakExactly`,
  `HeaderOnlyDataIsRecycled`, `HeaderOnlyAfterAFrame`.
- A release recycles its buffer exactly when its test saw the last reference
  and there is room, so two overlapping ones can lose it to the pool:
  `ReleaseRecyclesExactly`, `OverlapNeverRecycles`,
  `OverlappingReleasesLoseTheBuffer`.
- A cursor that survives a rebuild can miss a frame: `StaleCursorMissesExactly`.
- A frame without a timestamp skews the recovered frame rate: `DurationExactIff`.
- A refusal resolves the oldest request, which need not be the one refused:
  `OverlapResolvesExactly`, `MixedKindsStick`, `SurplusSticks`.
- A request can go out unrecorded when its connection opens in between:
  `OpeningMidSend`.
- The gate looks at the connections' books, while a late callback can still
  reach the client after arming: `StaleCallbackFoolsExactly`.
- Two addresses can share a directory, each with its own run numbers:
  `DirsCollideExactly`, `SchemeIsDropped`.
- The percentile's sample can exceed its stated maximum, and the width check
  wraps at 2^30: `SampleBound`, `WidthWrapExactly`.

## Model

| member | source | states |
|---|---|---|
| Protocol.StartRoundTrip | src/net/Protocol.hpp:58-92 | A CHUN message built from any 72-byte header and detection block classifies as a start with exactly that header and block: every packed field is read at the offset it was written to. |
| Protocol.ChunkRoundTrip | src/net/Protocol.hpp:116-129 | A CHNK message built from uuid, index and payload classifies as exactly that chunk. |
| Protocol.StartLayout | src/net/Protocol.hpp:59-92 | Every field of a start message lies at its documented byte offset, little-endian, behind the magic and version 8. |
| Protocol.ChunkLayout | src/net/Protocol.hpp:117-122 | The same for a chunk message. |
| Protocol.EncodeOfStart | src/net/ChunkReassembler.cpp:126-171 | Nothing else is accepted: bytes taken for a start are the encoding of the header and block they are read as. |
| Protocol.EncodeOfChunk | src/net/ChunkReassembler.cpp:231-246 | The same for chunks. |
| DetectionBlock.ParseCharacterised | src/net/ChunkReassembler.cpp:23-47 | For arbitrary bytes: a list of records is what the parser returns if and only if its encoding stands at the offset, it has at most the expected number of records, and no further whole record follows while more are expected. |
| DetectionBlock.ParseOfEncode | src/net/ChunkReassembler.cpp:24-47 | Parsing the encoding of any records, followed by anything, returns those records. |
| DetectionBlock.EncodeOfParse | src/net/ChunkReassembler.cpp:24-47 | For arbitrary bytes, re-encoding what was parsed gives a prefix of the block; at most the expected number of records is returned. |
| DetectionBlock.CornerSetsRoundTrip | src/net/ChunkReassembler.cpp:17-52 | parse(encode(sets)) == sets for checkerboard corner sets. |
| DetectionBlock.MarkersRoundTrip | src/net/ChunkReassembler.cpp:59-94 | parse(encode(markers)) == markers for ArUco markers, signed ids included. |
| DetectionBlock.CornerSetsReencode | src/net/ChunkReassembler.cpp:17-52 | Corner sets parsed from arbitrary bytes re-encode to a prefix of them; never more than the expected number. |
| DetectionBlock.MarkersReencode | src/net/ChunkReassembler.cpp:59-94 | The same for markers. |
| DetectionBlock.CornerSetBytes | src/net/ChunkReassembler.cpp:23-47 | In arbitrary bytes: which bytes each field of a corner set is read from, when one is read at all, and where the next begins. |
| DetectionBlock.MarkerBytes | src/net/ChunkReassembler.cpp:66-91 | The same for markers. |
| DetectionBlock.ParseCornerBlock | src/net/ChunkReassembler.cpp:17-52 | The in-place loop terminates, reads inside the block only, and returns the specified corner sets. |
| DetectionBlock.ParseMarkerBlock | src/net/ChunkReassembler.cpp:59-94 | The same loop for markers. |
| FrameAssembly.NonInterference | src/net/ChunkReassembler.cpp:102-116 | What happens to a frame over any message stream -- its staged entry and every outcome that names it -- is what happens over the messages that name it alone. |
| FrameAssembly.DeliveredOnceWhole | src/net/ChunkReassembler.cpp:220-290 | A payload cut into n non-empty pieces (or one piece): over any stream with its chunks in any order and multiplicity among malformed messages and other frames' traffic, the frame is delivered exactly once, whole, if all pieces have arrived, else not at all and is still staged -- whatever the recycled buffer held. Read for every prefix, it comes out at its last distinct chunk. |
| DeliveredFrames.PayloadDeliveredOnce | src/net/ChunkReassembler.cpp:188-288 | The reassembly theorem from sender to receiver: a start message as it is on the wire and the chunks of a payload cut into non-empty pieces, in any order and multiplicity among anything else, deliver nothing until every piece has arrived and then one frame, whose bytes are the payload, whose metadata is the header's field by field and whose detections are those encoded. |
| DeliveredFrames.MetaDescribes | src/net/ChunkReassembler.cpp:172-209 | Every field of the metadata is the header's field of that name; corner sets appear for detection kind 1 only, markers for kind 2 only, and they are the ones encoded in the block. |
| DeliveredFrames.HeaderOnlyDelivered | src/net/ChunkReassembler.cpp:211-218 | The same of a header-only start, delivered at once. |
| DeliveredFrames.StartOutcome | src/net/ChunkReassembler.cpp:211-228 | A start as it is on the wire is delivered if and only if both totals are zero, ignored if and only if its uuid is already staged, and else staged. |
| DeliveredFrames.ShortFrameBytes | src/net/ChunkReassembler.cpp:270-285 | Each byte of a frame whose chunks fall short: a chunk's, then the recycled buffer's, then zero. |
| DeliveredFrames.KeptInOrder | src/net/ChunkReassembler.cpp:216-216 | What counts as delivered under a uuid: exactly the frames handed out for it, in order. |
| DeliveredFrames.ProjectionKeeps | src/net/ChunkReassembler.cpp:102-116 | What counts as a frame's own messages: exactly its starts and chunks, in order. |
| FrameAssembly.AssembleFrom | src/net/ChunkReassembler.cpp:247-289 | The same from any point midway, with any set of pieces already arrived. |
| FrameAssembly.EmptyPieceDeliversEarly | src/net/ChunkReassembler.cpp:258-268 | A zero-length chunk leaves its slot empty and is counted again: n copies of it complete a frame whose other pieces never came. |
| FrameAssembly.OrderFreeExactly | src/net/ChunkReassembler.cpp:258-268 | Order- and repetition-independence holds for a cut of the payload if and only if no piece is empty or there is just one. |
| StagedFrames.LivelyIsNeverSwept | src/net/ChunkReassembler.cpp:118-123 | A frame that no message of the connection finds stale goes through all sweeps untouched: its entry and outcomes are those of a run without sweeps. |
| StagedFrames.SteadyIsLively | src/net/ChunkReassembler.cpp:264-268 | Over a stream whose clock does not run backwards, a frame whose own accepted messages are never more than 5 s apart -- from its start up to the end of the stream -- is never found stale by any message. |
| StagedFrames.SteadyIsNeverSwept | src/net/ChunkReassembler.cpp:118-123 | So such a frame is never swept, however long it takes in all and whatever else arrives. |
| StagedFrames.DeliveredDespiteSweeps | src/net/ChunkReassembler.cpp:102-124 | Order-independent delivery over whole runs with the periodic sweep, for a frame whose own accepted messages are never more than 5 s apart. |
| StagedFrames.SweepTakesExactlyTheIdle | src/net/ChunkReassembler.cpp:292-304 | A due sweep removes exactly the entries idle for more than 5 s. |
| StagedFrames.IdleIsSwept | src/net/ChunkReassembler.cpp:118-123 | A frame idle for more than 5 s is gone after the next message of another frame that triggers a sweep. |
| StagedFrames.NoFrameIdlesLong | src/net/ChunkReassembler.cpp:118-123 | Over any timed run: after every message of at least 8 bytes no frame in flight has been idle for more than the timeout and one sweep period, 6 s. |
| StagedFrames.StagedEntriesKept | src/net/ChunkReassembler.cpp:220-268 | Over any run every staged entry has one slot per chunk and fewer received than total (or total 0); received counts its filled slots as long as no empty chunk arrives. |
| StagedFrames.StartsAreConserved | src/net/ChunkReassembler.cpp:211-309 | Over any run, resets included: accepted starts == delivered + in flight + ignored repeats + swept + overflowed + reset. |
| StagedFrames.MessageAccounts | src/net/ChunkReassembler.cpp:211-304 | Which account each outcome of a message is booked to. |
| StagedFrames.RecycledBytesLeakExactly | src/net/ChunkReassembler.cpp:270-288 | A delivered frame is independent of what its recycled buffer held if and only if the chunks add up to the announced size; a short frame shows old bytes at its end. |
| StagedFrames.HeaderOnlyDataIsRecycled | src/net/ChunkReassembler.cpp:211-218 | A header-only frame's data is empty if and only if the recycled buffer was: acquire(0) does not clear it (src/client/Client.hpp:66 says it is empty). |
| RecycledBuffers.HeaderOnlyAfterAFrame | src/net/ChunkReassembler.cpp:211-218 | A run through reassembler and pool, for any payload: a frame is delivered and released, a header-only start arrives, and the frame marked header-only that comes out holds that payload. |
| ChunkReassembly.ChunkReassembler.OnBinary | src/net/ChunkReassembler.cpp:102-124 | One message in place: the new table, the sweep clock and what the callback receives are those of the specified step. |
| ChunkReassembly.ChunkReassembler.HandleStart | src/net/ChunkReassembler.cpp:126-229 | Version, length and size checks, metadata, header-only delivery, staging or ignoring a repeated uuid -- as specified; the pool stays free of staged buffers. |
| ChunkReassembly.ChunkReassembler.HandleChunk | src/net/ChunkReassembler.cpp:231-290 | Size and index checks, duplicates, storing, assembly and overflow -- as specified. |
| ChunkReassembly.ChunkReassembler.Assembled | src/net/ChunkReassembler.cpp:270-282 | The copying loop: succeeds if and only if the chunks fit, and then the buffer starts with their concatenation in index order. |
| ChunkReassembly.ChunkReassembler.SweepStale | src/net/ChunkReassembler.cpp:292-304 | The erase loop leaves exactly the entries that are not stale and releases the others' buffers. |
| ChunkReassembly.ChunkReassembler.Reset | src/net/ChunkReassembler.cpp:306-309 | Empties the table and releases every staged buffer. |
| BufferOwnership.OwnershipIsSafe | src/data/FrameBufferPool.cpp:5-36 | In every interleaving of acquire, fill, deliver, publish, evict, consume, capture and release -- its unlocked test and its locked push apart -- the free list holds at most 16 distinct buffers, none referenced anywhere, and a buffer being written or about to be pushed has one holder. |
| BufferOwnership.AcquireIsExclusive | src/data/FrameBufferPool.cpp:5-16 | So acquire never hands out bytes that anybody holds. |
| BufferOwnership.RunKeeps | src/data/CameraStore.cpp:91-97 | The inductive invariant behind both. |
| BufferOwnership.ReleaseRecyclesExactly | src/data/FrameBufferPool.cpp:32-35 | Whatever the other threads do between a release's test and its end: the buffer is recycled if and only if the test saw the last reference and the pool then has room. |
| BufferOwnership.OverlapNeverRecycles | src/data/FrameBufferPool.cpp:27-32 | Two releases of one buffer of which the second tests before the first has ended: neither recycles it, in whichever order they end and whatever else goes on. |
| BufferOwnership.UninterruptedReleaseRecyclesExactly | src/data/FrameBufferPool.cpp:32-35 | In particular a release that is not interrupted. |
| BufferOwnership.OverlappingReleasesLoseTheBuffer | src/data/FrameBufferPool.cpp:27-32 | If those two held the last two references, the buffer ends without a holder and outside the pool, in either order of ending: the comment's claim that it returns to the pool on a later release fails. |
| BufferOwnership.SeparateReleasesRecycle | src/data/FrameBufferPool.cpp:27-35 | One after the other they do recycle it. |
| BufferOwnership.SharedEvictionArises | src/ui/CameraView.cpp:142-175 | The premise of the two lemmas above is reachable: a consumer still holds the frame that a publication evicts. |
| FrameBuffers.FrameBufferPool.Acquire | src/data/FrameBufferPool.cpp:5-16 | Pops the most recently freed buffer, grown to the size but never shrunk or cleared, or makes a new one. |
| FrameBuffers.FrameBufferPool.Release | src/data/FrameBufferPool.cpp:18-36 | Pushes a solely owned buffer while there is room; otherwise leaves the pool as it is. |
| Roster.ReachableRoster | src/data/CameraStore.cpp:21-63 | In every reachable roster (server, local id) is unique, global_id is the position, and the cameras are exactly those discovered since the last clear. |
| Roster.RosterConfluence | src/data/CameraStore.cpp:42-63 | After a rebuild order, numbers and labels depend only on the set of cameras discovered, not on order or repetition of replies or earlier rebuilds. |
| Roster.RebuiltIs | src/data/CameraStore.cpp:42-63 | A rebuild keeps the cameras with sensor and streaming flag, sorts them by server and then by local id and labels them cam0, cam1, ... |
| LatestWins.LatestWinsDelivery | src/data/CameraStore.cpp:88-97 | Between rebuilds, for any publishers and consumers: a consumer receives a strictly increasing subsequence of the published frames, and a poll after the last publication leaves it with the last frame. |
| LatestWins.PolledFrameIsTheNewest | src/data/CameraStore.cpp:169-177 | What a poll returns is the newest published frame, under its number. |
| LatestWins.StaleCursorMissesExactly | src/data/CameraStore.cpp:57-57 | A cursor kept across a rebuild misses the newest frame if and only if it happens to equal the number of frames published since. |
| FrameRate.FrameRateRecovery | src/data/CameraStore.cpp:127-163 | If true frame durations lie in [a, b], a > 0, and timestamps are non-zero, then whatever frames are dropped, repeated or out of order every recorded duration, the window's average and a rate that was published agree with [a, b]. |
| FrameRate.DurationSeenIs | src/data/CameraStore.cpp:135-139 | A duration is recorded exactly for a frame id above the last one, and times the id gap it is the true time between the two captures. |
| FrameRate.RisesAreRecorded | src/data/CameraStore.cpp:135-149 | Against a definition on the arrivals alone: the durations recorded over any stamped run are, in order, the time per frame of every rise of the frame id, and no others. |
| FrameRate.UnstampedIsDeclared | src/data/CameraStore.cpp:140-142 | Without a timestamp the declared duration is recorded if there is one; with a first timestamp nothing is. |
| FrameRate.PublishedExactly | src/data/CameraStore.cpp:151-163 | A rate is published if and only if the window is not empty and a second has passed since the last time: it times the sum of the window is a million times the window's length, and the clock restarts; otherwise rate and clock stay. |
| FrameRate.ConstantCadenceIsExact | src/data/CameraStore.cpp:131-162 | A constant cadence P is recovered exactly, under any drops: every duration is P and a rate that was published is 1000000 / P. |
| FrameRate.ConstantCadenceIsPublished | src/data/CameraStore.cpp:151-163 | After any frames of a constant cadence P, a frame with a higher id a second or more after the last publication sets the rate to exactly 1000000 / P. |
| FrameRate.WindowIsNewest | src/data/CameraStore.cpp:143-147 | The window holds exactly the ten newest durations seen, in order. |
| FrameRate.DurationExactIff | src/data/CameraStore.cpp:135-149 | With frames without a timestamp: the next stamped frame shows the true period if and only if the stamp held belongs to the last frame id -- also where the unsigned difference wraps. |
| FrameRate.ZeroTimestampSkews | src/data/CameraStore.cpp:148-149 | A concrete run: one frame without timestamp doubles the recorded duration. |
| CameraStores.CameraStore.AddCamera | src/data/CameraStore.cpp:21-40 | The camera is refreshed in place or appended, no other entry changes, and the id returned is its position. |
| CameraStores.CameraStore.RebuildGlobalIdsSorted | src/data/CameraStore.cpp:42-63 | Roster rebuilt; slots and captures forgotten; statistics kept, and made for ids that had none. |
| CameraStores.CameraStore.FindByServer | src/data/CameraStore.cpp:78-86 | Finds a camera if and only if it is in the roster, at the position that is its global id. |
| CameraStores.CameraStore.FindById | src/data/CameraStore.cpp:70-76 | Finds a global id if and only if it is below the number of cameras. |
| CameraStores.CameraStore.PublishFrame | src/data/CameraStore.cpp:88-167 | Slot swapped, the evicted frame released, no other slot touched, statistics updated: which of the frame's fields the rate holds on to is stated field by field. A null frame changes nothing. |
| CameraStores.CameraStore.ConsumeIfNew | src/data/CameraStore.cpp:169-177 | Returns the frame and the cursor that the delivery theorem speaks of. |
| CameraStores.CameraStore.PublishCapture | src/data/CameraStore.cpp:179-188 | A capture replaces its camera's last one under a number no capture had before. |
| CameraStores.CameraStore.Clear | src/data/CameraStore.cpp:7-19 | Forgets everything but the capture counter. |
| CameraStores.RecordRate | src/data/CameraStore.cpp:131-163 | The update of durations, window, average and rate, as the recovery theorem speaks of it. |
| CaptureBooks.RecognisedRefusalIsNotEmpty | src/net/WebSocketClient.cpp:70-77 | A message recognised as a refusal is never empty. |
| CaptureBooks.RefusalWordingExactly | src/net/WebSocketClient.cpp:70-77 | A message counts as a refusal if and only if one of the ten words occurs somewhere in it. |
| CaptureBooks.ContainsIsOccurrence | src/net/WebSocketClient.cpp:75-75 | The wording check looks for an occurrence anywhere in the message. |
| CaptureBooks.ResultIsBooked | src/net/WebSocketClient.cpp:165-175 | What a connection books for a result: a trigger's entries as they are; of a stack's, every entry without an error as often as it is there, and no other. |
| CaptureBooks.AnnouncedIs | src/net/WebSocketClient.cpp:369-372 | So much for the frames a result announces, for client, connection and server alike. |
| CaptureBooks.FirstEntryIsTaken | src/net/WebSocketClient.cpp:146-151 | A frame is paired with the first entry of its camera. |
| CaptureBooks.UnrelatedErrorHarmlessExactly | src/net/WebSocketClient.cpp:406-415 | An error leaves the bookkeeping alone if and only if it is coded, is not worded like a refusal, or nothing waits. |
| CaptureBooks.FailedSendIsInvisible | src/net/WebSocketClient.cpp:494-505 | A request whose send fails leaves no trace, whatever results, refusals, frames and resets arrive between its note and its withdrawal. |
| CaptureBooks.OverlapResolvesExactly | src/net/WebSocketClient.cpp:410-413 | A refusal pops the front request: with two outstanding, the right one is resolved and none is left over if and only if the kinds agree. |
| WebSocketClients.WebSocketClient.SendCaptureRequest | src/net/WebSocketClient.cpp:494-505 | Recorded if and only if it went out. |
| WebSocketClients.WebSocketClient.NoteCaptureAcked | src/net/WebSocketClient.cpp:165-175 | The oldest request of that kind is resolved and its capture becomes the current one. |
| WebSocketClients.WebSocketClient.OnError | src/net/WebSocketClient.cpp:399-419 | As specified; the refusal names the front request. |
| WebSocketClients.WebSocketClient.OnStackResult | src/net/WebSocketClient.cpp:359-388 | One announced frame for each camera without an error: the books are those ResultIsBooked describes. |
| WebSocketClients.WebSocketClient.OnAssembled | src/net/WebSocketClient.cpp:114-158 | A capture frame is matched by kind, 16-bit id and room, then paired with its camera's entry; live frames pass by. |
| WebSocketClients.WebSocketClient.CaptureProgress | src/net/WebSocketClient.cpp:597-617 | In progress if and only if a request waits or frames are missing; shows the oldest request or the acked capture. |
| WebSocketClients.WebSocketClient.OnMessage | src/net/WebSocketClient.cpp:229-236 | Any message changes the books and reports to the callbacks as specified. |
| WebSocketClients.WebSocketClient.OnOpen | src/net/WebSocketClient.cpp:189-192 | Connected, with nothing outstanding. |
| WebSocketClients.WebSocketClient.OnClose | src/net/WebSocketClient.cpp:201-206 | Disconnected, with nothing outstanding. |
| WebSocketClients.LooksLikeRefusal | src/net/WebSocketClient.cpp:70-77 | The loop over the ten words decides exactly whether one occurs. |
| CaptureLink.RunKeeps | src/net/WebSocketClient.hpp:150-152 | The link invariant over every calm run against the abstract server: requests are counted, kinds agree, what is still expected is what will be sent. |
| CaptureLink.FinishAnnounces | src/net/WebSocketClient.hpp:66-69 | The abstract server has one frame left to send for each that its result announces. |
| CaptureLink.GateIsSound | src/net/MultiServerManager.cpp:113-117 | In every calm run there is one recorded request per unanswered one, and a connection without a capture in progress has an idle server and no request, answer or capture frame under way. |
| CaptureLink.FramesAlwaysMatch | src/net/WebSocketClient.cpp:134-151 | In such a run every capture frame matches when it arrives. |
| CaptureLink.EveryFrameArrives | src/net/WebSocketClient.cpp:134-144 | When a link is quiet the frames matched are exactly those the server sent for its last result, in order. |
| CaptureLink.GatedRequestsNeverOverlap | src/client/Client.cpp:238-244 | With every request behind the gate, whatever the sequence of kinds, a request always finds its server idle, so it is never refused as overlapping. |
| CaptureLink.OpeningMidSend | src/net/WebSocketClient.cpp:189-192 | A connection that opens between a request's note and its send keeps the invariant if and only if no send is under way; otherwise the request goes out unrecorded. |
| CaptureLink.SurplusSticks | src/net/WebSocketClient.cpp:165-169 | With more requests on record than answers to come, the connection reports a capture in progress as long as it stays open, whatever is asked, answered and sent. |
| CaptureLink.MixedKindsStick | src/net/WebSocketClient.cpp:406-415 | Two overlapping requests, the second refused and the first finished with any result, leave nothing on record if and only if their kinds agree; otherwise the connection is in progress after every later run on which it stays open. |
| Rendezvous.HeardAllKeeps | src/client/Client.cpp:177-230 | Over any reports of a server: never more frames than expected, all of the kind asked for and under the low 16 bits of the acked id. |
| Rendezvous.DoneIsFulfilled | src/client/Client.cpp:188-227 | A server is done without refusal if and only if it acked, never refused, and every announced frame has arrived. |
| Rendezvous.FulfilledExactly | src/client/Client.cpp:177-230 | In terms of a server's reports alone: it counts as fulfilled if and only if it gave a result of the kind asked for, had not refused before the first such, and at least as many frames of that kind and under that id's low 16 bits followed as the result announced; the client holds the first that many, in order. |
| Rendezvous.ResultIsHeard | src/client/Client.cpp:184-195 | An unanswered server that hears a result expects one frame for each that the result announces: for a stack, each entry without an error. |
| Rendezvous.FulfilledIsFinal | src/client/Client.cpp:184-186 | Nothing reported later changes a fulfilled server. |
| Rendezvous.SilentRefusalFools | src/client/Client.cpp:206-207 | This rests on refusals having a text: a refusal would pass for success if and only if it were empty. |
| Rendezvous.ReportsAreWellFormed | src/net/WebSocketClient.cpp:406-417 | What a connection reports meets that condition. |
| Rendezvous.ServersDoNotInterfere | src/client/Client.cpp:182-229 | What is collected for a server depends on its own reports alone, in any interleaving of several servers' callbacks. |
| Rendezvous.PruneCommutes | src/client/Client.cpp:261-266 | Forgetting unsent servers after or before their callbacks makes no difference to the others. |
| Clients.Client.RunCapture | src/client/Client.cpp:232-291 | Over any interleaving of callbacks: complete if and only if the gate opened, some armed server was sent to, and each of those acked, never refused and delivered exactly its frames; what is collected is what each server's own reports lead to; refusals lists exactly the refusing servers. |
| Clients.Client.OnCaptureResult | src/client/Client.cpp:177-196 | Taken up once per armed server and call, for the kind asked for. |
| Clients.Client.OnCaptureRefused | src/client/Client.cpp:198-210 | Marks an unacked server done with its message. |
| Clients.Client.OnCaptureFrame | src/client/Client.cpp:212-230 | Collected only for an acked, unfinished server under its id. |
| Clients.Client.OnStackResult | src/client/Client.cpp:25-31 | The hook's count of images is the number of entries without an error, which is what the connection books. |
| Clients.Client.Prune | src/client/Client.cpp:261-266 | The erase loop keeps exactly the servers sent to. |
| Outcomes.TriggerOutcome | src/client/Client.cpp:307-327 | Exactly the collected frames, each as often as it was collected, sorted by global id; that id is the roster position of the frame's server and camera, or 0 if there is none. |
| Outcomes.StackOutcome | src/client/Client.cpp:352-373 | Exactly one entry for each time a server reported a camera, with the last frame that came for it, sorted by global id; that id is the roster position of the server's camera, or 0 if there is none. |
| Outcomes.GlobalNames | src/client/Client.cpp:318-319 | In every reachable roster the global id under which an outcome lists a camera is the position of that server's camera of that local id, or 0 if it has none. |
| Outcomes.LastFrameIsLast | src/client/Client.cpp:361-362 | A stacked camera carries the last frame that came for it. |
| CaptureSystem.BookkeepersAgree | src/client/Client.cpp:177-230 | In every run of several servers, connections and a client, with each critical section a step: on a connection open since arming, an acked server's kind, id and expected count agree on both sides, and a server the client is done with is no longer in progress; once no callback is under way received counts agree and the converse holds. |
| CaptureSystem.ClientHoldsWhatWasSent | src/client/Client.cpp:224-227 | From the moment the client is done with such a server, the server is idle and the client holds exactly the frames it sent for its result, each once, in order. |
| CaptureSystem.RequestsNeverOverlap | src/client/Client.cpp:238-256 | In every such run a request finds its server idle. |
| CaptureSystem.CollectedIsSound | src/client/Client.cpp:212-230 | In every such run frames never exceed the expected number, and done without refusal means every announced frame arrived. |
| CaptureSystem.GateStaysOpen | src/client/Client.cpp:241-255 | Between the gate and arming no capture appears by itself. |
| CaptureSystem.StaleCallbackFoolsExactly | src/net/WebSocketClient.cpp:350-358 | A call armed while a connection has booked an answer but not yet made its callback takes that answer for its own if and only if it is a result or refusal of the same kind. |
| CaptureSystem.StaleCallbackArises | src/client/Client.cpp:241-255 | A concrete run to that point, past the gate: the next call is over before it has asked for anything. |
| MultiServerManagers.MultiServerManager.TriggerCaptureAll | src/net/MultiServerManager.cpp:87-98 | Returns in ascending order exactly the connected servers whose socket took the request, and those alone have it on record. |
| MultiServerManagers.MultiServerManager.StackCaptureAll | src/net/MultiServerManager.cpp:100-111 | The same, for servers configured with raw only. |
| MultiServerManagers.MultiServerManager.AnyCaptureInProgress | src/net/MultiServerManager.cpp:113-117 | True if and only if some connected server has a capture in progress. |
| MultiServerManagers.MultiServerManager.OnDiscovery | src/net/MultiServerManager.cpp:225-231 | The roster is that of the reply's cameras added in order and then rebuilt: its cameras are those there before and those listed, a listed one has the sensor it was last listed with, and every other keeps its own. Confluence applies to it. |
| MultiServerManagers.DiscoveryIs | src/net/MultiServerManager.cpp:225-231 | A reply adds exactly the cameras it lists, under their server. |
| MultiServerManagers.DiscoverySensors | src/net/MultiServerManager.cpp:225-231 | It sets exactly the listed cameras' sensors, the last listing counting. |
| MultiServerManagers.MultiServerManager.OnFrame | src/net/MultiServerManager.cpp:233-242 | Published in the slot of the camera its server knows under that id, its statistics updated and the evicted frame released; otherwise back to the pool, and nothing else changes. |
| MultiServerManagers.MultiServerManager.OnCaptureFrame | src/net/MultiServerManager.cpp:244-253 | Stored as the last capture of its camera if known; slots and statistics never see it. |
| SaverQueue.SavedCapturesAreConserved | src/data/CaptureSaver.cpp:174-245 | At every step of every interleaving: accepted == saved + errors + queued + in hand, pending == queued + in hand, saved is the number of writes that went well, and jobs finish in the order of acceptance, each in the state of its own outcome. |
| SaverQueue.FlushedAndStopped | src/data/CaptureSaver.cpp:197-215 | When a flush returns everything accepted is saved or failed; the worker exits with an empty queue and every job final. |
| SaverQueue.FinalStatesStay | src/data/CaptureSaver.cpp:188-193 | Saved and Failed are never overwritten, least of all by Saving, which save stores before taking the lock. |
| SaverQueue.RunKeeps | src/data/CaptureSaver.cpp:209-245 | The inductive invariant behind these. |
| CaptureNames.RunsSeparateRepeats | src/data/CaptureSaver.cpp:264-273 | Per server, over any captures: the run never goes down, and kind, capture id and camera are distinct within a run. |
| CaptureNames.RunGoesUpExactly | src/data/CaptureSaver.cpp:269-272 | The run goes up, by one, if and only if the current run already had that kind, id and camera. |
| CaptureNames.NamesAsDocumented | src/data/CaptureSaver.hpp:9-11 | Key and file names of documented examples, run suffix included. |
| CaptureNames.HostAndPortDir | src/data/CaptureSaver.cpp:83-98 | ws://host:port, with or without TLS and whatever path follows, is host_port. |
| CaptureNames.KeyInjective | src/data/CaptureSaver.cpp:266-268 | The key tells kind, capture id and camera. |
| CaptureNames.FileInjective | src/data/CaptureSaver.cpp:274-293 | A file name tells camera, frame, run and extension. |
| CaptureNames.FilesCollideExactly | src/data/CaptureSaver.cpp:274-293 | Two captures of a server share a file name if and only if run, camera, frame and extension agree: no overwriting as long as a run never shows one frame of a camera twice. |
| CaptureNames.ServerDirNameIsPlain | src/data/CaptureSaver.cpp:83-98 | A directory name is never empty, has plain characters only, and is its own directory name. |
| CaptureNames.DirsCollideExactly | src/data/CaptureSaver.cpp:83-98 | Any two addresses share a directory if and only if the parts between scheme and first slash (or server, where there is nothing) differ at most in characters written as underscores. |
| CaptureNames.HostDirsCollideExactly | src/data/CaptureSaver.cpp:92-96 | For plain hosts and ports: they differ at most in colons against underscores. |
| CaptureNames.SchemeIsDropped | src/data/CaptureSaver.cpp:84-90 | Any address shares its directory under ws and wss. |
| CaptureSavers.DirsAreApart | src/data/CaptureSaver.cpp:255-273 | A server's run and keys are those its own named captures lead to, whatever is saved for others and whichever writes fail. |
| CaptureSavers.PathsCollideExactly | src/data/CaptureSaver.cpp:255-294 | Over any jobs of any servers: two files written go to one path if and only if server directory, run, camera, frame and extension all agree. |
| CaptureSavers.RunsSeparateRepeatsAmongJobs | src/data/CaptureSaver.cpp:264-273 | Among the jobs of many servers, each server's run never goes down, and within a run kind, capture id and camera are distinct. |
| CaptureSavers.RunGoesUpExactlyAmongJobs | src/data/CaptureSaver.cpp:264-273 | Among the jobs of many servers, a server's run goes up, by one, if and only if an earlier job of that server in the current run has the same frame kind, capture id and camera. |
| CaptureSavers.CaptureSaver.Save | src/data/CaptureSaver.cpp:183-195 | Queued at the back with its state Saving; nothing happens when saving is off or there is no frame. |
| CaptureSavers.CaptureSaver.WriteJob | src/data/CaptureSaver.cpp:247-295 | Succeeds if and only if directory and files could be written and a stacked image is complete; names the image or, without pixels, the sidecar. |
| CaptureSavers.CaptureSaver.WorkOne | src/data/CaptureSaver.cpp:209-245 | Takes the oldest job and counts it, in its state and in the status, as saved or failed. |
| CaptureSavers.CaptureSaver.Loop | src/data/CaptureSaver.cpp:209-245 | Run to an empty queue, every queued job ends in the state of its own outcome. |
| StackImage.WidthWrapExactly | src/data/StackImage.cpp:18-21 | The payload check keeps every read in bounds for all frames of a width if and only if the width is below 2^30. |
| StackImage.ReadableExactly | src/data/StackImage.cpp:23-27 | All reads of a frame's samples are in bounds if and only if its last row, without padding, ends inside the payload. |
| StackImage.DecodedExactly | src/data/StackImage.cpp:23-27 | The value of every 32-bit pattern: (2^23 + m) * 2^(e - 150) for a normal number, m * 2^-149 for a subnormal one, negated with the sign bit, and the infinities and NaN. |
| StackImage.BitsKeepOrder | src/data/StackImage.cpp:23-27 | Non-negative finite patterns decode in strictly increasing order of their 32-bit value. |
| StackImage.OneIsOne | src/data/StackImage.cpp:23-27 | The bytes 00 00 80 3F are 1. |
| StackImage.HasSf32Exactly | src/data/StackImage.cpp:18-21 | Below width 2^30 the check passes if and only if there is an image, its rows hold a sample for each column, padded or not, and all rows are in the payload. |
| StackImage.SampleBound | src/data/StackImage.cpp:36-45 | The sample fits its reserve and is below 2 * kMaxSamples; it is at most kMaxSamples, as the comment says, if and only if the image is smaller than that or a multiple of it. |
| StackGray.PercentileIsOrderStatistic | src/data/StackImage.cpp:45-49 | The level picked is the order statistic of rank floor(0.995 (m - 1)): at most that many samples are below it, more are not above it. |
| StackGray.PixelMonotone | src/data/StackImage.cpp:56-66 | Gray is monotone in the sample, infinities included. |
| StackGray.BlackExactly | src/data/StackImage.cpp:61-65 | A sample bypasses the table if and only if it is NaN, minus infinity, zero or below. |
| StackGray.WhiteLands | src/data/StackImage.cpp:49-56 | The percentile lands at entry 3685, nine tenths of the table, and what is at or above white at its end; without a percentile above black, white is 1. |
| StackGray.ExposureInvariant | src/data/StackImage.cpp:31-69 | Scaling every sample by one factor leaves the gray image as it is, whenever the percentile is above black. |
| StackGray.RenderStackGray | src/data/StackImage.cpp:31-69 | width * height pixels, each as specified; nothing for an incomplete frame. |
| StackGray.PixelExactly | src/data/StackImage.cpp:56-66 | Which table entry a sample is shown as: e when it is e whole steps of a 4095th of the white level, the last from there on, black for NaN and what is not above 0. |
| StackGray.SampledIsEvery | src/data/StackImage.cpp:38-44 | Exactly every q-th sample is taken, q the size in units of 2^18 samples but at least 1; what is not finite counts as 0. |
| StackGray.ValueOfBytes | src/data/StackImage.cpp:23-27 | The sample of row y and column x is decoded from the four bytes at y * bytes_per_line + 4 x. |
| StackGray.BytesKeepOrder | src/data/StackImage.cpp:56-66 | From bytes to picture: of two samples that are finite and not negative, the one with the larger 32-bit pattern is not darker. |
| StackGray.UniformIsWhitePoint | src/data/StackImage.cpp:45-66 | An image of one value above black is shown at the white point, entry 3685, throughout. |
| StackGray.TakeSample | src/data/StackImage.cpp:38-44 | The strided loop takes exactly the specified samples. |
| Npy.HeaderIs128 | src/data/StackImage.cpp:71-87 | For all 64-bit sizes the header is 128 bytes, with 118 in its 16-bit length field. |
| Npy.HeaderBytes | src/data/StackImage.cpp:71-87 | The header byte by byte: magic, version, length, dictionary with the shape as (rows, cols), padding, newline. |
| Npy.HeaderReadsBack | src/data/StackImage.cpp:71-87 | A version 1.0 reader (NumPy NEP 1, section Format Specification: Version 1.0) gets back rows and columns and finds the data at byte 128. |
| Npy.StackImageNpy | src/data/StackImage.cpp:89-99 | The file reads back as (height, width), holds every sample at its row-major place, and nothing else: no padding byte is copied. |

## Left out

- OpenGL, ImGui, the window and its widgets; the consumer of
  src/ui/CameraView.cpp:142-175 appears as steps of `BufferOwnership`.
- The ixwebsocket transport, reconnection timing, HTTP refusals and JSON text:
  a message is a datatype, a connection a pair of FIFO channels.
- Configuration loading and the clamping of request parameters.
- Client::start and its polling; the waits of runCapture end where the given
  reports end, so a timeout is one of the runs.
- Clocks: the time is an argument. File system: whether a directory or file can
  be written is an argument; the sidecar's JSON content is not modelled.
- focus_fom_region and the other per-server metadata (state, limits, raw
  stream), which only one branch each stores and reads.
- The client-side frames-per-second counter of src/data/CameraStore.cpp:113-125.
- Floating point: doubles are reals, a float's wire bytes are opaque except in
  StackImage.Decoded, and the gamma table is any monotone table, so rounding is
  not modelled.
- Weak memory: use_count is read atomically and every lock-protected section is
  one step.
- Liveness: nothing is said about wake-ups or fairness.
- Sequence counters, run numbers and the received count are unbounded numbers,
  as are sizes of memory; allocation failure is not modelled.
- std::sort and std::nth_element are modelled by what they establish, with the
  insertion sort of `Sorting`: the order it fixes among equal ids of an outcome
  is one of those std::sort may leave.
- The order in which std::unordered_map is traversed is left open in the
  methods that loop over one.
- CaptureSavers.CaptureSaver.WorkOne: asks that a stacked image which passes the
  payload check is read inside its payload, and runs one turn of the worker
  without interruption; the interleavings are in SaverQueue.
- StackGray.RenderStackGray: asks that a frame which passes the payload check is
  read inside its payload, because the program has no meaning otherwise; for
  which widths the check ensures that is WidthWrapExactly.
- StackGray.TakeSample: asks the same.
- Npy.StackImageNpy: asks the same.
- CaptureSavers.CaptureSaver.WriteJob: asks the same of a stacked image; an
  error's text stands for its cause only.
- CaptureSavers.CaptureSaver.Loop: asks the same of every queued stacked image.
- SaverQueue.FinalStatesStay: every call of save is taken to come with a state
  of its own, and none to be under way when the destructor runs.
- Captures asked for past the client, as the control panel does, are runs of
  `CaptureLink` but not of `CaptureSystem`.
- CaptureSystem.StaleCallbackArises: one run of the family; the exact condition
  is StaleCallbackFoolsExactly.
