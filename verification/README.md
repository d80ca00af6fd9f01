# Models and proofs for the conference server

This project models the parts of the conference server whose correctness depends on long
histories, wrap-around arithmetic or recursion, and proves what they keep. All files belong to one
Dafny project: `dafny verify dfyconfig.toml`.

**RTP sample builder** (`Serial`, `SampleBuffer`, `SampleBufferInvariant`, `SampleBufferAccount`,
`SampleRuns`, `SampleFrames`, `SampleWaits`, `SamplePlacing`, `SampleWitnesses`, `SampleStream`,
`SampleOrder`, `SamplePanic`, `RingStore`, `SampleBuilder`, `SampleBuilderCheck`).
The builder is modelled twice. `SampleBuffer` sees it as a window of slots over consecutive
sequence numbers; the class `SampleBuilder` is the circular array with 16-bit indices that is
changed in place, and every method is proved to do to the array what the window operation does.
About all runs of `Push`, `Pop`, `ForcePop` and `Close` it is proved that

- `check()` passes after every call, in every run and for every codec, if and only if
  `maxLate <= 0x4000` (`New` admits up to 0x7FFF; above the bound three calls on the ring make it
  panic, and up to the same bound exactly no 16-bit index sum wraps);
- pushed packets are, as a multiset, exactly those still buffered, those given to the release
  handler and those discarded as late, and `Close` leaves nothing buffered;
- while `lastSeqno` stays valid, packets leave in strictly increasing unwrapped order, however
  often the 16-bit number wraps;
- every sample is one frame: consecutive sequence numbers, one timestamp, a start flag on the first
  packet only and an end flag on the last only; all its packets are taken exactly when the frame
  does not lie across the end of the ring, otherwise all but the last, and a run of nine calls
  reaches that case;
- `Push` updates a map from sequence numbers to packets: a packet that is not late and fits is added
  under its number and nothing else changes; it is exactly stated which packets are discarded,
  refused, or make older frames leave;
- an unforced `Pop` delivers exactly the complete frame at the tail with nothing missing before it;
- a frame whose packets arrive in any order comes out whole if its first packet arrives first; if
  another one does, the frame lies across the end of the ring and loses its last packet;
- a stream without loss whose frames fit and end in a tail mark comes out whole and in order, with
  one `Pop` after each `Push`; without tail marks frames can lose a packet;
- the panic "this is impossible" is possible, and happens exactly when a full buffer meets the next
  packet of its oldest timestamp while a later slot begins a frame or has another timestamp;
- `ForcePop` returning nothing means an empty buffer only if the window did not end in an open
  frame. The comment at `pkg/samplebuilder/samplebuilder.go:543-544` promises an empty buffer always,
  which one push and one `ForcePop` refute.

**Room patterns and cluster dispatch** (`RoomPattern`, `PatternTree`, `PatternIndex`, `Dispatch`,
`Cluster`, `ClusterRun`). The matcher decides the declarative glob relation; the tree refines a
finite map from patterns to data and leaves no dead nodes below its first level; a search reports the
data of exactly the stored patterns that the matcher accepts. In a cluster of nodes and an append-only
log every node consumes every record exactly once, and what comes of it follows from the router: one
callback per subscribed id, nothing if another node is addressed, and a panic of the reader exactly
if the record names that reader, which is not the sender, and an invalid room. `Emit` lets such a
record through, because the sender looks at `NodeTo` before it looks at the room. Real `Messager`
objects connected by a log follow this model command by command.

**Membership** (`Membership`). Join and leave messages in any order, repeated or not, give a
membership that depends on the largest ids only. With tombstones being purged, membership of a key
stays right throughout a run if and only if no join of the key arrives while it is absent, with an id
above its tombstone but not above a purged one. A box of rooms follows this for every sequence of
messages.

**Recording** (`DtsExtractor`, `DtsStreams`, `Nalus`, `Recording`, `VideoWriter`, `Clock`, `Division`).
Decoding timestamps strictly increase and the counters stay bounded; for streams with reordered
pictures they are the ideal ones, once the amount of reordering is known; splitting undoes Annex B framing, with
mixed start codes exactly when no 4-byte code follows a 3-byte one; playlist byte ranges tile the file
and name the bytes of each part; durations telescope; accepted samples are all stored, the first one
of every later part twice (`pkg/segmenter/segmenter.go:592` and `:576`). Writing the index divides by
the duration of each segment and by their sum, so it panics exactly on a part that ends where it
began or, when the track is closed, where the first one began; samples that come through the timestamp
extractor never give rise to such a part. Clock conversions are exact up to rounding down if and only
if the result fits 64 bits.

**Framing and track patterns** (`Framing`, `TrackPattern`). Decoding undoes encoding exactly for
events without a semicolon; a validated pattern never makes the matcher read past its arguments, and
the filter divides its input and is idempotent.

## Model

| member | source | states |
|---|---|---|
| `Serial.Truncation` | pkg/samplebuilder/samplebuilder.go:252-264 | The case-split additions and subtractions used throughout are 16-bit and 32-bit truncation of the exact result. |
| `SampleBufferInvariant.InvImpliesChecked` | pkg/samplebuilder/samplebuilder.go:81-132 | The inductive invariant implies everything `check()` tests. |
| `SampleBufferInvariant.ScreenKeeps` | pkg/samplebuilder/samplebuilder.go:251-271 | A packet that passes the late test lies strictly after `lastSeqno`; the forward move of `lastSeqno` keeps it before the tail and in order with all earlier values. |
| `SampleBufferInvariant.ReleaseKeeps` | pkg/samplebuilder/samplebuilder.go:186-211 | Releasing the tail keeps the invariant, in particular `lastSeqno` before the new tail. |
| `SampleBufferInvariant.DropKeeps` | pkg/samplebuilder/samplebuilder.go:222-244 | Dropping a frame keeps the invariant. |
| `SampleBufferInvariant.AppendKeeps` | pkg/samplebuilder/samplebuilder.go:297-334 | Adding the next packet keeps the invariant, also after a drop and when it panics. |
| `SampleBufferInvariant.LeapKeeps` | pkg/samplebuilder/samplebuilder.go:336-381 | Adding a packet beyond a gap keeps the invariant. |
| `SampleBufferInvariant.InsertFlagged` | pkg/samplebuilder/samplebuilder.go:424-459 | Putting a packet between others leaves every adjacent pair agreeing on the frame boundary: the end flag of one equals the start flag of the next, and a change of timestamp is a boundary. |
| `SampleBufferInvariant.BehindKeeps` | pkg/samplebuilder/samplebuilder.go:383-460 | Adding an older packet keeps the invariant, including when the tail moves back to it. |
| `SampleBufferInvariant.PushKeeps` | pkg/samplebuilder/samplebuilder.go:250-460 | Every `Push`, of any packet, keeps the invariant. |
| `SampleBufferInvariant.PopKeeps` | pkg/samplebuilder/samplebuilder.go:462-532 | Every `Pop` and `ForcePop`, with any depacketizer, keeps the invariant. |
| `SampleBufferInvariant.ReleaseAllKeeps` | pkg/samplebuilder/samplebuilder.go:214-218 | Releasing everything keeps the invariant. |
| `SampleBufferAccount.ReleaseAccount` | pkg/samplebuilder/samplebuilder.go:186-211 | A release moves one packet from the buffer to the handler and loses none. |
| `SampleBufferAccount.PushAccount` | pkg/samplebuilder/samplebuilder.go:250-460 | A `Push` adds exactly its packet to buffered, released and discarded packets together; a panic adds nothing and loses nothing. |
| `SampleBufferAccount.PopAccount` | pkg/samplebuilder/samplebuilder.go:462-532 | Popping, with or without a depacketizer error, neither loses nor repeats a packet. |
| `SampleRuns.RunKeepsInvariant` | pkg/samplebuilder/samplebuilder.go:81-132 | For `maxLate <= 0x4000` every state of every run from `New` satisfies the invariant. |
| `SampleRuns.InvariantIffBound` | pkg/samplebuilder/samplebuilder.go:50-132 | What `check()` tests holds in all states of all runs if and only if `maxLate <= 0x4000`. |
| `SampleRuns.WideBuilderBreaks` | pkg/samplebuilder/samplebuilder.go:54-56 | For every larger `maxLate`, two pushes half the number range apart and one `ForcePop` leave `lastSeqno` not before the tail. |
| `SampleRuns.RunConserves` | pkg/samplebuilder/samplebuilder.go:184-460 | After every run without panic, buffered, released and discarded packets are together exactly the pushed ones. |
| `SampleRuns.CloseEmpties` | pkg/samplebuilder/samplebuilder.go:549-551 | After `Close` nothing is buffered; released and discarded packets are all that were pushed. |
| `SampleRuns.LeaveInOrder` | pkg/samplebuilder/samplebuilder.go:186-271 | Between two invalidations of `lastSeqno` packets leave the tail with strictly increasing unwrapped sequence numbers. |
| `SampleRuns.PanicStays` | pkg/samplebuilder/samplebuilder.go:303-305 | A run that has panicked does not change any more. |
| `SamplePlacing.PushStores` | pkg/samplebuilder/samplebuilder.go:250-460 | A packet that is not late and for which there is room is stored under its number, in a gap, before the window or beyond it; every other number keeps its packet and nothing is handed over. |
| `SamplePlacing.PushRefuses` | pkg/samplebuilder/samplebuilder.go:290-296 | A packet whose number is taken, or that is too far behind the newest, goes to the release handler and the window stays as it is. |
| `SamplePlacing.PushMakesRoom` | pkg/samplebuilder/samplebuilder.go:297-381 | A packet beyond the newest for which there is no room: the frames up to the first boundary at which there is room are handed over in order, and no more; then it is stored, and all other numbers from there on keep their packets. |
| `SamplePlacing.PushSqueezes` | pkg/samplebuilder/samplebuilder.go:299-311 | The next packet of the oldest timestamp of a full builder: the oldest frame is handed over, and then the packet, or `Push` panics if anything else is left. |
| `SamplePlacing.PushDiscardsIff` | pkg/samplebuilder/samplebuilder.go:251-258 | A packet is discarded if and only if it lies at or behind `lastSeqno` by at most `maxLate`, and then nothing else happens. |
| `SamplePlacing.PushMoves` | pkg/samplebuilder/samplebuilder.go:251-271 | A packet behind `lastSeqno` by more invalidates it; one ahead moves it to `maxLate` before the packet, not over the oldest packet and never back. |
| `SamplePlacing.MakeRoomStops` | pkg/samplebuilder/samplebuilder.go:345-355 | Frames are dropped up to the first boundary at which there is room. |
| `SamplePanic.DropEmpties` | pkg/samplebuilder/samplebuilder.go:222-244 | A drop empties the buffer exactly when no later packet begins a frame or has another timestamp. |
| `SamplePanic.PanicIff` | pkg/samplebuilder/samplebuilder.go:297-305 | `Push` panics exactly when an admitted packet is the next one, the buffer is full, the oldest packet has the same timestamp, and a later one begins a frame or has another timestamp. |
| `SamplePanic.PanicReachable` | pkg/samplebuilder/samplebuilder.go:302-305 | Five consecutive packets of one timestamp, the first and third beginning a frame, make a new builder of the smallest size panic. |
| `SampleFrames.DropSheds` | pkg/samplebuilder/samplebuilder.go:222-244 | A drop takes a prefix of the window, hands its packets over in order, and never passes over the beginning of a later frame. |
| `SampleFrames.FrameAtTail` | pkg/samplebuilder/samplebuilder.go:478-500 | What lies between a start flag at the tail and the first end flag is one frame of consecutive packets and one timestamp, flagged at its two ends only. |
| `SampleFrames.PopYieldsFrame` | pkg/samplebuilder/samplebuilder.go:462-532 | Every sample is the decoded payloads of one frame of the window; released are, in order, what lay before it and its packets, all of them unless the frame wraps around the ring, then all but the last. Its ticks are the distance to the timestamp popped before, or else to the first frame dropped. |
| `SampleWitnesses.WrappedFrameCut` | pkg/samplebuilder/samplebuilder.go:502-516 | A run from `New` after which a complete frame of four packets wraps around the ring: the sample has the data of three, and the last packet stays behind. |
| `SampleFrames.ForcePopFinds` | pkg/samplebuilder/samplebuilder.go:540-547 | `ForcePop` reaches the depacketizer exactly when some frame is complete; if it finds nothing the buffer ends up empty exactly when the window did not end in an open frame, and otherwise holds just that open frame. |
| `SampleWaits.ForcePopFirst` | pkg/samplebuilder/samplebuilder.go:462-547 | The sample of `ForcePop` is the first complete frame of the window. |
| `SampleWaits.PopWaits` | pkg/samplebuilder/samplebuilder.go:462-500 | `Pop`, not forced, gives up stretches without a frame start for as long as the window is longer than `maxLate`; it then reaches the depacketizer if and only if a complete frame begins there and no packet is missing before it, and delivers that frame; otherwise it changes nothing else. |
| `SampleWaits.DropStops` | pkg/samplebuilder/samplebuilder.go:222-244 | A drop goes exactly to the next packet that begins a frame or has another timestamp, and `lastSeqno` is that of the last packet before it. |
| `SampleWaits.TakeStops` | pkg/samplebuilder/samplebuilder.go:507-516 | A depacketizer error is that of one packet: those before it were decoded, and they and it have left. |
| `SampleWitnesses.OpenFrameStays` | pkg/samplebuilder/samplebuilder.go:498-547 | After one push of a packet that begins a frame, `ForcePop` finds nothing and the buffer is not empty. |
| `SampleStream.StreamComesOut` | pkg/segmenter/segmenter.go:1111-1126 | For a stream without loss whose frames have at most `2 * maxLate` packets and a tail mark on the last, with one `Pop` after each `Push`: no call panics, every frame comes out whole and in order, every packet is handed over in order, and the builder ends up empty. |
| `SampleWitnesses.UnmarkedFrameCut` | pkg/segmenter/segmenter.go:1111-1126 | Without tail marks a stream of two-packet frames does not come out whole: the third frame wraps around the ring and loses a packet. |
| `SampleStream.FrameRun` | pkg/samplebuilder/samplebuilder.go:250-532 | Within a frame nothing comes out until its last packet, and then the whole frame does, with the ring starting again at 0. |
| `SampleStream.ScreenPasses` | pkg/samplebuilder/samplebuilder.go:251-271 | No packet of such a stream is late, and `lastSeqno` keeps its value while the frame is gathered. |
| `SampleOrder.AnyOrder` | pkg/samplebuilder/samplebuilder.go:250-532 | The packets of a frame arriving in any order, with a `Pop` after each: if the first of the frame arrives first, the frame comes out whole with the last arrival; if not, and the frame is not longer than `maxLate`, the sample lacks the last packet, which stays behind. |
| `SampleOrder.StreamAnyOrder` | pkg/segmenter/segmenter.go:1111-1126 | A stream whose packets arrive out of order within each frame, the first of each frame first, comes out like one in order. |
| `SampleOrder.Arrives` | pkg/samplebuilder/samplebuilder.go:297-460 | Each arrival of a frame fills its place, whether next, ahead, in a gap or in front, with no flag set inside the frame. |
| `SampleOrder.PopStays` | pkg/samplebuilder/samplebuilder.go:468-500 | As long as a packet of the frame is missing, `Pop` changes nothing. |
| `RingStore.Backwards` | pkg/samplebuilder/samplebuilder.go:396-414 | The index comparison moves the tail exactly when the packet lies before the window, for contiguous and wrapped windows alike. |
| `RingStore.ModAround` | pkg/samplebuilder/samplebuilder.go:370 | Reducing an index sum modulo the ring size gives the ring position that many places on. |
| `SampleBuilder.FitsUpToBound` | pkg/samplebuilder/samplebuilder.go:346-370 | For `maxLate <= 0x4000` neither `Len() + count` nor `head + offset` wraps around 16 bits. |
| `SampleBuilder.SampleBuilder.constructor` | pkg/samplebuilder/samplebuilder.go:50-67 | A new builder is empty, with `maxLate` brought into 2..0x7FFF and a ring of twice that plus one. |
| `SampleBuilder.SampleBuilder.SkipMissing` | pkg/samplebuilder/samplebuilder.go:203-205 | The tail stops at the next packet, or at the head. |
| `SampleBuilder.SampleBuilder.PopTail` | pkg/samplebuilder/samplebuilder.go:192-200 | The packet at the tail goes to the release handler, its slot is cleared and `lastSeqno` is its number. |
| `SampleBuilder.SampleBuilder.Release` | pkg/samplebuilder/samplebuilder.go:186-211 | The array afterwards represents the window without its first packet and the gap behind it. |
| `SampleBuilder.SampleBuilder.ReleaseAll` | pkg/samplebuilder/samplebuilder.go:214-218 | The array afterwards represents the emptied window. |
| `SampleBuilder.SampleBuilder.DropRest` | pkg/samplebuilder/samplebuilder.go:232-238 | The array follows the release of the other packets of the frame. |
| `SampleBuilder.SampleBuilder.MarkTimestamp` | pkg/samplebuilder/samplebuilder.go:239-242 | A timestamp is kept exactly if there was none. |
| `SampleBuilder.SampleBuilder.Drop` | pkg/samplebuilder/samplebuilder.go:222-244 | The array follows the drop of the window; the reported timestamp is that of the oldest packet. |
| `SampleBuilder.SampleBuilder.StoreFirst` | pkg/samplebuilder/samplebuilder.go:273-284 | The window is the one packet. |
| `SampleBuilder.SampleBuilder.Refuse` | pkg/samplebuilder/samplebuilder.go:291-295 | The packet goes to the release handler and nothing else changes. |
| `SampleBuilder.SampleBuilder.Boundary` | pkg/samplebuilder/samplebuilder.go:314-325 | A packet begins a frame exactly if the codec says so, the newest packet ends one, or the timestamp changes; the newest packet then ends one. |
| `SampleBuilder.SampleBuilder.Attach` | pkg/samplebuilder/samplebuilder.go:314-332 | The window grows by the packet at its end, both neighbours agreeing on the frame boundary. |
| `SampleBuilder.SampleBuilder.PushNext` | pkg/samplebuilder/samplebuilder.go:297-334 | Array and panic outcome follow the window operation, with or without a drop. |
| `SampleBuilder.SampleBuilder.MakeRoom` | pkg/samplebuilder/samplebuilder.go:345-355 | Frames are dropped until the gap and the packet fit, unless the sum wraps; the newest packet stays or the buffer is empty. |
| `SampleBuilder.SampleBuilder.StoreAhead` | pkg/samplebuilder/samplebuilder.go:370-378 | If the sums do not wrap, the window grows by the gap and the packet. |
| `SampleBuilder.SampleBuilder.PushAhead` | pkg/samplebuilder/samplebuilder.go:336-381 | If the sums do not wrap, the array follows the leap of the window. |
| `SampleBuilder.SampleBuilder.Reach` | pkg/samplebuilder/samplebuilder.go:396-414 | Index and tail are those of the window extended back to the packet. |
| `SampleBuilder.SampleBuilder.SettleBefore` | pkg/samplebuilder/samplebuilder.go:425-439 | The start flag agrees with the end flag of the slot before. |
| `SampleBuilder.SampleBuilder.SettleAfter` | pkg/samplebuilder/samplebuilder.go:440-451 | The end flag agrees with the start flag of the slot after. |
| `SampleBuilder.SampleBuilder.StoreBetween` | pkg/samplebuilder/samplebuilder.go:424-459 | The array represents the window with the packet inserted and the flags settled with both neighbours. |
| `SampleBuilder.SampleBuilder.PushBehind` | pkg/samplebuilder/samplebuilder.go:383-460 | The array follows the window for packets too old, repeated, before the tail and in a gap. |
| `SampleBuilder.SampleBuilder.Admit` | pkg/samplebuilder/samplebuilder.go:251-271 | Admission and the new `lastSeqno` are those of the window model; a late packet is discarded. |
| `SampleBuilder.SampleBuilder.Push` | pkg/samplebuilder/samplebuilder.go:250-460 | Array and panic outcome follow the window model whenever the index sums fit; the self-call is made on an empty builder only. |
| `SampleBuilder.SampleBuilder.FindEnd` | pkg/samplebuilder/samplebuilder.go:484-496 | The walk stops at the first slot that ends a frame or is missing, or at the head, and reports which. |
| `SampleBuilder.SampleBuilder.TakePackets` | pkg/samplebuilder/samplebuilder.go:507-516 | The packets are decoded and released one by one, stopping at a decoding error. |
| `SampleBuilder.SampleBuilder.CountOf` | pkg/samplebuilder/samplebuilder.go:503-506 | The 16-bit count is the length of the frame, less one if the frame wraps around the ring. |
| `SampleBuilder.SampleBuilder.Span` | pkg/samplebuilder/samplebuilder.go:469-470 | The difference of newest and oldest sequence number is the window length less one. |
| `SampleBuilder.SampleBuilder.EmitFrame` | pkg/samplebuilder/samplebuilder.go:502-531 | Array and sample are those of the window model. |
| `SampleBuilder.SampleBuilder.Pop` | pkg/samplebuilder/samplebuilder.go:462-532 | The jumps to `again` terminate; array and result are those of the window model. |
| `SampleBuilder.SampleBuilder.CheckSlot` | pkg/samplebuilder/samplebuilder.go:104-125 | On a ring of any size, the loop body finds a fault exactly when number or flags of the slot it looks at are wrong. |
| `SampleBuilder.SampleBuilder.Check` | pkg/samplebuilder/samplebuilder.go:81-132 | On a ring of any size, in order or not, `check()` passes exactly when the ring is in order. |
| `SampleBuilder.SampleBuilder.Close` | pkg/samplebuilder/samplebuilder.go:549-551 | Everything is released and the window is empty. |
| `SampleBuilderCheck.CheckMeansChecked` | pkg/samplebuilder/samplebuilder.go:81-132 | For `maxLate <= 0x4000`, and a ring that represents a window, `check()` passes exactly when the window satisfies the checked properties. |
| `SampleBuilderCheck.CheckNeedsOrder` | pkg/samplebuilder/samplebuilder.go:94-100 | On a ring of any size, `check()` panics if `lastSeqno` does not lie before the tail. |
| `SampleBuilderCheck.Execute` | pkg/samplebuilder/samplebuilder.go:50-551 | For `maxLate <= 0x4000`, any sequence of calls on the real ring follows the run of the model, panics included, and `check()` passes afterwards. |
| `SampleBuilderCheck.ExecuteWide` | pkg/samplebuilder/samplebuilder.go:50-551 | For every larger `maxLate`, three calls on the real ring after which `check()` panics. |
| `SampleBuilderCheck.FitsIffBound` | pkg/samplebuilder/samplebuilder.go:346-370 | The 16-bit index sums do not wrap in any state of any run, for any packet, if and only if `maxLate <= 0x4000`. |
| `RoomPattern.JoinOfSplit` | signal/utils.go:322-329 | Joining the segments of a text gives the text back. |
| `RoomPattern.SplitOfJoin` | signal/utils.go:322-329 | Splitting joined segments gives the segments back. |
| `RoomPattern.ValidPatternMeans` | signal/utils.go:304-311 | A pattern is accepted exactly when none of its segments is empty. |
| `RoomPattern.ValidRoomMeans` | signal/utils.go:313-320 | A room is accepted exactly when its segments are non-empty and free of stars. |
| `RoomPattern.GlobStars` | signal/utils.go:340-355 | A run of `**` matches exactly when what follows it matches some suffix of the room. |
| `RoomPattern.TrySuffixes` | signal/utils.go:349-355 | Trying every suffix but the empty one decides whether some suffix matches, because the pattern goes on with a segment. |
| `RoomPattern.MatchStars` | signal/utils.go:340-355 | Trying the suffixes after a run of `**` decides the glob relation, although the empty suffix is not tried. |
| `RoomPattern.MatchParts` | signal/utils.go:331-377 | The index loop stays in range, terminates and decides the glob relation: `*` one segment, `**` any number. |
| `RoomPattern.MatchRoom` | signal/utils.go:322-329 | The shortcuts agree with the glob relation; invalid arguments panic. |
| `PatternTree.PutGet` | signal/utils.go:226-276 | Storing at a path changes what is stored there and nowhere else. |
| `PatternTree.EraseLookup` | signal/utils.go:138-153 | Removing a path, with the nodes that became empty, removes the data of that path only. |
| `PatternTree.UpdateGet` | signal/utils.go:226-276 | An update gives the mapper the stored data and stores what it answers, changing no other path. |
| `PatternTree.EraseUndoesPrepare` | signal/utils.go:138-153 | Removing also takes away the nodes that the descent created for an absent pattern. |
| `PatternTree.UpdateTidy` | signal/utils.go:211-276 | No node below the first level is left without data in its subtree. |
| `PatternIndex.FoundStep` | signal/utils.go:172-184 | With segments left, the matching data below a node are those found through its `**` child, its `*` child and the child of that name. |
| `PatternIndex.FoundStar` | signal/utils.go:155-191 | Below `**`, matching data are the node's own, those for all segments, and those for each proper suffix. |
| `PatternIndex.CollectChain` | signal/utils.go:156-168 | Without segments left, the results are the data of patterns that match nothing more. |
| `PatternIndex.CollectTree` | signal/utils.go:155-191 | The search terminates and adds exactly the data of the matching patterns below the node. |
| `PatternIndex.UpdateRepresents` | signal/utils.go:226-276 | Updating the tree is updating one key of the finite map it represents. |
| `PatternIndex.FoundMeansMatching` | signal/utils.go:278-329 | Search in the tree and direct matching of all stored patterns agree, for every valid room. |
| `PatternIndex.RawTree` | signal/utils.go:126-136 | The listing of a subtree holds its data under the full patterns, and nothing else. |
| `PatternIndex.PatternMap.constructor` | signal/utils.go:199-201 | A new map has no entries. |
| `PatternIndex.PatternMap.UpdatePatternData` | signal/utils.go:226-276 | The map changes at one key, as the mapper decides from the old value; an invalid pattern panics and changes nothing. |
| `PatternIndex.PatternMap.Collect` | signal/utils.go:278-302 | The reported data are exactly those of the stored patterns that `MatchRoom` accepts; an invalid room panics. |
| `PatternIndex.PatternMap.RawData` | signal/utils.go:203-209 | The listing is the whole map. |
| `Dispatch.RewireOne` | signal/messager.go:330-365 | Registering or removing an id under one more pattern touches no other id and no other pattern. |
| `Dispatch.OneCallbackPerTarget` | signal/messager.go:381-387 | Merging the reported callback maps leaves exactly one callback per id subscribed under a matching pattern, however often a pattern was reported. |
| `Dispatch.SentIff` | signal/messager.go:367-388 | The sender gets past its own consumption exactly if the room is valid or another node is addressed. |
| `Dispatch.OutcomeOf` | signal/messager.go:367-388 | A message that was sent makes a node panic exactly if it addresses that node, which is not the sender, with an invalid room; it starts nothing exactly if it addresses another node; otherwise one callback per target id. |
| `Dispatch.Messager.constructor` | signal/messager.go:101-157 | A new node has no subscriptions. |
| `Dispatch.Messager.OnMessage` | signal/messager.go:330-348 | The id is registered under every given pattern up to the first invalid one, which panics, and nothing else changes. |
| `Dispatch.Messager.OffMessage` | signal/messager.go:350-365 | The id is removed from every given pattern up to the first invalid one, which panics, and nothing else changes. |
| `Dispatch.Messager.ConsumeMessage` | signal/messager.go:367-388 | A message for this node starts one callback per target id; one for another node, or without room, starts none; an invalid room panics. |
| `Dispatch.Messager.Emit` | signal/messager.go:701-766 | Refused exactly without router or room or with a foreign `NodeFrom`; otherwise consumed here, and the record carries this node's name. |
| `Dispatch.Messager.OnTopic` | signal/messager.go:180-193 | A record is consumed unless this node sent it; a record without router panics. |
| `Cluster.ApplyConsistent` | signal/messager.go:180-193 | Every emission, read and change of subscriptions keeps the delivery counts right and the outcomes as the routers decide. |
| `Cluster.ExactlyOnce` | signal/messager.go:701-766 | Over every run each node consumes each record once: the sender when it emits, every other node when it reads. |
| `Cluster.AllDelivered` | signal/messager.go:367-411 | A node that has sent or read a record has exactly one event of consuming it: a panic exactly if the record poisons it, nothing exactly if it is for another node, otherwise the callbacks of the subscriptions of that moment. |
| `Cluster.ValidRoomDelivered` | signal/messager.go:367-411 | A record for a valid room is delivered to every node it is for. |
| `Cluster.PoisonedRead` | signal/messager.go:367-388 | A run of two actions: one node sends to another with an invalid room, unharmed, and the other panics on reading. |
| `ClusterRun.Network.constructor` | signal/messager.go:101-157 | Connected nodes with an empty log are in a starting state of the model. |
| `ClusterRun.Network.Rewire` | signal/messager.go:330-365 | The subscriptions of one real object change as the command says, up to the first invalid pattern, and no other object changes. |
| `ClusterRun.Network.Register` | signal/messager.go:330-365 | Subscribing and unsubscribing on the real objects is the action of the model with the rewired subscriptions. |
| `ClusterRun.Network.Offer` | signal/messager.go:701-714 | What the sender makes of its message is an emission enabled in the model, refused exactly if that is not possible. |
| `ClusterRun.Network.Publish` | signal/messager.go:757-766 | Record and happening are appended, with the subscriptions the sender has then. |
| `ClusterRun.Network.Transmit` | signal/messager.go:701-766 | An emission on the real objects is the action of the model: refused, consumed and appended, or consumed only. |
| `ClusterRun.Network.Note` | signal/messager.go:180-193 | Noting a read keeps the objects in the state of the model. |
| `ClusterRun.Network.Consult` | signal/messager.go:180-193 | What a node makes of a record is a read enabled in the model. |
| `ClusterRun.Network.Take` | signal/messager.go:180-193 | Reading a record on the real objects is the action of the model. |
| `ClusterRun.Network.Do` | signal/messager.go:180-766 | Every command on the real objects is an enabled action of the model, or without effect exactly if it is refused or repeated. |
| `ClusterRun.Network.Execute` | signal/messager.go:180-766 | Any sequence of commands on the real objects follows the model. |
| `ClusterRun.Network.ConsumedOnce` | signal/messager.go:180-766 | The real objects consume each record sent or taken exactly once, with the outcome the router decides and one callback for each id the node had subscribed then under a matching pattern. |
| `Membership.RunRemembers` | client/websocket.go:61-125 | While no join was misled, absence of a key is backed by a tombstone, present or purged, with the largest leave id. |
| `Membership.Converges` | client/websocket.go:61-125 | A key is present exactly when its largest join id exceeds its largest leave id, and then carries that join id. |
| `Membership.RightThroughoutIff` | client/websocket.go:61-125 | Membership of a key is right at every point of a run if and only if no join of the key was misled. |
| `Membership.TimelyIsHarmless` | client/websocket.go:61-96 | No join is misled if none comes at or below a purged tombstone of its key. |
| `Membership.NeverCleaned` | client/websocket.go:71-125 | Without clean-ups no join is misled. |
| `Membership.MaxOfSets` | client/websocket.go:71-125 | The largest ids depend only on the sets of messages seen. |
| `Membership.PresentJoined` | client/websocket.go:71-96 | Who is present is stored exactly as one of the join messages had it. |
| `Membership.SameMessagesSameMembers` | client/websocket.go:71-125 | Sequences with the same message sets agree on who is present and with which join id, and on the name unless one id was used with two. |
| `Membership.JoinRightIff` | client/websocket.go:61-96 | After any run without a misled join, a further join leaves membership right exactly if it is not misled either: not absent with an id above its tombstone but not above a purged one. |
| `Membership.LateJoinAfterCleaning` | client/websocket.go:61-96 | A join repeated after its tombstone was purged is believed. |
| `Membership.LateJoinWithoutHarm` | client/websocket.go:61-96 | The same join does no harm while a newer one keeps the key present. |
| `Membership.JoinAnswers` | client/websocket.go:71-96 | A join answers true exactly if who is present has changed, and then only by that participant. |
| `Membership.LeaveAnswers` | client/websocket.go:98-125 | A leave returns exactly the participant that has disappeared, and no other disappears. |
| `Membership.CleanTakes` | client/websocket.go:61-69 | A clean-up takes exactly the tombstones older than 60 seconds, and nobody. |
| `Membership.Participants.Add` | client/websocket.go:71-96 | New state and answer of a join. |
| `Membership.Participants.Remove` | client/websocket.go:98-125 | New state and answer of a leave. |
| `Membership.Participants.Clean` | client/websocket.go:61-69 | Exactly the tombstones older than a minute go; the answer tells whether nothing is left. |
| `Membership.ParticipantsBox.ProcessJoin` | client/websocket.go:156-189 | The join takes effect in its room, which may be new, and in no other. |
| `Membership.ParticipantsBox.CleanRoom` | client/websocket.go:148-152 | One room is cleaned, and dropped if nothing is left. |
| `Membership.ParticipantsBox.Clean` | client/websocket.go:145-154 | Every tenth call cleans all rooms; dropping an empty room does not change what is known about it. |
| `Membership.ParticipantsBox.CleanAll` | client/websocket.go:148-152 | All rooms are cleaned, and those with nothing left are dropped. |
| `Membership.ParticipantsBox.Leave` | client/websocket.go:191-206 | The leave takes effect in its room, which may be new, and in no other. |
| `Membership.ParticipantsBox.ProcessLeave` | client/websocket.go:191-216 | The leave takes effect in its room and in no other, followed by the clean-up. |
| `Membership.ParticipantsBox.Process` | client/websocket.go:145-216 | After any sequence of join and leave messages on a new box, each room is in the state its own messages and the clean-ups at every tenth leave give, and membership is right for every key of which no join was misled. |
| `Membership.OneMessage` | client/websocket.go:145-216 | What one message does to each room, with the clean-up counted over all rooms. |
| `DtsExtractor.PocDiffRepresents` | pkg/segmenter/h264dtsextractor.go:62-69 | The picture order count difference is congruent to the exact one and lies in the half-open interval around zero. |
| `DtsExtractor.PocDiffUnique` | pkg/segmenter/h264dtsextractor.go:62-69 | It is the only such number. |
| `DtsExtractor.InnerKeeps` | pkg/segmenter/h264dtsextractor.go:90-197 | Reordered and paused frames stay in 0..50, the increment in 1..2, whatever the access unit; so divisors stay in 1..101. The previous DTS is not touched. |
| `DtsExtractor.InterpolationBetween` | pkg/segmenter/h264dtsextractor.go:137-192 | An interpolated DTS lies between the previous DTS and the PTS. |
| `DtsExtractor.ExtractAdvances` | pkg/segmenter/h264dtsextractor.go:200-219 | A timestamp given out exceeds the one before; an error leaves the previous one in place. |
| `DtsExtractor.OutputsIncrease` | pkg/segmenter/h264dtsextractor.go:200-219 | Over every run, with errors in between, the timestamps given out strictly increase. |
| `DtsExtractor.InOrderKeepsPts` | pkg/segmenter/h264dtsextractor.go:90-219 | A stream displayed in decoding order gets its PTS as DTS without error, however often the picture order count wraps. |
| `DtsStreams.StreamFromStart` | pkg/segmenter/h264dtsextractor.go:90-219 | A stream of pictures a period apart, displayed at most r places out of decoding order: the first keeps its PTS, the next r get steps of one millisecond, and from then on every picture gets the ideal timestamp, r periods behind its decoding place, up to a deviation that fades. |
| `DtsStreams.TunedRun` | pkg/segmenter/h264dtsextractor.go:90-219 | Once r is known, the timestamps go on like that for as long as the stream does, however often the count wraps and wherever IDR pictures come. |
| `DtsStreams.IdealMeans` | pkg/segmenter/h264dtsextractor.go:137-192 | The deviation never grows, and is 0 from the first picture on that is displayed r places early. |
| `DtsStreams.TunedStep` | pkg/segmenter/h264dtsextractor.go:144-192 | A picture at most r places out of order gets the timestamp one period after the previous one, with the q-th part of the deviation taken away. |
| `DtsStreams.TunedIdr` | pkg/segmenter/h264dtsextractor.go:133-141 | An IDR picture does too, and counting starts again. |
| `DtsStreams.LateRun` | pkg/segmenter/h264dtsextractor.go:148-189 | A picture displayed later than known: it and those after it get as many one-millisecond steps as it is later, and then the extractor knows. |
| `DtsStreams.EarlyRun` | pkg/segmenter/h264dtsextractor.go:148-175 | A picture displayed more than one place earlier than known: one step more than that. |
| `DtsStreams.LimitStep` | pkg/segmenter/h264dtsextractor.go:177-179 | A picture exactly one place earlier than known gets its PTS, if that is later than the previous timestamp. |
| `DtsStreams.TooFar` | pkg/segmenter/h264dtsextractor.go:166-185 | More than 50 reordered frames are refused in either direction. |
| `DtsStreams.LateTooSoon` | pkg/segmenter/h264dtsextractor.go:181-209 | A first step of one millisecond beyond the PTS is refused. |
| `DtsStreams.PausedStep` | pkg/segmenter/h264dtsextractor.go:144-151 | While it pauses, the extractor gives out one-millisecond steps whatever is displayed. |
| `DtsStreams.OddCount` | pkg/segmenter/h264dtsextractor.go:157-160 | After the first odd count everything is as if it had been counted in steps of one from the IDR picture on. |
| `DtsStreams.OpeningStep` | pkg/segmenter/h264dtsextractor.go:94-142 | A new parameter set makes the extractor forget what it has learnt. |
| `DtsStreams.Unordered` | pkg/segmenter/h264dtsextractor.go:124-126 | Where reordering is ruled out the PTS is kept. |
| `DtsStreams.NoTimestamp` | pkg/segmenter/h264dtsextractor.go:120-196 | Without a parameter set, with count type 1 or without a picture there is no timestamp and nothing changes. |
| `DtsExtractor.DTSExtractor.constructor` | pkg/segmenter/h264dtsextractor.go:84-88 | The initial state. |
| `DtsExtractor.DTSExtractor.ScanUnits` | pkg/segmenter/h264dtsextractor.go:91-118 | The last IDR and non-IDR units, and the state after the parameter sets, or after the first unreadable one. |
| `DtsExtractor.DTSExtractor.ExtractNonIDR` | pkg/segmenter/h264dtsextractor.go:144-192 | New state and guess follow the transition function. |
| `DtsExtractor.DTSExtractor.ExtractInner` | pkg/segmenter/h264dtsextractor.go:90-197 | New state and guess follow the transition function. |
| `DtsExtractor.DTSExtractor.ExtractDTS` | pkg/segmenter/h264dtsextractor.go:200-219 | New state and answer follow the transition function, within the bounds. |
| `Nalus.NextCode` | pkg/segmenter/segmenter.go:111-126 | The next start code cuts the remaining bytes into one piece and a rest that is cut in the same way. |
| `Nalus.Split264Nalus` | pkg/segmenter/segmenter.go:105-128 | The loop terminates and returns the pieces of the stream. |
| `Nalus.PiecesProper` | pkg/segmenter/segmenter.go:105-128 | Every piece is non-empty, which makes reading its first byte safe, and holds no 4-byte start code. |
| `Nalus.CodeAfterUnit` | pkg/segmenter/segmenter.go:111 | The first 4-byte code after a unit is the one that was written, even if the unit ends in zeros. |
| `Nalus.SplitOfFramed` | pkg/segmenter/segmenter.go:105-128 | Splitting units written behind 4-byte codes returns the units. |
| `Nalus.SplitOfMixed` | pkg/segmenter/segmenter.go:105-128 | With codes of both lengths, splitting returns the units if and only if no 4-byte code comes after a 3-byte one. |
| `Nalus.ShortCodeBeforeLongMissed` | pkg/segmenter/segmenter.go:111-115 | A concrete stream whose 3-byte code is overlooked because a 4-byte one follows. |
| `Recording.Storage.Write` | pkg/segmenter/storage.go:82-93 | Bytes are added to the part in preparation, or lost if the storage is closed; the file does not change. |
| `Recording.Storage.NextPart` | pkg/segmenter/storage.go:56-80 | The part is appended to the file and its size returned; the offset stays the file size. |
| `Recording.Storage.Close` | pkg/segmenter/storage.go:95-99 | The part in preparation still goes into the file. |
| `Recording.TiledCovers` | pkg/segmenter/segmenter.go:485-505 | Every byte of the file lies in the byte range of exactly one segment. |
| `Recording.HoldsMore` | pkg/segmenter/segmenter.go:492-505 | A segment more: each range still names the bytes of its part, and the durations grow by the new one. |
| `Recording.KeptFlush` | pkg/segmenter/segmenter.go:576-600 | Closing a part loses no accepted sample; the next part begins with a sample that will be stored twice. |
| `Recording.Track.constructor` | pkg/segmenter/segmenter.go:210-217 | A new track has an empty playlist. |
| `Recording.Track.TryReady` | pkg/segmenter/segmenter.go:240-277 | A track becomes ready once its codec is known, and stays so. |
| `Recording.Track.ZeroLengthMeans` | pkg/segmenter/segmenter.go:467-524 | While 64 bits hold the duration of the recording, what the index divides by is 0 exactly if the segment ends where it began. |
| `Recording.Track.FlushSegment` | pkg/segmenter/segmenter.go:463-524 | The playlist keeps naming the bytes of every part, and the durations grow by the time since the part began; it panics exactly if that time, or the total, is 0; without a part nothing happens. |
| `Recording.Track.FirstSample` | pkg/segmenter/segmenter.go:540-558 | The first sample starts the clock and waits. |
| `Recording.Track.NewPart` | pkg/segmenter/segmenter.go:578-600 | The part is flushed and the next one begins with the sample that arrived; fails exactly if marshalling does, panics exactly on a part without duration. |
| `Recording.Track.Enqueue` | pkg/segmenter/segmenter.go:552-600 | The sample that waited joins the part and the new one waits; the part is closed exactly under that condition, and failure and panic are those of the part that is closed. |
| `Recording.Track.WriteVideo` | pkg/segmenter/segmenter.go:526-602 | The playlist grows by one segment exactly if a sample waits and the new one is a random access point that is forced, or comes later than the segment duration after the part began; byte ranges tile the file, durations are positive and add up, no accepted sample is lost; a segment not ended by force lasts longer than the segment duration, and no random access point that late lies inside an open part; samples with negative base time are passed over; panics exactly if a part is closed at the time it began. |
| `Recording.EqualTimestamps` | pkg/segmenter/segmenter.go:526-602 | Two samples with the same timestamp, the second made to begin a part, reach the panic. |
| `Recording.ClosedAtOnce` | pkg/segmenter/segmenter.go:618-635 | A track closed at the time of its only sample reaches the panic. |
| `Recording.Track.WriteData` | pkg/segmenter/segmenter.go:604-616 | A track that is closed or not ready refuses and does not change; otherwise it panics exactly as `writeVideo` does. |
| `Recording.Track.FinishVideo` | pkg/segmenter/segmenter.go:526-602 | The waiting sample is written; durations then add up to the time between first sample and end, and the parts without their repeated first samples are the accepted samples; panics exactly if the end is where the last part, or the first, began. |
| `Recording.Track.LastPart` | pkg/segmenter/segmenter.go:578-600 | The last part is flushed; fails exactly if marshalling does, panics exactly if it ends where it, or the first, began. |
| `Recording.Track.TakeWaiting` | pkg/segmenter/segmenter.go:555-576 | The waiting sample becomes the last of the current part. |
| `Recording.Track.Close` | pkg/segmenter/segmenter.go:618-635 | The same for the whole track, with the storage closed; fails exactly if marshalling does; closing again, or before the track is ready, writes nothing. |
| `Recording.RatesBelow` | pkg/segmenter/segmenter.go:637-658 | If no segment exceeds a rate, the sums do not exceed it either. |
| `Recording.AverageBelow` | pkg/segmenter/segmenter.go:637-658 | With positive durations and sums within 64 bits the average does not exceed the largest rate, rounding included. |
| `Recording.IntOrder` | pkg/segmenter/segmenter.go:657 | The conversion to `int` keeps that order exactly if it makes neither or both negative. |
| `Recording.Bandwidth` | pkg/segmenter/segmenter.go:637-658 | In 64-bit words, the maximum is the largest segment rate and the average that of the sums; panics exactly if some duration, or the total, is 0. |
| `VideoWriter.NoticeMeans` | pkg/segmenter/segmenter.go:344-385 | The flags tell exactly which kinds of unit the sample has. |
| `VideoWriter.ParamsMean` | pkg/segmenter/segmenter.go:344-385 | The parameter sets known are the last ones seen, and a new segment is asked for exactly if one has changed. |
| `VideoWriter.NoticedIff` | pkg/segmenter/segmenter.go:357-369 | The sample is readable exactly if every parameter set that differs from the one before it can be parsed. |
| `VideoWriter.H264Writer.constructor` | pkg/segmenter/segmenter.go:210-217 | Nothing is recorded before a key frame. |
| `VideoWriter.H264Writer.Inspect` | pkg/segmenter/segmenter.go:344-385 | The loop gathers flags and parameter sets, stopping at an unreadable one. |
| `VideoWriter.H264Writer.KeyFramed` | pkg/segmenter/segmenter.go:416-424 | Recording begins with the first key frame. |
| `VideoWriter.H264Writer.Units` | pkg/segmenter/segmenter.go:292 | The units the sample is split into, none of them empty. |
| `VideoWriter.H264Writer.Prepare` | pkg/segmenter/segmenter.go:288-412 | Refused exactly for a wrong clock rate or an unreadable parameter set; skipped exactly without a picture or a known parameter set; otherwise what is recorded is the units with the missing parameter sets added, and a new segment is forced exactly if one has changed and the sample is a key frame. |
| `VideoWriter.H264Writer.Record` | pkg/segmenter/segmenter.go:426-447 | Refused exactly without timestamp or packing; otherwise the sample stored is the packed units with the timestamp the extractor gave out, shifted, later than all before, so the index does not panic. |
| `VideoWriter.H264Writer.WriteH264` | pkg/segmenter/segmenter.go:287-448 | Exactly when a sample is written, skipped and refused; what is written is the units with the missing parameter sets, packed, with the reconstructed timestamp; a key frame with a changed parameter set, or late enough, begins a new segment; stored timestamps strictly increase, and no write panics unless the recording exceeds 64 bits of nanoseconds. |
| `Clock.GoToMp4Wraps` | pkg/segmenter/utils.go:9-14 | The conversion gives the exact quotient modulo 2^64. |
| `Clock.Mp4ToGoWraps` | pkg/segmenter/utils.go:16-21 | The conversion gives the exact quotient as a signed 64-bit number. |
| `Clock.TicksExactIff` | pkg/segmenter/utils.go:9-14 | Ticks are exact if and only if they fit 64 bits, and then no intermediate product is truncated. |
| `Clock.DurationExactIff` | pkg/segmenter/utils.go:16-21 | Durations are exact if and only if they fit signed 64 bits, and then no intermediate product is truncated. |
| `Clock.TicksFit` | pkg/segmenter/utils.go:9-14 | For scales up to 10^9 every non-negative duration gives ticks that fit. |
| `Clock.DurationsFit` | pkg/segmenter/utils.go:16-21 | Ticks below 2^32 give a duration that fits, for every scale. |
| `Clock.SomeDoNotFit` | pkg/segmenter/utils.go:9-21 | A duration and a tick count for which the conversions are not exact. |
| `Clock.Monotone` | pkg/segmenter/utils.go:9-21 | Both conversions are monotone as far as results fit. |
| `Clock.TicksRoundTrip` | pkg/segmenter/utils.go:9-21 | Ticks to a duration and back lose at most one tick, for scales up to 10^9 and durations that fit. |
| `Clock.DurationRoundTrip` | pkg/segmenter/utils.go:9-21 | A duration to ticks and back loses nothing negative and less than one tick and one nanosecond, for ticks that fit. |
| `Framing.ValueOfPrint` | websocket/signal.go:97 | Reading a printed number gives the number. |
| `Framing.PrintOfValue` | websocket/signal.go:109 | Printing a number that was read gives its text exactly if it has no leading zeros. |
| `Framing.DecodeOfEncode` | websocket/signal.go:76-140 | Decoding returns the four encoded fields, whatever the data contains, if and only if the event has no semicolon, the id is a 64-bit number and the flag is 0, 1, 2 or 4. |
| `Framing.DecodeSound` | websocket/signal.go:101-140 | Any accepted text consists of four fields whose decimal values are the returned id and flag, the flag a valid one. |
| `Framing.EncodeOfDecode` | websocket/signal.go:92-140 | Encoding a decoded text reproduces it exactly when its numbers have no leading zeros. |
| `TrackPattern.MatchMeans` | model/pattern.go:99-242 | A validated pattern never makes the matcher read past its arguments, and the matcher decides the formula the pattern stands for. |
| `TrackPattern.PairsMeans` | model/pattern.go:186-215 | A loop over pairs returns early exactly if some pair has the stopping answer. |
| `TrackPattern.NamesMeans` | model/pattern.go:216-236 | A loop over names returns early exactly if some name has the stopping answer. |
| `TrackPattern.ChildrenMean` | model/pattern.go:157-177 | A loop over children returns early exactly if some child has the stopping answer. |
| `TrackPattern.MatchPairs` | model/pattern.go:186-215 | The loop in steps of two, including the read past an odd number of arguments. |
| `TrackPattern.MatchNames` | model/pattern.go:216-236 | The loop over label names. |
| `TrackPattern.MatchChildren` | model/pattern.go:157-177 | The loop over the children. |
| `TrackPattern.MatchPattern` | model/pattern.go:155-242 | The recursive matcher terminates and, for a validated pattern, decides its formula. |
| `TrackPattern.Validate` | model/pattern.go:99-136 | Accepts exactly the well-formed patterns. |
| `TrackPattern.RejectedIff` | model/pattern.go:89-136 | A pattern is rejected if and only if it, or one below it, has arguments or children where there should be none, an unknown operation, too few arguments, a label without its value, or a type that is neither video nor audio. |
| `TrackPattern.GroupTracks` | model/pattern.go:245-254 | The accepted tracks by publication, in order, and the others; fails exactly if the matcher does. |
| `TrackPattern.Complete` | model/pattern.go:259-273 | A group passes exactly if it has a track of every requested type. |
| `TrackPattern.MatchTracks` | model/pattern.go:244-280 | The two lists are together the input as a multiset; a track is matched exactly when the pattern accepts it and the accepted tracks of its publication cover every requested type. |
| `TrackPattern.OffersKept` | model/pattern.go:259-273 | The tracks that make a publication complete are themselves matched. |
| `TrackPattern.FilterIdempotent` | model/pattern.go:244-280 | Filtering the matched tracks again rejects none. |
| `TrackPattern.Subscription.UpdatePattern` | signal/model.go:186-202 | Of the held tracks exactly those stay that the new pattern and types accept. |

## Left out

- SampleBuilder.SampleBuilder.Push: states the result only when the 16-bit index sums do not wrap for the packet, which is every packet in every run exactly for `maxLate <= 0x4000`; what the array holds after a wrapped sum is not described.
- SampleBuilder.SampleBuilder.PushAhead: the same restriction as `Push`.
- SampleBuilder.SampleBuilder.StoreAhead: the same restriction as `Push`.
- SampleBuilder.SampleBuilder.MakeRoom: the same restriction as `Push`.
- SampleFrames.PopYieldsFrame: the floating-point duration of line 525 is replaced by the exact tick difference it is computed from.
- Sample builder: the release handler is always present and only recorded; late packets are recorded as discarded, because line 257 does not call the handler.
- Sample builder: the doc comment of `Len` (line 134) speaks of a difference minus one; the code returns it plus one, and the model follows the code.
- PatternTree.UpdateGet: tree nodes are values, so update in place and sharing of nodes are not captured; the mapper is a pure function, so neither is a mapper that changes the stored map it is given.
- Dispatch: one of the ten kinds of message, which differ in payload and topic only; locks, goroutines and the order in which callbacks start are not modelled.
- Cluster.AllDelivered: that every record is read at most once per node is assumed of the log; a failed production is an emission that leaves no record; a node that has panicked may act again.
- Membership.SameMessagesSameMembers: of two joins with the same id and different names the first to arrive wins, so the name is not determined then.
- Membership: join and leave callbacks, `FindOneByUser` and the wall clock; time is an argument.
- DtsExtractor: parsing of parameter sets and slice headers is an arbitrary function; 64-bit overflow of durations is not modelled; a bit mask is written as a remainder.
- Recording.Track.WriteVideo: nothing is stated of the track after a marshalling error or a panic; times are unbounded integers; sample durations, NTP times, the init segment and errors of writing index files are not modelled.
- Recording.Storage.NextPart: file errors, which panic, are not modelled; writing does not seek.
- Recording.Track.Close: the sample builder of the track is not closed with it.
- Recording.Track.TryReady: an unsupported codec counts as not known; its error and the fields set there are not modelled.
- SampleStream.StreamComesOut: frames that the depacketizer cannot decode are not covered.
- VideoWriter.H264Writer.WriteH264: the H.265 branch, picture size and frame rate are not modelled; fragments are packed by an arbitrary function.
- Clock.TicksExactIff: durations are not negative; the unsigned conversions give negative ones no meaning.
- Framing.DecodeOfEncode: the data is the text that JSON marshalling produced; the error messages are not told apart.
- DtsStreams.StreamFromStart: the reordering must be less than a quarter of the range of the picture order count, as section 8.2.1 of ITU-T H.264 needs to tell counts apart, and its milliseconds less than a period.
- SampleOrder.AnyOrder: frames longer than `maxLate` whose first packet does not arrive first are not covered; parts of them can be given up before they are complete.
- TrackPattern.Validate: absent children of a protobuf message are not modelled.
- Server-side `JoinRoom` and `LeaveRoom`, router, accepter, UDP transport, WebRTC peers and negotiation.
- Kafka, Redis, Mongo, Prometheus, gin, socket.io and websocket connection handling.
- `signal/rtp.go`, depacketizers, fMP4 marshalling, playlists beyond byte ranges and durations, MPD.
- The JavaScript and Python clients, the React app, configuration, authentication and logging.
