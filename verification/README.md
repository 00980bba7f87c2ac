# Mesh node verification

A Dafny model of an emergency mesh node and of the slice of littlefs it stores on, with proofs about it.

- **Duplicate filter** (`Dedup.dfy`, `Chains.dfy`, `DedupTable.dfy`, `DedupRuns.dfy`, `DedupNames.dfy`): slots
  threaded by integer links through a free list, hash chains and an expiry wheel, refining a plain map.
- **Replay protection** (`ReplayWindow.dfy`, `ReplayTable.dfy`): sliding windows over wrapping numbers (the serial
  comparison of section 3.2 of RFC 1982, the window of section 3.4.3 of RFC 4303), exact against unbounded histories.
- **Message store and transmit scheduler** (`MessageStore.dfy`, `TxScheduler.dfy`, `NodeRuns.dfy`, `NodeVisits.dfy`,
  `NodeOutcomes.dfy`, `NodeRecords.dfy`): two classes, and every interleaving of their locked sections, storage failures and reboots included.
- **Wire format** (`CText.dfy`, `V2Packet.dfy`, `V2Codec.dfy`, `V2Wire.dfy`, `WireForms.dfy`): builder, parser, round trip.
- **Sync** (`SyncBatch.dfy`, `SyncCursors.dfy`, `SyncFrames.dfy`, `SyncExchange.dfy`): what a node says it has, what a
  peer selects, how that is cut into batches, encoded and decoded, and what arrives over the air.
- **Relaying** (`Relay.dfy`, `RelayNode.dfy`, `Flood.dfy`, `FloodRuns.dfy`, `FloodBounds.dfy`, `FloodLoops.dfy`,
  `Acks.dfy`, `Silence.dfy`, `Replies.dfy`, `Deliveries.dfy`, with small networks in `Scenes.dfy`): one node's handler and
  worker, and a network of nodes over a medium that loses, repeats and reorders frames. Frames are the bytes of the
  wire format, and every node decides with the replay table proved above.
- **Route table** (`RouteTable.dfy`) and **radio arbiter** (`RadioArbiter.dfy`).
- **littlefs** (`LfsCodes.dfy`, `LfsAlloc.dfy`, `CtzIndex.dfy`, `CtzBits.dfy`, `CtzList.dfy`) and the two
  CRC routines (`Crc.dfy`).

`Arith.dfy` and `Counting.dfy` hold facts about remainders and set sizes. `dafny verify dfyconfig.toml` checks everything.

A part of the source that updates state is a class or a method with loops, proved equal to a specification function or
to a property; the theorems about runs are about those functions.

## What the proofs found

- **A full duplicate table drops the newest packet.** `test/test_core/test_main.c:225-236` expects the oldest one to
  go. The code is followed; see `DedupRuns.FullTableDropsNewest` and, for every run, `DedupRuns.RememberedIffRoom`.
- **No acknowledgement is ever recognised.** An ACK carries the name of the node that waits for it
  (`src/mesh_control.c:400-401`); that node compares it with the sender of the ACK (`src/app/app_runtime.c:226`).
  `Acks.NoAckEverTold` proves over all runs that the comparison fails, `Acks.AckSentInVain` that ACKs do arrive, and
  `Acks.AckForWaitingNode` that comparing with the node's own name would succeed exactly for proper ids. `Acks.ToldIff`
  says which ACKs the comparison lets through.
  `DOCS.md:178-180` describes ACK leading to DELIVERED; without a recognised ACK every message that the
  scheduler visits when due, six times for a new one, ends as failed (`Deliveries.NothingDelivered`).
- **A known route silences a node.** A packet without a next hop first gets the route's next hop and is then sent on
  only by that next hop itself; see `Acks.SentOnIff` and `Silence.HeardThenSilent`.
- **NORMAL traffic can starve**, exactly when LOW waits in every fifth round and HIGH in the others; see
  `RadioArbiter.NormalStarvesIff`.
- **Names that a field does not store unchanged** are never found again by the replay and route tables; see
  `ReplayTable.RepeatRefusedIffClean` and `RouteTable.FoundAgainIffClean`. The duplicate filter does not see them again
  either (`DedupNames.RememberThenSee`), and those whose copy hashes to another chain close their chain into a circle
  (`DedupNames.ClosesOnItself`); some do not (`DedupNames.SomeKeepTheirChain`).
- **Flooding ends exactly when the ids of a source fit in half a turn of the counter**, ends included, if the medium
  may repeat old frames; see `FloodBounds.FloodEnds` and, for the converse, `FloodLoops.FloodNeverEnds`.
- **A batch can be larger than its receiver's array** and is then lost whole; see `SyncBatch.ShortLabelsOverflow`. The
  node's own labels prevent it; see `SyncBatch.LabelledSync`.
- **A full body or request is never sent.** The batcher and the cursor builder allow 140 bytes, the packet builder does
  not (`src/mesh_protocol.c:609`); see `SyncExchange.FullBodyLost` and `SyncExchange.FullRequestLost`, and
  `SyncFrames.HeardIff` for the exact condition.
- **Two of the send form's types change on the way.** MEDICAL and INFO arrive as FLOOD; see `V2Packet.LabelSurvivesIff`.

## Assumptions

- A locked section is one atomic step, and so are a status write and the deactivation that follows it. The radio, the
  random numbers, the clock, the routes and the room in queues are inputs of the steps.
- Durable storage is a map; setting and committing one record happens as a whole or not at all.
- Millisecond and tick clocks do not wrap, except where the code compares 32-bit differences (`CText.Minus`).
- Runs of the duplicate filter remember clean names; insertion hashes the name as given, removal the stored copy.
- The bits of a replay window are a sequence of 32 booleans, the lowest first; statuses, directions, types and
  priorities are datatypes, and the fields of a stored message that are only shown are left away.
- `serial`, `born`, `log`, `number`, `known`, `sent`, `answered`, `history` and the ghost fields of classes belong to the model.
- A submission uses a generation that no active entry has; `NodeRuns.GenerationFree` says exactly when that is so.
- In the network replay state is retained: an entry in use is not given up. The forward queues hand out any waiting job.
- The littlefs allocator sees the blocks in use as a list. While a part of the window is left, that list has grown since
  the scan only by blocks handed out since the checkpoint in force at the scan. The device has at most 2^31 blocks.
- The CTZ functions work on files of at most 2^31 - 1 bytes in blocks of at least 128 bytes.

## Model

| member | source | states |
|---|---|---|
| `CText.StoredIffClean` | src/mesh_protocol.c:95-116 | a field stores a name unchanged exactly when the name has at most 31 characters, all printable |
| `DedupTable.SeenTable.Create` | src/mesh_protocol.c:150-175 | after initialisation all 256 slots are on the free list, the table is in order and stands for the empty map |
| `DedupTable.SeenTable.RemoveFromHash` | src/mesh_protocol.c:130-148 | the walk along the chain of the slot's key finds the slot and unlinks it; every other chain stays as it was threaded |
| `DedupTable.SeenTable.SweepChain` | src/mesh_protocol.c:198-218 | one wheel chain: exactly the expired slots go to the free list, the others are rethreaded in their order, and the flag tells whether a survivor belongs to the expiring second |
| `DedupTable.SeenTable.Expire` | src/mesh_protocol.c:177-224 | the sweep of all due buckets turns the map into the map of keys younger than 60000 ms, although live and expired slots share a bucket and buckets may be skipped |
| `DedupTable.SeenTable.Lookup` | src/mesh_protocol.c:698-706 | the walk of a hash chain finds a key exactly when it is on the map |
| `DedupTable.SeenTable.AllocEntry` | src/mesh_protocol.c:226-236 | a slot is taken off the free list, or -1 is returned exactly when 256 keys are live |
| `DedupTable.SeenTable.InsertEntry` | src/mesh_protocol.c:238-255 | any name: the slot goes on the hash chain of the name as given, stores its copy, and goes on the wheel chain of its second; with a clean name the table is in order again, the key has this slot and nothing else changes |
| `DedupTable.SeenTable.PacketSeen` | src/mesh_protocol.c:687-709 | the answer is true exactly when the plain map holds the key and its 60000 ms are not over |
| `DedupTable.SeenTable.RememberPacket` | src/mesh_protocol.c:711-740 | any name: a slot is taken exactly when the key is not live and fewer than 256 keys are; with a clean name the table becomes the plain map with the key remembered, a live key keeping its first time |
| `DedupTable.SeenTable.Structure` | src/mesh_protocol.c:130-255 | in every state between calls each slot is on the free list only, or on exactly the hash chain of its key and exactly the wheel chain of its time; all lists are acyclic, keys are unique, and free and active slots are 256 together |
| `DedupTable.Sweeping.Keep` | src/mesh_protocol.c:206-217 | rethreading a surviving slot keeps the part already rebuilt and the part still to be walked apart and in order |
| `Chains.Unlink` | src/mesh_protocol.c:130-148 | unlinking a node of one chain keeps the whole family of chains threaded and disjoint |
| `Chains.PushFront` | src/mesh_protocol.c:238-255 | pushing a node on one chain keeps the whole family of chains threaded and disjoint |
| `DedupRuns.Play` | src/mesh_protocol.c:687-740 | in every run with a clock that never goes back and clean names to remember, every answer of packet_seen is that of the plain map after the same calls |
| `DedupRuns.SeenExactly` | src/mesh_protocol.c:687-740 | a key is seen exactly when some earlier call stored it less than 60000 ms ago |
| `DedupRuns.CapacityKept` | src/mesh_protocol.c:226-236 | no run puts more than 256 keys on the map |
| `DedupRuns.RememberedIffRoom` | src/mesh_protocol.c:711-740 | after a run that ends with a remember_packet its key is on the map exactly when it was still live or fewer than 256 keys were, and no live key is given up for it |
| `DedupRuns.FullTableDropsNewest` | test/test_core/test_main.c:225-236 | the 257 calls of the test leave the first key on the map and the last one off it, the opposite of what the test expects |
| `DedupNames.RememberThenSee` | src/mesh_protocol.c:687-740 | any name: remembered and asked for at once, a packet that was not live is seen exactly when its name is clean and there was room |
| `DedupNames.PlacedIffSameChain` | src/mesh_protocol.c:130-140 | an inserted slot is on the chain that removal looks for it on exactly when the name and its stored copy hash to the same chain |
| `DedupNames.SoundIffNewOnSameChain` | src/mesh_protocol.c:238-255 | an insertion keeps every slot on its chain and every key with one slot exactly when moreover the copy is no key in use |
| `DedupNames.ClosesOnItself` | src/mesh_protocol.c:130-255 | for every name and id with different chains: remembered, expired and remembered again on a fresh table, the slot links to itself, so no walk of that chain for this packet ends |
| `DedupNames.SomeKeepTheirChain` | src/mesh_protocol.c:65-88 | not every changed name changes its chain: the bytes 65 8 with id 1 do not, 65 1 with id 1 do |
| `ReplayWindow.AcceptExact` | src/mesh/replay_protection.c:65-142 | a wrapping 32-bit number is accepted exactly when the number it stands for is above the highest, or within 31 below it and not accepted before; bit i stays set exactly when highest - i was accepted |
| `ReplayWindow.ReuseIsAFullTurn` | src/mesh/replay_protection.c:144-188 | the same 32-bit number is accepted again only when it stands for a number at least 2^32 higher |
| `ReplayTable.ReplaySources.FindSource` | src/mesh/replay_protection.c:75-84 | the first active entry with the name, or none |
| `ReplayTable.ReplaySources.Allocate` | src/mesh/replay_protection.c:86-100 | the first unused entry, else the first of those idle longest on the 32-bit clock |
| `ReplayTable.ReplaySources.Accept` | src/mesh/replay_protection.c:144-188 | the table and the verdict are those of the specification, for the entry that allocation picks |
| `ReplayTable.TableExact` | src/mesh/replay_protection.c:144-188 | for a clean name the verdict is that of an unbounded memory of the source since it was allocated, and every window keeps tracking its source |
| `ReplayTable.NeverAcceptedTwice` | src/mesh/replay_protection.c:144-188 | in every run no number is accepted twice from a source while the table knows it |
| `ReplayTable.ForgottenOnlyAfterOthers` | src/mesh/replay_protection.c:86-100 | a source is forgotten only when 32 other sources, all different, were idle no longer on the 32-bit clock, which means active at or after its last activity while no entry is idle for 2^32 ticks |
| `ReplayTable.ForgottenInRun` | src/mesh/replay_protection.c:144-188 | over runs: a source is forgotten only when 32 other names had an offer accepted no longer ago than its own last accepted one |
| `ReplayTable.RepeatRefusedIffClean` | src/mesh/replay_protection.c:10-26 | whatever the table was offered before, an immediate repeat is refused exactly when the name is one the table can store unchanged |
| `MessageStore.OperationsSound` | src/messages/message_store.c:275-367 | every operation, with storage that works or fails, keeps non-empty slots equal to their durable record and the count equal to the number of non-empty slots |
| `MessageStore.AllocatedSound` | src/messages/message_store.c:237-273 | reservation and eviction keep the table sound; what is evicted is never a pending outgoing message |
| `MessageStore.MessageTable.Allocate` | src/messages/message_store.c:237-273 | the first free slot; with none, a finished record: the first of those with the earliest non-zero time, or the first of all when no time is known; -1 only if nothing can be evicted or the erase failed |
| `MessageStore.VictimIsOldest` | src/messages/message_store.c:252-265 | what is evicted is over, and no other finished record has an earlier known time, nor the same and a lower slot |
| `MessageStore.StatesExactly` | src/messages/message_store.c:20-28 | which records are Received, Acked, Sent and Failed, from direction and status |
| `MessageStore.DoneExactly` | src/messages/message_store.c:252-258 | a slot can be evicted exactly when it is not reserved and its message was received, acknowledged or has failed |
| `MessageStore.OperationsWrite` | src/messages/message_store.c:275-367 | what write, update and delete leave in the slot and in storage, when the storage works and when it fails |
| `MessageStore.MessageTable.Write` | src/messages/message_store.c:314-327 | an unreserved slot is refused; a write stores record and state durably and in RAM, or changes neither; the new state equals the specification's |
| `MessageStore.MessageTable.Update` | src/messages/message_store.c:329-348 | the table after an update, also on a reserved slot and when storage fails |
| `MessageStore.MessageTable.Delete` | src/messages/message_store.c:350-367 | the table after a delete: a mere reservation is given up, a record goes only if its durable copy does |
| `MessageStore.MessageTable.Load` | src/messages/message_store.c:188-224 | after a boot the slots are the readable, valid and relevant durable records and the count is theirs |
| `MessageStore.LoadedSound` | src/messages/message_store.c:188-224 | a loaded table is sound and nothing durable was changed |
| `MessageStore.LoadedExactly` | src/messages/message_store.c:188-224 | a slot holds its durable record exactly when storage opened, the record was read, and the node is its source or destination or has no name; otherwise it is vacant |
| `MessageStore.MessageTable.CopyPending` | src/messages/message_store.c:497-515 | the slots of outgoing messages that are neither acknowledged nor failed, in slot order |
| `TxScheduler.Scheduler.Submit` | src/mesh/tx_scheduler.c:440-474 | the first inactive entry takes the message with the next generation, 0 skipped; the whole new state is that of the specification |
| `TxScheduler.Scheduler.RestorePending` | src/mesh/tx_scheduler.c:412-438 | one entry for every pending slot the table reports, no status written |
| `TxScheduler.Scheduler.SendBegin` | src/mesh/tx_scheduler.c:262-317 | first locked part of a send: the entry is failed, with its record, or becomes SUBMITTING with one more attempt, and a ticket names it |
| `TxScheduler.Scheduler.SendEnd` | src/mesh/tx_scheduler.c:318-335 | second locked part: only the entry that the ticket names and that is still SUBMITTING moves on |
| `TxScheduler.Scheduler.HandleRadioResult` | src/mesh/tx_scheduler.c:175-227 | a radio result moves exactly the waiting entry with that message and request |
| `TxScheduler.Scheduler.CheckTimeout` | src/mesh/tx_scheduler.c:362-392 | a due entry that waits for the radio or an ACK backs off, or fails after its third attempt |
| `TxScheduler.Scheduler.Acknowledge` | src/mesh/tx_scheduler.c:481-501 | the entry that waits for an ACK of that id from that destination is delivered and its status written |
| `NodeRuns.StepKeepsInv` | src/mesh/tx_scheduler.c:163-399 | every locked section of every task keeps: active entries own distinct slots with their own unfinished, unevicted records; generations are distinct; submissions equal attempts |
| `NodeRuns.SchedulerAndTableAgree` | src/app/app_runtime.c:266-302 | after every interleaving, reboots and storage failures included: entries own distinct slots, a stored message always finds a free entry, and no entry was submitted to the radio more than 3 times |
| `NodeRuns.SubmitFindsRoom` | src/mesh/tx_scheduler.c:440-455 | a message that was allocated and written finds an inactive entry |
| `NodeRuns.TicketFinds` | src/mesh/tx_scheduler.c:316-335 | the ticket of a send in progress names exactly the entry that is being submitted, whatever ran in between |
| `NodeRuns.GenerationFree` | src/mesh/tx_scheduler.c:455-460 | a new generation clashes with an active entry exactly when that entry has lived through a multiple of 2^32 - 1 submissions |
| `NodeRuns.BootEstablishesInv` | src/messages/message_store.c:188-224 | a boot establishes the invariant from the durable records alone, whatever is readable |
| `NodeRuns.RebootRecovers` | src/mesh/tx_scheduler.c:412-438 | after any run and a reboot, whatever can be opened and read: every durable outgoing message that is read and neither acknowledged nor failed is queued by exactly one entry, as last committed, nothing else is queued, and the durable records are as before |
| `NodeRecords.EndIsFiled` | src/mesh/tx_scheduler.c:337-347 | a step that ends an entry and whose write is committed leaves in its slot, in RAM and in storage, the message with FAILED_TIMEOUT after an ACK timeout, FAILED_QUEUE after a full queue or a failed build, ACKED after an acknowledgement, and FAILED_RADIO otherwise |
| `NodeRecords.EndedStaysEnded` | src/mesh/tx_scheduler.c:337-347 | after any further run that does not write to that slot again, a reboot queues no message from it; if the write failed, storage is as before the step |
| `NodeRecords.SubmitFiles` | src/mesh/tx_scheduler.c:440-474 | a submitted message gets a free entry that is due at once, with no attempts, and is on file as QUEUED; no other entry changes |
| `NodeRecords.RadioFiles` | src/mesh/tx_scheduler.c:175-227 | a transmission that succeeded is on file as SENT |
| `NodeRecords.Pacing` | src/mesh/tx_scheduler.c:175-399 | every step, every active entry: the entry is unchanged, or ends with the state and error of its cause, or waits exactly as long as the source says: 10000 for the radio, 5000 for an ACK, 2000 after a busy channel, a full queue or a lost result, 5000 after a fault, 5000 per attempt after an ACK timeout |
| `NodeRecords.Attended` | src/mesh/tx_scheduler.c:175-501 | nothing is passed over: the due entry that is looked at, the entry being submitted and the first entry that a result or an acknowledgement is for do change |
| `NodeRuns.StepBurns` | src/mesh/tx_scheduler.c:175-399 | every step but a submission and a reboot leaves the entries alone, or lowers the measure (attempts left, state) of exactly one, which keeps its identity |
| `NodeRuns.BoundedLife` | src/mesh/tx_scheduler.c:175-399 | between reboots an entry changes at most 23 times before it is delivered or has failed |
| `NodeRuns.NeverStuck` | src/mesh/tx_scheduler.c:350-399 | once an active entry is due the scheduler's step for it is possible and lowers its measure, whatever the outcome; a send under way can be finished, whatever the radio answers |
| `NodeVisits.FinishedInTime` | src/mesh/tx_scheduler.c:350-399 | between reboots, whatever runs in between and whatever each step comes to, an entry is visited when due at most as often as it has visits left (two for each attempt left and at most one more, never over seven), and once it has been it is no longer active |
| `NodeOutcomes.EndedAsFailed` | src/mesh/tx_scheduler.c:337-399 | in a run without calls of tx_scheduler_acknowledge an entry that ends has failed; none is delivered |
| `NodeOutcomes.AllFail` | src/mesh/tx_scheduler.c:337-399 | in such a run every entry that has had all its due visits has failed |
| `NodeOutcomes.ThreeAttempts` | src/mesh/tx_scheduler.c:262-399 | an entry queued and never sent has six visits left, and in every state a run of three attempts without an answer uses them up and ends it as failed |
| `NodeOutcomes.OnePending` | src/mesh/tx_scheduler.c:412-438 | a boot with one unfinished message of the node in storage queues such an entry |
| `V2Packet.LocationRoundTrip` | src/mesh_protocol.c:363-407 | a printable location with '~' in its last part only survives its text form |
| `V2Packet.LabelSurvivesIff` | src/mesh_protocol.c:257-278 | a type label comes back from the wire exactly when it is one of the six; MEDICAL and INFO come back as FLOOD |
| `V2Wire.BuildForwardPacket` | src/mesh_protocol.c:576-671 | it builds exactly when source and relay are not empty, the payload is under 140 bytes and the required bytes fit 227 and the buffer; then exactly the required bytes are written, and they are the wire form |
| `V2Wire.ParsePacket` | src/mesh_protocol.c:474-574 | on any bytes the parser with a moving offset accepts, rejects and yields what the functional parser does |
| `V2Codec.RoundTrip` | src/mesh_protocol.c:474-671 | every well-formed packet comes back with all its fields, the derived ones set, and exactly the required number of bytes was used |
| `V2Codec.CanonicalIsStable` | src/mesh_protocol.c:474-671 | what a well-formed packet's wire form is parsed into is well formed and has the same wire form |
| `V2Codec.ParsedWellFormed` | src/mesh_protocol.c:474-574 | any bytes that parse give a well-formed packet exactly when neither source nor relay starts with a NUL |
| `V2Codec.EncodeInjective` | src/mesh_protocol.c:576-671 | packets with the same wire form differ in derived fields only |
| `V2Codec.BuiltIff` | src/mesh_protocol.c:576-671 | a packet of short texts is built exactly when it has a source and a relay and takes at most 227 bytes, and then it comes back from the wire |
| `WireForms.MessageBytes` | src/mesh_protocol.c:576-671 | the bytes of a routed emergency message with a location, one by one, and that they parse to it, filed under its source |
| `WireForms.AnnouncementBytes` | src/mesh_protocol.c:576-671 | the bytes of a broadcast, one by one, and that it is filed under ANNOUNCEMENTS |
| `WireForms.UncountedBytes` | src/mesh_protocol.c:474-574 | a packet without a path count counts as one hop away; bytes behind a packet are left over |
| `WireForms.RecordBytes` | src/mesh_control.c:104-152 | the bytes of a sync record, one by one, and that they decode to it |
| `WireForms.RequestBytes` | src/mesh_control.c:240-302 | the bytes of the request of a node that holds one message |
| `SyncBatch.CandidateSize` | src/mesh_control.c:513-519 | the recomputed size of a candidate batch is 1 plus the sizes of its records |
| `SyncBatch.NextBatch` | src/mesh_control.c:505-536 | the longest batch from a record on; a record too big alone is stepped over |
| `SyncBatch.CutBatches` | src/mesh_control.c:488-541 | the greedy loop ends with ordered, disjoint batches of at most 140 bytes, none of which could be longer, that cover exactly the records that fit alone |
| `SyncBatch.EncodeBatch` | src/mesh_control.c:136-152 | encoding succeeds exactly when there are at most 255 records, they fit the buffer and every hop count fits a byte; then the body is the count and the records, 1 plus the record sizes long |
| `SyncBatch.CutsEncode` | src/mesh_control.c:488-541 | every batch that is cut is not empty, has at most 13 records and at most 140 bytes |
| `SyncBatch.DecodeRecords` | src/mesh_control.c:585-672 | whatever lies behind the body and behind the buffer, the decoder yields a function of the body alone, although it reads up to two bytes past it |
| `SyncBatch.BatchRoundTrip` | src/mesh_control.c:585-672 | a batch of records with proper names comes back exactly when the receiver has a place for each record, and otherwise nothing of it does |
| `SyncBatch.SyncLossless` | src/mesh_control.c:488-553 | whatever the loop cuts, a receiver with room for each batch gets, in order, exactly the records that fit alone |
| `SyncBatch.LabelledSync` | src/app/app_runtime.c:195-202 | with the node's own labels every batch has at most 7 records, so the receiver's 8 places lose nothing |
| `SyncBatch.ShortLabelsOverflow` | src/app/app_runtime.c:195-202 | nine records with one-letter labels are always cut as one batch, and a receiver with 8 places gets none of them |
| `SyncCursors.BuildRequest` | src/mesh_control.c:247-286 | the payload lists, in order of first appearance, as many sources as 8 cursors and 140 bytes allow, each with its largest stored id |
| `SyncCursors.PutCursor` | src/mesh_control.c:277-283 | a cursor is the length byte, the source and its largest id, low byte first, behind what was written before |
| `SyncCursors.LargestId` | src/mesh_control.c:260-271 | the scan that starts at a source's first record finds the largest id of the whole snapshot |
| `SyncCursors.MaxIdIsMax` | src/mesh_control.c:267-271 | the largest id is attained and bounds all ids of the source; 0 without any |
| `SyncCursors.FindCursor` | src/mesh_control.c:314-338 | on any payload the search yields the listed id of the source or 0, also when the payload is cut short |
| `SyncCursors.RequestTells` | src/mesh_control.c:247-338 | looking a source up in a built request yields its largest id if it was listed and 0 otherwise |
| `SyncCursors.FilterReply` | src/mesh_control.c:463-482 | the filter in place leaves at the front, in order, exactly the messages that answer the request |
| `SyncCursors.ExchangeExact` | src/mesh_control.c:463-482 | a peer's message is sent exactly when it is RX or TX, for all or for the requester, and its id is beyond what the requester listed for its source |
| `SyncCursors.NothingTwice` | src/mesh_control.c:247-338 | a store whose sources all fit a request is sent no message it holds, and none below its largest id of that source |
| `SyncFrames.HeardIff` | src/mesh_protocol.c:576-671 | a sync packet is heard with exactly its payload when the payload is under 140 bytes and names and payload fit 227, and otherwise not at all |
| `SyncFrames.AddressedTo` | src/mesh_control.c:240-557 | a request is heard as a SYNC_REQ to all with one hop, a response as a SYNC_RESP to the node that asked with three, both from the node itself and without a next hop |
| `SyncExchange.ArrivedIff` | src/mesh_control.c:541-553 | a record arrives exactly when a batch that holds it is sent |
| `SyncExchange.SyncDelivers` | src/mesh_control.c:456-554 | over the air: the request is heard exactly when it is short enough; then only records arrive that the peer holds, that the requester may see and did not list, and that fit a body, and all of them do when every batch is sent |
| `SyncExchange.ShortNamesLoseFullBodies` | src/mesh_control.c:541-553 | with names of at most 73 characters together, a batch is lost exactly when its body has 140 bytes |
| `SyncExchange.FullBodyLost` | src/mesh_control.c:521-553 | a record of 139 bytes fits alone, is cut as a batch, and never arrives, between any two nodes |
| `SyncExchange.FullRequestLost` | src/mesh_control.c:274-302 | four sources can fill a request to 140 bytes, and no one hears it |
| `RelayNode.MeshNode.HandleRx` | src/app/app_runtime.c:162-256 | on any bytes the handler updates replay table, route table and queue as the specification says: what is not parsed, repeated or the node's own is not queued and teaches no route, and the routes used are the best of the table; the scheduler is told of an id exactly when the packet is new and taken for an ACK |
| `RelayNode.LearnedRouteProper` | src/route_table.c:134-175 | a route from a table that learned clean names is one that the network's steps allow |
| `RelayNode.MeshNode.ForwardOne` | src/mesh/forward_worker.c:25-72 | a job goes out exactly when the packet should be forwarded and fits; the frame is the wire form of the edited packet. Which jobs those are is stated by `Acks.SentOnIff`, `FloodRuns.HeardIsRelayed` and `Replies.HearAndAcknowledge`, the edit by `Flood.RelayDescends` |
| `Relay.ReceiveKeeps` | src/app/app_runtime.c:176-250 | receiving keeps: no two jobs, waiting or sent, for the same number of another source |
| `Relay.WorkKeeps` | src/mesh/forward_worker.c:25-72 | the forward worker keeps the same, whichever job it takes |
| `Flood.RelayDescends` | src/mesh/forward_worker.c:33-59 | the worker's edit keeps source, id, destination, type, priority, location and payload, takes one hop, adds one to the path until that is 255, and sets this node as relay and the route's next hop, or none |
| `Flood.StepKeeps` | src/app/app_runtime.c:162-250 | every step of a network that loses, repeats and reorders frames keeps each frame and job traceable to a packet its source sent |
| `FloodRuns.RelayedOnce` | src/app/app_runtime.c:176-250 | in every run a node sends each number of another source on at most once; the same 32-bit id twice only a full turn apart |
| `FloodRuns.CopiesFaithful` | src/mesh/forward_worker.c:33-72 | in every run every frame on the air parses into a copy of an original packet, with hops + path hops conserved until the path count is 255 |
| `FloodRuns.RelayedKinds` | src/app/app_runtime.c:67-85 | only messages and ACKs are sent on, never by their destination, and only with hops left |
| `FloodRuns.HeardIsRelayed` | src/app/app_runtime.c:231-250 | a message with a fresh number, hops left and no route known is queued and sent on, and its copy with one hop less is on the air |
| `FloodBounds.FloodEnds` | src/app/app_runtime.c:176-250 | if the ids of each source lie in a half turn, ends included, each of n nodes sends each id on at most once, and all of them send at most n * (n + 1) frames for others per packet originated, however often frames are repeated |
| `FloodLoops.FloodNeverEnds` | src/mesh/replay_protection.c:65-123 | conversely, for any ids that lie in no half turn there is a run of two nodes in which each id is originated once and the second node sends more frames on than any given number |
| `FloodLoops.ThreeIds` | src/mesh/replay_protection.c:65-123 | 0, 0x7FFFFFFF and 0xFFFFFFFE are such ids |
| `Acks.SentOnIff` | src/app/app_runtime.c:67-85 | a message for another node is sent on exactly when the node knows no route or is itself the next hop |
| `Acks.HeardIsSilenced` | src/app/app_runtime.c:231-250 | a fresh message without a next hop is queued and then dropped where a route by way of another node is known |
| `Acks.SilentRun` | src/app/app_runtime.c:231-250 | for any names: a run of two nodes in which that happens with a route given to the node |
| `Silence.HeardThenSilent` | src/app/app_runtime.c:162-256 | the handler and the worker as they run: a node passes on a broadcast it hears by way of a relay, has thereby learned a route to its source, and then drops a message for that source |
| `RelayNode.HeardOnceIsRoute` | src/route_table.c:89-175 | one packet heard from a node gives a route to it by way of its relay for 300 s |
| `Acks.NoAckEverTold` | src/app/app_runtime.c:218-230 | in every run no ACK built by the code makes its receiver tell the scheduler that a message was delivered |
| `Acks.HeardIsAcknowledged` | src/app/app_runtime.c:215-217 | a message with a fresh number for this node is acknowledged, whether a route to its source is known or not: the ACK is on the air, with the id and the name it acknowledges, the hops of the message less one, and the route's next hop or none |
| `Acks.AckSentInVain` | src/app/app_runtime.c:218-230 | for any two names, any ids, with or without a route: a run of two nodes that puts an ACK on the air for the waiting node, with the id it waits for, and that node does not take it |
| `Acks.ToldIff` | src/app/app_runtime.c:218-230 | an ACK for the node is taken exactly when its id is not 0 and the name it carries is that of its sender |
| `Replies.HearAndAcknowledge` | src/app/app_runtime.c:162-256 | handler and worker as they run, in any state of the node: a new message for it is answered, the ACK goes out by way of the best route that the node then knows, and the queue is as before; a message that counts its hops brings such a route itself |
| `Replies.HeardThenAcknowledged` | src/app/app_runtime.c:162-256 | from the start: a message of `a` by way of `x` is acknowledged by way of `x` |
| `Acks.AckForWaitingNode` | src/mesh_control.c:394-454 | a copy of an ACK carries the acknowledged id and the name of the waiting node, never that of the acknowledging one |
| `Deliveries.NoneAcknowledged` | src/app/app_runtime.c:218-230 | in every run of the network a scheduler that is told of acknowledgements by the handler only is told of none |
| `Deliveries.NothingDelivered` | src/app/app_runtime.c:218-230 | so an entry of such a scheduler that has had all its due visits has failed |
| `RouteTable.Routes.FindRoute` | src/route_table.c:53-63 | the first entry with destination and next hop, or -1 |
| `RouteTable.Routes.Learn` | src/route_table.c:89-132 | the table after an observation: ignored, entered, merged, or put in place of the entry silent longest |
| `RouteTable.LearnKeeps` | src/route_table.c:89-132 | with clean names keys stay unique, hop counts positive, and every entry holds the best of its observations since it was entered or last silent for 300 s |
| `RouteTable.RunKeeps` | src/route_table.c:89-132 | the same over every run of observations |
| `RouteTable.FoundAgainIffClean` | src/route_table.c:101-117 | whatever the table learned before, a route just learned is found again exactly when its names are clean |
| `RouteTable.EnteredOnceIffClean` | src/route_table.c:102-118 | with two entries free, learning a route twice enters it once exactly when its names are clean |
| `RouteTable.Routes.GetBest` | src/route_table.c:134-175 | a route is found exactly when one to the destination with hops was heard of less than 300000 ms ago; it has the fewest hops of these, then the strongest signal, then the next hop that comes first as a byte string |
| `RouteTable.OptimalIsBest` | src/route_table.c:134-175 | the code's order is: fewest hops, of these the strongest signal, of these the next hop that is smaller in the first byte that differs or is the start of the other |
| `RouteTable.LearnedUsable` | src/route_table.c:89-132 | a route with clean names that was just learned can be used at once |
| `RouteTable.BestIsOne` | src/route_table.c:134-175 | the chosen route does not depend on the order of the entries |
| `RadioArbiter.Arbitrate` | src/radio/lora_radio.c:515-545 | every pick of every run follows from what was sent before: LOW after four HIGH packets in a row, or three NORMAL ones since the last LOW, or alone; NORMAL after four HIGH; else HIGH, NORMAL, LOW; counts modulo 256 |
| `RadioArbiter.CountersCount` | src/radio/lora_radio.c:519-545 | the counters are the HIGH packets in a row and the NORMAL packets since the last LOW one, modulo 256; an idle round changes neither |
| `RadioArbiter.ChosenIsOne` | src/radio/lora_radio.c:515-545 | that rule settles the whole run |
| `RadioArbiter.LowAtOnce` | src/radio/lora_radio.c:519-523 | a LOW packet that comes when 3 to 255 NORMAL ones have gone since the last LOW one is sent at once |
| `RadioArbiter.LowPassedOver` | src/radio/lora_radio.c:523-545 | from any counters and for any arrivals a waiting LOW queue is passed over at most 12 times |
| `RadioArbiter.TwelveReached` | src/radio/lora_radio.c:523-545 | 12 is reached |
| `RadioArbiter.HighPassedOver` | src/radio/lora_radio.c:523-545 | a waiting HIGH queue is passed over at most twice |
| `RadioArbiter.NormalStarvesIff` | src/radio/lora_radio.c:523-545 | a NORMAL queue that waits throughout is never served exactly when LOW waits in every fifth round, counted from the HIGH streak at the start, and HIGH in all the others |
| `RadioArbiter.NormalStarvesLateIff` | src/radio/lora_radio.c:523-545 | the same when three NORMAL packets went before: HIGH waits until the first LOW packet, which comes before the streak of four is full, and the count starts behind it |
| `RadioArbiter.NormalWithoutLow` | src/radio/lora_radio.c:523-545 | while LOW never waits NORMAL is passed over at most four times, from any counters |
| `LfsAlloc.Allocator.Scan` | managed_components/joltwallet__littlefs/src/littlefs/lfs.c:641-662 | the window moves past what was looked at and its bits are exactly the tree's blocks; a failed scan drops the window |
| `LfsAlloc.Allocator.Take` | managed_components/joltwallet__littlefs/src/littlefs/lfs.c:669-688 | the block handed out is in neither the tree nor the blocks handed out since the checkpoint |
| `LfsAlloc.Allocator.Alloc` | managed_components/joltwallet__littlefs/src/littlefs/lfs.c:666-715 | it ends; a block returned is not in use and not handed out since the checkpoint; NOSPC means that every block was marked by its scan or handed out; any other error is that of the last scan made; size - next <= ckpoint throughout |
| `LfsAlloc.Allocator.Checkpoint` | managed_components/joltwallet__littlefs/src/littlefs/lfs.c:614-616 | a checkpoint starts a new count of block_count positions and keeps the window |
| `LfsAlloc.History.HandedOnce` | managed_components/joltwallet__littlefs/src/littlefs/lfs.c:614-715 | blocks handed out between two checkpoints are pairwise different |
| `LfsAlloc.History.AllLookedAt` | managed_components/joltwallet__littlefs/src/littlefs/lfs.c:701-706 | once the checkpoint is used up every block was handed out or found in use |
| `CtzIndex.PointersClosedForm` | managed_components/joltwallet__littlefs/src/littlefs/lfs.c:2874-2885 | the pointers in blocks 1 to n number 2n - popcount(n) |
| `CtzIndex.EstimateOffByOne` | managed_components/joltwallet__littlefs/src/littlefs/lfs.c:2876-2880 | the estimate from the position alone is the true block or the next one |
| `CtzIndex.IndexLocates` | managed_components/joltwallet__littlefs/src/littlefs/lfs.c:2874-2885 | for block size at least 128 and every 31-bit position the closed form gives the block and offset of the recursive layout, and nothing in it underflows |
| `CtzIndex.LocatedUnique` | managed_components/joltwallet__littlefs/src/littlefs/lfs.c:2874-2885 | the layout gives a position one place only |
| `CtzBits.ShiftDown` | managed_components/joltwallet__littlefs/src/lfs_config.h:128-131 | one line of the portable form trades bits of the argument for the result, and the bits it sets by or were clear |
| `CtzBits.PortableNpw2` | managed_components/joltwallet__littlefs/src/lfs_config.h:121-134 | the portable lfs_npw2 equals the intrinsic for every 32-bit argument above 1 |
| `CtzList.SkipProgress` | managed_components/joltwallet__littlefs/src/littlefs/lfs.c:2900-2914 | no jump passes the target, and each lowers the bound on the reads left |
| `CtzList.Flash.Find` | managed_components/joltwallet__littlefs/src/littlefs/lfs.c:2887-2919 | the search ends at the block and offset of the position, in at most twice as many reads as the block count has bits, or with an error that one of these reads reported |
| `CtzList.Flash.Traverse` | managed_components/joltwallet__littlefs/src/littlefs/lfs.c:3021-3062 | without an error every block is visited exactly once, last first; an error is one that the device or the callback reported, after a prefix of that |
| `CtzList.Flash.Extend` | managed_components/joltwallet__littlefs/src/littlefs/lfs.c:2922-3018 | the first allocated block that reports no corruption is taken; with it appended, or the incomplete last block copied to it, the blocks are a skip list again, the bytes in front are kept, and no old block was touched; an error is one that the device reported, or NOSPC after every allocated block reported corruption |
| `CtzList.ExtendedSpans` | managed_components/joltwallet__littlefs/src/littlefs/lfs.c:2922-3018 | with the new bytes written the file is again one that find, traverse and extend accept |
| `Crc.Crc32Bytes` | src/messages/message_store.c:42-54 | the bitwise checksum is the complement of the byte-wise fold from all ones |
| `Crc.LfsCrc` | managed_components/joltwallet__littlefs/src/lfs_config.c:12-28 | the nibble-table checksum is the same fold |
| `Crc.Agree` | managed_components/joltwallet__littlefs/src/lfs_config.c:12-28 | the two agree on every byte string |
| `Crc.TableIsFourSteps` | managed_components/joltwallet__littlefs/src/lfs_config.c:13-18 | each table entry is four steps of the shift register, by linearity |
| `Crc.OneByteDetected` | src/messages/message_store.c:56-71 | any change within one byte changes the checksum |
| `Crc.BurstDetected` | src/messages/message_store.c:56-71 | any change within four neighbouring bytes changes the checksum |

## Left out

- DedupTable.SeenTable.RememberPacket: promises the plain map for clean names only, because others can close a chain into a circle (`DedupNames.ClosesOnItself`).
- DedupRuns.Play: runs that remember clean names, for the same reason.
- DedupTable.SeenTable.InsertEntry: `expiry_bucket` is not modelled, because the code writes it and never reads it.
- DedupNames.ClosesOnItself: follows the free list and the hash chains, not the wheel, on the code's own link operations; the sweep of the wheel is proved for lists in order only, which these are not.
- RouteTable.EnteredOnceIffClean: tables with two entries free; in a full table the second entry may replace the first. `RouteTable.FoundAgainIffClean` is for every table.
- RelayNode.MeshNode.HandleRx: V1 packets, decryption, remember_packet, time sync, the roster, storing received messages and the records inside a SYNC_RESP are left to the surroundings; a SYNC_RESP's numbers reach the replay table as `Learn` steps.
- SyncBatch.CutBatches: speaks of encoded bodies; which of them are sent is `SyncFrames.HeardIff` and `SyncExchange.ArrivedIff`.
- SyncExchange.SyncDelivers: speaks of decoded records; they are stored only if replay protection accepts them and the node is their source or destination (`src/app/app_runtime.c:147-150`, `src/app/app_runtime.c:198-200`). Labels are those that the node itself uses.
- CtzList.Flash.Extend: block addresses and the list of blocks from the allocator are given; program and erase granularity and caches are not modelled.
- Portable forms of `lfs_popc` and `lfs_ctz`: the build uses the intrinsics; only the portable `lfs_npw2` is proved.
- Encryption, authentication and key derivation: calls into a crypto library.
- HTTP handlers, portal, DNS, Wi-Fi, LED, factory reset and node configuration: input and output.
- Registers, channel sensing and recovery of the radio: hardware; the radio is a source of result codes.
- FreeRTOS queues, including the budgets of `src/mesh/forward_queue.c`: any waiting job may be next.
- The V1 text parser, time sync, roster and packet counter: easy members.
- The test hooks: one of them breaks the invariants of the duplicate filter on purpose.
- The rest of littlefs: metadata pairs, commits, compaction, moves, caches, the VFS layer.
