# Tachyon: a verified model

Tachyon is a reliable UDP library built on negative acknowledgements: a receiver tells its peer which
sequences it misses, and the peer sends them again from a ring of send buffers. This project models the
parts of Tachyon that decide whether that works, and proves what they guarantee over every run:

* the **sliding-window receiver**, with its two 1024-slot rings and 16-bit sequences that wrap at 65535;
* the **nack walk** that packs missing sequences into start-plus-32-flags groups, and the **repair loop**;
* **two channel ends** over a network that loses, duplicates and reorders datagrams;
* **fragmentation**: splitting, collecting in any order, assembling, and delivery through an ordered channel;
* the **send ring** and the **buffer pool** behind it;
* the **pool's receive round**: workers that share FIFO queues of servers, message queues and buffers;
* the **identity maps** and the gate that drops packets from addresses that are not linked;
* the byte formats: integers, headers, nack lists and the length-prefixed stream of an out buffer.

## How the model is built

Code that changes state is a class (`Receivers.Receiver`, `Channels.Channel`, `SendBuffers.SendBufferManager`,
`ByteBufferPools.ByteBufferPool`, `Fragmentations.Fragmentation`, `Identities.Tachyon`, `Pools.Pool`,
`OutBuffers.OutQueue`, `IntBuffers.IntBuffer`, `IntBuffers.LengthPrefixed`, `SequenceBuffers.SequenceBuffer`).
Each method is proved equal to a function of the old state; these functions are total and keep the source's
integer widths, wraps and branches.

The receiver has three levels. The class computes the functions of `ReceiverSpec`, on wire numbers and rings.
`ReceiverRefinement` shows that those simulate `Reassembly.View`, a receiver over unbounded packet numbers and
sets, as long as arrivals are at most 32766 behind and 1022 ahead of the current sequence: this is where the
wrap at 65535 and the aliasing of slots modulo 1024 are dealt with. Order, uniqueness, completeness and repair
are proved on the `View` and carried back to the wire level.

`Delivery` runs plain and fragmented messages through one receiving end, as the channel computes it and by
packet numbers alone: which arrive (`In`), which are taken (`Out`), and which messages that hands out.
`Protocol` is a step system of two channel ends, ordered or not, and a network that may deliver any datagram
ever sent, any number of times or never; bodies of 1200 bytes and more go out as fragments from the send ring.
`PoolRound` is a step system of the workers of one receive round. In each, a run is a list of steps and the
theorems quantify over all of them.

Conditions the code needs appear as preconditions: receive windows of at most 1022, at most `max_servers`
servers in a pool, senders that stay within the receive window, datagrams that do not outlive half the
sequence space.

## What turned out false

Each of these has a lemma with a concrete failing input, and an exact condition for all inputs.

* A received packet can be lost after a window skip (`SkipLosesReceivedPackets`). `LossExactly`: a packet is
  dropped if and only if the current sequence moves off one that still waits.
* The nack walk can fail to name a missing packet, for ever: received packets at the heads of groups use up its
  iterations (`NackCanMissAGap`, for every window from 32). `NackCompleteness`: every gap is named if and only if
  none lies at or below the floor of the walk.
* `set_resend_list` and `create_nacks` can disagree (`FormsDiffer`, a reachable gap of exactly one).
  `PackedIsSimple`: they agree if and only if nothing is missing between the floors of the two walks, with the
  gap of one decided apart; in a skip-free run, if and only if the walk names every gap (`FormsAgreeWithoutSkips`).
* A fragmented message can be handed out twice (`DeliveredTwice`). `OnceExactly`: nothing is handed out twice if
  and only if, for no fragmented message, all fragments arrive, a header is taken, all fragments arrive again,
  and another header is taken.
* A body of more fragments than the send ring holds is accepted, and the fragments fetched back for sending are
  not all its own (`TooManyFragments`). `FetchedExactly`: they are if and only if there are at most 1023, or 1024
  that do not straddle the wrap.
* Resending a reliable message with a nack sends the whole backing store (`RewriteSendsTheStore`); the copy is
  exact if and only if the message fills it (`RewriteIsExactWhenFull`).
* A single nack that starts at sequence 0 is ignored (`SingleFromZeroIsLost`); any other survives
  (`SingleRoundTrip`).
* An out buffer that receives 100000 messages reports zero bytes written (`FullBufferReadsNothing`); it can be
  read if and only if fewer were received (`OutBufferRoundTrip`).
* `identity_to_address_map` can name an address that is no longer connected (`StaleAddress`); it names the live
  connection if and only if there is one (`AddressIsLive`). A message for an identity can therefore go to another
  identity (`SentToAnotherIdentity`); `SendByIdentity` says exactly when.
* A buffer pool can hand out a buffer too short for the length asked (`ForeignBufferIsTooSmall`).
  `GottenFitsExactly` says when one call does not, and `RunFitsExactly` when no call of a run does: if and only
  if every buffer taken back held the pool's buffer size.

## Model

| member | source | states |
|---|---|---|
| `ProtocolProofs.EndToEnd` | src/tachyon/channel.rs:175-386 | End to end, ordered and unordered, plain and fragmented: over every run of sends, deliveries (lost, repeated, reordered), nacks, resends, publishes and takes, the application takes whole messages that were sent and every message whose packets were all taken; none twice if and only if no message is revived by its fragments arriving again between two of its headers; on an ordered channel in order and without gaps |
| `ProtocolProofs.TakenIsPrefixOfSent` | src/tachyon/channel.rs:276-386 | On an ordered channel what is taken is a prefix of what was sent, unless fragments revive a message; without fragmented messages always |
| `ProtocolProofs.TakenOnce` | src/tachyon/channel.rs:175-242 | On an unordered channel without fragmented messages each message is taken at most once, and only if it was sent |
| `ProtocolProofs.EmptyQueueHasAll` | src/tachyon/receiver.rs:160-200 | When the queue is empty the application has taken every packet that arrived up to the current one, and on an unordered channel every one closer than the window's end |
| `ProtocolProofs.StepKeeps` | src/tachyon/channel.rs:262-386 | Every step of either end or the network keeps the protocol invariant: the sender's ring is that of the packets sent, everything in flight is a packet that was sent or names ones that were, and the receiving end has run through what was delivered to it, without a skip |
| `ProtocolProofs.EmittedIs` | src/tachyon.rs:529-563 | Sending a message, whole or split, emits exactly its packets under the next packet numbers, and the ring has issued exactly them |
| `ProtocolProofs.AnswerIsGenuine` | src/tachyon/channel.rs:352-386 | Whatever sequence is asked for, however old or never sent: if any packet was sent into its slot the answer is some packet that was sent, under its own number, and otherwise a none message |
| `ProtocolProofs.AnswerIsRecent` | src/tachyon/channel.rs:352-386 | The answer to a nack for one of the 1023 most recent packets is that packet, byte for byte |
| `ProtocolRepair.RepairRoundCloses` | src/tachyon/channel.rs:333-405 | One loss-free repair round, ordered or not, plain or fragmented, from any reachable state, with requests pending or not: sending the nacks, resending and receiving the answers in any order with any repeats is possible, and ends with current equal to last if and only if no missing packet lay at or below the floor of the nack walk, as within the nack budget; then every packet up to last is published. What is published is published once, in order if ordered |
| `ProtocolRepair.RepairedThenTaken` | src/tachyon/channel.rs:175-405 | End-to-end completeness: after such a round in a covered window, and takes until the queue is empty, the application has taken every message that ends at or before the last packet that had reached the receiver; on an ordered channel, when that was the last packet sent and no message is revived, exactly the messages sent |
| `ProtocolRepair.AnswersAreTheGaps` | src/tachyon/channel.rs:352-386 | The answers to a receiver's nacks are exactly the packets it misses between the floor of its walk and its last one |
| `Repair.RepairRound` | src/tachyon/receiver.rs:226-279 | The same at the receiver alone, for ordered and unordered channels: after any skip-free run, receiving what the nacks name closes the window if and only if no gap lies at or below the floor of the walk, and then everything up to last is published exactly once |
| `Repair.NackCompleteness` | src/tachyon/receiver.rs:226-279 | All gaps are named if and only if every packet between current and the floor of the walk was received |
| `Repair.NackCanMissAGap` | src/tachyon/receiver.rs:238-250 | For every window from 32 to 1022 there is a skip-free run after which packet 1 is missing and no nack is created, however often the receiver is updated and whichever packets already received arrive again |
| `ReceiverRuns.OrderedDelivery` | src/tachyon/receiver.rs:124-200 | An ordered receiver is a reassembly queue: in every skip-free run, across wraps, current ends the longest prefix of what arrived, and the messages published are exactly that prefix, in order, once each |
| `ReceiverRuns.UnorderedDelivery` | src/tachyon/receiver.rs:160-200 | Unordered promptness: in every skip-free run each packet that arrived closer than the window's end has been published exactly once, and current ends the longest prefix |
| `ReceiverRuns.PublishedOnceAndInOrder` | src/tachyon/receiver.rs:124-200 | Safety with skips: no packet is published twice, none that did not arrive, and on an ordered channel the published packets increase |
| `ReceiverRuns.NothingSkipped` | src/tachyon/receiver.rs:124-131 | In a skip-free run the skip counter stays zero |
| `ReceiverRuns.SkipLosesReceivedPackets` | src/tachyon/receiver.rs:124-158 | A run of five arrivals: packets 2 and 3 are accepted, their second copies refused after a skip, and when 4 arrives it alone has been published and current stands past both |
| `ReceiverRuns.RunSimulates` | src/tachyon/receiver.rs:124-200 | In every run the rings, wire numbers and published queue represent the reassembly view of the same run |
| `ReceiverRefinement.ReceiveSimulates` | src/tachyon/receiver.rs:124-158 | Receiving a packet at most 32766 behind and 1022 ahead of current, on rings and wire numbers, does what receiving it does on sets of packet numbers |
| `ReceiverRefinement.AcceptedExactly` | src/tachyon/receiver.rs:124-158 | `receive_packet` returns true if and only if the packet is past current, after any skip, and not flagged as received |
| `ReceiverRefinement.PublishSimulates` | src/tachyon/receiver.rs:160-200 | The same for the publishing walk: its end test and flags recognise packets across the wrap |
| `ReceiverRefinement.SkipTestIsExact` | src/tachyon/receiver.rs:77-92 | `should_increment_current` is true exactly when the gap exceeds the window, for gaps and windows up to 32766 |
| `ReassemblyProofs.ReceiveSafe` | src/tachyon/receiver.rs:124-158 | Receiving keeps order and uniqueness, invents nothing and takes back nothing delivered |
| `ReassemblyProofs.LossExactly` | src/tachyon/receiver.rs:124-158 | Receiving drops a packet it holds if and only if current moves off one still waiting, by a skip or by the arrival of the next packet |
| `ReassemblyProofs.PublishSafe` | src/tachyon/receiver.rs:160-200 | Publishing keeps order and uniqueness and loses no packet held |
| `ReassemblyProofs.ReceiveWhole` | src/tachyon/receiver.rs:124-200 | Without a skip, after each arrival current ends the longest prefix, the flags are exactly the packets past it, everything that arrived is held, and an unordered receiver has delivered all but the window's end |
| `ReassemblyProofs.PublishWhole` | src/tachyon/receiver.rs:160-200 | The publishing walk reaches the end of the longest prefix and, unordered, delivers everything it passes |
| `ReassemblyProofs.WalkPrefix` | src/tachyon/receiver.rs:160-200 | A walk with enough budget moves current over exactly the consecutive received packets |
| `ReassemblyProofs.WalkPastGap` | src/tachyon/receiver.rs:160-200 | After a gap an unordered walk delivers what it passes and moves neither current nor the flags |
| `Receivers.Receiver.ReceivePacket` | src/tachyon/receiver.rs:124-158 | The method's whole effect and result, equal to the wire-level function the theorems are about |
| `Receivers.Receiver.Publish` | src/tachyon/receiver.rs:160-200 | The publishing loop, equal to the wire-level walk |
| `Receivers.Receiver.SetResendList` | src/tachyon/receiver.rs:202-224 | The one-by-one resend list, equal to the walk compared in `PackedIsSimple` |
| `Receivers.Receiver.CreateNacks` | src/tachyon/receiver.rs:226-279 | The nested nack loops: list, queue and count, equal to the walk of `NackExactness` |
| `Receivers.Receiver.TakePublished` | src/tachyon/receiver.rs:98-100 | Takes the oldest published message |
| `Receivers.Receiver.constructor` | src/tachyon/receiver.rs:25-55 | Starts at sequence 0 with empty rings |
| `NackProofs.NackExactness` | src/tachyon/receiver.rs:226-279 | Expanding the nack list gives exactly the missing sequences between the floor of the walk and last, newest first; the count is its length and there are at most window / 32 nacks |
| `NackProofs.MissingIsExact` | src/tachyon/receiver.rs:226-279 | That list is strictly descending and holds exactly the packets of its range that were not received |
| `NackProofs.NamedAreTheGaps` | src/tachyon/receiver.rs:226-279 | Read by a sender, the nacks name a packet if and only if it is a gap above the floor and below last |
| `NackProofs.BudgetSuffices` | src/tachyon/receiver.rs:236-250 | When the received packets in the window and its groups of 33 fit window / 32, the walk covers the whole window |
| `NackProofs.PackedIsSimple` | src/tachyon/receiver.rs:202-279 | In every state the expanded nack list equals the resend list element for element if and only if nothing is missing between the floors of the two walks or, for a gap of one, the simple form finds nothing at and below current |
| `Repair.FormsAgreeWithoutSkips` | src/tachyon/receiver.rs:202-279 | In every skip-free run the gap is never one, and the two forms agree if and only if the nack walk names every gap |
| `Repair.FormsDiffer` | src/tachyon/receiver.rs:202-224 | A run with a window of 2 after which no nack is created and the resend list is not empty |
| `Nacks.GetNacked` | src/tachyon/nack.rs:100-103 | Appends the start and the flagged sequences, nearest first |
| `Nacks.GetFlagged` | src/tachyon/nack.rs:105-113 | Appends exactly the flagged sequences among the 32 before the start |
| `Nacks.IsNacked` | src/tachyon/nack.rs:115-120 | True exactly for the sequences that `get_nacked` lists |
| `Nacks.IsFlagged` | src/tachyon/nack.rs:122-131 | True exactly for the sequences that `get_flagged` lists |
| `Nacks.SetFlagged` | src/tachyon/nack.rs:133-142 | Adds the sequence to those named if it is one of the 32 before the start, and otherwise changes nothing |
| `Nacks.SetBits` | src/tachyon/nack.rs:149-156 | Sets one flag and leaves the others |
| `Nacks.FlagDecides` | src/tachyon/nack.rs:105-131 | Across the wrap, a sequence in reach is named if and only if its own flag is set |
| `NackCodec.Write` | src/tachyon/nack.rs:18-31 | Writes the count byte and six bytes per nack, and nothing for an empty list |
| `NackCodec.Read` | src/tachyon/nack.rs:86-97 | Appends the sequences of all nacks that stand at the position |
| `NackCodec.ReadSingle` | src/tachyon/nack.rs:33-46 | Appends the sequences of one nack, or none if it starts at 0 |
| `NackCodec.WriteThenRead` | src/tachyon/nack.rs:18-131 | For 1 to 255 nacks, reading what was written gives the concatenation of their sequences, and a sequence is in it if and only if some nack names it |
| `NackCodec.ListRoundTrip` | src/tachyon/nack.rs:18-97 | Nacks read where a list was written name what the list names, in order |
| `NackCodec.ExpandMembers` | src/tachyon/nack.rs:100-131 | A sequence is named by a list if and only if one of its nacks names it |
| `NackCodec.SingleRoundTrip` | src/tachyon/nack.rs:33-56 | A single nack survives its round trip if and only if it does not start at 0 |
| `NackCodec.SingleFromZeroIsLost` | src/tachyon/nack.rs:33-46 | The nack for sequence 0 alone reads back as nothing |
| `Sequence.OrderIsTotal` | src/tachyon/sequence.rs:4-17 | Of two distinct sequences exactly one is greater |
| `Sequence.OrderIsFaithful` | src/tachyon/sequence.rs:4-17 | The comparison agrees with the order of packets up to 32766 apart |
| `Sequence.OrderExact` | src/tachyon/sequence.rs:4-6 | Exactly when a later packet compares as greater, for all distances below 65535 |
| `Sequence.OrderBoundIsTight` | src/tachyon/sequence.rs:4-6 | A pair 32767 apart that compares the wrong way |
| `Sequence.WireStep` | src/tachyon/sequence.rs:19-33 | Next and previous step the packet number, also over the wrap |
| `Sequence.SlotCollision` | src/tachyon/sequence_buffer.rs:7-9 | Within 1023 of each other two packets share a slot if and only if they are exactly 1023 apart with the wrap between them |
| `Sequence.SlotInjective` | src/tachyon/sequence_buffer.rs:7-9 | Packets at most 1022 apart never share a slot |
| `Sequence.TurnIsExact` | src/tachyon/sequence_buffer.rs:7-9 | After how many packets a slot is used again, exactly, wherever the counter stands |
| `SequenceBuffers.SequenceBuffer.Insert` | src/tachyon/sequence_buffer.rs:11-15 | Fills the slot of the sequence and no other |
| `SequenceBuffers.SequenceBuffer.Remove` | src/tachyon/sequence_buffer.rs:17-20 | Empties the slot of the sequence and no other |
| `SequenceBuffers.SequenceBuffer.Take` | src/tachyon/sequence_buffer.rs:31-34 | Returns what the slot held and empties it |
| `SendBuffers.Retention` | src/tachyon/send_buffer_manager.rs:37-110 | After any number of sends, through all recycling and across the wrap, each of the 1023 most recent packets is found under its sequence with its own bytes and length |
| `SendBuffers.RetentionIsTight` | src/tachyon/send_buffer_manager.rs:87-110 | Across the wrap the packet 1023 back has lost its slot to the newest |
| `SendBuffers.RetainedExactly` | src/tachyon/send_buffer_manager.rs:37-110 | A packet is found under its sequence if and only if its slot has not had its next turn, which comes after 1024 packets, or 1023 or 2047 around the wrap; after that a later packet is found, with its own sequence |
| `SendBuffers.RingIsGenuine` | src/tachyon/send_buffer_manager.rs:87-110 | Every slot is empty or holds a packet sent into it, under its own sequence and with its own bytes |
| `SendBuffers.CreatedFits` | src/tachyon/send_buffer_manager.rs:87-110 | A new send buffer has the next sequence and the requested length and is backed by at least that many bytes |
| `SendBuffers.SendBufferManager.CreateSendBuffer` | src/tachyon/send_buffer_manager.rs:87-110 | The whole effect on sequence, ring and pool, and that the buffer returned is the one found under the current sequence |
| `SendBuffers.SendBufferManager.GetSendBuffer` | src/tachyon/send_buffer_manager.rs:37-46 | Looks up the slot of the sequence |
| `ByteBufferPools.GottenFits` | src/tachyon/byte_buffer_pool.rs:94-123 | A pool of its own buffers hands out buffers of its own, long enough and with the length asked, and stays such a pool |
| `ByteBufferPools.GottenFitsExactly` | src/tachyon/byte_buffer_pool.rs:94-123 | For any pool: a buffer handed out holds its length if and only if it is oversize, freshly made, or the one at the front is long enough |
| `ByteBufferPools.RunFitsExactly` | src/tachyon/byte_buffer_pool.rs:82-123 | Over every run of gets and returns: at every point all further gets fit, whatever lengths are asked, if and only if every buffer taken back held the pool's buffer size |
| `ByteBufferPools.ReturnedSound` | src/tachyon/byte_buffer_pool.rs:82-92 | Returning one of its buffers keeps the pool sound; it is taken exactly when pooled and there is room |
| `ByteBufferPools.ReturnedComesBack` | src/tachyon/byte_buffer_pool.rs:82-125 | First in, first out: a buffer taken back is handed out after those already there, with its bytes and its version raised by one |
| `ByteBufferPools.ForeignBufferIsTooSmall` | src/tachyon/byte_buffer_pool.rs:82-123 | A 1024-byte buffer made elsewhere is accepted and handed out for 1240 bytes |
| `ByteBufferPools.ByteBufferPool.GetBuffer` | src/tachyon/byte_buffer_pool.rs:94-123 | The whole effect on the deque, count, length and version |
| `ByteBufferPools.ByteBufferPool.ReturnBuffer` | src/tachyon/byte_buffer_pool.rs:82-92 | The whole effect on the deque and count, and whether it was taken |
| `Channels.Channel.constructor` | src/tachyon/channel.rs:142-157 | A channel end starts with a fresh sender, receiver and fragment store |
| `Channels.Channel.SendReliable` | src/tachyon/channel.rs:276-331 | The datagram sent is header and body under the next sequence, and the send ring has issued exactly it |
| `Channels.Channel.Send` | src/tachyon.rs:529-563 | Bodies below 1200 bytes go out as one message, longer ones as what is fetched back from the ring; from any sender that has sent `contents` these are exactly the fragments of the body under the next packet numbers if and only if the ring holds that many |
| `Channels.Channel.ProcessNackMessage` | src/tachyon/channel.rs:262-266 | Every sequence named by the nacks is mapped to the sender's address, and other entries stay |
| `Channels.Channel.ProcessSingleNack` | src/tachyon/channel.rs:269-273 | The same for the nack carried by a reliable message |
| `Channels.Channel.CopyNackedToMap` | src/tachyon/channel.rs:343-347 | The map gains exactly the nacked sequences |
| `Channels.Channel.ResendNacked` | src/tachyon/channel.rs:352-386 | Each nacked sequence is answered once, to the address that asked, with nothing else sent, and the map is emptied |
| `Channels.Channel.AnswerNack` | src/tachyon/channel.rs:360-383 | The answer is the buffer's used bytes, the rewritten store of a message with a nack, or a none message for an empty slot |
| `Channels.Channel.SendNacks` | src/tachyon/channel.rs:389-405 | The nacks sent are those of the receiver's walk |
| `Channels.Channel.Update` | src/tachyon/channel.rs:333-341 | Nacks, then an answer to each nacked sequence and nothing else, then publishing |
| `Channels.Channel.ReceiveMessage` | src/tachyon.rs:412-454 | A sequenced datagram goes to the receiver, a fragment to its group and its header to the receiver, and a carried nack to the map; the result is true exactly for a reliable message that the receiver accepts |
| `Channels.Channel.ProcessFragmentMessage` | src/tachyon/channel.rs:252-259 | A fragment is collected and its header alone is received |
| `Channels.Channel.ReceivePublished` | src/tachyon/channel.rs:175-187 | At most 1000 messages are taken from the queue, up to the first with a nonempty body, which is returned; `NextBody` says what that is in any run |
| `Channels.Channel.ReceiveOne` | src/tachyon/channel.rs:190-242 | One published message: none, fragment header (assemble), or body behind its header |
| `Datagrams.CarriedNackIs` | src/tachyon/channel.rs:269-273 | From the bytes: a reliable message with a nack asks for exactly the nack's start and those of the 32 sequences before it whose flag is set, or for nothing when the start is 0; no other message asks for anything |
| `Datagrams.WithNackArrives` | src/tachyon.rs:436-452 | From the bytes: a reliable message with a nack arrives under its own sequence, is reported exactly when the receiver accepts it, and yields its body without the nack |
| `Datagrams.ReliableArrives` | src/tachyon.rs:436-452 | The same for a reliable message |
| `Datagrams.NoneArrives` | src/tachyon/channel.rs:160-250 | A none message reads back as one for its sequence, arrives as that packet, is not reported and yields no body |
| `Datagrams.NoneClosesGap` | src/tachyon/channel.rs:244-250 | After every skip-free run, ordered or not, a none message for packet `n` counts as its arrival: current then ends the longest prefix with `n` in it |
| `Datagrams.OtherTypesIgnored` | src/tachyon.rs:412-454 | A datagram of any other type is no packet: receiver, groups and map stay |
| `ChannelSpec.MessageFields` | src/tachyon/channel.rs:294-317 | A reliable message reads back as its type, channel, sequence and body |
| `ChannelSpec.RewriteIsExactWhenFull` | src/tachyon/channel.rs:407-418 | The rewritten resend equals the plain message if and only if the message fills its backing store |
| `ChannelSpec.RewriteSendsTheStore` | src/tachyon/channel.rs:407-418 | A body of one byte in a pooled buffer is resent with the rest of the buffer behind it |
| `DeliveryProofs.FragmentedDelivery` | src/tachyon/channel.rs:175-259 | Plain and fragmented messages into one channel end, ordered or not, with skips or without, under any reordering and duplication: the application takes whole messages that were sent and every one whose packets were all taken; none twice if and only if no message is revived; in order if ordered |
| `DeliveryProofs.OrderedPrefix` | src/tachyon/channel.rs:175-259 | Without skips an ordered channel end hands out messages without gaps: unless one is revived, a prefix of those sent |
| `DeliveryProofs.EmptyQueue` | src/tachyon/channel.rs:175-242 | Without skips an emptied queue has yielded everything that arrived up to current, and unordered everything closer than the window's end |
| `DeliveryProofs.NextBody` | src/tachyon/channel.rs:175-187 | After every run, one call for the next body is some number of takes, each of which pops one message: what is taken grows by exactly the body returned, only the last take yields it, and the call returns nothing only when the queue is empty or all its attempts popped a message and none had a body |
| `DeskProofs.OnceExactly` | src/tachyon/channel.rs:203-219 | By packet numbers: no message is handed out twice if and only if there is no fragmented message all of whose fragments arrive before a take of one of its headers and again between that take and a later take of another |
| `DeskProofs.NoneMissed` | src/tachyon/channel.rs:203-219 | A message whose packets have all been taken has been handed out |
| `DeskProofs.WithoutGaps` | src/tachyon/channel.rs:203-219 | When packets are taken in turn, messages are handed out in order and without gaps |
| `DeskProofs.HandedInOrder` | src/tachyon/channel.rs:203-219 | When packets are taken in increasing order, also with some skipped, messages are handed out in order |
| `DeliveryProofs.DeliveredTwice` | src/tachyon/channel.rs:252-259 | A skip-free run in which a message of 1201 bytes is taken twice |
| `DeliveryProofs.ReceiverIs` | src/tachyon/channel.rs:244-259 | Up to what was taken from its queue, the receiver inside a channel is the receiver on its own, fed each packet with a fragment cut to its header |
| `DeliveryProofs.AssembledHolds` | src/tachyon/fragmentation.rs:59-96 | With many groups under collection, a header assembles its own message exactly when all its fragments are there, and otherwise changes nothing |
| `DeliveryProofs.CollectedHolds` | src/tachyon/fragmentation.rs:98-117 | A fragment is added to its own group and to no other |
| `Fragmentations.FragmentedTransfer` | src/tachyon/fragmentation.rs:59-157 | A message of 1 to 1023 fragments, created behind any earlier traffic, fetched from the send ring and delivered in any order with any duplicates: `assemble` fails and changes nothing until all have arrived, then returns exactly the message and removes the group |
| `FragmentSpec.RoundTrip` | src/tachyon/fragmentation.rs:59-157 | The same without the send ring, for up to 65535 fragments, also when their sequences straddle the wrap |
| `FragmentSpec.HeldStays` | src/tachyon/fragmentation.rs:98-117 | Whatever fragments arrive, the first under a group and sequence stays the one held |
| `Fragmentations.AssembledExactly` | src/tachyon/fragmentation.rs:59-96 | For any groups and header: assembling succeeds if and only if the group has as many fragments as the header says and they are the consecutive ones from its start, also over the wrap; it yields their payloads in sequence and drops the group exactly when the count is reached |
| `FragmentSpec.ChunksJoin` | src/tachyon/fragmentation.rs:119-157 | The chunks join to the message and are as many as its length over 1200, rounded up |
| `FragmentSpec.FragmentsAreRetained` | src/tachyon/fragmentation.rs:119-157 | Up to 1023 fragments are all still in the send ring when the last one is written |
| `FragmentSpec.GroupIdsDiffer` | src/tachyon/fragmentation.rs:43-49 | A group id is used again after exactly 65533 fragmented messages |
| `Numbering.NumberedIsProper` | src/tachyon/fragmentation.rs:43-49 | Up to 65533 fragmented messages of a channel carry different group ids |
| `Fragmentations.FetchedAreFragments` | src/tachyon.rs:536-552 | What the sender fetches back for its fragments is the fragments |
| `Fragmentations.FetchedAfterIssue` | src/tachyon.rs:536-552 | A sender that has sent anything before and splits a body into at most 1023 chunks fetches exactly the body's fragments, under consecutive packet numbers |
| `Fragmentations.FetchedExactly` | src/tachyon.rs:529-552 | For bodies of any length: exactly the body's fragments are fetched if and only if there are at most 1023, or 1024 that do not straddle the wrap |
| `Fragmentations.TooManyFragments` | src/tachyon.rs:529-552 | A body of 1025 chunks, for which not its own fragments are fetched, wherever the counter stands |
| `Fragmentations.Fragmentation.GetNextGroup` | src/tachyon/fragmentation.rs:43-49 | The next id, from 1 to 65533 |
| `Fragmentations.Fragmentation.GetGroupLength` | src/tachyon/fragmentation.rs:51-57 | The sum of all payloads, in whatever order the map yields them |
| `Fragmentations.Fragmentation.Assemble` | src/tachyon/fragmentation.rs:59-96 | The copying loop never runs past its buffer and yields the payloads of consecutive sequences; incomplete groups stay, others are removed |
| `Fragmentations.Fragmentation.ReceiveFragment` | src/tachyon/fragmentation.rs:98-117 | The first copy of a fragment is kept, and completeness is reported |
| `Fragmentations.Fragmentation.CreateFragments` | src/tachyon/fragmentation.rs:119-157 | The fragments, with header and chunk, are issued under consecutive sequences, which are returned |
| `Pools.Pool.ReceiveRound` | src/tachyon/pool.rs:230-306 | A whole round, for every order of draining the map and every interleaving of the workers: every server is back under its id, what `published` gained from it followed by what is still pending there is what was pending before, in order, and the gain is all of it up to 100000 messages; nothing comes from elsewhere |
| `PoolProofs.RoundConserves` | src/tachyon/pool.rs:216-306 | Over every schedule, once the countdown is over: each server was received from exactly once, no push or pop failed, all queues and buffers are back, and for each server the messages in the queues, in order, followed by those still pending are those pending before, at most 100000 of them moved; no other id has gained a server or a message |
| `PoolProofs.StepKeeps` | src/tachyon/pool.rs:265-280 | Every step of a worker keeps the invariant: servers leave the queue in their original order, each is in one place, queues and buffers are conserved, and a server's messages are all in one queue |
| `PoolProofs.CountdownIsExact` | src/tachyon/pool.rs:279-292 | The countdown reaches zero exactly when every worker is finished |
| `PoolProofs.RoundFinishes` | src/tachyon/pool.rs:265-292 | No worker waits for another: eight turns each finish the round under any schedule |
| `Pools.Pool.Receive` | src/tachyon/pool.rs:245-284 | False and nothing changed without servers, also during a round; otherwise each server is queued once, with one worker each |
| `Pools.Pool.MoveReceivedToPublished` | src/tachyon/pool.rs:216-228 | `published` gains the contents of all queues in queue order, every queue is put back empty, and the count is theirs |
| `Pools.Pool.FinishReceive` | src/tachyon/pool.rs:286-306 | Nothing without a round; otherwise messages are published, servers are back in the map, and both counts are right |
| `OutBuffers.ReceiveIntoOutBuffer` | src/tachyon/pool.rs:345-357 | The buffer holds the framed messages up to the limit; the byte count is set exactly when the server ran empty within it |
| `OutBuffers.OutBufferRoundTrip` | src/tachyon/pool.rs:345-357 | Reading `count` records from the bytes said to be written gives the messages back if and only if fewer than 100000 were received |
| `OutBuffers.FullBufferReadsNothing` | src/tachyon/pool.rs:345-357 | 100000 messages of one byte each fill the buffer, and with the byte count recorded for them none can be read |
| `OutBuffers.OutQueue.GetNextOutBuffer` | src/tachyon/pool.rs:359-383 | Copies out and clears the first filled buffer, rotates past the others, and reports zero exactly when none is filled |
| `OutBuffers.OutQueue.constructor` | src/tachyon/pool.rs:65-75 | The queue starts full of distinct empty buffers of the given length |
| `OutBuffers.DrainedIsFilled` | src/tachyon/pool.rs:359-383 | Repeated calls hand out every filled buffer exactly once, in queue order |
| `Identities.MapsAgree` | src/tachyon/connection_impl.rs:26-186 | After every run of set, link, unlink and receive, a nonzero identity labels at most one connection, under the registered session and at the recorded address, and the channel keys are exactly the connected addresses times the configured ids |
| `Identities.IdentityGate` | src/tachyon.rs:349-454 | With identities on, after every run, a packet gets past the gate if and only if it is no link or unlink request and its address is linked at that moment; the session stored there is then the registered one, and the packet goes where its type and configured channel say |
| `Identities.SettingRevokes` | src/tachyon/connection_impl.rs:26-34 | After `set_identity` no address linked to that id passes the gate |
| `IdentityRuns.LinkedExactly` | src/tachyon.rs:349-369 | With identities on, after every run, an address is linked to an identity if and only if some event was a link request from it with the session then registered, and no later event set the identity, unlinked it or linked it from elsewhere with the session then registered, or linked the address to another |
| `IdentityRuns.GateExactly` | src/tachyon.rs:336-454 | So a packet that is no link or unlink request reaches its destination if and only if its source is linked in that sense, and otherwise is dropped |
| `IdentityRuns.SessionIsLastSet` | src/tachyon/connection_impl.rs:26-34 | After every run an identity is registered under the session it was last set to, and not at all if that was 0 |
| `IdentityRuns.UnlinkExactly` | src/tachyon/connection_impl.rs:173-186 | After every run an unlink request is granted if and only if its session is the one last set: refused, it changes nothing; granted, no address is linked to the identity or recorded for it, and every other connection, channel, session and recorded address is kept |
| `IdentityRuns.LinkExactly` | src/tachyon/connection_impl.rs:148-171 | The same for a link request: granted, its address alone is linked to the identity, under that session, and recorded for it |
| `IdentityRuns.WithoutIdentities` | src/tachyon.rs:370-454 | Without identities, after every run: the connected addresses are exactly the sources of packets that arrived and were not removed since by setting identity 0; a packet connects its source with its configured channels and goes to the address if unreliable, to its channel if of one of the five sequenced types on a configured channel, and is an error otherwise |
| `Identities.SendReaches` | src/tachyon.rs:499-527 | After every run a reliable message reaches exactly the addresses connected at that moment, on the configured channels other than 0, if it is nonempty, the socket is bound and the sender is not a client still to be linked; otherwise each error is reported exactly when its condition is the first to fail |
| `Identities.SendByIdentity` | src/tachyon.rs:456-475 | Where a reliable message for an identity goes after every run: to its own connection if and only if it has one, to another identity's connection if and only if it has none and the address recorded for it is connected, and otherwise nowhere |
| `Identities.SendUnreliable` | src/tachyon.rs:456-497 | Where an unreliable message goes after every run: without an identity to the address given, for an identity to the address recorded for it, which is its own connection if and only if it has one; each error exactly when its condition is met |
| `Identities.AddressIsLive` | src/tachyon/connection_impl.rs:148-171 | The address recorded for an id is its live connection if and only if it has one |
| `Identities.StaleAddress` | src/tachyon/connection_impl.rs:26-34 | A run after which a recorded address is no longer connected |
| `Identities.SentToAnotherIdentity` | src/tachyon.rs:456-475 | A run after which a message for identity 1 goes to the connection of identity 2 |
| `Identities.Tachyon.SetIdentityOf` | src/tachyon/connection_impl.rs:26-34 | The whole effect on connections, channels and maps |
| `Identities.Tachyon.AddConnection` | src/tachyon/connection_impl.rs:36-43 | The connection and its configured channels |
| `Identities.Tachyon.RemoveConnection` | src/tachyon/connection_impl.rs:45-49 | Removes the connection and its channels |
| `Identities.Tachyon.RemoveConnectionByIdentity` | src/tachyon/connection_impl.rs:133-144 | Removes every connection of the id, and no other |
| `Identities.Tachyon.TryLinkIdentity` | src/tachyon/connection_impl.rs:148-171 | Links exactly when the session is the registered one; the whole effect either way |
| `Identities.Tachyon.TryUnlinkIdentity` | src/tachyon/connection_impl.rs:173-186 | Unlinks exactly when the session is the registered one |
| `Identities.Tachyon.CreateConfiguredChannels` | src/tachyon.rs:207-217 | A channel for each configured id |
| `Identities.Tachyon.RemoveConfiguredChannels` | src/tachyon.rs:230-235 | Removes the channels of the address |
| `Identities.Tachyon.ReceiveFromSocket` | src/tachyon.rs:336-454 | Gate and dispatch: where each kind of packet goes and what it changes |
| `Identities.Tachyon.SendReliable` | src/tachyon.rs:499-527 | The tests before a message reaches a channel, in order, with the error code of the first that fails |
| `Identities.Tachyon.SendToTargetOf` | src/tachyon.rs:456-475 | An identity stands for its recorded address or is an error; channel 0 is unreliable |
| `IntBuffers.StreamRoundTrip` | src/tachyon/int_buffer.rs:95-110 | Where a stream stands, `ReadRecords`, which the reading cursor follows, gives the records back in order |
| `IntBuffers.WriteThenRead` | src/tachyon/int_buffer.rs:87-110 | Any records that fit, written with one `LengthPrefixed` and read back with as many reads, come back in order, and both indices end at the sum of 18 plus each payload length |
| `IntBuffers.StreamAppend` | src/tachyon/int_buffer.rs:95-101 | Writing one more record appends its bytes, and the length is the sum of 18 plus each payload length |
| `IntBuffers.LengthPrefixed.Write` | src/tachyon/int_buffer.rs:95-101 | Overwrites exactly the record's bytes and advances the index by 18 plus the payload length |
| `IntBuffers.LengthPrefixed.Read` | src/tachyon/int_buffer.rs:103-110 | The record that stands at the index, if a whole one does |
| `IntBuffers.U16RoundTrip` | src/tachyon/int_buffer.rs:49-60 | A 16-bit integer reads back as written |
| `IntBuffers.U32RoundTrip` | src/tachyon/int_buffer.rs:29-47 | A 32-bit integer reads back as written |
| `IntBuffers.AddressRoundTrip` | src/tachyon/int_buffer.rs:11-27 | An address reads back as written |
| `Headers.PlainRoundTrip` | src/tachyon/header.rs:87-104 | A plain header reads back as written |
| `Headers.FragmentedRoundTrip` | src/tachyon/header.rs:107-132 | A fragment header reads back as written |
| `Headers.PlainOfAny` | src/tachyon/header.rs:76-117 | Type, channel and sequence of any header kind can be read as those of a plain one |
| `Headers.WriteNacked` | src/tachyon/header.rs:76-85 | Overwrites exactly the ten bytes of a nacked header |
| `Headers.WriteFragmented` | src/tachyon/header.rs:107-117 | Overwrites exactly the ten bytes of a fragment header |

## Left out

- Sockets, random packet dropping, address conversion, the foreign-function interface, callbacks and events: I/O. What a method sends is returned; what it receives is a parameter.
- The variable-length byte format of nack messages: it belongs to an external library. Nack messages travel as lists of nacks; the fixed-width format is modelled byte by byte.
- Nacks inside outgoing reliable messages: `nack_redundancy` is 0, since src/tachyon/channel.rs:315 writes only the four-byte header. Receiving such messages and resending them is modelled.
- The order in which a server polls its channels, which is that of a hash map: each poll is one `ReceivePublished`.
- Clocks: expiry of send buffers and fragment groups (no channel update calls either), link-request timing, statistics.
- The client side of identities: only the server's gate and maps and the test that lets a client send are modelled; linking messages and their acknowledgements are not.
- Datagrams shorter than their header: the source reads the missing fields from what an earlier datagram left in the receive buffer; the model ignores such datagrams.
- Channels.Channel.ReceiveMessage: ignores datagrams below four bytes and fragments below ten, where the source reads stale bytes of the receive buffer; of a reliable message with a nack below ten bytes it drops the nack.
- Channels.Channel.ReceiveOne: a published reliable message with a nack of four to nine bytes yields an empty body, where the source computes a negative length and stops.
- Channels.Channel.SendReliable: fixes `nack_redundancy` to 0, although the source's default configurations use more, because with nacks inside the message six of the bytes sent are whatever the recycled buffer held.
- Identities.Tachyon.ReceiveFromSocket: models the server's branch; the client's branch only sets and tests its own linked flag.
- Pools.Pool.Receive: does not model servers added to a pool during a round, which would start a second round beside the first.
- Send buffers and pool buffers are values: that a buffer is not changed through an old reference after it was recycled is Rust's ownership, not a theorem here. The buffer pool on the receive side is left out; a received message is its bytes.
- Channels in the identity maps are keys only: the contents of a channel that is removed and created again are not followed.
- Reuse of a group id: a channel starts over after 65533 fragmented messages, and fragments left from the earlier use then mix with the later.
- Receive windows above 1022: slots alias, and the source does not exclude them. Windows of 2^31 and more, where the source's cast changes sign, are not modelled.
- Pools with `max_servers` + 1 servers, which src/tachyon/pool.rs:98 admits; `receive_blocking` and the parallel loop around the out buffers, which pop and push the same queues as the receive round; connection maps and sending through a pool.
- Counters (`count`, `version`, stream indices) are unbounded integers.
- EndToEnd: assumes that the sender stays within the receive window and sends at most 65533 fragmented messages, and that no datagram outlives half the sequence space, because the source establishes none of these.
- TakenIsPrefixOfSent: assumes that the sender stays within the receive window and that no datagram outlives half the sequence space, because the source establishes neither.
- PublishedOnceAndInOrder: assumes arrivals at most 32766 behind and 1022 ahead of current, because beyond that wire numbers and slots are ambiguous.
- FragmentedDelivery: assumes that group ids are not reused within the run.
- ReceiveIntoOutBuffer: assumes that the framed messages fit the buffer; the source panics otherwise.
- NackCodec.WriteThenRead: assumes at most 255 nacks, because the count is written as one byte.
