# Verified models of the TinyOS contributions

This project models parts of the TinyOS `beta` and `contrib` trees in Dafny and proves what
they promise.  Code that changes variables, arrays or linked nodes in place is modelled by
classes and methods that do the same; each is proved against a specification on values, and
the properties of whole runs are proved about that specification.  Protocols of interrupts,
posted functions and events are state machines whose steps may come in any order that the
hardware or the scheduler allows.

- **Compressed node sets** (`Bits`, `RunLength`, `Shortest`, `PackedLayout`, `NodeSet`,
  `Sizing`, `Encoder`, `Decoder`, `SetRoundTrip`, `ShippedSet`, `RollCall`, `SetAlgebra`).
  A bit vector is packed into four-bit entries with an index and an optional header for its
  leading run.  The reference packing knows no cursors, and none has fewer entries; the
  sizing loop, the encoding loop and the decoding loop are each proved against it, so they
  agree with one another, and the round trip is exact under a condition that is proved
  necessary as well.
- **The packet-level radio simulator** (`PacketSpec`, `PacketInvariant`, `PacketRuns`,
  `PacketTimes`, `PacketLaws`, `IncomingList`, `PacketSim`).  An event-driven protocol with
  a linked list of incoming packets per mote: what is delivered and when, what an
  acknowledgement means in any topology, and how long motes wait.  Every draw of the random
  generator is an argument of a step.
- **The buffered serial port** (`Rings`, `PtrQueue`, `UartSpec`, `BufferedUart`) and the
  **synchronous serial port** (`SspSpec`, `SspProtocol`, `Ssp`): no lost wakeup, one transfer
  in flight, each completion once.
- **Two schedulers** (`IndexRing`, `NullRing`): one ring that writes a slot after
  leaving its critical section, one that tells full from empty by null slots.
- **Containers and strings** (`FileList`, `DynQueue`, `ByteQueue`, `CmdLine`).
- **Accounting** (`Carrier`, `RadioTicks`, `Energy`, `EnergyTotals`): bits on the air, and
  the energy integral of a trace.

`dafny verify dfyconfig.toml` checks the whole project.

## Where the code does not do the plain thing

Each is modelled as it is, with the exact condition under which it does:

- The decoder's 14-bit length wraps for sets that fill more than 16383 bytes with padding
  (`SetRoundTrip.RoundTrip`, `ShippedSet.WrappedLength`).
- Marks of slots from 65536 on are read at the slot number modulo 65536
  (`PackedLayout.ReadSlotsIff`, `PackedLayout.SlotWraps`).
- A roll call sends the projected length only, and the receiver unpacks whatever its buffer
  holds behind the message: the set comes back for every content exactly if no record is
  left out and there is room for the padding (`RollCall.SurvivesIff`, `RollCall.StaleBuffer`);
  for a given content, exactly if the slots left out read as they were packed
  (`RollCall.TailDecides`).  If the buffer happens to be zero there, the projection can still
  be one byte short (`ShippedSet.ShippedRoundTrip`, `ShippedSet.ShortProjection`).
- The receiver unpacks into 19 data bytes, which hold every set but not always its padding or
  what its buffer makes of the slots left out: `RollCall.StaysInsideIff` says when it stays
  inside them, and `RollCall.LoneNode` gives sets for which it does not, node 144 alone for one.
- Above 65536 bytes the decoder's 16-bit output cursor starts again at the first byte
  (`Decoder.DecompressSet`).
- `intersectSets`, `testBit` and `clearBit` (`SetAlgebra.NoIntersection`,
  `SetAlgebra.MissedBit`, `SetAlgebra.ClearedTooMuch`); the comment of `subtractSets` names its
  operands the wrong way round, and `copySet` wraps for sets of more than 65535 bytes.
- With two links from one mote to the same other mote, an acknowledgement can be told that
  is false (`PacketRuns.AcksAreTrueIff`); `PacketLaws.AcknowledgedIff` says what it means then.
- Lengths of 65536 and more never complete on the buffered serial port
  (`UartSpec.AllReportedIff`).
- Receive-without-transmit mode, switched on during a transmission, disturbs it, and a
  receive completes only in that mode (`SspProtocol`).
- `pop_front` into an array copies as many bytes as asked for, not as many as there are
  (`ByteQueues.ByteQueue.PopFront`).
- `cntArgs` of an empty string is one (`CmdLine.ArgsAreWords`).
- The static radio model miscounts if a link is added under a bit (`Carrier.StaticNewLinkIff`).

## Model

| member | source | states |
|---|---|---|
| RunLength.UnpackPack | beta/SystemCore/MementoMori/CompressedSet.h:566-570 | the run-length code, defined without any cursor, loses nothing: what a packing stands for is the nibble sequence it was made from |
| RunLength.PackSnoc | beta/SystemCore/MementoMori/CompressedSet.h:646-763 | how the packing grows by one nibble: the second nibble of a leading run moves all entries into the superskip, any other extends the entries and leaves the superskip alone |
| RunLength.JoinTest | beta/SystemCore/MementoMori/CompressedSet.h:390-403 | the test both encoders make (same span as before, fewer than seven counted) decides exactly whether the nibble joins the last entry, after the superskip as well, where only one of them counts |
| RunLength.PackNew | beta/SystemCore/MementoMori/CompressedSet.h:699-763 | a nibble that neither leads nor joins starts one entry of its own and ends the leading run |
| RunLength.PackJoin | beta/SystemCore/MementoMori/CompressedSet.h:678-695 | a nibble that continues the last fill run raises its count by one and changes nothing else |
| RunLength.PackLead | beta/SystemCore/MementoMori/CompressedSet.h:646-674 | a nibble that continues the leading run leaves a superskip of the whole run and no entries |
| RunLength.CountedBound | beta/SystemCore/MementoMori/CompressedSet.h:384-454 | no prefix needs more entries than the whole, so every cursor of the encoder stays inside the space the sizing pass asked for |
| ShortestPacking.PackIsShortest | beta/SystemCore/MementoMori/CompressedSet.h:379-454 | of all packed forms that stand for the same nibbles, with fill runs of at most seven and a superskip, if any, of more than one, none has fewer entries than the reference packing |
| PackedLayout.AppendHolds | beta/SystemCore/MementoMori/CompressedSet.h:699-756 | writing the four bits of a record behind the entries and marking its index bit appends that entry and disturbs no other |
| PackedLayout.CountHolds | beta/SystemCore/MementoMori/CompressedSet.h:684-695 | raising the three-bit counter of the last record in place makes its fill run one longer and disturbs no other |
| PackedLayout.LayoutSkip | beta/SystemCore/MementoMori/CompressedSet.h:651-674 | relocating index and data behind a superskip header leaves a layout with that superskip and no entries |
| PackedLayout.LayoutNew | beta/SystemCore/MementoMori/CompressedSet.h:699-763 | the wrap-around cursor (byte 0xFFFF, half 1) and the record it moves to stay on the last entry of the layout |
| PackedLayout.LayoutCount | beta/SystemCore/MementoMori/CompressedSet.h:684-695 | counting in the cursor's record counts in the last entry of the layout |
| PackedLayout.ReadSlotsIff | beta/SystemCore/MementoMori/CompressedSet.h:316-323 | marks are tested by a 16-bit number, so what the decoder reads is what the layout holds if and only if no slot from 65536 on is marked otherwise than the one 65536 before it (modulo 65536); always so up to 8192 index bytes |
| PackedLayout.SlotWraps | beta/SystemCore/MementoMori/CompressedSet.h:546-550 | an index of 8193 bytes whose slot 65536 is a clear literal and is read as an empty fill |
| NodeSets.CopySet | beta/SystemCore/MementoMori/CompressedSet.h:280-294 | header fields and data bytes of a set, plain or compressed, arrive and nothing behind them changes; all of them exactly when the size fits 16 bits, else those below the wrapped size, which for 65537 bytes is the low header byte alone |
| NodeSets.SetsEqual | beta/SystemCore/MementoMori/CompressedSet.h:155-167 | true exactly when lengths and bytes are equal |
| Sizing.PreprocessSet | beta/SystemCore/MementoMori/CompressedSet.h:362-502 | the sizing loop computes the number of entries of the reference packing (hence the index length), the projected length, and whether packing saves bytes, for every uncompressed set |
| Sizing.SizingSkip | beta/SystemCore/MementoMori/CompressedSet.h:395-399 | a superskip step of the sizing loop keeps its account of the packing so far, and its count never reaches the 15-bit limit |
| Sizing.SizingNew | beta/SystemCore/MementoMori/CompressedSet.h:403-450 | every other step opens an entry: the cursor, the payload length and the superskip flag again describe the packing |
| Encoder.CompressSet | beta/SystemCore/MementoMori/CompressedSet.h:571-776 | with any index length that fits, the encoder leaves exactly the reference packing of the set in the buffer, padded with clear entries, within 5 bytes per index byte and the header |
| Encoder.EncodingSkip | beta/SystemCore/MementoMori/CompressedSet.h:646-674 | a superskip step of the encoder keeps buffer and packing in step, also the first one, which relocates the index |
| Encoder.EncodingJoin | beta/SystemCore/MementoMori/CompressedSet.h:678-695 | an append step of the encoder does |
| Encoder.EncodingNew | beta/SystemCore/MementoMori/CompressedSet.h:699-763 | a step that opens a record does, and the record lies inside the buffer |
| Encoder.MarkBitArray | beta/SystemCore/MementoMori/CompressedSet.h:296-304 | sets or clears the one bit whose number is the argument cut to 16 bits, and changes no other |
| Decoder.TestBitArray | beta/SystemCore/MementoMori/CompressedSet.h:316-323 | tests the bit whose number is the argument cut to 16 bits |
| Decoder.DecompressSet | beta/SystemCore/MementoMori/CompressedSet.h:792-956 | for every packed set and every buffer it fits into, one that the 16-bit output cursor goes round in included: every place the cursor reaches holds the last nibble read (marks by 16-bit slot numbers) that came there, a half byte begun is cleared, and the length is the 14-bit, trimmed one; an uncompressed set is copied |
| Decoder.DecodedOnce | beta/SystemCore/MementoMori/CompressedSet.h:792-956 | up to 65536 bytes that is all nibbles, in order, from the first byte on, with a cleared last half |
| Decoder.Unravel | beta/SystemCore/MementoMori/CompressedSet.h:838-852 | the superskip becomes that many spans; bytes are not cleared first, so an odd run leaves the other half of its last byte as it was |
| Decoder.EmitEntry | beta/SystemCore/MementoMori/CompressedSet.h:871-943 | a slot writes exactly the nibbles its entry stands for and clears the byte it begins |
| Decoder.TrimSet | beta/SystemCore/MementoMori/CompressedSet.h:778-790 | a set whose bytes are all zero keeps its length; of any other exactly the zero bytes at the end are cut off; the loop ends by wrapping below zero |
| Decoder.TrimmedIs | beta/SystemCore/MementoMori/CompressedSet.h:778-790 | what is trimmed, on bytes: everything behind is zero, and the last byte left is not, unless all were |
| Decoder.BlankDecoded | beta/SystemCore/MementoMori/CompressedSet.h:792-956 | a packed form of nothing but zero nibbles decodes to its whole length, cut to 14 bits, also where the 16-bit cursor starts again |
| Decoder.MaxDecompressedLen | beta/SystemCore/MementoMori/CompressedSet.h:515-564 | for every set: the header and exactly the bytes the decoder fills before trimming, with the same 16-bit reading of marks, if that is fewer than 65536 nibbles, and too small otherwise |
| SetRoundTrip.RoundTrip | beta/SystemCore/MementoMori/CompressedSet.h:1209-1284 | for every set: what comes back has the same members if and only if the 14-bit length can hold the length before trimming or only zero bytes are cut off; always so up to 16379 bytes |
| SetRoundTrip.RoundTripCanonical | beta/SystemCore/MementoMori/CompressedSet.h:1209-1284 | up to 16379 bytes a set without trailing zero bytes comes back with the same length and bytes |
| SetRoundTrip.PackAndUnpack | beta/SystemCore/MementoMori/CompressedSet.h:1239-1260 | sizing, encoding or copying, and decoding in sequence, in buffers as the code allocates them: same members exactly under that condition, and the comparison succeeds for sets without trailing zero bytes |
| SetRoundTrip.PaddingBound | beta/SystemCore/MementoMori/CompressedSet.h:464-468 | the index leaves at most eight clear entries behind the packed ones, and at least one after a superskip |
| SetRoundTrip.SameMembersIsSameBytes | beta/SystemCore/MementoMori/CompressedSet.h:316-323 | two bit vectors have the same members exactly when they differ only in trailing zero bytes |
| RollCall.SurvivesIff | beta/SystemCore/MementoMori/RollCallM.nc:163-334 | a packed set of at most 16379 bytes, sent as a message of its projected length, is unpacked inside the receiver's bytes and to the same members, for every content of its buffer behind the message, if and only if the message leaves no record out and the receiver has room for the set and its padding |
| RollCall.StaysInsideIff | beta/SystemCore/MementoMori/RollCallM.nc:165-182 | unpacking stays inside the receiver's bytes for every content of its buffer if and only if there is room for the slots that arrive, one nibble for every unmarked slot that does not and seven for every marked one (or for all that a 16-bit cursor can reach) |
| RollCall.RoomNeededAtLeast | beta/SystemCore/MementoMori/RollCallM.nc:165-182 | that is never less than the set and its padding take, exactly so for a whole message, and with a superskip more than the set itself takes |
| RollCall.LoneNode | beta/SystemCore/MementoMori/RollCallM.nc:165-182 | node 8z alone is packed from z = 4 on and then unpacks to z + 4 bytes whatever the buffer holds, so that of the nodes up to 144, whose sets the receiver's 19 data bytes hold, those up to 120 stay inside them and 128, 136 and 144 do not |
| RollCall.TailDecides | beta/SystemCore/MementoMori/RollCallM.nc:163-334 | for any content of the receiver's buffer: the same members if and only if the slots left out read as the bits they were packed from; if none of those carried a bit, exactly if each of them reads as a zero literal, a run of zeros or an empty run |
| RollCall.ReportSet | beta/SystemCore/MementoMori/RollCallM.nc:163-334 | sizing, packing or copying, sending and unpacking in sequence, for every receiver with the room that RollCall.StaysInsideIff names (or for the copied set): same members if the set was copied or no record was left out; otherwise exactly if the nibbles of what the buffer then holds are those of the set up to trailing zeros |
| RollCall.StaleBuffer | beta/SystemCore/MementoMori/RollCallM.nc:330-334 | seven bytes with a superskip for which six of eight slots are left out; where the buffer holds FF there, members 56 to 79 appear |
| ShippedSet.ShippedRoundTrip | beta/SystemCore/MementoMori/RollCallM.nc:288-334 | assuming zeros in the receiver's buffer behind the message (which the code does not ensure): a packed set of at most 16379 bytes unpacks to the same members if and only if a superskip was used, no entry carries a bit, or the last that does lies in a high half |
| ShippedSet.ProjectionIs | beta/SystemCore/MementoMori/CompressedSet.h:403-500 | the projected length counts the header, the index and the record bytes up to the last record with a bit set, and is one byte short exactly where there is no superskip and that record is the first of its byte |
| ShippedSet.ShortProjection | beta/SystemCore/MementoMori/CompressedSet.h:448-448 | four bytes for which packing pays and the projection is one byte short |
| ShippedSet.WrappedLength | beta/SystemCore/MementoMori/CompressedSet.h:947-948 | 16383 bytes of ones: the length field wraps and members are lost |
| SetAlgebra.InitSet | beta/SystemCore/MementoMori/CompressedSet.h:267-277 | a blank buffer is the canonical empty set |
| SetAlgebra.SetBit | beta/SystemCore/MementoMori/CompressedSet.h:306-314 | inserts one member and keeps the canonical form |
| SetAlgebra.UnionSets | beta/SystemCore/MementoMori/CompressedSet.h:225-244 | computes the union and keeps the canonical form, with the longer of the two lengths |
| SetAlgebra.SubtractSets | beta/SystemCore/MementoMori/CompressedSet.h:98-127 | computes the first set without the second (the comment says the reverse) and keeps the canonical form, also when its length shrinks |
| SetAlgebra.ContainsSet | beta/SystemCore/MementoMori/CompressedSet.h:133-153 | true exactly when the second set is a subset of the first |
| SetAlgebra.CanonicalEqual | beta/SystemCore/MementoMori/CompressedSet.h:155-167 | canonical sets are equal byte for byte exactly when they have the same members |
| SetAlgebra.CountBits | beta/SystemCore/MementoMori/CompressedSet.h:170-181 | the number of bits set |
| SetAlgebra.SetLength | beta/SystemCore/MementoMori/CompressedSet.h:183-191 | the number of members modulo 65536, exact below 8192 bytes |
| SetAlgebra.CountsAddUp | beta/SystemCore/MementoMori/CompressedSet.h:98-244 | run on any two canonical sets below 8192 bytes, difference, union and count agree: the count of the union is that of the difference plus that of the second set |
| SetAlgebra.IntersectSets | beta/SystemCore/MementoMori/CompressedSet.h:247-264 | is the intersection if and only if the first set is not longer or the intersection is not empty; otherwise the members beyond the second set's length stay |
| SetAlgebra.NoIntersection | beta/SystemCore/MementoMori/CompressedSet.h:260-263 | {8} and {0}: the empty intersection comes out as {8} |
| SetAlgebra.TestBit | beta/SystemCore/MementoMori/CompressedSet.h:338-344 | the membership test is right if and only if the bit is not a set bit of the last byte other than its lowest |
| SetAlgebra.MissedBit | beta/SystemCore/MementoMori/CompressedSet.h:338-344 | 1 is not found in {1} |
| SetAlgebra.ClearBit | beta/SystemCore/MementoMori/CompressedSet.h:325-335 | keeps exactly the other members up to the byte of the next lower place whose bit is set in the buffer before the call, so it removes one member if and only if no higher member lies behind that byte |
| SetAlgebra.ClearedTooMuch | beta/SystemCore/MementoMori/CompressedSet.h:325-335 | clearing 5 in {3, 20} leaves {3} |
| PacketInvariant.ArrivalKeeps | beta/TOSSIM-packet/packet_sim.c:359-389 | handling a reception or noise event finds its entry, removes only it, and keeps the whole invariant |
| PacketInvariant.StartKeeps | beta/TOSSIM-packet/packet_sim.c:265-340 | starting a transmission keeps the invariant over all receivers in list order, duplicates and the sender itself included |
| PacketInvariant.ArriveList | beta/TOSSIM-packet/packet_sim.c:288-331 | a packet that reaches a mote leaves a list in order of arrival in which only the head can be deliverable and only a lone entry can be good |
| PacketInvariant.DoneKeeps | beta/TOSSIM-packet/packet_sim.c:402-419 | a done event keeps the invariant, also when the callback asks for the next packet before the state is set idle |
| PacketInvariant.BackoffKeeps | beta/TOSSIM-packet/packet_sim.c:224-243 | a backoff event keeps the invariant whether it backs off again or switches the transmitter on |
| PacketInvariant.RequestKeeps | beta/TOSSIM-packet/packet_sim.c:188-210 | a request keeps the invariant and is refused while a packet is being sent |
| PacketRuns.RunKeeps | beta/TOSSIM-packet/packet_sim.c:188-419 | every run, with any draws and any interleaving of motes, keeps the invariant |
| PacketRuns.ArrivalsMatchLists | beta/TOSSIM-packet/packet_sim.c:111-171 | in every run the pending receive and noise events are exactly those of the entries in the lists, removal always finds its entry, and a deliverable entry is the head |
| PacketRuns.OneChainEvent | beta/TOSSIM-packet/packet_sim.c:188-210 | in every run a mote is sending exactly when one backoff, start or done event of it is pending, never two, and is transmitting exactly when that is a start or done event |
| PacketRuns.DeliverableIsHead | beta/TOSSIM-packet/packet_sim.c:265-340 | in every run an entry that will be delivered is the head of its list while its mote does not transmit, and with a good crc it is the only entry and equal to what was sent |
| PacketRuns.GoodDeliveriesAreClean | beta/TOSSIM-packet/packet_sim.c:372-389 | in every run a packet delivered with a good crc is the one that was sent and overlapped no other on the air to that mote |
| PacketRuns.BadDeliveriesHaveACause | beta/TOSSIM-packet/packet_sim.c:294-326 | a packet delivered with a bad crc was lost on its link or something began before it ended |
| PacketRuns.DeliveriesAreHalfDuplex | beta/TOSSIM-packet/packet_sim.c:288-290 | no mote is ever delivered a packet that overlaps its own transmission |
| PacketRuns.ArriveAllAcks | beta/TOSSIM-packet/packet_sim.c:276-338 | without duplicate links, after the last receiver the acknowledgement is set exactly if the addressed mote holds a good deliverable copy |
| PacketRuns.AcksAreTrueIff | beta/TOSSIM-packet/packet_sim.c:296-338 | in every run the acknowledgement told at the done event is true, if and only if no mote has two links to the same other mote |
| PacketRuns.FalseAck | beta/TOSSIM-packet/packet_sim.c:276-338 | with two such links, a run of three steps that tells a false acknowledgement |
| PacketLaws.AcknowledgedIff | beta/TOSSIM-packet/packet_sim.c:276-338 | in every run and every topology the packet that is done is acknowledged if and only if some mote, switched on when it began, holds a copy it will be delivered that was not lost on its link; for a packet not for everybody that mote must be the one addressed, and nothing of another mote's may have come there since |
| PacketLaws.DetectedIff | beta/TOSSIM-packet/packet_sim.c:288-331 | in every run an entry will be delivered only if its mote was on and not transmitting when it began and everything earlier there was over, and not only if the mote was off or transmitting or something earlier was not over before it began |
| PacketLaws.StartReachesAll | beta/TOSSIM-packet/packet_sim.c:276-339 | in every run a start event puts the packet on the air once for each link, for its air time, with a copy in the list of the mote that hears it, to be delivered exactly if that mote detects it; the loss draw decides those alone |
| PacketLaws.StartCorrupts | beta/TOSSIM-packet/packet_sim.c:313-327 | whatever was coming in before becomes junk, each entry with a draw of its own, and the packet itself only if it is detected and lost |
| PacketLaws.SwitchesLast | beta/TOSSIM-packet/packet_sim.c:288-290 | in every run a mote is on exactly if it was last switched on, or never switched |
| PacketLaws.ReceptionsDeliver | beta/TOSSIM-packet/packet_sim.c:359-389 | in every run a receive or noise event takes its own entry out of the list and no other, and passes it up exactly if it is a reception and the mote was last switched on |
| PacketTimes.BusyMotesWait | beta/TOSSIM-packet/packet_sim.c:224-243 | in every run a mote that finds something coming in looks again 832 ticks and the draw later, before 16 * 832 are over, and has no other event; one that finds nothing goes on the air 1000 ticks later |
| PacketTimes.LooksAreSpaced | beta/TOSSIM-packet/packet_sim.c:224-243 | in every run two looks of a mote at the channel are at least 832 ticks apart for each look between, so up to any time their number is bounded |
| PacketTimes.RequestsWait | beta/TOSSIM-packet/packet_sim.c:188-210 | in every run a request is granted exactly if nothing is being sent, and the mote first looks at the channel after 832 ticks and the draw, before 32 * 832 are over |
| PacketTimes.SendingTakes | beta/TOSSIM-packet/packet_sim.c:265-339 | in every run a packet is on the air 1000 ticks after the last look at the channel, and done one tick before 1664 ticks for each of its bytes, preamble and header have passed |
| PacketTimes.DoneLeavesIdle | beta/TOSSIM-packet/packet_sim.c:402-419 | in every run a done event leaves the transmitter idle, with the next packet pending all the same if the callback asked for it |
| IncomingLists.IncomingList.Add | beta/TOSSIM-packet/packet_sim.c:160-171 | the entry is appended behind the tail pointer, and head, tail and links stay consistent |
| IncomingLists.IncomingList.Remove | beta/TOSSIM-packet/packet_sim.c:111-158 | unlinks the entry if it is listed, with head and tail, and says whether it was |
| IncomingLists.IncomingTable.Take | beta/TOSSIM-packet/packet_sim.c:359-376 | taking an event's entry out of its list changes no other list |
| PacketSimulator.PacketSim.constructor | beta/TOSSIM-packet/packet_sim.c:174-186 | the arrays start as the initial state |
| PacketSimulator.PacketSim.Transmit | beta/TOSSIM-packet/packet_sim.c:188-210 | the command takes the request step of the state machine and is refused exactly while sending |
| PacketSimulator.PacketSim.HandleBackoff | beta/TOSSIM-packet/packet_sim.c:224-243 | the handler takes the backoff step, of which BusyMotesWait and LooksAreSpaced speak |
| PacketSimulator.PacketSim.HandleStart | beta/TOSSIM-packet/packet_sim.c:265-340 | the loop over links, allocating, corrupting and linking entries in place, takes the start step, of which AcknowledgedIff, StartReachesAll and StartCorrupts speak |
| PacketSimulator.PacketSim.Collide | beta/TOSSIM-packet/packet_sim.c:313-327 | the walk along the list corrupts every entry, each with junk of its own, and clears the acknowledgements of the senders that address the mote |
| PacketSimulator.PacketSim.HandleArrival | beta/TOSSIM-packet/packet_sim.c:359-389 | the handlers take the arrival step and pass up the entry exactly if it is a reception and the mote is on |
| PacketSimulator.PacketSim.HandleDone | beta/TOSSIM-packet/packet_sim.c:402-419 | the handler takes the done step, with the synchronous request inside |
| PtrQueues.PtrQueue.Push | beta/platform/pxa27x/lib/queue.c:20-36 | appends, and is refused exactly when all slots but one are taken |
| PtrQueues.PtrQueue.Pop | beta/platform/pxa27x/lib/queue.c:91-108 | takes the first pointer, or says that there is none |
| PtrQueues.PtrQueue.Peek | beta/platform/pxa27x/lib/queue.c:50-61 | the first pointer, which stays |
| UartSpec.StepKeeps | beta/platform/imote2/BufferedUART.c:78-304 | every send, grant, end interrupt and part of a completion keeps: exactly one of resting, head in flight, reporting, or stuck on a refused length |
| UartSpec.NoLostWakeup | beta/platform/imote2/BufferedUART.c:103-109 | in every run a queue whose head the port accepts has that head in flight, or the report before it pending or under way, and never both |
| UartSpec.PortIsFree | beta/platform/imote2/UART.c:114-130 | in every run BulkTransmit is called only while the port is free |
| UartSpec.Completion | beta/platform/imote2/BufferedUART.c:192-221 | in every run what was reported is a prefix of what was accepted, once each and in order, as far as the first length of 65536 or more; when nothing more can happen it is all of that |
| UartSpec.AllReportedIff | beta/platform/imote2/UART.c:335-352 | a driver at rest has reported every accepted send if and only if all lengths fit in 16 bits |
| UartSpec.ComesToRest | beta/platform/imote2/BufferedUART.c:192-221 | from every reachable state the driver, left alone, comes to rest within a bounded number of steps in any order |
| UartSpec.InternalStepsEnd | beta/platform/imote2/BufferedUART.c:192-304 | no run without a new send is longer than that bound |
| UartSpec.LongSendBlocks | beta/platform/imote2/UART.c:335-343 | one send of 65536 bytes is accepted, and neither it nor any later send is ever reported |
| UartSpec.AcceptedAreTaken | beta/platform/imote2/BufferedUART.c:78-186 | in every run what is accepted is the list of the buffers that were sent with bytes while fewer than 255 waited, and the assertion of room fails exactly at a send that finds none |
| UartSpec.RefusedSends | beta/platform/imote2/BufferedUART.c:135-186 | a send without bytes or without room changes nothing |
| BufferedUart.Uart.Transmit | beta/platform/imote2/UART.c:335-366 | BulkTransmit with its truncated length: refused for no bytes or while the port is in use |
| BufferedUart.Uart.Send | beta/platform/imote2/BufferedUART.c:135-186 | takes the send step and fails exactly for no bytes or a full queue |
| BufferedUart.Uart.SendAlloc | beta/platform/imote2/BufferedUART.c:78-120 | takes the send step; a full queue is an assertion failure |
| BufferedUart.Uart.RequestChannelDone | beta/platform/imote2/UART.c:368-373 | takes the grant step: the transfer runs |
| BufferedUart.Uart.EndInterrupt | beta/platform/imote2/UART.c:390-406 | takes the end step: pops, compares, posts the report and closes the port |
| BufferedUart.Uart.TransmitDone | beta/platform/imote2/BufferedUART.c:192-211 | the first part of a report: the client is told |
| BufferedUart.Uart.TransmitNext | beta/platform/imote2/BufferedUART.c:212-221 | its atomic end: the next buffer or idle |
| SspProtocol.FollowsProtocolIff | beta/platform/imote2/SSP.c:265-295 | in every run the port follows a reference protocol (both grants before one start per open, a signal with the given buffer once after both ends, the next transfer or a close as the client answers) if and only if no transfer with a transmit half had its Rx end while receive-without-transmit was set |
| SspProtocol.CalmRuns | beta/platform/imote2/SSP.c:652-657 | so it does whenever that mode is switched on only while the port is not in use |
| SspProtocol.SetDuringTransmit | beta/platform/imote2/SSP.c:265-291 | switched on during a transmission it closes the port while the transmit channel runs, and the transmission is never signalled |
| SspProtocol.RoundsAreSignalled | beta/platform/imote2/SSP.c:389-435 | under the protocol each started transfer is signalled exactly once, and each open is closed once |
| SspProtocol.SignalledOnce | beta/platform/imote2/SSP.c:389-435 | so in every undisturbed run, with the port in use exactly between |
| SspProtocol.NextTransferIff | beta/platform/imote2/SSP.c:265-435 | in every undisturbed run each signal is followed at once by the next transfer if the client returned a buffer (for both directions: one with a receive and a transmit part), and else by the port closing |
| SspProtocol.OpensIff | beta/platform/imote2/SSP.c:199-479 | in every undisturbed run a command opens the port exactly if it was never opened or was closed since, and not to transmit after receive-without-transmit was last set; else nothing changes |
| SspProtocol.NearerToSignal | beta/platform/imote2/SSP.c:223-245 | every grant and every end of DMA is one of at most six ranks nearer to the signal, or is the signal |
| SspProtocol.OnlyReceivesStick | beta/platform/imote2/SSP.c:265-295 | a port in use has a grant or an end to come, unless it is a receive whose end found receive-without-transmit off |
| SspProtocol.ReceiveCompletesIff | beta/platform/imote2/SSP.c:268-293 | the end of a receive is signalled if and only if receive-without-transmit is set |
| SspProtocol.StuckForever | beta/platform/imote2/SSP.c:199-221 | a receive that was not signalled keeps the port in use whatever happens afterwards |
| SspPort.Ssp.BulkReceive | beta/platform/imote2/SSP.c:199-221 | takes the open step, refused while the port is in use |
| SspPort.Ssp.BulkTransmit | beta/platform/imote2/SSP.c:313-351 | takes the open step, also refused in receive-without-transmit mode |
| SspPort.Ssp.BulkTxRx | beta/platform/imote2/SSP.c:438-479 | takes the open step for both directions |
| SspPort.Ssp.TryRun | beta/platform/imote2/SSP.c:481-497 | starts both channels exactly when both are ready |
| SspPort.Ssp.RxRequestChannelDone | beta/platform/imote2/SSP.c:223-245 | takes the Rx grant step |
| SspPort.Ssp.TxRequestChannelDone | beta/platform/imote2/SSP.c:353-361 | takes the Tx grant step |
| SspPort.Ssp.InterruptHelper | beta/platform/imote2/SSP.c:389-435 | tells the client only when both directions are done, hands it the buffer that was given, and goes on or closes as NextTransferIff says |
| SspPort.Ssp.SetReceiveWithoutTransmit | beta/platform/imote2/SSP.c:652-657 | changes only the mode |
| SspPort.Ssp.RxEndInterrupt | beta/platform/imote2/SSP.c:265-296 | takes the Rx end step |
| SspPort.Ssp.TxEndInterrupt | beta/platform/imote2/SSP.c:378-387 | takes the Tx end step |
| IndexRing.RunsInOrder | contrib/PEGSensor/PEGSensor/sched.c:98-160 | in every run, with posts nested in posts: each posted function runs once, in the order of reservation; a post is refused exactly when 31 wait; the slot taken has always been written |
| IndexRing.SleepsWhenDone | contrib/PEGSensor/PEGSensor/sched.c:139-166 | the main loop finds nothing exactly when everything posted has run |
| IndexRing.RanAreAccepted | contrib/PEGSensor/PEGSensor/sched.c:96-158 | in every run the tasks that get a slot are those posted while fewer than 31 waited, in order, and as many of them have run, from the first on, as the main loop took |
| IndexRing.MainLoopGoesOn | contrib/PEGSensor/PEGSensor/sched.c:136-170 | with no post under way the main loop has exactly one step to take, which looks in vain when every accepted task ran and else brings that nearer |
| IndexRing.WrittenLater | contrib/PEGSensor/PEGSensor/sched.c:110-114 | a slot that no unfinished post owns can be written before or after them |
| IndexRing.ReserveKeeps | contrib/PEGSensor/PEGSensor/sched.c:104-125 | the critical section of a post appends to the FIFO although nothing is written yet |
| IndexRing.TakeKeeps | contrib/PEGSensor/PEGSensor/sched.c:150-158 | the critical section of the main loop takes the head of the FIFO |
| IndexRing.Scheduler.Post | contrib/PEGSensor/PEGSensor/sched.c:98-126 | an uninterrupted post is a bounded FIFO post with capacity 31 |
| IndexRing.Scheduler.PostEnter | contrib/PEGSensor/PEGSensor/sched.c:104-125 | takes the reservation step in place |
| IndexRing.Scheduler.PostWrite | contrib/PEGSensor/PEGSensor/sched.c:113-114 | takes the write step in place |
| IndexRing.Scheduler.FindTask | contrib/PEGSensor/PEGSensor/sched.c:144-147 | looks outside the critical section; what it finds cannot vanish before it is taken |
| IndexRing.Scheduler.TakeTask | contrib/PEGSensor/PEGSensor/sched.c:150-158 | takes the head and calls exactly it |
| NullRing.EmptyOrFull | beta/SystemCore/TaskQueueMonitor/sched.c:102-157 | equal indices mean empty or full, and the slot tells which |
| NullRing.OneCount | beta/SystemCore/TaskQueueMonitor/sched.c:102-157 | the null slots determine how many are queued |
| NullRing.PostKeeps | beta/SystemCore/TaskQueueMonitor/sched.c:110-117 | filling the free slot appends to the FIFO |
| NullRing.RunKeeps | beta/SystemCore/TaskQueueMonitor/sched.c:142-153 | nulling the full slot takes its head |
| NullRing.Scheduler.Post | beta/SystemCore/TaskQueueMonitor/sched.c:102-125 | a bounded FIFO post that uses every slot; refusals are counted up to 255 |
| NullRing.Scheduler.NextTask | beta/SystemCore/TaskQueueMonitor/sched.c:136-157 | takes the head of the FIFO, or finds it empty |
| FileLists.InitList | beta/platform/pxa27x/FileList.h:19-21 | a node linked to itself is the empty list |
| FileLists.AddBetween | beta/platform/pxa27x/FileList.h:40-48 | inserting between two neighbours keeps the ring |
| FileLists.AddNode | beta/platform/pxa27x/FileList.h:56-59 | puts the node first |
| FileLists.AddNodeToTail | beta/platform/pxa27x/FileList.h:61-64 | puts the node last |
| FileLists.DeleteNode | beta/platform/pxa27x/FileList.h:66-71 | takes exactly that node out and clears its links |
| FileLists.JoinLists | beta/platform/pxa27x/FileList.h:78-97 | puts all nodes of one list, in order, at the end of the other, also when either is empty |
| FileLists.EmptyIff | beta/platform/pxa27x/FileList.h:73-76 | the emptiness test is right |
| FileLists.MoveDoomed | beta/platform/pxa27x/FileList.h:26-27 | the traversal visits every node of the original list once, in order, though its body deletes any of them and links them into another list; each node ends in exactly the list it should |
| FileLists.Conserved | beta/platform/pxa27x/FileList.h:26-27 | the nodes that stay and those that go are together the original ones |
| FileLists.PartsInOrder | beta/platform/pxa27x/FileList.h:26-27 | both keep their order: what becomes of a list is what becomes of its parts, one after the other |
| DynQueues.Memmove | beta/platform/pxa27x/PXA27Xdynqueue.c:100-101 | overlapping stretches move without loss |
| DynQueues.DynQueue.ShiftGrow | beta/platform/pxa27x/PXA27Xdynqueue.c:90-110 | makes room behind the items by shifting or doubling, keeps them, and keeps the array within 2*length+11 or 16/7 of the length |
| DynQueues.DynQueue.ShiftShrink | beta/platform/pxa27x/PXA27Xdynqueue.c:114-131 | halves the array and keeps the items |
| DynQueues.DynQueue.Enqueue | beta/platform/pxa27x/PXA27Xdynqueue.c:135-148 | appends, through every shift and growth |
| DynQueues.DynQueue.Dequeue | beta/platform/pxa27x/PXA27Xdynqueue.c:153-172 | takes the first item or gives null, through every shrinking, and the bound on the array stays |
| DynQueues.DynQueue.Push | beta/platform/pxa27x/PXA27Xdynqueue.c:176-190 | prepends |
| ByteQueues.ByteQueue.LeftJustifyInto | beta/TOSComm/comm/ByteQueue.java:38-45 | moves the bytes to the front of any buffer, its own included, without loss |
| ByteQueues.ByteQueue.EnsureFree | beta/TOSComm/comm/ByteQueue.java:47-61 | leaves the requested room behind the bytes and the bytes as they were |
| ByteQueues.DoublingReaches | beta/TOSComm/comm/ByteQueue.java:51-54 | doubling reaches every size from a positive capacity, and none from zero |
| ByteQueues.ByteQueue.PushByte | beta/TOSComm/comm/ByteQueue.java:68-72 | appends a byte; over any calls the bytes taken out and those still there are the bytes put in, in order |
| ByteQueues.ByteQueue.PushBack | beta/TOSComm/comm/ByteQueue.java:79-85 | appends part of an array, with the same account of all bytes put in and taken out |
| ByteQueues.ByteQueue.PopByte | beta/TOSComm/comm/ByteQueue.java:87-92 | takes the first byte of those put in and not yet taken out, or gives -1 |
| ByteQueues.ByteQueue.PopFront | beta/TOSComm/comm/ByteQueue.java:99-108 | bytes come out in order, and the queue is well afterwards if and only if no more were asked for than there were |
| CmdLine.KillWhiteSpace | beta/platform/imote2/cmdlinetools.c:7-77 | leaves in place the words of the text, in order, with single spaces between, and touches nothing behind the old end |
| CmdLine.CopyBack | beta/platform/imote2/cmdlinetools.c:37-45 | copies the rest of the line to an earlier place, overlapping |
| CmdLine.WordsOfJoin | beta/platform/imote2/cmdlinetools.c:7-77 | words joined by single spaces come apart into the same words |
| CmdLine.WordsCut | beta/platform/imote2/cmdlinetools.c:7-77 | a text is cut into its words at every space |
| CmdLine.WordsWhole | beta/platform/imote2/cmdlinetools.c:7-77 | and a text without a space is one word |
| CmdLine.NormalIsIdempotent | beta/platform/imote2/cmdlinetools.c:7-77 | doing it twice is doing it once, and the words stay |
| CmdLine.NormalIff | beta/platform/imote2/cmdlinetools.c:7-77 | a text is left as it is if and only if it has no leading, trailing or doubled space |
| CmdLine.CountArgs | beta/platform/imote2/cmdlinetools.c:93-112 | counts the spaces and the end, with the index that starts by rolling over |
| CmdLine.ArgsAreWords | beta/platform/imote2/cmdlinetools.c:93-112 | on a normalised text that is the number of words, or one if there is none |
| Carrier.TransmitConservesIff | beta/TOSSIM-power/src/rfm_model.c:336-355 | a lossy transmission keeps the counters equal to the bits on the air if and only if the sender's links carried none |
| Carrier.HeardIff | beta/TOSSIM-power/src/rfm_model.c:336-376 | a mote hears a transmission exactly if a 1 is not lost on a link to it, or a 0 is, or others are on the air; a stop takes it back |
| Carrier.StopConserves | beta/TOSSIM-power/src/rfm_model.c:357-369 | stopping keeps them and silences the sender's links |
| Carrier.SetLossConserves | beta/TOSSIM-power/src/rfm_model.c:550-573 | so does changing or adding a link under a bit |
| Carrier.RunsConserve | beta/TOSSIM-power/src/rfm_model.c:336-369 | in every run in which nobody transmits over its own bit the counters are the bits on the air, never negative, and positive exactly if a link carries a bit |
| Carrier.Commutes | beta/TOSSIM-power/src/rfm_model.c:336-369 | what another mote does commutes with a transmission |
| Carrier.StopUndoes | beta/TOSSIM-power/src/rfm_model.c:357-369 | stopping undoes a transmission exactly, whatever steps of other motes lie between |
| Carrier.StaticAgrees | beta/TOSSIM-power/src/rfm_model.c:270-295 | the static model is the lossy one without losses while its links do not change |
| Carrier.StaticNewLinkIff | beta/TOSSIM-power/src/rfm_model.c:282-295 | with a link added to a sender, its stop is right if and only if its bit was 0 |
| Carrier.SimpleIsStatic | beta/TOSSIM-power/src/rfm_model.c:92-110 | the simple model is the static one in which everybody hears everybody, itself included |
| RadioTicks.LossyModel.TransmitBit | beta/TOSSIM-power/src/rfm_model.c:336-355 | the loop over links does it in place, and no receiver's channel stays idle |
| RadioTicks.LossyModel.StopTransmit | beta/TOSSIM-power/src/rfm_model.c:357-369 | and this loop undoes it |
| RadioTicks.LossyModel.SetLinkProb | beta/TOSSIM-power/src/rfm_model.c:550-573 | changes the first link to the mote or puts a silent one in front |
| RadioTicks.LossyModel.GetLinkProb | beta/TOSSIM-power/src/rfm_model.c:534-548 | reads the first link to the mote, or 1 |
| RadioTicks.GetAfterSet | beta/TOSSIM-power/src/rfm_model.c:534-573 | a loss that was set is read back, and every other stays |
| RadioTicks.LossyModel.Hears | beta/TOSSIM-power/src/rfm_model.c:371-390 | a bit is heard exactly if some link carries one, reversed by noise on an idle channel only; bits on any other channel are remembered, and it becomes idle exactly when the latest of them are 0 wherever the mask has a bit |
| RadioTicks.RegisterShift | beta/TOSSIM-power/src/rfm_model.c:381-384 | shifting a bit into the 16-bit register makes it the latest of the bits remembered |
| RadioTicks.MaskedRegister | beta/TOSSIM-power/src/rfm_model.c:385-387 | masking the register gives 0 exactly if those bits are 0 wherever the mask has a bit |
| RadioTicks.LossyModel.SetWaitLength | beta/TOSSIM-power/src/rfm_model.c:592-600 | the loop that shifts ones into the 16-bit mask leaves exactly its lowest bits set, as many as asked for, so that the channel becomes idle after so many zeros |
| RadioTicks.QuietAfter | beta/TOSSIM-power/src/rfm_model.c:592-600 | with a wait length of k, up to sixteen, the channel is idle exactly after k zeros |
| RadioTicks.LossyModel.GetWaitLength | beta/TOSSIM-power/src/rfm_model.c:581-590 | the loop that shifts the mask right until it is 0 finds the place of its highest bit |
| RadioTicks.LossyModel.SetAndGet | beta/TOSSIM-power/src/rfm_model.c:581-600 | a wait length that was set is read back, up to 16 |
| RadioTicks.Radio.OneValidTick | beta/TOSSIM-power/src/hpl.c:325-346 | in every reachable state a mote has at most one valid tick |
| RadioTicks.Radio.SetBitRate | beta/TOSSIM-power/src/hpl.c:325-346 | invalidates exactly the mote's old tick and schedules the new one |
| RadioTicks.Radio.HandleTick | beta/TOSSIM-power/src/hpl.c:381-404 | a valid tick stops, then may transmit, and reschedules itself; an invalid one is discarded; the counters stay right |
| Energy.LazyIsEager | beta/TOSSIM-power/scripts/postprocess.py:412-421 | for every trace each total equals what the lazy scheme of the comment has added and has pending, also if time goes back |
| Energy.LazyHolds | beta/TOSSIM-power/scripts/postprocess.py:423-428 | the current the lazy scheme remembers is the one being held, and none before the mote is covered |
| Energy.CurrentIsDrawn | beta/TOSSIM-power/scripts/postprocess.py:185-395 | what the current functions compute from the state that the handlers keep is what the trace tells: the radio by its last ON, OFF, TX or RX and the power set since the last ON, each LED and sensor, the ADC, reading and writing by their last switch, the CPU by its last state |
| Energy.CoveredIff | beta/TOSSIM-power/scripts/postprocess.py:481-500 | a total runs from the first known event by which its mote or a later one had occurred, mote 0 counting from the beginning |
| Energy.IntegralIsCharge | beta/TOSSIM-power/scripts/postprocess.py:407-421 | a total is the sum of gaps times currents, times voltage over frequency |
| Energy.SteadyUse | beta/TOSSIM-power/scripts/postprocess.py:416-428 | while a current does not change, the total grows by just that current over the time that passes, however many events there are |
| Energy.TotalsGrow | beta/TOSSIM-power/scripts/postprocess.py:416-421 | with times in order and no negative current in the model, totals never fall |
| Energy.SumTakes | beta/TOSSIM-power/scripts/postprocess.py:188-197 | the sensor current does not depend on the order of the dictionary |
| EnergyTotals.CurrentOf | beta/TOSSIM-power/scripts/postprocess.py:185-234 | from the state that any trace leads to it computes the current that the trace tells, with its loops over dictionaries in any order |
| EnergyTotals.Totals.UpdateTotals | beta/TOSSIM-power/scripts/postprocess.py:416-421 | adds to each total of each mote seen the gap times its held current, and to no other |
| EnergyTotals.Totals.UpdateCurrents | beta/TOSSIM-power/scripts/postprocess.py:423-428 | records time and currents of each mote seen |
| EnergyTotals.Totals.HandleEvent | beta/TOSSIM-power/scripts/postprocess.py:472-502 | keeps every total equal to voltage times the integral, since the mote was first covered, of the current that the trace tells |

## Left out

Common to all parts: debug output and printing; allocation failure and freeing; null
arguments; fixed-width wrap-around of counters and times other than those named above.

Compressed sets:
- `resemblance`, the printing functions and the comparison of time stamps around them.
- Set operations with both arguments the same set.
- RollCall.ReportSet: requires the room that `RollCall.StaysInsideIff` shows to be needed; what a report does to the memory behind the receiver's bytes is not modelled, so a lone node 128, 136 or 144 sent to a receiver of 19 bytes is shut out. The gateway's branch, which sends the difference from the roster, and the incremental roll call, which sends the whole packed form, leave no record out.
- ShippedSet.ShippedRoundTrip: assumes zeros behind the message, which the code does not ensure; `RollCall.TailDecides` covers every content.
- Decoder.DecompressSet: requires a byte wherever the cursor comes; `len * 8 / 2` is taken in an `int` of more than 16 bits.
- Encoder.CompressSet: requires an index length that is large enough, as its caller computes it.

Packet simulator:
- The event queue's implementation, `rxState` (never read), and the reading of the topology file; a loss test is a boolean draw.
- Switching a mote off is possible only while it sends nothing: what becomes of the pending event of a sender that is off is up to the event dispatcher, which is not part of the packet simulator.
- The data of the messages that go to the visualiser.

Serial ports:
- The receive path of the buffered port, register programming, cache cleaning and the `NO_DMA` branches; a requested DMA channel is granted in the end, as the DMA component leaves the other case open.
- The queue of posted parameters never overflows.
- Transfer lengths of the synchronous port are not part of the state, since every transfer of an open port has the same.
- The interrupt handler of the synchronous port that drains its FIFO without DMA.

- The handlers of fatal errors and failed assertions, which restart the system: the model stops there.

Schedulers:
- Preemption that is not nested: an interrupt finishes before what it interrupted goes on.
- Sleeping and waiting, and the execution of a posted function, which is one step that posts may interrupt.
- NullRing.Scheduler.Post: requires a function pointer that is not null, as the language guarantees.

Containers:
- DynQueues.DynQueue.Push: integer overflow of the physical length is not modelled.
- ByteQueues.ByteQueue.PopFront: negative offsets and lengths are not modelled, and the destination must have room.
- ByteQueues.ByteQueue.constructor: requires a positive capacity; from capacity zero the doubling loop does not end, as DoublingReaches shows.
- CmdLine.KillWhiteSpace: requires a string that 16-bit indices can reach to its end.
- `firstSpace` and the other traversal macros of the list.

Accounting:
- RadioTicks.LossyModel.SetWaitLength: not for negative counts.
- RadioTicks.Radio.HandleTick: at most one bit is sent in a tick, as the radio stacks do.
- Reading of the connectivity files; loss probabilities are compared in the draws.
- EnergyTotals.Totals.HandleEvent: lines that are not power events, parsing and its errors, motes beyond the maximum, missing entries of the energy model, and the detailed output; numbers are exact.
