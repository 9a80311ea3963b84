# iUsbBridge: TCP over USB and input state, verified

This project models two cores of the iUsbBridge control bridge and proves properties of them in Dafny 4.11.

**The TCP-over-USB multiplexer.** A Rust program and an older Python program speak one wire protocol to the device.
Length-prefixed mux packets are cut out of arbitrary USB reads; TCP-like segments inside them are reassembled into byte
streams.

- `Words`, `Codec`: machine words, the byte layout, both encoders and decoders.
- `Framing`: cutting packets out of reads, in Rust (a bad header clears the buffer) and in Python (it raises).
- `RustMux`: what one pass of the Rust reader does to the mux and connection state, as functions. `RustObjects` holds the
  objects that are updated in place and proves each method against those functions.
- `Reassembly`: the Rust receiver against a device that sends one byte stream in fixed segments, in any order, any number
  of times, across any number of sequence-number wrap-arounds.
- `Wraparound`: how long a stream may be when the device cuts its retransmissions anew.
- `Threads`: the Rust reader and the client threads as a step relation over the connection lock, the mux-number lock and
  the writer lock, each taken separately.
- `PyMux`: the Python connection, both as the simple receiver that the Rust one refines and as the windowed sender.
- `EndToEnd`: from the Python sender through both codecs and any USB reads to the Rust inbox.
- `PyDevice`: mux numbering, the VERSION/SETUP handshake and port allocation of the Python device object.

**The input state machine.** `Touch` (five-slot contact tracking per batch), `Slots` (the Python allocator and the
point-by-point reports), `Keyboard` (set-difference transitions, the Command+V chord and its clean-up, the stale-frame
drain) and `Serial` (device serial comparison in C and Rust).

Where the source works step by step, a class or a method with a loop is proved equal to a function of the old state, and
the laws are lemmas about that function. `dafny verify dfyconfig.toml` checks everything.

## What holds only under a condition

- Chunking independence, over reads of at most 65536 bytes, fails in Rust exactly for the streams with a bad header and at
  least one byte after that header's eight (`Framing.ChunkingIndependence`), and in Python exactly for the streams with a
  packet before the bad header, because a feed that raises drops the packets it has cut (`Framing.PyChunkingIndependence`).
- Only a prefix of the device's stream is delivered, whatever pieces arrive in whatever order and overlap, exactly for
  streams below 4 GiB (`Wraparound.SafeBelowWrap`). With every piece near the position 4 GiB itself is still safe; beyond
  that, an early piece overtaken by a larger one stays behind and is delivered again one wrap-around later
  (`Wraparound.NearSafeUpToWrap`).
- In Rust the mux numbers may reach the wire out of order: two connections opening at once can write the next two
  numbers swapped (`Threads.NumbersCanBeSwapped`). Over whole runs the order is safe exactly as long as every write is
  made by the thread that holds the lowest number (`Threads.NumberOrderFromStart`).
- In Python the first version-2 packet is SETUP in every run exactly if the device's first VERSION answer is 2 or none is 2
  (`PyDevice.SetupComesFirst`). The reader thread runs before the host's own VERSION is out; a device that does not wait
  for it must never announce 2 (`PyDevice.UnaskedVersion`).
- A batch that frees a touch slot and reuses it leaves the new contact active on the host but not on the device
  (`Touch.ReuseLosesAContact`). That happens exactly if the batch has more new pointers than there were free slots below
  some slot it frees (`Touch.ReuseCondition`); every other batch ends in agreement (`Touch.BatchStep`).
- The Rust receiver and the Python receiver stay in step on exactly the segments `PyMux.Orderly` describes: Rust ignores FIN,
  holds early segments and keeps receiving after RST; Python closes on FIN, takes segments as they come and is deaf once
  closed.
- A Rust data segment fits the framing only up to 65500 bytes (65508 with the version-1 header), while the client thread
  reads up to 65536 (`RustMux.LongReadsDoNotFit`).
- The 65535 Python ports may all be live; the search of `connect` then never ends (`PyDevice.FullTableNeverEnds`).

Documentation and code disagree in two places, and the model follows the code: `docs/ARCHITECTURE.md` says that every
contact gets its own report and that the contacts of a frame are written in slot order. The Rust loop sends one report for
all contacts in hash-map order, and the Python loop sends one report a point in the order of the frame.

## Model

| member | source | states |
|---|---|---|
| Words.Be32RoundTrip | src/iostouch/qt/usbmux_usb.py:54-59 | big-endian 32-bit encoding and decoding undo each other, in both directions |
| Codec.TcpRoundTrip | src/iostouch/qt/usbmux_usb.py:66-87 | parsing a built segment returns ports, flags and payload, numbers modulo 2^32, and the window rounded down to a multiple of 256 modulo 2^24 |
| Codec.TcpImage | src/iostouch/qt/usbmux_usb.py:66-87 | rebuilding a parsed body gives the same bytes if and only if its header is 20 bytes long with zero checksum and urgent pointer |
| Codec.MuxRoundTrip | src/iostouch/qt/usbmux_usb.py:54-59 | for both header versions the receiver recovers protocol and body, the length field is the packet's own length, and a version-2 header carries the two numbers modulo 2^16 |
| Codec.TcpEncodersAgree | src/raw_usbmux.rs:578-587 | the Rust segment encoder yields the bytes of the Python one for window 131072 |
| Codec.PacketEncodersAgree | src/raw_usbmux.rs:458-473 | the Rust packet encoder yields the bytes of the Python one with receive number 0xFFFF |
| Codec.DecodersAgree | src/raw_usbmux.rs:514-529 | the Rust and the Python segment decoder agree on every body, short and over-long headers included |
| Codec.PacketRoundTrip | src/raw_usbmux.rs:475-530 | a whole TCP packet built in Python is split and decoded in Rust to the same segment, for both header versions |
| Codec.RustPacketRoundTrip | src/raw_usbmux.rs:578-589 | a whole TCP packet built in Rust is split and parsed in Python to the same segment, for both header versions |
| Codec.RstTest | src/raw_usbmux.rs:545 | the RST test reads exactly the RST bit, whatever the seven other bits of the flag byte are |
| Codec.FinTest | src/iostouch/qt/usbmux_usb.py:151 | the FIN test reads exactly the FIN bit, whatever the seven other bits are |
| Codec.SynAckFlags | src/raw_usbmux.rs:537 | the flag byte compared with in the handshake is SYN and ACK and no other bit |
| Framing.FrameSound | src/raw_usbmux.rs:475-488 | the packets cut and the bytes left over make up the buffer; each packet's length field is its length; cutting stops only for want of bytes or at a bad length |
| Framing.FrameAfter | src/raw_usbmux.rs:475-488 | a concatenation of well-formed packets is cut back into exactly those packets, whatever follows |
| Framing.FrameExtend | src/iostouch/qt/usbmux_usb.py:96-107 | bytes that arrive later change neither the packets already cut nor the verdict on a bad header |
| Framing.ChunkingIndependence | src/raw_usbmux.rs:335-342 | the packets and the left-over bytes do not depend on how a stream is cut into reads of at most 65536 bytes, if and only if the stream has no bad header or ends with that header's eight bytes |
| Framing.PyChunkingIndependence | src/iostouch/qt/usbmux_usb.py:96-107 | the packets that come out, and whether a feed raises, do not depend on how a stream is cut into reads of at most 65536 bytes, if and only if the stream has no bad header or no packet before it |
| Framing.WellFormedTraffic | src/raw_usbmux.rs:475-488 | for well-formed traffic, every way of cutting it gives the packets sent, in the Rust and in the Python framer alike |
| Framing.BufferBound | src/raw_usbmux.rs:335-342 | on any bytes whatever, fewer than 65536 bytes stay between reads and the buffer never reaches 131072 |
| Framing.PyStuckForever | src/iostouch/qt/usbmux_usb.py:96-107 | once the buffer starts with a bad header, every later feed raises and no packet comes out, whatever arrives in however many reads |
| Framing.NothingAfterRaise | src/iostouch/qt/usbmux_usb.py:96-107 | the packets of all feeds are those of the feeds before the first exception |
| Framing.PacketAssembler.Feed | src/iostouch/qt/usbmux_usb.py:96-107 | the loop ends; it returns all packets of buffer and chunk together and keeps the rest, or raises with the bad header kept in front |
| RustMux.ReaderRunIsDispatch | src/raw_usbmux.rs:335-342 | interleaving reads with packet handling is the same as framing everything first and then handling the packets in order |
| RustMux.ReaderChunking | src/raw_usbmux.rs:475-512 | well-formed traffic leaves the same mux state, replies and left-over bytes however it is cut, also when a VERSION packet changes the header size in mid-stream |
| RustMux.LongReadsDoNotFit | src/raw_usbmux.rs:763-780 | one data segment of at most 65536 bytes is an acceptable packet up to 65500 bytes (65508 before version 2) and a bad length beyond |
| RustMux.SegmentOnWire | src/raw_usbmux.rs:572-590 | a sent segment is one further packet whose bytes hold the next mux number, the connection's ports, its sequence and acknowledgement numbers from before, the flags and the data; only this connection's send number moves, by the data length |
| RustMux.AnswerOnWire | src/raw_usbmux.rs:530-569 | a segment for a known port changes that connection only; if it is to be answered, one further packet goes out, whose bytes are an ACK without data with the numbers after the segment; otherwise none does |
| RustMux.IgnoredPackets | src/raw_usbmux.rs:491-509 | unknown ports, short bodies, short packets and other protocols change nothing |
| RustMux.VersionHandled | src/raw_usbmux.rs:501-507 | the device's VERSION sets the version to its major number, and from 2 on one packet goes out at once: SETUP with the byte 7, the long header and the next mux number |
| RustMux.SportsCycle | src/raw_usbmux.rs:708-711 | the i-th connection gets port i mod 65535 + 1 |
| RustMux.SportsCollide | src/raw_usbmux.rs:708-711 | no port is 0, and two connections get the same port if and only if their positions differ by a multiple of 65535 |
| RustObjects.MuxConnection.Absorb | src/raw_usbmux.rs:532-567 | the in-place update under the connection lock, drain loop included, terminates and has the effect the reassembly laws are proved about; it reports whether an ACK is due |
| RustObjects.MuxState.SendTcp | src/raw_usbmux.rs:572-590 | the in-place update has the effect that `RustMux.SegmentOnWire` pins down to the bytes of the packet |
| RustObjects.MuxState.SendPacket | src/raw_usbmux.rs:458-473 | one packet is appended to the wire; a mux number is used up only for version 2 |
| RustObjects.MuxState.FeedTcp | src/raw_usbmux.rs:514-570 | the in-place update has the effect that `RustMux.AnswerOnWire` and `RustMux.IgnoredPackets` pin down to the bytes of the answer |
| RustObjects.MuxState.FeedPackets | src/raw_usbmux.rs:475-512 | the loop terminates on every input, handles exactly the packets of the buffer in order and leaves fewer than 65536 bytes |
| RustObjects.MuxState.OpenConnection | src/raw_usbmux.rs:707-737 | a fresh connection is filed under the next port and its SYN, numbered 0, is the one packet sent |
| Reassembly.AheadMeansLater | src/raw_usbmux.rs:549-562 | the wrapping comparison of sequence numbers decides the order of absolute offsets less than 2^31 apart, after any number of wrap-arounds |
| Reassembly.DrainSyncs | src/raw_usbmux.rs:552-559 | the drain loop stops exactly at the first segment that has not arrived, having moved everything before it |
| Reassembly.ReceiveSegment | src/raw_usbmux.rs:547-563 | an arriving segment, early, expected or repeated, leaves the receiver holding exactly the segments that have arrived, each under the number of its one offset |
| Reassembly.HandshakeSyncs | src/raw_usbmux.rs:536-540 | SYN and ACK together open the connection at the start of the stream |
| Reassembly.ReassemblyRun | src/raw_usbmux.rs:547-563 | after any run of arrivals the receiver's state matches the set of segments that have arrived |
| Reassembly.InboxIsPrefix | src/raw_usbmux.rs:547-564 | from the handshake on, for any order and any duplicates, the inbox is the stream up to the first missing segment and the acknowledgement is ISN + 1 + its length modulo 2^32 |
| Reassembly.EverythingArrives | src/raw_usbmux.rs:547-563 | once the first j segments have arrived in any order, their bytes are in the inbox; once all have, the inbox is the stream |
| Reassembly.OrderDoesNotMatter | src/raw_usbmux.rs:547-563 | two runs that brought the same segments leave the same inbox, position and early segments |
| Reassembly.DeliversExactlyAtExpected | src/raw_usbmux.rs:547-562 | a segment adds bytes to the inbox if and only if the connection is open, it is no RST, has data and starts at the expected number |
| Wraparound.SafeBelowWrap | src/raw_usbmux.rs:547-563 | pieces of the stream cut at any place, overlapping and repeated in any way, never put anything but a prefix into the inbox, if and only if the stream is shorter than 2^32 bytes |
| Wraparound.NearSafeUpToWrap | src/raw_usbmux.rs:547-563 | with every piece starting within 2^31 of the position, the same holds if and only if the stream has at most 2^32 bytes |
| Threads.ReceiveStep | src/raw_usbmux.rs:532-590 | every step of every thread keeps delivered, taken and inbox bytes together equal to the reassembled prefix, and delivery only grows |
| Threads.AckStep | src/raw_usbmux.rs:567-589 | every step keeps each ACK, on the wire or still in a thread's hands, at a position already delivered in order |
| Threads.SendStep | src/raw_usbmux.rs:572-590 | every step keeps each connection's outgoing data contiguous on the wire |
| Threads.NumberStep | src/raw_usbmux.rs:464-472 | every step keeps mux numbers unique among the packets written and those still to be written |
| Threads.RunKeepsInv | src/raw_usbmux.rs:458-590 | all four invariants hold after every interleaving |
| Threads.AcksNeverRunAhead | src/raw_usbmux.rs:567-589 | in every interleaving no ACK on the wire covers a byte not delivered in order, even when a stale stamp is written late |
| Threads.AckBytesNeverRunAhead | src/raw_usbmux.rs:567-589 | the same for the bytes: decoding the packet of an ACK gives an acknowledgement number at a position delivered in order |
| Threads.StampIsSent | src/raw_usbmux.rs:572-590 | what a client thread stamps is what `send_tcp` puts on the wire, field by field, and the connection ends the same |
| Threads.AnswerIsSent | src/raw_usbmux.rs:566-569 | what the reader stamps in answer to an arrival is what `feed_tcp` puts on the wire |
| Threads.DeliveryIsConserved | src/raw_usbmux.rs:785-792 | in every interleaving, bytes written to the client, bytes taken and the inbox together are the stream up to the first missing segment |
| Threads.SendOrderIsKept | src/raw_usbmux.rs:768-780 | in every interleaving a connection's data segments reach the writer in order, start at 1, leave no gap modulo 2^32, and carry a prefix of the bytes read from the client, all of them when its thread is idle |
| Threads.NumbersDiffer | src/raw_usbmux.rs:464-470 | two packets whose numbers were handed out fewer than 65536 apart carry different numbers |
| Threads.NumberOrderStep | src/raw_usbmux.rs:464-472 | one write: if no thread was overtaken, the order is kept, and no thread is overtaken afterwards if and only if the writer held the lowest number |
| Threads.NumberOrderFromStart | src/raw_usbmux.rs:464-472 | whole runs: at every moment any further write would keep the numbers in order, if and only if every write of the run is made by the thread holding the lowest number out |
| Threads.NumbersCanBeSwapped | src/raw_usbmux.rs:464-472 | however many numbers were used before, some interleaving of two opening connections puts the next two on the wire swapped |
| PyMux.ReceiversAgree | src/iostouch/qt/usbmux_usb.py:134-164 | the two receivers, in step before a segment, are in step after it if and only if it is orderly, on connecting, open and dead connections alike; Rust then answers what Python answers and, in exactly the cases named, some more |
| PyMux.RefinementRun | src/raw_usbmux.rs:532-568 | over every orderly run, closed connections included, the Rust receiver has the inbox, life cycle and acknowledgement modulo 2^32 of the Python one |
| PyMux.BothReceiveInOrder | src/iostouch/qt/usbmux_usb.py:134-164 | fresh receivers given the handshake and n segments in order both hold exactly the first n segments |
| PyMux.AckNamesInbox | src/iostouch/qt/usbmux_usb.py:159-163 | the ACK of a segment in order carries no data, takes no sequence number and acknowledges exactly the end of the inbox, modulo 2^32 |
| PyMux.AckOfHandshake | src/iostouch/qt/usbmux_usb.py:138-143 | SYN and ACK together are answered by an ACK with sequence number 1 that acknowledges the SYN |
| PyMux.ClosedIsDeaf | src/iostouch/qt/usbmux_usb.py:207-219 | after a close by the host nothing more is taken in, answered or sent, and the inbox stays readable |
| PyMux.InflightIsExact | src/iostouch/qt/usbmux_usb.py:173-177 | the 32-bit difference of sent and acknowledged numbers is the true count of unacknowledged bytes |
| PyMux.WindowIsRespected | src/iostouch/qt/usbmux_usb.py:173-195 | in every run against a peer that acknowledges only what was sent, repeats of older acknowledgements included, each chunk leaves at most the advertised window unacknowledged |
| PyMux.WindowFromHandshake | src/iostouch/qt/usbmux_usb.py:134-195 | the same for every run that starts with the handshake |
| PyMux.PyConnection.HandleSegment | src/iostouch/qt/usbmux_usb.py:134-164 | the in-place update has the effect the refinement is proved about, and an ACK with the new numbers goes out exactly when one is due |
| PyMux.PyConnection.CloseByHost | src/iostouch/qt/usbmux_usb.py:207-219 | closing is idempotent and sends one RST, only if the connection was open |
| PyMux.PyConnection.LetOthersRun | src/iostouch/qt/usbmux_usb.py:183-184 | whatever segments and closes other threads handle meanwhile, the data sent so far stays gap-free and the send number does not move |
| PyMux.PyConnection.Send | src/iostouch/qt/usbmux_usb.py:179-195 | the data segments emitted are gap-free, start at the old send number, fit window and packet size, and concatenate to a prefix of the input: all of it exactly when `send` returns normally |
| PyMux.PyConnection.SendableNow | src/iostouch/qt/usbmux_usb.py:173-177 | -1 if and only if the connection is closed; otherwise the largest chunk that fits one packet and leaves the bytes in flight within the advertised window, 0 if none does |
| PyMux.PyConnection.Recv | src/iostouch/qt/usbmux_usb.py:197-205 | at most `max_bytes` from the front, the rest stays, nothing is lost; empty only if there is nothing or nothing was asked for |
| EndToEnd.PacketsFitUsb | src/iostouch/qt/usbmux_usb.py:250-251 | every packet that `send` leads to is at most 49152 bytes, so the size error cannot be raised from it, and is well formed |
| EndToEnd.DeliverLog | src/raw_usbmux.rs:475-570 | the Rust peer, fed the packets of a gap-free log of segments among packets of other connections and protocols, appends exactly the log's data to this connection's inbox |
| EndToEnd.ReadAndHandle | src/raw_usbmux.rs:475-570 | packets cut into any reads have the effect of handling their segments one after another |
| EndToEnd.BytesComeOut | src/raw_usbmux.rs:475-570 | a gap-free log of sent segments, framed, mixed with packets of other connections and protocols and cut into any USB reads, comes out of the Rust peer byte for byte, whatever ACKs and RSTs are in between, and nothing stays in the buffer |
| EndToEnd.SendToPeer | src/iostouch/qt/usbmux_usb.py:179-195 | whatever other threads do while `send` runs, for every way of numbering what went out, mixing it with packets of others and reading it, the Rust peer's inbox gains exactly the part of the data that `send` took: all of it when `send` returns normally |
| PyDevice.NumberingStep | src/iostouch/qt/usbmux_usb.py:241-254 | the numbering survives a send if and only if the packet is written, or has the short header, or the number lost is the one SETUP has just reset |
| PyDevice.EveryNumberIsRight | src/iostouch/qt/usbmux_usb.py:241-254 | in every interleaving, the host's own VERSION at any moment included, the bytes of the k-th version-2 packet after a SETUP hold the number k modulo 65536, and those of each SETUP hold (0, 0xFFFF) |
| PyDevice.WrittenBytes | src/iostouch/qt/usbmux_usb.py:241-254 | the bytes written split into the protocol and payload given; a version-2 header holds the next mux number and the last one received, SETUP holds (0, 0xFFFF) |
| PyDevice.NamesLastReceived | src/iostouch/qt/usbmux_usb.py:270-275 | a version-2 packet sent after one was received names that one's number |
| PyDevice.SetupComesFirst | src/iostouch/qt/usbmux_usb.py:278-286 | for a device that answers the host's VERSION with these major numbers: in every interleaving the first version-2 packet is SETUP with numbers (0, 0xFFFF), if and only if the first number is 2 or none is |
| PyDevice.UnaskedVersion | src/iostouch/qt/usbmux_usb.py:376-398 | for a device that may speak before the host's VERSION, which goes out after the reader thread has started: the same holds if and only if it never announces 2 |
| PyDevice.VersionOneThenTwo | src/iostouch/qt/usbmux_usb.py:278-286 | after the answers 1 and 2 a client packet of any content can precede SETUP |
| PyDevice.MuxDevice.SendPacket | src/iostouch/qt/usbmux_usb.py:241-254 | one write for each packet that fits, followed by an empty write exactly when it fills its last USB packet; an over-long one writes nothing but uses up its number |
| PyDevice.MuxDevice.PickPort | src/iostouch/qt/usbmux_usb.py:306-312 | if any port is free the search ends at the first nonzero port not in use, counting cyclically from the last position |
| PyDevice.SomePortIsFree | src/iostouch/qt/usbmux_usb.py:306-312 | fewer than 65535 live ports always leave one free |
| PyDevice.FullTableNeverEnds | src/iostouch/qt/usbmux_usb.py:307-308 | with all ports live every probe fails |
| Touch.BatchStep | src/main.rs:1448-1485 | a batch keeps the slots injective below 5 and `active` matching them, reports at most 7 contacts, leaves no phantom touch on the device, and ends in agreement with the device if and only if its new pointers do not outnumber the slots free below any slot it frees |
| Touch.ReuseCondition | src/main.rs:1451-1480 | from what is known before the batch: some freed slot is taken again if and only if the `down` points of pointers without a slot outnumber the slots that were free below some slot of an `up` point |
| Touch.RestTakesLowest | src/main.rs:2783-2791 | over a whole batch the new pointers take exactly the lowest slots that were free |
| Touch.ReportSize | src/main.rs:1481-1482 | a report holds at most 7 contacts |
| Touch.PointerKeepsSlot | src/main.rs:1463-1480 | a pointer keeps its slot through every batch in which it does not go up |
| Touch.BatchFollowsPoints | src/main.rs:1451-1480 | a `down` or `move` puts its pointer, if it has a slot, at exactly the point's coordinates; a `move` gives no slot and takes none; an `up` takes the pointer out |
| Touch.UnnamedKeep | src/main.rs:1451-1480 | pointers that the batch does not name keep their contact |
| Touch.ReleaseHasPoint | src/main.rs:1451-1462 | every release in a report is some `up` point's, with the slot its pointer held and the point's coordinates |
| Touch.PointHasRelease | src/main.rs:1451-1462 | every `up` point of a held pointer has such a release |
| Touch.DeviceShowsPoints | src/main.rs:1481-1487 | after a batch that takes no freed slot again, the device shows every pointer of the batch where its point says |
| Touch.DeviceFollowsHost | src/main.rs:1421-1486 | over all batch sequences no touch is ever stuck, and the device agrees with the host after a batch if and only if that batch's new pointers did not reach a slot it freed |
| Touch.ReuseLosesAContact | src/main.rs:1451-1482 | a concrete batch of the kind `Touch.BatchStep` names: replacing one contact by another loses the new one on the device |
| Touch.ReleaseAllClears | src/main.rs:2065-2074 | releasing slots 0 to 4 leaves nothing touched on a device that touches no other slot, whatever the host believes |
| Touch.ReleaseAllAfterRun | src/main.rs:2065-2074 | after every sequence of batches, releasing slots 0 to 4 leaves nothing touched |
| Touch.TouchHost.AllocateSlot | src/main.rs:2783-2791 | the pointer's own slot, otherwise the smallest unused one, otherwise none and no change |
| Touch.TouchHost.ReleaseUpPoints | src/main.rs:1451-1462 | the first pass over the batch, in place, has the effect the batch laws are proved about |
| Touch.TouchHost.ApplyOtherPoints | src/main.rs:1463-1480 | the second pass over the batch, in place, has the effect the batch laws are proved about |
| Touch.TouchHost.ProcessBatch | src/main.rs:1421-1485 | a batch of wrong size or with a repeated pointer changes nothing; any other yields the report of the new contacts followed by the releases, or nothing to send |
| Slots.SortSorts | src/usb_touch_bridge.py:1071 | the same elements in ascending order |
| Slots.AssignRefines | src/usb_touch_bridge.py:1057-1064 | popping the free list gives the slot that the Rust scan gives, and the list stays the sorted complement of the slots in use |
| Slots.ReleaseRefines | src/usb_touch_bridge.py:1066-1072 | appending and sorting keeps the list the sorted complement of the slots in use |
| Slots.AllocatorsAgree | src/usb_touch_bridge.py:1057-1072 | for every sequence of calls the two allocators return the same slots |
| Slots.FrameKeepsStep | src/usb_touch_bridge.py:2114-2140 | point-by-point reports keep the device's touched slots equal to the assigned ones, each at its pointer's last position, on every frame, slot reuse included |
| Slots.FiveSlotStateMachine.AssignSlot | src/usb_touch_bridge.py:1057-1064 | the in-place update has the effect the refinement is proved about |
| Slots.FiveSlotStateMachine.ReleaseSlot | src/usb_touch_bridge.py:1066-1072 | the in-place update has the effect the refinement is proved about |
| Slots.FiveSlotStateMachine.Clear | src/usb_touch_bridge.py:1077-1081 | releasing the pointers in any order gives back the initial machine, with the free list in order |
| Keyboard.PlanReaches | src/main.rs:2084-2106 | a completed transition turns one key set into the other, whatever order the set differences are listed in |
| Keyboard.ChordRestores | src/main.rs:2117-2127 | a chord that goes through leaves the device holding exactly the host's keys |
| Keyboard.VGoesDownOnce | src/main.rs:2117-2127 | the chord puts V down while Command alone is held, and at no other place if and only if the host's keys do not include V |
| Keyboard.CleanupRestores | src/main.rs:2130-2146 | wherever the chord breaks off, the clean-up brings the device back to the host's keys |
| Keyboard.IndigoClient.SetKeyboardState | src/main.rs:2084-2106 | all new keys go down, once each, before an old one goes up; the first failed send ends it and every send before it was confirmed; nothing outside the new keys ever goes down |
| Keyboard.IndigoClient.PasteChord | src/main.rs:2117-2147 | the chord succeeds if and only if all its sends are confirmed, and the clean-up after a failure if and only if all of its own are; in either case the device holds exactly the host's keys; V, if not among them, went down at most once and only with Command alone; a chord that succeeds puts V down once, or twice if it was among them |
| Keyboard.IndigoClient.CleanUp | src/main.rs:2130-2146 | always two sends and one for each of the host's keys, whatever their outcomes; if all are confirmed the device holds exactly the host's keys |
| Keyboard.LeftStops | src/main.rs:2089-2104 | sends that stop at the first failure use up the outcomes up to and including it, and all go through if and only if every outcome among them is a confirmation |
| Keyboard.DiscardStaleFrames | src/main.rs:2485-2514 | the drain stops at the first error or the first quiet point, whichever comes first, and counts exactly the frames before it |
| Keyboard.WhenItSettles | src/main.rs:2493-2512 | on an empty channel the quiet point comes after three polls, after frames and nothing else four polls later |
| Serial.SerialEqual | src/legacy_usbmux.c:29-41 | the pointer loop ends, stays within both strings and is true if and only if neither pointer is null and the dash-free upper-case strings are equal |
| Serial.LettersUpper | src/legacy_usbmux.c:35-36 | each of the 26 lower-case letters goes to its upper-case partner |
| Serial.LettersLower | src/main.rs:143 | each of the 26 upper-case letters goes to its lower-case partner |
| Serial.OthersStay | src/legacy_usbmux.c:35-36 | every other character stays as it is |
| Serial.HexDigits | src/main.rs:142 | the hex digits are exactly the 22 characters 0-9, a-f and A-F |
| Serial.BytesAgreeWithChars | src/raw_usbmux.rs:38-46 | comparing UTF-8 bytes as C does is comparing characters as Rust does, on all texts |
| Serial.CAgreesWithRust | src/legacy_usbmux.c:29-41 | on NUL-terminated UTF-8 of any two texts the C comparison is the Rust comparison of what precedes their first NUL |
| Serial.MatchImpliesSameUdid | src/main.rs:140-148 | a serial match is always a UDID match |
| Serial.HexSerialsAgree | src/main.rs:140-148 | on hex digits and dashes the two comparisons are the same |
| Serial.UdidIgnoresOtherLetters | src/main.rs:140-148 | a character that is neither hex digit nor dash, put anywhere into any text, leaves the UDID the same and changes the serial |

## Left out

- Threads.SendOrderIsKept: a client may send at any moment; the wait for `rx_win != 0` in `bridge_stream` only removes runs from these.
- Threads.AcksNeverRunAhead: a link is never removed and its port is never given out again while the threads run; the overwriting of a live connection after 65535 openings is shown by `RustMux.SportsCollide` only.
- Threads.NumberStep: the mux version is at least 2 throughout; a second VERSION packet and its SETUP are in `RustMux` but not among the interleaved steps.
- Reassembly.InboxIsPrefix: the device keeps to one segmentation of its stream; for others `Wraparound` gives the exact bounds on its length.
- PyMux.WindowIsRespected: the peer acknowledges only sent bytes, within one wrap-around; the window arithmetic of the source relies on it. `PyMux.PyConnection.Send` needs no such assumption for the modular form.
- PyMux.PyConnection.Send: one thread sends on a connection; a second `send` on it would mix its chunks in between, each under the same lock.
- PyMux.PyConnection.LetOthersRun: segments from the reader and closes by the host, but no second sender.
- PyDevice.EveryNumberIsRight: every packet fits USB_MTU; `PyDevice.NumberingStep` says what an over-long packet does.
- Touch.TouchHost.ProcessBatch: a point with an unknown action or a coordinate outside 0..1 cannot be expressed; the source rejects such a batch like one with a repeated pointer.
- Touch.DeviceFollowsHost: a multi-contact report is taken to act contact by contact, since `build_multitouch_report` belongs to an external crate that is not part of this model.
- USB enumeration, endpoint claims, libusb, nusb and Win32 calls, halt clearing, timeouts: a read is a byte string that arrives, a write appends a packet or fails.
- In Python, a USB write that fails after the send numbers have moved; partial writes to the local socket of a Rust client (a failed one counts as nothing written).
- Python VERSION packets with a major number other than 1 and 2 or a short body, which raise; CONTROL packets; the RST answer to unknown ports, which is only a send of the reader thread here.
- Hash-map and hash-set iteration orders are arbitrary in the model; clocks and sleeps are absent.
- The background clipboard copy (`copy_selection`), which works with a possibly outdated key set and has no clean-up; pasteboard transfers.
- CoreDevice, RSD, pairing, mDNS, lockdown, image mounting, media gate, DDI download and hashing: network and file plumbing.
- The plist request dispatcher, JSON frame decoding, coordinate rounding, timestamps, error-code classification.
- `src/iostouch/qt/usb.py`, `muxbridge.py`, `usbmuxd_server.py`, the demo and the build scripts.
