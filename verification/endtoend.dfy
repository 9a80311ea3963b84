// From the Python sender's log, through both codecs and arbitrary USB reads, to the Rust receiver's inbox.
module EndToEnd {
  import opened Words
  import opened Codec
  import opened Framing
  import opened RustMux
  import opened PyMux

  /** The numbers a version-2 mux header carries; the receiver reads neither. */
  datatype MuxNumbers = MuxNumbers(tx: u16, rx: u16)

  function PacketOf(sport: u16, dport: u16, e: Sent, n: MuxNumbers): Bytes
    requires |e.data| <= MAX_PAYLOAD
  {
    BuildMuxPacket(2, PROTO_TCP, BuildTcp(sport, dport, e.seqNo, e.ackNo, e.flags, TX_WINDOW, e.data), n.tx, n.rx)
  }

  predicate Fits(log: seq<Sent>) {
    forall i :: 0 <= i < |log| ==> |log[i].data| <= MAX_PAYLOAD
  }

  function Packets(sport: u16, dport: u16, log: seq<Sent>, numbers: seq<MuxNumbers>): (packets: seq<Bytes>)
    requires |numbers| == |log| && Fits(log)
    ensures |packets| == |log|
  {
    seq(|log|, i requires 0 <= i < |log| => PacketOf(sport, dport, log[i], numbers[i]))
  }

  lemma {:induction false} SequenceFits(log: seq<Sent>, start: nat)
    requires InSequence(log, start)
    ensures Fits(log)
  {
    if log != [] {
      SequenceFits(log[..|log| - 1], start);
    }
  }

  /**
   * Every packet the sender emits is well formed and within USB_MTU, so "packet exceeds USB_MTU" cannot be raised from
   * `send`.
   */
  lemma PacketsFitUsb(sport: u16, dport: u16, log: seq<Sent>, numbers: seq<MuxNumbers>, start: nat)
    requires |numbers| == |log| && InSequence(log, start)
    ensures Fits(log)
    ensures forall p :: p in Packets(sport, dport, log, numbers) ==> |p| <= USB_MTU && WellFormed(p)
  {
    SequenceFits(log, start);
    forall i | 0 <= i < |log|
      ensures |Packets(sport, dport, log, numbers)[i]| <= USB_MTU && WellFormed(Packets(sport, dport, log, numbers)[i])
    {
      var e := log[i];
      MuxRoundTrip(2, PROTO_TCP, BuildTcp(sport, dport, e.seqNo, e.ackNo, e.flags, TX_WINDOW, e.data),
                   numbers[i].tx, numbers[i].rx);
    }
  }

  /**
   * The peer has the connection open with nothing out of order, holds `inbox`, and expects absolute sequence number
   * `next`.
   */
  predicate Expecting(m: Mux, port: u16, next: nat, inbox: Bytes) {
    m.version >= 2 && port in m.conns && OpenAt(m.conns[port], next, inbox)
  }

  predicate OpenAt(c: Conn, next: nat, inbox: Bytes) {
    c.connected && c.pending == map[] && c.txAck == Wrap32(next) && c.inbox == inbox
  }

  /** The packet is one TCP segment on the wire, as `SplitPacket` and `DecodeTcp` read it. */
  predicate Carries(packet: Bytes, s: TcpSegment) {
    && |packet| >= 8
    && var frame := SplitPacket(2, packet);
       frame.Some? && frame.value.proto == PROTO_TCP && DecodeTcp(frame.value.body) == Some(s)
  }

  function SegmentOf(sport: u16, dport: u16, e: Sent): TcpSegment {
    TcpSegment(sport, dport, Wrap32(e.seqNo), Wrap32(e.ackNo), e.flags, TX_WINDOW, e.data)
  }

  lemma PacketCarries(sport: u16, dport: u16, e: Sent, n: MuxNumbers)
    requires |e.data| <= MAX_PAYLOAD
    ensures Carries(PacketOf(sport, dport, e, n), SegmentOf(sport, dport, e))
  {
    MuxRoundTrip(2, PROTO_TCP, BuildTcp(sport, dport, e.seqNo, e.ackNo, e.flags, TX_WINDOW, e.data), n.tx, n.rx);
    BodyCarries(sport, dport, e);
  }

  lemma BodyCarries(sport: u16, dport: u16, e: Sent)
    ensures DecodeTcp(BuildTcp(sport, dport, e.seqNo, e.ackNo, e.flags, TX_WINDOW, e.data))
            == Some(SegmentOf(sport, dport, e))
  {
    TcpRoundTrip(sport, dport, e.seqNo, e.ackNo, e.flags, TX_WINDOW, e.data);
    DecodersAgree(BuildTcp(sport, dport, e.seqNo, e.ackNo, e.flags, TX_WINDOW, e.data));
  }

  lemma DispatchCarried(m: Mux, packet: Bytes, s: TcpSegment)
    requires m.version >= 2 && Carries(packet, s)
    ensures Dispatch(m, packet) == Handle(m, s) && Handle(m, s).version == m.version
  {
  }

  function HandleAll(m: Mux, segments: seq<TcpSegment>): Mux
    decreases |segments|
  {
    if segments == [] then m else HandleAll(Handle(m, segments[0]), segments[1..])
  }

  predicate CarriesAll(packets: seq<Bytes>, segments: seq<TcpSegment>) {
    |packets| == |segments| && forall i :: 0 <= i < |packets| ==> Carries(packets[i], segments[i])
  }

  lemma {:induction false} DispatchAllCarried(m: Mux, packets: seq<Bytes>, segments: seq<TcpSegment>)
    requires m.version >= 2 && CarriesAll(packets, segments)
    ensures AllPackets(packets) && DispatchAll(m, packets) == HandleAll(m, segments)
    decreases |packets|
  {
    if packets != [] {
      DispatchCarried(m, packets[0], segments[0]);
      DispatchAllCarried(Handle(m, segments[0]), packets[1..], segments[1..]);
    }
  }

  lemma {:induction false} HandleNext(m: Mux, sport: u16, dport: u16, e: Sent, next: nat, inbox: Bytes)
    requires Expecting(m, dport, next, inbox) && (e.data != [] ==> e.flags == ACK && e.seqNo == next)
    ensures Expecting(Handle(m, SegmentOf(sport, dport, e)), dport, next + |e.data|, inbox + e.data)
  {
    ReceiveNext(m.conns[dport], SegmentOf(sport, dport, e), next, inbox);
    HandleReceives(m, SegmentOf(sport, dport, e));
  }

  lemma {:induction false} ReceiveNext(c: Conn, s: TcpSegment, next: nat, inbox: Bytes)
    requires OpenAt(c, next, inbox) && (s.payload != [] ==> !HasRst(s.flags) && s.seqNo == Wrap32(next))
    ensures OpenAt(Receive(c, s), next + |s.payload|, inbox + s.payload)
  {
    if s.payload == [] {
      assert inbox + s.payload == inbox;
    } else {
      AtExpected(c, s);
      WrapAdd(next, |s.payload|);
    }
  }

  /** An acknowledgement carries no data: it leaves what the connection has received alone. */
  lemma {:induction false} HandleReceives(m: Mux, s: TcpSegment)
    requires s.dport in m.conns
    ensures var c, c' := Receive(m.conns[s.dport], s), Handle(m, s).conns;
            s.dport in c' && c'[s.dport] == c.(txSeq := c'[s.dport].txSeq) && Handle(m, s).version == m.version
  {
  }

  /**
   * A well-formed packet that is none of this connection's: another protocol, another port, or too short to be either.
   * A VERSION packet among them keeps the long header.
   */
  predicate Foreign(packet: Bytes, port: u16) {
    && WellFormed(packet)
    && match SplitPacket(2, packet)
       case None => true
       case Some(MuxFrame(proto, body)) =>
         && (proto == PROTO_VERSION && |body| >= 12 ==> FromBe32(body[..4]) >= 2)
         && (proto == PROTO_TCP && DecodeTcp(body).Some? ==> DecodeTcp(body).value.dport != port)
  }

  lemma {:induction false} ForeignKeeps(m: Mux, packet: Bytes, port: u16, next: nat, inbox: Bytes)
    requires Expecting(m, port, next, inbox) && Foreign(packet, port)
    ensures Expecting(Dispatch(m, packet), port, next, inbox)
  {
    match SplitPacket(2, packet)
    case None =>
    case Some(MuxFrame(proto, body)) =>
      if proto == PROTO_TCP && DecodeTcp(body).Some? {
        OtherPortKeeps(m, DecodeTcp(body).value, port);
      }
  }

  lemma {:induction false} OtherPortKeeps(m: Mux, s: TcpSegment, port: u16)
    requires s.dport != port && port in m.conns
    ensures var m' := Handle(m, s); m'.version == m.version && port in m'.conns && m'.conns[port] == m.conns[port]
  {
  }

  /** `all` is the packets `mine` in their order, with foreign ones anywhere in between. */
  predicate Mixed(all: seq<Bytes>, mine: seq<Bytes>, port: u16)
    decreases |all|
  {
    if all == [] then mine == [] else
    var k := |all| - 1;
    || (Foreign(all[k], port) && Mixed(all[..k], mine, port))
    || (mine != [] && all[k] == mine[|mine| - 1] && Mixed(all[..k], mine[..|mine| - 1], port))
  }

  lemma {:induction false} MixedWellFormed(all: seq<Bytes>, mine: seq<Bytes>, port: u16)
    requires Mixed(all, mine, port) && forall i :: 0 <= i < |mine| ==> WellFormed(mine[i])
    ensures forall i :: 0 <= i < |all| ==> WellFormed(all[i])
    decreases |all|
  {
    if all != [] {
      var k := |all| - 1;
      if Foreign(all[k], port) && Mixed(all[..k], mine, port) {
        MixedWellFormed(all[..k], mine, port);
      } else {
        MixedWellFormed(all[..k], mine[..|mine| - 1], port);
      }
      assert forall i :: 0 <= i < k ==> all[..k][i] == all[i];
    }
  }

  lemma {:induction false} DispatchLast(m: Mux, all: seq<Bytes>)
    requires all != [] && AllPackets(all)
    ensures AllPackets(all[..|all| - 1])
    ensures DispatchAll(m, all) == Dispatch(DispatchAll(m, all[..|all| - 1]), all[|all| - 1])
  {
    var k, last := |all| - 1, all[|all| - 1..];
    SplitAt(all, k);
    DispatchAppend(m, all[..k], last);
    assert last == [all[k]] && last[1..] == [];
  }

  /** Each packet carries the segment of the log at its place. */
  predicate CarriesLog(mine: seq<Bytes>, sport: u16, dport: u16, log: seq<Sent>) {
    |mine| == |log| && forall i :: 0 <= i < |log| ==> Carries(mine[i], SegmentOf(sport, dport, log[i]))
  }

  lemma PacketsCarry(sport: u16, dport: u16, log: seq<Sent>, numbers: seq<MuxNumbers>)
    requires |numbers| == |log| && Fits(log)
    ensures CarriesLog(Packets(sport, dport, log, numbers), sport, dport, log)
  {
    forall i | 0 <= i < |log|
      ensures Carries(Packets(sport, dport, log, numbers)[i], SegmentOf(sport, dport, log[i]))
    {
      PacketCarries(sport, dport, log[i], numbers[i]);
    }
  }

  /** Having handled `all`, the peer's inbox has gained the log's data. */
  predicate Gained(m: Mux, all: seq<Bytes>, dport: u16, log: seq<Sent>, start: nat, inbox: Bytes) {
    AllPackets(all) && Expecting(DispatchAll(m, all), dport, start + |DataBytes(log)|, inbox + DataBytes(log))
  }

  /** A gap-free log, its packets among any foreign ones: the peer's inbox gains exactly the log's data. */
  lemma {:induction false} DeliverLog(m: Mux, sport: u16, dport: u16, log: seq<Sent>, mine: seq<Bytes>, all: seq<Bytes>,
                                      start: nat, inbox: Bytes)
    requires InSequence(log, start) && Expecting(m, dport, start, inbox)
    requires CarriesLog(mine, sport, dport, log) && AllPackets(all) && Mixed(all, mine, dport)
    ensures Gained(m, all, dport, log, start, inbox)
    decreases |all|
  {
    if all == [] {
      assert inbox + [] == inbox;
    } else {
      var k, l := |all| - 1, |log| - 1;
      if Foreign(all[k], dport) && Mixed(all[..k], mine, dport) {
        DeliverLog(m, sport, dport, log, mine, all[..k], start, inbox);
        GainNothing(m, all, dport, log, start, inbox);
      } else {
        DeliverLog(m, sport, dport, log[..l], mine[..l], all[..k], start, inbox);
        GainMine(m, sport, dport, log, all, start, inbox);
      }
    }
  }

  lemma {:induction false} GainNothing(m: Mux, all: seq<Bytes>, dport: u16, log: seq<Sent>, start: nat, inbox: Bytes)
    requires all != [] && AllPackets(all) && Foreign(all[|all| - 1], dport)
    requires Gained(m, all[..|all| - 1], dport, log, start, inbox)
    ensures Gained(m, all, dport, log, start, inbox)
  {
    var k := |all| - 1;
    DispatchLast(m, all);
    ForeignKeeps(DispatchAll(m, all[..k]), all[k], dport, start + |DataBytes(log)|, inbox + DataBytes(log));
  }

  lemma {:induction false} GainMine(m: Mux, sport: u16, dport: u16, log: seq<Sent>,
                                   all: seq<Bytes>, start: nat, inbox: Bytes)
    requires log != [] && InSequence(log, start) && all != [] && AllPackets(all)
    requires Carries(all[|all| - 1], SegmentOf(sport, dport, log[|log| - 1]))
    requires Gained(m, all[..|all| - 1], dport, log[..|log| - 1], start, inbox)
    ensures Gained(m, all, dport, log, start, inbox)
  {
    DispatchLast(m, all);
    DispatchMine(DispatchAll(m, all[..|all| - 1]), sport, dport, log, all[|all| - 1], start, inbox);
  }

  /** The last packet of the log, at a peer that has all the data before it. */
  lemma {:induction false} DispatchMine(m: Mux, sport: u16, dport: u16, log: seq<Sent>,
                                       packet: Bytes, start: nat, inbox: Bytes)
    requires log != [] && InSequence(log, start) && Carries(packet, SegmentOf(sport, dport, log[|log| - 1]))
    requires var before := DataBytes(log[..|log| - 1]); Expecting(m, dport, start + |before|, inbox + before)
    ensures Expecting(Dispatch(m, packet), dport, start + |DataBytes(log)|, inbox + DataBytes(log))
  {
    var before, e := DataBytes(log[..|log| - 1]), log[|log| - 1];
    DispatchCarried(m, packet, SegmentOf(sport, dport, e));
    HandleNext(m, sport, dport, e, start + |before|, inbox + before);
    Assoc(inbox, before, e.data);
  }

  /**
   * A gap-free log of sent segments, framed, mixed with packets of other connections and protocols, cut into any USB
   * reads and read by the Rust peer, comes out byte for byte, whatever ACKs and RSTs the sender's other threads put in
   * between.
   */
  lemma {:induction false} BytesComeOut(sent: seq<Sent>, start: nat, sport: u16, dport: u16, numbers: seq<MuxNumbers>,
                                        all: seq<Bytes>, chunks: seq<Bytes>, m: Mux, inbox: Bytes)
    requires InSequence(sent, start) && |numbers| == |sent| && Fits(sent)
    requires Mixed(all, Packets(sport, dport, sent, numbers), dport) && Concat(chunks) == Concat(all)
    requires Expecting(m, dport, start, inbox)
    ensures ReaderRun(m, [], chunks).1 == []
    ensures Expecting(ReaderRun(m, [], chunks).0, dport, start + |DataBytes(sent)|, inbox + DataBytes(sent))
  {
    PacketsFitUsb(sport, dport, sent, numbers, start);
    MixedWellFormed(all, Packets(sport, dport, sent, numbers), dport);
    assert Concat(all) + [] == Concat(all);
    ReaderChunking(m, all, [], chunks);
    PacketsCarry(sport, dport, sent, numbers);
    DeliverLog(m, sport, dport, sent, Packets(sport, dport, sent, numbers), all, start, inbox);
  }

  lemma {:induction false} ReadAndHandle(m: Mux, packets: seq<Bytes>, segments: seq<TcpSegment>, chunks: seq<Bytes>)
    requires m.version >= 2 && CarriesAll(packets, segments)
    requires forall p :: p in packets ==> WellFormed(p)
    requires Concat(chunks) == Concat(packets)
    ensures ReaderRun(m, [], chunks) == (HandleAll(m, segments), [])
  {
    assert Concat(packets) + [] == Concat(packets);
    ReaderChunking(m, packets, [], chunks);
    DispatchAllCarried(m, packets, segments);
  }

  /**
   * With these mux numbers, other packets and reads, the log adds `done` to what the peer holds, and no byte is left
   * over.
   */
  ghost predicate Adds(log: seq<Sent>, sport: u16, dport: u16, numbers: seq<MuxNumbers>, all: seq<Bytes>,
                       chunks: seq<Bytes>,
                       m: Mux, start: nat, inbox: Bytes, done: Bytes)
    requires Fits(log)
  {
    |numbers| == |log| && Mixed(all, Packets(sport, dport, log, numbers), dport) && Concat(chunks) == Concat(all) ==>
      && ReaderRun(m, [], chunks).1 == []
      && Expecting(ReaderRun(m, [], chunks).0, dport, start + |done|, inbox + done)
  }

  /** The same for all mux numbers, all packets of others and all ways of reading. */
  ghost predicate AlwaysAdds(log: seq<Sent>, sport: u16, dport: u16, m: Mux, start: nat, inbox: Bytes, done: Bytes) {
    Fits(log) &&
    forall numbers, all, chunks :: Adds(log, sport, dport, numbers, all, chunks, m, start, inbox, done)
  }

  lemma {:induction false} LogArrives(log: seq<Sent>, sport: u16, dport: u16, m: Mux, start: nat, inbox: Bytes)
    requires InSequence(log, start) && Expecting(m, dport, start, inbox)
    ensures AlwaysAdds(log, sport, dport, m, start, inbox, DataBytes(log))
  {
    SequenceFits(log, start);
    forall numbers, all, chunks
      ensures Adds(log, sport, dport, numbers, all, chunks, m, start, inbox, DataBytes(log))
    {
      if |numbers| == |log| && Mixed(all, Packets(sport, dport, log, numbers), dport) && Concat(chunks) == Concat(all) {
        BytesComeOut(log, start, sport, dport, numbers, all, chunks, m, inbox);
      }
    }
  }

  /**
   * `send` and the peer together: what `send` took of `data`, all of it when it returns normally, is what the peer's
   * inbox gains, for every way of numbering what went out, mixing it with packets of others and reading it.
   */
  method SendToPeer(c: PyConnection, data: Bytes, rounds: seq<seq<Event>>, ghost m: Mux, ghost inbox: Bytes)
    returns (result: SendResult, off: nat)
    requires !c.state.Connecting? && Expecting(m, c.dport, c.txSeq, inbox)
    modifies c
    ensures off <= |data| && (result.Done? <==> off == |data|)
    ensures old(c.log) <= c.log
    ensures AlwaysAdds(c.log[|old(c.log)|..], c.sport, c.dport, m, old(c.txSeq), inbox, data[..off])
    ensures result.Done? ==> data[..off] == data
  {
    ghost var start, from := c.txSeq, |c.log|;
    result, off := c.Send(data, rounds);
    LogArrives(c.log[from..], c.sport, c.dport, m, start, inbox);
  }
}
