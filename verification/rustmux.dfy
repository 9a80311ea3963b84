// The Rust multiplexer: what one pass of the reader thread does to the mux and connection state.
module RustMux {
  import opened Words
  import opened Codec
  import opened Framing

  /** One connection as `ConnectionState` holds it, with its two ports. */
  datatype Conn = Conn(sport: u16, dport: u16, connected: bool, closed: bool, refused: bool,
                       txSeq: u32, txAck: u32, rxAck: u32, rxWin: nat, inbox: Bytes, pending: map<u32, Bytes>)

  /** `wire` is every packet handed to the USB writer, oldest first. */
  datatype Mux = Mux(version: u32, txSeq: u16, conns: map<u16, Conn>, wire: seq<Bytes>)

  function FreshConn(sport: u16, dport: u16): Conn {
    Conn(sport, dport, false, false, false, 0, 0, 0, 0, [], map[])
  }

  /** Move consecutive early segments from `pending` to `inbox`. */
  function Drain(c: Conn): Conn
    decreases c.pending.Keys
  {
    if c.txAck in c.pending then Drain(Drained(c)) else c
  }

  /** One round of the drain loop. */
  function Drained(c: Conn): Conn
    requires c.txAck in c.pending
  {
    var p := c.pending[c.txAck];
    c.(pending := c.pending - {c.txAck}, inbox := c.inbox + p, txAck := Wrap32(c.txAck as int + |p|))
  }

  /** The sequence number lies ahead of `expected`, less than half the sequence space away. */
  predicate Ahead(seqNo: u32, expected: u32) {
    Wrap32(seqNo as int - expected as int) < 0x8000_0000
  }

  /** What one incoming segment does to its connection under the connection lock. */
  function Receive(c: Conn, s: TcpSegment): Conn {
    var c := c.(rxAck := s.ackNo, rxWin := s.win);
    if !c.connected then
      if s.flags == SYN_ACK then
        c.(connected := true, txSeq := Wrap32(c.txSeq as int + 1), txAck := Wrap32(s.seqNo as int + 1))
      else
        c.(refused := HasRst(s.flags), closed := true)
    else if HasRst(s.flags) then
      c.(closed := true)
    else if s.payload == [] then
      c
    else if s.seqNo == c.txAck then
      Drain(c.(inbox := c.inbox + s.payload, txAck := Wrap32(s.seqNo as int + |s.payload|)))
    else if Ahead(s.seqNo, c.txAck) && s.seqNo !in c.pending then
      c.(pending := c.pending[s.seqNo := s.payload])
    else
      c
  }

  /** The connection once the payload of `s`, which starts at the expected number, is in the inbox. */
  function Deliver(c: Conn, s: TcpSegment): Conn {
    c.(rxAck := s.ackNo, rxWin := s.win, inbox := c.inbox + s.payload, txAck := Wrap32(s.seqNo as int + |s.payload|))
  }

  lemma {:induction false} AtExpected(c: Conn, s: TcpSegment)
    requires c.connected && !HasRst(s.flags) && s.payload != [] && s.seqNo == c.txAck
    ensures Receive(c, s) == Drain(Deliver(c, s))
  {
  }

  lemma {:induction false} NotExpected(c: Conn, s: TcpSegment)
    requires c.connected && !HasRst(s.flags) && s.payload != [] && s.seqNo != c.txAck
    ensures Receive(c, s) == c.(rxAck := s.ackNo, rxWin := s.win,
                                pending := if Ahead(s.seqNo, c.txAck) && s.seqNo !in c.pending
                                           then c.pending[s.seqNo := s.payload] else c.pending)
  {
  }

  /** Whether the segment is answered with an ACK once the lock is released. */
  predicate Answers(c: Conn, s: TcpSegment) {
    || (c.connected && !HasRst(s.flags) && s.payload != [])
    || s.flags == SYN_ACK
  }

  function SendPacket(m: Mux, proto: u32, body: Bytes): Mux {
    m.(wire := m.wire + [EncodePacket(m.version, proto, body, m.txSeq)],
       txSeq := if m.version >= 2 then Wrap16(m.txSeq as int + 1) else m.txSeq)
  }

  function SendTcp(m: Mux, port: u16, flags: byte, data: Bytes): Mux
    requires port in m.conns
  {
    var c := m.conns[port];
    SendPacket(m.(conns := m.conns[port := c.(txSeq := Wrap32(c.txSeq as int + |data|))]), PROTO_TCP,
               EncodeTcp(c.sport, c.dport, c.txSeq, c.txAck, flags, data))
  }

  /** `feed_tcp` once the header is decoded. */
  function Handle(m: Mux, s: TcpSegment): Mux {
    if s.dport !in m.conns then m else
    var c := m.conns[s.dport];
    var m' := m.(conns := m.conns[s.dport := Receive(c, s)]);
    if Answers(c, s) then SendTcp(m', s.dport, ACK, []) else m'
  }

  function FeedTcp(m: Mux, body: Bytes): Mux {
    match DecodeTcp(body)
    case None => m
    case Some(s) => Handle(m, s)
  }

  /** What `feed_packets` does with one packet it has cut. */
  function Dispatch(m: Mux, packet: Bytes): Mux
    requires |packet| >= 8
  {
    match SplitPacket(m.version, packet)
    case None => m
    case Some(MuxFrame(proto, body)) =>
      if proto == PROTO_VERSION && |body| >= 12 then
        var m' := m.(version := FromBe32(body[..4]));
        if m'.version >= 2 then SendPacket(m', PROTO_SETUP, [7]) else m'
      else if proto == PROTO_TCP then FeedTcp(m, body)
      else m
  }

  // ------------------------------------------------------------------ What goes out

  /** The packet is well formed and holds this mux number and this TCP segment. */
  predicate OnWire(version: u32, packet: Bytes, number: u16, s: TcpSegment) {
    && FramedAs(version, packet, number, PROTO_TCP)
    && DecodeTcp(SplitPacket(version, packet).value.body) == Some(s)
  }

  /** The packet's length field is its length, it splits as a packet of this protocol, and it has this mux number. */
  predicate FramedAs(version: u32, packet: Bytes, number: u16, proto: u32) {
    && |packet| >= 8 && FromBe32(packet[4..8]) == |packet|
    && SplitPacket(version, packet).Some? && SplitPacket(version, packet).value.proto == proto
    && (version >= 2 ==> FromBe16(packet[12..14]) == number && FromBe16(packet[14..16]) == 0xFFFF)
  }

  /** `after` has one more packet than `before`, and has used up a mux number if packets carry one. */
  predicate OneMore(before: Mux, after: Mux) {
    && |after.wire| == |before.wire| + 1 && after.wire[..|before.wire|] == before.wire
    && after.txSeq == if before.version >= 2 then Wrap16(before.txSeq as int + 1) else before.txSeq
  }

  lemma {:induction false} PacketOnWire(m: Mux, proto: u32, body: Bytes)
    requires |body| < 0xFFFF_FFF0
    ensures var w := SendPacket(m, proto, body);
            && OneMore(m, w) && w.version == m.version && w.conns == m.conns
            && FramedAs(m.version, w.wire[|m.wire|], m.txSeq, proto)
            && SplitPacket(m.version, w.wire[|m.wire|]).value.body == body
  {
    PacketEncodersAgree(m.version, proto, body, m.txSeq);
    MuxRoundTrip(m.version, proto, body, m.txSeq, 0xFFFF);
  }

  /** One packet goes out, with the numbers from before; only this connection's send number moves. */
  lemma {:induction false} SegmentOnWire(m: Mux, port: u16, flags: byte, data: Bytes)
    requires port in m.conns && |data| < 0xFFFF_0000
    ensures var c, w := m.conns[port], SendTcp(m, port, flags, data);
            && OneMore(m, w) && w.version == m.version
            && OnWire(m.version, w.wire[|m.wire|], m.txSeq,
                      TcpSegment(c.sport, c.dport, c.txSeq, c.txAck, flags, TX_WINDOW, data))
            && w.conns == m.conns[port := c.(txSeq := Wrap32(c.txSeq as int + |data|))]
  {
    var c := m.conns[port];
    var m' := m.(conns := m.conns[port := c.(txSeq := Wrap32(c.txSeq as int + |data|))]);
    var body := EncodeTcp(c.sport, c.dport, c.txSeq, c.txAck, flags, data);
    RustBodyRoundTrip(c.sport, c.dport, c.txSeq, c.txAck, flags, data);
    PacketOnWire(m', PROTO_TCP, body);
    DecodersAgree(body);
  }

  lemma {:induction false} AckOnWire(m: Mux, port: u16)
    requires port in m.conns
    ensures var c, w := m.conns[port], SendTcp(m, port, ACK, []);
            && OneMore(m, w) && w.version == m.version && w.conns == m.conns
            && OnWire(m.version, w.wire[|m.wire|], m.txSeq,
                      TcpSegment(c.sport, c.dport, c.txSeq, c.txAck, ACK, TX_WINDOW, []))
  {
    SegmentOnWire(m, port, ACK, []);
    SameConns(m.conns, port);
  }

  /** A segment without data moves no send number. */
  lemma SameConns(conns: map<u16, Conn>, port: u16)
    requires port in conns
    ensures conns[port := conns[port].(txSeq := Wrap32(conns[port].txSeq as int + 0))] == conns
  {
    assert Wrap32(conns[port].txSeq as int + 0) == conns[port].txSeq;
  }

  lemma {:induction false} DrainPorts(c: Conn)
    ensures Drain(c).sport == c.sport && Drain(c).dport == c.dport
    decreases c.pending.Keys
  {
    if c.txAck in c.pending {
      DrainPorts(Drained(c));
    }
  }

  lemma {:induction false} ReceivePorts(c: Conn, s: TcpSegment)
    ensures Receive(c, s).sport == c.sport && Receive(c, s).dport == c.dport
  {
    if c.connected && !HasRst(s.flags) && s.payload != [] && s.seqNo == c.txAck {
      AtExpected(c, s);
      DrainPorts(Deliver(c, s));
    }
  }

  /**
   * A segment for a known port changes that connection only. If it is to be answered, exactly one packet goes out: an
   * ACK without data, with the connection's numbers after the segment. Otherwise nothing does.
   */
  lemma {:induction false} AnswerOnWire(m: Mux, s: TcpSegment)
    requires s.dport in m.conns
    ensures var c, c', w := m.conns[s.dport], Receive(m.conns[s.dport], s), Handle(m, s);
            && w.conns == m.conns[s.dport := c'] && w.version == m.version
            && if Answers(c, s) then
                 OneMore(m, w) && OnWire(m.version, w.wire[|m.wire|], m.txSeq,
                                         TcpSegment(c.sport, c.dport, c'.txSeq, c'.txAck, ACK, TX_WINDOW, []))
               else
                 w.wire == m.wire && w.txSeq == m.txSeq
  {
    ReceivePorts(m.conns[s.dport], s);
    AckOnWire(m.(conns := m.conns[s.dport := Receive(m.conns[s.dport], s)]), s.dport);
  }

  /** Nothing at all happens for an unknown port, a short TCP body, a short packet or another protocol. */
  lemma {:induction false} IgnoredPackets(m: Mux, packet: Bytes)
    requires |packet| >= 8
    requires match SplitPacket(m.version, packet)
             case None => true
             case Some(MuxFrame(proto, body)) =>
               && (proto == PROTO_VERSION ==> |body| < 12)
               && (proto == PROTO_TCP && DecodeTcp(body).Some? ==> DecodeTcp(body).value.dport !in m.conns)
    ensures Dispatch(m, packet) == m
  {
  }

  /**
   * The device's answer to VERSION, as either program would build it: its major number becomes the version, so that the
   * next packets have the long header from 2 on, and then exactly one packet goes out: SETUP with the one byte 7.
   */
  lemma {:induction false} VersionHandled(m: Mux, major: u32, minor: u32, number: u16)
    ensures var packet := EncodePacket(m.version, PROTO_VERSION, VersionPayload(major, minor), number);
            var w := Dispatch(m, packet);
            && w.version == major && w.conns == m.conns
            && if major >= 2 then
                 && OneMore(m.(version := major), w)
                 && FramedAs(major, w.wire[|m.wire|], m.txSeq, PROTO_SETUP)
                 && SplitPacket(major, w.wire[|m.wire|]).value.body == [7]
               else
                 w.wire == m.wire && w.txSeq == m.txSeq
  {
    PacketEncodersAgree(m.version, PROTO_VERSION, VersionPayload(major, minor), number);
    MuxRoundTrip(m.version, PROTO_VERSION, VersionPayload(major, minor), number, 0xFFFF);
    Be32RoundTrip(major, [0, 0, 0, 0]);
    assert VersionPayload(major, minor)[..4] == Be32(major);
    PacketOnWire(m.(version := major), PROTO_SETUP, [7]);
  }

  predicate AllPackets(packets: seq<Bytes>) {
    forall i :: 0 <= i < |packets| ==> |packets[i]| >= 8
  }

  function DispatchAll(m: Mux, packets: seq<Bytes>): Mux
    requires AllPackets(packets)
    decreases |packets|
  {
    if packets == [] then m else DispatchAll(Dispatch(m, packets[0]), packets[1..])
  }

  lemma {:induction false} DispatchAppend(m: Mux, a: seq<Bytes>, b: seq<Bytes>)
    requires AllPackets(a) && AllPackets(b)
    ensures AllPackets(a + b) && DispatchAll(m, a + b) == DispatchAll(DispatchAll(m, a), b)
    decreases |a|
  {
    if a == [] {
      assert a + b == b;
    } else {
      Uncons(a, b);
      DispatchAppend(Dispatch(m, a[0]), a[1..], b);
    }
  }

  /** The reader thread over a run of USB reads. */
  function ReaderRun(m: Mux, pending: Bytes, chunks: seq<Bytes>): (Mux, Bytes)
    decreases |chunks|
  {
    if chunks == [] then (m, pending) else
    var f := Frame(pending + chunks[0]);
    FrameSound(pending + chunks[0]);
    ReaderRun(DispatchAll(m, f.packets), RustRest(f), chunks[1..])
  }

  lemma {:induction false} ReaderRunIsDispatch(m: Mux, pending: Bytes, chunks: seq<Bytes>)
    ensures var got := RustReads(pending, chunks);
            AllPackets(got.packets) && ReaderRun(m, pending, chunks) == (DispatchAll(m, got.packets), got.pending)
    decreases |chunks|
  {
    if chunks != [] {
      var f := Frame(pending + chunks[0]);
      FrameSound(pending + chunks[0]);
      var m' := DispatchAll(m, f.packets);
      ReaderRunIsDispatch(m', RustRest(f), chunks[1..]);
      DispatchAppend(m, f.packets, RustReads(RustRest(f), chunks[1..]).packets);
    }
  }

  /**
   * Final mux state, replies and left-over bytes are the same however well-formed traffic is cut into reads,
   * a VERSION packet that changes the header size in mid-stream included.
   */
  lemma {:induction false} ReaderChunking(m: Mux, packets: seq<Bytes>, tail: Bytes, chunks: seq<Bytes>)
    requires forall i :: 0 <= i < |packets| ==> WellFormed(packets[i])
    requires Settled(tail) && Concat(chunks) == Concat(packets) + tail
    ensures AllPackets(packets) && ReaderRun(m, [], chunks) == (DispatchAll(m, packets), tail)
  {
    ReaderRunIsDispatch(m, [], chunks);
    WellFormedTraffic(packets, tail, chunks);
  }

  /** The data that fits a packet of 65536 bytes beside the mux and TCP headers. */
  function RoomForData(version: u32): nat {
    if version >= 2 then 65500 else 65508
  }

  /**
   * The client thread sends whatever one read of its 64 KiB buffer returned as one segment. The framing accepts the
   * packet as long as the data leaves room for the headers, and gives up on its length field beyond that.
   */
  lemma LongReadsDoNotFit(m: Mux, port: u16, data: Bytes)
    requires port in m.conns && |data| <= 65536
    ensures var wire := SendTcp(m, port, ACK, data).wire;
            && |wire| == |m.wire| + 1
            && (if |data| <= RoomForData(m.version) then WellFormed(wire[|m.wire|])
                else NextCut(wire[|m.wire|]) == BadLength)
  {
    var c := m.conns[port];
    var body := EncodeTcp(c.sport, c.dport, c.txSeq, c.txAck, ACK, data);
    PacketEncodersAgree(m.version, PROTO_TCP, body, m.txSeq);
    MuxRoundTrip(m.version, PROTO_TCP, body, m.txSeq, 0xFFFF);
  }

  /** `next.wrapping_add(1).max(1)` */
  function NextSport(sport: u16): (next: u16)
    ensures next != 0
  {
    var next := Wrap16(sport as int + 1);
    if next == 0 then 1 else next
  }

  /** The source port of the i-th connection opened. */
  function NthSport(i: nat): u16 {
    if i == 0 then 1 else NextSport(NthSport(i - 1))
  }

  lemma {:induction false} SportsCycle(i: nat)
    ensures NthSport(i) == i % 0xFFFF + 1
  {
    if i > 0 {
      SportsCycle(i - 1);
      NextRemainder(i - 1);
      NextIsOneMore(NthSport(i - 1));
    }
  }

  lemma NextIsOneMore(sport: u16)
    ensures NextSport(sport) == if sport == 0xFFFF then 1 else sport + 1
  {
  }

  lemma NextRemainder(i: nat)
    ensures (i + 1) % 0xFFFF == if i % 0xFFFF == 0xFFFE then 0 else i % 0xFFFF + 1
  {
    var q, r := i / 0xFFFF, i % 0xFFFF;
    assert i + 1 == 0xFFFF * q + (r + 1);
  }

  /** Two connections get the same source port exactly when a multiple of 65535 were opened in between. */
  lemma SportsCollide(i: nat, j: nat)
    ensures NthSport(i) != 0 && (NthSport(i) == NthSport(j) <==> (i - j) % 0xFFFF == 0)
  {
    SportsCycle(i);
    SportsCycle(j);
    SameRemainder(i, j);
  }

  lemma SameRemainder(i: nat, j: nat)
    ensures i % 0xFFFF == j % 0xFFFF <==> (i - j) % 0xFFFF == 0
  {
  }
}
