// The byte-level wire format: the Python builders and parser, and the Rust encoder and decoder.
module Codec {
  import opened Words

  const PROTO_VERSION: u32 := 0
  const PROTO_SETUP: u32 := 2
  const PROTO_TCP: u32 := 6
  const MUX_MAGIC: u32 := 0xfeedface
  const FIN: byte := 0x01
  const SYN: byte := 0x02
  const RST: byte := 0x04
  const ACK: byte := 0x10
  const SYN_ACK: byte := 0x12
  const USB_MTU := 49152
  const DEV_MRU := 65536
  const TCP_HDR_LEN := 20
  const TX_WINDOW := 131072

  /** `flags & RST != 0` and `flags & FIN != 0`. */
  predicate HasRst(flags: byte) { flags / 4 % 2 == 1 }
  predicate HasFin(flags: byte) { flags % 2 == 1 }

  /** One decoded TCP header with its data; `win` is already scaled to bytes. */
  datatype TcpSegment = TcpSegment(sport: u16, dport: u16, seqNo: u32, ackNo: u32, flags: byte,
                                   win: nat, payload: Bytes)

  // ------------------------------------------------------------------ Python

  function BuildMuxPacket(version: nat, proto: u32, payload: Bytes, txSeq: int, rxSeq: int): (packet: Bytes)
    requires |payload| < 0xFFFF_FFF0
    ensures |packet| == (if version >= 2 then 16 else 8) + |payload|
  {
    if version >= 2 then
      Be32(proto) + Be32(16 + |payload|) + Be32(MUX_MAGIC) + Be16(Wrap16(txSeq)) + Be16(Wrap16(rxSeq)) + payload
    else
      Be32(proto) + Be32(8 + |payload|) + payload
  }

  function BuildTcp(sport: u16, dport: u16, seqNo: int, ackNo: int, flags: byte, win: nat, data: Bytes): (body: Bytes)
    ensures |body| == TCP_HDR_LEN + |data|
  {
    Be16(sport) + Be16(dport) + Be32(Wrap32(seqNo)) + Be32(Wrap32(ackNo))
    + [TCP_HDR_LEN / 4 * 0x10, flags] + Be16(Wrap16(win / 0x100)) + Be16(0) + Be16(0) + data
  }

  /** `data[n..]` in Python: empty when `n` is past the end. */
  function PySuffix(data: Bytes, n: nat): Bytes {
    if n <= |data| then data[n..] else []
  }

  /** `None` stands for the MuxError raised on a short header. */
  function ParseTcp(data: Bytes): Option<TcpSegment> {
    if |data| < TCP_HDR_LEN then None else
    var hdrLen := data[12] / 0x10 * 4;
    Some(TcpSegment(FromBe16(data[..2]), FromBe16(data[2..4]), FromBe32(data[4..8]), FromBe32(data[8..12]),
                    data[13], FromBe16(data[14..16]) as int * 0x100, PySuffix(data, hdrLen)))
  }

  // ------------------------------------------------------------------ Rust

  function VersionPayload(major: u32, minor: u32): Bytes {
    Be32(major) + Be32(minor) + Be32(0)
  }

  /** The bytes `send_packet` hands to the writer for mux number `seqNo`. */
  function EncodePacket(version: u32, proto: u32, body: Bytes, seqNo: u16): Bytes {
    var header := if version >= 2 then 16 else 8;
    var start := Be32(proto) + Be32(Wrap32(header + |body|));
    (if version >= 2 then start + Be32(MUX_MAGIC) + Be16(seqNo) + Be16(0xffff) else start) + body
  }

  /** The body `send_tcp` builds: header length 20, window 131072, zero checksum and urgent pointer. */
  function EncodeTcp(sport: u16, dport: u16, seqNo: u32, ackNo: u32, flags: byte, data: Bytes): Bytes {
    Be16(sport) + Be16(dport) + Be32(seqNo) + Be32(ackNo) + [0x50] + [flags]
    + Be16(131072 / 256) + [0, 0, 0, 0] + data
  }

  /** The fields `feed_tcp` reads; `None` is its early return on a short body. */
  function DecodeTcp(body: Bytes): Option<TcpSegment> {
    if |body| < 20 then None else
    var offset := body[12] / 0x10 * 4;
    Some(TcpSegment(FromBe16(body[..2]), FromBe16(body[2..4]), FromBe32(body[4..8]), FromBe32(body[8..12]),
                    body[13], FromBe16(body[14..16]) as int * 256, if offset <= |body| then body[offset..] else []))
  }

  /** The part of a mux packet that both receivers read: protocol and body. */
  datatype MuxFrame = MuxFrame(proto: u32, body: Bytes)

  /** How both receivers split a packet; `None` is a version-2 packet shorter than its header, which they skip. */
  function SplitPacket(version: nat, packet: Bytes): Option<MuxFrame>
    requires |packet| >= 8
  {
    if version >= 2 then
      if |packet| < 16 then None else Some(MuxFrame(FromBe32(packet[..4]), packet[16..]))
    else
      Some(MuxFrame(FromBe32(packet[..4]), packet[8..]))
  }

  // ------------------------------------------------------------------ Flags

  function Bit(b: bool, weight: nat): nat {
    if b then weight else 0
  }

  /** The flag byte with these bits, lowest first. */
  function FlagByte(fin: bool, syn: bool, rst: bool, psh: bool, ack: bool, urg: bool, ece: bool, cwr: bool): byte {
    Bit(fin, FIN) + Bit(syn, SYN) + Bit(rst, RST) + Bit(psh, 8)
    + Bit(ack, ACK) + Bit(urg, 32) + Bit(ece, 64) + Bit(cwr, 128)
  }

  /** Each test reads exactly its own bit, whatever the others are. */
  lemma RstTest(fin: bool, syn: bool, rst: bool, psh: bool, ack: bool, urg: bool, ece: bool, cwr: bool)
    ensures HasRst(FlagByte(fin, syn, rst, psh, ack, urg, ece, cwr)) <==> rst
  {
    var high := Bit(psh, 1) + Bit(ack, 2) + Bit(urg, 4) + Bit(ece, 8) + Bit(cwr, 16);
    MiddleBit(Bit(fin, FIN) + Bit(syn, SYN), rst, high);
  }

  lemma FinTest(fin: bool, syn: bool, rst: bool, psh: bool, ack: bool, urg: bool, ece: bool, cwr: bool)
    ensures HasFin(FlagByte(fin, syn, rst, psh, ack, urg, ece, cwr)) <==> fin
  {
    var high := Bit(syn, 1) + Bit(rst, 2) + Bit(psh, 4) + Bit(ack, 8) + Bit(urg, 16) + Bit(ece, 32) + Bit(cwr, 64);
    LowestBit(fin, high);
  }

  lemma MiddleBit(low: nat, b: bool, high: nat)
    requires low < RST
    ensures (low + Bit(b, RST) + 2 * RST * high) / 4 % 2 == Bit(b, 1)
  {
    assert (low + Bit(b, RST) + 8 * high) / 4 == Bit(b, 1) + 2 * high;
  }

  lemma LowestBit(b: bool, high: nat)
    ensures (Bit(b, FIN) + 2 * high) % 2 == Bit(b, 1)
  {
  }

  lemma SynAckFlags()
    ensures FlagByte(false, true, false, false, true, false, false, false) == SYN_ACK
  {
  }

  // ------------------------------------------------------------------ Laws

  lemma TcpRoundTrip(sport: u16, dport: u16, seqNo: int, ackNo: int, flags: byte, win: nat, data: Bytes)
    ensures ParseTcp(BuildTcp(sport, dport, seqNo, ackNo, flags, win, data)) ==
            Some(TcpSegment(sport, dport, Wrap32(seqNo), Wrap32(ackNo), flags, (win - win % 0x100) % 0x100_0000, data))
  {
    var body := BuildTcp(sport, dport, seqNo, ackNo, flags, win, data);
    HeaderBytes(sport, dport, seqNo, ackNo, flags, win, data);
    Be16RoundTrip(sport, [0, 0]);
    Be16RoundTrip(dport, [0, 0]);
    Be32RoundTrip(Wrap32(seqNo), [0, 0, 0, 0]);
    Be32RoundTrip(Wrap32(ackNo), [0, 0, 0, 0]);
    Be16RoundTrip(Wrap16(win / 0x100), [0, 0]);
    ScaledWindow(win);
  }

  lemma HeaderBytes(sport: u16, dport: u16, seqNo: int, ackNo: int, flags: byte, win: nat, data: Bytes)
    ensures var body := BuildTcp(sport, dport, seqNo, ackNo, flags, win, data);
            && body[..2] == Be16(sport) && body[2..4] == Be16(dport)
            && body[4..8] == Be32(Wrap32(seqNo)) && body[8..12] == Be32(Wrap32(ackNo))
            && body[12] == 0x50 && body[13] == flags && body[14..16] == Be16(Wrap16(win / 0x100)) && body[20..] == data
  {
  }

  lemma ScaledWindow(win: nat)
    ensures Wrap16(win / 0x100) as int * 0x100 == (win - win % 0x100) % 0x100_0000
  {
  }


  /** Exactly the bodies with a 20-byte header and zero checksum and urgent pointer survive decode-then-encode. */
  lemma TcpImage(body: Bytes)
    requires |body| >= TCP_HDR_LEN
    ensures var s := ParseTcp(body).value;
            BuildTcp(s.sport, s.dport, s.seqNo, s.ackNo, s.flags, s.win, s.payload) == body
            <==> body[12] == 0x50 && body[16..20] == [0, 0, 0, 0]
  {
    var s := ParseTcp(body).value;
    var built := BuildTcp(s.sport, s.dport, s.seqNo, s.ackNo, s.flags, s.win, s.payload);
    HeaderConstants(s.sport, s.dport, s.seqNo, s.ackNo, s.flags, s.win, s.payload);
    if body[12] == 0x50 && body[16..20] == [0, 0, 0, 0] {
      CanonicalRebuild(body);
    }
  }

  lemma HeaderConstants(sport: u16, dport: u16, seqNo: int, ackNo: int, flags: byte, win: nat, data: Bytes)
    ensures var built := BuildTcp(sport, dport, seqNo, ackNo, flags, win, data);
            built[12] == 0x50 && built[16..20] == [0, 0, 0, 0]
  {
  }

  lemma HeaderFields(body: Bytes)
    requires |body| >= TCP_HDR_LEN
    ensures var s := ParseTcp(body).value;
            && Be16(s.sport) == body[..2] && Be16(s.dport) == body[2..4]
            && Be32(Wrap32(s.seqNo)) == body[4..8] && Be32(Wrap32(s.ackNo)) == body[8..12]
            && [body[12], s.flags] == body[12..14] && Be16(Wrap16(s.win / 0x100)) == body[14..16]
  {
    Be16RoundTrip(0, body[..2]);
    Be16RoundTrip(0, body[2..4]);
    NumberField(body[4..8]);
    NumberField(body[8..12]);
    Be16RoundTrip(0, body[14..16]);
    WindowField(body[14..16]);
  }

  lemma NumberField(b: Bytes)
    requires |b| == 4
    ensures Be32(Wrap32(FromBe32(b))) == b
  {
    Be32RoundTrip(0, b);
  }

  lemma WindowField(b: Bytes)
    requires |b| == 2
    ensures Wrap16(FromBe16(b) as int * 0x100 / 0x100) == FromBe16(b)
  {
  }

  lemma CanonicalRebuild(body: Bytes)
    requires |body| >= TCP_HDR_LEN && body[12] == 0x50 && body[16..20] == [0, 0, 0, 0]
    ensures var s := ParseTcp(body).value;
            BuildTcp(s.sport, s.dport, s.seqNo, s.ackNo, s.flags, s.win, s.payload) == body
  {
    HeaderFields(body);
    SplitHeader(body);
    assert body[16..18] == body[16..20][..2] == Be16(0);
    assert body[18..20] == body[16..20][2..] == Be16(0);
  }

  lemma SplitHeader(body: Bytes)
    requires |body| >= TCP_HDR_LEN
    ensures body == body[..2] + body[2..4] + body[4..8] + body[8..12] + body[12..14] + body[14..16]
                    + body[16..18] + body[18..20] + body[20..]
  {
  }

  /** The mux header: both receivers recover protocol and body, and the length field frames the packet exactly. */
  lemma MuxRoundTrip(version: nat, proto: u32, payload: Bytes, txSeq: int, rxSeq: int)
    requires |payload| < 0xFFFF_FFF0
    ensures var packet := BuildMuxPacket(version, proto, payload, txSeq, rxSeq);
            && SplitPacket(version, packet) == Some(MuxFrame(proto, payload))
            && FromBe32(packet[4..8]) == |packet|
            && (version >= 2 ==> FromBe16(packet[12..14]) == Wrap16(txSeq) && FromBe16(packet[14..16]) == Wrap16(rxSeq))
  {
  }

  lemma TcpEncodersAgree(sport: u16, dport: u16, seqNo: u32, ackNo: u32, flags: byte, data: Bytes)
    ensures EncodeTcp(sport, dport, seqNo, ackNo, flags, data)
      == BuildTcp(sport, dport, seqNo, ackNo, flags, TX_WINDOW, data)
  {
    Regroup(Be16(sport) + Be16(dport) + Be32(seqNo) + Be32(ackNo), 0x50, flags, Be16(512), data);
    Constants(seqNo);
    Constants(ackNo);
  }

  lemma Constants(n: u32)
    ensures Wrap32(n) == n && Wrap16(TX_WINDOW / 0x100) == 512 && Be16(0) == [0, 0] && TCP_HDR_LEN / 4 * 0x10 == 0x50
  {
  }

  lemma Regroup(start: Bytes, x: byte, y: byte, window: Bytes, data: Bytes)
    ensures start + [x] + [y] + window + [0, 0, 0, 0] + data == start + [x, y] + window + [0, 0] + [0, 0] + data
  {
    assert start + [x] + [y] == start + [x, y];
    assert start + [x, y] + window + [0, 0, 0, 0] == start + [x, y] + window + [0, 0] + [0, 0];
  }

  lemma PacketEncodersAgree(version: u32, proto: u32, body: Bytes, muxSeq: u16)
    requires |body| < 0xFFFF_FFF0
    ensures EncodePacket(version, proto, body, muxSeq) == BuildMuxPacket(version, proto, body, muxSeq, 0xFFFF)
  {
    assert Wrap32(16 + |body|) == 16 + |body| && Wrap32(8 + |body|) == 8 + |body|;
    assert Wrap16(muxSeq) == muxSeq && Wrap16(0xFFFF) == 0xFFFF;
  }

  lemma DecodersAgree(body: Bytes)
    ensures DecodeTcp(body) == ParseTcp(body)
  {
  }

  /** A whole TCP packet built in Python, split and decoded in Rust. */
  lemma PacketRoundTrip(version: nat, sport: u16, dport: u16, seqNo: int, ackNo: int,
                        flags: byte, win: nat, data: Bytes, txSeq: int, rxSeq: int)
    requires |data| < 0xFFFF_0000
    ensures var body := BuildTcp(sport, dport, seqNo, ackNo, flags, win, data);
            var frame := SplitPacket(version, BuildMuxPacket(version, PROTO_TCP, body, txSeq, rxSeq));
            && frame.Some? && frame.value.proto == PROTO_TCP
            && DecodeTcp(frame.value.body) ==
               Some(TcpSegment(sport, dport, Wrap32(seqNo), Wrap32(ackNo), flags,
                               (win - win % 0x100) % 0x100_0000, data))
  {
    var body := BuildTcp(sport, dport, seqNo, ackNo, flags, win, data);
    MuxRoundTrip(version, PROTO_TCP, body, txSeq, rxSeq);
    TcpRoundTrip(sport, dport, seqNo, ackNo, flags, win, data);
    DecodersAgree(body);
  }

  /** And one built in Rust, split and parsed in Python. */
  lemma RustPacketRoundTrip(version: u32, sport: u16, dport: u16, seqNo: u32, ackNo: u32,
                            flags: byte, data: Bytes, muxSeq: u16)
    requires |data| < 0xFFFF_0000
    ensures var body := EncodeTcp(sport, dport, seqNo, ackNo, flags, data);
            var frame := SplitPacket(version, EncodePacket(version, PROTO_TCP, body, muxSeq));
            && frame.Some? && frame.value.proto == PROTO_TCP
            && ParseTcp(frame.value.body) == Some(TcpSegment(sport, dport, seqNo, ackNo, flags, TX_WINDOW, data))
  {
    var body := EncodeTcp(sport, dport, seqNo, ackNo, flags, data);
    RustBodyRoundTrip(sport, dport, seqNo, ackNo, flags, data);
    PacketEncodersAgree(version, PROTO_TCP, body, muxSeq);
    MuxRoundTrip(version, PROTO_TCP, body, muxSeq, 0xFFFF);
  }

  lemma RustBodyRoundTrip(sport: u16, dport: u16, seqNo: u32, ackNo: u32, flags: byte, data: Bytes)
    ensures var body := EncodeTcp(sport, dport, seqNo, ackNo, flags, data);
            && |body| == TCP_HDR_LEN + |data|
            && ParseTcp(body) == Some(TcpSegment(sport, dport, seqNo, ackNo, flags, TX_WINDOW, data))
  {
    TcpEncodersAgree(sport, dport, seqNo, ackNo, flags, data);
    TcpRoundTrip(sport, dport, seqNo, ackNo, flags, TX_WINDOW, data);
  }
}
