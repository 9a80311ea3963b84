// The objects of the Rust multiplexer, updated in place and proved against RustMux.
module RustObjects {
  import opened Words
  import opened Codec
  import opened Framing
  import opened RustMux

  class MuxConnection {
    const sport: u16
    const dport: u16
    var connected: bool
    var closed: bool
    var refused: bool
    var txSeq: u32
    var txAck: u32
    var rxAck: u32
    var rxWin: nat
    var inbox: Bytes
    var pending: map<u32, Bytes>

    constructor (sport: u16, dport: u16)
      ensures this.sport == sport && this.dport == dport && View() == FreshConn(sport, dport)
    {
      this.sport, this.dport := sport, dport;
      connected, closed, refused := false, false, false;
      txSeq, txAck, rxAck, rxWin := 0, 0, 0, 0;
      inbox, pending := [], map[];
    }

    ghost function View(): Conn
      reads this
    {
      Conn(sport, dport, connected, closed, refused, txSeq, txAck, rxAck, rxWin, inbox, pending)
    }

    /** The locked part of `feed_tcp`. */
    method Absorb(s: TcpSegment) returns (sendAck: bool)
      modifies this
      ensures View() == Receive(old(View()), s)
      ensures sendAck == Answers(old(View()), s)
    {
      sendAck := false;
      rxAck := s.ackNo;
      rxWin := s.win;
      if !connected {
        if s.flags == SYN_ACK {
          connected := true;
          txSeq := Wrap32(txSeq as int + 1);
          txAck := Wrap32(s.seqNo as int + 1);
        } else {
          refused := HasRst(s.flags);
          closed := true;
        }
      } else if HasRst(s.flags) {
        closed := true;
      } else if s.payload != [] {
        var expected := txAck;
        if s.seqNo == expected {
          inbox := inbox + s.payload;
          txAck := Wrap32(s.seqNo as int + |s.payload|);
          AtExpected(old(View()), s);
          DrainPending();
        } else if Ahead(s.seqNo, expected) {
          if s.seqNo !in pending {
            pending := pending[s.seqNo := s.payload];
          }
        }
        sendAck := true;
      }
      sendAck := sendAck || s.flags == SYN_ACK;
    }

    /** The loop over early segments that now follow. */
    method DrainPending()
      modifies this
      ensures View() == Drain(old(View()))
    {
      while txAck in pending
        invariant Drain(View()) == Drain(old(View()))
        decreases pending.Keys
      {
        var p := pending[txAck];
        pending := pending - {txAck};
        inbox := inbox + p;
        txAck := Wrap32(txAck as int + |p|);
      }
    }
  }

  class MuxState {
    var version: u32
    var txSeq: u16
    var connections: map<u16, MuxConnection>
    var nextSport: u16
    var wire: seq<Bytes>

    constructor ()
      ensures Valid() && View() == Mux(0, 0, map[], []) && nextSport == 1
    {
      version, txSeq, nextSport := 0, 0, 1;
      connections, wire := map[], [];
    }

    /** Every connection is filed under its own source port, so no object is filed twice. */
    ghost predicate Valid()
      reads this
    {
      forall p :: p in connections ==> connections[p].sport == p
    }

    ghost function View(): Mux
      reads this, connections.Values
    {
      Mux(version, txSeq, map p | p in connections :: connections[p].View(), wire)
    }

    method SendPacket(proto: u32, body: Bytes)
      modifies this`txSeq, this`wire
      ensures View() == RustMux.SendPacket(old(View()), proto, body)
    {
      var header := if version >= 2 then 16 else 8;
      var packet := Be32(proto) + Be32(Wrap32(header + |body|));
      if version >= 2 {
        packet := packet + Be32(MUX_MAGIC) + Be16(txSeq) + Be16(0xffff);
        txSeq := Wrap16(txSeq as int + 1);
      }
      packet := packet + body;
      wire := wire + [packet];
    }

    method SendTcp(conn: MuxConnection, flags: byte, data: Bytes)
      requires Valid() && conn.sport in connections && connections[conn.sport] == conn
      modifies this`txSeq, this`wire, conn`txSeq
      ensures View() == RustMux.SendTcp(old(View()), conn.sport, flags, data)
    {
      var sequence := conn.txSeq;
      conn.txSeq := Wrap32(conn.txSeq as int + |data|);
      ghost var m := old(View());
      assert m.conns[conn.sport] == old(conn.View());
      assert View().conns == m.conns[conn.sport := conn.View()];
      assert conn.View() == old(conn.View()).(txSeq := conn.txSeq);
      var body := EncodeTcp(conn.sport, conn.dport, sequence, conn.txAck, flags, data);
      SendPacket(PROTO_TCP, body);
    }

    method FeedTcp(body: Bytes)
      requires Valid()
      modifies this`txSeq, this`wire, connections.Values
      ensures View() == RustMux.FeedTcp(old(View()), body)
    {
      var segment := DecodeTcp(body);
      if segment.None? { return; }
      var s := segment.value;
      if s.dport !in connections { return; }
      var conn := connections[s.dport];
      var sendAck := conn.Absorb(s);
      ghost var m := old(View());
      assert View() == m.(conns := m.conns[s.dport := Receive(m.conns[s.dport], s)]);
      if sendAck {
        SendTcp(conn, ACK, []);
      }
    }

    /** Consume every complete packet of `buffer`; `rest` is what stays in it. */
    method FeedPackets(buffer: Bytes) returns (rest: Bytes)
      requires Valid()
      modifies this`version, this`txSeq, this`wire, connections.Values
      ensures AllPackets(Frame(buffer).packets)
      ensures View() == DispatchAll(old(View()), Frame(buffer).packets)
      ensures rest == RustRest(Frame(buffer)) && |rest| < DEV_MRU
    {
      rest := buffer;
      ghost var start, whole := View(), Frame(buffer);
      FrameSound(buffer);
      while true
        invariant Valid() && connections == old(connections)
        invariant AllPackets(Frame(rest).packets) && RustRest(Frame(rest)) == RustRest(whole)
        invariant DispatchAll(View(), Frame(rest).packets) == DispatchAll(start, whole.packets)
        decreases |rest|
      {
        if |rest| < 8 { return; }
        var length := FromBe32(rest[4..8]);
        if length < 8 || length > DEV_MRU { return []; }
        if |rest| < length { return; }
        var packet := rest[..length];
        assert Frame(rest).packets == [packet] + Frame(rest[length..]).packets;
        FrameSound(rest[length..]);
        rest := rest[length..];
        HandlePacket(packet);
      }
    }

    method HandlePacket(packet: Bytes)
      requires Valid() && |packet| >= 8
      modifies this`version, this`txSeq, this`wire, connections.Values
      ensures View() == Dispatch(old(View()), packet)
    {
      var proto := FromBe32(packet[..4]);
      if version >= 2 && |packet| < 16 { return; }
      var body := if version >= 2 then packet[16..] else packet[8..];
      if proto == PROTO_VERSION && |body| >= 12 {
        version := FromBe32(body[..4]);
        if version >= 2 {
          SendPacket(PROTO_SETUP, [7]);
        }
      } else if proto == PROTO_TCP {
        FeedTcp(body);
      }
    }

    /** Up to the wait for the device's answer: pick the next port, file a fresh connection, send SYN. */
    method OpenConnection(dport: u16) returns (conn: MuxConnection)
      requires Valid()
      modifies this`txSeq, this`wire, this`connections, this`nextSport
      ensures Valid() && fresh(conn) && connections == old(connections)[conn.sport := conn]
      ensures conn.sport == old(nextSport) && conn.dport == dport && nextSport == NextSport(old(nextSport))
      ensures var m := old(View());
              View() == RustMux.SendTcp(m.(conns := m.conns[conn.sport := FreshConn(conn.sport, dport)]),
                                      conn.sport, SYN, [])
    {
      var sport := nextSport;
      nextSport := NextSport(sport);
      conn := new MuxConnection(sport, dport);
      connections := connections[sport := conn];
      ghost var m := old(View());
      assert View() == m.(conns := m.conns[sport := FreshConn(sport, dport)]);
      SendTcp(conn, SYN, []);
    }
  }
}
