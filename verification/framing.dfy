// Cutting the USB byte stream into length-prefixed mux packets.
module Framing {
  import opened Words
  import opened Codec

  /**
   * What the front of a buffer says: wait for more bytes, give up on a bad length, or take a packet of `size` bytes.
   */
  datatype Cut = NeedMore | BadLength | Packet(size: nat)

  function NextCut(buf: Bytes): (cut: Cut)
    ensures cut.Packet? ==> 8 <= cut.size <= |buf| && cut.size <= DEV_MRU
  {
    if |buf| < 8 then NeedMore else
    var length := FromBe32(buf[4..8]);
    if length < 8 || length > DEV_MRU then BadLength
    else if |buf| < length then NeedMore
    else Packet(length)
  }

  /** All packets at the front of `buf`, what is left, and whether what is left starts with a bad header. */
  datatype Framed = Framed(packets: seq<Bytes>, rest: Bytes, bad: bool)

  function Frame(buf: Bytes): Framed {
    match NextCut(buf)
    case NeedMore => Framed([], buf, false)
    case BadLength => Framed([], buf, true)
    case Packet(size) =>
      var tail := Frame(buf[size..]);
      Framed([buf[..size]] + tail.packets, tail.rest, tail.bad)
  }

  /** A packet whose length field is its own length, within what either receiver accepts. */
  predicate WellFormed(packet: Bytes) {
    8 <= |packet| <= DEV_MRU && FromBe32(packet[4..8]) == |packet|
  }

  /** Framing loses nothing, yields only well-formed packets, and stops for one of the two reasons. */
  lemma {:induction false} FrameSound(buf: Bytes)
    ensures var f := Frame(buf);
            && Concat(f.packets) + f.rest == buf
            && (forall i :: 0 <= i < |f.packets| ==> WellFormed(f.packets[i]))
            && NextCut(f.rest) == if f.bad then BadLength else NeedMore
  {
    match NextCut(buf)
    case NeedMore =>
    case BadLength =>
    case Packet(size) =>
      FrameSound(buf[size..]);
      TakeWellFormed(buf);
      Rejoin(buf, size, Frame(buf[size..]));
  }

  lemma Rejoin(buf: Bytes, size: nat, tail: Framed)
    requires size <= |buf| && Concat(tail.packets) + tail.rest == buf[size..]
    ensures Concat([buf[..size]] + tail.packets) + tail.rest == buf
  {
  }

  lemma TakeWellFormed(buf: Bytes)
    requires NextCut(buf).Packet?
    ensures WellFormed(buf[..NextCut(buf).size])
  {
    assert buf[..NextCut(buf).size][4..8] == buf[4..8];
  }

  lemma CutWellFormed(packet: Bytes, tail: Bytes)
    requires WellFormed(packet)
    ensures NextCut(packet + tail) == Packet(|packet|)
  {
    assert (packet + tail)[4..8] == packet[4..8];
  }

  lemma {:induction false} FrameAfter(packets: seq<Bytes>, tail: Bytes)
    requires forall i :: 0 <= i < |packets| ==> WellFormed(packets[i])
    ensures Frame(Concat(packets) + tail) ==
            Framed(packets + Frame(tail).packets, Frame(tail).rest, Frame(tail).bad)
  {
    if packets == [] {
      assert Concat(packets) + tail == tail;
      assert packets + Frame(tail).packets == Frame(tail).packets;
    } else {
      var head, others := packets[0], Concat(packets[1..]) + tail;
      Assoc(head, Concat(packets[1..]), tail);
      CutWellFormed(head, others);
      assert (head + others)[..|head|] == head && (head + others)[|head|..] == others;
      FrameAfter(packets[1..], tail);
      Uncons(packets, Frame(tail).packets);
    }
  }

  /** More bytes never change the packets already cut, nor a bad verdict. */
  lemma {:induction false} FrameExtend(a: Bytes, b: Bytes)
    ensures var f := Frame(a); var g := Frame(f.rest + b);
            Frame(a + b) == Framed(f.packets + g.packets, g.rest, g.bad)
    ensures Frame(a).bad ==> Frame(a + b) == Framed(Frame(a).packets, Frame(a).rest + b, true)
  {
    var f := Frame(a);
    FrameSound(a);
    Assoc(Concat(f.packets), f.rest, b);
    FrameAfter(f.packets, f.rest + b);
    if f.bad {
      BadStaysBad(f.rest, b);
      assert f.packets + [] == f.packets;
    }
  }

  lemma BadStaysBad(a: Bytes, b: Bytes)
    requires NextCut(a) == BadLength
    ensures NextCut(a + b) == BadLength
  {
    assert (a + b)[4..8] == a[4..8];
  }

  // ------------------------------------------------------------------ The Rust reader

  /** What `feed_packets` leaves in its buffer: a bad header clears it. */
  function RustRest(f: Framed): Bytes {
    if f.bad then [] else f.rest
  }

  datatype Reads = Reads(packets: seq<Bytes>, pending: Bytes)

  /** The reader loop: each read is appended to `pending`, then `feed_packets` runs. */
  function RustReads(pending: Bytes, chunks: seq<Bytes>): Reads
    decreases |chunks|
  {
    if chunks == [] then Reads([], pending) else
    var f := Frame(pending + chunks[0]);
    var later := RustReads(RustRest(f), chunks[1..]);
    Reads(f.packets + later.packets, later.pending)
  }

  /** `pending` as `feed_packets` leaves it: nothing more can be cut from it. */
  predicate Settled(pending: Bytes) {
    NextCut(pending) == NeedMore
  }

  /** One way of reading `stream`: a read returns at most DEV_MRU bytes. */
  predicate CutsInto(stream: Bytes, chunks: seq<Bytes>) {
    Concat(chunks) == stream && forall i :: 0 <= i < |chunks| ==> |chunks[i]| <= DEV_MRU
  }

  /** The outcome of reading `stream` does not depend on how it is cut into reads. */
  ghost predicate ChunkingIndependent(stream: Bytes) {
    forall a, b :: CutsInto(stream, a) && CutsInto(stream, b) ==> RustReads([], a) == RustReads([], b)
  }

  lemma {:induction false} ReadsAsOne(pending: Bytes, chunks: seq<Bytes>)
    requires Settled(pending)
    requires var f := Frame(pending + Concat(chunks)); f.bad ==> |f.rest| == 8
    ensures var f := Frame(pending + Concat(chunks));
            RustReads(pending, chunks) == Reads(f.packets, RustRest(f))
    decreases |chunks|
  {
    if chunks == [] {
      assert pending + Concat(chunks) == pending;
    } else {
      var first, later := pending + chunks[0], Concat(chunks[1..]);
      var f := Frame(first);
      Assoc(pending, chunks[0], later);
      FrameExtend(first, later);
      FrameSound(first);
      if f.bad {
        assert later == [];
        assert [] + later == [];
        ReadsAsOne([], chunks[1..]);
      } else {
        ReadsAsOne(f.rest, chunks[1..]);
      }
    }
  }

  /**
   * Exactly the streams with no bad header, or with nothing after the 8 bytes of one, read the same however they are
   * cut.
   */
  lemma {:induction false} ChunkingIndependence(stream: Bytes)
    ensures ChunkingIndependent(stream) <==> (Frame(stream).bad ==> |Frame(stream).rest| == 8)
  {
    FrameSound(stream);
    if Frame(stream).bad && |Frame(stream).rest| > 8 {
      CutsDisagree(stream);
    } else {
      forall a, b | CutsInto(stream, a) && CutsInto(stream, b)
        ensures RustReads([], a) == RustReads([], b)
      {
        ReadsWhole(stream, a);
        ReadsWhole(stream, b);
      }
    }
  }

  lemma {:induction false} ReadsWhole(stream: Bytes, chunks: seq<Bytes>)
    requires CutsInto(stream, chunks) && (Frame(stream).bad ==> |Frame(stream).rest| == 8)
    ensures RustReads([], chunks) == Reads(Frame(stream).packets, RustRest(Frame(stream)))
  {
    assert [] + stream == stream;
    ReadsAsOne([], chunks);
  }

  /** The other direction: a read that ends right after the bad header, or one byte later, clears a different amount. */
  lemma {:induction false} CutsDisagree(stream: Bytes)
    requires Frame(stream).bad && |Frame(stream).rest| > 8
    ensures !ChunkingIndependent(stream)
    decreases |stream|
  {
    FrameSound(stream);
    var rest := Frame(stream).rest;
    if DisagreeAfter(stream, 8) {
      CutsDisagree(rest[8..]);
      DisagreementLifts(stream, 8);
    } else if DisagreeAfter(stream, 9) {
      CutsDisagree(rest[9..]);
      DisagreementLifts(stream, 9);
    } else {
      SizesDisagree(stream);
    }
  }

  /** What follows the first `n` bytes at the bad header has itself a bad header with more bytes behind it. */
  predicate DisagreeAfter(stream: Bytes, n: nat)
    requires n <= |Frame(stream).rest|
  {
    var later := Frame(Frame(stream).rest[n..]);
    later.bad && |later.rest| > 8
  }

  lemma {:induction false} DisagreementLifts(stream: Bytes, n: nat)
    requires Frame(stream).bad && 8 <= n <= 9 && n <= |Frame(stream).rest|
    requires !ChunkingIndependent(Frame(stream).rest[n..])
    ensures !ChunkingIndependent(stream)
  {
    var f, later := Frame(stream), Frame(stream).rest[n..];
    var a, b :| CutsInto(later, a) && CutsInto(later, b) && RustReads([], a) != RustReads([], b);
    AcrossBad(stream, n, a);
    AcrossBad(stream, n, b);
    Cancel(f.packets, RustReads([], a).packets, RustReads([], b).packets);
  }

  lemma {:induction false} SizesDisagree(stream: Bytes)
    requires Frame(stream).bad && |Frame(stream).rest| > 8 && !DisagreeAfter(stream, 8) && !DisagreeAfter(stream, 9)
    ensures !ChunkingIndependent(stream)
  {
    var f := Frame(stream);
    var x, y := f.rest[8..], f.rest[9..];
    SizesDiffer(x, y);
    AcrossBad(stream, 8, Bytewise(x));
    AcrossBad(stream, 9, Bytewise(y));
    Cancel(f.packets, RustReads([], Bytewise(x)).packets, RustReads([], Bytewise(y)).packets);
    Disagreement(stream, SkipCut(stream, 8, Bytewise(x)), SkipCut(stream, 9, Bytewise(y)));
  }

  lemma {:induction false} Disagreement(stream: Bytes, a: seq<Bytes>, b: seq<Bytes>)
    requires CutsInto(stream, a) && CutsInto(stream, b) && RustReads([], a) != RustReads([], b)
    ensures !ChunkingIndependent(stream)
  {
  }

  /** With well-formed traffic or a bare bad header left, what is kept has the stream's own size modulo 8. */
  lemma {:induction false} SizesDiffer(x: Bytes, y: Bytes)
    requires |x| == |y| + 1
    requires (Frame(x).bad ==> |Frame(x).rest| <= 8) && (Frame(y).bad ==> |Frame(y).rest| <= 8)
    ensures CutsInto(x, Bytewise(x)) && CutsInto(y, Bytewise(y))
    ensures RustReads([], Bytewise(x)) != RustReads([], Bytewise(y))
  {
    FrameSound(x);
    FrameSound(y);
    BytewiseCuts(x);
    BytewiseCuts(y);
    OutcomeSize(x, Bytewise(x));
    OutcomeSize(y, Bytewise(y));
    assert Size(RustReads([], Bytewise(x))) != Size(RustReads([], Bytewise(y)));
  }

  /** Reading bytewise: some way of cutting a stream always exists. */
  function Bytewise(stream: Bytes): seq<Bytes> {
    if stream == [] then [] else [[stream[0]]] + Bytewise(stream[1..])
  }

  lemma {:induction false} BytewiseCuts(stream: Bytes)
    ensures CutsInto(stream, Bytewise(stream))
  {
    if stream != [] {
      BytewiseCuts(stream[1..]);
      assert [stream[0]] + stream[1..] == stream;
    }
  }

  /** The bytes a reader has kept, in packets and in its buffer. */
  function Size(r: Reads): nat {
    |Concat(r.packets)| + |r.pending|
  }

  lemma {:induction false} OutcomeSize(stream: Bytes, chunks: seq<Bytes>)
    requires CutsInto(stream, chunks) && (Frame(stream).bad ==> |Frame(stream).rest| == 8)
    ensures Size(RustReads([], chunks)) == |stream| - if Frame(stream).bad then 8 else 0
  {
    FrameSound(stream);
    ReadsWhole(stream, chunks);
  }

  lemma Cancel<T>(p: seq<T>, a: seq<T>, b: seq<T>)
    ensures p + a == p + b <==> a == b
  {
    assert a == (p + a)[|p|..] && b == (p + b)[|p|..];
  }

  /** Packets one by one, then a read of `n` bytes at the bad header, then any reads: these see a fresh stream. */
  function SkipCut(stream: Bytes, n: nat, later: seq<Bytes>): seq<Bytes>
    requires n <= |Frame(stream).rest|
  {
    Frame(stream).packets + ([Frame(stream).rest[..n]] + later)
  }

  lemma {:induction false} AcrossBad(stream: Bytes, n: nat, later: seq<Bytes>)
    requires Frame(stream).bad && 8 <= n <= 9 && n <= |Frame(stream).rest|
    requires CutsInto(Frame(stream).rest[n..], later)
    ensures CutsInto(stream, SkipCut(stream, n, later))
    ensures var r := RustReads([], later);
            RustReads([], SkipCut(stream, n, later)) == Reads(Frame(stream).packets + r.packets, r.pending)
  {
    var f := Frame(stream);
    FrameSound(stream);
    SkipCutCuts(stream, n, later);
    ReadBadHeader(f.rest, n, later);
    ReadPackets(f.packets, [f.rest[..n]] + later);
  }

  lemma {:induction false} SkipCutCuts(stream: Bytes, n: nat, later: seq<Bytes>)
    requires Frame(stream).bad && 8 <= n <= 9 && n <= |Frame(stream).rest|
    requires CutsInto(Frame(stream).rest[n..], later)
    ensures CutsInto(stream, SkipCut(stream, n, later))
  {
    FrameSound(stream);
    CutAcross(Frame(stream).packets, Frame(stream).rest, n, later);
  }

  lemma {:induction false} CutAcross(packets: seq<Bytes>, rest: Bytes, n: nat, later: seq<Bytes>)
    requires forall i :: 0 <= i < |packets| ==> |packets[i]| <= DEV_MRU
    requires n <= 9 && n <= |rest| && CutsInto(rest[n..], later)
    ensures CutsInto(Concat(packets) + rest, packets + ([rest[..n]] + later))
  {
    JoinRest(packets, rest, n, later);
    SmallReads(packets, rest[..n], later);
  }

  lemma {:induction false} JoinRest(packets: seq<Bytes>, rest: Bytes, n: nat, later: seq<Bytes>)
    requires n <= |rest| && Concat(later) == rest[n..]
    ensures Concat(packets + ([rest[..n]] + later)) == Concat(packets) + rest
  {
    JoinCuts(packets, rest[..n], later);
    SplitAt(rest, n);
  }

  lemma SmallReads(packets: seq<Bytes>, h: Bytes, later: seq<Bytes>)
    requires |h| <= DEV_MRU
    requires forall i :: 0 <= i < |packets| ==> |packets[i]| <= DEV_MRU
    requires forall i :: 0 <= i < |later| ==> |later[i]| <= DEV_MRU
    ensures var chunks := packets + ([h] + later); forall i :: 0 <= i < |chunks| ==> |chunks[i]| <= DEV_MRU
  {
  }

  lemma {:induction false} JoinCuts(packets: seq<Bytes>, h: Bytes, later: seq<Bytes>)
    ensures Concat(packets + ([h] + later)) == Concat(packets) + (h + Concat(later))
  {
    ConcatAppend(packets, [h] + later);
    assert ([h] + later)[1..] == later;
  }

  lemma {:induction false} ReadBadHeader(rest: Bytes, n: nat, later: seq<Bytes>)
    requires NextCut(rest) == BadLength && 8 <= n <= |rest|
    ensures RustReads([], [rest[..n]] + later) == RustReads([], later)
  {
    var h := rest[..n];
    assert h[4..8] == rest[4..8];
    assert [] + h == h;
    assert ([h] + later)[1..] == later;
    assert [] + RustReads([], later).packets == RustReads([], later).packets;
  }

  lemma {:induction false} ReadPackets(packets: seq<Bytes>, later: seq<Bytes>)
    requires forall i :: 0 <= i < |packets| ==> WellFormed(packets[i])
    ensures var r := RustReads([], later); RustReads([], packets + later) == Reads(packets + r.packets, r.pending)
    decreases |packets|
  {
    var r := RustReads([], later);
    if packets == [] {
      assert packets + later == later && packets + r.packets == r.packets;
    } else {
      ReadOnePacket(packets[0], packets[1..] + later);
      Uncons(packets, later);
      ReadPackets(packets[1..], later);
      Uncons(packets, r.packets);
    }
  }

  lemma {:induction false} FrameOne(packet: Bytes)
    requires WellFormed(packet)
    ensures Frame(packet) == Framed([packet], [], false)
  {
    CutWellFormed(packet, []);
    assert packet + [] == packet;
    assert packet[..|packet|] == packet && packet[|packet|..] == [];
    assert Frame(packet) == Framed([packet] + Frame([]).packets, [], false);
  }

  lemma {:induction false} ReadOnePacket(packet: Bytes, later: seq<Bytes>)
    requires WellFormed(packet)
    ensures var r := RustReads([], later); RustReads([], [packet] + later) == Reads([packet] + r.packets, r.pending)
  {
    FrameOne(packet);
    assert [] + packet == packet;
    assert ([packet] + later)[1..] == later;
  }

  /** Well-formed traffic: every way of cutting it yields the packets that were sent. */
  lemma {:induction false} WellFormedTraffic(packets: seq<Bytes>, tail: Bytes, chunks: seq<Bytes>)
    requires forall i :: 0 <= i < |packets| ==> WellFormed(packets[i])
    requires Settled(tail) && Concat(chunks) == Concat(packets) + tail
    ensures RustReads([], chunks) == Reads(packets, tail)
    ensures PyReads([], chunks) == PyOutcome(packets, tail, true)
  {
    FrameAfter(packets, tail);
    assert packets + [] == packets;
    assert [] + Concat(chunks) == Concat(chunks);
    ReadsAsOne([], chunks);
    PyReadsAsOne([], chunks);
  }

  /** Any bytes at all: the buffer stays under 64 KiB between reads and under 128 KiB during one. */
  lemma {:induction false} BufferBound(pending: Bytes, chunks: seq<Bytes>, k: nat)
    requires |pending| < DEV_MRU && k < |chunks|
    requires forall i :: 0 <= i < |chunks| ==> |chunks[i]| <= DEV_MRU
    ensures |RustReads(pending, chunks[..k]).pending| < DEV_MRU
    ensures |RustReads(pending, chunks[..k]).pending + chunks[k]| < 2 * DEV_MRU
    decreases k
  {
    if k == 0 {
      assert chunks[..k] == [];
    } else {
      var f := Frame(pending + chunks[0]);
      assert chunks[..k][0] == chunks[0] && chunks[..k][1..] == chunks[1..][..k - 1];
      FrameSound(pending + chunks[0]);
      BufferBound(RustRest(f), chunks[1..], k - 1);
    }
  }

  // ------------------------------------------------------------------ The Python assembler

  /** Packets returned by `feed` so far, the buffer, and whether `feed` has never raised. */
  datatype PyOutcome = PyOutcome(packets: seq<Bytes>, buf: Bytes, ok: bool)

  /** Successive `feed` calls, stopping at the first that raises; the packets cut in that call are lost with it. */
  function PyReads(buf: Bytes, chunks: seq<Bytes>): PyOutcome
    decreases |chunks|
  {
    if chunks == [] then PyOutcome([], buf, true) else
    var f := Frame(buf + chunks[0]);
    if f.bad then PyOutcome([], f.rest, false) else
    var later := PyReads(f.rest, chunks[1..]);
    PyOutcome(f.packets + later.packets, later.buf, later.ok)
  }

  lemma {:induction false} PyReadsAsOne(buf: Bytes, chunks: seq<Bytes>)
    requires Settled(buf)
    requires !Frame(buf + Concat(chunks)).bad
    ensures var f := Frame(buf + Concat(chunks));
            PyReads(buf, chunks) == PyOutcome(f.packets, f.rest, true)
    decreases |chunks|
  {
    if chunks == [] {
      assert buf + Concat(chunks) == buf;
    } else {
      Assoc(buf, chunks[0], Concat(chunks[1..]));
      FrameSound(buf + chunks[0]);
      FrameExtend(buf + chunks[0], Concat(chunks[1..]));
      PyReadsAsOne(Frame(buf + chunks[0]).rest, chunks[1..]);
    }
  }

  datatype FeedResult = Packets(packets: seq<Bytes>) | BadMuxLength

  /** What each of a series of `feed` calls gives, the ones after an exception included. */
  function PyFeeds(buf: Bytes, chunks: seq<Bytes>): (results: seq<FeedResult>)
    ensures |results| == |chunks|
    decreases |chunks|
  {
    if chunks == [] then [] else
    var f := Frame(buf + chunks[0]);
    [if f.bad then BadMuxLength else Packets(f.packets)] + PyFeeds(f.rest, chunks[1..])
  }

  /** The packets that come out of them. */
  function Returned(results: seq<FeedResult>): seq<Bytes> {
    if results == [] then [] else
    (match results[0] case Packets(packets) => packets case BadMuxLength => []) + Returned(results[1..])
  }

  /** With a bad header at the front of the buffer every later `feed` raises, whatever arrives. */
  lemma {:induction false} PyStuckForever(buf: Bytes, chunks: seq<Bytes>)
    requires NextCut(buf) == BadLength
    ensures forall i :: 0 <= i < |chunks| ==> PyFeeds(buf, chunks)[i] == BadMuxLength
    ensures Returned(PyFeeds(buf, chunks)) == []
    decreases |chunks|
  {
    if chunks != [] {
      FrameExtend(buf, chunks[0]);
      BadStaysBad(buf, chunks[0]);
      PyStuckForever(buf + chunks[0], chunks[1..]);
    }
  }

  /** So the packets of all feeds are those of the feeds before the first exception. */
  lemma {:induction false} NothingAfterRaise(buf: Bytes, chunks: seq<Bytes>)
    ensures Returned(PyFeeds(buf, chunks)) == PyReads(buf, chunks).packets
    decreases |chunks|
  {
    if chunks != [] {
      var f := Frame(buf + chunks[0]);
      FrameSound(buf + chunks[0]);
      if f.bad {
        PyStuckForever(f.rest, chunks[1..]);
      } else {
        NothingAfterRaise(f.rest, chunks[1..]);
      }
    }
  }

  /** The packets that come out, and whether a feed raises, do not depend on how `stream` is cut into reads. */
  ghost predicate PyChunkingIndependent(stream: Bytes) {
    forall a, b :: CutsInto(stream, a) && CutsInto(stream, b) ==> SameFeeds(PyReads([], a), PyReads([], b))
  }

  predicate SameFeeds(x: PyOutcome, y: PyOutcome) {
    x.packets == y.packets && x.ok == y.ok
  }

  /**
   * Exactly the streams with no bad header, or with no packet before it: a feed that raises drops the packets it cut.
   */
  lemma {:induction false} PyChunkingIndependence(stream: Bytes)
    ensures PyChunkingIndependent(stream) <==> !Frame(stream).bad || Frame(stream).packets == []
  {
    if Frame(stream).bad && Frame(stream).packets != [] {
      PyCutsDisagree(stream);
    } else {
      forall a, b | CutsInto(stream, a) && CutsInto(stream, b)
        ensures SameFeeds(PyReads([], a), PyReads([], b))
      {
        PyReadsWhole(stream, a);
        PyReadsWhole(stream, b);
      }
    }
  }

  lemma {:induction false} PyReadsWhole(stream: Bytes, chunks: seq<Bytes>)
    requires CutsInto(stream, chunks) && (!Frame(stream).bad || Frame(stream).packets == [])
    ensures SameFeeds(PyReads([], chunks), PyOutcome(Frame(stream).packets, Frame(stream).rest, !Frame(stream).bad))
  {
    assert [] + stream == stream;
    if Frame(stream).bad {
      PyReadsNothing([], chunks);
    } else {
      PyReadsAsOne([], chunks);
    }
  }

  lemma {:induction false} PyReadsNothing(buf: Bytes, chunks: seq<Bytes>)
    requires Settled(buf) && Frame(buf + Concat(chunks)).bad && Frame(buf + Concat(chunks)).packets == []
    ensures PyReads(buf, chunks).packets == [] && !PyReads(buf, chunks).ok
    decreases |chunks|
  {
    assert buf + [] == buf;
    if chunks != [] {
      Assoc(buf, chunks[0], Concat(chunks[1..]));
      FrameSound(buf + chunks[0]);
      FrameExtend(buf + chunks[0], Concat(chunks[1..]));
      if !Frame(buf + chunks[0]).bad {
        PyReadsNothing(Frame(buf + chunks[0]).rest, chunks[1..]);
      }
    }
  }

  /** Packets one by one, then the bad header. */
  function ApartCut(stream: Bytes): seq<Bytes>
    requires |Frame(stream).rest| >= 8
  {
    SkipCut(stream, 8, Bytewise(Frame(stream).rest[8..]))
  }

  /** The same, but with the last byte of the last packet in one read with the bad header. */
  function JointCut(stream: Bytes): seq<Bytes>
    requires |Frame(stream).rest| >= 8 && Frame(stream).packets != []
  {
    var f, k := Frame(stream), |Frame(stream).packets| - 1;
    f.packets[..k] + JointTail(f.packets[k], f.rest)
  }

  function JointTail(last: Bytes, rest: Bytes): seq<Bytes>
    requires |rest| >= 8
  {
    var n := if last == [] then 0 else |last| - 1;
    [last[..n]] + ([last[n..] + rest[..8]] + Bytewise(rest[8..]))
  }

  lemma {:induction false} PyCutsDisagree(stream: Bytes)
    requires Frame(stream).bad && Frame(stream).packets != []
    ensures !PyChunkingIndependent(stream)
  {
    FrameSound(stream);
    BytewiseCuts(Frame(stream).rest[8..]);
    SkipCutCuts(stream, 8, Bytewise(Frame(stream).rest[8..]));
    JointCutCuts(stream);
    ApartReads(stream);
    JointReads(stream);
  }

  lemma {:induction false} JointCutCuts(stream: Bytes)
    requires Frame(stream).bad && Frame(stream).packets != [] && |Frame(stream).rest| >= 8
    ensures CutsInto(stream, JointCut(stream))
  {
    var f, k := Frame(stream), |Frame(stream).packets| - 1;
    FrameSound(stream);
    JointTailCuts(f.packets[k], f.rest);
    ConcatAppend(f.packets[..k], JointTail(f.packets[k], f.rest));
    SplitAt(f.packets, k);
    assert f.packets[k..] == [f.packets[k]];
    ConcatSnoc(f.packets[..k], f.packets[k]);
    Assoc(Concat(f.packets[..k]), f.packets[k], f.rest);
  }

  lemma {:induction false} JointTailCuts(last: Bytes, rest: Bytes)
    requires 8 <= |last| <= DEV_MRU && |rest| >= 8
    ensures CutsInto(last + rest, JointTail(last, rest))
  {
    var n := |last| - 1;
    var more := Bytewise(rest[8..]);
    BytewiseCuts(rest[8..]);
    ConcatCons(last[..n], [last[n..] + rest[..8]] + more);
    ConcatCons(last[n..] + rest[..8], more);
    SplitAt(last, n);
    SplitAt(rest, 8);
    Assoc4(last[..n], last[n..], rest[..8], rest[8..]);
  }

  /** Reading packets apart from the bad header returns them all. */
  lemma {:induction false} ApartReads(stream: Bytes)
    requires Frame(stream).bad && |Frame(stream).rest| >= 8
    ensures PyReads([], ApartCut(stream)).packets == Frame(stream).packets
  {
    var f := Frame(stream);
    FrameSound(stream);
    PyReadPackets(f.packets, [f.rest[..8]] + Bytewise(f.rest[8..]));
    BareHeaderBad(f.rest);
    PyReadBad([], f.rest[..8], Bytewise(f.rest[8..]));
    assert f.packets + [] == f.packets;
  }

  lemma {:induction false} BareHeaderBad(rest: Bytes)
    requires NextCut(rest) == BadLength
    ensures NextCut(rest[..8]) == BadLength && Frame([] + rest[..8]).bad
  {
    assert rest[..8][4..8] == rest[4..8];
    assert [] + rest[..8] == rest[..8];
  }

  lemma {:induction false} JointReads(stream: Bytes)
    requires Frame(stream).bad && |Frame(stream).rest| >= 8 && Frame(stream).packets != []
    ensures PyReads([], JointCut(stream)).packets == Frame(stream).packets[..|Frame(stream).packets| - 1]
  {
    var f, k := Frame(stream), |Frame(stream).packets| - 1;
    FrameSound(stream);
    PyReadPackets(f.packets[..k], JointTail(f.packets[k], f.rest));
    JointTailReads(f.packets[k], f.rest);
    assert f.packets[..k] + [] == f.packets[..k];
  }

  lemma {:induction false} JointTailReads(last: Bytes, rest: Bytes)
    requires WellFormed(last) && |rest| >= 8 && NextCut(rest) == BadLength
    ensures PyReads([], JointTail(last, rest)).packets == []
  {
    var n := |last| - 1;
    var h, more := last[n..] + rest[..8], Bytewise(rest[8..]);
    CutShort(last);
    assert [] + last[..n] == last[..n];
    PyReadOne([], last[..n], [h] + more);
    BareHeaderBad(rest);
    FrameAfter([last], rest[..8]);
    assert Concat([last]) == last;
    SplitAt(last, n);
    Assoc(last[..n], last[n..], rest[..8]);
    PyReadBad(last[..n], h, more);
  }

  /** One byte short of a packet nothing can be cut. */
  lemma {:induction false} CutShort(packet: Bytes)
    requires WellFormed(packet)
    ensures Frame(packet[..|packet| - 1]) == Framed([], packet[..|packet| - 1], false)
  {
    var short := packet[..|packet| - 1];
    if |short| >= 8 {
      assert short[4..8] == packet[4..8];
    }
  }

  lemma {:induction false} PyReadOne(buf: Bytes, chunk: Bytes, later: seq<Bytes>)
    requires !Frame(buf + chunk).bad
    ensures var f := Frame(buf + chunk); var r := PyReads(f.rest, later);
            PyReads(buf, [chunk] + later) == PyOutcome(f.packets + r.packets, r.buf, r.ok)
  {
    assert ([chunk] + later)[1..] == later;
  }

  lemma {:induction false} PyReadBad(buf: Bytes, chunk: Bytes, later: seq<Bytes>)
    requires Frame(buf + chunk).bad
    ensures PyReads(buf, [chunk] + later) == PyOutcome([], Frame(buf + chunk).rest, false)
  {
    assert ([chunk] + later)[0] == chunk;
  }

  lemma {:induction false} PyReadPackets(packets: seq<Bytes>, later: seq<Bytes>)
    requires forall i :: 0 <= i < |packets| ==> WellFormed(packets[i])
    ensures PyReads([], packets + later).packets == packets + PyReads([], later).packets
    decreases |packets|
  {
    var r := PyReads([], later);
    if packets == [] {
      assert packets + later == later && packets + r.packets == r.packets;
    } else {
      FrameOne(packets[0]);
      assert [] + packets[0] == packets[0];
      PyReadOne([], packets[0], packets[1..] + later);
      Uncons(packets, later);
      PyReadPackets(packets[1..], later);
      Uncons(packets, r.packets);
    }
  }

  /** `out` already cut off, then what framing `buf` yields. */
  function Onto(out: seq<Bytes>, buf: Bytes): Framed {
    Framed(out + Frame(buf).packets, Frame(buf).rest, Frame(buf).bad)
  }

  lemma {:induction false} OntoNext(out: seq<Bytes>, buf: Bytes)
    ensures match NextCut(buf)
            case Packet(size) => Onto(out, buf) == Onto(out + [buf[..size]], buf[size..])
            case cut => Onto(out, buf) == Framed(out, buf, cut.BadLength?)
  {
    match NextCut(buf)
    case Packet(size) => Assoc(out, [buf[..size]], Frame(buf[size..]).packets);
    case _ => assert out + [] == out;
  }

  class PacketAssembler {
    var buf: Bytes

    constructor ()
      ensures buf == []
    {
      buf := [];
    }

    method Feed(chunk: Bytes) returns (result: FeedResult)
      modifies this
      ensures var f := Frame(old(buf) + chunk);
              && buf == f.rest
              && result == if f.bad then BadMuxLength else Packets(f.packets)
    {
      buf := buf + chunk;
      ghost var whole := Frame(buf);
      var out: seq<Bytes> := [];
      assert out + whole.packets == whole.packets;
      while |buf| >= 8
        invariant whole == Onto(out, buf)
        decreases |buf|
      {
        OntoNext(out, buf);
        var length := FromBe32(buf[4..8]);
        if length < 8 || length > DEV_MRU {
          return BadMuxLength;
        }
        if |buf| < length {
          break;
        }
        out := out + [buf[..length]];
        buf := buf[length..];
      }
      OntoNext(out, buf);
      return Packets(out);
    }
  }
}
