// Re-cut retransmissions against 32-bit sequence numbers: how long a stream the Rust receiver can take in safely.
module Wraparound {
  import opened Words
  import opened Codec
  import opened RustMux
  import opened Reassembly

  const WRAP := 0x1_0000_0000
  const MAX_SEGMENT := DEV_MRU - 16 - TCP_HDR_LEN

  /** The sequence number of the stream's byte at offset `n`. */
  function SeqOf(isn: u32, n: nat): u32 {
    Wrap32(isn as int + 1 + n)
  }

  /** A connection on which SYN|ACK has just arrived. */
  predicate JustOpened(c: Conn, isn: u32) {
    c.connected && c.inbox == [] && c.pending == map[] && c.txAck == Wrap32(isn as int + 1)
  }

  /** A piece of the stream that one packet can hold, or a segment without data. */
  predicate SliceOf(a: Arrival, isn: u32, stream: Bytes) {
    if a.Data? then IsSlice(a.segment, isn, stream, a.index) && |a.segment.payload| <= MAX_SEGMENT else Quiet(a.segment)
  }

  /** Pieces in any order, cut anywhere, repeated and overlapping in any way. */
  predicate Slices(run: seq<Arrival>, isn: u32, stream: Bytes) {
    forall k :: 0 <= k < |run| ==> SliceOf(run[k], isn, stream)
  }

  /** The same, each piece starting less than half the sequence space from the position, the end of the inbox. */
  predicate NearSlices(c: Conn, run: seq<Arrival>, isn: u32, stream: Bytes)
    decreases |run|
  {
    run == [] ||
    (&& SliceOf(run[0], isn, stream)
     && (run[0].Data? ==> InWindow(run[0].index, |c.inbox|))
     && NearSlices(Receive(c, run[0].segment), run[1..], isn, stream))
  }

  ghost predicate SlicesSafe(isn: u32, stream: Bytes) {
    forall c, run :: JustOpened(c, isn) && Slices(run, isn, stream) ==> ReceiveAll(c, run).inbox <= stream
  }

  ghost predicate NearSlicesSafe(isn: u32, stream: Bytes) {
    forall c, run :: JustOpened(c, isn) && NearSlices(c, run, isn, stream) ==> ReceiveAll(c, run).inbox <= stream
  }

  // ------------------------------------------------------------------ Safe lengths

  lemma {:induction false} ShortIsSafe(c: Conn, run: seq<Arrival>, isn: u32, stream: Bytes)
    requires JustOpened(c, isn) && Slices(run, isn, stream) && |stream| < WRAP
    ensures ReceiveAll(c, run).inbox <= stream
  {
    forall k | 0 <= k < |run|
      ensures if run[k].Data? then IsSlice(run[k].segment, isn, stream, run[k].index) else Quiet(run[k].segment)
    {
      assert SliceOf(run[k], isn, stream);
    }
    AnyCutIsSafe(c, isn, stream, run);
  }

  /**
   * Held early pieces lie strictly after the start of the stream: none is one wrap-around away from a position within
   * it.
   */
  ghost predicate NearHeld(c: Conn, isn: u32, stream: Bytes) {
    && c.connected && c.inbox <= stream && c.txAck == SeqOf(isn, |c.inbox|)
    && (forall key :: key in c.pending ==> exists n :: HeldAt(c.pending[key], key, isn, stream, n))
  }

  ghost predicate HeldAt(p: Bytes, key: u32, isn: u32, stream: Bytes, n: nat) {
    n > 0 && p != [] && SliceAt(p, key, isn, stream, n)
  }

  lemma SameNearOffset(isn: u32, n: nat, m: nat)
    requires 0 < n < WRAP && m <= WRAP && SeqOf(isn, n) == SeqOf(isn, m)
    ensures n == m
  {
    var q := (isn as int + 1 + n) / WRAP - (isn as int + 1 + m) / WRAP;
    assert n - m == WRAP * q;
  }

  lemma {:induction false} DrainKeepsNear(c: Conn, isn: u32, stream: Bytes)
    requires NearHeld(c, isn, stream) && |stream| <= WRAP
    ensures NearHeld(Drain(c), isn, stream)
    decreases c.pending.Keys
  {
    if c.txAck in c.pending {
      DrainedKeepsNear(c, isn, stream);
      DrainKeepsNear(Drained(c), isn, stream);
    }
  }

  lemma {:induction false} DrainedKeepsNear(c: Conn, isn: u32, stream: Bytes)
    requires NearHeld(c, isn, stream) && |stream| <= WRAP && c.txAck in c.pending
    ensures NearHeld(Drained(c), isn, stream)
  {
    var p := c.pending[c.txAck];
    var n :| HeldAt(p, c.txAck, isn, stream, n);
    SameNearOffset(isn, n, |c.inbox|);
    MoveOn(c, isn, stream, p);
    forall key | key in Drained(c).pending
      ensures exists n :: HeldAt(Drained(c).pending[key], key, isn, stream, n)
    {
      assert Drained(c).pending[key] == c.pending[key];
    }
  }

  lemma NearDecides(isn: u32, n: nat, position: nat)
    requires InWindow(n, position)
    ensures Ahead(SeqOf(isn, n), SeqOf(isn, position)) <==> position <= n
    ensures SeqOf(isn, n) == SeqOf(isn, position) <==> position == n
  {
    var st := Stream(isn, []);
    assert SeqOf(isn, n) == Key(st, n) && SeqOf(isn, position) == Key(st, position);
    AheadMeansLater(st, n, position);
  }

  lemma {:induction false} NearKeeps(c: Conn, a: Arrival, isn: u32, stream: Bytes)
    requires NearHeld(c, isn, stream) && |stream| <= WRAP && SliceOf(a, isn, stream)
    requires a.Data? ==> InWindow(a.index, |c.inbox|)
    ensures NearHeld(Receive(c, a.segment), isn, stream)
  {
    var s := a.segment;
    if !Quiet(s) {
      NearDecides(isn, a.index, |c.inbox|);
      if s.seqNo == c.txAck {
        DeliverNear(c, s, isn, stream);
      } else {
        NotExpected(c, s);
        if Ahead(s.seqNo, c.txAck) && s.seqNo !in c.pending {
          StoreNear(c, s, isn, stream, a.index);
        }
      }
    }
  }

  lemma {:induction false} DeliverNear(c: Conn, s: TcpSegment, isn: u32, stream: Bytes)
    requires NearHeld(c, isn, stream) && |stream| <= WRAP && !Quiet(s)
    requires IsSlice(s, isn, stream, |c.inbox|) && s.seqNo == c.txAck
    ensures NearHeld(Receive(c, s), isn, stream)
  {
    DeliveredNear(c, s, isn, stream);
    DrainKeepsNear(Deliver(c, s), isn, stream);
    AtExpected(c, s);
  }

  lemma {:induction false} DeliveredNear(c: Conn, s: TcpSegment, isn: u32, stream: Bytes)
    requires NearHeld(c, isn, stream) && IsSlice(s, isn, stream, |c.inbox|) && s.seqNo == c.txAck
    ensures NearHeld(Deliver(c, s), isn, stream)
  {
    MoveOn(c, isn, stream, s.payload);
  }

  /** The next bytes of the stream move inbox and acknowledgement on together. */
  lemma MoveOn(c: Conn, isn: u32, stream: Bytes, p: Bytes)
    requires c.inbox <= stream && c.txAck == SeqOf(isn, |c.inbox|)
    requires |c.inbox| + |p| <= |stream| && stream[|c.inbox|..|c.inbox| + |p|] == p
    ensures c.inbox + p <= stream && Wrap32(c.txAck as int + |p|) == SeqOf(isn, |c.inbox + p|)
  {
    ExtendPrefix(stream, c.inbox, p);
    WrapAdd(isn as int + 1 + |c.inbox|, |p|);
  }

  lemma {:induction false} StoreNear(c: Conn, s: TcpSegment, isn: u32, stream: Bytes, n: nat)
    requires NearHeld(c, isn, stream) && s.seqNo !in c.pending && HeldAt(s.payload, s.seqNo, isn, stream, n)
    ensures NearHeld(c.(rxAck := s.ackNo, rxWin := s.win, pending := c.pending[s.seqNo := s.payload]), isn, stream)
  {
    var pending := c.pending[s.seqNo := s.payload];
    forall key | key in pending
      ensures exists n :: HeldAt(pending[key], key, isn, stream, n)
    {
      if key != s.seqNo {
        assert pending[key] == c.pending[key];
      }
    }
  }

  lemma {:induction false} NearIsSafe(c: Conn, run: seq<Arrival>, isn: u32, stream: Bytes)
    requires NearHeld(c, isn, stream) && |stream| <= WRAP && NearSlices(c, run, isn, stream)
    ensures ReceiveAll(c, run).inbox <= stream
    decreases |run|
  {
    if run != [] {
      NearKeeps(c, run[0], isn, stream);
      NearIsSafe(Receive(c, run[0].segment), run[1..], isn, stream);
    }
  }

  // ------------------------------------------------------------------ Longer streams

  /** Bytes `from` up to `to` of the stream as one data segment. */
  function Piece(isn: u32, stream: Bytes, from: nat, upto: nat): Arrival
    requires from <= upto <= |stream|
  {
    Data(from, TcpSegment(0, 0, SeqOf(isn, from), 0, ACK, 0, stream[from..upto]))
  }

  function ByteByByte(isn: u32, stream: Bytes, from: nat, upto: nat): seq<Arrival>
    requires from <= upto <= |stream|
    decreases upto - from
  {
    if from == upto then [] else [Piece(isn, stream, from, from + 1)] + ByteByByte(isn, stream, from + 1, upto)
  }

  /** In order up to offset `n`, with `pending` held. */
  predicate At(c: Conn, isn: u32, stream: Bytes, n: nat, pending: map<u32, Bytes>) {
    && n <= |stream| && c.connected && c.inbox == stream[..n] && c.pending == pending
    && c.txAck == SeqOf(isn, n)
  }

  /** The next piece goes in; if nothing held continues it, nothing else changes. */
  lemma {:induction false} PieceDelivered(c: Conn, isn: u32, stream: Bytes, n: nat, upto: nat, pending: map<u32, Bytes>)
    requires At(c, isn, stream, n, pending) && n < upto <= |stream| && SeqOf(isn, upto) !in pending
    ensures At(Receive(c, Piece(isn, stream, n, upto).segment), isn, stream, upto, pending)
  {
    var s := Piece(isn, stream, n, upto).segment;
    AtExpected(c, s);
    WrapAdd(isn as int + 1 + n, |s.payload|);
    assert stream[..n] + stream[n..upto] == stream[..upto];
  }

  /** No offset after `from` up to `to` has a number that `pending` holds. */
  predicate Clear(isn: u32, from: nat, upto: nat, pending: map<u32, Bytes>) {
    forall q :: from < q <= upto ==> SeqOf(isn, q) !in pending
  }

  lemma {:induction false} BytesDelivered(c: Conn, isn: u32, stream: Bytes, n: nat, upto: nat, pending: map<u32, Bytes>)
    requires At(c, isn, stream, n, pending) && n <= upto <= |stream| && Clear(isn, n, upto, pending)
    ensures At(ReceiveAll(c, ByteByByte(isn, stream, n, upto)), isn, stream, upto, pending)
    ensures NearSlices(c, ByteByByte(isn, stream, n, upto), isn, stream)
         && Slices(ByteByByte(isn, stream, n, upto), isn, stream)
    decreases upto - n
  {
    if n < upto {
      var piece, rest := Piece(isn, stream, n, n + 1), ByteByByte(isn, stream, n + 1, upto);
      PieceDelivered(c, isn, stream, n, n + 1, pending);
      BytesDelivered(Receive(c, piece.segment), isn, stream, n + 1, upto, pending);
      assert ([piece] + rest)[1..] == rest;
    }
  }

  lemma {:induction false} ReceiveThen(c: Conn, a: seq<Arrival>, b: seq<Arrival>)
    ensures ReceiveAll(c, a + b) == ReceiveAll(ReceiveAll(c, a), b)
    decreases |a|
  {
    if a == [] {
      assert a + b == b;
    } else {
      Uncons(a, b);
      ReceiveThen(Receive(c, a[0].segment), a[1..], b);
    }
  }

  lemma {:induction false} NearThen(c: Conn, a: seq<Arrival>, b: seq<Arrival>, isn: u32, stream: Bytes)
    requires NearSlices(c, a, isn, stream) && NearSlices(ReceiveAll(c, a), b, isn, stream)
    ensures NearSlices(c, a + b, isn, stream)
    decreases |a|
  {
    if a == [] {
      assert a + b == b;
    } else {
      Uncons(a, b);
      NearThen(Receive(c, a[0].segment), a[1..], b, isn, stream);
    }
  }

  lemma {:induction false} OnePiece(c: Conn, a: Arrival)
    ensures ReceiveAll(c, [a]) == Receive(c, a.segment)
  {
    assert [a][1..] == [];
  }

  function Opened(isn: u32): Conn {
    FreshConn(1, 1).(connected := true, txAck := Wrap32(isn as int + 1))
  }

  /** The whole stream, then the byte one wrap-around before its end once more. */
  lemma {:induction false} OldByteRepeats(isn: u32, stream: Bytes)
    requires |stream| >= WRAP
    ensures !SlicesSafe(isn, stream)
  {
    var c, o := Opened(isn), |stream| - WRAP;
    var whole, again := ByteByByte(isn, stream, 0, |stream|), Piece(isn, stream, o, o + 1);
    assert stream[..0] == [];
    BytesDelivered(c, isn, stream, 0, |stream|, map[]);
    ReceiveThen(c, whole, [again]);
    var d := ReceiveAll(c, whole);
    OnePiece(d, again);
    OneWrapLater(isn, o);
    AtExpected(d, again.segment);
    DrainKeeps(Deliver(d, again.segment));
    Unsafe(c, whole + [again], isn, stream);
  }

  lemma {:induction false} Unsafe(c: Conn, run: seq<Arrival>, isn: u32, stream: Bytes)
    requires JustOpened(c, isn) && Slices(run, isn, stream) && |ReceiveAll(c, run).inbox| > |stream|
    ensures !SlicesSafe(isn, stream)
  {
  }

  lemma OneWrapLater(isn: u32, n: nat)
    ensures SeqOf(isn, n + WRAP) == SeqOf(isn, n)
  {
  }

  /** Offsets between a held one and its double one wrap-around later have other numbers. */
  lemma ClearOfHeld(isn: u32, n: nat, from: nat, upto: nat, p: Bytes)
    requires n <= from && upto < n + WRAP
    ensures Clear(isn, from, upto, map[SeqOf(isn, n) := p])
  {
    forall q | from < q <= upto
      ensures SeqOf(isn, q) != SeqOf(isn, n)
    {
      NotWrapped(isn, n, q);
    }
  }

  lemma NotWrapped(isn: u32, n: nat, q: nat)
    requires n < q < n + WRAP
    ensures SeqOf(isn, q) != SeqOf(isn, n)
  {
  }

  /** An early byte at `n`, then a larger piece that covers it: the early one stays behind. */
  lemma {:induction false} Overtaken(c: Conn, isn: u32, stream: Bytes, n: nat) returns (run: seq<Arrival>)
    requires 0 < n < |stream| && At(c, isn, stream, n - 1, map[])
    ensures NearSlices(c, run, isn, stream)
    ensures At(ReceiveAll(c, run), isn, stream, n + 1, map[SeqOf(isn, n) := stream[n..n + 1]])
  {
    var early, larger := Piece(isn, stream, n, n + 1), Piece(isn, stream, n - 1, n + 1);
    NearDecides(isn, n, n - 1);
    NotExpected(c, early.segment);
    var d := Receive(c, early.segment);
    ClearOfHeld(isn, n, n, n + 1, stream[n..n + 1]);
    PieceDelivered(d, isn, stream, n - 1, n + 1, d.pending);
    run := [early, larger];
    assert run[1..] == [larger];
    OnePiece(d, larger);
  }

  /** The last byte of the stream, with the stale one waiting just behind it. */
  lemma {:induction false} StaleFollows(c: Conn, isn: u32, stream: Bytes, n: nat)
    requires |stream| == n + WRAP
    requires At(c, isn, stream, |stream| - 1, map[SeqOf(isn, n) := stream[n..n + 1]])
    ensures |Receive(c, Piece(isn, stream, |stream| - 1, |stream|).segment).inbox| > |stream|
  {
    var s := Piece(isn, stream, |stream| - 1, |stream|).segment;
    var d := Deliver(c, s);
    AtExpected(c, s);
    WrapAdd(isn as int + 1 + (|stream| - 1), |s.payload|);
    OneWrapLater(isn, n);
    DrainKeeps(Drained(d));
  }

  /** The rest of the stream, in order: at its end the stale byte is delivered a second time. */
  lemma {:induction false} RestOvershoots(c: Conn, isn: u32, stream: Bytes, n: nat) returns (run: seq<Arrival>)
    requires |stream| == n + WRAP
    requires At(c, isn, stream, n + 1, map[SeqOf(isn, n) := stream[n..n + 1]])
    ensures NearSlices(c, run, isn, stream) && |ReceiveAll(c, run).inbox| > |stream|
  {
    var rest, last := ByteByByte(isn, stream, n + 1, |stream| - 1), Piece(isn, stream, |stream| - 1, |stream|);
    ClearOfHeld(isn, n, n + 1, |stream| - 1, stream[n..n + 1]);
    BytesDelivered(c, isn, stream, n + 1, |stream| - 1, map[SeqOf(isn, n) := stream[n..n + 1]]);
    var d := ReceiveAll(c, rest);
    StaleFollows(d, isn, stream, n);
    OnePiece(d, last);
    assert NearSlices(d, [last], isn, stream);
    NearThen(c, rest, [last], isn, stream);
    ReceiveThen(c, rest, [last]);
    run := rest + [last];
  }

  lemma {:induction false} StalePieceDelivered(isn: u32, stream: Bytes)
    requires |stream| > WRAP
    ensures !NearSlicesSafe(isn, stream)
  {
    var c0, n := Opened(isn), |stream| - WRAP;
    var start := ByteByByte(isn, stream, 0, n - 1);
    assert stream[..0] == [];
    BytesDelivered(c0, isn, stream, 0, n - 1, map[]);
    var c1 := ReceiveAll(c0, start);
    var overtaking := Overtaken(c1, isn, stream, n);
    var rest := RestOvershoots(ReceiveAll(c1, overtaking), isn, stream, n);
    NearThen(c1, overtaking, rest, isn, stream);
    ReceiveThen(c1, overtaking, rest);
    NearThen(c0, start, overtaking + rest, isn, stream);
    ReceiveThen(c0, start, overtaking + rest);
    NearUnsafe(c0, start + (overtaking + rest), isn, stream);
  }

  lemma {:induction false} NearUnsafe(c: Conn, run: seq<Arrival>, isn: u32, stream: Bytes)
    requires JustOpened(c, isn) && NearSlices(c, run, isn, stream) && |ReceiveAll(c, run).inbox| > |stream|
    ensures !NearSlicesSafe(isn, stream)
  {
  }

  // ------------------------------------------------------------------ Exact bounds

  /**
   * Whatever pieces arrive, in whatever order and overlap, only a prefix is delivered: exactly for streams below 4 GiB.
   */
  lemma {:induction false} SafeBelowWrap(isn: u32, stream: Bytes)
    ensures SlicesSafe(isn, stream) <==> |stream| < WRAP
  {
    if |stream| < WRAP {
      forall c, run | JustOpened(c, isn) && Slices(run, isn, stream)
        ensures ReceiveAll(c, run).inbox <= stream
      {
        ShortIsSafe(c, run, isn, stream);
      }
    } else {
      OldByteRepeats(isn, stream);
    }
  }

  /**
   * With pieces near the position the bound moves by one: beyond 4 GiB an overtaken early piece is delivered a second
   * time.
   */
  lemma {:induction false} NearSafeUpToWrap(isn: u32, stream: Bytes)
    ensures NearSlicesSafe(isn, stream) <==> |stream| <= WRAP
  {
    if |stream| <= WRAP {
      forall c, run | JustOpened(c, isn) && NearSlices(c, run, isn, stream)
        ensures ReceiveAll(c, run).inbox <= stream
      {
        NearIsSafe(c, run, isn, stream);
      }
    } else {
      StalePieceDelivered(isn, stream);
    }
  }
}
