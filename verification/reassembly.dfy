// The Rust receiver against a device that sends one byte stream in fixed segments, in any order and any number of
// times.
module Reassembly {
  import opened Words
  import opened Codec
  import opened RustMux

  /** What one device connection sends: its initial sequence number and its data cut into non-empty segments. */
  datatype Stream = Stream(isn: u32, segments: seq<Bytes>)

  predicate ValidStream(st: Stream) {
    forall i :: 0 <= i < |st.segments| ==> st.segments[i] != []
  }

  /** The stream bytes before segment `i`. */
  function Prefix(st: Stream, i: nat): Bytes
    requires i <= |st.segments|
  {
    if i == 0 then [] else Prefix(st, i - 1) + st.segments[i - 1]
  }

  /** Absolute offset of segment `i`: unbounded, unlike sequence numbers. */
  function Offset(st: Stream, i: nat): nat
    requires i <= |st.segments|
  {
    |Prefix(st, i)|
  }

  /** The sequence number of the byte at absolute offset `n`; the SYN takes up one number. */
  function Key(st: Stream, n: nat): u32 {
    Wrap32(st.isn as int + 1 + n)
  }

  lemma {:induction false} PrefixGrows(st: Stream, i: nat, j: nat)
    requires i <= j <= |st.segments|
    ensures Prefix(st, i) <= Prefix(st, j)
    ensures ValidStream(st) && i < j ==> Offset(st, i) < Offset(st, j)
  {
    if i < j {
      PrefixGrows(st, i, j - 1);
    }
  }

  // ------------------------------------------------------------------ What has arrived

  /** The first segment not yet arrived, counting from `k`. */
  function Frontier(arrived: set<nat>, k: nat): (f: nat)
    ensures k <= f && f !in arrived
    ensures forall i :: k <= i < f ==> i in arrived
    decreases arrived
  {
    if k !in arrived then k else
    var f := Frontier(arrived - {k}, k + 1);
    f
  }

  predicate Known(st: Stream, arrived: set<nat>) {
    forall i :: i in arrived ==> i < |st.segments|
  }

  /** `k` is the frontier as soon as everything below it has arrived and it has not. */
  lemma FrontierUnique(arrived: set<nat>, k: nat)
    requires k !in arrived && forall i :: 0 <= i < k ==> i in arrived
    ensures Frontier(arrived, 0) == k
  {
  }

  // ------------------------------------------------------------------ The receiver's state

  /**
   * The connection has everything below segment `k` in order (`taken` of it already handed on), and `pending` holds
   * exactly the arrived segments from `k` on, each under the sequence number of its one absolute offset.
   */
  ghost predicate Holds(c: Conn, st: Stream, arrived: set<nat>, k: nat, taken: Bytes) {
    && ValidStream(st) && Known(st, arrived) && c.connected
    && k <= |st.segments|
    && (forall i :: 0 <= i < k ==> i in arrived)
    && taken + c.inbox == Prefix(st, k)
    && c.txAck == Key(st, Offset(st, k))
    && (forall i :: i in arrived && k <= i ==>
          && Offset(st, i) < Offset(st, k) + 0x8000_0000
          && Key(st, Offset(st, i)) in c.pending
          && c.pending[Key(st, Offset(st, i))] == st.segments[i])
    && (forall key :: key in c.pending ==> exists i :: i in arrived && k <= i && key == Key(st, Offset(st, i)))
  }

  /** `Holds` at the frontier: nothing deliverable is left in `pending`. */
  ghost predicate Synced(c: Conn, st: Stream, arrived: set<nat>, taken: Bytes) {
    Holds(c, st, arrived, Frontier(arrived, 0), taken)
  }

  lemma KeysApart(st: Stream, k: nat, i: nat, j: nat)
    requires ValidStream(st) && k <= i <= |st.segments| && k <= j <= |st.segments|
    requires Offset(st, i) < Offset(st, k) + 0x1_0000_0000
    requires Offset(st, j) < Offset(st, k) + 0x1_0000_0000
    requires Key(st, Offset(st, i)) == Key(st, Offset(st, j))
    ensures i == j
  {
    PrefixGrows(st, k, i);
    PrefixGrows(st, k, j);
    if i < j {
      PrefixGrows(st, i, j);
    } else if j < i {
      PrefixGrows(st, j, i);
    }
  }

  lemma KeyStep(st: Stream, k: nat)
    requires k < |st.segments|
    ensures Wrap32(Key(st, Offset(st, k)) as int + |st.segments[k]|) == Key(st, Offset(st, k + 1))
  {
  }

  /** Each round of the drain removes one pending segment and stops exactly at the frontier. */
  lemma {:induction false} DrainSyncs(c: Conn, st: Stream, arrived: set<nat>, k: nat, taken: Bytes)
    requires Holds(c, st, arrived, k, taken)
    ensures Synced(Drain(c), st, arrived, taken)
    decreases c.pending.Keys
  {
    if k in arrived {
      DrainStep(c, st, arrived, k, taken);
      DrainSyncs(Drained(c), st, arrived, k + 1, taken);
    } else {
      FrontierUnique(arrived, k);
      NothingToDrain(c, st, arrived, k, taken);
    }
  }

  lemma NothingToDrain(c: Conn, st: Stream, arrived: set<nat>, k: nat, taken: Bytes)
    requires Holds(c, st, arrived, k, taken) && k !in arrived
    ensures c.txAck !in c.pending
  {
    if c.txAck in c.pending {
      var i :| i in arrived && k <= i && c.txAck == Key(st, Offset(st, i));
      KeysApart(st, k, k, i);
    }
  }

  lemma DrainStep(c: Conn, st: Stream, arrived: set<nat>, k: nat, taken: Bytes)
    requires Holds(c, st, arrived, k, taken) && k in arrived
    ensures c.txAck in c.pending && Holds(Drained(c), st, arrived, k + 1, taken)
  {
    var d := Drained(c);
    KeyStep(st, k);
    Assoc(taken, c.inbox, st.segments[k]);
    PrefixGrows(st, k, k + 1);
    forall i | i in arrived && k + 1 <= i
      ensures Key(st, Offset(st, i)) in d.pending
      ensures d.pending[Key(st, Offset(st, i))] == st.segments[i]
    {
      if Key(st, Offset(st, i)) == c.txAck {
        KeysApart(st, k, k, i);
      }
    }
    forall key | key in d.pending
      ensures exists i :: i in arrived && k + 1 <= i && key == Key(st, Offset(st, i))
    {
      var i :| i in arrived && k <= i && key == Key(st, Offset(st, i));
      assert i != k;
    }
  }

  // ------------------------------------------------------------------ Segments of the stream

  /**
   * Segment `i` of the stream as it may appear on the wire, with any ports, acknowledgement, window and flags but RST.
   */
  predicate IsSegment(s: TcpSegment, st: Stream, i: nat) {
    && i < |st.segments|
    && s.seqNo == Key(st, Offset(st, i)) && s.payload == st.segments[i] && !HasRst(s.flags)
  }

  /** Offsets `n` and `position` are close enough for 32-bit sequence numbers to order them. */
  predicate InWindow(n: nat, position: nat) {
    n < position + 0x8000_0000 && position <= n + 0x8000_0000
  }

  /** Sequence arithmetic recovers the order of absolute offsets, across any number of wrap-arounds. */
  lemma AheadMeansLater(st: Stream, n: nat, position: nat)
    requires InWindow(n, position)
    ensures Ahead(Key(st, n), Key(st, position)) <==> position <= n
    ensures Key(st, n) == Key(st, position) <==> position == n
  {
  }

  /** One arriving segment: whatever came before, the receiver ends up holding exactly what has arrived. */
  lemma ReceiveSegment(c: Conn, st: Stream, arrived: set<nat>, taken: Bytes, s: TcpSegment, i: nat)
    requires Synced(c, st, arrived, taken) && IsSegment(s, st, i)
    requires Frontier(arrived, 0) <= |st.segments| && InWindow(Offset(st, i), Offset(st, Frontier(arrived, 0)))
    ensures Synced(Receive(c, s), st, arrived + {i}, taken)
  {
    var k := Frontier(arrived, 0);
    AheadMeansLater(st, Offset(st, i), Offset(st, k));
    if i < k {
      PrefixGrows(st, i, k);
      assert arrived + {i} == arrived;
      Acknowledged(c, s, st, arrived, k, taken);
      NotExpected(c, s);
    } else if i == k {
      ReceiveExpected(c, st, arrived, k, taken, s);
    } else {
      PrefixGrows(st, k, i);
      ReceiveEarly(c, st, arrived, k, taken, s, i);
      FrontierUnique(arrived + {i}, k);
    }
  }

  lemma Acknowledged(c: Conn, s: TcpSegment, st: Stream, arrived: set<nat>, k: nat, taken: Bytes)
    requires Holds(c, st, arrived, k, taken)
    ensures Holds(c.(rxAck := s.ackNo, rxWin := s.win), st, arrived, k, taken)
  {
  }

  lemma ReceiveExpected(c: Conn, st: Stream, arrived: set<nat>, k: nat, taken: Bytes, s: TcpSegment)
    requires Holds(c, st, arrived, k, taken) && k !in arrived && IsSegment(s, st, k)
    ensures Synced(Receive(c, s), st, arrived + {k}, taken)
  {
    Acknowledged(c, s, st, arrived, k, taken);
    DeliverStep(c.(rxAck := s.ackNo, rxWin := s.win), Deliver(c, s), st, arrived, k, taken);
    DrainSyncs(Deliver(c, s), st, arrived + {k}, k + 1, taken);
    AtExpected(c, s);
  }

  lemma ReceiveEarly(c: Conn, st: Stream, arrived: set<nat>, k: nat, taken: Bytes, s: TcpSegment, i: nat)
    requires Holds(c, st, arrived, k, taken) && k < i && IsSegment(s, st, i)
    requires Offset(st, i) < Offset(st, k) + 0x8000_0000
    requires s.seqNo != c.txAck && Ahead(s.seqNo, c.txAck)
    ensures Holds(Receive(c, s), st, arrived + {i}, k, taken)
  {
    var c1 := c.(rxAck := s.ackNo, rxWin := s.win);
    Acknowledged(c, s, st, arrived, k, taken);
    NotExpected(c, s);
    if s.seqNo in c.pending {
      var j :| j in arrived && k <= j && s.seqNo == Key(st, Offset(st, j));
      KeysApart(st, k, i, j);
      assert arrived + {i} == arrived;
    } else {
      StoreStep(c1, st, arrived, k, taken, s, i);
    }
  }

  lemma DeliverStep(c: Conn, d: Conn, st: Stream, arrived: set<nat>, k: nat, taken: Bytes)
    requires Holds(c, st, arrived, k, taken) && k !in arrived && k < |st.segments|
    requires d == c.(inbox := c.inbox + st.segments[k], txAck := Wrap32(c.txAck as int + |st.segments[k]|))
    ensures Holds(d, st, arrived + {k}, k + 1, taken)
  {
    KeyStep(st, k);
    Assoc(taken, c.inbox, st.segments[k]);
    PrefixGrows(st, k, k + 1);
    forall key | key in d.pending
      ensures exists i :: i in arrived + {k} && k + 1 <= i && key == Key(st, Offset(st, i))
    {
      var i :| i in arrived && k <= i && key == Key(st, Offset(st, i));
      assert i in arrived + {k} && k + 1 <= i;
    }
  }

  lemma StoreStep(c: Conn, st: Stream, arrived: set<nat>, k: nat, taken: Bytes, s: TcpSegment, i: nat)
    requires Holds(c, st, arrived, k, taken) && IsSegment(s, st, i)
    requires k < i && Offset(st, i) < Offset(st, k) + 0x8000_0000 && s.seqNo !in c.pending
    ensures Holds(c.(pending := c.pending[s.seqNo := s.payload]), st, arrived + {i}, k, taken)
  {
  }

  /** Segments that carry no data, or RST, leave the reassembly alone. */
  predicate Quiet(s: TcpSegment) {
    s.payload == [] || HasRst(s.flags)
  }

  lemma ReceiveQuiet(c: Conn, st: Stream, arrived: set<nat>, taken: Bytes, s: TcpSegment)
    requires Synced(c, st, arrived, taken) && Quiet(s)
    ensures Synced(Receive(c, s), st, arrived, taken)
  {
  }

  /** SYN|ACK opens the connection at offset 0. */
  lemma HandshakeSyncs(c: Conn, st: Stream, s: TcpSegment)
    requires ValidStream(st) && !c.connected && c.inbox == [] && c.pending == map[]
    requires s.flags == SYN_ACK && s.seqNo == st.isn
    ensures Synced(Receive(c, s), st, {}, [])
  {
  }

  // ------------------------------------------------------------------ Whole runs

  datatype Arrival = Data(index: nat, segment: TcpSegment) | Other(segment: TcpSegment)

  function Indices(run: seq<Arrival>): set<nat> {
    set k | 0 <= k < |run| && run[k].Data? :: run[k].index
  }

  function ReceiveAll(c: Conn, run: seq<Arrival>): Conn
    decreases |run|
  {
    if run == [] then c else ReceiveAll(Receive(c, run[0].segment), run[1..])
  }

  /** The device's side of the bargain: only segments of the stream, each near the position reached when it arrives. */
  predicate Admissible(st: Stream, arrived: set<nat>, run: seq<Arrival>)
    decreases |run|
  {
    run == [] ||
    match run[0]
    case Other(s) => Quiet(s) && Admissible(st, arrived, run[1..])
    case Data(i, s) =>
      && IsSegment(s, st, i)
      && Frontier(arrived, 0) <= |st.segments|
      && InWindow(Offset(st, i), Offset(st, Frontier(arrived, 0)))
      && Admissible(st, arrived + {i}, run[1..])
  }

  /**
   * Safety, completeness and order independence in one: after any run the receiver's state is determined by the set
   * of segments that arrived.
   */
  lemma {:induction false} ReassemblyRun(c: Conn, st: Stream, arrived: set<nat>, taken: Bytes, run: seq<Arrival>)
    requires Synced(c, st, arrived, taken) && Admissible(st, arrived, run)
    ensures Synced(ReceiveAll(c, run), st, arrived + Indices(run), taken)
    decreases |run|
  {
    if run == [] {
      assert arrived + Indices(run) == arrived;
    } else {
      var s := run[0].segment;
      IndicesStep(run);
      match run[0]
      case Other(_) =>
        ReceiveQuiet(c, st, arrived, taken, s);
        ReassemblyRun(Receive(c, s), st, arrived, taken, run[1..]);
        assert arrived + Indices(run[1..]) == arrived + Indices(run);
      case Data(i, _) =>
        ReceiveSegment(c, st, arrived, taken, s, i);
        ReassemblyRun(Receive(c, s), st, arrived + {i}, taken, run[1..]);
        assert arrived + {i} + Indices(run[1..]) == arrived + Indices(run);
    }
  }

  lemma IndicesStep(run: seq<Arrival>)
    requires run != []
    ensures Indices(run) == (if run[0].Data? then {run[0].index} else {}) + Indices(run[1..])
  {
  }

  /**
   * From SYN|ACK on: the inbox is the in-order prefix ending at the first segment still missing, no more and no less,
   * and the acknowledgement number is ISN + 1 + its length, modulo 2^32, for streams of any length.
   */
  lemma InboxIsPrefix(c: Conn, st: Stream, syn: TcpSegment, run: seq<Arrival>)
    requires ValidStream(st) && !c.connected && c.inbox == [] && c.pending == map[]
    requires syn.flags == SYN_ACK && syn.seqNo == st.isn && Admissible(st, {}, run)
    ensures ReceivedExactly(ReceiveAll(Receive(c, syn), run), st, Indices(run))
  {
    HandshakeSyncs(c, st, syn);
    ReassemblyRun(Receive(c, syn), st, {}, [], run);
    assert {} + Indices(run) == Indices(run);
    SyncedMeans(ReceiveAll(Receive(c, syn), run), st, Indices(run));
  }

  /**
   * The inbox ends at the first missing segment, the acknowledgement says so, and `pending` has the rest that arrived.
   */
  ghost predicate ReceivedExactly(d: Conn, st: Stream, arrived: set<nat>) {
    var k := Frontier(arrived, 0);
    && Known(st, arrived) && k <= |st.segments|
    && d.inbox == Prefix(st, k) && d.inbox <= Prefix(st, |st.segments|)
    && d.txAck == Wrap32(st.isn as int + 1 + |d.inbox|)
    && PendingIs(d.pending, st, arrived, k)
  }

  lemma SyncedMeans(d: Conn, st: Stream, arrived: set<nat>)
    requires Synced(d, st, arrived, [])
    ensures ReceivedExactly(d, st, arrived)
  {
    var k := Frontier(arrived, 0);
    assert [] + d.inbox == d.inbox;
    PrefixGrows(st, k, |st.segments|);
    forall key | key in d.pending
      ensures exists i :: i in arrived && k < i && key == Key(st, Offset(st, i))
    {
      var i :| i in arrived && k <= i && key == Key(st, Offset(st, i));
      assert k < i;
    }
  }

  /** `pending` is exactly the arrived segments past `k`, each filed under its own sequence number. */
  ghost predicate PendingIs(pending: map<u32, Bytes>, st: Stream, arrived: set<nat>, k: nat)
    requires Known(st, arrived)
  {
    && (forall i :: i in arrived && k < i ==>
          Key(st, Offset(st, i)) in pending && pending[Key(st, Offset(st, i))] == st.segments[i])
    && (forall key :: key in pending ==> exists i :: i in arrived && k < i && key == Key(st, Offset(st, i)))
  }

  lemma ReceivedUnique(d: Conn, e: Conn, st: Stream, arrived: set<nat>)
    requires ReceivedExactly(d, st, arrived) && ReceivedExactly(e, st, arrived)
    ensures d.inbox == e.inbox && d.txAck == e.txAck && d.pending == e.pending
  {
    PendingUnique(d.pending, e.pending, st, arrived, Frontier(arrived, 0));
  }

  lemma PendingUnique(p: map<u32, Bytes>, q: map<u32, Bytes>, st: Stream, arrived: set<nat>, k: nat)
    requires Known(st, arrived) && PendingIs(p, st, arrived, k) && PendingIs(q, st, arrived, k)
    ensures p == q
  {
  }

  /** Completeness: once the first `j` segments have all arrived, in whatever order, their bytes are in the inbox. */
  lemma EverythingArrives(c: Conn, st: Stream, syn: TcpSegment, run: seq<Arrival>, j: nat)
    requires ValidStream(st) && !c.connected && c.inbox == [] && c.pending == map[]
    requires syn.flags == SYN_ACK && syn.seqNo == st.isn && Admissible(st, {}, run)
    requires j <= |st.segments| && forall i :: 0 <= i < j ==> i in Indices(run)
    ensures Prefix(st, j) <= ReceiveAll(Receive(c, syn), run).inbox
    ensures j == |st.segments| ==> ReceiveAll(Receive(c, syn), run).inbox == Prefix(st, j)
  {
    InboxIsPrefix(c, st, syn, run);
    PrefixGrows(st, j, Frontier(Indices(run), 0));
  }

  /** Order independence: two runs that brought the same segments leave the same inbox, position and pending map. */
  lemma OrderDoesNotMatter(c: Conn, st: Stream, syn: TcpSegment, run: seq<Arrival>, other: seq<Arrival>)
    requires ValidStream(st) && !c.connected && c.inbox == [] && c.pending == map[]
    requires syn.flags == SYN_ACK && syn.seqNo == st.isn
    requires Admissible(st, {}, run) && Admissible(st, {}, other) && Indices(run) == Indices(other)
    ensures var d := ReceiveAll(Receive(c, syn), run); var e := ReceiveAll(Receive(c, syn), other);
            d.inbox == e.inbox && d.txAck == e.txAck && d.pending == e.pending
  {
    InboxIsPrefix(c, st, syn, run);
    InboxIsPrefix(c, st, syn, other);
    ReceivedUnique(ReceiveAll(Receive(c, syn), run), ReceiveAll(Receive(c, syn), other), st, Indices(run));
  }

  // ------------------------------------------------------------------ Why the segmentation must be fixed

  /**
   * A data segment adds to the inbox exactly when it starts at the expected number: partial overlaps are dropped whole.
   */
  lemma DeliversExactlyAtExpected(c: Conn, s: TcpSegment)
    ensures Receive(c, s).inbox != c.inbox <==>
            c.connected && !HasRst(s.flags) && s.payload != [] && s.seqNo == c.txAck
  {
    if c.connected && !HasRst(s.flags) && s.payload != [] && s.seqNo == c.txAck {
      AtExpected(c, s);
      DrainKeeps(Deliver(c, s));
    }
  }

  lemma {:induction false} DrainKeeps(c: Conn)
    ensures c.inbox <= Drain(c).inbox
    decreases c.pending.Keys
  {
    if c.txAck in c.pending {
      DrainKeeps(Drained(c));
    }
  }

  /** Bytes `n` up to `n + |payload|` of the stream, cut anywhere: retransmissions may overlap and be re-cut. */
  predicate IsSlice(s: TcpSegment, isn: u32, stream: Bytes, n: nat) {
    && n + |s.payload| <= |stream| && stream[n..n + |s.payload|] == s.payload
    && s.seqNo == Wrap32(isn as int + 1 + n)
  }

  ghost predicate PrefixHeld(c: Conn, isn: u32, stream: Bytes) {
    && c.connected && c.inbox <= stream && c.txAck == Wrap32(isn as int + 1 + |c.inbox|)
    && (forall key :: key in c.pending ==> exists n :: SliceAt(c.pending[key], key, isn, stream, n))
  }

  ghost predicate SliceAt(p: Bytes, key: u32, isn: u32, stream: Bytes, n: nat) {
    n + |p| <= |stream| && stream[n..n + |p|] == p && key == Wrap32(isn as int + 1 + n)
  }

  lemma {:induction false} DrainKeepsPrefix(c: Conn, isn: u32, stream: Bytes)
    requires PrefixHeld(c, isn, stream) && |stream| < 0x1_0000_0000
    ensures PrefixHeld(Drain(c), isn, stream)
    decreases c.pending.Keys
  {
    if c.txAck in c.pending {
      DrainedKeepsPrefix(c, isn, stream);
      DrainKeepsPrefix(Drained(c), isn, stream);
    }
  }

  lemma DrainedKeepsPrefix(c: Conn, isn: u32, stream: Bytes)
    requires PrefixHeld(c, isn, stream) && |stream| < 0x1_0000_0000 && c.txAck in c.pending
    ensures PrefixHeld(Drained(c), isn, stream)
  {
    var p := c.pending[c.txAck];
    var n :| SliceAt(p, c.txAck, isn, stream, n);
    SameOffset(isn, n, |c.inbox|);
    ExtendPrefix(stream, c.inbox, p);
    WrapAdd(isn as int + 1 + |c.inbox|, |p|);
    var d := Drained(c);
    assert d.inbox <= stream && d.txAck == Wrap32(isn as int + 1 + |d.inbox|);
    forall key | key in d.pending
      ensures exists n :: SliceAt(d.pending[key], key, isn, stream, n)
    {
      var n :| SliceAt(c.pending[key], key, isn, stream, n);
      assert d.pending[key] == c.pending[key];
    }
  }

  lemma SameOffset(isn: u32, n: nat, m: nat)
    requires n < 0x1_0000_0000 && m < 0x1_0000_0000
    requires Wrap32(isn as int + 1 + n) == Wrap32(isn as int + 1 + m)
    ensures n == m
  {
  }

  lemma ExtendPrefix<T>(s: seq<T>, a: seq<T>, b: seq<T>)
    requires a <= s && |a| + |b| <= |s| && s[|a|..|a| + |b|] == b
    ensures a + b <= s
  {
  }

  /** Below 4 GiB no assumption on order, overlap or distance is needed: what is delivered is always a prefix. */
  lemma {:induction false} AnyCutIsSafe(c: Conn, isn: u32, stream: Bytes, run: seq<Arrival>)
    requires PrefixHeld(c, isn, stream) && |stream| < 0x1_0000_0000
    requires forall k :: 0 <= k < |run| ==>
               if run[k].Data? then IsSlice(run[k].segment, isn, stream, run[k].index) else Quiet(run[k].segment)
    ensures PrefixHeld(ReceiveAll(c, run), isn, stream) && ReceiveAll(c, run).inbox <= stream
    decreases |run|
  {
    if run != [] {
      if run[0].Data? {
        SliceKeepsPrefix(c, isn, stream, run[0].segment, run[0].index);
      }
      AnyCutIsSafe(Receive(c, run[0].segment), isn, stream, run[1..]);
    }
  }

  lemma SliceKeepsPrefix(c: Conn, isn: u32, stream: Bytes, s: TcpSegment, n: nat)
    requires PrefixHeld(c, isn, stream) && |stream| < 0x1_0000_0000 && IsSlice(s, isn, stream, n)
    ensures PrefixHeld(Receive(c, s), isn, stream)
  {
    if !Quiet(s) {
      if s.seqNo == c.txAck {
        ExpectedSlice(c, isn, stream, s, n);
        AtExpected(c, s);
      } else {
        NotExpected(c, s);
        if Ahead(s.seqNo, c.txAck) && s.seqNo !in c.pending {
          StoreSlice(c.(rxAck := s.ackNo, rxWin := s.win), isn, stream, s, n);
        }
      }
    }
  }

  lemma ExpectedSlice(c: Conn, isn: u32, stream: Bytes, s: TcpSegment, n: nat)
    requires PrefixHeld(c, isn, stream) && |stream| < 0x1_0000_0000 && IsSlice(s, isn, stream, n) && s.seqNo == c.txAck
    ensures PrefixHeld(Drain(Deliver(c, s)), isn, stream)
  {
    SameOffset(isn, n, |c.inbox|);
    ExtendPrefix(stream, c.inbox, s.payload);
    WrapAdd(isn as int + 1 + n, |s.payload|);
    DrainKeepsPrefix(Deliver(c, s), isn, stream);
  }

  lemma StoreSlice(c: Conn, isn: u32, stream: Bytes, s: TcpSegment, n: nat)
    requires PrefixHeld(c, isn, stream) && IsSlice(s, isn, stream, n) && s.seqNo !in c.pending
    ensures PrefixHeld(c.(pending := c.pending[s.seqNo := s.payload]), isn, stream)
  {
    var d := c.(pending := c.pending[s.seqNo := s.payload]);
    forall key | key in d.pending
      ensures exists n :: SliceAt(d.pending[key], key, isn, stream, n)
    {
      if key == s.seqNo {
        assert SliceAt(s.payload, s.seqNo, isn, stream, n);
      } else {
        var m :| SliceAt(c.pending[key], key, isn, stream, m);
        assert SliceAt(d.pending[key], key, isn, stream, m);
      }
    }
  }
}
