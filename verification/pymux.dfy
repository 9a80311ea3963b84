// The Python connection: the simple in-order receiver and the windowed sender.
module PyMux {
  import opened Words
  import opened Codec
  import opened RustMux
  import opened Reassembly

  const MAX_PAYLOAD := USB_MTU - 16 - TCP_HDR_LEN

  datatype State = Connecting | Connected | Dead

  /** `txSeq` and `txAck` are Python integers: they never wrap, only their encoding does. */
  datatype PyConn = PyConn(sport: u16, dport: u16, state: State, txSeq: nat, txAck: nat, rxAck: u32, rxWin: nat,
                           inbox: Bytes, closed: bool, refused: bool)

  /** A segment given to `_send_tcp`, with the acknowledgement and window the peer had last advertised. */
  datatype Sent = Sent(flags: byte, seqNo: nat, ackNo: nat, data: Bytes, rxAck: u32, rxWin: nat)

  function FreshPy(sport: u16, dport: u16): PyConn {
    PyConn(sport, dport, Connecting, 0, 0, 0, 0, [], false, false)
  }

  function SentNow(c: PyConn, flags: byte, data: Bytes): Sent {
    Sent(flags, c.txSeq, c.txAck, data, c.rxAck, c.rxWin)
  }

  /** `_on_segment` */
  function OnSegment(c: PyConn, s: TcpSegment): PyConn {
    var c := c.(rxAck := s.ackNo, rxWin := s.win);
    match c.state
    case Connecting =>
      if s.flags == SYN_ACK then c.(txSeq := c.txSeq + 1, txAck := s.seqNo as int + 1, state := Connected)
      else c.(refused := HasRst(s.flags), state := Dead, closed := true)
    case Connected =>
      if HasRst(s.flags) || HasFin(s.flags) then c.(state := Dead, closed := true)
      else if s.payload != [] then c.(inbox := c.inbox + s.payload, txAck := s.seqNo as int + |s.payload|)
      else c
    case Dead => c
  }

  predicate Replies(c: PyConn, s: TcpSegment) {
    match c.state
    case Connecting => s.flags == SYN_ACK
    case Connected => !HasRst(s.flags) && !HasFin(s.flags) && s.payload != []
    case Dead => false
  }

  /** `close`; an RST is sent only if the connection was open. */
  function Close(c: PyConn): PyConn {
    if c.closed then c else c.(closed := true, state := Dead)
  }

  // ------------------------------------------------------------------ The Rust receiver refines the Python one

  /** Same life cycle, same bytes, same numbers modulo 2^32, nothing out of order held back. */
  predicate Related(py: PyConn, ru: Conn) {
    && (py.state.Connecting? <==> !ru.connected && !ru.closed)
    && (py.state.Dead? <==> ru.closed)
    && py.closed == ru.closed && py.refused == ru.refused
    && py.inbox == ru.inbox && ru.pending == map[]
    && Wrap32(py.txAck) == ru.txAck && Wrap32(py.txSeq) == ru.txSeq
    && py.rxAck == ru.rxAck && py.rxWin == ru.rxWin
  }

  /**
   * On an open connection: RST, or a segment without FIN that is empty or exactly the next one. On a dead one: nothing
   * the Rust receiver would still take in, since closing does not stop it.
   */
  predicate Orderly(py: PyConn, ru: Conn, s: TcpSegment) {
    match py.state
    case Connecting => true
    case Connected => HasRst(s.flags) || (!HasFin(s.flags) && (s.payload == [] || s.seqNo == Wrap32(py.txAck)))
    case Dead =>
      if ru.connected then HasRst(s.flags) || s.payload == [] || (s.seqNo != ru.txAck && !Ahead(s.seqNo, ru.txAck))
      else s.flags != SYN_ACK && HasRst(s.flags) == ru.refused
  }

  /** Rust acknowledges every SYN|ACK, and old data also on a closed connection. */
  predicate RustAloneAnswers(py: PyConn, ru: Conn, s: TcpSegment) {
    match py.state
    case Connecting => false
    case Connected => s.flags == SYN_ACK && s.payload == []
    case Dead => s.flags == SYN_ACK || (ru.connected && !HasRst(s.flags) && s.payload != [])
  }

  /** The two receivers stay in step on exactly the orderly segments. */
  lemma ReceiversAgree(py: PyConn, ru: Conn, s: TcpSegment)
    requires Related(py, ru)
    ensures Related(OnSegment(py, s), Receive(ru, s)) <==> Orderly(py, ru, s)
    ensures Orderly(py, ru, s) ==> (Answers(ru, s) <==> Replies(py, s) || RustAloneAnswers(py, ru, s))
    ensures Orderly(py, ru, s) ==> !(Replies(py, s) && RustAloneAnswers(py, ru, s))
  {
    if py.state.Dead? {
      DeadReceivers(py, ru, s);
    } else if py.state.Connected? && !HasRst(s.flags) && s.payload != [] {
      OpenReceivers(py, ru, s);
    }
  }

  lemma OpenReceivers(py: PyConn, ru: Conn, s: TcpSegment)
    requires Related(py, ru) && py.state.Connected? && !HasRst(s.flags) && s.payload != []
    ensures Related(OnSegment(py, s), Receive(ru, s)) <==> Orderly(py, ru, s)
  {
    if s.seqNo == ru.txAck {
      AtExpected(ru, s);
    } else {
      NotExpected(ru, s);
    }
  }

  lemma DeadReceivers(py: PyConn, ru: Conn, s: TcpSegment)
    requires Related(py, ru) && py.state.Dead?
    ensures Related(OnSegment(py, s), Receive(ru, s)) <==> Orderly(py, ru, s)
  {
    if ru.connected && !HasRst(s.flags) && s.payload != [] {
      if s.seqNo == ru.txAck {
        AtExpected(ru, s);
      } else {
        NotExpected(ru, s);
      }
    }
  }

  function PyAll(c: PyConn, run: seq<TcpSegment>): PyConn
    decreases |run|
  {
    if run == [] then c else PyAll(OnSegment(c, run[0]), run[1..])
  }

  function RustAll(c: Conn, run: seq<TcpSegment>): Conn
    decreases |run|
  {
    if run == [] then c else RustAll(Receive(c, run[0]), run[1..])
  }

  predicate OrderlyRun(py: PyConn, ru: Conn, run: seq<TcpSegment>)
    decreases |run|
  {
    run == [] || (Orderly(py, ru, run[0]) && OrderlyRun(OnSegment(py, run[0]), Receive(ru, run[0]), run[1..]))
  }

  /** From the fresh connection on, through handshake, data, RST and what comes after: in step after every segment. */
  lemma {:induction false} RefinementRun(py: PyConn, ru: Conn, run: seq<TcpSegment>)
    requires Related(py, ru) && OrderlyRun(py, ru, run)
    ensures Related(PyAll(py, run), RustAll(ru, run))
    decreases |run|
  {
    if run != [] {
      ReceiversAgree(py, ru, run[0]);
      RefinementRun(OnSegment(py, run[0]), Receive(ru, run[0]), run[1..]);
    }
  }

  /** A device that sends segments `i` onwards of its stream once, in order, flagged ACK. */
  predicate InOrder(st: Stream, i: nat, run: seq<TcpSegment>)
    decreases |run|
  {
    run == [] || (IsSegment(run[0], st, i) && run[0].flags == ACK && InOrder(st, i + 1, run[1..]))
  }

  lemma {:induction false} InOrderIsOrderly(py: PyConn, ru: Conn, st: Stream, i: nat, run: seq<TcpSegment>)
    requires ValidStream(st) && InOrder(st, i, run) && i <= |st.segments|
    requires py.state.Connected? && Wrap32(py.txAck) == Key(st, Offset(st, i)) && py.inbox == Prefix(st, i)
    ensures OrderlyRun(py, ru, run) && i + |run| <= |st.segments|
    ensures PyAll(py, run).inbox == Prefix(st, i + |run|)
    decreases |run|
  {
    if run != [] {
      NextInOrder(py, st, i, run[0]);
      InOrderIsOrderly(OnSegment(py, run[0]), Receive(ru, run[0]), st, i + 1, run[1..]);
    }
  }

  lemma NextInOrder(py: PyConn, st: Stream, i: nat, s: TcpSegment)
    requires ValidStream(st) && IsSegment(s, st, i) && s.flags == ACK
    requires py.state.Connected? && py.inbox == Prefix(st, i)
    ensures var py' := OnSegment(py, s);
            py'.state.Connected? && Wrap32(py'.txAck) == Key(st, Offset(st, i + 1)) && py'.inbox == Prefix(st, i + 1)
  {
    KeyStep(st, i);
  }

  /** The ACK of the next segment in order: it names the end of the inbox, carries no data and takes no number. */
  lemma AckNamesInbox(c: PyConn, st: Stream, i: nat, s: TcpSegment)
    requires ValidStream(st) && IsSegment(s, st, i) && s.flags == ACK && c.state.Connected? && c.inbox == Prefix(st, i)
    ensures var c' := OnSegment(c, s);
            var e := SentNow(c', ACK, []);
            && Replies(c, s) && e.flags == ACK && e.data == [] && e.seqNo == c.txSeq
            && Wrap32(e.ackNo) == Key(st, |c'.inbox|)
  {
    NextInOrder(c, st, i, s);
  }

  /** The ACK of SYN|ACK: it names the start of the stream, and the SYN has taken one number. */
  lemma AckOfHandshake(sport: u16, dport: u16, st: Stream, syn: TcpSegment)
    requires syn.flags == SYN_ACK && syn.seqNo == st.isn
    ensures var c := FreshPy(sport, dport);
            var e := SentNow(OnSegment(c, syn), ACK, []);
            && Replies(c, syn) && OnSegment(c, syn).state.Connected?
            && e.flags == ACK && e.data == [] && e.seqNo == 1 && Wrap32(e.ackNo) == Key(st, 0)
  {
  }

  /**
   * A connection the host has closed takes in nothing more, answers nothing and sends nothing; the inbox stays
   * readable.
   */
  lemma ClosedIsDeaf(c: PyConn, s: TcpSegment)
    requires c.closed ==> c.state.Dead?
    ensures var d := Close(c);
            && d.closed && d.state.Dead? && d.inbox == c.inbox && d.txSeq == c.txSeq && d.txAck == c.txAck
            && OnSegment(d, s) == d.(rxAck := s.ackNo, rxWin := s.win)
            && !Replies(d, s) && Sendable(d) == -1 && Close(d) == d
  {
  }

  /** Both receivers, fresh, given SYN|ACK and then `n` segments in order, hold the first `n` segments. */
  lemma BothReceiveInOrder(sport: u16, dport: u16, st: Stream, syn: TcpSegment, run: seq<TcpSegment>)
    requires ValidStream(st) && syn.flags == SYN_ACK && syn.seqNo == st.isn && InOrder(st, 0, run)
    ensures |run| <= |st.segments|
    ensures var py := PyAll(FreshPy(sport, dport), [syn] + run);
            var ru := RustAll(FreshConn(sport, dport), [syn] + run);
            Related(py, ru) && ru.inbox == Prefix(st, |run|)
  {
    var py, ru := FreshPy(sport, dport), FreshConn(sport, dport);
    var all := [syn] + run;
    assert all[1..] == run;
    assert [] == Prefix(st, 0);
    InOrderIsOrderly(OnSegment(py, syn), Receive(ru, syn), st, 0, run);
    assert OrderlyRun(py, ru, all);
    RefinementRun(py, ru, all);
  }

  // ------------------------------------------------------------------ Flow control

  /** `_sendable` */
  function Sendable(c: PyConn): (n: int) {
    if c.closed then -1 else
    var inflight := Wrap32(c.txSeq - c.rxAck);
    var room := if c.rxWin - inflight < MAX_PAYLOAD then c.rxWin - inflight else MAX_PAYLOAD;
    if room > 0 then room else 0
  }

  /** A chunk of `n` bytes fits one packet and what is left of the advertised window. */
  predicate MaySendNow(c: PyConn, n: nat) {
    0 < n <= MAX_PAYLOAD && Wrap32(c.txSeq - c.rxAck) + n <= c.rxWin
  }

  datatype FlowEvent = Peer(s: TcpSegment, acked: nat) | Chunk(size: nat)

  /** One connection's sender seen from outside: its state and the absolute position the peer has acknowledged. */
  datatype Flow = Flow(c: PyConn, acked: nat)

  /** The peer acknowledges only what was sent, within one wrap-around, and encodes its window in 16 bits of 256. */
  predicate FlowEnabled(f: Flow, e: FlowEvent) {
    match e
    case Peer(s, acked) => acked <= f.c.txSeq < acked + 0x1_0000_0000 && s.ackNo == Wrap32(acked)
                           && s.win <= 0xFFFF * 0x100
    case Chunk(size) => 0 < size <= Sendable(f.c)
  }

  function FlowNext(f: Flow, e: FlowEvent): Flow {
    match e
    case Peer(s, acked) => Flow(OnSegment(f.c, s), acked)
    case Chunk(size) => Flow(f.c.(txSeq := f.c.txSeq + size), f.acked)
  }

  function FlowRun(f: Flow, run: seq<FlowEvent>): Flow
    decreases |run|
  {
    if run == [] then f else FlowRun(FlowNext(f, run[0]), run[1..])
  }

  predicate FlowRunnable(f: Flow, run: seq<FlowEvent>)
    decreases |run|
  {
    run == [] || (FlowEnabled(f, run[0]) && FlowRunnable(FlowNext(f, run[0]), run[1..]))
  }

  /** Unacknowledged bytes stay under 2^32, so the 32-bit difference of sequence numbers is the true difference. */
  predicate FlowInv(f: Flow) {
    && f.acked <= f.c.txSeq < f.acked + 0x1_0000_0000
    && f.c.rxAck == Wrap32(f.acked) && f.c.rxWin <= 0xFFFF * 0x100
    && !f.c.state.Connecting?
  }

  lemma FlowStep(f: Flow, e: FlowEvent)
    requires FlowInv(f) && FlowEnabled(f, e)
    ensures FlowInv(FlowNext(f, e))
    ensures e.Chunk? ==> FlowNext(f, e).c.txSeq - f.acked <= f.c.rxWin
  {
    InflightIsExact(f);
  }

  lemma InflightIsExact(f: Flow)
    requires FlowInv(f)
    ensures Wrap32(f.c.txSeq - f.c.rxAck) == f.c.txSeq - f.acked
  {
  }

  /** In every run, each chunk sent leaves at most the advertised window unacknowledged, counted without wrap-around. */
  lemma {:induction false} WindowIsRespected(f: Flow, run: seq<FlowEvent>, k: nat)
    requires FlowInv(f) && FlowRunnable(f, run) && k < |run| && run[k].Chunk?
    ensures var before := FlowRun(f, run[..k]); var after := FlowRun(f, run[..k + 1]);
            && after.c.txSeq == before.c.txSeq + run[k].size
            && after.c.txSeq - after.acked <= after.c.rxWin == before.c.rxWin
    decreases |run|
  {
    FlowStep(f, run[0]);
    if k == 0 {
      assert run[..0] == [] && run[..1] == [run[0]] && [run[0]][1..] == run[..0];
    } else {
      assert run[..k][1..] == run[1..][..k - 1] && run[..k + 1][1..] == run[1..][..k];
      WindowIsRespected(FlowNext(f, run[0]), run[1..], k - 1);
    }
  }

  /** The same from the handshake on: SYN|ACK acknowledges the SYN, which takes up one sequence number. */
  lemma WindowFromHandshake(sport: u16, dport: u16, syn: TcpSegment, run: seq<FlowEvent>, k: nat)
    requires syn.flags == SYN_ACK && syn.ackNo == 1 && syn.win <= 0xFFFF * 0x100
    requires FlowRunnable(Flow(OnSegment(FreshPy(sport, dport), syn), 1), run) && k < |run| && run[k].Chunk?
    ensures var after := FlowRun(Flow(OnSegment(FreshPy(sport, dport), syn), 1), run[..k + 1]);
            after.acked <= after.c.txSeq <= after.acked + after.c.rxWin
  {
    WindowIsRespected(Flow(OnSegment(FreshPy(sport, dport), syn), 1), run, k);
    StaysInFlow(Flow(OnSegment(FreshPy(sport, dport), syn), 1), run, k + 1);
  }

  lemma {:induction false} StaysInFlow(f: Flow, run: seq<FlowEvent>, k: nat)
    requires FlowInv(f) && FlowRunnable(f, run) && k <= |run|
    ensures FlowInv(FlowRun(f, run[..k]))
    decreases k
  {
    if k > 0 {
      FlowStep(f, run[0]);
      assert run[..k][1..] == run[1..][..k - 1];
      StaysInFlow(FlowNext(f, run[0]), run[1..], k - 1);
    }
  }

  // ------------------------------------------------------------------ The sender

  /** The data carried by a log of sent segments. */
  function DataBytes(log: seq<Sent>): Bytes {
    if log == [] then [] else DataBytes(log[..|log| - 1]) + log[|log| - 1].data
  }

  /** A data segment fits the peer's window as last advertised and, framed, fits one USB packet. */
  predicate FitsWindow(s: Sent) {
    s.data != [] ==> Wrap32(s.seqNo - s.rxAck) + |s.data| <= s.rxWin && 16 + TCP_HDR_LEN + |s.data| <= USB_MTU
  }

  /** Data segments follow each other without gap or overlap from sequence number `start`. */
  predicate InSequence(log: seq<Sent>, start: nat) {
    log == [] ||
    (var before, last := log[..|log| - 1], log[|log| - 1];
     && InSequence(before, start) && FitsWindow(last)
     && (last.data != [] ==> last.flags == ACK && last.seqNo == start + |DataBytes(before)|))
  }

  /** From index `from` on, the log is in sequence from `start` and carries exactly `done`. */
  predicate Emitted(log: seq<Sent>, from: nat, start: nat, done: Bytes) {
    from <= |log| && InSequence(log[from..], start) && DataBytes(log[from..]) == done
  }

  predicate AllAck(log: seq<Sent>, from: nat) {
    forall i :: from <= i < |log| ==> log[i].flags == ACK
  }

  lemma EmitOne(log: seq<Sent>, from: nat, start: nat, done: Bytes, s: Sent)
    requires Emitted(log, from, start, done) && FitsWindow(s)
    requires s.data != [] ==> s.flags == ACK && s.seqNo == start + |done|
    ensures Emitted(log + [s], from, start, done + s.data)
    ensures AllAck(log, from) && s.flags == ACK ==> AllAck(log + [s], from)
  {
    assert (log + [s])[from..] == log[from..] + [s];
    SequenceSnoc(log[from..], start, s);
  }

  lemma SequenceSnoc(log: seq<Sent>, start: nat, s: Sent)
    requires InSequence(log, start) && FitsWindow(s)
    requires s.data != [] ==> s.flags == ACK && s.seqNo == start + |DataBytes(log)|
    ensures InSequence(log + [s], start) && DataBytes(log + [s]) == DataBytes(log) + s.data
  {
    assert (log + [s])[..|log|] == log;
  }

  /** What other threads do to the connection while `send` waits. */
  datatype Event = Segment(s: TcpSegment) | HostClose

  datatype SendResult = Done | Stalled | ConnectionClosed

  class PyConnection {
    const sport: u16
    const dport: u16
    var state: State
    var txSeq: nat
    var txAck: nat
    var rxAck: u32
    var rxWin: nat
    var inbox: Bytes
    var closed: bool
    var refused: bool
    var log: seq<Sent>

    constructor (sport: u16, dport: u16)
      ensures View() == FreshPy(sport, dport) && log == []
    {
      this.sport, this.dport := sport, dport;
      state, txSeq, txAck, rxAck, rxWin := Connecting, 0, 0, 0, 0;
      inbox, closed, refused, log := [], false, false, [];
    }

    ghost function View(): PyConn
      reads this
    {
      PyConn(sport, dport, state, txSeq, txAck, rxAck, rxWin, inbox, closed, refused)
    }

    method SendTcp(flags: byte, data: Bytes)
      modifies this`log
      ensures log == old(log) + [SentNow(View(), flags, data)]
      ensures log[|old(log)|] == Sent(flags, txSeq, txAck, data, rxAck, rxWin)
    {
      log := log + [Sent(flags, txSeq, txAck, data, rxAck, rxWin)];
    }

    method HandleSegment(s: TcpSegment)
      modifies this
      ensures View() == OnSegment(old(View()), s)
      ensures log == if Replies(old(View()), s) then old(log) + [SentNow(View(), ACK, [])] else old(log)
    {
      rxAck := s.ackNo;
      rxWin := s.win;
      if state.Connecting? {
        if s.flags == SYN_ACK {
          txSeq := txSeq + 1;
          txAck := s.seqNo as int + 1;
          state := Connected;
          SendTcp(ACK, []);
        } else {
          refused := HasRst(s.flags);
          state := Dead;
          closed := true;
        }
        return;
      }
      if state.Connected? {
        if HasRst(s.flags) || HasFin(s.flags) {
          state := Dead;
          closed := true;
          return;
        }
        if s.payload != [] {
          inbox := inbox + s.payload;
          txAck := s.seqNo as int + |s.payload|;
          SendTcp(ACK, []);
        }
      }
    }

    method CloseByHost()
      modifies this
      ensures View() == Close(old(View()))
      ensures log == if old(state.Connected? && !closed)
                      then old(log) + [SentNow(old(View()).(closed := true), RST, [])] else old(log)
    {
      if closed { return; }
      closed := true;
      if state.Connected? {
        SendTcp(RST, []);
      }
      state := Dead;
    }

    /** One round of waiting on the condition variable: other threads take the lock in turn. */
    method LetOthersRun(events: seq<Event>, ghost from: nat, ghost start: nat, ghost done: Bytes)
      requires !state.Connecting? && Emitted(log, from, start, done) && (!closed ==> AllAck(log, from))
      modifies this
      ensures !state.Connecting? && Emitted(log, from, start, done) && (!closed ==> AllAck(log, from))
      ensures old(log) <= log && txSeq == old(txSeq)
    {
      for k := 0 to |events|
        invariant !state.Connecting? && Emitted(log, from, start, done) && (!closed ==> AllAck(log, from))
        invariant old(log) <= log && txSeq == old(txSeq)
      {
        ghost var c, was := View(), log;
        match events[k] {
          case Segment(s) =>
            HandleSegment(s);
            if Replies(c, s) {
              EmitOne(was, from, start, done, SentNow(View(), ACK, []));
            }
          case HostClose =>
            CloseByHost();
            EmitOne(was, from, start, done, SentNow(c.(closed := true), RST, []));
        }
        assert done + [] == done;
      }
    }

    /**
     * `send`, with what the other threads do while it waits before each chunk. Whatever they do, the data segments it
     * emits are a gap-free prefix of `data`, all of it when it returns normally, each within window and packet size.
     */
    method Send(data: Bytes, rounds: seq<seq<Event>>) returns (result: SendResult, off: nat)
      requires !state.Connecting?
      modifies this
      ensures off <= |data| && (result.Done? <==> off == |data|)
      ensures old(log) <= log && Emitted(log, |old(log)|, old(txSeq), data[..off])
      ensures txSeq == old(txSeq) + off
      ensures result.Done? ==> AllAck(log[|old(log)|..], 0)
      ensures result.ConnectionClosed? ==> closed
      ensures result.Stalled? ==> Sendable(View()) == 0
    {
      off := 0;
      var round := 0;
      ghost var from, start := |log|, txSeq;
      while off < |data|
        invariant off <= |data| && !state.Connecting? && old(log) <= log && txSeq == start + off
        invariant Emitted(log, from, start, data[..off]) && (!closed ==> AllAck(log, from))
        invariant if off == 0 then log == old(log) else !closed
        decreases |data| - off
      {
        if round < |rounds| {
          LetOthersRun(rounds[round], from, start, data[..off]);
          round := round + 1;
        }
        var n := SendableNow();
        if n == 0 {
          return Stalled, off;
        }
        if n < 0 {
          return ConnectionClosed, off;
        }
        off := SendChunk(data, off, n, from, start);
      }
      return Done, off;
    }

    /** One chunk of `data`, at most `n` bytes, at offset `off`. */
    method SendChunk(data: Bytes, off: nat, n: nat, ghost from: nat, ghost start: nat) returns (next: nat)
      requires off < |data| && 0 < n == Sendable(View()) && txSeq == start + off
      requires Emitted(log, from, start, data[..off]) && AllAck(log, from)
      modifies this`log, this`txSeq
      ensures off < next <= |data| && txSeq == start + next
      ensures old(log) <= log && Emitted(log, from, start, data[..next]) && AllAck(log, from)
    {
      var chunk := if off + n <= |data| then data[off..off + n] else data[off..];
      EmitOne(log, from, start, data[..off], SentNow(View(), ACK, chunk));
      assert data[..off] + chunk == data[..off + |chunk|];
      SendTcp(ACK, chunk);
      txSeq := txSeq + |chunk|;
      next := off + |chunk|;
    }

    /** The largest chunk that may go out now; 0 if the window has no room, -1 on a closed connection. */
    method SendableNow() returns (n: int)
      ensures n == Sendable(View())
      ensures n == -1 <==> closed
      ensures n >= -1 && (n > 0 ==> MaySendNow(View(), n))
      ensures !closed ==> forall k: nat :: MaySendNow(View(), k) ==> k <= n
    {
      if closed { return -1; }
      var inflight := Wrap32(txSeq - rxAck);
      n := rxWin - inflight;
      if n > MAX_PAYLOAD { n := MAX_PAYLOAD; }
      if n < 0 { n := 0; }
    }

    /** `recv` once data is there or the connection is closed: at most `maxBytes` from the front, and the rest stays. */
    method Recv(maxBytes: nat) returns (out: Bytes)
      modifies this`inbox
      ensures out + inbox == old(inbox) && |out| <= maxBytes
      ensures out == [] <==> old(inbox) == [] || maxBytes == 0
    {
      if inbox == [] { return []; }
      var n := if maxBytes < |inbox| then maxBytes else |inbox|;
      out := inbox[..n];
      inbox := inbox[n..];
    }
  }
}
