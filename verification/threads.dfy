// The Rust multiplexer under every interleaving: one reader thread, one client thread per connection, and between them
// the connection lock, the mux-number lock and the writer lock, each taken and released separately.
module Threads {
  import opened Words
  import opened Codec
  import opened RustMux
  import opened Reassembly

  /**
   * A TCP segment on its way out, as `send_tcp` stamped it under the connection lock. `covers` records how many bytes
   * of the device's stream had been reassembled at that moment.
   */
  datatype Segment = Segment(port: u16, flags: byte, seqNo: u32, ackNo: u32, data: Bytes, covers: nat)

  /** Progress of one thread inside `send_tcp`: stamped, then numbered under the mux lock, then written. */
  datatype Job = Idle | Stamped(s: Segment) | Numbered(s: Segment, number: u16, index: nat)

  datatype Wired = Wired(s: Segment, number: u16, index: nat)

  /**
   * The client thread: bytes moved out of `inbox` and not yet written to the local socket, bytes written to it, and
   * bytes read from it and stamped so far.
   */
  datatype Client = Client(alive: bool, job: Job, taken: Bytes, out: Bytes, sent: Bytes)

  datatype Link = Link(conn: Conn, arrived: set<nat>, client: Client)

  /** `acking` is a connection whose segment the reader has absorbed but not yet answered. */
  datatype World = World(links: map<u16, Link>, acking: Option<u16>, readerJob: Job,
                         txSeq: u16, issued: nat, wire: seq<Wired>)

  datatype Thread = ReaderThread | ClientThread(port: u16)

  datatype Step =
    | Open(port: u16, dport: u16)
    | Arrive(port: u16, arrival: Arrival)
    | StampAck
    | StampClient(port: u16, flags: byte, data: Bytes)
    | TakeNumber(t: Thread)
    | Write(t: Thread, ok: bool)
    | TakeInbox(port: u16)
    | HandOver(port: u16, ok: bool)

  type Streams = map<u16, Stream>

  // ------------------------------------------------------------------ Transitions

  /** Everything of the device's stream that has been reassembled, wherever it is by now. */
  function Delivered(l: Link): Bytes {
    l.client.out + l.client.taken + l.conn.inbox
  }

  predicate HasThread(w: World, t: Thread) {
    t.ClientThread? ==> t.port in w.links
  }

  function JobOf(w: World, t: Thread): Job
    requires HasThread(w, t)
  {
    match t
    case ReaderThread => w.readerJob
    case ClientThread(p) => w.links[p].client.job
  }

  function WithClient(w: World, port: u16, client: Client): World
    requires port in w.links
  {
    w.(links := w.links[port := w.links[port].(client := client)])
  }

  function WithJob(w: World, t: Thread, job: Job): World
    requires HasThread(w, t)
  {
    match t
    case ReaderThread => w.(readerJob := job)
    case ClientThread(p) => WithClient(w, p, w.links[p].client.(job := job))
  }

  /**
   * What the device may send now: SYN|ACK with its ISN to open; afterwards its stream's segments near the position, or
   * no data.
   */
  predicate MaySend(st: Stream, l: Link, a: Arrival) {
    if !l.conn.connected then
      a.Other? && (a.segment.flags == SYN_ACK ==> a.segment.seqNo == st.isn)
    else
      Admissible(st, l.arrived, [a])
  }

  predicate Enabled(env: Streams, w: World, step: Step) {
    match step
    case Open(p, _) => p in env && p !in w.links
    case Arrive(p, a) =>
      w.acking.None? && w.readerJob.Idle? && p in w.links && p in env && MaySend(env[p], w.links[p], a)
    case StampAck => w.acking.Some? && w.readerJob.Idle? && w.acking.value in w.links
    case StampClient(p, flags, data) =>
      && p in w.links && w.links[p].client.alive && w.links[p].client.job.Idle?
      && if data == [] then flags == SYN || flags == RST else flags == ACK && w.links[p].conn.connected
    case TakeNumber(t) => HasThread(w, t) && JobOf(w, t).Stamped?
    case Write(t, _) => HasThread(w, t) && JobOf(w, t).Numbered?
    case TakeInbox(p) =>
      p in w.links && w.links[p].client.alive && w.links[p].client.job.Idle? && w.links[p].client.taken == []
    case HandOver(p, _) => p in w.links && w.links[p].client.alive && w.links[p].client.job.Idle?
  }

  /** `send_tcp` under the connection lock. */
  function Stamp(port: u16, l: Link, flags: byte, data: Bytes): Segment {
    Segment(port, flags, l.conn.txSeq, l.conn.txAck, data, |Delivered(l)|)
  }

  function Absorb(l: Link, a: Arrival): Link {
    l.(conn := Receive(l.conn, a.segment),
       arrived := if l.conn.connected && a.Data? then l.arrived + {a.index} else l.arrived)
  }

  /** The step may change the link of this port. */
  predicate ActsOn(step: Step, p: u16) {
    match step
    case Open(q, _) => q == p
    case Arrive(q, _) => q == p
    case StampAck => false
    case StampClient(q, _, _) => q == p
    case TakeNumber(t) => t == ClientThread(p)
    case Write(t, _) => t == ClientThread(p)
    case TakeInbox(q) => q == p
    case HandOver(q, _) => q == p
  }

  function Next(env: Streams, w: World, step: Step): (w': World)
    requires Enabled(env, w, step)
    ensures w'.links.Keys == w.links.Keys + if step.Open? then {step.port} else {}
    ensures forall p :: p in w.links && !ActsOn(step, p) ==> w'.links[p] == w.links[p]
    ensures !(step.Write? && step.ok) ==> w'.wire == w.wire
    ensures !step.TakeNumber? ==> w'.txSeq == w.txSeq && w'.issued == w.issued
  {
    match step
    case Open(p, dport) =>
      w.(links := w.links[p := Link(FreshConn(p, dport), {}, Client(true, Idle, [], [], []))])
    case Arrive(p, a) =>
      w.(links := w.links[p := Absorb(w.links[p], a)],
         acking := if Answers(w.links[p].conn, a.segment) then Some(p) else None)
    case StampAck =>
      w.(acking := None, readerJob := Stamped(Stamp(w.acking.value, w.links[w.acking.value], ACK, [])))
    case StampClient(p, flags, data) =>
      var l := w.links[p];
      var conn := l.conn.(txSeq := Wrap32(l.conn.txSeq as int + |data|));
      var client := l.client.(job := Stamped(Stamp(p, l, flags, data)), sent := l.client.sent + data);
      w.(links := w.links[p := l.(conn := conn, client := client)])
    case TakeNumber(t) =>
      WithJob(w.(txSeq := Wrap16(w.txSeq as int + 1), issued := w.issued + 1), t,
              Numbered(JobOf(w, t).s, w.txSeq, w.issued))
    case Write(t, ok) =>
      var job := JobOf(w, t);
      if ok then
        WithJob(w.(wire := w.wire + [Wired(job.s, job.number, job.index)]), t, Idle)
      else if t.ReaderThread? then
        WithJob(w, t, Idle)
      else
        WithClient(w, t.port, w.links[t.port].client.(job := Idle, alive := false))
    case TakeInbox(p) =>
      var l := w.links[p];
      w.(links := w.links[p := l.(conn := l.conn.(inbox := []), client := l.client.(taken := l.conn.inbox))])
    case HandOver(p, ok) =>
      var client := w.links[p].client;
      WithClient(w, p, if ok then client.(out := client.out + client.taken, taken := []) else client.(alive := false))
  }

  function Init(issued: nat): World {
    World(map[], None, Idle, Wrap16(issued), issued, [])
  }

  predicate Runnable(env: Streams, w: World, run: seq<Step>)
    decreases |run|
  {
    run == [] || (Enabled(env, w, run[0]) && Runnable(env, Next(env, w, run[0]), run[1..]))
  }

  function Run(env: Streams, w: World, run: seq<Step>): World
    requires Runnable(env, w, run)
    decreases |run|
  {
    if run == [] then w else Run(env, Next(env, w, run[0]), run[1..])
  }

  // ------------------------------------------------------------------ Reassembly across threads

  /** What the reader and the client thread together hold of one connection's stream. */
  ghost predicate LinkOk(st: Stream, l: Link) {
    if l.conn.connected then
      Synced(l.conn, st, l.arrived, l.client.out + l.client.taken)
    else
      l.arrived == {} && Delivered(l) == [] && l.conn.pending == map[]
  }

  ghost predicate ReceiveInv(env: Streams, w: World) {
    && (forall p :: p in env ==> ValidStream(env[p]))
    && (forall p :: p in w.links ==> p in env && LinkOk(env[p], w.links[p]))
  }

  lemma AbsorbOk(st: Stream, l: Link, a: Arrival)
    requires ValidStream(st) && LinkOk(st, l) && MaySend(st, l, a)
    ensures LinkOk(st, Absorb(l, a)) && Delivered(l) <= Delivered(Absorb(l, a))
  {
    var taken := l.client.out + l.client.taken;
    if l.conn.connected {
      ReassemblyRun(l.conn, st, l.arrived, taken, [a]);
      assert ReceiveAll(l.conn, [a]) == Receive(l.conn, a.segment);
      IndicesStep([a]);
      assert l.arrived + Indices([a]) == Absorb(l, a).arrived;
      InboxGrows(l.conn, a.segment);
    } else if a.segment.flags == SYN_ACK {
      assert taken == [];
      HandshakeSyncs(l.conn, st, a.segment);
    }
  }

  lemma InboxGrows(c: Conn, s: TcpSegment)
    ensures c.inbox <= Receive(c, s).inbox
  {
    if c.connected && !HasRst(s.flags) && s.payload != [] && s.seqNo == c.txAck {
      AtExpected(c, s);
      DrainKeeps(Deliver(c, s));
    }
  }

  lemma TakeOk(st: Stream, l: Link, l': Link)
    requires LinkOk(st, l) && l.client.taken == []
    requires l' == l.(conn := l.conn.(inbox := []), client := l.client.(taken := l.conn.inbox))
    ensures LinkOk(st, l') && Delivered(l') == Delivered(l)
  {
  }

  lemma HandOverOk(st: Stream, l: Link, l': Link)
    requires LinkOk(st, l)
    requires l' == l.(client := l.client.(out := l.client.out + l.client.taken, taken := []))
    ensures LinkOk(st, l') && Delivered(l') == Delivered(l)
  {
  }

  /** Steps inside `send_tcp` and `send_packet` do not touch what has been received. */
  lemma SameReceiveState(st: Stream, l: Link, l': Link)
    requires LinkOk(st, l) && l'.arrived == l.arrived
    requires l'.conn == l.conn.(txSeq := l'.conn.txSeq)
    requires l'.client.out == l.client.out && l'.client.taken == l.client.taken
    ensures LinkOk(st, l') && Delivered(l') == Delivered(l)
  {
  }

  lemma {:induction false} ReceiveStep(env: Streams, w: World, step: Step)
    requires ReceiveInv(env, w) && Enabled(env, w, step)
    ensures ReceiveInv(env, Next(env, w, step))
    ensures forall p :: p in w.links ==>
              p in Next(env, w, step).links && Delivered(w.links[p]) <= Delivered(Next(env, w, step).links[p])
  {
    var w' := Next(env, w, step);
    forall p | p in w'.links
      ensures p in env && LinkOk(env[p], w'.links[p])
      ensures p in w.links ==> Delivered(w.links[p]) <= Delivered(w'.links[p])
    {
      if ActsOn(step, p) {
        ReceiveLink(env, w, step, p);
      }
    }
  }

  lemma {:induction false} ReceiveLink(env: Streams, w: World, step: Step, p: u16)
    requires ReceiveInv(env, w) && Enabled(env, w, step) && ActsOn(step, p) && p in Next(env, w, step).links
    ensures p in env && LinkOk(env[p], Next(env, w, step).links[p])
    ensures p in w.links ==> Delivered(w.links[p]) <= Delivered(Next(env, w, step).links[p])
  {
    if step.Arrive? {
      AbsorbOk(env[p], w.links[p], step.arrival);
    } else if step.TakeInbox? {
      TakeOk(env[p], w.links[p], Next(env, w, step).links[p]);
    } else if step.HandOver? && step.ok {
      HandOverOk(env[p], w.links[p], Next(env, w, step).links[p]);
    } else if !step.Open? {
      SendingLeavesReceived(env, w, step, p);
      SameReceiveState(env[p], w.links[p], Next(env, w, step).links[p]);
    }
  }

  lemma {:induction false} SendingLeavesReceived(env: Streams, w: World, step: Step, p: u16)
    requires Enabled(env, w, step) && ActsOn(step, p) && p in w.links
    requires !step.Arrive? && !step.TakeInbox? && !(step.HandOver? && step.ok)
    ensures var l, l' := w.links[p], Next(env, w, step).links[p];
            && l'.arrived == l.arrived && l'.conn == l.conn.(txSeq := l'.conn.txSeq)
            && l'.client.out == l.client.out && l'.client.taken == l.client.taken
  {
  }

  // ------------------------------------------------------------------ Acknowledgements

  /** An ACK names a position the receiver has reached: every byte below it has been delivered in order. */
  ghost predicate AckOk(env: Streams, w: World, s: Segment) {
    && s.port in w.links && s.port in env
    && (s.flags == ACK ==>
          s.ackNo == Key(env[s.port], s.covers) && s.covers <= |Delivered(w.links[s.port])|)
  }

  ghost predicate AckInv(env: Streams, w: World) {
    && (forall i :: 0 <= i < |w.wire| ==> AckOk(env, w, w.wire[i].s))
    && (forall t :: HasThread(w, t) && !JobOf(w, t).Idle? ==> AckOk(env, w, JobOf(w, t).s))
    && (w.acking.Some? ==> w.acking.value in w.links && w.links[w.acking.value].conn.connected)
  }

  lemma StampOk(env: Streams, w: World, port: u16, flags: byte, data: Bytes)
    requires ReceiveInv(env, w) && port in w.links
    requires flags == ACK ==> w.links[port].conn.connected
    ensures AckOk(env, w, Stamp(port, w.links[port], flags, data))
  {
  }

  /** Links stay, and what they have delivered only grows. */
  ghost predicate Grows(w: World, w': World) {
    forall p :: p in w.links ==> p in w'.links && Delivered(w.links[p]) <= Delivered(w'.links[p])
  }

  lemma AckCarriesOver(env: Streams, w: World, w': World, s: Segment)
    requires AckOk(env, w, s) && Grows(w, w')
    ensures AckOk(env, w', s)
  {
  }

  /** A thread's outgoing segment was stamped in this step or is the one it had. */
  lemma JobSource(env: Streams, w: World, step: Step, t: Thread)
    requires Enabled(env, w, step) && HasThread(Next(env, w, step), t) && !JobOf(Next(env, w, step), t).Idle?
    ensures var s := JobOf(Next(env, w, step), t).s;
            match step
            case StampAck => t == ReaderThread ==> s == Stamp(w.acking.value, w.links[w.acking.value], ACK, [])
            case StampClient(p, flags, data) => t == ClientThread(p) ==> s == Stamp(p, w.links[p], flags, data)
            case _ => true
    ensures step != StampAck || t != ReaderThread ==>
            (step.StampClient? ==> t != ClientThread(step.port)) ==>
              HasThread(w, t) && !JobOf(w, t).Idle? && JobOf(Next(env, w, step), t).s == JobOf(w, t).s
  {
  }

  lemma AckJob(env: Streams, w: World, step: Step, t: Thread)
    requires ReceiveInv(env, w) && AckInv(env, w) && Enabled(env, w, step) && Grows(w, Next(env, w, step))
    requires HasThread(Next(env, w, step), t) && !JobOf(Next(env, w, step), t).Idle?
    ensures AckOk(env, Next(env, w, step), JobOf(Next(env, w, step), t).s)
  {
    var w' := Next(env, w, step);
    var s := JobOf(w', t).s;
    JobSource(env, w, step, t);
    if step == StampAck && t == ReaderThread {
      StampOk(env, w, w.acking.value, ACK, []);
    } else if step.StampClient? && t == ClientThread(step.port) {
      StampOk(env, w, step.port, step.flags, step.data);
    }
    AckCarriesOver(env, w, w', s);
  }

  lemma AckWire(env: Streams, w: World, step: Step, i: nat)
    requires AckInv(env, w) && Enabled(env, w, step) && Grows(w, Next(env, w, step))
    requires i < |Next(env, w, step).wire|
    ensures AckOk(env, Next(env, w, step), Next(env, w, step).wire[i].s)
  {
    var w' := Next(env, w, step);
    if i < |w.wire| {
      assert w'.wire[i] == w.wire[i];
      AckCarriesOver(env, w, w', w.wire[i].s);
    } else {
      assert w'.wire[i].s == JobOf(w, step.t).s;
      AckCarriesOver(env, w, w', JobOf(w, step.t).s);
    }
  }

  lemma AckPending(env: Streams, w: World, step: Step)
    requires AckInv(env, w) && Enabled(env, w, step)
    ensures var w' := Next(env, w, step);
            w'.acking.Some? ==> w'.acking.value in w'.links && w'.links[w'.acking.value].conn.connected
  {
    if step.Arrive? {
      ReceiveTxSeq(w.links[step.port].conn, step.arrival.segment);
    }
  }

  lemma AckStep(env: Streams, w: World, step: Step)
    requires ReceiveInv(env, w) && AckInv(env, w) && Enabled(env, w, step)
    ensures AckInv(env, Next(env, w, step))
  {
    var w' := Next(env, w, step);
    ReceiveStep(env, w, step);
    forall i | 0 <= i < |w'.wire|
      ensures AckOk(env, w', w'.wire[i].s)
    {
      AckWire(env, w, step, i);
    }
    forall t | HasThread(w', t) && !JobOf(w', t).Idle?
      ensures AckOk(env, w', JobOf(w', t).s)
    {
      AckJob(env, w, step, t);
    }
    AckPending(env, w, step);
  }

  // ------------------------------------------------------------------ Order of outgoing data

  /** The data segments of one connection in the order the writer got them. */
  function DataOn(wire: seq<Wired>, port: u16): seq<Segment> {
    if wire == [] then [] else
    var last := wire[|wire| - 1].s;
    DataOn(wire[..|wire| - 1], port) + if last.port == port && last.data != [] then [last] else []
  }

  function Payload(segments: seq<Segment>): Bytes {
    if segments == [] then [] else Payload(segments[..|segments| - 1]) + segments[|segments| - 1].data
  }

  /** Sequence numbers start at 1 after the handshake and each picks up where the last segment ended, modulo 2^32. */
  predicate Contiguous(segments: seq<Segment>) {
    segments == [] ||
    (var before := segments[..|segments| - 1];
     Contiguous(before) && segments[|segments| - 1].seqNo == Wrap32(1 + |Payload(before)|))
  }

  function JobData(job: Job): Bytes {
    if job.Idle? then [] else job.s.data
  }

  ghost predicate SendOk(l: Link, port: u16, data: seq<Segment>) {
    && l.conn.txSeq == (if l.conn.connected then Wrap32(1 + |l.client.sent|) else 0)
    && (!l.conn.connected ==> l.client.sent == [])
    && Contiguous(data)
    && Payload(data) <= l.client.sent
    && (l.client.alive ==> Payload(data) + JobData(l.client.job) == l.client.sent)
    && (!l.client.alive ==> l.client.job.Idle?)
    && (!l.client.job.Idle? ==> l.client.job.s.port == port)
    && (JobData(l.client.job) != [] ==> l.client.job.s.seqNo == Wrap32(1 + |Payload(data)|))
  }

  ghost predicate SendInv(w: World) {
    && JobData(w.readerJob) == []
    && (forall p :: SendOkAt(w, p))
  }

  ghost predicate SendOkAt(w: World, p: u16) {
    if p in w.links then SendOk(w.links[p], p, DataOn(w.wire, p)) else DataOn(w.wire, p) == []
  }

  lemma DataOnSnoc(wire: seq<Wired>, x: Wired, port: u16)
    ensures DataOn(wire + [x], port) == DataOn(wire, port) + if x.s.port == port && x.s.data != [] then [x.s] else []
  {
    assert (wire + [x])[..|wire|] == wire;
  }

  lemma SnocContiguous(data: seq<Segment>, s: Segment)
    requires Contiguous(data) && s.seqNo == Wrap32(1 + |Payload(data)|)
    ensures Contiguous(data + [s]) && Payload(data + [s]) == Payload(data) + s.data
  {
    assert (data + [s])[..|data|] == data;
  }

  lemma ReceiveTxSeq(c: Conn, s: TcpSegment)
    ensures Receive(c, s).txSeq == if !c.connected && s.flags == SYN_ACK then Wrap32(c.txSeq as int + 1) else c.txSeq
    ensures Receive(c, s).connected <==> c.connected || s.flags == SYN_ACK
  {
    if c.connected && !HasRst(s.flags) && s.payload != [] && s.seqNo == c.txAck {
      AtExpected(c, s);
      DrainTxSeq(Deliver(c, s));
    }
  }

  lemma {:induction false} DrainTxSeq(c: Conn)
    ensures Drain(c).txSeq == c.txSeq && Drain(c).connected == c.connected
    decreases c.pending.Keys
  {
    if c.txAck in c.pending {
      DrainTxSeq(Drained(c));
    }
  }

  lemma SendArrive(l: Link, a: Arrival, port: u16, data: seq<Segment>)
    requires SendOk(l, port, data)
    ensures SendOk(Absorb(l, a), port, data)
  {
    ReceiveTxSeq(l.conn, a.segment);
  }

  lemma SendStamp(l: Link, port: u16, flags: byte, bytes: Bytes, data: seq<Segment>)
    requires SendOk(l, port, data) && l.client.alive && l.client.job.Idle? && (bytes != [] ==> l.conn.connected)
    ensures SendOk(Link(l.conn.(txSeq := Wrap32(l.conn.txSeq as int + |bytes|)), l.arrived,
                        l.client.(job := Stamped(Stamp(port, l, flags, bytes)),
                                  sent := l.client.sent + bytes)), port, data)
  {
    assert Payload(data) + [] == Payload(data);
    WrapAdd(1 + |l.client.sent|, |bytes|);
    assert bytes == [] ==> l.client.sent + bytes == l.client.sent;
  }

  lemma SendWritten(l: Link, port: u16, data: seq<Segment>)
    requires SendOk(l, port, data) && !l.client.job.Idle?
    ensures var s := l.client.job.s;
            SendOk(l.(client := l.client.(job := Idle)), port, data + if s.data != [] then [s] else [])
  {
    var s := l.client.job.s;
    if s.data != [] {
      SnocContiguous(data, s);
    } else {
      assert data + [] == data;
    }
    assert l.client.sent + [] == l.client.sent;
  }

  lemma {:induction false} SendStep(env: Streams, w: World, step: Step)
    requires SendInv(w) && Enabled(env, w, step)
    ensures SendInv(Next(env, w, step))
  {
    ReaderSendsNoData(env, w, step);
    forall p
      ensures SendOkAt(Next(env, w, step), p)
    {
      SendStepAt(env, w, step, p);
    }
  }

  lemma {:induction false} SendStepAt(env: Streams, w: World, step: Step, p: u16)
    requires SendInv(w) && Enabled(env, w, step)
    ensures SendOkAt(Next(env, w, step), p)
  {
    assert SendOkAt(w, p);
    if step.Write? && step.ok {
      WriteKeepsOrder(env, w, step.t, p);
    } else if p in w.links {
      LocalSendStep(env, w, step, p);
    }
  }

  lemma ReaderSendsNoData(env: Streams, w: World, step: Step)
    requires Enabled(env, w, step) && JobData(w.readerJob) == []
    ensures JobData(Next(env, w, step).readerJob) == []
  {
  }

  lemma {:induction false} WriteKeepsOrder(env: Streams, w: World, t: Thread, p: u16)
    requires SendInv(w) && Enabled(env, w, Write(t, true))
    ensures SendOkAt(Next(env, w, Write(t, true)), p)
  {
    assert SendOkAt(w, p);
    var job := JobOf(w, t);
    DataOnSnoc(w.wire, Wired(job.s, job.number, job.index), p);
    if t == ClientThread(p) {
      SendWritten(w.links[p], p, DataOn(w.wire, p));
    } else {
      WrittenElsewhere(w, t, p);
      assert DataOn(w.wire, p) + [] == DataOn(w.wire, p);
    }
  }

  /** What another thread writes is not data of this connection. */
  lemma WrittenElsewhere(w: World, t: Thread, p: u16)
    requires SendInv(w) && HasThread(w, t) && !JobOf(w, t).Idle? && t != ClientThread(p)
    ensures JobOf(w, t).s.port != p || JobOf(w, t).s.data == []
  {
    if t.ClientThread? {
      assert SendOkAt(w, t.port);
    }
  }

  lemma LocalSendStep(env: Streams, w: World, step: Step, p: u16)
    requires SendInv(w) && Enabled(env, w, step) && !(step.Write? && step.ok) && p in w.links
    ensures SendOkAt(Next(env, w, step), p)
  {
    assert SendOkAt(w, p);
    var data := DataOn(w.wire, p);
    if step.Arrive? && step.port == p {
      SendArrive(w.links[p], step.arrival, p, data);
    } else if step.StampClient? && step.port == p {
      StampStep(env, w, step, data);
    } else {
      OtherStep(env, w, step, p, data);
    }
  }

  lemma StampStep(env: Streams, w: World, step: Step, data: seq<Segment>)
    requires step.StampClient? && Enabled(env, w, step) && SendOk(w.links[step.port], step.port, data)
    ensures SendOk(Next(env, w, step).links[step.port], step.port, data)
  {
    SendStamp(w.links[step.port], step.port, step.flags, step.data, data);
  }

  lemma OtherStep(env: Streams, w: World, step: Step, p: u16, data: seq<Segment>)
    requires Enabled(env, w, step) && !(step.Write? && step.ok) && p in w.links && SendOk(w.links[p], p, data)
    requires !(step.Arrive? && step.port == p) && !(step.StampClient? && step.port == p)
    ensures SendOk(Next(env, w, step).links[p], p, data)
  {
    OtherStepsSendNothing(env, w, step, p);
    SendSame(w.links[p], Next(env, w, step).links[p], p, data);
  }

  /** The send side of a link is unchanged, except that a failed write or hand-over may end the client thread. */
  predicate SameSending(l: Link, l': Link) {
    && l'.conn.txSeq == l.conn.txSeq && l'.conn.connected == l.conn.connected && l'.client.sent == l.client.sent
    && (if l'.client.alive then l.client.job.Idle? == l'.client.job.Idle? else l'.client.job.Idle?)
    && (!l'.client.job.Idle? ==> l'.client.job.s == l.client.job.s)
  }

  lemma OtherStepsSendNothing(env: Streams, w: World, step: Step, p: u16)
    requires Enabled(env, w, step) && p in w.links && !(step.Write? && step.ok)
    requires !(step.Arrive? && step.port == p) && !(step.StampClient? && step.port == p)
    requires !w.links[p].client.alive ==> w.links[p].client.job.Idle?
    ensures SameSending(w.links[p], Next(env, w, step).links[p])
    ensures Next(env, w, step).links[p].client.alive ==> w.links[p].client.alive
  {
  }

  lemma SendSame(l: Link, l': Link, port: u16, data: seq<Segment>)
    requires SendOk(l, port, data) && SameSending(l, l') && (l'.client.alive ==> l.client.alive)
    ensures SendOk(l', port, data)
  {
  }

  // ------------------------------------------------------------------ Mux numbers

  ghost predicate NumberInv(w: World) {
    && w.txSeq == Wrap16(w.issued)
    && (forall i :: 0 <= i < |w.wire| ==> w.wire[i].index < w.issued && w.wire[i].number == Wrap16(w.wire[i].index))
    && (forall i, j :: 0 <= i < j < |w.wire| ==> w.wire[i].index != w.wire[j].index)
    && (forall t :: Holding(w, t) ==>
          JobOf(w, t).index < w.issued && JobOf(w, t).number == Wrap16(JobOf(w, t).index))
    && (forall t, i :: Holding(w, t) && 0 <= i < |w.wire| ==> JobOf(w, t).index != w.wire[i].index)
    && (forall t, u :: Holding(w, t) && Holding(w, u) && t != u ==> JobOf(w, t).index != JobOf(w, u).index)
  }

  /** The thread has a mux number it has not written yet. */
  predicate Holding(w: World, t: Thread) {
    HasThread(w, t) && JobOf(w, t).Numbered?
  }

  lemma JobStep(env: Streams, w: World, step: Step, t: Thread)
    requires Enabled(env, w, step)
    ensures Holding(Next(env, w, step), t) ==> JobCarried(env, w, step, t)
  {
  }

  /** No mux number is handed out twice, and none written is changed on the way. */
  lemma NumberStep(env: Streams, w: World, step: Step)
    requires NumberInv(w) && Enabled(env, w, step)
    ensures NumberInv(Next(env, w, step))
  {
    forall t
      ensures Holding(Next(env, w, step), t) ==> JobCarried(env, w, step, t)
    {
      JobStep(env, w, step, t);
    }
    if step.TakeNumber? {
      TakingKeepsNumbers(env, w, step.t);
    } else if step.Write? && step.ok {
      WritingKeepsNumbers(env, w, step.t);
    } else {
      OthersKeepNumbers(env, w, step);
    }
  }

  lemma OthersKeepNumbers(env: Streams, w: World, step: Step)
    requires NumberInv(w) && Enabled(env, w, step) && !step.TakeNumber? && !(step.Write? && step.ok)
    requires forall u :: Holding(Next(env, w, step), u) ==> JobCarried(env, w, step, u)
    ensures NumberInv(Next(env, w, step))
  {
  }

  /** A number held after the step was taken in it, or held before and not written in it. */
  ghost predicate JobCarried(env: Streams, w: World, step: Step, t: Thread)
    requires Enabled(env, w, step) && Holding(Next(env, w, step), t)
  {
    var w' := Next(env, w, step);
    if step == TakeNumber(t) then JobOf(w', t).index == w.issued && JobOf(w', t).number == w.txSeq
    else Holding(w, t) && JobOf(w', t) == JobOf(w, t) && !(step.Write? && step.t == t)
  }

  lemma TakingKeepsNumbers(env: Streams, w: World, t: Thread)
    requires NumberInv(w) && Enabled(env, w, TakeNumber(t))
    requires forall u :: Holding(Next(env, w, TakeNumber(t)), u) ==> JobCarried(env, w, TakeNumber(t), u)
    ensures NumberInv(Next(env, w, TakeNumber(t)))
  {
  }

  lemma WritingKeepsNumbers(env: Streams, w: World, t: Thread)
    requires NumberInv(w) && Enabled(env, w, Write(t, true))
    requires forall u :: Holding(Next(env, w, Write(t, true)), u) ==> JobCarried(env, w, Write(t, true), u)
    ensures NumberInv(Next(env, w, Write(t, true)))
  {
    var job := JobOf(w, t);
    assert Next(env, w, Write(t, true)).wire == w.wire + [Wired(job.s, job.number, job.index)];
  }

  // ------------------------------------------------------------------ All runs

  ghost predicate Inv(env: Streams, w: World) {
    ReceiveInv(env, w) && AckInv(env, w) && SendInv(w) && NumberInv(w)
  }

  lemma {:induction false} RunKeepsInv(env: Streams, w: World, run: seq<Step>)
    requires Inv(env, w) && Runnable(env, w, run)
    ensures Inv(env, Run(env, w, run))
    decreases |run|
  {
    if run != [] {
      ReceiveStep(env, w, run[0]);
      AckStep(env, w, run[0]);
      SendStep(env, w, run[0]);
      NumberStep(env, w, run[0]);
      RunKeepsInv(env, Next(env, w, run[0]), run[1..]);
    }
  }

  ghost predicate ValidStreams(env: Streams) {
    forall p :: p in env ==> ValidStream(env[p])
  }

  lemma InitInv(env: Streams, issued: nat)
    requires ValidStreams(env)
    ensures Inv(env, Init(issued))
  {
  }

  /**
   * Whatever the interleaving, stale stamps written late included: no ACK on the wire covers a byte that is not already
   * delivered in order.
   */
  lemma {:induction false} AcksNeverRunAhead(env: Streams, issued: nat, run: seq<Step>, i: nat)
    requires ValidStreams(env) && Runnable(env, Init(issued), run)
    requires i < |Run(env, Init(issued), run).wire| && Run(env, Init(issued), run).wire[i].s.flags == ACK
    ensures var w := Run(env, Init(issued), run); var s := w.wire[i].s;
            && s.port in w.links && s.port in env
            && s.ackNo == Key(env[s.port], s.covers) && s.covers <= |Delivered(w.links[s.port])|
  {
    InitInv(env, issued);
    RunKeepsInv(env, Init(issued), run);
  }

  /**
   * Nothing received is lost, repeated or reordered: written to the client ++ taken ++ inbox is always the reassembled
   * prefix.
   */
  lemma {:induction false} DeliveryIsConserved(env: Streams, issued: nat, run: seq<Step>, p: u16)
    requires ValidStreams(env) && Runnable(env, Init(issued), run) && p in Run(env, Init(issued), run).links
    ensures var l := Run(env, Init(issued), run).links[p];
            && p in env && Frontier(l.arrived, 0) <= |env[p].segments|
            && l.client.out + l.client.taken + l.conn.inbox == Prefix(env[p], Frontier(l.arrived, 0))
            && (l.conn.connected ==> l.conn.txAck == Key(env[p], |Delivered(l)|))
  {
    InitInv(env, issued);
    RunKeepsInv(env, Init(issued), run);
    LinkOkMeans(env[p], Run(env, Init(issued), run).links[p]);
  }

  lemma LinkOkMeans(st: Stream, l: Link)
    requires LinkOk(st, l)
    ensures Frontier(l.arrived, 0) <= |st.segments|
    ensures Delivered(l) == Prefix(st, Frontier(l.arrived, 0))
    ensures l.conn.connected ==> l.conn.txAck == Key(st, |Delivered(l)|)
  {
  }

  lemma WhenIdle(l: Link, port: u16, data: seq<Segment>)
    requires SendOk(l, port, data) && l.client.alive && l.client.job.Idle?
    ensures Payload(data) == l.client.sent
  {
    assert Payload(data) + [] == Payload(data);
  }

  /**
   * Whatever ACKs the reader interleaves, a connection's data reaches the writer in the order it was read from the
   * client.
   */
  lemma {:induction false} SendOrderIsKept(env: Streams, issued: nat, run: seq<Step>, p: u16)
    requires ValidStreams(env) && Runnable(env, Init(issued), run) && p in Run(env, Init(issued), run).links
    ensures var w := Run(env, Init(issued), run); var client := w.links[p].client; var data := DataOn(w.wire, p);
            && Contiguous(data) && Payload(data) <= client.sent
            && (client.alive && client.job.Idle? ==> Payload(data) == client.sent)
  {
    InitInv(env, issued);
    RunKeepsInv(env, Init(issued), run);
    var w := Run(env, Init(issued), run);
    assert SendOkAt(w, p);
    if w.links[p].client.alive && w.links[p].client.job.Idle? {
      WhenIdle(w.links[p], p, DataOn(w.wire, p));
    }
  }

  /** Any two packets written within 65536 allocations of each other carry different mux numbers. */
  lemma {:induction false} NumbersDiffer(env: Streams, issued: nat, run: seq<Step>, i: nat, j: nat)
    requires ValidStreams(env) && Runnable(env, Init(issued), run)
    requires var wire := Run(env, Init(issued), run).wire;
             i < j < |wire| && -0x1_0000 < wire[i].index - wire[j].index < 0x1_0000
    ensures var wire := Run(env, Init(issued), run).wire; wire[i].number != wire[j].number
  {
    InitInv(env, issued);
    RunKeepsInv(env, Init(issued), run);
    NearNumbersDiffer(Run(env, Init(issued), run), i, j);
  }

  lemma NearNumbersDiffer(w: World, i: nat, j: nat)
    requires NumberInv(w) && i < j < |w.wire|
    requires -0x1_0000 < w.wire[i].index - w.wire[j].index < 0x1_0000
    ensures w.wire[i].number != w.wire[j].number
  {
  }

  // ------------------------------------------------------------------ The bytes behind a step

  /** The segment as the receiver of its packet reads it. */
  function Read(s: Segment, dport: u16): TcpSegment {
    TcpSegment(s.port, dport, s.seqNo, s.ackNo, s.flags, TX_WINDOW, s.data)
  }

  /** What a client thread stamps is what `send_tcp` puts on the wire, and the connection moves on alike. */
  lemma {:induction false} StampIsSent(env: Streams, w: World, m: Mux, port: u16, flags: byte, data: Bytes)
    requires Enabled(env, w, StampClient(port, flags, data)) && |data| < 0xFFFF_0000
    requires port in m.conns && m.conns[port] == w.links[port].conn && m.conns[port].sport == port
    ensures var w' := Next(env, w, StampClient(port, flags, data)).links[port];
            var m' := SendTcp(m, port, flags, data);
            && w'.client.job.Stamped? && port in m'.conns && m'.conns[port] == w'.conn
            && OneMore(m, m')
            && OnWire(m.version, m'.wire[|m.wire|], m.txSeq, Read(w'.client.job.s, m.conns[port].dport))
  {
    ClientStamps(env, w, port, flags, data);
    SegmentOnWire(m, port, flags, data);
  }

  lemma {:induction false} ClientStamps(env: Streams, w: World, port: u16, flags: byte, data: Bytes)
    requires Enabled(env, w, StampClient(port, flags, data))
    ensures var l, l' := w.links[port], Next(env, w, StampClient(port, flags, data)).links[port];
            && l'.client.job == Stamped(Stamp(port, l, flags, data))
            && l'.conn == l.conn.(txSeq := Wrap32(l.conn.txSeq as int + |data|))
  {
  }

  /** What the reader stamps in answer to an arrival is what `feed_tcp` answers. */
  lemma {:induction false} AnswerIsSent(m: Mux, l: Link, a: Arrival, port: u16)
    requires port in m.conns && m.conns[port] == l.conn && l.conn.sport == port && a.segment.dport == port
    requires Answers(l.conn, a.segment)
    ensures var m' := Handle(m, a.segment);
            && port in m'.conns && m'.conns[port] == Absorb(l, a).conn
            && OneMore(m, m')
            && OnWire(m.version, m'.wire[|m.wire|], m.txSeq, Read(Stamp(port, Absorb(l, a), ACK, []), l.conn.dport))
  {
    AnswerOnWire(m, a.segment);
  }

  /** The packet of a written segment, at version 2. */
  function PacketBytes(x: Wired, dport: u16): Bytes {
    EncodePacket(2, PROTO_TCP, EncodeTcp(x.s.port, dport, x.s.seqNo, x.s.ackNo, x.s.flags, x.s.data), x.number)
  }

  lemma {:induction false} PacketBytesRead(x: Wired, dport: u16)
    requires |x.s.data| < 0xFFFF_0000
    ensures OnWire(2, PacketBytes(x, dport), x.number, Read(x.s, dport))
  {
    var body := EncodeTcp(x.s.port, dport, x.s.seqNo, x.s.ackNo, x.s.flags, x.s.data);
    RustBodyRoundTrip(x.s.port, dport, x.s.seqNo, x.s.ackNo, x.s.flags, x.s.data);
    DecodersAgree(body);
    PacketEncodersAgree(2, PROTO_TCP, body, x.number);
    MuxRoundTrip(2, PROTO_TCP, body, x.number, 0xFFFF);
  }

  /** In every interleaving, the bytes of an ACK acknowledge only what has been delivered in order. */
  lemma {:induction false} AckBytesNeverRunAhead(env: Streams, issued: nat, run: seq<Step>, i: nat, dport: u16)
    requires ValidStreams(env) && Runnable(env, Init(issued), run)
    requires i < |Run(env, Init(issued), run).wire|
    requires var s := Run(env, Init(issued), run).wire[i].s; s.flags == ACK && |s.data| < 0xFFFF_0000
    ensures var w := Run(env, Init(issued), run);
            var x := w.wire[i];
            && x.s.port in w.links && x.s.port in env && |PacketBytes(x, dport)| >= 8
            && SplitPacket(2, PacketBytes(x, dport)).Some?
            && var read := DecodeTcp(SplitPacket(2, PacketBytes(x, dport)).value.body);
               && read.Some? && x.s.covers <= |Delivered(w.links[x.s.port])|
               && read.value.ackNo == Key(env[x.s.port], x.s.covers)
  {
    AcksNeverRunAhead(env, issued, run, i);
    PacketBytesRead(Run(env, Init(issued), run).wire[i], dport);
  }

  // ------------------------------------------------------------------ Order of mux numbers on the wire

  predicate InNumberOrder(wire: seq<Wired>) {
    forall i, j :: 0 <= i < j < |wire| ==> wire[i].index < wire[j].index
  }

  /** No thread still holds a number lower than one already written. */
  ghost predicate NoneOvertaken(w: World) {
    forall t, i :: Holding(w, t) && 0 <= i < |w.wire| ==> w.wire[i].index < JobOf(w, t).index
  }

  /** The thread holds the lowest number not yet written. */
  ghost predicate HoldsLowest(w: World, t: Thread)
    requires Holding(w, t)
  {
    forall u :: Holding(w, u) && u != t ==> JobOf(w, t).index < JobOf(w, u).index
  }

  /**
   * The exact condition for number order: a write keeps it, but leaves no later write able to break it only if the
   * writing thread holds the lowest number out; an overtaken thread's own write breaks it.
   */
  lemma NumberOrderStep(env: Streams, w: World, t: Thread)
    requires NumberInv(w) && InNumberOrder(w.wire) && Enabled(env, w, Write(t, true))
    ensures var w' := Next(env, w, Write(t, true));
            && (InNumberOrder(w'.wire) <==> forall i :: 0 <= i < |w.wire| ==> w.wire[i].index < JobOf(w, t).index)
            && (NoneOvertaken(w) ==> InNumberOrder(w'.wire) && (NoneOvertaken(w') <==> HoldsLowest(w, t)))
  {
    var w' := Next(env, w, Write(t, true));
    var job := JobOf(w, t);
    var x := Wired(job.s, job.number, job.index);
    assert w'.wire == w.wire + [x];
    forall i | 0 <= i < |w.wire|
      ensures InNumberOrder(w'.wire) ==> w.wire[i].index < job.index
    {
      assert w'.wire[i] == w.wire[i] && w'.wire[|w.wire|] == x;
    }
    forall u
      ensures Holding(w', u) <==> Holding(w, u) && u != t
      ensures Holding(w', u) ==> JobOf(w', u) == JobOf(w, u)
    {
    }
    if NoneOvertaken(w) && NoneOvertaken(w') {
      forall u | Holding(w, u) && u != t
        ensures job.index < JobOf(w, u).index
      {
        assert Holding(w', u) && w'.wire[|w.wire|] == x;
      }
    }
  }

  /** Whichever thread writes next, the numbers stay in order. */
  ghost predicate AnyWriteInOrder(env: Streams, w: World) {
    forall u :: Enabled(env, w, Write(u, true)) ==> InNumberOrder(Next(env, w, Write(u, true)).wire)
  }

  lemma {:induction false} AnyWriteMeans(env: Streams, w: World)
    requires NumberInv(w) && InNumberOrder(w.wire)
    ensures AnyWriteInOrder(env, w) <==> NoneOvertaken(w)
  {
    forall u | Holding(w, u)
      ensures Enabled(env, w, Write(u, true))
      ensures InNumberOrder(Next(env, w, Write(u, true)).wire) <==>
              forall i :: 0 <= i < |w.wire| ==> w.wire[i].index < JobOf(w, u).index
    {
      NumberOrderStep(env, w, u);
    }
  }

  /** Every write of the run is made by the thread that holds the lowest number out. */
  ghost predicate LowestFirst(env: Streams, w: World, run: seq<Step>)
    requires Runnable(env, w, run)
    decreases |run|
  {
    run == [] ||
    ((run[0].Write? && run[0].ok ==> HoldsLowest(w, run[0].t)) && LowestFirst(env, Next(env, w, run[0]), run[1..]))
  }

  /** At every moment of the run any write would keep the numbers in order. */
  ghost predicate StaysInOrder(env: Streams, w: World, run: seq<Step>)
    requires Runnable(env, w, run)
    decreases |run|
  {
    AnyWriteInOrder(env, w) && (run == [] || StaysInOrder(env, Next(env, w, run[0]), run[1..]))
  }

  lemma {:induction false} OthersOvertakeNone(env: Streams, w: World, step: Step)
    requires NumberInv(w) && NoneOvertaken(w) && Enabled(env, w, step) && !(step.Write? && step.ok)
    ensures NoneOvertaken(Next(env, w, step))
  {
    forall t
      ensures Holding(Next(env, w, step), t) ==> JobCarried(env, w, step, t)
    {
      JobStep(env, w, step, t);
    }
  }

  /**
   * Over whole runs: the numbers are on the wire in order, whatever any thread writes next, exactly as long as every
   * write is made by the thread that holds the lowest number. One write by another lets an overtaken thread break it.
   */
  lemma {:induction false} NumberOrderRun(env: Streams, w: World, run: seq<Step>)
    requires NumberInv(w) && InNumberOrder(w.wire) && NoneOvertaken(w) && Runnable(env, w, run)
    ensures LowestFirst(env, w, run) <==> StaysInOrder(env, w, run)
    ensures LowestFirst(env, w, run) ==> InNumberOrder(Run(env, w, run).wire)
    decreases |run|
  {
    AnyWriteMeans(env, w);
    if run != [] {
      var step, w' := run[0], Next(env, w, run[0]);
      NumberStep(env, w, step);
      if step.Write? && step.ok {
        NumberOrderStep(env, w, step.t);
        AnyWriteMeans(env, w');
        if NoneOvertaken(w') {
          NumberOrderRun(env, w', run[1..]);
        }
      } else {
        OthersOvertakeNone(env, w, step);
        NumberOrderRun(env, w', run[1..]);
      }
    }
  }

  lemma {:induction false} NumberOrderFromStart(env: Streams, issued: nat, run: seq<Step>)
    requires Runnable(env, Init(issued), run)
    ensures LowestFirst(env, Init(issued), run) <==> StaysInOrder(env, Init(issued), run)
    ensures LowestFirst(env, Init(issued), run) ==> InNumberOrder(Run(env, Init(issued), run).wire)
  {
    NumberOrderRun(env, Init(issued), run);
  }

  // ------------------------------------------------------------------ A run that swaps two numbers

  /** Connections 1 and 2 are open, nothing is on the wire, and the next mux number is the `issued`-th. */
  predicate TwoLinks(w: World, issued: nat) {
    1 in w.links && 2 in w.links && w.wire == [] && w.issued == issued && w.txSeq == Wrap16(issued)
  }

  lemma {:induction false} TwoSteps(env: Streams, w: World, a: Step, b: Step)
    requires Enabled(env, w, a) && Enabled(env, Next(env, w, a), b)
    ensures Runnable(env, w, [a, b]) && Run(env, w, [a, b]) == Next(env, Next(env, w, a), b)
  {
    RunStep(env, Next(env, w, a), b, []);
    RunStep(env, w, a, [b]);
    assert [a] + [b] == [a, b] && [b] + [] == [b];
  }

  lemma {:induction false} OpenBoth(env: Streams, issued: nat) returns (run: seq<Step>)
    requires 1 in env && 2 in env
    ensures Runnable(env, Init(issued), run) && TwoLinks(Run(env, Init(issued), run), issued)
    ensures var links := Run(env, Init(issued), run).links;
            links[1].client.alive && links[1].client.job.Idle? && links[2].client.alive && links[2].client.job.Idle?
  {
    run := [Open(1, 62078), Open(2, 62078)];
    TwoSteps(env, Init(issued), run[0], run[1]);
  }

  lemma {:induction false} StampBoth(env: Streams, w: World, issued: nat) returns (run: seq<Step>)
    requires TwoLinks(w, issued)
    requires w.links[1].client.alive && w.links[1].client.job.Idle?
      && w.links[2].client.alive && w.links[2].client.job.Idle?
    ensures Runnable(env, w, run) && TwoLinks(Run(env, w, run), issued)
    ensures var links := Run(env, w, run).links; links[1].client.job.Stamped? && links[2].client.job.Stamped?
  {
    run := [StampClient(1, SYN, []), StampClient(2, SYN, [])];
    TwoSteps(env, w, run[0], run[1]);
  }

  lemma {:induction false} TakeBoth(env: Streams, w: World, issued: nat) returns (run: seq<Step>)
    requires TwoLinks(w, issued) && w.links[1].client.job.Stamped? && w.links[2].client.job.Stamped?
    ensures Runnable(env, w, run)
    ensures var w' := Run(env, w, run);
            && 1 in w'.links && 2 in w'.links && w'.wire == []
            && w'.links[1].client.job == Numbered(w.links[1].client.job.s, Wrap16(issued), issued)
            && w'.links[2].client.job == Numbered(w.links[2].client.job.s, Wrap16(issued + 1), issued + 1)
  {
    run := [TakeNumber(ClientThread(1)), TakeNumber(ClientThread(2))];
    TwoSteps(env, w, run[0], run[1]);
  }

  lemma {:induction false} WriteBoth(env: Streams, w: World) returns (run: seq<Step>)
    requires 1 in w.links && 2 in w.links && w.wire == []
    requires w.links[1].client.job.Numbered? && w.links[2].client.job.Numbered?
    ensures Runnable(env, w, run)
    ensures var wire := Run(env, w, run).wire; var a, b := w.links[1].client.job, w.links[2].client.job;
            wire == [Wired(b.s, b.number, b.index), Wired(a.s, a.number, a.index)]
  {
    run := [Write(ClientThread(2), true), Write(ClientThread(1), true)];
    TwoSteps(env, w, run[0], run[1]);
  }

  predicate Swapped(wire: seq<Wired>, issued: nat) {
    |wire| == 2 && wire[0].number == Wrap16(issued + 1) && wire[1].number == Wrap16(issued)
  }

  lemma {:induction false} SwapFromStamped(env: Streams, w: World, issued: nat) returns (run: seq<Step>)
    requires TwoLinks(w, issued) && w.links[1].client.job.Stamped? && w.links[2].client.job.Stamped?
    ensures Runnable(env, w, run) && Swapped(Run(env, w, run).wire, issued)
  {
    var taking := TakeBoth(env, w, issued);
    var writing := WriteBoth(env, Run(env, w, taking));
    RunAppend(env, w, taking, writing);
    run := taking + writing;
  }

  lemma {:induction false} SwapFromOpen(env: Streams, w: World, issued: nat) returns (run: seq<Step>)
    requires TwoLinks(w, issued)
    requires w.links[1].client.alive && w.links[1].client.job.Idle?
      && w.links[2].client.alive && w.links[2].client.job.Idle?
    ensures Runnable(env, w, run) && Swapped(Run(env, w, run).wire, issued)
  {
    var stamping := StampBoth(env, w, issued);
    var rest := SwapFromStamped(env, Run(env, w, stamping), issued);
    RunAppend(env, w, stamping, rest);
    run := stamping + rest;
  }

  /** Two connections opening at once can put their SYNs on the wire with the next two mux numbers swapped. */
  lemma {:induction false} NumbersCanBeSwapped(env: Streams, issued: nat)
    requires 1 in env && 2 in env
    ensures exists run :: Runnable(env, Init(issued), run) && Swapped(Run(env, Init(issued), run).wire, issued)
  {
    var opening := OpenBoth(env, issued);
    var rest := SwapFromOpen(env, Run(env, Init(issued), opening), issued);
    RunAppend(env, Init(issued), opening, rest);
  }

  lemma {:induction false} RunAppend(env: Streams, w: World, first: seq<Step>, second: seq<Step>)
    requires Runnable(env, w, first) && Runnable(env, Run(env, w, first), second)
    ensures Runnable(env, w, first + second)
    ensures Run(env, w, first + second) == Run(env, Run(env, w, first), second)
    decreases |first|
  {
    if first == [] {
      assert first + second == second;
    } else {
      Uncons(first, second);
      RunAppend(env, Next(env, w, first[0]), first[1..], second);
    }
  }

  lemma RunStep(env: Streams, w: World, step: Step, rest: seq<Step>)
    requires Enabled(env, w, step) && Runnable(env, Next(env, w, step), rest)
    ensures Runnable(env, w, [step] + rest)
    ensures Run(env, w, [step] + rest) == Run(env, Next(env, w, step), rest)
  {
    assert ([step] + rest)[1..] == rest;
  }
}
