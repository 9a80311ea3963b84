// The Python device session: mux numbering under one lock, the VERSION/SETUP handshake across threads, and local ports.
module PyDevice {
  import opened Words
  import opened Codec

  /** A packet handed to the USB writer; `numbered` tells version-2 packets, the only ones that carry mux numbers. */
  datatype Sent = Sent(numbered: bool, packet: Bytes)

  /** The protocol, as the packet's own bytes have it. */
  function Proto(x: Sent): u32 {
    if |x.packet| < 8 then 0 else FromBe32(x.packet[..4])
  }

  /** The packet's own mux number, as the bytes of a version-2 header have it. */
  function Tx(x: Sent): u16 {
    if |x.packet| < 16 then 0 else FromBe16(x.packet[12..14])
  }

  /** The number of the last packet received, from the same header. */
  function Rx(x: Sent): u16 {
    if |x.packet| < 16 then 0 else FromBe16(x.packet[14..16])
  }

  datatype Dev = Dev(version: nat, txSeq: u16, rxSeq: u16, log: seq<Sent>)

  /** `_send_packet`: a version-2 packet takes the next number even if it then turns out too long to write. */
  function AfterSend(d: Dev, proto: u32, payload: Bytes): Dev
    requires |payload| < 0xFFFF_FFF0
  {
    var d' := if d.version >= 2 && proto == PROTO_SETUP then d.(txSeq := 0, rxSeq := 0xFFFF) else d;
    var packet := BuildMuxPacket(if d.version >= 2 then 2 else 1, proto, payload, d'.txSeq, d'.rxSeq);
    var sent := Sent(d.version >= 2, packet);
    d'.(txSeq := if d.version >= 2 then Wrap16(d'.txSeq as int + 1) else d'.txSeq,
        log := if |packet| <= USB_MTU then d'.log + [sent] else d'.log)
  }

  // ------------------------------------------------------------------ Numbering

  /** How many version-2 packets the log holds since the last SETUP, that one included. */
  function SinceSetup(log: seq<Sent>): nat {
    if log == [] then 0 else
    var before, last := log[..|log| - 1], log[|log| - 1];
    if !last.numbered then SinceSetup(before)
    else if Proto(last) == PROTO_SETUP then 1
    else SinceSetup(before) + 1
  }

  /**
   * Each version-2 packet carries the number of version-2 packets since the last SETUP, modulo 2^16; SETUP carries (0,
   * 0xFFFF).
   */
  predicate WellNumbered(log: seq<Sent>) {
    forall i :: 0 <= i < |log| && log[i].numbered ==>
      if Proto(log[i]) == PROTO_SETUP then Tx(log[i]) == 0 && Rx(log[i]) == 0xFFFF
      else Tx(log[i]) == Wrap16(SinceSetup(log[..i]))
  }

  predicate NumberInv(d: Dev) {
    WellNumbered(d.log) && d.txSeq == Wrap16(SinceSetup(d.log))
  }

  /** The number the next packet must carry if the log is to stay well numbered. */
  predicate NextFits(log: seq<Sent>, x: Sent) {
    x.numbered ==>
      if Proto(x) == PROTO_SETUP then Tx(x) == 0 && Rx(x) == 0xFFFF else Tx(x) == Wrap16(SinceSetup(log))
  }

  lemma NumberedSnoc(log: seq<Sent>, x: Sent)
    requires WellNumbered(log) && NextFits(log, x)
    ensures WellNumbered(log + [x])
    ensures SinceSetup(log + [x]) ==
            if !x.numbered then SinceSetup(log) else if Proto(x) == PROTO_SETUP then 1 else SinceSetup(log) + 1
  {
    var more := log + [x];
    assert more[..|log|] == log;
    forall i | 0 <= i < |more| && more[i].numbered
      ensures if Proto(more[i]) == PROTO_SETUP then Tx(more[i]) == 0 && Rx(more[i]) == 0xFFFF
              else Tx(more[i]) == Wrap16(SinceSetup(more[..i]))
    {
      if i < |log| {
        assert more[..i] == log[..i];
      }
    }
  }

  /** The packet fits the MTU with the header of the current version. */
  predicate FitsMtu(d: Dev, payload: Bytes) {
    |payload| <= USB_MTU - if d.version >= 2 then 16 else 8
  }

  /**
   * The numbering survives exactly if the packet is written, or is a short-header one, or the number lost is SETUP's
   * own.
   */
  lemma NumberingStep(d: Dev, proto: u32, payload: Bytes)
    requires NumberInv(d) && |payload| < 0xFFFF_FFF0
    ensures NumberInv(AfterSend(d, proto, payload)) <==>
            FitsMtu(d, payload) || d.version < 2 || (proto == PROTO_SETUP && d.txSeq == 1)
  {
    if FitsMtu(d, payload) {
      WrittenKeepsNumbers(d, proto, payload);
    } else {
      assert AfterSend(d, proto, payload).log == d.log;
    }
  }

  lemma {:induction false} WrittenKeepsNumbers(d: Dev, proto: u32, payload: Bytes)
    requires NumberInv(d) && FitsMtu(d, payload)
    ensures NumberInv(AfterSend(d, proto, payload))
  {
    var x := WrittenEntry(d, proto, payload);
    NumberInvSnoc(d, AfterSend(d, proto, payload), x);
  }

  /** What is written: protocol and payload as given, the number that was next, and the last one received. */
  lemma {:induction false} WrittenBytes(d: Dev, proto: u32, payload: Bytes) returns (x: Sent)
    requires FitsMtu(d, payload)
    ensures AfterSend(d, proto, payload).log == d.log + [x]
    ensures x.numbered == (d.version >= 2) && Proto(x) == proto && |x.packet| >= 8
    ensures SplitPacket(if x.numbered then 2 else 1, x.packet) == Some(MuxFrame(proto, payload))
    ensures x.numbered ==> Tx(x) == (if proto == PROTO_SETUP then 0 else d.txSeq)
    ensures x.numbered ==> Rx(x) == (if proto == PROTO_SETUP then 0xFFFF else d.rxSeq)
    ensures AfterSend(d, proto, payload).txSeq == if x.numbered then Wrap16(Tx(x) as int + 1) else d.txSeq
  {
    var reset := d.version >= 2 && proto == PROTO_SETUP;
    x := Entry(d.version >= 2, proto, payload, if reset then 0 else d.txSeq, if reset then 0xFFFF else d.rxSeq);
    EntryBytes(d.version >= 2, proto, payload, if reset then 0 else d.txSeq, if reset then 0xFFFF else d.rxSeq);
  }

  function Entry(numbered: bool, proto: u32, payload: Bytes, tx: u16, rx: u16): Sent
    requires |payload| < 0xFFFF_FFF0
  {
    Sent(numbered, BuildMuxPacket(if numbered then 2 else 1, proto, payload, tx, rx))
  }

  lemma {:induction false} EntryBytes(numbered: bool, proto: u32, payload: Bytes, tx: u16, rx: u16)
    requires |payload| < 0xFFFF_FFF0
    ensures var x := Entry(numbered, proto, payload, tx, rx);
            && |x.packet| == (if numbered then 16 else 8) + |payload|
            && SplitPacket(if numbered then 2 else 1, x.packet) == Some(MuxFrame(proto, payload))
            && Proto(x) == proto && (numbered ==> Tx(x) == tx && Rx(x) == rx)
  {
    MuxRoundTrip(if numbered then 2 else 1, proto, payload, tx, rx);
    assert Wrap16(tx) == tx && Wrap16(rx) == rx;
  }

  lemma {:induction false} WrittenEntry(d: Dev, proto: u32, payload: Bytes) returns (x: Sent)
    requires NumberInv(d) && FitsMtu(d, payload)
    ensures var d' := AfterSend(d, proto, payload);
            && d'.log == d.log + [x] && d'.txSeq == (if x.numbered then Wrap16(Tx(x) as int + 1) else d.txSeq)
    ensures NextFits(d.log, x) && x.numbered == (d.version >= 2) && Proto(x) == proto
  {
    x := WrittenBytes(d, proto, payload);
  }

  lemma NumberInvSnoc(d: Dev, d': Dev, x: Sent)
    requires NumberInv(d) && d'.log == d.log + [x] && NextFits(d.log, x)
    requires d'.txSeq == if x.numbered then Wrap16(Tx(x) as int + 1) else d.txSeq
    ensures NumberInv(d')
  {
    NumberedSnoc(d.log, x);
    WrapNext(SinceSetup(d.log));
  }

  lemma WrapNext(n: nat)
    ensures Wrap16(Wrap16(n) as int + 1) == Wrap16(n + 1)
  {
  }

  // ------------------------------------------------------------------ Threads and the handshake

  /** Where the reader thread is inside the handling of a VERSION packet. */
  datatype ReaderAt = Reading | MustSetup | MustSetReady

  /** `started`: the host's own VERSION packet is out. The reader thread already runs before that. */
  datatype Session = Session(dev: Dev, at: ReaderAt, ready: bool, started: bool)

  datatype Step =
    | HostVersion                          // `start`, called once
    | VersionArrives(major: nat)           // the reader stores the version
    | ReaderSetup                          // ... sends SETUP if it is at least 2
    | ReaderReady                          // ... and sets `ready`
    | PacketArrives(rx: u16)               // any other packet: a version-2 one overwrites `rx_seq`
    | ReaderSends(payload: Bytes)          // ACK or RST replies
    | ClientSends(payload: Bytes)          // any thread past `connect`'s wait for `ready`

  predicate Enabled(s: Session, step: Step) {
    match step
    case HostVersion => !s.started
    case VersionArrives(major) => s.at.Reading? && (major == 1 || major == 2)
    case ReaderSetup => s.at.MustSetup?
    case ReaderReady => s.at.MustSetReady?
    case PacketArrives(_) => s.at.Reading?
    case ReaderSends(payload) => s.at.Reading? && |payload| <= USB_MTU - 16
    case ClientSends(payload) => s.ready && |payload| <= USB_MTU - 16
  }

  function Next(s: Session, step: Step): Session
    requires Enabled(s, step)
  {
    match step
    case HostVersion => s.(dev := AfterSend(s.dev, PROTO_VERSION, VersionPayload(2, 0)), started := true)
    case VersionArrives(major) =>
      s.(dev := s.dev.(version := major), at := if major >= 2 then MustSetup else MustSetReady)
    case ReaderSetup => s.(dev := AfterSend(s.dev, PROTO_SETUP, [7]), at := MustSetReady)
    case ReaderReady => s.(at := Reading, ready := true)
    case PacketArrives(rx) => if s.dev.version >= 2 then s.(dev := s.dev.(rxSeq := rx)) else s
    case ReaderSends(payload) => s.(dev := AfterSend(s.dev, PROTO_TCP, payload))
    case ClientSends(payload) => s.(dev := AfterSend(s.dev, PROTO_TCP, payload))
  }

  function Init(): Session {
    Session(Dev(0, 0, 0, []), Reading, false, false)
  }

  predicate Runnable(s: Session, run: seq<Step>)
    decreases |run|
  {
    run == [] || (Enabled(s, run[0]) && Runnable(Next(s, run[0]), run[1..]))
  }

  function Run(s: Session, run: seq<Step>): Session
    requires Runnable(s, run)
    decreases |run|
  {
    if run == [] then s else Run(Next(s, run[0]), run[1..])
  }

  lemma {:induction false} NumberingRun(s: Session, run: seq<Step>)
    requires NumberInv(s.dev) && Runnable(s, run)
    ensures NumberInv(Run(s, run).dev)
    decreases |run|
  {
    if run != [] {
      match run[0] {
        case HostVersion => NumberingStep(s.dev, PROTO_VERSION, VersionPayload(2, 0));
        case ReaderSetup => NumberingStep(s.dev, PROTO_SETUP, [7]);
        case ReaderSends(payload) => NumberingStep(s.dev, PROTO_TCP, payload);
        case ClientSends(payload) => NumberingStep(s.dev, PROTO_TCP, payload);
        case _ =>
      }
      NumberingRun(Next(s, run[0]), run[1..]);
    }
  }

  /** Across all threads: the k-th version-2 packet after a SETUP carries k modulo 65536, until the next SETUP. */
  lemma EveryNumberIsRight(run: seq<Step>)
    requires Runnable(Init(), run)
    ensures WellNumbered(Run(Init(), run).dev.log)
  {
    NumberingRun(Init(), run);
  }

  /** The next version-2 packet a client or the reader sends names the last one received. */
  lemma {:induction false} NamesLastReceived(s: Session, rx: u16, payload: Bytes)
    requires s.at.Reading? && s.dev.version >= 2 && |payload| <= USB_MTU - 16
    ensures var d := Next(s, PacketArrives(rx)).dev;
            var log := AfterSend(d, PROTO_TCP, payload).log;
            && |log| == |s.dev.log| + 1 && log[|s.dev.log|].numbered && Rx(log[|s.dev.log|]) == rx
  {
    var x := WrittenBytes(Next(s, PacketArrives(rx)).dev, PROTO_TCP, payload);
  }

  /** The first version-2 packet of the log, if there is one, is SETUP with numbers (0, 0xFFFF). */
  predicate SetupFirst(log: seq<Sent>) {
    if log == [] then true
    else if log[0].numbered then Proto(log[0]) == PROTO_SETUP && Tx(log[0]) == 0 && Rx(log[0]) == 0xFFFF
    else SetupFirst(log[1..])
  }

  predicate AnyNumbered(log: seq<Sent>) {
    exists i :: 0 <= i < |log| && log[i].numbered
  }

  lemma {:induction false} SetupFirstSnoc(log: seq<Sent>, x: Sent)
    requires SetupFirst(log)
    requires AnyNumbered(log) || !x.numbered || (Proto(x) == PROTO_SETUP && Tx(x) == 0 && Rx(x) == 0xFFFF)
    ensures SetupFirst(log + [x]) && (AnyNumbered(log) || x.numbered ==> AnyNumbered(log + [x]))
  {
    if log == [] {
      assert log + [x] == [x] && [x][1..] == log;
      assert x.numbered ==> [x][0].numbered;
    } else {
      Uncons(log, [x]);
      if !log[0].numbered {
        if AnyNumbered(log) {
          var i :| 0 <= i < |log| && log[i].numbered;
          assert log[1..][i - 1].numbered;
        }
        SetupFirstSnoc(log[1..], x);
      }
      if AnyNumbered(log) || x.numbered {
        var i :| 0 <= i <= |log| && (log + [x])[i].numbered;
      }
    }
  }

  /** The major numbers of the device's VERSION packets, in order. */
  function Majors(run: seq<Step>): seq<nat> {
    if run == [] then []
    else (if run[0].VersionArrives? then [run[0].major] else []) + Majors(run[1..])
  }

  /** The device answers: its first VERSION comes after the host's. */
  predicate AnswersOnly(run: seq<Step>) {
    run == [] || run[0].HostVersion? || (!run[0].VersionArrives? && AnswersOnly(run[1..]))
  }

  predicate Versions(v: seq<nat>) {
    forall i :: 0 <= i < |v| ==> v[i] == 1 || v[i] == 2
  }

  /**
   * Until SETUP is out, either the version is below 2, or the reader is about to send SETUP and no one else can send;
   * `first`: version 2 has come or is to come before any client may send.
   */
  ghost predicate HandshakeInv(s: Session) {
    && SetupFirst(s.dev.log)
    && (s.at.MustSetup? ==> s.dev.version == 2)
    && (AnyNumbered(s.dev.log) ||
        if s.at.MustSetup? then s.started && !s.ready else s.dev.version < 2)
  }

  /** What is still to come cannot break it: SETUP is out or comes next, or 2 is first or never announced. */
  predicate Harmless(s: Session, run: seq<Step>) {
    AnyNumbered(s.dev.log) || s.at.MustSetup? || 2 !in Majors(run) ||
    (!s.ready && s.at.Reading? && Majors(run)[0] == 2 && (s.started || AnswersOnly(run)))
  }

  lemma HandshakeStep(s: Session, step: Step)
    requires HandshakeInv(s) && Enabled(s, step)
    requires step.VersionArrives? && step.major == 2 ==> AnyNumbered(s.dev.log) || (s.started && !s.ready)
    ensures HandshakeInv(Next(s, step))
    ensures AnyNumbered(s.dev.log) ==> AnyNumbered(Next(s, step).dev.log)
  {
    var s' := Next(s, step);
    if step.HostVersion? || step.ReaderSetup? || step.ReaderSends? || step.ClientSends? {
      SetupFirstSnoc(s.dev.log, s'.dev.log[|s.dev.log|]);
    }
  }

  lemma {:induction false} HandshakeRun(s: Session, run: seq<Step>)
    requires HandshakeInv(s) && Runnable(s, run) && Harmless(s, run)
    ensures HandshakeInv(Run(s, run))
    decreases |run|
  {
    if run != [] {
      HandshakeStep(s, run[0]);
      HandshakeRun(Next(s, run[0]), run[1..]);
    }
  }

  function FirstTwo(v: seq<nat>): (k: nat)
    requires Versions(v) && 2 in v
    ensures k < |v| && v[k] == 2 && forall i :: 0 <= i < k ==> v[i] == 1
  {
    if v[0] == 2 then 0 else FirstTwo(v[1..]) + 1
  }

  /** The device announces version 1 `k` times, then `tail` happens. */
  function OnesThen(k: nat, tail: seq<Step>): seq<Step> {
    if k == 0 then tail else [VersionArrives(1)] + ([ReaderReady] + OnesThen(k - 1, tail))
  }

  function AfterOnes(s: Session, k: nat): Session {
    if k == 0 then s else s.(dev := s.dev.(version := 1), ready := true)
  }

  lemma {:induction false} OnesRun(s: Session, k: nat, tail: seq<Step>)
    requires s.at.Reading? && Runnable(AfterOnes(s, k), tail)
    ensures Runnable(s, OnesThen(k, tail)) && Run(s, OnesThen(k, tail)) == Run(AfterOnes(s, k), tail)
    decreases k
  {
    if k > 0 {
      var s1 := Next(s, VersionArrives(1));
      var s2 := Next(s1, ReaderReady);
      OnesRun(s2, k - 1, tail);
      RunStep(s1, ReaderReady, OnesThen(k - 1, tail));
      RunStep(s, VersionArrives(1), [ReaderReady] + OnesThen(k - 1, tail));
    }
  }

  lemma {:induction false} OnesMajors(v: seq<nat>, k: nat, tail: seq<Step>)
    requires k <= |v| && Majors(tail) <= v[k..] && forall i :: 0 <= i < k ==> v[i] == 1
    ensures Majors(OnesThen(k, tail)) <= v
  {
    if k > 0 {
      OnesMajors(v[1..], k - 1, tail);
      MajorsStep(ReaderReady, OnesThen(k - 1, tail));
      MajorsStep(VersionArrives(1), [ReaderReady] + OnesThen(k - 1, tail));
      assert v == [1] + v[1..];
    }
  }

  lemma {:induction false} MajorsStep(step: Step, rest: seq<Step>)
    ensures Majors([step] + rest) == (if step.VersionArrives? then [step.major] else []) + Majors(rest)
  {
    assert ([step] + rest)[1..] == rest;
  }

  lemma {:induction false} LateSetup(log: seq<Sent>, x: Sent)
    requires !AnyNumbered(log) && x.numbered && Proto(x) != PROTO_SETUP
    ensures !SetupFirst(log + [x])
  {
    if log == [] {
      assert log + [x] == [x];
    } else {
      Uncons(log, [x]);
      LateSetup(log[1..], x);
    }
  }

  /** Between the store of version 2 and SETUP, anyone who may send gets in first. */
  lemma {:induction false} Overtaken(s: Session, sender: Step)
    requires s.at.Reading? && s.dev.version < 2 && !AnyNumbered(s.dev.log)
    requires if sender.ClientSends? then s.ready && |sender.payload| <= USB_MTU - 16
             else sender.HostVersion? && !s.started
    ensures Runnable(s, [VersionArrives(2), sender])
    ensures Majors([VersionArrives(2), sender]) == [2]
    ensures !SetupFirst(Run(s, [VersionArrives(2), sender]).dev.log)
  {
    var s1 := Next(s, VersionArrives(2));
    var s2 := Next(s1, sender);
    RunStep(s1, sender, []);
    RunStep(s, VersionArrives(2), [sender]);
    assert [sender] + [] == [sender] && [VersionArrives(2)] + [sender] == [VersionArrives(2), sender];
    MajorsStep(sender, []);
    MajorsStep(VersionArrives(2), [sender]);
    LateSetup(s.dev.log, s2.dev.log[|s.dev.log|]);
  }

  lemma {:induction false} OneThenTwo(v: seq<nat>)
    requires Versions(v) && 2 in v && v[0] == 1
    ensures !AlwaysSetupFirst(v, true)
  {
    var k := FirstTwo(v);
    var tail := [VersionArrives(2), ClientSends([])];
    var s := Next(Init(), HostVersion);
    Overtaken(AfterOnes(s, k), ClientSends([]));
    OnesRun(s, k, tail);
    OnesMajors(v, k, tail);
    RunStep(Init(), HostVersion, OnesThen(k, tail));
    MajorsStep(HostVersion, OnesThen(k, tail));
    Broken(v, true, [HostVersion] + OnesThen(k, tail));
  }

  /** The shortest such run, whatever the client sends. */
  lemma {:induction false} VersionOneThenTwo(payload: Bytes)
    requires |payload| <= USB_MTU - 16
    ensures var run := [HostVersion, VersionArrives(1), ReaderReady, VersionArrives(2), ClientSends(payload)];
            Runnable(Init(), run) && AnswersOnly(run) && !SetupFirst(Run(Init(), run).dev.log)
  {
    var s := Next(Init(), HostVersion);
    var tail := [VersionArrives(2), ClientSends(payload)];
    Overtaken(AfterOnes(s, 1), ClientSends(payload));
    OnesRun(s, 1, tail);
    RunStep(Init(), HostVersion, OnesThen(1, tail));
    assert OnesThen(0, tail) == tail;
    assert [HostVersion] + OnesThen(1, tail)
           == [HostVersion, VersionArrives(1), ReaderReady, VersionArrives(2), ClientSends(payload)];
  }

  lemma {:induction false} TwoTooEarly(v: seq<nat>)
    requires Versions(v) && 2 in v
    ensures !AlwaysSetupFirst(v, false)
  {
    var k := FirstTwo(v);
    var tail := [VersionArrives(2), HostVersion];
    Overtaken(AfterOnes(Init(), k), HostVersion);
    OnesRun(Init(), k, tail);
    OnesMajors(v, k, tail);
    Broken(v, false, OnesThen(k, tail));
  }

  lemma {:induction false} Broken(v: seq<nat>, answering: bool, run: seq<Step>)
    requires Runnable(Init(), run) && Majors(run) <= v && (answering ==> AnswersOnly(run))
    requires !SetupFirst(Run(Init(), run).dev.log)
    ensures !AlwaysSetupFirst(v, answering)
  {
  }

  lemma RunStep(s: Session, step: Step, rest: seq<Step>)
    requires Enabled(s, step) && Runnable(Next(s, step), rest)
    ensures Runnable(s, [step] + rest) && Run(s, [step] + rest) == Run(Next(s, step), rest)
  {
    assert ([step] + rest)[1..] == rest;
  }

  /** Whatever all threads do, as long as the device announces only `v`, or a beginning of it, SETUP comes first. */
  ghost predicate AlwaysSetupFirst(v: seq<nat>, answering: bool) {
    forall run :: Runnable(Init(), run) && Majors(run) <= v && (answering ==> AnswersOnly(run)) ==>
      SetupFirst(Run(Init(), run).dev.log)
  }

  /**
   * With a device that answers the host's VERSION, the first version-2 packet is always SETUP with numbers (0, 0xFFFF)
   * exactly if the first answer is 2 or no answer is.
   */
  lemma {:induction false} SetupComesFirst(v: seq<nat>)
    requires Versions(v)
    ensures AlwaysSetupFirst(v, true) <==> v == [] || v[0] == 2 || 2 !in v
  {
    if v == [] || v[0] == 2 || 2 !in v {
      forall run | Runnable(Init(), run) && Majors(run) <= v && AnswersOnly(run)
        ensures SetupFirst(Run(Init(), run).dev.log)
      {
        HandshakeRun(Init(), run);
      }
    } else {
      OneThenTwo(v);
    }
  }

  /**
   * A device that does not wait for the host's VERSION must never announce 2: that packet of the host may then go out
   * before SETUP.
   */
  lemma {:induction false} UnaskedVersion(v: seq<nat>)
    requires Versions(v)
    ensures AlwaysSetupFirst(v, false) <==> 2 !in v
  {
    if 2 !in v {
      forall run | Runnable(Init(), run) && Majors(run) <= v
        ensures SetupFirst(Run(Init(), run).dev.log)
      {
        HandshakeRun(Init(), run);
      }
    } else {
      TwoTooEarly(v);
    }
  }

  // ------------------------------------------------------------------ The device object and its ports

  predicate Usable(port: int, live: set<u16>) {
    0 < port < 0x1_0000 && port !in live
  }

  /** `k` steps of the cyclic search from `start`. */
  function Probe(start: u16, k: nat): u16 {
    Wrap16(start as int + k)
  }

  /** The search passes over the first `k` ports from `start`. */
  predicate NoneBefore(start: u16, k: nat, live: set<u16>) {
    forall j :: 0 <= j < k ==> !Usable(Probe(start, j), live)
  }

  lemma NoneBeforeNext(start: u16, k: nat, live: set<u16>)
    requires NoneBefore(start, k, live) && !Usable(Probe(start, k), live)
    ensures NoneBefore(start, k + 1, live)
  {
  }

  lemma ProbeReaches(start: u16, free: u16)
    ensures Probe(start, Wrap16(free as int - start as int)) == free
  {
  }

  lemma ProbeNext(start: u16, k: nat)
    ensures Wrap16(Probe(start, k) as int + 1) == Probe(start, k + 1)
  {
  }

  class MuxDevice {
    const wmax: nat
    var version: nat
    var txSeq: u16
    var rxSeq: u16
    var log: seq<Sent>
    var raw: seq<Bytes>
    var live: set<u16>
    var nextSport: u16

    constructor (wmax: nat)
      requires wmax > 0
      ensures this.wmax == wmax && View() == Dev(0, 0, 0, []) && raw == [] && live == {} && nextSport == 1
    {
      this.wmax := wmax;
      version, txSeq, rxSeq, log := 0, 0, 0, [];
      raw, live, nextSport := [], {}, 1;
    }

    ghost function View(): Dev
      reads this
    {
      Dev(version, txSeq, rxSeq, log)
    }

    /** Each packet is one write, followed by an empty one exactly when it fills its last USB packet. */
    method SendPacket(proto: u32, payload: Bytes) returns (ok: bool)
      requires wmax > 0 && |payload| < 0xFFFF_FFF0
      modifies this`txSeq, this`rxSeq, this`log, this`raw
      ensures View() == AfterSend(old(View()), proto, payload)
      ensures ok <==> |payload| <= USB_MTU - if version >= 2 then 16 else 8
      ensures if ok then
                var packet := log[|old(log)|].packet;
                raw == old(raw) + [packet] + if |packet| % wmax == 0 then [[]] else []
              else raw == old(raw)
    {
      var packet;
      ghost var before := raw;
      if version >= 2 {
        if proto == PROTO_SETUP {
          txSeq, rxSeq := 0, 0xFFFF;
        }
        packet := BuildMuxPacket(2, proto, payload, txSeq, rxSeq);
        if |packet| <= USB_MTU {
          log := log + [Sent(true, packet)];
        }
        txSeq := Wrap16(txSeq as int + 1);
      } else {
        packet := BuildMuxPacket(1, proto, payload, 0, 0);
        if |packet| <= USB_MTU {
          log := log + [Sent(false, packet)];
        }
      }
      if |packet| > USB_MTU {
        return false;
      }
      raw := raw + [packet];
      if |packet| % wmax == 0 {
        raw := raw + [[]];
      }
      return true;
    }

    /** The port search of `connect`, which runs whenever some port is free. */
    method PickPort(ghost free: u16) returns (sport: u16)
      requires Usable(free, live)
      modifies this`nextSport, this`live
      ensures Usable(sport, old(live)) && live == old(live) + {sport} && nextSport == Wrap16(sport as int + 1)
      ensures exists k :: 0 <= k < 0x1_0000 && sport == Probe(old(nextSport), k) &&
                          NoneBefore(old(nextSport), k, old(live))
    {
      ghost var start := nextSport;
      ghost var k: nat := 0;
      ghost var far: nat := Wrap16(free as int - start as int);
      ProbeReaches(start, free);
      while nextSport in live || nextSport == 0
        invariant k <= far && nextSport == Probe(start, k) && live == old(live)
        invariant NoneBefore(start, k, live)
        decreases far - k
      {
        ProbeNext(start, k);
        NoneBeforeNext(start, k, live);
        nextSport := Wrap16(nextSport as int + 1);
        k := k + 1;
      }
      sport := nextSport;
      nextSport := Wrap16(nextSport as int + 1);
      live := live + {sport};
    }
  }

  function PortsBelow(n: nat): (ports: set<int>)
    ensures forall p :: p in ports <==> 0 < p < n
    ensures n > 0 ==> |ports| == n - 1
  {
    if n <= 1 then {} else PortsBelow(n - 1) + {n - 1}
  }

  /** Fewer than 65535 live ports always leave one free. */
  lemma SomePortIsFree(live: set<u16>) returns (free: u16)
    requires |live| < 0xFFFF
    ensures Usable(free, live)
  {
    var all := PortsBelow(0x1_0000);
    if all <= live {
      SubsetSize(all, live);
    }
    free :| free in all && free !in live;
  }

  /** With all 65535 ports live every probe fails: the search never ends. */
  lemma FullTableNeverEnds(live: set<u16>, start: u16, k: nat)
    requires forall p: u16 :: p != 0 ==> p in live
    ensures !Usable(Probe(start, k), live)
  {
  }
}
