// Keyboard transitions, the synthetic Command+V chord, and draining stale input frames.
module Keyboard {
  import opened Words

  const COMMAND: nat := 0xE3
  const V_KEY: nat := 0x19

  datatype Key = KeyDown(usage: nat) | KeyUp(usage: nat)

  function Press(held: set<nat>, k: Key): set<nat> {
    match k
    case KeyDown(u) => held + {u}
    case KeyUp(u) => held - {u}
  }

  /** The keys the device holds after a sequence of transitions. */
  function PressAll(held: set<nat>, keys: seq<Key>): set<nat> {
    if keys == [] then held else Press(PressAll(held, keys[..|keys| - 1]), keys[|keys| - 1])
  }

  lemma {:induction false} PressAppend(held: set<nat>, a: seq<Key>, b: seq<Key>)
    ensures PressAll(held, a + b) == PressAll(PressAll(held, a), b)
    decreases |b|
  {
    if b == [] {
      assert a + b == a;
    } else {
      assert (a + b)[..|a + b| - 1] == a + b[..|b| - 1];
      PressAppend(held, a, b[..|b| - 1]);
    }
  }

  /** A hash set difference in iteration order: each of `usages` once. */
  predicate Lists(order: seq<nat>, usages: set<nat>) {
    && (forall i :: 0 <= i < |order| ==> order[i] in usages)
    && (forall u :: u in usages ==> u in order)
    && (forall i, j :: 0 <= i < j < |order| ==> order[i] != order[j])
  }

  /**
   * What `set_keyboard_state` sends when nothing fails: new keys down in some order, then old keys up in some order.
   */
  predicate IsPlan(plan: seq<Key>, downs: seq<nat>, ups: seq<nat>, from: set<nat>, to: set<nat>) {
    && Lists(downs, to - from) && Lists(ups, from - to)
    && |plan| == |downs| + |ups|
    && (forall i :: 0 <= i < |plan| ==>
          plan[i] == if i < |downs| then KeyDown(downs[i]) else KeyUp(ups[i - |downs|]))
  }

  lemma {:induction false} ListsLength(order: seq<nat>, usages: set<nat>)
    requires Lists(order, usages)
    ensures |order| == |usages|
  {
    if order == [] {
      assert usages == {};
    } else {
      var k := |order| - 1;
      forall u | u in usages - {order[k]}
        ensures u in order[..k]
      {
        var i :| 0 <= i < |order| && order[i] == u;
        assert order[..k][i] == u;
      }
      ListsLength(order[..k], usages - {order[k]});
    }
  }

  /** Only the keys mentioned change, and each ends as last sent: here every key is sent at most one way. */
  lemma {:induction false} PressEffect(held: set<nat>, keys: seq<Key>, u: nat)
    ensures u in PressAll(held, keys) && u !in held ==> KeyDown(u) in keys
    ensures u !in PressAll(held, keys) && u in held ==> KeyUp(u) in keys
    ensures KeyDown(u) in keys && KeyUp(u) !in keys ==> u in PressAll(held, keys)
    ensures KeyUp(u) in keys && KeyDown(u) !in keys ==> u !in PressAll(held, keys)
  {
    if keys != [] {
      PressEffect(held, keys[..|keys| - 1], u);
      assert keys == keys[..|keys| - 1] + [keys[|keys| - 1]];
    }
  }

  lemma PlanKeys(plan: seq<Key>, downs: seq<nat>, ups: seq<nat>, from: set<nat>, to: set<nat>, u: nat)
    requires IsPlan(plan, downs, ups, from, to)
    ensures KeyDown(u) in plan <==> u in to && u !in from
    ensures KeyUp(u) in plan <==> u in from && u !in to
  {
    if u in to - from {
      var i :| 0 <= i < |downs| && downs[i] == u;
      assert plan[i] == KeyDown(u);
    }
    if u in from - to {
      var i :| 0 <= i < |ups| && ups[i] == u;
      assert plan[|downs| + i] == KeyUp(u);
    }
    if KeyDown(u) in plan {
      var i :| 0 <= i < |plan| && plan[i] == KeyDown(u);
      assert downs[i] in to - from;
    }
    if KeyUp(u) in plan {
      var i :| 0 <= i < |plan| && plan[i] == KeyUp(u);
      assert ups[i - |downs|] in from - to;
    }
  }

  /** Whatever the enumeration orders, a completed transition turns `from` into `to`. */
  lemma PlanReaches(plan: seq<Key>, downs: seq<nat>, ups: seq<nat>, from: set<nat>, to: set<nat>)
    requires IsPlan(plan, downs, ups, from, to)
    ensures PressAll(from, plan) == to
  {
    forall u
      ensures u in PressAll(from, plan) <==> u in to
    {
      PlanKeys(plan, downs, ups, from, to, u);
      PressEffect(from, plan, u);
    }
  }

  // ------------------------------------------------------------------ The chord

  datatype Plan = Plan(keys: seq<Key>, downs: seq<nat>, ups: seq<nat>)

  predicate Moves(p: Plan, from: set<nat>, to: set<nat>) {
    IsPlan(p.keys, p.downs, p.ups, from, to)
  }

  /** The four transitions of `paste_text`: everything but Command up, V down, V up, everything back. */
  datatype Chord = Chord(toCommand: Plan, vDown: Plan, vUp: Plan, back: Plan)

  predicate ChordOf(c: Chord, pressed: set<nat>) {
    && Moves(c.toCommand, pressed, {COMMAND}) && Moves(c.vDown, {COMMAND}, {COMMAND, V_KEY})
    && Moves(c.vUp, {COMMAND, V_KEY}, {COMMAND}) && Moves(c.back, {COMMAND}, pressed)
  }

  function ChordKeys(c: Chord): seq<Key> {
    c.toCommand.keys + c.vDown.keys + c.vUp.keys + c.back.keys
  }

  /** A chord that goes through leaves the device holding exactly what the host believes. */
  lemma ChordRestores(c: Chord, pressed: set<nat>)
    requires ChordOf(c, pressed)
    ensures PressAll(pressed, ChordKeys(c)) == pressed
  {
    PlanReaches(c.toCommand.keys, c.toCommand.downs, c.toCommand.ups, pressed, {COMMAND});
    PlanReaches(c.vDown.keys, c.vDown.downs, c.vDown.ups, {COMMAND}, {COMMAND, V_KEY});
    PlanReaches(c.vUp.keys, c.vUp.downs, c.vUp.ups, {COMMAND, V_KEY}, {COMMAND});
    PlanReaches(c.back.keys, c.back.downs, c.back.ups, {COMMAND}, pressed);
    PressAppend(pressed, c.toCommand.keys, c.vDown.keys);
    PressAppend(pressed, c.toCommand.keys + c.vDown.keys, c.vUp.keys);
    PressAppend(pressed, c.toCommand.keys + c.vDown.keys + c.vUp.keys, c.back.keys);
  }

  /** The V-down transition is a single send. */
  lemma OneKeyPlan(p: Plan)
    requires Moves(p, {COMMAND}, {COMMAND, V_KEY})
    ensures p.keys == [KeyDown(V_KEY)]
  {
    assert {COMMAND, V_KEY} - {COMMAND} == {V_KEY};
    assert {COMMAND} - {COMMAND, V_KEY} == {};
    ListsLength(p.downs, {V_KEY});
    ListsLength(p.ups, {});
    assert p.downs[0] in {V_KEY};
  }

  /**
   * The chord puts V down while Command alone is held; nowhere else exactly if the host's keys do not include V, which
   * the last transition would put down again.
   */
  lemma {:induction false} VGoesDownOnce(c: Chord, pressed: set<nat>)
    requires ChordOf(c, pressed)
    ensures var keys, n := ChordKeys(c), |c.toCommand.keys|;
            && n < |keys| && keys[n] == KeyDown(V_KEY) && PressAll(pressed, keys[..n]) == {COMMAND}
            && (V_KEY !in pressed <==> forall i :: 0 <= i < |keys| && keys[i] == KeyDown(V_KEY) ==> i == n)
  {
    var keys, n := ChordKeys(c), |c.toCommand.keys|;
    OneKeyPlan(c.vDown);
    assert keys[..n] == c.toCommand.keys;
    PlanReaches(c.toCommand.keys, c.toCommand.downs, c.toCommand.ups, pressed, {COMMAND});
    PlanKeys(c.back.keys, c.back.downs, c.back.ups, {COMMAND}, pressed, V_KEY);
    if V_KEY in pressed {
      VGoesDownAgain(c, pressed);
    } else {
      forall i | 0 <= i < |keys| && keys[i] == KeyDown(V_KEY)
        ensures i == n
      {
        VGoesDownHere(c, pressed, i);
      }
    }
  }

  lemma {:induction false} VGoesDownAgain(c: Chord, pressed: set<nat>)
    requires ChordOf(c, pressed) && V_KEY in pressed
    ensures exists i :: |c.toCommand.keys| < i < |ChordKeys(c)| && ChordKeys(c)[i] == KeyDown(V_KEY)
  {
    OneKeyPlan(c.vDown);
    PlanKeys(c.back.keys, c.back.downs, c.back.ups, {COMMAND}, pressed, V_KEY);
    var j :| 0 <= j < |c.back.keys| && c.back.keys[j] == KeyDown(V_KEY);
    var i := |c.toCommand.keys| + |c.vDown.keys| + |c.vUp.keys| + j;
    assert ChordKeys(c)[i] == KeyDown(V_KEY);
  }

  lemma {:induction false} VGoesDownHere(c: Chord, pressed: set<nat>, i: nat)
    requires ChordOf(c, pressed) && V_KEY !in pressed && i < |ChordKeys(c)| && ChordKeys(c)[i] == KeyDown(V_KEY)
    ensures i == |c.toCommand.keys|
  {
    OneKeyPlan(c.vDown);
    PlanKeys(c.toCommand.keys, c.toCommand.downs, c.toCommand.ups, pressed, {COMMAND}, V_KEY);
    PlanKeys(c.vUp.keys, c.vUp.downs, c.vUp.ups, {COMMAND, V_KEY}, {COMMAND}, V_KEY);
    PlanKeys(c.back.keys, c.back.downs, c.back.ups, {COMMAND}, pressed, V_KEY);
    WhichPart(c.toCommand.keys, c.vDown.keys, c.vUp.keys, c.back.keys, i);
  }

  lemma WhichPart(a: seq<Key>, b: seq<Key>, d: seq<Key>, e: seq<Key>, i: nat)
    requires i < |a + b + d + e|
    ensures var k := (a + b + d + e)[i];
            if i < |a| then k in a else if i < |a| + |b| then k == b[i - |a|]
            else if i < |a| + |b| + |d| then k in d else k in e
  {
  }

  /** The clean-up after a failure: V up, Command up, every pressed key down in some order. */
  predicate IsCleanup(keys: seq<Key>, order: seq<nat>, pressed: set<nat>) {
    && Lists(order, pressed)
    && |keys| == |order| + 2 && keys[0] == KeyUp(V_KEY) && keys[1] == KeyUp(COMMAND)
    && (forall i :: 0 <= i < |order| ==> keys[i + 2] == KeyDown(order[i]))
  }

  /**
   * From any state with nothing held beyond `pressed`, Command and V, a clean-up that goes through ends at `pressed`.
   */
  lemma CleanupReaches(held: set<nat>, pressed: set<nat>, cleanup: seq<Key>, order: seq<nat>)
    requires held <= pressed + {COMMAND, V_KEY} && IsCleanup(cleanup, order, pressed)
    ensures PressAll(held, cleanup) == pressed
  {
    forall u
      ensures u in PressAll(held, cleanup) <==> u in pressed
    {
      CleanupKeys(cleanup, order, pressed, u);
      CleanupEffect(held, cleanup, order, pressed, u);
    }
  }

  /** Wherever the chord broke off, the failing send applied or not, the clean-up restores `pressed` exactly. */
  lemma CleanupRestores(c: Chord, pressed: set<nat>, n: nat, cleanup: seq<Key>, order: seq<nat>)
    requires ChordOf(c, pressed) && n <= |ChordKeys(c)| && IsCleanup(cleanup, order, pressed)
    ensures PressAll(PressAll(pressed, ChordKeys(c)[..n]), cleanup) == pressed
  {
    forall u | u in PressAll(pressed, ChordKeys(c)[..n])
      ensures u in pressed + {COMMAND, V_KEY}
    {
      ChordTouches(c, pressed, n, u);
    }
    CleanupReaches(PressAll(pressed, ChordKeys(c)[..n]), pressed, cleanup, order);
  }

  /** The chord puts down nothing but Command, V and keys of `pressed`. */
  lemma ChordTouches(c: Chord, pressed: set<nat>, n: nat, u: nat)
    requires ChordOf(c, pressed) && n <= |ChordKeys(c)|
    ensures u in PressAll(pressed, ChordKeys(c)[..n]) ==> u in pressed || u == COMMAND || u == V_KEY
  {
    var keys := ChordKeys(c);
    PressEffect(pressed, keys[..n], u);
    if KeyDown(u) in keys[..n] {
      var i :| 0 <= i < n && keys[..n][i] == KeyDown(u);
      assert keys[i] == KeyDown(u);
      WhichPart(c.toCommand.keys, c.vDown.keys, c.vUp.keys, c.back.keys, i);
      PlanKeys(c.toCommand.keys, c.toCommand.downs, c.toCommand.ups, pressed, {COMMAND}, u);
      PlanKeys(c.vDown.keys, c.vDown.downs, c.vDown.ups, {COMMAND}, {COMMAND, V_KEY}, u);
      PlanKeys(c.vUp.keys, c.vUp.downs, c.vUp.ups, {COMMAND, V_KEY}, {COMMAND}, u);
      PlanKeys(c.back.keys, c.back.downs, c.back.ups, {COMMAND}, pressed, u);
    }
  }

  lemma CleanupKeys(cleanup: seq<Key>, order: seq<nat>, pressed: set<nat>, u: nat)
    requires IsCleanup(cleanup, order, pressed)
    ensures KeyDown(u) in cleanup[2..] <==> u in pressed
    ensures KeyUp(u) !in cleanup[2..]
  {
    if u in pressed {
      var i :| 0 <= i < |order| && order[i] == u;
      assert cleanup[2..][i] == KeyDown(u);
    }
    forall i | 0 <= i < |order|
      ensures cleanup[2..][i] == KeyDown(order[i])
    {
      assert cleanup[2..][i] == cleanup[i + 2];
    }
  }

  lemma CleanupEffect(held: set<nat>, cleanup: seq<Key>, order: seq<nat>, pressed: set<nat>, u: nat)
    requires IsCleanup(cleanup, order, pressed)
    requires u in held ==> u in pressed || u == COMMAND || u == V_KEY
    requires (KeyDown(u) in cleanup[2..] <==> u in pressed) && KeyUp(u) !in cleanup[2..]
    ensures u in PressAll(held, cleanup) <==> u in pressed
  {
    var first, rest := cleanup[..2], cleanup[2..];
    assert cleanup == first + rest;
    PressAppend(held, first, rest);
    assert first[..1] == [KeyUp(V_KEY)] && first[1] == KeyUp(COMMAND);
    assert first[..1][..0] == [];
    assert PressAll(held, first[..1]) == held - {V_KEY};
    assert PressAll(held, first) == held - {V_KEY} - {COMMAND};
    PressEffect(PressAll(held, first), rest, u);
  }

  // ------------------------------------------------------------------ The client, send by send

  /** How one send ends: confirmed, or failed with or without having reached the device. */
  datatype Outcome = Confirmed | FailedApplied | FailedLost

  /** A transition that reached the device, with the keys held just before. */
  datatype Applied = Applied(key: Key, before: set<nat>)

  function DownCount(log: seq<Applied>, u: nat): nat {
    if log == [] then 0
    else DownCount(log[..|log| - 1], u) + if log[|log| - 1].key == KeyDown(u) then 1 else 0
  }

  lemma CountSnoc(log: seq<Applied>, x: Applied, u: nat)
    ensures DownCount(log + [x], u) == DownCount(log, u) + if x.key == KeyDown(u) then 1 else 0
  {
    assert (log + [x])[..|log|] == log;
  }

  /** V goes down only while Command alone is held. */
  predicate VOnlyWithCommand(log: seq<Applied>, from: nat) {
    forall i :: from <= i < |log| && log[i].key == KeyDown(V_KEY) ==> log[i].before == {COMMAND}
  }

  /**
   * From `before` to `after` the script of outcomes was used up to the end of the sends, or to the first that failed.
   */
  predicate StopsAtFailure(before: seq<Outcome>, after: seq<Outcome>, ok: bool) {
    && |after| <= |before| && after == before[|before| - |after|..]
    && (!ok ==> |after| < |before| && !before[|before| - |after| - 1].Confirmed?)
    && (forall i :: 0 <= i < |before| - |after| - (if ok then 0 else 1) ==> before[i].Confirmed?)
  }

  /** Whether the next send goes through. */
  predicate Goes(script: seq<Outcome>) {
    script == [] || script[0].Confirmed?
  }

  function Rest(script: seq<Outcome>): seq<Outcome> {
    if script == [] then [] else script[1..]
  }

  /** Whether `n` sends all go through; past its end the script confirms everything. */
  predicate AllOk(script: seq<Outcome>, n: nat)
    decreases n
  {
    n == 0 || script == [] || (Goes(script) && AllOk(script[1..], n - 1))
  }

  /** What is left of the script after up to `n` sends that stop at the first failure. */
  function Left(script: seq<Outcome>, n: nat): seq<Outcome>
    decreases n
  {
    if n == 0 || script == [] then script
    else if !script[0].Confirmed? then script[1..]
    else Left(script[1..], n - 1)
  }

  /** What is left of it after `n` sends whatever their outcomes. */
  function Drop(script: seq<Outcome>, n: nat): seq<Outcome> {
    if n <= |script| then script[n..] else []
  }

  lemma {:induction false} SendsThenMore(script: seq<Outcome>, a: nat, b: nat)
    ensures AllOk(script, a + b) <==> AllOk(script, a) && AllOk(Left(script, a), b)
    ensures Left(script, a + b) == if AllOk(script, a) then Left(Left(script, a), b) else Left(script, a)
    decreases a
  {
    if a > 0 && script != [] {
      SendsThenMore(script[1..], a - 1, b);
    }
  }

  /** After a failure nothing more is sent, however many sends were to come. */
  lemma {:induction false} FailureStops(script: seq<Outcome>, a: nat, n: nat)
    requires a <= n && !AllOk(script, a)
    ensures !AllOk(script, n) && Left(script, n) == Left(script, a)
  {
    SendsThenMore(script, a, n - a);
  }

  lemma {:induction false} LeftStops(script: seq<Outcome>, n: nat)
    ensures StopsAtFailure(script, Left(script, n), AllOk(script, n))
    ensures AllOk(script, n) <==> forall i :: 0 <= i < n && i < |script| ==> script[i].Confirmed?
    ensures AllOk(script, n) ==> Left(script, n) == Drop(script, n)
    decreases n
  {
    if n > 0 && script != [] {
      LeftStops(script[1..], n - 1);
    }
  }

  lemma {:induction false} DropMore(script: seq<Outcome>, a: nat)
    ensures Rest(Drop(script, a)) == Drop(script, a + 1)
    ensures AllOk(script, a + 1) <==> AllOk(script, a) && Goes(Drop(script, a))
  {
    LeftStops(script, a);
    LeftStops(script, a + 1);
    if |script| > a {
      assert Drop(script, a)[0] == script[a];
    }
  }

  /** The first `n` sends have gone through, and `script` is what they left. */
  predicate SentSoFar(script0: seq<Outcome>, script: seq<Outcome>, n: nat) {
    AllOk(script0, n) && script == Left(script0, n)
  }

  lemma {:induction false} OneMoreSend(script0: seq<Outcome>, script: seq<Outcome>, n: nat, total: nat)
    requires SentSoFar(script0, script, n) && n < total
    ensures if Goes(script) then SentSoFar(script0, Rest(script), n + 1)
            else !AllOk(script0, total) && Left(script0, total) == Rest(script)
  {
    SendsThenMore(script0, n, 1);
    assert AllOk(script, 1) == Goes(script) && Left(script, 1) == Rest(script);
    if !Goes(script) {
      FailureStops(script0, n + 1, total);
    }
  }

  /** How many sends one transition makes when none fails. */
  function Sends(from: set<nat>, to: set<nat>): nat {
    |to - from| + |from - to|
  }

  /** How many the chord makes. */
  function ChordSends(pressed: set<nat>): nat {
    (Sends(pressed, {COMMAND}) + 1) + (1 + Sends({COMMAND}, pressed))
  }

  lemma VSends()
    ensures Sends({COMMAND}, {COMMAND, V_KEY}) == 1 && Sends({COMMAND, V_KEY}, {COMMAND}) == 1
  {
    assert {COMMAND, V_KEY} - {COMMAND} == {V_KEY} && {COMMAND} - {COMMAND, V_KEY} == {};
  }

  /** The script after the first failure in it. */
  function AfterFailure(script: seq<Outcome>): seq<Outcome> {
    if script == [] then [] else if script[0].Confirmed? then AfterFailure(script[1..]) else script[1..]
  }

  lemma {:induction false} LeftAfterFailure(script: seq<Outcome>, n: nat)
    requires !AllOk(script, n)
    ensures Left(script, n) == AfterFailure(script)
    decreases n
  {
    if script[0].Confirmed? {
      LeftAfterFailure(script[1..], n - 1);
    }
  }

  /** No key goes down once one has gone up. */
  predicate DownsFirst(log: seq<Applied>, from: nat) {
    forall i, j :: from <= i < j < |log| && log[i].key.KeyUp? ==> log[j].key.KeyUp?
  }

  /** Since `log0` exactly the keys of `done` have gone down, once each, starting from `held0`. */
  ghost predicate PressedSoFar(log0: seq<Applied>, log: seq<Applied>, held0: set<nat>,
                               done: set<nat>, usages: set<nat>) {
    && log0 <= log && (done == {} ==> log == log0)
    && (forall u :: DownCount(log, u) == DownCount(log0, u) + if u in done then 1 else 0)
    && (forall i :: |log0| <= i < |log| ==>
          && log[i].key.KeyDown? && log[i].key.usage in done
          && (usages == {log[i].key.usage} ==> log[i].before == held0))
  }

  lemma PressedNone(log0: seq<Applied>, held0: set<nat>, usages: set<nat>)
    ensures PressedSoFar(log0, log0, held0, {}, usages)
  {
  }

  lemma PressOne(log0: seq<Applied>, log: seq<Applied>, x: Applied, held0: set<nat>, done: set<nat>, usages: set<nat>)
    requires PressedSoFar(log0, log, held0, done, usages) && done <= usages
    requires x.key.KeyDown? && x.key.usage in usages - done && x.before == held0 + done
    ensures PressedSoFar(log0, log + [x], held0, done + {x.key.usage}, usages)
  {
    assert (log + [x])[..|log|] == log;
    if usages == {x.key.usage} {
      assert done == {};
      assert held0 + done == held0;
    }
  }

  lemma UpCounts(log: seq<Applied>, x: Applied)
    requires x.key.KeyUp?
    ensures forall u :: DownCount(log + [x], u) == DownCount(log, u)
  {
    assert (log + [x])[..|log|] == log;
  }

  /** From `log0` to `log` V has not gone down. */
  ghost predicate VQuiet(log0: seq<Applied>, log: seq<Applied>) {
    && log0 <= log && DownCount(log, V_KEY) == DownCount(log0, V_KEY)
    && (VOnlyWithCommand(log0, 0) ==> VOnlyWithCommand(log, 0))
  }

  lemma VQuietSnoc(log0: seq<Applied>, log: seq<Applied>, x: Applied)
    requires VQuiet(log0, log) && x.key != KeyDown(V_KEY)
    ensures VQuiet(log0, log + [x])
  {
    CountSnoc(log, x, V_KEY);
  }

  /** The HID client: `held` and `log` are the device's side, `script` tells how the coming sends will end. */
  class IndigoClient {
    var held: set<nat>
    var script: seq<Outcome>
    var log: seq<Applied>

    constructor (held: set<nat>, script: seq<Outcome>)
      ensures this.held == held && this.script == script && log == []
    {
      this.held, this.script, log := held, script, [];
    }

    method SendKeyboard(k: Key) returns (ok: bool)
      modifies this
      ensures if log == old(log) then held == old(held) && !ok
              else log == old(log) + [Applied(k, old(held))] && held == Press(old(held), k)
      ensures ok == Goes(old(script)) && script == Rest(old(script))
      ensures log != old(log) <==> old(script) == [] || !old(script)[0].FailedLost?
    {
      var outcome := Confirmed;
      if script != [] {
        outcome := script[0];
        script := script[1..];
      }
      if !outcome.FailedLost? {
        log := log + [Applied(k, held)];
        held := Press(held, k);
      }
      return outcome.Confirmed?;
    }

    /** `set_keyboard_state`: stop at the first failed send. */
    method SetKeyboardState(from: set<nat>, to: set<nat>) returns (ok: bool)
      modifies this
      ensures ok ==> held == old(held) + (to - from) - (from - to)
      ensures held <= old(held) + (to - from)
      ensures old(log) <= log
      ensures forall u :: u !in to - from ==> DownCount(log, u) == DownCount(old(log), u)
      ensures forall u :: u in to - from ==>
                DownCount(log, u) <= DownCount(old(log), u) + 1
                && (ok ==> DownCount(log, u) == DownCount(old(log), u) + 1)
      ensures forall i :: |old(log)| <= i < |log| && log[i].key.KeyDown? ==>
                log[i].key.usage in to - from && (to - from == {log[i].key.usage} ==> log[i].before == old(held))
      ensures DownsFirst(log, |old(log)|)
      ensures ok == AllOk(old(script), Sends(from, to)) && script == Left(old(script), Sends(from, to))
    {
      ghost var done;
      SendsThenMore(script, |to - from|, |from - to|);
      ok, done := PressNew(to - from);
      if ok {
        ok := ReleaseOld(from - to);
      }
    }

    /** `done` are the keys that went down, all of `usages` if no send failed. */
    method PressNew(usages: set<nat>) returns (ok: bool, ghost done: set<nat>)
      modifies this
      ensures done <= usages && (ok ==> done == usages) && held == old(held) + done
      ensures PressedSoFar(old(log), log, old(held), done, usages)
      ensures ok == AllOk(old(script), |usages|) && script == Left(old(script), |usages|)
    {
      var left := usages;
      ghost var n, log0, held0, script0 := 0, log, held, script;
      done := {};
      PressedNone(log0, held0, usages);
      while left != {}
        invariant left <= usages && done == usages - left && held == held0 + done
        invariant PressedSoFar(log0, log, held0, done, usages)
        invariant SentSoFar(script0, script, n) && n + |left| == |usages|
        decreases left
      {
        var usage :| usage in left;
        ok, done := PressKey(usage, log0, held0, left, usages, script0, n);
        if !ok {
          return false, done;
        }
        left, n := left - {usage}, n + 1;
      }
      return true, done;
    }

    /** One of the keys `left` goes down, unless the send is lost; `done` are those down then. */
    method PressKey(usage: nat, ghost log0: seq<Applied>, ghost held0: set<nat>, ghost left: set<nat>,
                    ghost usages: set<nat>, ghost script0: seq<Outcome>, ghost n: nat)
      returns (ok: bool, ghost done: set<nat>)
      requires SentSoFar(script0, script, n) && n < |usages|
      requires PressedSoFar(log0, log, held0, usages - left, usages) && held == held0 + (usages - left)
      requires left <= usages && usage in left
      modifies this
      ensures PressedSoFar(log0, log, held0, done, usages) && held == held0 + done && done <= usages
      ensures ok ==> done == usages - (left - {usage})
      ensures if ok then SentSoFar(script0, script, n + 1)
              else !AllOk(script0, |usages|) && script == Left(script0, |usages|)
    {
      ghost var was, before := log, held;
      OneMoreSend(script0, script, n, |usages|);
      ok := SendKeyboard(KeyDown(usage));
      done := usages - left;
      if log != was {
        PressOne(log0, was, Applied(KeyDown(usage), before), held0, done, usages);
        done := done + {usage};
      }
    }

    method ReleaseOld(usages: set<nat>) returns (ok: bool)
      modifies this
      ensures held <= old(held) && (ok ==> held == old(held) - usages) && old(log) <= log
      ensures forall u :: DownCount(log, u) == DownCount(old(log), u)
      ensures forall i :: |old(log)| <= i < |log| ==> log[i].key.KeyUp?
      ensures ok == AllOk(old(script), |usages|) && script == Left(old(script), |usages|)
    {
      var left := usages;
      ghost var n := 0;
      while left != {}
        invariant left <= usages && held == old(held) - (usages - left) && old(log) <= log
        invariant forall u :: DownCount(log, u) == DownCount(old(log), u)
        invariant forall i :: |old(log)| <= i < |log| ==> log[i].key.KeyUp?
        invariant SentSoFar(old(script), script, n) && n + |left| == |usages|
        decreases left
      {
        var usage :| usage in left;
        ghost var was, before := log, held;
        OneMoreSend(old(script), script, n, |usages|);
        ok := SendKeyboard(KeyUp(usage));
        UpCounts(was, Applied(KeyUp(usage), before));
        if !ok {
          return false;
        }
        left, n := left - {usage}, n + 1;
      }
      return true;
    }

    /** The first two transitions of `paste_text`: everything but Command up, then V down. */
    method PutVDown(pressed: set<nat>) returns (ok: bool)
      requires held == pressed
      modifies this
      ensures held <= pressed + {COMMAND, V_KEY} && (ok ==> held == {COMMAND, V_KEY}) && old(log) <= log
      ensures DownCount(log, V_KEY) <= DownCount(old(log), V_KEY) + 1 && VOnlyWithCommand(log, |old(log)|)
      ensures ok ==> DownCount(log, V_KEY) == DownCount(old(log), V_KEY) + 1
      ensures ok == AllOk(old(script), Sends(pressed, {COMMAND}) + 1)
      ensures script == Left(old(script), Sends(pressed, {COMMAND}) + 1)
    {
      SendsThenMore(script, Sends(pressed, {COMMAND}), 1);
      VSends();
      ok := SetKeyboardState(pressed, {COMMAND});
      if !ok { return; }
      assert held == {COMMAND};
      assert {COMMAND, V_KEY} - {COMMAND} == {V_KEY};
      ok := SetKeyboardState({COMMAND}, {COMMAND, V_KEY});
    }

    /** The other two: V up, then everything back. */
    method TakeVUp(pressed: set<nat>) returns (ok: bool)
      requires held == {COMMAND, V_KEY}
      modifies this
      ensures held <= pressed + {COMMAND, V_KEY} && (ok ==> held == pressed) && old(log) <= log
      ensures V_KEY !in pressed ==>
                DownCount(log, V_KEY) == DownCount(old(log), V_KEY) && VOnlyWithCommand(log, |old(log)|)
      ensures ok && V_KEY in pressed ==> DownCount(log, V_KEY) == DownCount(old(log), V_KEY) + 1
      ensures ok == AllOk(old(script), 1 + Sends({COMMAND}, pressed))
      ensures script == Left(old(script), 1 + Sends({COMMAND}, pressed))
    {
      SendsThenMore(script, 1, Sends({COMMAND}, pressed));
      VSends();
      assert {COMMAND} - {COMMAND, V_KEY} == {};
      ok := SetKeyboardState({COMMAND, V_KEY}, {COMMAND});
      if !ok { return; }
      assert held == {COMMAND};
      ok := SetKeyboardState({COMMAND}, pressed);
    }

    /** The four transitions of `paste_text`, given up at the first failure. */
    method SendChord(pressed: set<nat>) returns (ok: bool)
      requires held == pressed
      modifies this
      ensures held <= pressed + {COMMAND, V_KEY} && (ok ==> held == pressed) && old(log) <= log
      ensures V_KEY !in pressed ==>
                && DownCount(log, V_KEY) <= DownCount(old(log), V_KEY) + 1
                && VOnlyWithCommand(log, |old(log)|)
      ensures ok ==> DownCount(log, V_KEY) == DownCount(old(log), V_KEY) + if V_KEY in pressed then 2 else 1
      ensures ok == AllOk(old(script), ChordSends(pressed)) && script == Left(old(script), ChordSends(pressed))
    {
      SendsThenMore(script, Sends(pressed, {COMMAND}) + 1, 1 + Sends({COMMAND}, pressed));
      ok := PutVDown(pressed);
      if ok {
        ok := TakeVUp(pressed);
      }
    }

    /** Best effort: every send is tried, failures are ignored; `all` tells whether none failed. */
    method CleanUp(pressed: set<nat>) returns (all: bool)
      requires held <= pressed + {COMMAND, V_KEY}
      modifies this
      ensures all ==> held == pressed
      ensures held <= pressed + {COMMAND, V_KEY} && old(log) <= log
      ensures V_KEY !in pressed ==> VQuiet(old(log), log)
      ensures all == AllOk(old(script), |pressed| + 2) && script == Drop(old(script), |pressed| + 2)
    {
      all := ReleaseChord(pressed);
      var left := pressed;
      ghost var n := 2;
      while left != {}
        invariant left <= pressed && old(log) <= log && held <= pressed + {COMMAND, V_KEY}
        invariant all ==> held <= pressed && held >= pressed - left
        invariant V_KEY !in pressed ==> VQuiet(old(log), log)
        invariant all == AllOk(old(script), n) && script == Drop(old(script), n) && n + |left| == |pressed| + 2
        decreases left
      {
        var usage :| usage in left;
        ghost var was, before := log, held;
        DropMore(old(script), n);
        left, n := left - {usage}, n + 1;
        var ok := SendKeyboard(KeyDown(usage));
        if V_KEY !in pressed {
          VQuietSnoc(old(log), was, Applied(KeyDown(usage), before));
        }
        all := all && ok;
      }
    }

    /** Its first two sends: V up, Command up. */
    method ReleaseChord(pressed: set<nat>) returns (all: bool)
      requires held <= pressed + {COMMAND, V_KEY}
      modifies this
      ensures held <= old(held) && (all ==> held == old(held) - {V_KEY, COMMAND}) && VQuiet(old(log), log)
      ensures all == AllOk(old(script), 2) && script == Drop(old(script), 2)
    {
      ghost var log0, held0 := log, held;
      DropMore(script, 1);
      var up := SendKeyboard(KeyUp(V_KEY));
      VQuietSnoc(log0, log0, Applied(KeyUp(V_KEY), held0));
      ghost var log1, held1 := log, held;
      var command := SendKeyboard(KeyUp(COMMAND));
      VQuietSnoc(log0, log1, Applied(KeyUp(COMMAND), held1));
      all := up && command;
    }

    /**
     * The chord with its failure handling. Whether it succeeds or any send fails, if the clean-up sends go through the
     * device again holds exactly the host's keys. If V was not among them it went down at most once, only with Command;
     * a chord that succeeds puts it down once, or twice if V was among them.
     */
    method PasteChord(pressed: set<nat>) returns (ok: bool, cleaned: bool)
      requires held == pressed && log == []
      modifies this
      ensures ok || cleaned ==> held == pressed
      ensures V_KEY !in pressed ==> DownCount(log, V_KEY) <= 1 && VOnlyWithCommand(log, 0)
      ensures ok ==> DownCount(log, V_KEY) == if V_KEY in pressed then 2 else 1
      ensures ok <==> AllOk(old(script), ChordSends(pressed))
      ensures ok ==> cleaned && script == Drop(old(script), ChordSends(pressed))
      ensures !ok ==>
                && cleaned == AllOk(AfterFailure(old(script)), |pressed| + 2)
                && script == Drop(AfterFailure(old(script)), |pressed| + 2)
    {
      ghost var start := script;
      ok := SendChord(pressed);
      LeftStops(start, ChordSends(pressed));
      cleaned := true;
      if !ok {
        LeftAfterFailure(start, ChordSends(pressed));
        cleaned := CleanUp(pressed);
      }
    }
  }

  // ------------------------------------------------------------------ Stale input

  /** What a non-blocking receive finds. */
  datatype Poll = Frame | Error(message: string) | Empty

  /** After the scripted polls the channel stays empty. */
  function PollAt(polls: seq<Poll>, i: nat): Poll {
    if i < |polls| then polls[i] else Empty
  }

  /** Length of the run of empty polls just before poll `k`. */
  function QuietBefore(polls: seq<Poll>, k: nat): nat {
    if k == 0 || !PollAt(polls, k - 1).Empty? then 0 else QuietBefore(polls, k - 1) + 1
  }

  function FramesBefore(polls: seq<Poll>, k: nat): nat {
    if k == 0 then 0 else FramesBefore(polls, k - 1) + if PollAt(polls, k - 1).Frame? then 1 else 0
  }

  /**
   * Three empty polls from the start, or four after a frame: the first of those only ends the round that saw the frame.
   */
  predicate Settled(polls: seq<Poll>, k: nat) {
    QuietBefore(polls, k) == if FramesBefore(polls, k) == 0 then 3 else 4
  }

  /** No error and no settled point before poll `k`. */
  predicate Unfinished(polls: seq<Poll>, k: nat) {
    forall i :: 0 <= i < k ==> !Settled(polls, i) && !PollAt(polls, i).Error?
  }

  lemma StillUnfinished(polls: seq<Poll>, k: nat)
    requires Unfinished(polls, k) && !Settled(polls, k) && !PollAt(polls, k).Error?
    ensures Unfinished(polls, k + 1)
  {
  }

  lemma {:induction false} FramesThenQuiet(polls: seq<Poll>, k: nat)
    requires forall i :: 0 <= i < |polls| ==> polls[i].Frame?
    ensures FramesBefore(polls, k) == if k <= |polls| then k else |polls|
    ensures QuietBefore(polls, k) == if k <= |polls| then 0 else k - |polls|
  {
    if k > 0 {
      FramesThenQuiet(polls, k - 1);
    }
  }

  /** After frames and nothing else the drain polls four more times; on an empty channel three times. */
  lemma {:induction false} WhenItSettles(polls: seq<Poll>, k: nat)
    requires forall i :: 0 <= i < |polls| ==> polls[i].Frame?
    ensures Unfinished(polls, k) && Settled(polls, k) <==> k == |polls| + if polls == [] then 3 else 4
  {
    FramesThenQuiet(polls, k);
    forall i | 0 <= i < k
      ensures Settled(polls, i) <==> i == |polls| + if polls == [] then 3 else 4
    {
      FramesThenQuiet(polls, i);
    }
    if k > |polls| + if polls == [] then 3 else 4 {
      assert Settled(polls, |polls| + if polls == [] then 3 else 4);
    }
  }

  /** The empty poll that ends a round counts as quiet. */
  lemma EmptyPoll(polls: seq<Poll>, k: nat)
    requires PollAt(polls, k).Empty? && Unfinished(polls, k) && !Settled(polls, k)
    ensures Unfinished(polls, k + 1) && FramesBefore(polls, k + 1) == FramesBefore(polls, k)
    ensures QuietBefore(polls, k + 1) == QuietBefore(polls, k) + 1
  {
    StillUnfinished(polls, k);
  }

  /** The inner loop: take frames until the channel is empty. `quiet` empty rounds came before. */
  method DrainRound(polls: seq<Poll>, already: nat, start: nat, quiet: nat)
    returns (discarded: nat, error: Option<string>, used: nat, receivedFrame: bool)
    requires quiet < 3 && already == FramesBefore(polls, start) && Unfinished(polls, start)
    requires QuietBefore(polls, start) == if already == 0 then quiet else quiet + 1
    ensures start <= used && discarded == FramesBefore(polls, used) && Unfinished(polls, used)
    ensures receivedFrame <==> used > start
    ensures if receivedFrame then QuietBefore(polls, used) == 0 && discarded > 0 else used == start
    ensures match error
            case Some(message) => used < |polls| && polls[used] == Error(message)
            case None => PollAt(polls, used).Empty?
    ensures used == start || used <= |polls|
  {
    discarded, used, receivedFrame, error := already, start, false, None;
    while !PollAt(polls, used).Empty?
      invariant start <= used && (used == start || used <= |polls|) && discarded == FramesBefore(polls, used)
      invariant Unfinished(polls, used) && (receivedFrame <==> used > start)
      invariant if receivedFrame then QuietBefore(polls, used) == 0 && discarded > 0 else used == start
      decreases |polls| - used
    {
      match polls[used]
      case Frame =>
        StillUnfinished(polls, used);
        discarded := discarded + 1;
        receivedFrame := true;
        used := used + 1;
      case Error(message) =>
        error := Some(message);
        return;
    }
  }

  /**
   * `discard_stale_input_frames`: it stops at the first error or at the first settled point, whichever comes first, and
   * counts exactly the frames before it.
   */
  method DiscardStaleFrames(polls: seq<Poll>) returns (discarded: nat, error: Option<string>, used: nat)
    ensures discarded == FramesBefore(polls, used)
    ensures Unfinished(polls, used)
    ensures match error
            case Some(message) => used < |polls| && polls[used] == Error(message)
            case None => Settled(polls, used)
  {
    discarded, used, error := 0, 0, None;
    var quietPolls := 0;
    while quietPolls < 3
      invariant quietPolls <= 3
      invariant discarded == FramesBefore(polls, used)
      invariant QuietBefore(polls, used) == if discarded == 0 then quietPolls else quietPolls + 1
      invariant Unfinished(polls, used) && error.None?
      decreases if used < |polls| then |polls| - used else 0, 3 - quietPolls
    {
      var receivedFrame;
      discarded, error, used, receivedFrame := DrainRound(polls, discarded, used, quietPolls);
      if error.Some? {
        return;
      }
      EmptyPoll(polls, used);
      used := used + 1;
      if receivedFrame {
        quietPolls := 0;
      } else {
        quietPolls := quietPolls + 1;
      }
    }
  }
}
