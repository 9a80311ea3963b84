// Five-slot touch tracking: the Rust main loop's batch processing and the device that receives its reports.
module Touch {
  import opened Words

  const MAX_SLOTS: nat := 5

  datatype Contact = Contact(identity: nat, touching: bool, x: u16, y: u16)

  datatype Action = Down | Move | Up

  /** One point of a batch, its coordinates already scaled to 16 bits. */
  datatype Point = Point(id: u32, action: Action, x: u16, y: u16)

  /** The main loop's `slots` and `active`. */
  datatype Host = Host(slots: map<u32, nat>, active: map<u32, Contact>)

  // ------------------------------------------------------------------ Slot allocation

  /** The smallest slot from `k` on that no pointer holds; MAX_SLOTS if there is none. */
  function SmallestFree(slots: map<u32, nat>, k: nat): (slot: nat)
    requires k <= MAX_SLOTS
    ensures k <= slot <= MAX_SLOTS
    ensures slot < MAX_SLOTS ==> slot !in slots.Values
    ensures forall s :: k <= s < slot ==> s in slots.Values
    decreases MAX_SLOTS - k
  {
    if k == MAX_SLOTS || k !in slots.Values then k else SmallestFree(slots, k + 1)
  }

  function Allocate(slots: map<u32, nat>, id: u32): Option<nat> {
    if id in slots then Some(slots[id]) else
    var slot := SmallestFree(slots, 0);
    if slot < MAX_SLOTS then Some(slot) else None
  }

  function AfterAllocate(slots: map<u32, nat>, id: u32): map<u32, nat> {
    match Allocate(slots, id)
    case Some(slot) => slots[id := slot]
    case None => slots
  }

  // ------------------------------------------------------------------ One batch

  predicate DistinctIds(points: seq<Point>) {
    forall i, j :: 0 <= i < j < |points| ==> points[i].id != points[j].id
  }

  /** What the main loop checks before touching any state; otherwise it reports an error and stops. */
  predicate ValidBatch(points: seq<Point>) {
    1 <= |points| <= MAX_SLOTS && DistinctIds(points)
  }

  function PointContact(p: Point, identity: nat, touching: bool): Contact {
    Contact(identity, touching, p.x, p.y)
  }

  /** First pass: every `up` frees its slot; the released contacts go at the end of the report. */
  function ReleaseUps(h: Host, points: seq<Point>): (Host, seq<Contact>) {
    if points == [] then (h, []) else
    var k := |points| - 1;
    var (h', releases) := ReleaseUps(h, points[..k]);
    var p := points[k];
    if p.action.Up? && p.id in h'.slots then
      var after := Host(h'.slots - {p.id}, h'.active - {p.id});
      if p.id in h'.active then (after, releases + [PointContact(p, h'.slots[p.id], false)]) else (after, releases)
    else (h', releases)
  }

  /** Second pass: `down` allocates, `move` looks up, and the contact is stored. */
  function ApplyRest(h: Host, points: seq<Point>): Host {
    if points == [] then h else
    var k := |points| - 1;
    var h' := ApplyRest(h, points[..k]);
    var p := points[k];
    match p.action
    case Up => h'
    case Down =>
      var slots := AfterAllocate(h'.slots, p.id);
      if p.id in slots then Host(slots, h'.active[p.id := PointContact(p, slots[p.id], true)]) else h'
    case Move =>
      if p.id in h'.slots then h'.(active := h'.active[p.id := PointContact(p, h'.slots[p.id], true)]) else h'
  }

  function AfterBatch(h: Host, points: seq<Point>): Host {
    ApplyRest(ReleaseUps(h, points).0, points)
  }

  function Releases(h: Host, points: seq<Point>): seq<Contact> {
    ReleaseUps(h, points).1
  }

  /** A hash map's values come in any order: `order` lists its keys once each. */
  predicate IsOrder(order: seq<u32>, active: map<u32, Contact>) {
    && (forall i :: 0 <= i < |order| ==> order[i] in active)
    && (forall id :: id in active ==> id in order)
    && (forall i, j :: 0 <= i < j < |order| ==> order[i] != order[j])
  }

  function InOrder(order: seq<u32>, active: map<u32, Contact>): seq<Contact>
    requires forall i :: 0 <= i < |order| ==> order[i] in active
  {
    if order == [] then [] else InOrder(order[..|order| - 1], active) + [active[order[|order| - 1]]]
  }

  /** The contacts of the report that follows a batch. */
  function Report(h: Host, points: seq<Point>, order: seq<u32>): seq<Contact>
    requires IsOrder(order, AfterBatch(h, points).active)
  {
    InOrder(order, AfterBatch(h, points).active) + Releases(h, points)
  }

  // ------------------------------------------------------------------ The host's invariant

  predicate Injective(slots: map<u32, nat>) {
    forall a, b :: a in slots && b in slots && a != b ==> slots[a] != slots[b]
  }

  /** `active` has the same pointers as `slots` with matching identities, all touching. */
  predicate Matching(h: Host) {
    && h.slots.Keys == h.active.Keys
    && (forall id :: id in h.slots ==>
          h.slots[id] < MAX_SLOTS && h.active[id].identity == h.slots[id] && h.active[id].touching)
  }

  predicate HostOk(h: Host) {
    Matching(h) && Injective(h.slots)
  }

  lemma AllocateOk(slots: map<u32, nat>, id: u32)
    requires Injective(slots)
    ensures Injective(AfterAllocate(slots, id))
  {
    assert forall a :: a in slots ==> slots[a] in slots.Values;
  }

  lemma AllocateKeeps(slots: map<u32, nat>, id: u32)
    ensures var after := AfterAllocate(slots, id);
            && (forall a :: a in slots ==> a in after && after[a] == slots[a])
            && (if Allocate(slots, id).Some?
                then after.Keys == slots.Keys + {id} && after[id] == Allocate(slots, id).value
                else after == slots)
  {
  }

  lemma {:induction false} ReleasesKeepHost(h: Host, points: seq<Point>)
    requires HostOk(h)
    ensures HostOk(ReleaseUps(h, points).0)
  {
    if points != [] {
      ReleasesKeepHost(h, points[..|points| - 1]);
    }
  }

  lemma {:induction false} RestKeepsHost(h: Host, points: seq<Point>)
    requires HostOk(h)
    ensures HostOk(ApplyRest(h, points))
  {
    if points != [] {
      var k := |points| - 1;
      RestKeepsHost(h, points[..k]);
      var before, p := ApplyRest(h, points[..k]), points[k];
      if p.action.Down? {
        AllocateOk(before.slots, p.id);
        AllocateStaysSmall(before, p);
      }
    }
  }

  lemma AllocateStaysSmall(h: Host, p: Point)
    requires Matching(h)
    ensures var slots := AfterAllocate(h.slots, p.id);
            if p.id in slots then Matching(Host(slots, h.active[p.id := PointContact(p, slots[p.id], true)]))
            else slots == h.slots
  {
  }

  /** `h'` has some of `h`'s pointers, with their slots, and `releases` tells the slots of the others. */
  ghost predicate AfterUps(h: Host, h': Host, releases: seq<Contact>) {
    && h'.slots.Keys <= h.slots.Keys
    && (forall id :: id in h'.slots ==> h'.slots[id] == h.slots[id])
    && (forall id :: id in h.slots && id !in h'.slots ==> ReleasedAt(releases, h.slots[id]))
    && (forall i :: 0 <= i < |releases| ==> !releases[i].touching)
    && |h'.slots| + |releases| == |h.slots|
  }

  lemma {:induction false} ReleasesOk(h: Host, points: seq<Point>)
    requires HostOk(h)
    ensures AfterUps(h, ReleaseUps(h, points).0, Releases(h, points))
  {
    if points != [] {
      var k := |points| - 1;
      ReleasesOk(h, points[..k]);
      ReleasesKeepHost(h, points[..k]);
      var (before, earlier) := ReleaseUps(h, points[..k]);
      if points[k].action.Up? && points[k].id in before.slots {
        ReleaseOne(h, before, earlier, points[k]);
      }
    }
  }

  lemma ReleaseOne(h: Host, before: Host, earlier: seq<Contact>, p: Point)
    requires AfterUps(h, before, earlier) && p.id in before.slots
    ensures AfterUps(h, Host(before.slots - {p.id}, before.active - {p.id}),
                     earlier + [PointContact(p, before.slots[p.id], false)])
  {
    assert (before.slots - {p.id}).Keys == before.slots.Keys - {p.id};
    forall id | id in h.slots && id !in before.slots - {p.id}
      ensures ReleasedAt(earlier + [PointContact(p, before.slots[p.id], false)], h.slots[id])
    {
      ReleasedByOne(h, before, earlier, p, id);
    }
  }

  lemma ReleasedByOne(h: Host, before: Host, earlier: seq<Contact>, p: Point, id: u32)
    requires AfterUps(h, before, earlier) && p.id in before.slots && id in h.slots
      && (id in before.slots ==> id == p.id)
    ensures ReleasedAt(earlier + [PointContact(p, before.slots[p.id], false)], h.slots[id])
  {
    var releases := earlier + [PointContact(p, before.slots[p.id], false)];
    if id in before.slots {
      assert releases[|earlier|].identity == h.slots[id];
    } else {
      ReleasedSnoc(earlier, releases, h.slots[id]);
    }
  }

  /** Only an `up` takes a pointer out. */
  lemma {:induction false} OnlyUpsRelease(h: Host, points: seq<Point>, id: u32)
    requires id in h.slots && forall i :: 0 <= i < |points| ==> points[i].id != id || !points[i].action.Up?
    ensures id in ReleaseUps(h, points).0.slots
  {
    if points != [] {
      OnlyUpsRelease(h, points[..|points| - 1], id);
    }
  }

  ghost predicate ReleasedAt(releases: seq<Contact>, slot: nat) {
    exists i :: 0 <= i < |releases| && releases[i].identity == slot
  }

  lemma ReleasedSnoc(a: seq<Contact>, b: seq<Contact>, slot: nat)
    requires ReleasedAt(a, slot) && a <= b
    ensures ReleasedAt(b, slot)
  {
  }

  /** `h'` is `h` with pointers added: those there before keep their slots. */
  predicate AfterRest(h: Host, h': Host) {
    && h.slots.Keys <= h'.slots.Keys
    && (forall id :: id in h.slots ==> h'.slots[id] == h.slots[id])
  }

  lemma {:induction false} RestOk(h: Host, points: seq<Point>)
    ensures AfterRest(h, ApplyRest(h, points)) && |ApplyRest(h, points).slots| <= |h.slots| + Downs(points)
  {
    if points != [] {
      var k := |points| - 1;
      RestOk(h, points[..k]);
      var before, p := ApplyRest(h, points[..k]), points[k];
      if p.action.Down? {
        AllocateKeeps(before.slots, p.id);
        CardinalityStep(AfterAllocate(before.slots, p.id).Keys, before.slots.Keys, p.id);
      }
    }
  }

  lemma CardinalityStep<T>(a: set<T>, b: set<T>, x: T)
    requires a <= b + {x}
    ensures |a| <= |b| + 1
  {
    SubsetSize(a, b + {x});
  }

  function Downs(points: seq<Point>): nat {
    if points == [] then 0
    else Downs(points[..|points| - 1]) + if points[|points| - 1].action.Down? then 1 else 0
  }

  lemma {:induction false} UpsAndDowns(h: Host, points: seq<Point>)
    ensures |Releases(h, points)| + Downs(points) <= |points|
  {
    if points != [] {
      UpsAndDowns(h, points[..|points| - 1]);
    }
  }

  /** An injective map into 0..n has at most n entries. */
  lemma {:induction false} Pigeonhole(slots: map<u32, nat>, n: nat)
    requires Injective(slots) && forall id :: id in slots ==> slots[id] < n
    ensures |slots| <= n
    decreases n
  {
    if id :| id in slots && slots[id] == n - 1 {
      var fewer := slots - {id};
      assert fewer.Keys == slots.Keys - {id};
      Pigeonhole(fewer, n - 1);
    } else if n > 0 {
      Pigeonhole(slots, n - 1);
    } else {
      assert forall id :: id !in slots;
      assert slots == map[];
    }
  }

  // ------------------------------------------------------------------ The device

  datatype Position = Position(x: u16, y: u16)

  /** The touched slots and where they are touched. */
  type Device = map<nat, Position>

  function ApplyContact(d: Device, c: Contact): Device {
    if c.touching then d[c.identity := Position(c.x, c.y)] else d - {c.identity}
  }

  /** A report takes effect contact by contact. */
  function ApplyReport(d: Device, contacts: seq<Contact>): Device {
    if contacts == [] then d
    else ApplyContact(ApplyReport(d, contacts[..|contacts| - 1]), contacts[|contacts| - 1])
  }

  ghost predicate HeldBy(active: map<u32, Contact>, slot: nat) {
    exists id :: id in active && active[id].identity == slot
  }

  /** Nothing is touched on the device that the host does not know of. */
  ghost predicate NoPhantom(d: Device, active: map<u32, Contact>) {
    forall slot :: slot in d ==> HeldBy(active, slot)
  }

  /** The device's touched slots and positions are exactly the host's. */
  ghost predicate Agrees(d: Device, active: map<u32, Contact>) {
    && NoPhantom(d, active)
    && (forall id :: id in active ==> Shows(d, active[id]))
  }

  /** Some slot freed by an `up` of this batch is held again after it. */
  ghost predicate SlotReused(h: Host, points: seq<Point>) {
    exists i :: 0 <= i < |Releases(h, points)| && HeldBy(AfterBatch(h, points).active, Releases(h, points)[i].identity)
  }

  lemma ReportAppend(d: Device, a: seq<Contact>, b: seq<Contact>)
    ensures ApplyReport(d, a + b) == ApplyReport(ApplyReport(d, a), b)
    decreases |b|
  {
    if b == [] {
      assert a + b == a;
    } else {
      assert (a + b)[..|a + b| - 1] == a + b[..|b| - 1];
      ReportAppend(d, a, b[..|b| - 1]);
    }
  }

  /** After the touching part every listed contact is on the device, and other slots are as before. */
  lemma {:induction false} ApplyTouching(d: Device, h: Host, order: seq<u32>)
    requires HostOk(h) && forall i :: 0 <= i < |order| ==> order[i] in h.active
    requires forall i, j :: 0 <= i < j < |order| ==> order[i] != order[j]
    ensures TouchesApplied(d, ApplyReport(d, InOrder(order, h.active)), h, order)
  {
    if order != [] {
      var k := |order| - 1;
      ApplyTouching(d, h, order[..k]);
      assert InOrder(order, h.active)[..|InOrder(order, h.active)| - 1] == InOrder(order[..k], h.active);
      forall i | 0 <= i < k
        ensures h.active[order[i]].identity != h.active[order[k]].identity
      {
        IdentitiesDiffer(h, order[i], order[k]);
      }
      ApplyOneTouch(d, ApplyReport(d, InOrder(order[..k], h.active)), h, order);
    }
  }

  ghost predicate TouchesApplied(d: Device, d': Device, h: Host, order: seq<u32>) {
    && (forall i :: 0 <= i < |order| ==> order[i] in h.active && Shows(d', h.active[order[i]]))
    && (forall slot :: slot in d' ==> slot in d || HeldBy(h.active, slot))
  }

  lemma ApplyOneTouch(d: Device, before: Device, h: Host, order: seq<u32>)
    requires order != [] && order[|order| - 1] in h.active && h.active[order[|order| - 1]].touching
    requires TouchesApplied(d, before, h, order[..|order| - 1])
    requires forall i :: 0 <= i < |order| - 1 ==>
               order[i] in h.active && h.active[order[i]].identity != h.active[order[|order| - 1]].identity
    ensures TouchesApplied(d, ApplyContact(before, h.active[order[|order| - 1]]), h, order)
  {
  }

  lemma IdentitiesDiffer(h: Host, a: u32, b: u32)
    requires HostOk(h) && a in h.active && b in h.active && a != b
    ensures h.active[a].identity != h.active[b].identity
  {
  }

  predicate Shows(d: Device, c: Contact) {
    c.identity in d && d[c.identity] == Position(c.x, c.y)
  }

  lemma {:induction false} InOrderLength(order: seq<u32>, active: map<u32, Contact>)
    requires forall i :: 0 <= i < |order| ==> order[i] in active
    ensures |InOrder(order, active)| == |order|
  {
    if order != [] {
      InOrderLength(order[..|order| - 1], active);
    }
  }

  lemma {:induction false} ApplyReleases(d: Device, releases: seq<Contact>)
    requires forall i :: 0 <= i < |releases| ==> !releases[i].touching
    ensures var d' := ApplyReport(d, releases);
            && (forall slot :: slot in d' <==> slot in d && !ReleasedAt(releases, slot))
            && (forall slot :: slot in d' ==> d'[slot] == d[slot])
  {
    if releases != [] {
      var k := |releases| - 1;
      ApplyReleases(d, releases[..k]);
      forall slot
        ensures ReleasedAt(releases, slot) <==> ReleasedAt(releases[..k], slot) || releases[k].identity == slot
      {
        if ReleasedAt(releases[..k], slot) {
          ReleasedSnoc(releases[..k], releases, slot);
        }
        if ReleasedAt(releases, slot) {
          var i :| 0 <= i < |releases| && releases[i].identity == slot;
          assert i < k ==> releases[..k][i].identity == slot;
        }
      }
    }
  }

  /**
   * One batch: the host's invariant holds, a report has at most 7 contacts, the device never keeps a touch the host has
   * forgotten, and it agrees with the host exactly when the batch's new pointers do not reach a slot the batch gives
   * back.
   */
  lemma BatchStep(h: Host, points: seq<Point>, order: seq<u32>, d: Device)
    requires HostOk(h) && ValidBatch(points) && IsOrder(order, AfterBatch(h, points).active) && NoPhantom(d, h.active)
    ensures var h' := AfterBatch(h, points); var d' := ApplyReport(d, Report(h, points, order));
            && HostOk(h') && |Report(h, points, order)| <= 7
            && NoPhantom(d', h'.active)
            && (Agrees(d', h'.active) <==> !TakesFreed(h, points))
  {
    var h', releases := AfterBatch(h, points), Releases(h, points);
    BatchKeepsHost(h, points);
    ReleasesOk(h, points);
    ReportSize(h, points, order);
    ReportAppend(d, InOrder(order, h'.active), releases);
    var d1 := ApplyReport(d, InOrder(order, h'.active));
    ApplyTouching(d, h', order);
    ApplyReleases(d1, releases);
    forall slot | slot in d && !ReleasedAt(releases, slot)
      ensures HeldBy(h'.active, slot)
    {
      StillHeld(h, points, slot);
    }
    AgreementIff(d, d1, ApplyReport(d1, releases), h', order, releases);
    ReuseCondition(h, points);
  }

  lemma BatchKeepsHost(h: Host, points: seq<Point>)
    requires HostOk(h)
    ensures HostOk(AfterBatch(h, points))
  {
    ReleasesKeepHost(h, points);
    RestKeepsHost(ReleaseUps(h, points).0, points);
  }

  lemma AgreementIff(d: Device, d1: Device, d': Device, h': Host, order: seq<u32>, releases: seq<Contact>)
    requires IsOrder(order, h'.active)
    requires forall i :: 0 <= i < |order| ==> Shows(d1, h'.active[order[i]])
    requires forall slot :: slot in d1 ==> slot in d || HeldBy(h'.active, slot)
    requires forall slot :: slot in d' <==> slot in d1 && !ReleasedAt(releases, slot)
    requires forall slot :: slot in d' ==> d'[slot] == d1[slot]
    requires forall slot :: slot in d && !ReleasedAt(releases, slot) ==> HeldBy(h'.active, slot)
    ensures NoPhantom(d', h'.active)
    ensures Agrees(d', h'.active) <==>
            forall i :: 0 <= i < |releases| ==> !HeldBy(h'.active, releases[i].identity)
  {
  }

  lemma StillHeld(h: Host, points: seq<Point>, slot: nat)
    requires HostOk(h) && HeldBy(h.active, slot) && !ReleasedAt(Releases(h, points), slot)
    ensures HeldBy(AfterBatch(h, points).active, slot)
  {
    var id :| id in h.active && h.active[id].identity == slot;
    BatchKeepsHost(h, points);
    ReleasesOk(h, points);
    RestOk(ReleaseUps(h, points).0, points);
    assert id in AfterBatch(h, points).active;
  }

  lemma ReportSize(h: Host, points: seq<Point>, order: seq<u32>)
    requires HostOk(h) && ValidBatch(points) && IsOrder(order, AfterBatch(h, points).active)
    ensures |Report(h, points, order)| <= 7
  {
    BatchKeepsHost(h, points);
    ReleasesOk(h, points);
    RestOk(ReleaseUps(h, points).0, points);
    UpsAndDowns(h, points);
    Pigeonhole(h.slots, MAX_SLOTS);
    Pigeonhole(AfterBatch(h, points).slots, MAX_SLOTS);
    InOrderLength(order, AfterBatch(h, points).active);
    OrderLength(order, AfterBatch(h, points).active.Keys);
  }

  lemma {:induction false} OrderLength(order: seq<u32>, keys: set<u32>)
    requires forall i :: 0 <= i < |order| ==> order[i] in keys
    requires forall i, j :: 0 <= i < j < |order| ==> order[i] != order[j]
    ensures |order| <= |keys|
  {
    if order != [] {
      var k := |order| - 1;
      OrderLength(order[..k], keys - {order[k]});
    }
  }

  /** A pointer keeps its slot through any batch in which it does not go up. */
  lemma PointerKeepsSlot(h: Host, points: seq<Point>, id: u32)
    requires HostOk(h) && id in h.slots
    requires forall i :: 0 <= i < |points| ==> points[i].id != id || !points[i].action.Up?
    ensures id in AfterBatch(h, points).slots && AfterBatch(h, points).slots[id] == h.slots[id]
  {
    ReleasesOk(h, points);
    OnlyUpsRelease(h, points, id);
    RestOk(ReleaseUps(h, points).0, points);
  }

  // ------------------------------------------------------------------ When a freed slot is taken again

  /** The slots that the `up` points of a batch give back. */
  function Freed(h: Host, points: seq<Point>): set<nat> {
    set i | 0 <= i < |points| && points[i].action.Up? && points[i].id in h.slots :: h.slots[points[i].id]
  }

  /** The `down` points of pointers without a slot. */
  function NewDowns(slots: map<u32, nat>, points: seq<Point>): nat {
    if points == [] then 0 else
    var p := points[|points| - 1];
    NewDowns(slots, points[..|points| - 1]) + if p.action.Down? && p.id !in slots then 1 else 0
  }

  /** How many slots below `slot` no pointer holds. */
  function FreeBelow(slots: map<u32, nat>, slot: nat): nat {
    if slot == 0 then 0 else FreeBelow(slots, slot - 1) + if slot - 1 in slots.Values then 0 else 1
  }

  /** The new pointers of the batch outnumber the slots that were free below some slot it gives back. */
  predicate TakesFreed(h: Host, points: seq<Point>) {
    exists slot :: slot in Freed(h, points) && FreeBelow(h.slots, slot) < NewDowns(h.slots, points)
  }

  lemma {:induction false} FreeBelowGrows(slots: map<u32, nat>, a: nat, b: nat)
    requires a <= b
    ensures FreeBelow(slots, a) <= FreeBelow(slots, b)
    ensures a < b && a !in slots.Values ==> FreeBelow(slots, a) < FreeBelow(slots, b)
    decreases b
  {
    if a < b {
      FreeBelowGrows(slots, a, b - 1);
    }
  }

  /** Every rank below that of `slot` belongs to some free slot. */
  lemma {:induction false} FreeAtRank(slots: map<u32, nat>, slot: nat, n: nat) returns (s: nat)
    requires n < FreeBelow(slots, slot)
    ensures s < slot && s !in slots.Values && FreeBelow(slots, s) == n
    decreases slot
  {
    if n == FreeBelow(slots, slot - 1) {
      s := slot - 1;
    } else {
      s := FreeAtRank(slots, slot - 1, n);
    }
  }

  lemma ValuesAfterAdd(held: map<u32, nat>, id: u32, slot: nat)
    requires id !in held
    ensures held[id := slot].Values == held.Values + {slot}
  {
    var more := held[id := slot];
    forall s | s in held.Values + {slot}
      ensures s in more.Values
    {
      if s != slot {
        var p :| p in held && held[p] == s;
        assert more[p] == s;
      } else {
        assert more[id] == slot;
      }
    }
  }

  /** Of the slots free in `base`, exactly the `n` lowest are taken in `slots`. */
  ghost predicate LowestTaken(base: map<u32, nat>, slots: map<u32, nat>, n: nat) {
    && (forall s :: s in base.Values ==> s in slots.Values)
    && (forall s :: 0 <= s < MAX_SLOTS && s !in base.Values ==> (s in slots.Values <==> FreeBelow(base, s) < n))
  }

  /** A new pointer takes the lowest slot left: the `n`-th of those free in `base`. */
  lemma {:induction false} TakesNext(base: map<u32, nat>, slots: map<u32, nat>, n: nat)
    requires LowestTaken(base, slots, n) && SmallestFree(slots, 0) < MAX_SLOTS
    ensures FreeBelow(base, SmallestFree(slots, 0)) == n
  {
    var t := SmallestFree(slots, 0);
    if n < FreeBelow(base, t) {
      var s := FreeAtRank(base, t, n);
    }
  }

  lemma {:induction false} AllocateTakes(base: map<u32, nat>, slots: map<u32, nat>, id: u32, n: nat)
    requires LowestTaken(base, slots, n) && id !in slots
    ensures LowestTaken(base, AfterAllocate(slots, id), n + 1)
  {
    var t := SmallestFree(slots, 0);
    if t < MAX_SLOTS {
      TakesNext(base, slots, n);
      ValuesAfterAdd(slots, id, t);
      forall s | 0 <= s < MAX_SLOTS && s !in base.Values
        ensures s == t || (s in slots.Values <==> FreeBelow(base, s) < n + 1)
      {
        if s < t {
          FreeBelowGrows(base, s, t);
        } else if t < s {
          FreeBelowGrows(base, t, s);
        }
      }
    }
  }

  lemma {:induction false} RestAddsDowns(h: Host, points: seq<Point>, id: u32)
    requires id !in h.slots && forall i :: 0 <= i < |points| ==> points[i].id != id
    ensures id !in ApplyRest(h, points).slots
  {
    if points != [] {
      RestAddsDowns(h, points[..|points| - 1], id);
      AllocateKeeps(ApplyRest(h, points[..|points| - 1]).slots, points[|points| - 1].id);
    }
  }

  lemma {:induction false} RestTakesLowest(h: Host, points: seq<Point>)
    requires DistinctIds(points)
    ensures LowestTaken(h.slots, ApplyRest(h, points).slots, NewDowns(h.slots, points))
  {
    if points != [] {
      var k := |points| - 1;
      RestTakesLowest(h, points[..k]);
      var before, p := ApplyRest(h, points[..k]).slots, points[k];
      if p.action.Down? {
        RestOk(h, points[..k]);
        if p.id in h.slots {
          KeepsSlots(before, p.id);
        } else {
          RestAddsDowns(h, points[..k], p.id);
          AllocateTakes(h.slots, before, p.id, NewDowns(h.slots, points[..k]));
        }
      }
      RestSlots(h, points);
    }
  }

  lemma {:induction false} RestSlots(h: Host, points: seq<Point>)
    requires points != []
    ensures var before, p := ApplyRest(h, points[..|points| - 1]).slots, points[|points| - 1];
            ApplyRest(h, points).slots == if p.action.Down? then AfterAllocate(before, p.id) else before
  {
    AllocateKeeps(ApplyRest(h, points[..|points| - 1]).slots, points[|points| - 1].id);
  }

  lemma KeepsSlots(slots: map<u32, nat>, id: u32)
    requires id in slots
    ensures AfterAllocate(slots, id) == slots
  {
    assert slots[id := slots[id]] == slots;
  }

  predicate GoesUp(points: seq<Point>, id: u32) {
    exists i :: 0 <= i < |points| && points[i].action.Up? && points[i].id == id
  }

  lemma GoesUpSnoc(points: seq<Point>, id: u32)
    requires points != []
    ensures var k := |points| - 1;
            GoesUp(points, id) <==> GoesUp(points[..k], id) || (points[k].action.Up? && points[k].id == id)
  {
    var k := |points| - 1;
    if GoesUp(points[..k], id) {
      var i :| 0 <= i < k && points[..k][i].action.Up? && points[..k][i].id == id;
      assert points[i].id == id;
    }
    if GoesUp(points, id) {
      var i :| 0 <= i < |points| && points[i].action.Up? && points[i].id == id;
      assert i < k ==> points[..k][i].id == id;
    }
  }

  lemma {:induction false} UpsLeave(h: Host, points: seq<Point>, id: u32)
    ensures id in ReleaseUps(h, points).0.slots <==> id in h.slots && !GoesUp(points, id)
  {
    if points != [] {
      UpsLeave(h, points[..|points| - 1], id);
      GoesUpSnoc(points, id);
    }
  }

  lemma {:induction false} ReleasesAreFreed(h: Host, points: seq<Point>, i: nat)
    requires HostOk(h) && i < |Releases(h, points)|
    ensures Releases(h, points)[i].identity in Freed(h, points)
  {
    var k := |points| - 1;
    var p := points[k];
    var (before, earlier) := ReleaseUps(h, points[..k]);
    FreedGrows(h, points);
    if i < |earlier| {
      ReleasesAreFreed(h, points[..k], i);
    } else {
      ReleasesOk(h, points[..k]);
      assert Releases(h, points)[i].identity == before.slots[p.id];
    }
  }

  lemma {:induction false} FreedGrows(h: Host, points: seq<Point>)
    requires points != []
    ensures var k := |points| - 1;
            Freed(h, points) == Freed(h, points[..k]) +
              if points[k].action.Up? && points[k].id in h.slots then {h.slots[points[k].id]} else {}
  {
    var k := |points| - 1;
    forall slot | slot in Freed(h, points)
      ensures slot in Freed(h, points[..k])
           || (points[k].action.Up? && points[k].id in h.slots && slot == h.slots[points[k].id])
    {
      var i :| 0 <= i < |points| && points[i].action.Up? && points[i].id in h.slots && h.slots[points[i].id] == slot;
      assert i < k ==> points[..k][i] == points[i];
    }
  }

  lemma {:induction false} FreedAreReleased(h: Host, points: seq<Point>, slot: nat)
    requires HostOk(h) && slot in Freed(h, points)
    ensures ReleasedAt(Releases(h, points), slot)
  {
    var i :| 0 <= i < |points| && points[i].action.Up? && points[i].id in h.slots && h.slots[points[i].id] == slot;
    ReleasesOk(h, points);
    UpsLeave(h, points, points[i].id);
  }

  /** After the first pass the slots in use are those used before and not given back. */
  lemma {:induction false} UsedAfterUps(h: Host, points: seq<Point>, slot: nat)
    requires HostOk(h)
    ensures slot in ReleaseUps(h, points).0.slots.Values <==> slot in h.slots.Values && slot !in Freed(h, points)
  {
    var h' := ReleaseUps(h, points).0;
    ReleasesOk(h, points);
    if slot in h'.slots.Values {
      var id :| id in h'.slots && h'.slots[id] == slot;
      UpsLeave(h, points, id);
    }
    if slot in h.slots.Values && slot !in Freed(h, points) {
      var id :| id in h.slots && h.slots[id] == slot;
      UpsLeave(h, points, id);
      assert h'.slots[id] == slot;
    }
  }

  /** A batch names each pointer once, so no `down` is for a pointer that goes up in it. */
  lemma {:induction false} DownsUnchanged(h: Host, points: seq<Point>)
    requires HostOk(h) && DistinctIds(points)
    ensures NewDowns(ReleaseUps(h, points).0.slots, points) == NewDowns(h.slots, points)
  {
    forall i | 0 <= i < |points| && points[i].action.Down?
      ensures points[i].id in ReleaseUps(h, points).0.slots <==> points[i].id in h.slots
    {
      UpsLeave(h, points, points[i].id);
    }
    SameDowns(ReleaseUps(h, points).0.slots, h.slots, points);
  }

  lemma {:induction false} SameDowns(a: map<u32, nat>, b: map<u32, nat>, points: seq<Point>)
    requires forall i :: 0 <= i < |points| && points[i].action.Down? ==> (points[i].id in a <==> points[i].id in b)
    ensures NewDowns(a, points) == NewDowns(b, points)
  {
    if points != [] {
      SameDowns(a, b, points[..|points| - 1]);
    }
  }

  /** Giving slots back only adds free ones, and none below the lowest given back. */
  lemma {:induction false} FreeBelowAfterUps(a: map<u32, nat>, b: map<u32, nat>, slot: nat)
    requires forall s :: s in b.Values ==> s in a.Values
    ensures FreeBelow(a, slot) <= FreeBelow(b, slot)
    ensures (forall s :: 0 <= s < slot ==> (s in a.Values <==> s in b.Values))
            ==> FreeBelow(a, slot) == FreeBelow(b, slot)
  {
    if slot > 0 {
      FreeBelowAfterUps(a, b, slot - 1);
    }
  }

  lemma {:induction false} LowestFreed(freed: set<nat>, slot: nat) returns (low: nat)
    requires slot in freed
    ensures low in freed && low <= slot && forall s :: 0 <= s < low ==> s !in freed
    decreases slot
  {
    if s :| 0 <= s < slot && s in freed {
      low := LowestFreed(freed, s);
    } else {
      low := slot;
    }
  }

  /** A slot given back in the batch is held after it exactly if the new pointers reach it. */
  lemma {:induction false} HeldAgain(h: Host, points: seq<Point>, slot: nat)
    requires HostOk(h) && ValidBatch(points) && slot in Freed(h, points)
    ensures HeldBy(AfterBatch(h, points).active, slot) <==>
            FreeBelow(ReleaseUps(h, points).0.slots, slot) < NewDowns(h.slots, points)
  {
    var h1, h' := ReleaseUps(h, points).0, AfterBatch(h, points);
    BatchKeepsHost(h, points);
    UsedAfterUps(h, points, slot);
    RestTakesLowest(h1, points);
    DownsUnchanged(h, points);
    HeldIsUsed(h', slot);
  }

  lemma HeldIsUsed(h: Host, slot: nat)
    requires Matching(h)
    ensures HeldBy(h.active, slot) <==> slot in h.slots.Values
  {
    if slot in h.slots.Values {
      var id :| id in h.slots && h.slots[id] == slot;
      assert h.active[id].identity == slot;
    }
  }

  /**
   * From what is known before the batch: a slot is freed and taken again exactly if the new pointers reach a freed
   * slot.
   */
  lemma {:induction false} ReuseCondition(h: Host, points: seq<Point>)
    requires HostOk(h) && ValidBatch(points)
    ensures SlotReused(h, points) <==> TakesFreed(h, points)
  {
    var h1 := ReleaseUps(h, points).0;
    forall s
      ensures s in h1.slots.Values <==> s in h.slots.Values && s !in Freed(h, points)
    {
      UsedAfterUps(h, points, s);
    }
    if SlotReused(h, points) {
      var i :| 0 <= i < |Releases(h, points)| && HeldBy(AfterBatch(h, points).active, Releases(h, points)[i].identity);
      var slot := Releases(h, points)[i].identity;
      ReleasesAreFreed(h, points, i);
      HeldAgain(h, points, slot);
      FreeBelowAfterUps(h.slots, h1.slots, slot);
    }
    if TakesFreed(h, points) {
      var slot :| slot in Freed(h, points) && FreeBelow(h.slots, slot) < NewDowns(h.slots, points);
      var low := LowestFreed(Freed(h, points), slot);
      FreeBelowGrows(h.slots, low, slot);
      FreeBelowAfterUps(h.slots, h1.slots, low);
      HeldAgain(h, points, low);
      FreedAreReleased(h, points, low);
    }
  }

  // ------------------------------------------------------------------ What a batch does to each pointer

  predicate Named(points: seq<Point>, id: u32) {
    exists i :: 0 <= i < |points| && points[i].id == id
  }

  lemma NamedBefore(points: seq<Point>, id: u32)
    requires points != [] && !Named(points, id)
    ensures !Named(points[..|points| - 1], id) && points[|points| - 1].id != id
  {
    var earlier := points[..|points| - 1];
    forall i | 0 <= i < |earlier|
      ensures earlier[i].id != id
    {
      assert points[i].id != id;
    }
  }

  lemma {:induction false} UnnamedThroughRest(h: Host, points: seq<Point>, id: u32)
    requires !Named(points, id)
    ensures id in ApplyRest(h, points).slots <==> id in h.slots
    ensures id in ApplyRest(h, points).active <==> id in h.active
    ensures id in h.active ==> ApplyRest(h, points).active[id] == h.active[id]
  {
    if points != [] {
      NamedBefore(points, id);
      UnnamedThroughRest(h, points[..|points| - 1], id);
      AllocateKeeps(ApplyRest(h, points[..|points| - 1]).slots, points[|points| - 1].id);
    }
  }

  lemma {:induction false} ContactThroughUps(h: Host, points: seq<Point>, id: u32)
    requires id in h.active && !GoesUp(points, id)
    ensures var h' := ReleaseUps(h, points).0; id in h'.active && h'.active[id] == h.active[id]
  {
    if points != [] {
      GoesUpSnoc(points, id);
      ContactThroughUps(h, points[..|points| - 1], id);
    }
  }

  /** Pointers the batch does not name keep their contact. */
  lemma {:induction false} UnnamedKeep(h: Host, points: seq<Point>, id: u32)
    requires HostOk(h) && !Named(points, id)
    ensures var h' := AfterBatch(h, points);
            && (id in h'.active <==> id in h.active) && (id in h'.slots <==> id in h.slots)
            && (id in h.active ==> id in h'.active && h'.active[id] == h.active[id])
  {
    var h1 := ReleaseUps(h, points).0;
    ReleasesKeepHost(h, points);
    UpsLeave(h, points, id);
    if id in h.active {
      ContactThroughUps(h, points, id);
    }
    UnnamedThroughRest(h1, points, id);
  }

  /** The pointer, if it has a slot, is where the point says. */
  predicate Placed(h: Host, p: Point) {
    p.id in h.slots ==> p.id in h.active && h.active[p.id] == Contact(h.slots[p.id], true, p.x, p.y)
  }

  /** The last point of a batch that touches: its pointer, if it has a slot, is where the point says. */
  lemma {:induction false} LastPlaced(h: Host, points: seq<Point>)
    requires points != [] && !points[|points| - 1].action.Up?
    ensures var h', p := ApplyRest(h, points), points[|points| - 1];
            Placed(h', p)
    ensures var h', p := ApplyRest(h, points), points[|points| - 1];
            p.action.Move? ==> (p.id in h'.slots <==> p.id in ApplyRest(h, points[..|points| - 1]).slots)
  {
    AllocateKeeps(ApplyRest(h, points[..|points| - 1]).slots, points[|points| - 1].id);
  }

  /** The last point of a batch leaves the other pointers alone. */
  lemma {:induction false} LastLeavesOthers(h: Host, points: seq<Point>, id: u32)
    requires points != [] && points[|points| - 1].id != id
    ensures var before, h' := ApplyRest(h, points[..|points| - 1]), ApplyRest(h, points);
            && (id in h'.slots <==> id in before.slots) && (id in before.slots ==> h'.slots[id] == before.slots[id])
            && (id in h'.active <==> id in before.active)
            && (id in before.active ==> h'.active[id] == before.active[id])
  {
    AllocateKeeps(ApplyRest(h, points[..|points| - 1]).slots, points[|points| - 1].id);
  }

  lemma {:induction false} PlacedInRest(h: Host, points: seq<Point>, i: nat)
    requires DistinctIds(points) && i < |points| && !points[i].action.Up?
    ensures var h', p := ApplyRest(h, points), points[i];
            Placed(h', p) && (p.action.Move? ==> (p.id in h'.slots <==> p.id in h.slots))
  {
    var k := |points| - 1;
    if i == k {
      LastPlaced(h, points);
      assert !Named(points[..k], points[k].id);
      UnnamedThroughRest(h, points[..k], points[k].id);
    } else {
      PlacedInRest(h, points[..k], i);
      LastLeavesOthers(h, points, points[i].id);
    }
  }

  /**
   * A `down` or `move` puts its pointer, if it has a slot, exactly where the point says; a `move` gives no slot and
   * takes none; an `up` takes the pointer out.
   */
  lemma {:induction false} BatchFollowsPoints(h: Host, points: seq<Point>, i: nat)
    requires HostOk(h) && ValidBatch(points) && i < |points|
    ensures var h', p := AfterBatch(h, points), points[i];
            match p.action
            case Up => p.id !in h'.slots && p.id !in h'.active
            case Down => Placed(h', p)
            case Move => Placed(h', p) && (p.id in h'.slots <==> p.id in h.slots)
  {
    var h1 := ReleaseUps(h, points).0;
    UpsLeave(h, points, points[i].id);
    BatchKeepsHost(h, points);
    if points[i].action.Up? {
      UpStaysOut(h1, points, i);
    } else {
      assert !GoesUp(points, points[i].id);
      PlacedInRest(h1, points, i);
    }
  }

  lemma {:induction false} UpStaysOut(h: Host, points: seq<Point>, i: nat)
    requires DistinctIds(points) && i < |points| && points[i].action.Up? && points[i].id !in h.slots
    ensures points[i].id !in ApplyRest(h, points).slots
  {
    var k := |points| - 1;
    if i == k {
      assert !Named(points[..k], points[k].id);
      UnnamedThroughRest(h, points[..k], points[k].id);
    } else {
      UpStaysOut(h, points[..k], i);
      LastLeavesOthers(h, points, points[i].id);
    }
  }

  /** Every release of the report is some `up` point's: slot, not touching, and that point's coordinates. */
  lemma {:induction false} ReleaseHasPoint(h: Host, points: seq<Point>, j: nat)
    requires HostOk(h) && j < |Releases(h, points)|
    ensures exists i :: 0 <= i < |points| && ReleasedBy(h, points[i], Releases(h, points)[j])
  {
    var k := |points| - 1;
    var p := points[k];
    var (before, earlier) := ReleaseUps(h, points[..k]);
    if j < |earlier| {
      ReleaseHasPoint(h, points[..k], j);
      var i :| 0 <= i < k && ReleasedBy(h, points[..k][i], earlier[j]);
      assert ReleasedBy(h, points[i], Releases(h, points)[j]);
    } else {
      ReleasesOk(h, points[..k]);
      assert ReleasedBy(h, points[k], Releases(h, points)[j]);
    }
  }

  predicate ReleasedBy(h: Host, p: Point, c: Contact) {
    p.action.Up? && p.id in h.slots && c == Contact(h.slots[p.id], false, p.x, p.y)
  }

  /** And every `up` point of a held pointer has its release in the report. */
  lemma {:induction false} PointHasRelease(h: Host, points: seq<Point>, i: nat)
    requires HostOk(h) && DistinctIds(points) && i < |points| && points[i].action.Up? && points[i].id in h.slots
    ensures Contact(h.slots[points[i].id], false, points[i].x, points[i].y) in Releases(h, points)
  {
    var k := |points| - 1;
    if i == k {
      assert !GoesUp(points[..k], points[k].id);
      UpsLeave(h, points[..k], points[k].id);
      LastReleases(h, points);
    } else {
      PointHasRelease(h, points[..k], i);
      ReleasesGrow(h, points, Contact(h.slots[points[i].id], false, points[i].x, points[i].y));
    }
  }

  lemma {:induction false} ReleasesGrow(h: Host, points: seq<Point>, c: Contact)
    requires points != [] && c in Releases(h, points[..|points| - 1])
    ensures c in Releases(h, points)
  {
  }

  lemma {:induction false} LastReleases(h: Host, points: seq<Point>)
    requires HostOk(h) && points != []
    requires var p := points[|points| - 1]; p.action.Up? && p.id in ReleaseUps(h, points[..|points| - 1]).0.slots
    ensures var p := points[|points| - 1];
            p.id in h.slots && Contact(h.slots[p.id], false, p.x, p.y) in Releases(h, points)
  {
    var k := |points| - 1;
    var earlier := Releases(h, points[..k]);
    ReleasesOk(h, points[..k]);
    ReleasesKeepHost(h, points[..k]);
    assert Releases(h, points)[|earlier|] == Contact(h.slots[points[k].id], false, points[k].x, points[k].y);
  }

  /** After a batch that takes no freed slot again, the device shows every pointer of the batch where its point says. */
  lemma {:induction false} DeviceShowsPoints(h: Host, points: seq<Point>, order: seq<u32>, d: Device, i: nat)
    requires HostOk(h) && ValidBatch(points) && IsOrder(order, AfterBatch(h, points).active) && NoPhantom(d, h.active)
    requires !TakesFreed(h, points)
    requires i < |points| && !points[i].action.Up? && points[i].id in AfterBatch(h, points).slots
    ensures var d', slot := ApplyReport(d, Report(h, points, order)), AfterBatch(h, points).slots[points[i].id];
            slot in d' && d'[slot] == Position(points[i].x, points[i].y)
  {
    BatchStep(h, points, order, d);
    BatchFollowsPoints(h, points, i);
    BatchKeepsHost(h, points);
    assert Shows(ApplyReport(d, Report(h, points, order)), AfterBatch(h, points).active[points[i].id]);
  }

  // ------------------------------------------------------------------ Runs of batches

  datatype Batch = Batch(points: seq<Point>, order: seq<u32>)

  datatype Pair = Pair(h: Host, d: Device)

  predicate BatchOk(h: Host, b: Batch) {
    ValidBatch(b.points) && IsOrder(b.order, AfterBatch(h, b.points).active)
  }

  function Step(s: Pair, b: Batch): Pair
    requires BatchOk(s.h, b)
  {
    Pair(AfterBatch(s.h, b.points), ApplyReport(s.d, Report(s.h, b.points, b.order)))
  }

  predicate RunOk(s: Pair, run: seq<Batch>)
    decreases |run|
  {
    run == [] || (BatchOk(s.h, run[0]) && RunOk(Step(s, run[0]), run[1..]))
  }

  function Run(s: Pair, run: seq<Batch>): Pair
    requires RunOk(s, run)
    decreases |run|
  {
    if run == [] then s else Run(Step(s, run[0]), run[1..])
  }

  lemma {:induction false} RunKeepsHost(s: Pair, run: seq<Batch>)
    requires HostOk(s.h) && NoPhantom(s.d, s.h.active) && RunOk(s, run)
    ensures HostOk(Run(s, run).h) && NoPhantom(Run(s, run).d, Run(s, run).h.active)
    decreases |run|
  {
    if run != [] {
      BatchStep(s.h, run[0].points, run[0].order, s.d);
      RunKeepsHost(Step(s, run[0]), run[1..]);
    }
  }

  /**
   * Over all batch sequences from a clean session: no stuck touch ever, and after each batch the device agrees with the
   * host exactly when that batch's new pointers did not reach a slot it gave back. An earlier disagreement is repaired
   * by the next report.
   */
  lemma {:induction false} DeviceFollowsHost(run: seq<Batch>, last: Batch)
    requires RunOk(Pair(Host(map[], map[]), map[]), run)
    requires BatchOk(Run(Pair(Host(map[], map[]), map[]), run).h, last)
    ensures var s := Run(Pair(Host(map[], map[]), map[]), run); var s' := Step(s, last);
            && HostOk(s'.h) && NoPhantom(s'.d, s'.h.active)
            && (Agrees(s'.d, s'.h.active) <==> !TakesFreed(s.h, last.points))
  {
    var start := Pair(Host(map[], map[]), map[]);
    RunKeepsHost(start, run);
    var s := Run(start, run);
    BatchStep(s.h, last.points, last.order, s.d);
  }

  /** Freeing and reusing a slot in one batch: pointer 2 is active on the host but not on the device. */
  lemma {:induction false} ReuseLosesAContact()
    ensures var h := Host(map[1 := 0], map[1 := Contact(0, true, 5, 5)]);
            var points := [Point(1, Up, 5, 5), Point(2, Down, 9, 9)];
            var d: Device := map[0 := Position(5, 5)];
            && HostOk(h) && ValidBatch(points) && Agrees(d, h.active) && SlotReused(h, points) && TakesFreed(h, points)
            && IsOrder([2], AfterBatch(h, points).active)
            && !Agrees(ApplyReport(d, Report(h, points, [2])), AfterBatch(h, points).active)
  {
    var h := Host(map[1 := 0], map[1 := Contact(0, true, 5, 5)]);
    var points := [Point(1, Up, 5, 5), Point(2, Down, 9, 9)];
    ReplaceInOneBatch();
    OneContact(h.active, 1, 0, map[0 := Position(5, 5)]);
    OneContact(AfterBatch(h, points).active, 2, 0, map[0 := Position(9, 9)]);
    assert Releases(h, points)[0].identity == 0;
    ReuseCondition(h, points);
    BatchStep(h, points, [2], map[0 := Position(5, 5)]);
  }

  lemma OneContact(active: map<u32, Contact>, id: u32, slot: nat, d: Device)
    requires active.Keys == {id} && active[id].identity == slot
    requires d == map[slot := Position(active[id].x, active[id].y)]
    ensures HeldBy(active, slot) && Agrees(d, active) && IsOrder([id], active)
  {
    assert [id][0] == id;
  }

  lemma {:induction false} ReplaceInOneBatch()
    ensures var h := Host(map[1 := 0], map[1 := Contact(0, true, 5, 5)]);
            var points := [Point(1, Up, 5, 5), Point(2, Down, 9, 9)];
            AfterBatch(h, points).active == map[2 := Contact(0, true, 9, 9)]
            && Releases(h, points) == [Contact(0, false, 5, 5)]
  {
    var h, none := Host(map[1 := 0], map[1 := Contact(0, true, 5, 5)]), Host(map[], map[]);
    var up, down := Point(1, Up, 5, 5), Point(2, Down, 9, 9);
    assert [up, down][..1] == [up] && [up][..0] == [];
    assert h.slots - {1} == map[] && h.active - {1} == map[];
    assert ReleaseUps(h, [up][..0]) == (h, []);
    assert [] + [PointContact(up, 0, false)] == [Contact(0, false, 5, 5)];
    assert ReleaseUps(h, [up]) == (none, [Contact(0, false, 5, 5)]);
    assert ReleaseUps(h, [up, down]) == ReleaseUps(h, [up]);
    assert ApplyRest(none, [up][..0]) == none;
    assert ApplyRest(none, [up]) == none;
    assert SmallestFree(map[], 0) == 0;
  }

  function ReleaseAllFrom(slot: nat): seq<Contact>
    requires slot <= MAX_SLOTS
    decreases MAX_SLOTS - slot
  {
    if slot == MAX_SLOTS then [] else [Contact(slot, false, 0, 0)] + ReleaseAllFrom(slot + 1)
  }

  /** `release_all` leaves nothing touched, whatever state the host's bookkeeping is in. */
  lemma ReleaseAllClears(d: Device)
    requires forall slot :: slot in d ==> slot < MAX_SLOTS
    ensures ApplyReport(d, ReleaseAllFrom(0)) == map[]
  {
    ReleaseAllShape(0);
    var releases := ReleaseAllFrom(0);
    ApplyReleases(d, releases);
    forall slot | slot in d
      ensures ReleasedAt(releases, slot)
    {
      assert releases[slot].identity == slot;
    }
  }

  /** In particular after every sequence of batches. */
  lemma {:induction false} ReleaseAllAfterRun(run: seq<Batch>)
    requires RunOk(Pair(Host(map[], map[]), map[]), run)
    ensures ApplyReport(Run(Pair(Host(map[], map[]), map[]), run).d, ReleaseAllFrom(0)) == map[]
  {
    RunKeepsHost(Pair(Host(map[], map[]), map[]), run);
    ReleaseAllClears(Run(Pair(Host(map[], map[]), map[]), run).d);
  }

  lemma {:induction false} ReleaseAllShape(slot: nat)
    requires slot <= MAX_SLOTS
    ensures |ReleaseAllFrom(slot)| == MAX_SLOTS - slot
    ensures forall i :: 0 <= i < MAX_SLOTS - slot ==> ReleaseAllFrom(slot)[i] == Contact(slot + i, false, 0, 0)
    decreases MAX_SLOTS - slot
  {
    if slot < MAX_SLOTS {
      ReleaseAllShape(slot + 1);
    }
  }

  // ------------------------------------------------------------------ The main loop's state, updated in place

  datatype BatchResult = InvalidBatch | NothingToSend | Send(contacts: seq<Contact>)

  class TouchHost {
    var slots: map<u32, nat>
    var active: map<u32, Contact>

    constructor ()
      ensures View() == Host(map[], map[])
    {
      slots, active := map[], map[];
    }

    ghost function View(): Host
      reads this
    {
      Host(slots, active)
    }

    method AllocateSlot(id: u32) returns (identity: Option<nat>)
      modifies this`slots
      ensures identity == Allocate(old(slots), id) && slots == AfterAllocate(old(slots), id)
    {
      if id in slots {
        assert slots[id := slots[id]] == slots;
        return Some(slots[id]);
      }
      var candidate := 0;
      while candidate < MAX_SLOTS && candidate in slots.Values
        invariant candidate <= MAX_SLOTS && SmallestFree(slots, 0) == SmallestFree(slots, candidate)
      {
        candidate := candidate + 1;
      }
      if candidate == MAX_SLOTS {
        return None;
      }
      slots := slots[id := candidate];
      return Some(candidate);
    }

    method ReleaseUpPoints(points: seq<Point>) returns (releases: seq<Contact>)
      modifies this
      ensures (View(), releases) == ReleaseUps(old(View()), points)
    {
      releases := [];
      for i := 0 to |points|
        invariant (View(), releases) == ReleaseUps(old(View()), points[..i])
      {
        var p := points[i];
        assert points[..i + 1][..i] == points[..i];
        if p.action.Up? && p.id in slots {
          var identity := slots[p.id];
          slots := slots - {p.id};
          if p.id in active {
            active := active - {p.id};
            releases := releases + [Contact(identity, false, p.x, p.y)];
          } else {
            assert active - {p.id} == active;
          }
        }
      }
      assert points[..|points|] == points;
    }

    method ApplyOtherPoints(points: seq<Point>)
      modifies this
      ensures View() == ApplyRest(old(View()), points)
    {
      for i := 0 to |points|
        invariant View() == ApplyRest(old(View()), points[..i])
      {
        var p := points[i];
        assert points[..i + 1][..i] == points[..i];
        if !p.action.Up? {
          var identity: Option<nat>;
          if p.action.Down? {
            identity := AllocateSlot(p.id);
          } else {
            identity := if p.id in slots then Some(slots[p.id]) else None;
          }
          if identity.Some? {
            active := active[p.id := Contact(identity.value, true, p.x, p.y)];
          }
        }
      }
      assert points[..|points|] == points;
    }

    /** Validate, release, apply, and collect the report; `order` is the order the hash map happened to give. */
    method ProcessBatch(points: seq<Point>) returns (result: BatchResult, ghost order: seq<u32>)
      modifies this
      ensures !ValidBatch(points) ==> result.InvalidBatch? && View() == old(View())
      ensures result.InvalidBatch? <==>
                |points| == 0 || |points| > 5 || exists i, j :: 0 <= i < j < |points| && points[i].id == points[j].id
      ensures ValidBatch(points) ==>
                && View() == AfterBatch(old(View()), points) && IsOrder(order, active)
                && var report := Report(old(View()), points, order);
                   result == if report == [] then NothingToSend else Send(report)
    {
      order := [];
      if |points| == 0 || |points| > MAX_SLOTS {
        return InvalidBatch, [];
      }
      var seen: set<u32> := {};
      for i := 0 to |points|
        invariant forall j :: 0 <= j < i ==> points[j].id in seen
        invariant forall id :: id in seen ==> exists j :: 0 <= j < i && points[j].id == id
        invariant DistinctIds(points[..i])
      {
        if points[i].id in seen {
          var j :| 0 <= j < i && points[j].id == points[i].id;
          return InvalidBatch, [];
        }
        seen := seen + {points[i].id};
      }
      assert points[..|points|] == points;
      var releases := ReleaseUpPoints(points);
      ApplyOtherPoints(points);
      var contacts: seq<Contact>;
      contacts, order := CollectActive();
      contacts := contacts + releases;
      if contacts == [] {
        return NothingToSend, order;
      }
      return Send(contacts), order;
    }

    method CollectActive() returns (contacts: seq<Contact>, ghost order: seq<u32>)
      ensures IsOrder(order, active) && contacts == InOrder(order, active)
    {
      contacts, order := [], [];
      var left := active.Keys;
      while left != {}
        invariant left <= active.Keys
        invariant forall i :: 0 <= i < |order| ==> order[i] in active && order[i] !in left
        invariant forall id :: id in active ==> id in left || id in order
        invariant forall i, j :: 0 <= i < j < |order| ==> order[i] != order[j]
        invariant contacts == InOrder(order, active)
        decreases left
      {
        var id :| id in left;
        left := left - {id};
        assert (order + [id])[..|order|] == order;
        contacts := contacts + [active[id]];
        order := order + [id];
      }
    }
  }
}
