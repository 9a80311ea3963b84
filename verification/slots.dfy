// The Python slot state machine: a sorted free list instead of a scan, reports sent point by point.
module Slots {
  import opened Words
  import opened Touch

  /** `_id_to_slot` and `_free_slots`. */
  datatype Machine = Machine(held: map<u32, nat>, free: seq<nat>)

  function Fresh(): Machine {
    Machine(map[], [0, 1, 2, 3, 4])
  }

  function Insert(x: nat, s: seq<nat>): seq<nat> {
    if s == [] || x <= s[0] then [x] + s else [s[0]] + Insert(x, s[1..])
  }

  /** `list.sort` */
  function Sort(s: seq<nat>): seq<nat> {
    if s == [] then [] else Insert(s[0], Sort(s[1..]))
  }

  function Assign(m: Machine, id: u32): (Machine, Option<nat>) {
    if id in m.held then (m, Some(m.held[id]))
    else if m.free == [] then (m, None)
    else (Machine(m.held[id := m.free[0]], m.free[1..]), Some(m.free[0]))
  }

  function Release(m: Machine, id: u32): (Machine, Option<nat>) {
    if id !in m.held then (m, None)
    else (Machine(m.held - {id}, Sort(m.free + [m.held[id]])), Some(m.held[id]))
  }

  predicate Ascending(s: seq<nat>) {
    forall i, j :: 0 <= i < j < |s| ==> s[i] <= s[j]
  }

  lemma {:induction false} InsertSorts(x: nat, s: seq<nat>)
    requires Ascending(s)
    ensures Ascending(Insert(x, s)) && multiset(Insert(x, s)) == multiset(s) + multiset{x}
    ensures forall y :: y in Insert(x, s) ==> y == x || y in s
  {
    if s == [] || x <= s[0] {
      PrependAscends(x, s);
    } else {
      InsertSorts(x, s[1..]);
      assert s == [s[0]] + s[1..];
      PrependAscends(s[0], Insert(x, s[1..]));
    }
  }

  lemma PrependAscends(head: nat, s: seq<nat>)
    requires Ascending(s) && forall y :: y in s ==> head <= y
    ensures Ascending([head] + s)
  {
    var t := [head] + s;
    forall i, j | 0 <= i < j < |t|
      ensures t[i] <= t[j]
    {
      assert t[j] == s[j - 1] && s[j - 1] in s;
      assert i > 0 ==> t[i] == s[i - 1];
    }
  }

  /** `Sort` is what the library promises: the same elements, ascending. */
  lemma {:induction false} SortSorts(s: seq<nat>)
    ensures Ascending(Sort(s)) && multiset(Sort(s)) == multiset(s)
  {
    if s != [] {
      SortSorts(s[1..]);
      InsertSorts(s[0], Sort(s[1..]));
      assert s == [s[0]] + s[1..];
    }
  }

  lemma {:induction false} SortSnoc(s: seq<nat>, x: nat)
    requires Ascending(s)
    ensures Sort(s + [x]) == Insert(x, s)
  {
    if s == [] {
      assert [] + [x] == [x] && [x][1..] == s;
    } else {
      Uncons(s, [x]);
      SortSnoc(s[1..], x);
      InsertFront(s[0], x, s[1..]);
      assert s == [s[0]] + s[1..];
    }
  }

  lemma InsertFront(head: nat, x: nat, s: seq<nat>)
    requires forall i :: 0 <= i < |s| ==> head <= s[i]
    ensures Insert(head, Insert(x, s)) == Insert(x, [head] + s)
  {
  }

  // ------------------------------------------------------------------ Refinement of the scan

  /** The slots from `k` on that are not in use, in ascending order. */
  function FreeFrom(used: set<nat>, k: nat): (free: seq<nat>)
    requires k <= MAX_SLOTS
    ensures forall i :: 0 <= i < |free| ==> k <= free[i] < MAX_SLOTS && free[i] !in used
    decreases MAX_SLOTS - k
  {
    if k == MAX_SLOTS then []
    else (if k in used then [] else [k]) + FreeFrom(used, k + 1)
  }

  lemma {:induction false} FreeAscends(used: set<nat>, k: nat)
    requires k <= MAX_SLOTS
    ensures Ascending(FreeFrom(used, k))
    decreases MAX_SLOTS - k
  {
    if k < MAX_SLOTS {
      FreeAscends(used, k + 1);
    }
  }

  /** The free list is the sorted complement of the slots in use. */
  predicate Refines(m: Machine, slots: map<u32, nat>) {
    && m.held == slots && m.free == FreeFrom(slots.Values, 0)
    && Injective(slots) && forall id :: id in slots ==> slots[id] < MAX_SLOTS
  }

  lemma {:induction false} FreeSkips(used: set<nat>, k: nat)
    requires k < MAX_SLOTS && k in used
    ensures FreeFrom(used, k) == FreeFrom(used, k + 1)
  {
  }

  /** Popping the head of the list from `k` on takes the smallest free slot from `k` on. */
  lemma {:induction false} HeadIsSmallest(held: map<u32, nat>, k: nat)
    requires k <= MAX_SLOTS
    ensures FreeFrom(held.Values, k) == [] <==> SmallestFree(held, k) == MAX_SLOTS
    ensures FreeFrom(held.Values, k) != [] ==> FreeFrom(held.Values, k)[0] == SmallestFree(held, k)
    decreases MAX_SLOTS - k
  {
    if k < MAX_SLOTS && k in held.Values {
      HeadIsSmallest(held, k + 1);
      FreeSkips(held.Values, k);
    }
  }

  lemma {:induction false} PopTakesOne(used: set<nat>, k: nat)
    requires k <= MAX_SLOTS && FreeFrom(used, k) != []
    ensures FreeFrom(used + {FreeFrom(used, k)[0]}, k) == FreeFrom(used, k)[1..]
    decreases MAX_SLOTS - k
  {
    if k in used {
      FreeSkips(used, k);
      PopTakesOne(used, k + 1);
      FreeSkips(used + {FreeFrom(used, k)[0]}, k);
    } else {
      SameAbove(used, used + {k}, k + 1);
      FreeSkips(used + {k}, k);
    }
  }

  lemma {:induction false} SameAbove(a: set<nat>, b: set<nat>, k: nat)
    requires k <= MAX_SLOTS && forall s :: k <= s < MAX_SLOTS ==> (s in a <==> s in b)
    ensures FreeFrom(a, k) == FreeFrom(b, k)
    decreases MAX_SLOTS - k
  {
    if k < MAX_SLOTS {
      SameAbove(a, b, k + 1);
    }
  }

  /** Of all slots only this one is used here and not there. */
  predicate Gap(used: set<nat>, less: set<nat>, slot: nat) {
    slot in used && slot !in less && forall s :: 0 <= s < MAX_SLOTS && s != slot ==> (s in used <==> s in less)
  }

  /** Putting the slot back into the free list of `used` from `k` on gives that of `less`. */
  predicate Fills(used: set<nat>, less: set<nat>, slot: nat, k: nat)
    requires k <= MAX_SLOTS
  {
    Insert(slot, FreeFrom(used, k)) == FreeFrom(less, k)
  }

  lemma {:induction false} InsertFillsGap(used: set<nat>, less: set<nat>, slot: nat, k: nat)
    requires k <= slot < MAX_SLOTS && Gap(used, less, slot)
    ensures Fills(used, less, slot, k)
    decreases MAX_SLOTS - k
  {
    if k < slot {
      InsertFillsGap(used, less, slot, k + 1);
      GapLater(used, less, slot, k);
    } else {
      GapHere(used, less, k);
    }
  }

  lemma {:induction false} GapLater(used: set<nat>, less: set<nat>, slot: nat, k: nat)
    requires k < slot < MAX_SLOTS && Gap(used, less, slot) && Fills(used, less, slot, k + 1)
    ensures Fills(used, less, slot, k)
  {
    if k in used {
      FreeSkips(used, k);
      FreeSkips(less, k);
    } else {
      InsertPast(slot, k, FreeFrom(used, k + 1));
      FreeTakes(used, k);
      FreeTakes(less, k);
    }
  }

  lemma {:induction false} GapHere(used: set<nat>, less: set<nat>, slot: nat)
    requires slot < MAX_SLOTS && Gap(used, less, slot)
    ensures Fills(used, less, slot, slot)
  {
    SameAbove(used, less, slot + 1);
    FreeSkips(used, slot);
    FreeTakes(less, slot);
    InsertInFront(slot, FreeFrom(used, slot + 1));
  }

  lemma {:induction false} InsertInFront(x: nat, s: seq<nat>)
    requires forall i :: 0 <= i < |s| ==> x <= s[i]
    ensures Insert(x, s) == [x] + s
  {
  }

  lemma {:induction false} FreeTakes(used: set<nat>, k: nat)
    requires k < MAX_SLOTS && k !in used
    ensures FreeFrom(used, k) == [k] + FreeFrom(used, k + 1)
  {
  }

  lemma {:induction false} InsertPast(x: nat, head: nat, s: seq<nat>)
    requires head < x
    ensures Insert(x, [head] + s) == [head] + Insert(x, s)
  {
  }

  lemma ValuesAfterRemove(held: map<u32, nat>, id: u32)
    requires id in held && Injective(held)
    ensures (held - {id}).Values == held.Values - {held[id]}
  {
    var fewer := held - {id};
    forall s
      ensures s in fewer.Values <==> s in held.Values && s != held[id]
    {
      if s in held.Values && s != held[id] {
        var p :| p in held && held[p] == s;
        assert fewer[p] == s;
      }
      if s in fewer.Values {
        var p :| p in fewer && fewer[p] == s;
        assert held[p] == s && p != id;
      }
    }
  }

  /** `assign` and `allocate_slot` give the same slot and stay in step. */
  lemma AssignRefines(m: Machine, slots: map<u32, nat>, id: u32)
    requires Refines(m, slots)
    ensures Assign(m, id).1 == Allocate(slots, id) && Refines(Assign(m, id).0, AfterAllocate(slots, id))
  {
    HeadIsSmallest(slots, 0);
    AllocateOk(slots, id);
    if id in slots {
      assert slots[id := slots[id]] == slots;
    } else if m.free != [] {
      PopTakesOne(slots.Values, 0);
      ValuesAfterAdd(slots, id, m.free[0]);
    }
  }

  /** `release` and removing the pointer from the map give back the same slot and stay in step. */
  lemma ReleaseRefines(m: Machine, slots: map<u32, nat>, id: u32)
    requires Refines(m, slots)
    ensures Release(m, id).1 == (if id in slots then Some(slots[id]) else None)
    ensures Refines(Release(m, id).0, slots - {id})
  {
    if id in slots {
      FreeAscends(slots.Values, 0);
      SortSnoc(m.free, slots[id]);
      InsertFillsGap(slots.Values, slots.Values - {slots[id]}, slots[id], 0);
      ValuesAfterRemove(slots, id);
    } else {
      assert slots - {id} == slots;
    }
  }

  datatype Op = AssignOp(id: u32) | ReleaseOp(id: u32)

  function RunMachine(m: Machine, ops: seq<Op>): (Machine, seq<Option<nat>>)
    decreases |ops|
  {
    if ops == [] then (m, []) else
    var (m', slot) := if ops[0].AssignOp? then Assign(m, ops[0].id) else Release(m, ops[0].id);
    var (m'', later) := RunMachine(m', ops[1..]);
    (m'', [slot] + later)
  }

  function RunMap(slots: map<u32, nat>, ops: seq<Op>): (map<u32, nat>, seq<Option<nat>>)
    decreases |ops|
  {
    if ops == [] then (slots, []) else
    var id := ops[0].id;
    var (slots', slot) :=
      if ops[0].AssignOp? then (AfterAllocate(slots, id), Allocate(slots, id))
      else (slots - {id}, if id in slots then Some(slots[id]) else None);
    var (slots'', later) := RunMap(slots', ops[1..]);
    (slots'', [slot] + later)
  }

  /**
   * For every sequence of calls the two allocators return the same slots, and the free list stays the sorted
   * complement.
   */
  lemma {:induction false} AllocatorsAgree(m: Machine, slots: map<u32, nat>, ops: seq<Op>)
    requires Refines(m, slots)
    ensures RunMachine(m, ops).1 == RunMap(slots, ops).1 && Refines(RunMachine(m, ops).0, RunMap(slots, ops).0)
    decreases |ops|
  {
    if ops != [] {
      var id := ops[0].id;
      if ops[0].AssignOp? {
        AssignRefines(m, slots, id);
        AllocatorsAgree(Assign(m, id).0, AfterAllocate(slots, id), ops[1..]);
      } else {
        ReleaseRefines(m, slots, id);
        AllocatorsAgree(Release(m, id).0, slots - {id}, ops[1..]);
      }
    }
  }

  lemma FreshRefines()
    ensures Refines(Fresh(), map[])
  {
  }

  // ------------------------------------------------------------------ Frames

  /** `_apply_frame` for one point: at most one single-contact report. */
  function FramePoint(m: Machine, p: Point): (Machine, seq<Contact>) {
    match p.action
    case Down =>
      var (m', slot) := Assign(m, p.id);
      (m', if slot.Some? then [PointContact(p, slot.value, true)] else [])
    case Move => (m, if p.id in m.held then [PointContact(p, m.held[p.id], true)] else [])
    case Up =>
      var (m', slot) := Release(m, p.id);
      (m', if slot.Some? then [PointContact(p, slot.value, false)] else [])
  }

  /** The machine, the device, and for every pointer held where it was last reported. */
  datatype Tracked = Tracked(m: Machine, d: Device, at: map<u32, Position>)

  function TrackPoint(t: Tracked, p: Point): Tracked {
    var (m', contacts) := FramePoint(t.m, p);
    Tracked(m', ApplyReport(t.d, contacts),
            if p.action.Up? then t.at - {p.id}
            else if p.id in m'.held then t.at[p.id := Position(p.x, p.y)]
            else t.at)
  }

  function Frame(t: Tracked, points: seq<Point>): Tracked
    decreases |points|
  {
    if points == [] then t else Frame(TrackPoint(t, points[0]), points[1..])
  }

  /** The device's touched slots are exactly the assigned ones, each where its pointer was last reported. */
  predicate InStep(t: Tracked) {
    && t.d.Keys == t.m.held.Values && t.at.Keys == t.m.held.Keys
    && (forall id :: id in t.m.held ==> t.d[t.m.held[id]] == t.at[id])
  }

  lemma PointKeepsStep(t: Tracked, p: Point)
    requires Refines(t.m, t.m.held) && InStep(t)
    ensures Refines(TrackPoint(t, p).m, TrackPoint(t, p).m.held) && InStep(TrackPoint(t, p))
  {
    match p.action
    case Down =>
      AssignRefines(t.m, t.m.held, p.id);
      DownKeepsStep(t, p);
    case Up =>
      ReleaseRefines(t.m, t.m.held, p.id);
      UpKeepsStep(t, p);
    case Move =>
      if p.id in t.m.held {
        OneReport(t.d, PointContact(p, t.m.held[p.id], true));
      }
  }

  lemma OneReport(d: Device, c: Contact)
    ensures ApplyReport(d, [c]) == ApplyContact(d, c)
  {
  }

  lemma DownKeepsStep(t: Tracked, p: Point)
    requires InStep(t) && Injective(t.m.held) && p.action.Down?
    requires Injective(Assign(t.m, p.id).0.held)
    ensures InStep(TrackPoint(t, p))
  {
    var (m', slot) := Assign(t.m, p.id);
    if slot.Some? {
      OneReport(t.d, PointContact(p, slot.value, true));
      if p.id !in t.m.held {
        ValuesAfterAdd(t.m.held, p.id, slot.value);
      }
    }
  }

  lemma UpKeepsStep(t: Tracked, p: Point)
    requires InStep(t) && Injective(t.m.held) && p.action.Up?
    ensures InStep(TrackPoint(t, p))
  {
    if p.id in t.m.held {
      OneReport(t.d, PointContact(p, t.m.held[p.id], false));
      ValuesAfterRemove(t.m.held, p.id);
    }
  }

  /**
   * Unlike the batched report, point-by-point reports never lose a contact or its position: no condition on the frame.
   */
  lemma {:induction false} FrameKeepsStep(t: Tracked, points: seq<Point>)
    requires Refines(t.m, t.m.held) && InStep(t)
    ensures Refines(Frame(t, points).m, Frame(t, points).m.held) && InStep(Frame(t, points))
    decreases |points|
  {
    if points != [] {
      PointKeepsStep(t, points[0]);
      FrameKeepsStep(TrackPoint(t, points[0]), points[1..]);
    }
  }

  class FiveSlotStateMachine {
    var idToSlot: map<u32, nat>
    var freeSlots: seq<nat>

    constructor ()
      ensures View() == Fresh()
    {
      idToSlot, freeSlots := map[], [0, 1, 2, 3, 4];
    }

    ghost function View(): Machine
      reads this
    {
      Machine(idToSlot, freeSlots)
    }

    method AssignSlot(id: u32) returns (slot: Option<nat>)
      modifies this
      ensures (View(), slot) == Assign(old(View()), id)
    {
      if id in idToSlot { return Some(idToSlot[id]); }
      if freeSlots == [] { return None; }
      slot := Some(freeSlots[0]);
      freeSlots := freeSlots[1..];
      idToSlot := idToSlot[id := slot.value];
    }

    method ReleaseSlot(id: u32) returns (slot: Option<nat>)
      modifies this
      ensures (View(), slot) == Release(old(View()), id)
    {
      if id !in idToSlot { return None; }
      slot := Some(idToSlot[id]);
      idToSlot := idToSlot - {id};
      freeSlots := freeSlots + [slot.value];
      freeSlots := Sort(freeSlots);
    }

    /** `clear`: release every pointer, in whatever order the dictionary lists them. */
    method Clear()
      requires Refines(View(), idToSlot)
      modifies this
      ensures View() == Fresh()
    {
      while idToSlot != map[]
        invariant Refines(View(), idToSlot)
        decreases idToSlot.Keys
      {
        assert idToSlot.Keys != {};
        var id :| id in idToSlot.Keys;
        ReleaseRefines(View(), idToSlot, id);
        var _ := ReleaseSlot(id);
      }
      FreshRefines();
    }
  }
}
