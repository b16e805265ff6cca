/** The per-process handle table: slots reused under an 8-bit generation counter. */
module Handles {
  import opened Wrappers

  // `authentic` stands for a MAC that verifies: the handle came out of `Handle::new`.
  datatype Handle = Handle(slot: nat, generation: nat, perms: nat, authentic: bool)
  datatype Entry<T> = Entry(generation: nat, perms: nat, obj: T)
  datatype Slot<T> = Slot(generation: nat, entry: Option<Entry<T>>)

  // READ | WRITE | SIGNAL | DUPLICATE | TRANSFER
  const OWNER: nat := 0x1F

  // ------------------------------------------------------------- specification

  // The first free slot, or the length when there is none.
  function FirstFree<T>(slots: seq<Slot<T>>): (i: nat)
    ensures i <= |slots|
    ensures i < |slots| ==> slots[i].entry.None?
    ensures forall j :: 0 <= j < i ==> slots[j].entry.Some?
  {
    if slots == [] || slots[0].entry.None? then 0
    else
      var i := 1 + FirstFree(slots[1..]);
      assert forall j :: 0 <= j < i ==> slots[j] == if j == 0 then slots[0] else slots[1..][j - 1];
      i
  }

  function Grown<T>(slots: seq<Slot<T>>): seq<Slot<T>> {
    if FirstFree(slots) == |slots| then slots + [Slot(0, None)] else slots
  }

  // The slot allocated; its number is kept in 16 bits.
  function SlotIndex<T>(slots: seq<Slot<T>>): (i: nat)
    ensures i <= FirstFree(slots) && i < |Grown(slots)|
  {
    FirstFree(slots) % 0x1_0000
  }

  function NextGeneration<T>(slots: seq<Slot<T>>): (g: nat)
    ensures g < 256
  {
    (Grown(slots)[SlotIndex(slots)].generation + 1) % 256
  }

  function AllocSlots<T>(slots: seq<Slot<T>>, obj: T): seq<Slot<T>> {
    var g := NextGeneration(slots);
    Grown(slots)[SlotIndex(slots) := Slot(g, Some(Entry(g, OWNER, obj)))]
  }

  // The slot number is cast to a byte.
  function AllocHandle<T>(slots: seq<Slot<T>>): Handle {
    Handle(SlotIndex(slots) % 256, NextGeneration(slots), OWNER, true)
  }

  predicate Holds<T>(slots: seq<Slot<T>>, h: Handle) {
    && h.authentic
    && h.slot < |slots|
    && slots[h.slot].entry.Some?
    && slots[h.slot].entry.value.generation == h.generation
  }

  function Get<T>(slots: seq<Slot<T>>, h: Handle): Option<T> {
    if Holds(slots, h) then Some(slots[h.slot].entry.value.obj) else None
  }

  function RemoveSlots<T>(slots: seq<Slot<T>>, h: Handle): seq<Slot<T>> {
    if Holds(slots, h) then slots[h.slot := slots[h.slot].(entry := None)] else slots
  }

  // ------------------------------------------------------------- the code

  class HandleTable<T> {
    var slots: seq<Slot<T>>

    constructor ()
      ensures slots == []
    {
      slots := [];
    }

    method FindFreeSlot() returns (idx: nat)
      modifies this
      ensures idx == SlotIndex(old(slots)) && slots == Grown(old(slots))
    {
      var i := 0;
      while i < |slots|
        invariant 0 <= i <= |slots| && slots == old(slots)
        invariant forall j :: 0 <= j < i ==> slots[j].entry.Some?
      {
        if slots[i].entry.None? {
          return i % 0x1_0000;
        }
        i := i + 1;
      }
      idx := |slots| % 0x1_0000;
      slots := slots + [Slot(0, None)];
    }

    method Alloc(obj: T) returns (h: Handle)
      modifies this
      ensures slots == AllocSlots(old(slots), obj) && h == AllocHandle(old(slots))
    {
      var idx := FindFreeSlot();
      var g := (slots[idx].generation + 1) % 256;
      slots := slots[idx := Slot(g, Some(Entry(g, OWNER, obj)))];
      h := Handle(idx % 256, g, OWNER, true);
    }

    method Lookup(h: Handle) returns (r: Option<T>)
      ensures r == Get(slots, h)
    {
      if !h.authentic { return None; }
      if h.slot >= |slots| || slots[h.slot].entry.None? { return None; }
      var e := slots[h.slot].entry.value;
      if e.generation != h.generation { return None; }
      return Some(e.obj);
    }

    method Remove(h: Handle) returns (r: Option<T>)
      modifies this
      ensures r == Get(old(slots), h) && slots == RemoveSlots(old(slots), h)
    {
      r := Lookup(h);
      if r.Some? {
        slots := slots[h.slot := slots[h.slot].(entry := None)];
      }
    }
  }

  // ------------------------------------------------------------- runs

  // One handle ever given out: the slot it really names, how many times that slot had been
  // allocated by then, and for what.
  datatype Issue<T> = Issue(slot: nat, serial: nat, obj: T, handle: Handle)

  // The table with its history: allocations per slot, and every issue.
  datatype World<T> = World(slots: seq<Slot<T>>, allocs: seq<nat>, issues: seq<Issue<T>>)

  datatype Action<T> = DoAlloc(obj: T) | DoRemove(handle: Handle)

  // The counts once the table has grown, when it grows.
  function Counts<T>(w: World<T>): (counts: seq<nat>)
    requires |w.allocs| == |w.slots|
    ensures |counts| == |Grown(w.slots)|
  {
    if FirstFree(w.slots) == |w.allocs| then w.allocs + [0] else w.allocs
  }

  function AllocWorld<T>(w: World<T>, obj: T): World<T>
    requires |w.allocs| == |w.slots|
  {
    var i, counts := SlotIndex(w.slots), Counts(w);
    World(AllocSlots(w.slots, obj),
          counts[i := counts[i] + 1],
          w.issues + [Issue(i, counts[i] + 1, obj, AllocHandle(w.slots))])
  }

  function Step<T>(w: World<T>, a: Action<T>): (r: World<T>)
    requires |w.allocs| == |w.slots|
    ensures |r.allocs| == |r.slots|
  {
    match a
    case DoAlloc(obj) => AllocWorld(w, obj)
    case DoRemove(h) => w.(slots := RemoveSlots(w.slots, h))
  }

  function Run<T>(w: World<T>, actions: seq<Action<T>>): (r: World<T>)
    requires |w.allocs| == |w.slots|
    ensures |r.allocs| == |r.slots|
    decreases |actions|
  {
    if actions == [] then w else Run(Step(w, actions[0]), actions[1..])
  }

  ghost predicate SlotInv<T>(w: World<T>, i: nat)
    requires |w.allocs| == |w.slots| && i < |w.slots|
  {
    && w.slots[i].generation == w.allocs[i] % 256
    && (w.slots[i].entry.Some? ==> w.slots[i].entry.value.generation == w.slots[i].generation)
  }

  ghost predicate IssueInv<T>(w: World<T>, k: nat)
    requires |w.allocs| == |w.slots| && k < |w.issues|
  {
    var s := w.issues[k];
    && s.slot < |w.slots|
    && 1 <= s.serial <= w.allocs[s.slot]
    && s.handle == Handle(s.slot % 256, s.serial % 256, OWNER, true)
    && (s.serial == w.allocs[s.slot] && w.slots[s.slot].entry.Some? ==>
          w.slots[s.slot].entry.value.obj == s.obj)
  }

  ghost predicate Inv<T>(w: World<T>) {
    && |w.allocs| == |w.slots|
    && (forall i :: 0 <= i < |w.slots| ==> SlotInv(w, i))
    && (forall k :: 0 <= k < |w.issues| ==> IssueInv(w, k))
    && (forall j, k :: 0 <= j < k < |w.issues| ==>
          w.issues[j].slot != w.issues[k].slot || w.issues[j].serial < w.issues[k].serial)
  }

  // The issue has not been removed since.
  ghost predicate Live<T>(w: World<T>, k: nat)
    requires Inv(w) && k < |w.issues|
  {
    assert IssueInv(w, k);
    w.allocs[w.issues[k].slot] == w.issues[k].serial && w.slots[w.issues[k].slot].entry.Some?
  }

  // A slot of the grown table, a new one included, counts its allocations.
  lemma GrownSlot<T>(w: World<T>, j: nat)
    requires Inv(w) && j < |Grown(w.slots)|
    ensures SlotInv(World(Grown(w.slots), Counts(w), []), j)
  {
    hide FirstFree;
    if j < |w.slots| { assert SlotInv(w, j); }
  }

  lemma ChosenSlotInv<T>(w: World<T>, obj: T)
    requires Inv(w)
    ensures SlotInv(AllocWorld(w, obj), SlotIndex(w.slots))
  {
    hide FirstFree, Grown, Counts, SlotIndex, AllocHandle, Inv;
    InvLengths(w);
    GrownSlot(w, SlotIndex(w.slots));
    NextCount(Counts(w)[SlotIndex(w.slots)]);
  }

  lemma NextCount(n: nat)
    ensures (n % 256 + 1) % 256 == (n + 1) % 256
  {
  }

  lemma InvLengths<T>(w: World<T>)
    requires Inv(w)
    ensures |w.allocs| == |w.slots|
  {
  }

  lemma OtherSlotInv<T>(w: World<T>, obj: T, j: nat)
    requires Inv(w) && j < |AllocWorld(w, obj).slots| && j != SlotIndex(w.slots)
    ensures SlotInv(AllocWorld(w, obj), j)
  {
    InvLengths(w);
    hide FirstFree, Grown, Counts, SlotIndex, AllocHandle, NextGeneration, Inv;
    GrownSlot(w, j);
  }

  lemma AllocSlotInv<T>(w: World<T>, obj: T, j: nat)
    requires Inv(w) && j < |AllocWorld(w, obj).slots|
    ensures SlotInv(AllocWorld(w, obj), j)
  {
    hide SlotInv, AllocWorld;
    if j == SlotIndex(w.slots) { ChosenSlotInv(w, obj); } else { OtherSlotInv(w, obj, j); }
  }

  lemma AllocIssueInv<T>(w: World<T>, obj: T, k: nat)
    requires Inv(w) && k < |AllocWorld(w, obj).issues|
    ensures IssueInv(AllocWorld(w, obj), k)
  {
    hide FirstFree;
    var i := SlotIndex(w.slots);
    if k < |w.issues| {
      assert IssueInv(w, k);
    } else if i < |w.slots| {
      assert SlotInv(w, i);
    }
  }

  lemma AllocInv<T>(w: World<T>, obj: T)
    requires Inv(w)
    ensures Inv(AllocWorld(w, obj))
  {
    hide FirstFree, NextGeneration, AllocHandle;
    var v := AllocWorld(w, obj);
    forall j | 0 <= j < |v.slots| ensures SlotInv(v, j) { AllocSlotInv(w, obj, j); }
    forall k | 0 <= k < |v.issues| ensures IssueInv(v, k) { AllocIssueInv(w, obj, k); }
    forall j, k | 0 <= j < k < |v.issues|
      ensures v.issues[j].slot != v.issues[k].slot || v.issues[j].serial < v.issues[k].serial
    {
      assert IssueInv(w, j);
    }
  }

  lemma RemoveInv<T>(w: World<T>, h: Handle)
    requires Inv(w)
    ensures Inv(Step(w, DoRemove(h)))
  {
    var v := Step(w, DoRemove(h));
    forall j | 0 <= j < |v.slots| ensures SlotInv(v, j) { assert SlotInv(w, j); }
    forall k | 0 <= k < |v.issues| ensures IssueInv(v, k) { assert IssueInv(w, k); }
  }

  lemma {:induction false} RunInv<T>(w: World<T>, actions: seq<Action<T>>)
    requires Inv(w)
    ensures Inv(Run(w, actions))
    decreases |actions|
  {
    if actions != [] {
      match actions[0] {
        case DoAlloc(obj) => AllocInv(w, obj);
        case DoRemove(h) => RemoveInv(w, h);
      }
      hide Step, Inv;
      RunInv(Step(w, actions[0]), actions[1..]);
    }
  }

  // ------------------------------------------------------------- what every run guarantees

  /**
   * With at most 256 slots, an issued handle resolves exactly when its slot is occupied and the
   * number of allocations of that slot since is a multiple of 256.
   */
  lemma ResolvesIff<T>(w: World<T>, k: nat)
    requires Inv(w) && k < |w.issues| && |w.slots| <= 256
    ensures
      var s := w.issues[k];
      && s.slot < |w.slots| && s.serial <= w.allocs[s.slot]
      && (Get(w.slots, s.handle).Some?
          <==> w.slots[s.slot].entry.Some? && (w.allocs[s.slot] - s.serial) % 256 == 0)
      && (Live(w, k) ==> Get(w.slots, s.handle) == Some(s.obj))
  {
    assert IssueInv(w, k);
    assert SlotInv(w, w.issues[k].slot);
  }

  lemma StaleNeeds256<T>(w: World<T>, k: nat)
    requires Inv(w) && k < |w.issues| && |w.slots| <= 256 && !Live(w, k)
    ensures
      var s := w.issues[k];
      s.slot < |w.slots| && (Get(w.slots, s.handle).Some? ==> w.allocs[s.slot] >= s.serial + 256)
  {
    hide Inv, Get;
    ResolvesIff(w, k);
  }

  lemma LiveDiffer<T>(w: World<T>, j: nat, k: nat)
    requires Inv(w) && j < |w.issues| && k < |w.issues| && j != k && |w.slots| <= 256
    requires Live(w, j) && Live(w, k)
    ensures w.issues[j].handle != w.issues[k].handle
  {
    assert IssueInv(w, j) && IssueInv(w, k);
    assert w.issues[j].slot != w.issues[k].slot;
  }

  function Empty<T>(): World<T> {
    World([], [], [])
  }

  /**
   * Over every run that stays within 256 slots: a live handle resolves to the object it was
   * issued for, no two live handles are equal, and a handle that is no longer live resolves to
   * nothing until its slot has been allocated at least 256 more times.
   */
  lemma {:induction false} HandlesOverEveryRun<T>(actions: seq<Action<T>>, k: nat)
    requires var w := Run(Empty(), actions); |w.slots| <= 256 && k < |w.issues|
    ensures
      var w := Run(Empty(), actions);
      var s := w.issues[k];
      && Inv(w) && s.slot < |w.slots|
      && (Live(w, k) ==> Get(w.slots, s.handle) == Some(s.obj))
      && (!Live(w, k) && Get(w.slots, s.handle).Some? ==> w.allocs[s.slot] >= s.serial + 256)
      && (forall j :: 0 <= j < |w.issues| && j != k && Live(w, j) && Live(w, k) ==>
            w.issues[j].handle != s.handle)
  {
    var w0: World<T> := Empty();
    assert Inv(w0);
    hide Run, Inv, Get, Live;
    var w := Run(w0, actions);
    RunInv(w0, actions);
    ResolvesIff(w, k);
    if !Live(w, k) { StaleNeeds256(w, k); }
    forall j | 0 <= j < |w.issues| && j != k && Live(w, j) && Live(w, k)
      ensures w.issues[j].handle != w.issues[k].handle
    {
      LiveDiffer(w, j, k);
    }
  }

  /** Removing a live handle ends its life, in whichever state it happens. */
  lemma RemoveEndsLife<T>(w: World<T>, k: nat)
    requires Inv(w) && k < |w.issues| && |w.slots| <= 256 && Live(w, k)
    ensures Inv(Step(w, DoRemove(w.issues[k].handle)))
    ensures !Live(Step(w, DoRemove(w.issues[k].handle)), k)
    ensures Get(Step(w, DoRemove(w.issues[k].handle)).slots, w.issues[k].handle).None?
  {
    var h := w.issues[k].handle;
    RemoveInv(w, h);
    ResolvesIff(w, k);
    assert IssueInv(w, k);
  }

  // ------------------------------------------------------------- beyond 256 slots

  // The slot whose entry a handle resolves through.
  function ResolvedSlot<T>(slots: seq<Slot<T>>, h: Handle): Option<nat> {
    if Holds(slots, h) then Some(h.slot) else None
  }

  ghost predicate RoomBelow256<T>(slots: seq<Slot<T>>) {
    |slots| < 256 || exists i :: 0 <= i < 256 && slots[i].entry.None?
  }

  /**
   * A fresh handle resolves through its own slot exactly when one of the first 256 slots was
   * free or did not exist yet; the cast of the slot number to a byte loses the rest.
   */
  lemma {:induction false} FreshHandleResolvesIff<T>(slots: seq<Slot<T>>, obj: T)
    ensures ResolvedSlot(AllocSlots(slots, obj), AllocHandle(slots)) == Some(FirstFree(slots))
       <==> RoomBelow256(slots)
  {
    FirstFreeBelow256(slots);
    hide FirstFree, NextGeneration, RoomBelow256;
    if FirstFree(slots) < 256 {
      assert Holds(AllocSlots(slots, obj), AllocHandle(slots));
    }
    hide AllocSlots, Holds;
  }

  lemma {:induction false} FirstFreeBelow256<T>(slots: seq<Slot<T>>)
    ensures FirstFree(slots) < 256 <==> RoomBelow256(slots)
  {
    hide FirstFree;
    var i := FirstFree(slots);
    if i < 256 <= |slots| { assert slots[i].entry.None?; }
  }

  /** In a full table of 256 slots the next handle names slot 0 and reaches the object there. */
  lemma HandleOfSlot256Aliases<T>(slots: seq<Slot<T>>, obj: T)
    requires |slots| == 256 && forall i :: 0 <= i < 256 ==> slots[i].entry.Some?
    requires slots[0].entry.value.generation == 1
    ensures Get(AllocSlots(slots, obj), AllocHandle(slots)) == Some(slots[0].entry.value.obj)
  {
  }

  function Allocations<T>(objs: seq<T>): (actions: seq<Action<T>>)
    ensures |actions| == |objs|
  {
    seq(|objs|, i requires 0 <= i < |objs| => DoAlloc(objs[i]))
  }

  // The table after one allocation for each object: slot i holds object i under generation 1.
  ghost predicate Holding<T(!new)>(w: World<T>, objs: seq<T>) {
    && |w.allocs| == |w.slots| == |objs|
    && forall i :: 0 <= i < |objs| ==> w.slots[i] == Slot(1, Some(Entry(1, OWNER, objs[i])))
  }

  lemma AllocationFills<T(!new)>(w: World<T>, held: seq<T>, obj: T)
    requires Holding(w, held) && |held| < 0x1_0000
    ensures Holding(Step(w, DoAlloc(obj)), held + [obj])
  {
    hide FirstFree;
    assert FirstFree(w.slots) == |w.slots|;
  }

  lemma {:induction false} RunAllocations<T>(w: World<T>, objs: seq<T>)
    requires |w.allocs| == |w.slots| && objs != []
    ensures Run(w, Allocations(objs)) == Run(Step(w, DoAlloc(objs[0])), Allocations(objs[1..]))
  {
    hide Step;
    assert Allocations(objs)[1..] == Allocations(objs[1..]);
  }

  lemma {:induction false} AllocationsFill<T(!new)>(w: World<T>, held: seq<T>, objs: seq<T>)
    requires Holding(w, held) && |held| + |objs| <= 0x1_0000
    ensures Holding(Run(w, Allocations(objs)), held + objs)
    decreases |objs|
  {
    hide Step, Allocations;
    if objs == [] {
      assert held + objs == held;
    } else {
      AllocationFills(w, held, objs[0]);
      RunAllocations(w, objs);
      hide Holding, Run;
      AllocationsFill(Step(w, DoAlloc(objs[0])), held + [objs[0]], objs[1..]);
      assert held + [objs[0]] + objs[1..] == held + objs;
    }
  }

  /** Such a table is reached: the handle of the 257th allocation from an empty table reaches the first object. */
  lemma Allocation257Aliases<T(!new)>(objs: seq<T>, obj: T)
    requires |objs| == 256
    ensures
      var w := Run(Empty(), Allocations(objs));
      Get(AllocSlots(w.slots, obj), AllocHandle(w.slots)) == Some(objs[0])
  {
    hide Run, Get, AllocSlots, AllocHandle;
    AllocationsFill(Empty(), [], objs);
    assert [] + objs == objs;
    var w := Run(Empty(), Allocations(objs));
    HandleOfSlot256Aliases(w.slots, obj);
  }
}
