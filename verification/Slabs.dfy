/** The slab allocator as a whole: nine caches, one per object size, behind `alloc`, `free` and `reap`. */
module Slabs {
  import opened Arithmetic
  import opened Wrappers
  import S = Slab

  // A held object: the cache it came from, its page and its slot.
  datatype Held = Held(class_: nat, obj: S.Obj)

  datatype Action =
    | Alloc(size: nat, frame: Option<S.Frame>)
    | Free(size: nat, obj: S.Obj)
    | Write(size: nat, obj: S.Obj, at: nat, value: byte)
    | Reap

  const CLASSES: nat := 9

  // No page belongs to two caches.
  ghost predicate PagesDiffer(ws: seq<S.World>) {
    forall i, j, v: nat :: 0 <= i < j < |ws| ==> !(S.HasPage(ws[i].cache, v) && S.HasPage(ws[j].cache, v))
  }

  ghost predicate Inv(ws: seq<S.World>) {
    && |ws| == CLASSES
    && (forall i :: 0 <= i < CLASSES ==> S.Inv(ws[i]) && ws[i].cache.size == S.CACHE_SIZES[i])
    && PagesDiffer(ws)
  }

  // A frame handed out belongs to no cache; clients use what they hold, under the size they asked for.
  ghost predicate Allowed(ws: seq<S.World>, a: Action)
    requires |ws| == CLASSES
  {
    match a
    case Alloc(size, frame) => frame.Some? ==>
      && |frame.value.mem| == PAGE && frame.value.virt % PAGE == 0
      && forall i :: 0 <= i < CLASSES ==> !S.HasPage(ws[i].cache, frame.value.virt)
    case Free(size, o) => o in ws[S.ClassOf(size)].live
    case Write(size, o, at, _) => o in ws[S.ClassOf(size)].live && at < ws[S.ClassOf(size)].cache.size
    case Reap => true
  }

  // The cache a step concerns, and what it does there.
  function ClassOf(a: Action): nat {
    if a.Reap? then 0 else S.ClassOf(a.size)
  }

  function Local(a: Action): S.Action {
    match a
    case Alloc(_, frame) => S.DoAlloc(frame)
    case Free(_, o) => S.DoFree(o)
    case Write(_, o, at, value) => S.DoWrite(o, at, value)
    case Reap => S.DoReap
  }

  ghost function Step(ws: seq<S.World>, a: Action): seq<S.World>
    requires Inv(ws) && Allowed(ws, a)
  {
    if a.Reap? then seq(CLASSES, i requires 0 <= i < CLASSES => S.ReapWorld(ws[i]))
    else ws[ClassOf(a) := S.Step(ws[ClassOf(a)], Local(a))]
  }

  // ------------------------------------------------------------- pages

  // A step of one cache keeps its object size and adds no page but the frame it was given.
  ghost predicate KeepsPages(w: S.World, v: S.World, a: S.Action) {
    && v.cache.size == w.cache.size
    && forall p: nat :: S.HasPage(v.cache, p) ==>
         S.HasPage(w.cache, p) || (a.DoAlloc? && a.frame.Some? && p == a.frame.value.virt)
  }

  lemma AllocPages(w: S.World, frame: Option<S.Frame>)
    requires S.Inv(w) && S.Allowed(w, S.DoAlloc(frame))
    ensures KeepsPages(w, S.AllocWorld(w, frame), S.DoAlloc(frame))
  {
    S.InvFollowable(w);
    hide S.ValidSize, S.Inv, S.Choice, S.PagesInv, S.LiveInv, S.Linked;
    var v := S.AllocWorld(w, frame);
    forall p: nat | S.HasPage(v.cache, p)
      ensures S.HasPage(w.cache, p) || (frame.Some? && p == frame.value.virt)
    {
      var i :| 0 <= i < |v.cache.pages| && v.cache.pages[i].virt == p;
      assert i < |w.cache.pages| ==> w.cache.pages[i].virt == p;
    }
  }

  lemma FreePages(w: S.World, o: S.Obj)
    requires S.Inv(w) && o in w.live
    ensures KeepsPages(w, S.FreeWorld(w, o), S.DoFree(o))
  {
    hide S.Inv, S.FindPage, S.Offset, S.FreeWorld, S.WriteWord;
    S.FreeWorldPages(w, o);
    var v := S.FreeWorld(w, o);
    forall p: nat | S.HasPage(v.cache, p) ensures S.HasPage(w.cache, p) {
      var i :| 0 <= i < |v.cache.pages| && v.cache.pages[i].virt == p;
      assert w.cache.pages[i].virt == p;
    }
  }

  lemma WritePages(w: S.World, o: S.Obj, at: nat, value: byte)
    requires S.Inv(w) && o in w.live && at < w.cache.size
    ensures KeepsPages(w, S.WriteWorld(w, o, at, value), S.DoWrite(o, at, value))
  {
    S.LiveFacts(w, o);
    hide S.Inv, S.FindPage, S.Offset;
    var v := S.WriteWorld(w, o, at, value);
    forall p: nat | S.HasPage(v.cache, p) ensures S.HasPage(w.cache, p) {
      var i :| 0 <= i < |v.cache.pages| && v.cache.pages[i].virt == p;
      assert w.cache.pages[i].virt == p;
    }
  }

  lemma ReapPages(w: S.World)
    requires S.Inv(w)
    ensures KeepsPages(w, S.ReapWorld(w), S.DoReap)
  {
    hide S.Retained, S.PageInv, S.ValidSize;
    S.RetainedFacts(w.cache.pages);
    var v := S.ReapWorld(w);
    forall p: nat | S.HasPage(v.cache, p) ensures S.HasPage(w.cache, p) {
      var i :| 0 <= i < |v.cache.pages| && v.cache.pages[i].virt == p;
      assert v.cache.pages[i] in S.Retained(w.cache.pages);
    }
  }

  lemma LocalPages(w: S.World, a: S.Action)
    requires S.Inv(w) && S.Allowed(w, a)
    ensures S.Inv(S.Step(w, a)) && KeepsPages(w, S.Step(w, a), a)
  {
    hide S.Inv, S.AllocWorld, S.FreeWorld, S.ReapWorld, S.WriteWorld, KeepsPages;
    S.StepInv(w, a);
    match a
    case DoAlloc(frame) => AllocPages(w, frame);
    case DoFree(o) => FreePages(w, o);
    case DoReap => ReapPages(w);
    case DoWrite(o, at, value) => WritePages(w, o, at, value);
  }

  // ------------------------------------------------------------- runs

  lemma LocalAllowed(ws: seq<S.World>, a: Action)
    requires Inv(ws) && Allowed(ws, a) && !a.Reap?
    ensures ClassOf(a) < CLASSES && S.Allowed(ws[ClassOf(a)], Local(a))
  {
    hide S.Inv, S.HasPage, PagesDiffer;
  }

  lemma OneStepInv(ws: seq<S.World>, a: Action)
    requires Inv(ws) && Allowed(ws, a) && !a.Reap?
    ensures Inv(Step(ws, a))
  {
    hide S.Inv, S.HasPage, S.Step, S.ClassOf;
    LocalAllowed(ws, a);
    var c := ClassOf(a);
    LocalPages(ws[c], Local(a));
    var vs := Step(ws, a);
    forall i, j, v: nat | 0 <= i < j < |vs| ensures !(S.HasPage(vs[i].cache, v) && S.HasPage(vs[j].cache, v)) {
      assert !(S.HasPage(ws[i].cache, v) && S.HasPage(ws[j].cache, v));
    }
  }

  lemma ReapAllInv(ws: seq<S.World>)
    requires Inv(ws)
    ensures Inv(Step(ws, Reap))
  {
    hide S.Inv, S.HasPage, S.ReapWorld;
    var vs := Step(ws, Reap);
    forall i | 0 <= i < CLASSES
      ensures S.Inv(vs[i]) && KeepsPages(ws[i], vs[i], S.DoReap)
    {
      S.ReapInv(ws[i]);
      ReapPages(ws[i]);
    }
    forall i, j, v: nat | 0 <= i < j < |vs| ensures !(S.HasPage(vs[i].cache, v) && S.HasPage(vs[j].cache, v)) {
      assert !(S.HasPage(ws[i].cache, v) && S.HasPage(ws[j].cache, v));
    }
  }

  lemma StepInv(ws: seq<S.World>, a: Action)
    requires Inv(ws) && Allowed(ws, a)
    ensures Inv(Step(ws, a))
  {
    hide Inv, Step, Allowed;
    if a.Reap? { ReapAllInv(ws); } else { OneStepInv(ws, a); }
  }

  ghost predicate IsRun(ws: seq<S.World>, actions: seq<Action>)
    requires Inv(ws)
    decreases |actions|
  {
    actions == [] || (Allowed(ws, actions[0]) && (StepInv(ws, actions[0]); IsRun(Step(ws, actions[0]), actions[1..])))
  }

  ghost function Run(ws: seq<S.World>, actions: seq<Action>): (r: seq<S.World>)
    requires Inv(ws) && IsRun(ws, actions)
    ensures Inv(r)
    decreases |actions|
  {
    if actions == [] then ws
    else
      StepInv(ws, actions[0]);
      Run(Step(ws, actions[0]), actions[1..])
  }

  lemma SizesValid()
    ensures |S.CACHE_SIZES| == CLASSES && forall i :: 0 <= i < CLASSES ==> S.ValidSize(S.CACHE_SIZES[i])
  {
  }

  // Nine caches without pages.
  ghost function Start(): (ws: seq<S.World>)
    ensures Inv(ws)
  {
    SizesValid();
    hide S.Inv, S.ValidSize;
    seq(CLASSES, i requires 0 <= i < CLASSES => S.Start(S.CACHE_SIZES[i]))
  }

  // ------------------------------------------------------------- what every run guarantees

  ghost predicate IsHeld(ws: seq<S.World>, h: Held)
    requires |ws| == CLASSES
  {
    h.class_ < CLASSES && h.obj in ws[h.class_].live
  }

  function AddressOf(h: Held): nat
    requires h.class_ < CLASSES
  {
    S.Address(h.obj, S.CACHE_SIZES[h.class_])
  }

  /** Objects of all caches together share no byte. */
  lemma HeldDisjoint(ws: seq<S.World>, a: Held, b: Held)
    requires Inv(ws) && IsHeld(ws, a) && IsHeld(ws, b) && a != b
    ensures
      || AddressOf(a) + S.CACHE_SIZES[a.class_] <= AddressOf(b)
      || AddressOf(b) + S.CACHE_SIZES[b.class_] <= AddressOf(a)
  {
    hide S.Inv, S.HasPage, S.Address;
    var wa, wb := ws[a.class_], ws[b.class_];
    S.ObjectsDisjoint(wa, a.obj, a.obj);
    S.ObjectsDisjoint(wb, b.obj, b.obj);
    if a.class_ == b.class_ {
      S.ObjectsDisjoint(wa, a.obj, b.obj);
    } else {
      var lo, hi := Min(a.class_, b.class_), Max(a.class_, b.class_);
      assert !(S.HasPage(ws[lo].cache, a.obj.0) && S.HasPage(ws[hi].cache, a.obj.0));
      PageAligned(wa, a.obj);
      PageAligned(wb, b.obj);
      S.PagesApart(a.obj.0, b.obj.0);
    }
  }

  lemma PageAligned(w: S.World, o: S.Obj)
    requires S.Inv(w) && o in w.live
    ensures o.0 % PAGE == 0
  {
    hide S.ValidSize, S.Chain, S.Capacity;
    var i :| 0 <= i < |w.cache.pages| && w.cache.pages[i].virt == o.0;
    assert S.PageInv(w.cache.pages[i], w.frees[o.0], w.cache.size);
  }

  /** Over every run of the whole allocator, frames going from one cache to another included. */
  lemma {:induction false} SlabsOverEveryRun(actions: seq<Action>, a: Held, b: Held)
    requires IsRun(Start(), actions)
    requires var ws := Run(Start(), actions); IsHeld(ws, a) && IsHeld(ws, b) && a != b
    ensures
      || AddressOf(a) + S.CACHE_SIZES[a.class_] <= AddressOf(b)
      || AddressOf(b) + S.CACHE_SIZES[b.class_] <= AddressOf(a)
  {
    hide Inv, IsRun, Run, Start;
    HeldDisjoint(Run(Start(), actions), a, b);
  }

  /**
   * `alloc(size)`: when it succeeds, the address is that of an object nobody held, of the class of the
   * size, and the object has room for `size` bytes exactly for sizes up to 4096.
   */
  lemma AllocGives(ws: seq<S.World>, size: nat, frame: Option<S.Frame>)
    requires Inv(ws) && Allowed(ws, Alloc(size, frame))
    ensures
      var c := S.ClassOf(size);
      && S.Followable(ws[c].cache) && (frame.Some? ==> |frame.value.mem| == PAGE)
      && var addr := S.CacheAlloc(ws[c].cache, frame).1;
      && (addr.Some? ==> exists o ::
          && !IsHeld(ws, Held(c, o)) && IsHeld(Step(ws, Alloc(size, frame)), Held(c, o))
          && addr == Some(AddressOf(Held(c, o))))
      && (S.CACHE_SIZES[c] >= size <==> size <= PAGE)
  {
    hide S.Inv, S.HasPage, S.CacheAlloc, S.Address, S.AllocWorld, S.Choice, S.Followable;
    var c, a := S.ClassOf(size), Alloc(size, frame);
    LocalAllowed(ws, a);
    FollowableCache(ws[c]);
    S.AllocIsFresh(ws[c], frame);
    if S.CacheAlloc(ws[c].cache, frame).1.Some? {
      var o :| o !in ws[c].live && S.AllocWorld(ws[c], frame).live == ws[c].live + {o}
        && S.CacheAlloc(ws[c].cache, frame).1 == Some(S.Address(o, ws[c].cache.size));
      assert IsHeld(Step(ws, a), Held(c, o));
    }
  }

  /** Allocation, when it succeeds, changes what is held by the one object it gives. */
  lemma AllocHolds(ws: seq<S.World>, size: nat, frame: Option<S.Frame>, h: Held)
    requires Inv(ws) && Allowed(ws, Alloc(size, frame)) && IsHeld(ws, h)
    ensures IsHeld(Step(ws, Alloc(size, frame)), h)
  {
    hide S.Inv, S.HasPage, S.CacheAlloc, S.Address, S.AllocWorld, S.Choice, S.Followable;
    var c := S.ClassOf(size);
    LocalAllowed(ws, Alloc(size, frame));
    FollowableCache(ws[c]);
    S.AllocIsFresh(ws[c], frame);
  }

  /** Freeing ends the hold on one object and no other. */
  lemma FreeReleases(ws: seq<S.World>, size: nat, o: S.Obj, h: Held)
    requires Inv(ws) && Allowed(ws, Free(size, o)) && h.class_ < CLASSES
    ensures IsHeld(Step(ws, Free(size, o)), h) <==> IsHeld(ws, h) && h != Held(S.ClassOf(size), o)
  {
    hide S.Inv, S.HasPage, S.CacheFree, S.ClassOf;
    LocalAllowed(ws, Free(size, o));
    S.FreeWorldPages(ws[S.ClassOf(size)], o);
  }

  /** `reap` releases, in every cache, exactly the pages nobody holds an object in. */
  lemma ReapReleases(ws: seq<S.World>, i: nat, v: nat)
    requires Inv(ws) && i < CLASSES
    ensures S.HasPage(Step(ws, Reap)[i].cache, v) <==> exists o :: IsHeld(ws, Held(i, o)) && o.0 == v
    ensures Step(ws, Reap)[i].live == ws[i].live
  {
    hide S.Inv, S.HasPage, S.ReapWorld, S.InOrder;
    S.ReapKeepsHeldPages(ws[i], v);
    if o :| IsHeld(ws, Held(i, o)) && o.0 == v { assert o in ws[i].live; }
    if o :| o in ws[i].live && o.0 == v { assert IsHeld(ws, Held(i, o)); }
  }

  lemma FollowableCache(w: S.World)
    requires S.Inv(w)
    ensures S.Followable(w.cache)
  {
    hide S.Followable;
    S.InvFollowable(w);
  }
}
