/**
 * The slab allocator: pages cut into equal slots, the free slots chained through their own first
 * eight bytes while clients write into the others at will.
 */
module Slab {
  import opened Arithmetic
  import opened Wrappers

  // `usize::MAX`, the end of a free list.
  const NIL: int := WORD - 1
  const CACHE_SIZES: seq<nat> := [16, 32, 64, 128, 256, 512, 1024, 2048, 4096]

  // ------------------------------------------------------------- machine words in memory

  // Little-endian encoding in n bytes.
  function BytesOf(v: nat, n: nat): (b: seq<byte>)
    ensures |b| == n
  {
    if n == 0 then [] else [v % 256] + BytesOf(v / 256, n - 1)
  }

  function WordOf(b: seq<byte>): nat {
    if b == [] then 0 else b[0] + 256 * WordOf(b[1..])
  }

  lemma {:induction false} WordRoundTrip(v: nat, n: nat)
    requires v < Pow256(n)
    ensures WordOf(BytesOf(v, n)) == v
    decreases n
  {
    if n > 0 {
      assert BytesOf(v, n)[1..] == BytesOf(v / 256, n - 1);
      WordRoundTrip(v / 256, n - 1);
    }
  }

  lemma EightBytes()
    ensures Pow256(8) == WORD
  {
    assert Pow256(4) == 0x1_0000_0000;
    assert Pow256(6) == 0x1_0000_0000_0000;
  }

  function ReadWord(mem: seq<byte>, at: nat): nat
    requires at + 8 <= |mem|
  {
    WordOf(mem[at..at + 8])
  }

  function WriteWord(mem: seq<byte>, at: nat, v: nat): (m: seq<byte>)
    requires at + 8 <= |mem|
    ensures |m| == |mem|
  {
    mem[..at] + BytesOf(v, 8) + mem[at + 8..]
  }

  lemma ReadAfterWrite(mem: seq<byte>, at: nat, v: nat)
    requires at + 8 <= |mem| && v < WORD
    ensures ReadWord(WriteWord(mem, at, v), at) == v
    ensures forall i :: 0 <= i < |mem| && !(at <= i < at + 8) ==> WriteWord(mem, at, v)[i] == mem[i]
  {
    hide WordOf, BytesOf;
    EightBytes();
    WordRoundTrip(v, 8);
    assert WriteWord(mem, at, v)[at..at + 8] == BytesOf(v, 8);
  }

  // ------------------------------------------------------------- slots

  predicate ValidSize(size: nat) {
    size in CACHE_SIZES
  }

  function Capacity(size: nat): nat
    requires size > 0
  {
    PAGE / size
  }

  // Where slot j begins.
  function Offset(j: nat, size: nat): nat {
    j * size
  }

  lemma SizeFacts(size: nat)
    requires ValidSize(size)
    ensures 16 <= size <= PAGE && Offset(Capacity(size), size) == PAGE && Capacity(size) >= 1
  {
    assert size == 16 || size == 32 || size == 64 || size == 128 || size == 256 || size == 512
        || size == 1024 || size == 2048 || size == 4096;
  }

  lemma SlotOrder(i: nat, j: nat, size: nat)
    requires i < j
    ensures Offset(i, size) + size <= Offset(j, size)
  {
    MulLe(i + 1, j, size);
    MulSuccessor(i, size);
  }

  lemma SlotFits(j: nat, size: nat)
    requires ValidSize(size) && j < Capacity(size)
    ensures Offset(j, size) + 16 <= Offset(j, size) + size <= PAGE
  {
    SizeFacts(size);
    SlotOrder(j, Capacity(size), size);
  }

  // ------------------------------------------------------------- pages

  datatype Page = Page(virt: nat, mem: seq<byte>, freeHead: nat, used: nat)

  // The list from `head` runs through exactly the slots `free`, in order.
  ghost predicate Chain(mem: seq<byte>, head: nat, free: seq<nat>, size: nat)
    requires ValidSize(size) && |mem| == PAGE
    decreases |free|
  {
    if free == [] then head == NIL
    else
      && free[0] < Capacity(size)
      && head == Offset(free[0], size)
      && (SlotFits(free[0], size); Chain(mem, ReadWord(mem, head), free[1..], size))
  }

  ghost predicate Distinct(free: seq<nat>) {
    forall i, j :: 0 <= i < j < |free| ==> free[i] != free[j]
  }

  ghost predicate PageInv(p: Page, free: seq<nat>, size: nat)
    requires ValidSize(size)
  {
    && |p.mem| == PAGE
    && p.virt % PAGE == 0
    && Distinct(free)
    && (forall i :: 0 <= i < |free| ==> free[i] < Capacity(size))
    && p.used + |free| == Capacity(size)
    && Chain(p.mem, p.freeHead, free, size)
  }

  // Memory agrees on the first word of slot j.
  ghost predicate SameWord(a: seq<byte>, b: seq<byte>, j: nat, size: nat)
    requires ValidSize(size) && |a| == |b| == PAGE && j < Capacity(size)
  {
    SlotFits(j, size);
    forall i :: Offset(j, size) <= i < Offset(j, size) + 8 ==> a[i] == b[i]
  }

  /** Only the first words of free slots matter to the list. */
  lemma {:induction false} ChainFrame(a: seq<byte>, b: seq<byte>, head: nat, free: seq<nat>, size: nat)
    requires ValidSize(size) && |a| == |b| == PAGE && Chain(a, head, free, size)
    requires forall i :: 0 <= i < |free| ==> free[i] < Capacity(size) && SameWord(a, b, free[i], size)
    ensures Chain(b, head, free, size)
    decreases |free|
  {
    hide Offset, Capacity, WordOf, ValidSize;
    if free != [] {
      SlotFits(free[0], size);
      assert SameWord(a, b, free[0], size);
      assert a[head..head + 8] == b[head..head + 8];
      ChainFrame(a, b, ReadWord(a, head), free[1..], size);
    }
  }

  /** Writing inside slot j leaves the first word of every other slot alone. */
  lemma OtherSlots(a: seq<byte>, b: seq<byte>, j: nat, k: nat, size: nat)
    requires ValidSize(size) && |a| == |b| == PAGE && j < Capacity(size) && k < Capacity(size) && j != k
    requires forall i :: 0 <= i < PAGE && !(Offset(j, size) <= i < Offset(j, size) + size) ==> a[i] == b[i]
    ensures SameWord(a, b, k, size)
  {
    hide Offset, Capacity, ValidSize;
    SlotFits(k, size);
    if j < k { SlotOrder(j, k, size); } else { SlotOrder(k, j, size); }
  }

  lemma {:induction false} WriteKeepsChain(p: Page, mem: seq<byte>, free: seq<nat>, size: nat, j: nat)
    requires ValidSize(size) && PageInv(p, free, size) && |mem| == PAGE
    requires j < Capacity(size) && j !in free
    requires forall i :: 0 <= i < PAGE && !(Offset(j, size) <= i < Offset(j, size) + size) ==> p.mem[i] == mem[i]
    ensures Chain(mem, p.freeHead, free, size)
  {
    hide Chain, Offset, Capacity, ValidSize;
    forall i | 0 <= i < |free| ensures SameWord(p.mem, mem, free[i], size) {
      OtherSlots(p.mem, mem, j, free[i], size);
    }
    ChainFrame(p.mem, mem, p.freeHead, free, size);
  }

  // Allocate one object from a page with a free slot.
  function PageAlloc(p: Page): (r: Page)
    requires |p.mem| == PAGE && p.freeHead + 8 <= PAGE
  {
    p.(freeHead := ReadWord(p.mem, p.freeHead), used := p.used + 1)
  }

  function PageFree(p: Page, offset: nat): (r: Page)
    requires |p.mem| == PAGE && offset + 8 <= PAGE && p.used > 0
  {
    p.(mem := WriteWord(p.mem, offset, p.freeHead), freeHead := offset, used := p.used - 1)
  }

  lemma HeadFacts(p: Page, free: seq<nat>, size: nat)
    requires ValidSize(size) && PageInv(p, free, size)
    ensures p.freeHead == NIL <==> free == []
    ensures free != [] ==> p.freeHead == Offset(free[0], size) && p.freeHead + 8 <= PAGE
    ensures p.freeHead < WORD
  {
    hide Offset, Capacity, ValidSize;
    if free != [] { SlotFits(free[0], size); }
  }

  lemma PageAllocInv(p: Page, free: seq<nat>, size: nat)
    requires ValidSize(size) && PageInv(p, free, size) && free != []
    ensures p.freeHead + 8 <= PAGE && PageInv(PageAlloc(p), free[1..], size)
  {
    hide Offset, Capacity, ValidSize, ReadWord;
    HeadFacts(p, free, size);
  }

  lemma PageFreeInv(p: Page, free: seq<nat>, size: nat, j: nat)
    requires ValidSize(size) && PageInv(p, free, size) && j < Capacity(size) && j !in free
    ensures p.used > 0 && Offset(j, size) + 8 <= PAGE
    ensures PageInv(PageFree(p, Offset(j, size)), [j] + free, size)
  {
    SlotFits(j, size);
    HeadFacts(p, free, size);
    NotAllFree(free, Capacity(size), j);
    ReadAfterWrite(p.mem, Offset(j, size), p.freeHead);
    hide Offset, Capacity, ValidSize, ReadWord, WriteWord;
    var q := PageFree(p, Offset(j, size));
    WriteKeepsChain(p, q.mem, free, size, j);
    assert ([j] + free)[1..] == free;
  }

  /** Distinct slots below n that miss one number are fewer than n. */
  lemma NotAllFree(free: seq<nat>, n: nat, j: nat)
    requires Distinct(free) && (forall i :: 0 <= i < |free| ==> free[i] < n) && j < n && j !in free
    ensures |free| < n
  {
    var all := [j] + free;
    assert Distinct(all);
    Pigeonhole(all, n);
  }

  lemma {:induction false} Pigeonhole(xs: seq<nat>, n: nat)
    requires Distinct(xs) && forall i :: 0 <= i < |xs| ==> xs[i] < n
    ensures |xs| <= n
    decreases n
  {
    assert xs != [] ==> xs[0] < n;
    if n > 0 {
      if n - 1 in xs {
        var k :| 0 <= k < |xs| && xs[k] == n - 1;
        var ys := xs[..k] + xs[k + 1..];
        assert forall i :: 0 <= i < |ys| ==> ys[i] == xs[if i < k then i else i + 1];
        Pigeonhole(ys, n - 1);
      } else {
        Pigeonhole(xs, n - 1);
      }
    }
  }

  // ------------------------------------------------------------- a fresh page

  // The list link written into slot i of a fresh page.
  function Link(i: nat, size: nat): nat
    requires size > 0
  {
    if i + 1 < Capacity(size) then Offset(i + 1, size) else NIL
  }

  // Memory after the links of the first n slots have been written.
  function Linked(mem: seq<byte>, size: nat, n: nat): (m: seq<byte>)
    requires ValidSize(size) && |mem| == PAGE && n <= Capacity(size)
    ensures |m| == PAGE
    decreases n
  {
    if n == 0 then mem
    else
      SlotFits(n - 1, size);
      WriteWord(Linked(mem, size, n - 1), Offset(n - 1, size), Link(n - 1, size))
  }

  function FreshPage(virt: nat, mem: seq<byte>, size: nat): Page
    requires ValidSize(size) && |mem| == PAGE
  {
    Page(virt, Linked(mem, size, Capacity(size)), 0, 0)
  }

  function From(k: nat, n: nat): (r: seq<nat>)
    requires k <= n
    ensures |r| == n - k && forall i :: 0 <= i < |r| ==> r[i] == k + i
  {
    seq(n - k, i requires 0 <= i < n - k => k + i)
  }

  lemma LinkFits(i: nat, size: nat)
    requires ValidSize(size) && i < Capacity(size)
    ensures Link(i, size) < WORD
  {
    hide Offset, Capacity;
    if i + 1 < Capacity(size) { SlotFits(i + 1, size); }
  }

  lemma {:induction false} LinkedWord(mem: seq<byte>, size: nat, n: nat, k: nat)
    requires ValidSize(size) && |mem| == PAGE && k < n <= Capacity(size)
    ensures Offset(k, size) + 8 <= PAGE && ReadWord(Linked(mem, size, n), Offset(k, size)) == Link(k, size)
    decreases n
  {
    hide Offset, Capacity, Link, WriteWord, WordOf, ValidSize;
    SlotFits(k, size);
    SlotFits(n - 1, size);
    LinkFits(n - 1, size);
    var before := Linked(mem, size, n - 1);
    ReadAfterWrite(before, Offset(n - 1, size), Link(n - 1, size));
    if k < n - 1 {
      LinkedWord(mem, size, n - 1, k);
      SlotOrder(k, n - 1, size);
      var after := Linked(mem, size, n);
      assert before[Offset(k, size)..Offset(k, size) + 8] == after[Offset(k, size)..Offset(k, size) + 8];
    }
  }

  lemma {:induction false} FreshChain(mem: seq<byte>, size: nat, k: nat)
    requires ValidSize(size) && |mem| == PAGE && k <= Capacity(size)
    ensures
      var m := Linked(mem, size, Capacity(size));
      Chain(m, if k < Capacity(size) then Offset(k, size) else NIL, From(k, Capacity(size)), size)
    decreases Capacity(size) - k
  {
    SizeFacts(size);
    hide Offset, Capacity, ReadWord, Linked, ValidSize;
    if k < Capacity(size) {
      LinkedWord(mem, size, Capacity(size), k);
      FreshChain(mem, size, k + 1);
      assert From(k, Capacity(size))[1..] == From(k + 1, Capacity(size));
    }
  }

  /** A fresh page has every slot free, in ascending order. */
  lemma FreshPageInv(virt: nat, mem: seq<byte>, size: nat)
    requires ValidSize(size) && |mem| == PAGE && virt % PAGE == 0
    ensures PageInv(FreshPage(virt, mem, size), From(0, Capacity(size)), size)
  {
    SizeFacts(size);
    assert Offset(0, size) == 0;
    hide Offset, Capacity, Linked, ValidSize;
    FreshChain(mem, size, 0);
  }

  // ------------------------------------------------------------- the cache

  datatype Cache = Cache(size: nat, pages: seq<Page>, hint: nat)
  // What the frame allocator hands out: a mapped page, its previous contents unknown.
  datatype Frame = Frame(virt: nat, mem: seq<byte>)

  // The least page from lo up to hi that has a free slot, or hi.
  function FirstPartial(pages: seq<Page>, lo: nat, hi: nat): (i: nat)
    requires lo <= hi <= |pages|
    ensures lo <= i <= hi
    ensures i < hi ==> pages[i].freeHead != NIL
    ensures forall k :: lo <= k < i ==> pages[k].freeHead == NIL
    decreases hi - lo
  {
    if lo == hi || pages[lo].freeHead != NIL then lo else FirstPartial(pages, lo + 1, hi)
  }

  // The page `alloc` takes a slot from: the hint and after, then before; the length if all are full.
  function Choice(c: Cache): (i: nat)
    ensures i <= |c.pages|
    ensures i < |c.pages| ==> c.pages[i].freeHead != NIL
    ensures i == |c.pages| ==> forall k :: 0 <= k < |c.pages| ==> c.pages[k].freeHead == NIL
  {
    var start := Min(c.hint, |c.pages|);
    var i := FirstPartial(c.pages, start, |c.pages|);
    if i < |c.pages| then i
    else
      var j := FirstPartial(c.pages, 0, start);
      if j < start then j else |c.pages|
  }

  // Every free list head can be followed.
  predicate Followable(c: Cache) {
    && ValidSize(c.size)
    && forall i :: 0 <= i < |c.pages| ==>
         |c.pages[i].mem| == PAGE && (c.pages[i].freeHead == NIL || c.pages[i].freeHead + 8 <= PAGE)
  }

  function CacheAlloc(c: Cache, frame: Option<Frame>): (r: (Cache, Option<nat>))
    requires Followable(c) && (frame.Some? ==> |frame.value.mem| == PAGE)
  {
    var i := Choice(c);
    if i < |c.pages| then
      var p := c.pages[i];
      (c.(pages := c.pages[i := PageAlloc(p)], hint := i), Some(p.virt + p.freeHead))
    else if frame.None? then (c, None)
    else
      var p := FreshPage(frame.value.virt, frame.value.mem, c.size);
      (c.(pages := c.pages + [PageAlloc(p)], hint := |c.pages|), Some(p.virt + p.freeHead))
  }

  function PageStart(addr: nat): nat { addr - addr % PAGE }

  function FindPage(pages: seq<Page>, virt: nat): (i: nat)
    ensures i <= |pages|
    ensures i < |pages| ==> pages[i].virt == virt
    ensures forall j :: 0 <= j < i ==> pages[j].virt != virt
  {
    if pages == [] || pages[0].virt == virt then 0
    else
      var i := 1 + FindPage(pages[1..], virt);
      assert forall j :: 0 <= j < i ==> pages[j] == if j == 0 then pages[0] else pages[1..][j - 1];
      i
  }

  // The caller's obligation: the address lies in a page of the cache that has something to free.
  predicate Freeable(c: Cache, addr: nat) {
    var i := FindPage(c.pages, PageStart(addr));
    i < |c.pages| ==> |c.pages[i].mem| == PAGE && c.pages[i].used > 0 && addr % PAGE + 8 <= PAGE
  }

  function CacheFree(c: Cache, addr: nat): Cache
    requires Freeable(c, addr)
  {
    var i := FindPage(c.pages, PageStart(addr));
    if i < |c.pages| then
      c.(pages := c.pages[i := PageFree(c.pages[i], addr - c.pages[i].virt)], hint := i)
    else c
  }

  function Retained(pages: seq<Page>): seq<Page> {
    if pages == [] then []
    else (if pages[0].used == 0 then [] else [pages[0]]) + Retained(pages[1..])
  }

  function CacheReap(c: Cache): Cache {
    c.(pages := Retained(c.pages), hint := 0)
  }

  // ------------------------------------------------------------- runs

  // An object is named by the page it lies in and its slot.
  type Obj = (nat, nat)

  // The cache, the free slots of each page in list order, and the objects clients hold.
  datatype World = World(cache: Cache, frees: map<nat, seq<nat>>, live: set<Obj>)

  datatype Action =
    | DoAlloc(frame: Option<Frame>)
    | DoFree(obj: Obj)
    | DoReap
    | DoWrite(obj: Obj, at: nat, value: byte)

  function Address(o: Obj, size: nat): nat {
    o.0 + Offset(o.1, size)
  }

  ghost predicate HasPage(c: Cache, virt: nat) {
    exists i :: 0 <= i < |c.pages| && c.pages[i].virt == virt
  }

  // Frames come page-aligned and are not handed out twice; clients use only what they hold.
  ghost predicate Allowed(w: World, a: Action) {
    match a
    case DoAlloc(frame) =>
      frame.Some? ==>
        |frame.value.mem| == PAGE && frame.value.virt % PAGE == 0 && !HasPage(w.cache, frame.value.virt)
    case DoFree(o) => o in w.live
    case DoReap => true
    case DoWrite(o, at, _) => o in w.live && at < w.cache.size
  }

  ghost predicate PagesInv(w: World) {
    && ValidSize(w.cache.size)
    && (forall i :: 0 <= i < |w.cache.pages| ==>
          && w.cache.pages[i].virt in w.frees
          && PageInv(w.cache.pages[i], w.frees[w.cache.pages[i].virt], w.cache.size))
    && (forall i, j :: 0 <= i < j < |w.cache.pages| ==> w.cache.pages[i].virt != w.cache.pages[j].virt)
  }

  // The objects held are exactly the slots on no free list.
  ghost predicate LiveInv(w: World)
    requires PagesInv(w)
  {
    && (forall o :: o in w.live ==>
          HasPage(w.cache, o.0) && o.0 in w.frees && o.1 < Cap(w) && o.1 !in w.frees[o.0])
    && (forall i, j :: 0 <= i < |w.cache.pages| && 0 <= j < Cap(w) && j !in w.frees[w.cache.pages[i].virt] ==>
          (w.cache.pages[i].virt, j) in w.live)
  }

  ghost function Cap(w: World): nat
    requires ValidSize(w.cache.size)
  {
    SizeFacts(w.cache.size);
    Capacity(w.cache.size)
  }

  ghost predicate Inv(w: World) {
    PagesInv(w) && LiveInv(w)
  }

  ghost function AllocWorld(w: World, frame: Option<Frame>): World
    requires Inv(w) && Allowed(w, DoAlloc(frame))
  {
    InvFollowable(w);
    var i := Choice(w.cache);
    var c := CacheAlloc(w.cache, frame).0;
    if i < |w.cache.pages| then
      var v := w.cache.pages[i].virt;
      HeadFacts(w.cache.pages[i], w.frees[v], w.cache.size);
      World(c, w.frees[v := w.frees[v][1..]], w.live + {(v, w.frees[v][0])})
    else if frame.None? then w
    else
      SizeFacts(w.cache.size);
      World(c, w.frees[frame.value.virt := From(1, Cap(w))], w.live + {(frame.value.virt, 0)})
  }

  ghost function FreeWorld(w: World, o: Obj): World
    requires Inv(w) && o in w.live
  {
    LiveFreeable(w, o);
    World(CacheFree(w.cache, Address(o, w.cache.size)), w.frees[o.0 := [o.1] + w.frees[o.0]], w.live - {o})
  }

  ghost function WriteWorld(w: World, o: Obj, at: nat, value: byte): World
    requires Inv(w) && o in w.live && at < w.cache.size
  {
    var i := FindPage(w.cache.pages, o.0);
    LiveFacts(w, o);
    var p := w.cache.pages[i];
    w.(cache := w.cache.(pages := w.cache.pages[i := p.(mem := p.mem[Offset(o.1, w.cache.size) + at := value])]))
  }

  lemma InvFollowable(w: World)
    requires PagesInv(w)
    ensures Followable(w.cache)
  {
    hide ValidSize, Offset;
    forall i | 0 <= i < |w.cache.pages|
      ensures var p := w.cache.pages[i]; |p.mem| == PAGE && (p.freeHead == NIL || p.freeHead + 8 <= PAGE)
    {
      HeadFacts(w.cache.pages[i], w.frees[w.cache.pages[i].virt], w.cache.size);
    }
  }

  /** A held object lies in the page found for it. */
  lemma LiveFacts(w: World, o: Obj)
    requires Inv(w) && o in w.live
    ensures
      var i := FindPage(w.cache.pages, o.0);
      && i < |w.cache.pages| && |w.cache.pages[i].mem| == PAGE
      && Offset(o.1, w.cache.size) + w.cache.size <= PAGE
  {
    hide Offset, ValidSize, FindPage;
    SlotFits(o.1, w.cache.size);
  }

  lemma LiveFreeable(w: World, o: Obj)
    requires Inv(w) && o in w.live
    ensures
      var addr := Address(o, w.cache.size);
      && PageStart(addr) == o.0 && addr % PAGE == Offset(o.1, w.cache.size)
      && FindPage(w.cache.pages, o.0) < |w.cache.pages| && Freeable(w.cache, addr)
  {
    hide ValidSize, FindPage;
    LiveFacts(w, o);
    var i := FindPage(w.cache.pages, o.0);
    SlotFits(o.1, w.cache.size);
    PageFreeInv(w.cache.pages[i], w.frees[o.0], w.cache.size, o.1);
    AddressSplits(o.0, Offset(o.1, w.cache.size));
    hide Offset, PageStart, PageInv, LiveInv;
  }

  lemma AddressSplits(virt: nat, offset: nat)
    requires virt % PAGE == 0 && offset < PAGE
    ensures PageStart(virt + offset) == virt && (virt + offset) % PAGE == offset
  {
  }

  /** Replacing one page, its free list and its objects consistently keeps the invariant. */
  lemma ReplacePage(w: World, i: nat, p: Page, free: seq<nat>, live: set<Obj>, hint: nat)
    requires Inv(w) && i < |w.cache.pages| && p.virt == w.cache.pages[i].virt
    requires PageInv(p, free, w.cache.size)
    requires forall o: Obj :: o.0 != p.virt ==> (o in live <==> o in w.live)
    requires forall j: nat :: (p.virt, j) in live <==> j < Cap(w) && j !in free
    ensures Inv(World(w.cache.(pages := w.cache.pages[i := p], hint := hint), w.frees[p.virt := free], live))
  {
    hide PageInv, Capacity, ValidSize;
    var v := World(w.cache.(pages := w.cache.pages[i := p], hint := hint), w.frees[p.virt := free], live);
    assert PagesInv(v);
    forall o | o in live ensures HasPage(v.cache, o.0) && o.0 in v.frees && o.1 < Cap(v) && o.1 !in v.frees[o.0] {
      if o.0 == p.virt {
        assert v.cache.pages[i].virt == o.0;
        assert (p.virt, o.1) in live;
      } else {
        assert o in w.live;
        var k :| 0 <= k < |w.cache.pages| && w.cache.pages[k].virt == o.0;
        assert v.cache.pages[k].virt == o.0;
      }
    }
    forall k, j | 0 <= k < |v.cache.pages| && 0 <= j < Cap(v) && j !in v.frees[v.cache.pages[k].virt]
      ensures (v.cache.pages[k].virt, j) in live
    {
      if k != i { assert v.cache.pages[k] == w.cache.pages[k]; }
    }
  }

  /** So does adding a page nobody had. */
  lemma AppendPage(w: World, p: Page, free: seq<nat>, live: set<Obj>, hint: nat)
    requires Inv(w) && !HasPage(w.cache, p.virt)
    requires PageInv(p, free, w.cache.size)
    requires forall o: Obj :: o.0 != p.virt ==> (o in live <==> o in w.live)
    requires forall j: nat :: (p.virt, j) in live <==> j < Cap(w) && j !in free
    ensures Inv(World(w.cache.(pages := w.cache.pages + [p], hint := hint), w.frees[p.virt := free], live))
  {
    hide PageInv, Capacity, ValidSize;
    var n := |w.cache.pages|;
    var v := World(w.cache.(pages := w.cache.pages + [p], hint := hint), w.frees[p.virt := free], live);
    assert forall k :: 0 <= k < n ==> v.cache.pages[k] == w.cache.pages[k] && w.cache.pages[k].virt != p.virt;
    assert PagesInv(v);
    forall o | o in live ensures HasPage(v.cache, o.0) && o.0 in v.frees && o.1 < Cap(v) && o.1 !in v.frees[o.0] {
      if o.0 == p.virt {
        assert v.cache.pages[n].virt == o.0;
        assert (p.virt, o.1) in live;
      } else {
        assert o in w.live;
        var k :| 0 <= k < n && w.cache.pages[k].virt == o.0;
        assert v.cache.pages[k].virt == o.0;
      }
    }
    forall k, j | 0 <= k < |v.cache.pages| && 0 <= j < Cap(v) && j !in v.frees[v.cache.pages[k].virt]
      ensures (v.cache.pages[k].virt, j) in live
    {
    }
  }

  // The objects of a page are the slots that are not free.
  lemma PageObjects(w: World, i: nat, j: nat)
    requires Inv(w) && i < |w.cache.pages|
    ensures w.cache.pages[i].virt in w.frees
    ensures (w.cache.pages[i].virt, j) in w.live <==> j < Cap(w) && j !in w.frees[w.cache.pages[i].virt]
  {
    hide PageInv, Capacity, ValidSize;
  }

  lemma AllocInv(w: World, frame: Option<Frame>)
    requires Inv(w) && Allowed(w, DoAlloc(frame))
    ensures Inv(AllocWorld(w, frame))
  {
    InvFollowable(w);
    SizeFacts(w.cache.size);
    var i, size := Choice(w.cache), w.cache.size;
    hide Choice, ValidSize, Followable;
    if i < |w.cache.pages| {
      var p := w.cache.pages[i];
      var free := w.frees[p.virt];
      HeadFacts(p, free, size);
      PageAllocInv(p, free, size);
      forall j: nat ensures (p.virt, j) in w.live + {(p.virt, free[0])} <==> j < Cap(w) && j !in free[1..] {
        PageObjects(w, i, j);
        assert free == [free[0]] + free[1..];
      }
      hide Inv, PagesInv, PageInv, PageAlloc;
      ReplacePage(w, i, PageAlloc(p), free[1..], w.live + {(p.virt, free[0])}, i);
    } else if frame.Some? {
      AllocFreshInv(w, frame.value);
    }
  }

  lemma AllocFreshInv(w: World, f: Frame)
    requires Inv(w) && Allowed(w, DoAlloc(Some(f))) && Choice(w.cache) == |w.cache.pages|
    ensures Inv(AllocWorld(w, Some(f)))
  {
    InvFollowable(w);
    SizeFacts(w.cache.size);
    var size := w.cache.size;
    var p := FreshPage(f.virt, f.mem, size);
    var free := From(0, Capacity(size));
    FreshPageInv(f.virt, f.mem, size);
    PageAllocInv(p, free, size);
    assert free[1..] == From(1, Capacity(size));
    hide ValidSize, Followable, PageInv, PageAlloc, FreshPage;
    forall j: nat ensures (f.virt, j) in w.live + {(f.virt, 0)} <==> j < Cap(w) && j !in From(1, Cap(w)) {
      FromMembers(1, Cap(w), j);
    }
    AppendPage(w, PageAlloc(p), From(1, Cap(w)), w.live + {(f.virt, 0)}, |w.cache.pages|);
  }

  lemma FromMembers(k: nat, n: nat, j: nat)
    requires k <= n
    ensures j in From(k, n) <==> k <= j < n
  {
    if k <= j < n { assert From(k, n)[j - k] == j; }
  }

  // The page freed into has the slot in front of its list, and its objects are those not on it.
  lemma FreedPageInv(w: World, o: Obj)
    requires Inv(w) && o in w.live
    ensures
      var i, at := FindPage(w.cache.pages, o.0), Offset(o.1, w.cache.size);
      && i < |w.cache.pages| && |w.cache.pages[i].mem| == PAGE && w.cache.pages[i].used > 0 && at + 8 <= PAGE
      && w.cache.pages[i].virt == o.0 && o.0 in w.frees
      && PageInv(PageFree(w.cache.pages[i], at), [o.1] + w.frees[o.0], w.cache.size)
  {
    LiveFreeable(w, o);
    PageFreeInv(w.cache.pages[FindPage(w.cache.pages, o.0)], w.frees[o.0], w.cache.size, o.1);
  }

  lemma FreeInv(w: World, o: Obj)
    requires Inv(w) && o in w.live
    ensures Inv(FreeWorld(w, o))
  {
    FreedPageInv(w, o);
    LiveFreeable(w, o);
    hide Inv, PagesInv, PageInv, FindPage, PageFree, Freeable;
    var i, at := FindPage(w.cache.pages, o.0), Offset(o.1, w.cache.size);
    var p, free := w.cache.pages[i], w.frees[o.0];
    forall j: nat ensures (p.virt, j) in w.live - {o} <==> j < Cap(w) && j !in [o.1] + free {
      PageObjects(w, i, j);
    }
    ReplacePage(w, i, PageFree(p, at), [o.1] + free, w.live - {o}, i);
  }

  // The page written to keeps its list, and its objects are those not on it.
  lemma WrittenPageInv(w: World, o: Obj, at: nat, value: byte)
    requires Inv(w) && o in w.live && at < w.cache.size
    ensures
      var i, size := FindPage(w.cache.pages, o.0), w.cache.size;
      && i < |w.cache.pages| && |w.cache.pages[i].mem| == PAGE && Offset(o.1, size) + at < PAGE
      && w.cache.pages[i].virt == o.0 && o.0 in w.frees
      && var p := w.cache.pages[i];
      && PageInv(p.(mem := p.mem[Offset(o.1, size) + at := value]), w.frees[o.0], size)
      && forall j: nat :: (p.virt, j) in w.live <==> j < Cap(w) && j !in w.frees[o.0]
  {
    var i, size := FindPage(w.cache.pages, o.0), w.cache.size;
    LiveFacts(w, o);
    var p, free := w.cache.pages[i], w.frees[o.0];
    WriteKeepsChain(p, p.mem[Offset(o.1, size) + at := value], free, size, o.1);
    forall j: nat ensures (p.virt, j) in w.live <==> j < Cap(w) && j !in free {
      PageObjects(w, i, j);
    }
  }

  /** Clients may write anything into what they hold: no list is affected. */
  lemma WriteInv(w: World, o: Obj, at: nat, value: byte)
    requires Inv(w) && o in w.live && at < w.cache.size
    ensures Inv(WriteWorld(w, o, at, value))
  {
    WrittenPageInv(w, o, at, value);
    var i, size := FindPage(w.cache.pages, o.0), w.cache.size;
    LiveFacts(w, o);
    var p, free := w.cache.pages[i], w.frees[o.0];
    var q := p.(mem := p.mem[Offset(o.1, size) + at := value]);
    assert w.frees[o.0 := free] == w.frees;
    hide Inv, PagesInv, PageInv, FindPage;
    ReplacePage(w, i, q, free, w.live, w.cache.hint);
  }

  lemma {:induction false} RetainedAre(pages: seq<Page>)
    ensures forall p :: p in Retained(pages) <==> p in pages && p.used != 0
    decreases |pages|
  {
    if pages != [] {
      RetainedAre(pages[1..]);
      assert pages == [pages[0]] + pages[1..];
    }
  }

  lemma {:induction false} RetainedFacts(pages: seq<Page>)
    requires forall i, j :: 0 <= i < j < |pages| ==> pages[i].virt != pages[j].virt
    ensures
      var r := Retained(pages);
      && (forall p :: p in r <==> p in pages && p.used != 0)
      && (forall i, j :: 0 <= i < j < |r| ==> r[i].virt != r[j].virt)
    decreases |pages|
  {
    if pages != [] {
      RetainedFacts(pages[1..]);
      assert pages == [pages[0]] + pages[1..];
    }
  }

  /** A page is entirely free exactly when no client holds an object in it. */
  lemma EmptyIffUnheld(w: World, i: nat)
    requires Inv(w) && i < |w.cache.pages|
    ensures w.cache.pages[i].used == 0 <==> forall o :: o in w.live ==> o.0 != w.cache.pages[i].virt
  {
    var p, n := w.cache.pages[i], Cap(w);
    var free := w.frees[p.virt];
    hide Capacity, ValidSize, Chain;
    if p.used == 0 {
      forall o | o in w.live ensures o.0 != p.virt {
        if o.0 == p.virt { NotAllFree(free, n, o.1); }
      }
    } else {
      var j := MissingNumber(free, n);
      PageObjects(w, i, j);
      assert (p.virt, j) in w.live;
    }
  }

  lemma {:induction false} MissingNumber(xs: seq<nat>, n: nat) returns (j: nat)
    requires |xs| < n
    ensures j < n && j !in xs
    decreases n
  {
    j := n - 1;
    if j in xs {
      var k :| 0 <= k < |xs| && xs[k] == j;
      var ys := xs[..k] + xs[k + 1..];
      assert forall m :: 0 <= m < |xs| && m != k ==> xs[m] == ys[if m < k then m else m - 1];
      j := MissingNumber(ys, n - 1);
    }
  }

  ghost function ReapWorld(w: World): World {
    w.(cache := CacheReap(w.cache))
  }

  lemma ReapInv(w: World)
    requires Inv(w)
    ensures Inv(ReapWorld(w))
  {
    hide Capacity, ValidSize, PageInv, Retained;
    RetainedFacts(w.cache.pages);
    var v := ReapWorld(w);
    forall i | 0 <= i < |v.cache.pages|
      ensures
        && v.cache.pages[i].virt in v.frees
        && PageInv(v.cache.pages[i], v.frees[v.cache.pages[i].virt], v.cache.size)
      ensures v.cache.pages[i] in w.cache.pages
    {
      assert v.cache.pages[i] in Retained(w.cache.pages);
    }
    assert PagesInv(v);
    forall o | o in v.live ensures HasPage(v.cache, o.0) {
      var k :| 0 <= k < |w.cache.pages| && w.cache.pages[k].virt == o.0;
      EmptyIffUnheld(w, k);
      assert w.cache.pages[k] in v.cache.pages;
    }
    forall i, j | 0 <= i < |v.cache.pages| && 0 <= j < Cap(v) && j !in v.frees[v.cache.pages[i].virt]
      ensures (v.cache.pages[i].virt, j) in v.live
    {
      var k :| 0 <= k < |w.cache.pages| && w.cache.pages[k] == v.cache.pages[i];
    }
  }

  // ------------------------------------------------------------- reuse

  lemma HintChosen(c: Cache)
    requires c.hint < |c.pages| && c.pages[c.hint].freeHead != NIL
    ensures Choice(c) == c.hint
  {
  }

  /** What was freed last is given out next. */
  lemma FreeThenAlloc(w: World, o: Obj, frame: Option<Frame>)
    requires Inv(w) && o in w.live && (frame.Some? ==> |frame.value.mem| == PAGE)
    ensures
      var c := FreeWorld(w, o).cache;
      Followable(c) && CacheAlloc(c, frame).1 == Some(Address(o, w.cache.size))
  {
    FreeInv(w, o);
    InvFollowable(FreeWorld(w, o));
    FreedHint(w, o);
    hide Inv, FreeWorld, Followable, Choice, PageAlloc, Offset;
    HintChosen(FreeWorld(w, o).cache);
  }

  lemma FreedHint(w: World, o: Obj)
    requires Inv(w) && o in w.live
    ensures
      var c := FreeWorld(w, o).cache;
      && c.hint < |c.pages| && c.pages[c.hint].virt == o.0
      && c.pages[c.hint].freeHead == Offset(o.1, w.cache.size) != NIL
  {
    LiveFreeable(w, o);
    FreeWorldPages(w, o);
    hide Inv, Offset, FindPage, Freeable, PageStart;
  }

  /** The next object comes from the same page as long as there is room in it. */
  lemma AllocStaysOnPage(w: World, frame: Option<Frame>, next: Option<Frame>)
    requires Inv(w) && Allowed(w, DoAlloc(frame)) && (next.Some? ==> |next.value.mem| == PAGE)
    requires Followable(w.cache) && CacheAlloc(w.cache, frame).1.Some?
    ensures
      var (c, addr) := CacheAlloc(w.cache, frame);
      && Followable(c) && c.hint < |c.pages|
      && var p := c.pages[c.hint];
      && p.virt <= addr.value < p.virt + PAGE
      && (p.freeHead != NIL ==> CacheAlloc(c, next).1 == Some(p.virt + p.freeHead))
  {
    AllocInv(w, frame);
    AllocCache(w, frame);
    InvFollowable(AllocWorld(w, frame));
    hide Inv, AllocWorld, Choice, ReadWord, Linked, Capacity;
    var c := CacheAlloc(w.cache, frame).0;
    if c.pages[c.hint].freeHead != NIL { HintChosen(c); }
  }

  lemma AllocCache(w: World, frame: Option<Frame>)
    requires Inv(w) && Allowed(w, DoAlloc(frame)) && Followable(w.cache)
    ensures AllocWorld(w, frame).cache == CacheAlloc(w.cache, frame).0
  {
    hide Choice, PageAlloc, FreshPage, PageInv;
  }

  // Kept pages stand in their old order.
  ghost predicate InOrder(pages: seq<Page>, r: seq<Page>) {
    forall i, j :: 0 <= i < j < |r| ==> FindPage(pages, r[i].virt) < FindPage(pages, r[j].virt)
  }

  lemma {:induction false} RetainedInOrder(pages: seq<Page>)
    requires forall i, j :: 0 <= i < j < |pages| ==> pages[i].virt != pages[j].virt
    ensures InOrder(pages, Retained(pages))
    decreases |pages|
  {
    if pages != [] {
      var rest := pages[1..];
      RetainedInOrder(rest);
      RetainedFacts(rest);
      var r, q := Retained(pages), Retained(rest);
      hide FindPage;
      FirstIsFound(pages);
      forall i | 0 <= i < |q| ensures FindPage(pages, q[i].virt) == 1 + FindPage(rest, q[i].virt) {
        assert q[i] in rest;
        FoundLater(pages, q[i].virt);
      }
    }
  }

  lemma {:induction false} FirstIsFound(pages: seq<Page>)
    requires pages != []
    ensures FindPage(pages, pages[0].virt) == 0
  {
  }

  lemma {:induction false} FoundLater(pages: seq<Page>, virt: nat)
    requires pages != [] && pages[0].virt != virt
    ensures FindPage(pages, virt) == 1 + FindPage(pages[1..], virt)
  {
  }

  /**
   * Reaping keeps a page exactly when a client holds an object in it; the pages kept are unchanged and
   * in their old order, and what clients hold and what is free in the pages kept stays.
   */
  lemma ReapKeepsHeldPages(w: World, v: nat)
    requires Inv(w)
    ensures HasPage(ReapWorld(w).cache, v) <==> exists o :: o in w.live && o.0 == v
    ensures InOrder(w.cache.pages, ReapWorld(w).cache.pages)
    ensures forall p :: p in ReapWorld(w).cache.pages ==> p in w.cache.pages
    ensures ReapWorld(w).live == w.live && ReapWorld(w).cache.size == w.cache.size
  {
    hide Capacity, ValidSize, PageInv, Retained, FindPage;
    RetainedFacts(w.cache.pages);
    RetainedInOrder(w.cache.pages);
    var pages := ReapWorld(w).cache.pages;
    if HasPage(ReapWorld(w).cache, v) {
      var i :| 0 <= i < |pages| && pages[i].virt == v;
      assert pages[i] in pages;
      var k :| 0 <= k < |w.cache.pages| && w.cache.pages[k] == pages[i];
      EmptyIffUnheld(w, k);
    }
    if o :| o in w.live && o.0 == v {
      var k :| 0 <= k < |w.cache.pages| && w.cache.pages[k].virt == o.0;
      EmptyIffUnheld(w, k);
      assert w.cache.pages[k] in pages;
    }
  }

  ghost function Step(w: World, a: Action): World
    requires Inv(w) && Allowed(w, a)
  {
    match a
    case DoAlloc(frame) => AllocWorld(w, frame)
    case DoFree(o) => FreeWorld(w, o)
    case DoReap => ReapWorld(w)
    case DoWrite(o, at, value) => WriteWorld(w, o, at, value)
  }

  lemma StepInv(w: World, a: Action)
    requires Inv(w) && Allowed(w, a)
    ensures Inv(Step(w, a))
  {
    hide Inv, AllocWorld, FreeWorld, ReapWorld, WriteWorld;
    match a
    case DoAlloc(frame) => AllocInv(w, frame);
    case DoFree(o) => FreeInv(w, o);
    case DoReap => ReapInv(w);
    case DoWrite(o, at, value) => WriteInv(w, o, at, value);
  }

  ghost predicate IsRun(w: World, actions: seq<Action>)
    requires Inv(w)
    decreases |actions|
  {
    actions == [] || (Allowed(w, actions[0]) && (StepInv(w, actions[0]); IsRun(Step(w, actions[0]), actions[1..])))
  }

  ghost function Run(w: World, actions: seq<Action>): (r: World)
    requires Inv(w) && IsRun(w, actions)
    ensures Inv(r)
    decreases |actions|
  {
    if actions == [] then w
    else
      StepInv(w, actions[0]);
      Run(Step(w, actions[0]), actions[1..])
  }

  // A cache without pages.
  ghost function Start(size: nat): (w: World)
    requires ValidSize(size)
    ensures Inv(w)
  {
    World(Cache(size, [], 0), map[], {})
  }

  // ------------------------------------------------------------- what every run guarantees

  /** Objects lie inside their page, and two different ones share no byte. */
  lemma ObjectsDisjoint(w: World, a: Obj, b: Obj)
    requires Inv(w) && a in w.live && b in w.live
    ensures HasPage(w.cache, a.0) && a.0 <= Address(a, w.cache.size)
    ensures Address(a, w.cache.size) + w.cache.size <= a.0 + PAGE
    ensures a != b ==>
      || Address(a, w.cache.size) + w.cache.size <= Address(b, w.cache.size)
      || Address(b, w.cache.size) + w.cache.size <= Address(a, w.cache.size)
  {
    hide Capacity, ValidSize, Chain, Offset;
    var size := w.cache.size;
    SlotFits(a.1, size);
    SlotFits(b.1, size);
    if a.0 == b.0 {
      if a.1 < b.1 { SlotOrder(a.1, b.1, size); }
      if b.1 < a.1 { SlotOrder(b.1, a.1, size); }
    } else {
      var i :| 0 <= i < |w.cache.pages| && w.cache.pages[i].virt == a.0;
      var k :| 0 <= k < |w.cache.pages| && w.cache.pages[k].virt == b.0;
      PagesApart(a.0, b.0);
    }
  }

  lemma PagesApart(u: nat, v: nat)
    requires u % PAGE == 0 && v % PAGE == 0 && u != v
    ensures u + PAGE <= v || v + PAGE <= u
  {
  }

  /** Free and allocated slots of a page add up, and full means nothing is free. */
  lemma FullIff(w: World, i: nat)
    requires Inv(w) && i < |w.cache.pages|
    ensures w.cache.pages[i].used + |w.frees[w.cache.pages[i].virt]| == Cap(w)
    ensures w.cache.pages[i].freeHead == NIL <==> w.cache.pages[i].used == Cap(w)
  {
    hide Capacity, ValidSize, Chain, Offset;
    HeadFacts(w.cache.pages[i], w.frees[w.cache.pages[i].virt], w.cache.size);
  }

  /** A frame is asked for exactly when every page is full. */
  lemma FrameOnlyWhenFull(w: World)
    requires Inv(w)
    ensures Choice(w.cache) == |w.cache.pages|
       <==> forall i :: 0 <= i < |w.cache.pages| ==> w.cache.pages[i].used == Cap(w)
  {
    hide Capacity, ValidSize, PageInv, FirstPartial;
    forall i | 0 <= i < |w.cache.pages|
      ensures w.cache.pages[i].freeHead == NIL <==> w.cache.pages[i].used == Cap(w)
    {
      FullIff(w, i);
    }
  }

  /** An allocation that succeeds returns the address of an object nobody held. */
  lemma AllocIsFresh(w: World, frame: Option<Frame>)
    requires Inv(w) && Allowed(w, DoAlloc(frame)) && Followable(w.cache)
    ensures
      var r := CacheAlloc(w.cache, frame).1;
      var v := AllocWorld(w, frame);
      && (r.None? <==> Choice(w.cache) == |w.cache.pages| && frame.None?)
      && (r.None? ==> v == w)
      && (r.Some? ==> exists o :: o !in w.live && v.live == w.live + {o} && r == Some(Address(o, w.cache.size)))
  {
    var i, size := Choice(w.cache), w.cache.size;
    SizeFacts(size);
    if i < |w.cache.pages| {
      var p := w.cache.pages[i];
      var free := w.frees[p.virt];
      HeadFacts(p, free, size);
      PageObjects(w, i, free[0]);
      assert (p.virt, free[0]) !in w.live;
    } else if frame.Some? {
      var o: Obj := (frame.value.virt, 0);
      assert o !in w.live;
      assert Offset(0, size) == 0;
      assert CacheAlloc(w.cache, frame).1 == Some(Address(o, size));
    }
  }

  /**
   * Over every run of allocations, frees, reaps and client writes: free list and held objects
   * partition each page, objects are disjoint and inside live pages, and the embedded list of
   * each page is a chain without repetition through exactly the free slots.
   */
  lemma {:induction false} SlabOverEveryRun(size: nat, actions: seq<Action>, a: Obj, b: Obj)
    requires ValidSize(size) && IsRun(Start(size), actions)
    requires var w := Run(Start(size), actions); a in w.live && b in w.live && a != b
    ensures
      var w := Run(Start(size), actions);
      && Inv(w)
      && HasPage(w.cache, a.0) && Address(a, w.cache.size) + w.cache.size <= a.0 + PAGE
      && (|| Address(a, w.cache.size) + w.cache.size <= Address(b, w.cache.size)
          || Address(b, w.cache.size) + w.cache.size <= Address(a, w.cache.size))
  {
    hide Inv, IsRun;
    ObjectsDisjoint(Run(Start(size), actions), a, b);
  }

  // The bytes of an object.
  ghost function Contents(w: World, o: Obj): seq<byte>
    requires Inv(w) && o in w.live
  {
    LiveFacts(w, o);
    var i := FindPage(w.cache.pages, o.0);
    w.cache.pages[i].mem[Offset(o.1, w.cache.size)..Offset(o.1, w.cache.size) + w.cache.size]
  }

  /** The contents of an object are those of the page that carries its address, wherever it is listed. */
  lemma ContentsAt(w: World, o: Obj, i: nat)
    requires Inv(w) && o in w.live && i < |w.cache.pages| && w.cache.pages[i].virt == o.0
    ensures i == FindPage(w.cache.pages, o.0)
  {
    hide FindPage, PageInv, ValidSize;
  }

  // Allocation changes no page's address or bytes and ends no object's life.
  lemma AllocWorldPages(w: World, frame: Option<Frame>, i: nat)
    requires Inv(w) && Allowed(w, DoAlloc(frame)) && i < |w.cache.pages|
    ensures
      var v := AllocWorld(w, frame);
      && w.live <= v.live && v.cache.size == w.cache.size && i < |v.cache.pages|
      && v.cache.pages[i].virt == w.cache.pages[i].virt && v.cache.pages[i].mem == w.cache.pages[i].mem
  {
    InvFollowable(w);
    hide ValidSize, Inv, FindPage, Choice, PagesInv, LiveInv, FreshPage;
  }

  lemma AllocKeepsContents(w: World, frame: Option<Frame>, o: Obj)
    requires Inv(w) && Allowed(w, DoAlloc(frame)) && o in w.live
    ensures Inv(AllocWorld(w, frame)) && o in AllocWorld(w, frame).live
    ensures Contents(AllocWorld(w, frame), o) == Contents(w, o)
  {
    hide Inv, FindPage, AllocWorld, Allowed, Offset;
    var i := FindPage(w.cache.pages, o.0);
    AllocInv(w, frame);
    FoundPage(w, o);
    AllocWorldPages(w, frame, i);
    ContentsAt(AllocWorld(w, frame), o, i);
  }

  /** Freeing one object touches no byte of another. */
  lemma FreeKeepsContents(w: World, f: Obj, o: Obj)
    requires Inv(w) && f in w.live && o in w.live && o != f
    ensures Inv(FreeWorld(w, f)) && o in FreeWorld(w, f).live
    ensures Contents(FreeWorld(w, f), o) == Contents(w, o)
  {
    hide Inv, FindPage, Offset, FreeWorld, PageFree;
    FreeInv(w, f);
    FreeWorldPages(w, f);
    LiveFacts(w, o);
    FreeKeepsSlice(w, f, o);
    FoundPage(w, o);
    ContentsAt(FreeWorld(w, f), o, FindPage(w.cache.pages, o.0));
  }

  lemma FoundPage(w: World, o: Obj)
    requires Inv(w) && o in w.live
    ensures
      var i := FindPage(w.cache.pages, o.0);
      i < |w.cache.pages| && w.cache.pages[i].virt == o.0
  {
    hide FindPage, Offset;
    LiveFacts(w, o);
  }

  lemma FreeKeepsSlice(w: World, f: Obj, o: Obj)
    requires Inv(w) && f in w.live && o in w.live && o != f
    ensures
      var p, q := w.cache.pages, FreeWorld(w, f).cache.pages;
      var i, lo, size := FindPage(p, o.0), Offset(o.1, w.cache.size), w.cache.size;
      && i < |p| == |q| && |p[i].mem| == |q[i].mem| == PAGE && lo + size <= PAGE
      && q[i].virt == p[i].virt && q[i].mem[lo..lo + size] == p[i].mem[lo..lo + size]
  {
    var i, k, size := FindPage(w.cache.pages, o.0), FindPage(w.cache.pages, f.0), w.cache.size;
    LiveFacts(w, o);
    FreeWorldPages(w, f);
    SlotFits(f.1, size);
    hide Inv, FindPage, Offset, FreeWorld, ValidSize;
    if i == k {
      if o.1 < f.1 { SlotOrder(o.1, f.1, size); } else { SlotOrder(f.1, o.1, size); }
      WriteOutside(w.cache.pages[i].mem, Offset(f.1, size), w.cache.pages[k].freeHead, Offset(o.1, size), size);
    }
  }

  lemma FreeWorldPages(w: World, f: Obj)
    requires Inv(w) && f in w.live
    ensures
      var k, at := FindPage(w.cache.pages, f.0), Offset(f.1, w.cache.size);
      && k < |w.cache.pages| && |w.cache.pages[k].mem| == PAGE && w.cache.pages[k].used > 0 && at + 8 <= PAGE
      && FreeWorld(w, f).cache.pages == w.cache.pages[k := PageFree(w.cache.pages[k], at)]
      && FreeWorld(w, f).cache.size == w.cache.size
      && FreeWorld(w, f).live == w.live - {f}
  {
    LiveFreeable(w, f);
  }

  lemma WriteOutside(mem: seq<byte>, at: nat, v: nat, lo: nat, size: nat)
    requires at + 8 <= |mem| && lo + size <= |mem| && (lo + size <= at || at + 8 <= lo)
    ensures WriteWord(mem, at, v)[lo..lo + size] == mem[lo..lo + size]
  {
    hide BytesOf;
    var m := WriteWord(mem, at, v);
    forall i | lo <= i < lo + size ensures m[i] == mem[i] {
    }
  }

  lemma ContentsIs(w: World, o: Obj) returns (i: nat)
    requires Inv(w) && o in w.live
    ensures i < |w.cache.pages| && w.cache.pages[i].virt == o.0 && |w.cache.pages[i].mem| == PAGE
    ensures
      var lo, size := Offset(o.1, w.cache.size), w.cache.size;
      lo + size <= PAGE && Contents(w, o) == w.cache.pages[i].mem[lo..lo + size]
  {
    LiveFacts(w, o);
    i := FindPage(w.cache.pages, o.0);
  }

  lemma WrittenPages(w: World, o: Obj, at: nat, value: byte, k: nat)
    requires Inv(w) && o in w.live && at < w.cache.size && k < |w.cache.pages| && w.cache.pages[k].virt == o.0
    requires Offset(o.1, w.cache.size) + at < |w.cache.pages[k].mem|
    ensures
      var v, p := WriteWorld(w, o, at, value), w.cache.pages[k];
      && v.live == w.live && v.cache.size == w.cache.size
      && v.cache.pages == w.cache.pages[k := p.(mem := p.mem[Offset(o.1, w.cache.size) + at := value])]
  {
    ContentsAt(w, o, k);
  }

  /** A client write changes the one byte of the one object. */
  lemma WriteChangesOneByte(w: World, o: Obj, at: nat, value: byte, x: Obj)
    requires Inv(w) && o in w.live && at < w.cache.size && x in w.live
    ensures Inv(WriteWorld(w, o, at, value)) && |Contents(w, o)| == w.cache.size
    ensures Contents(WriteWorld(w, o, at, value), x)
         == if x == o then Contents(w, o)[at := value] else Contents(w, x)
  {
    hide Inv, FindPage, Offset, Contents, WriteWorld;
    WriteInv(w, o, at, value);
    var v, size := WriteWorld(w, o, at, value), w.cache.size;
    var k := ContentsIs(w, o);
    var i := ContentsIs(w, x);
    WrittenPages(w, o, at, value, k);
    var j := ContentsIs(v, x);
    ContentsAt(w, x, i);
    ContentsAt(v, x, i);
    ContentsAt(v, x, j);
    if x.0 == o.0 {
      ContentsAt(w, o, k);
      if x != o { SlotsApart(x.1, o.1, size); }
      UpdatedSlice(w.cache.pages[i].mem, Offset(o.1, size) + at, value, Offset(x.1, size), size);
    }
  }

  lemma SlotsApart(a: nat, b: nat, size: nat)
    requires a != b
    ensures Offset(a, size) + size <= Offset(b, size) || Offset(b, size) + size <= Offset(a, size)
  {
    hide Offset;
    if a < b { SlotOrder(a, b, size); } else { SlotOrder(b, a, size); }
  }

  lemma UpdatedSlice(mem: seq<byte>, at: nat, value: byte, lo: nat, size: nat)
    requires at < |mem| && lo + size <= |mem|
    ensures mem[at := value][lo..lo + size]
      == if lo <= at < lo + size then mem[lo..lo + size][at - lo := value] else mem[lo..lo + size]
  {
  }

  lemma ReapKeepsContents(w: World, o: Obj)
    requires Inv(w) && o in w.live
    ensures Inv(ReapWorld(w)) && Contents(ReapWorld(w), o) == Contents(w, o)
  {
    ReapInv(w);
    LiveFacts(w, o);
    var k := ReapKeepsPage(w, o);
    hide Inv, FindPage, Offset, CacheReap;
    ContentsAt(ReapWorld(w), o, k);
  }

  lemma ReapKeepsPage(w: World, o: Obj) returns (k: nat)
    requires Inv(w) && o in w.live
    ensures
      var pages, i := ReapWorld(w).cache.pages, FindPage(w.cache.pages, o.0);
      i < |w.cache.pages| && k < |pages| && pages[k] == w.cache.pages[i]
  {
    hide ValidSize, FindPage, Offset, Retained, Chain;
    LiveFacts(w, o);
    var v, i := ReapWorld(w), FindPage(w.cache.pages, o.0);
    EmptyIffUnheld(w, i);
    RetainedFacts(w.cache.pages);
    hide Inv;
    assert w.cache.pages[i] in v.cache.pages;
    k :| 0 <= k < |v.cache.pages| && v.cache.pages[k] == w.cache.pages[i];
  }

  // ------------------------------------------------------------- size classes

  function ClassOf(size: nat): (i: nat)
    ensures i < |CACHE_SIZES|
    ensures size <= 4096 ==> size <= CACHE_SIZES[i]
    ensures forall j :: 0 <= j < i ==> CACHE_SIZES[j] < size
  {
    if size <= 16 then 0 else if size <= 32 then 1 else if size <= 64 then 2
    else if size <= 128 then 3 else if size <= 256 then 4 else if size <= 512 then 5
    else if size <= 1024 then 6 else if size <= 2048 then 7 else 8
  }

  /** `size_to_class`: the least class that fits, the last one when none does. */
  method SizeToClass(size: nat) returns (i: nat)
    ensures i == ClassOf(size)
    ensures CACHE_SIZES[i] >= size <==> size <= PAGE
  {
    i := 0;
    while i < |CACHE_SIZES|
      invariant 0 <= i <= |CACHE_SIZES|
      invariant forall j :: 0 <= j < i ==> CACHE_SIZES[j] < size
    {
      if size <= CACHE_SIZES[i] {
        assert i > 0 ==> CACHE_SIZES[i - 1] < size;
        return;
      }
      i := i + 1;
    }
    assert CACHE_SIZES[8] < size;
    i := |CACHE_SIZES| - 1;
  }

  // ------------------------------------------------------------- the code

  class SlabCache {
    const objSize: nat
    var pages: seq<Page>
    var partialHint: nat

    ghost function Abs(): Cache
      reads this
    {
      Cache(objSize, pages, partialHint)
    }

    constructor (size: nat)
      ensures Abs() == Cache(size, [], 0)
    {
      objSize, pages, partialHint := size, [], 0;
    }

    // `SlabPage::new` on a frame already obtained: thread the list through the slots.
    static method NewPage(virt: nat, mem0: seq<byte>, size: nat) returns (p: Page)
      requires ValidSize(size) && |mem0| == PAGE
      ensures p == FreshPage(virt, mem0, size)
    {
      SizeFacts(size);
      hide Offset, ValidSize, WriteWord, Link;
      var mem := mem0;
      var capacity := Capacity(size);
      var i := 0;
      while i < capacity
        invariant 0 <= i <= capacity && |mem| == PAGE
        invariant mem == Linked(mem0, size, i)
      {
        SlotFits(i, size);
        mem := WriteWord(mem, Offset(i, size), Link(i, size));
        i := i + 1;
      }
      p := Page(virt, mem, 0, 0);
    }

    // Scan the pages from lo up to hi for one with a free slot.
    method ScanPartial(lo: nat, hi: nat) returns (i: nat)
      requires lo <= hi <= |pages|
      ensures i == FirstPartial(pages, lo, hi)
    {
      i := lo;
      while i < hi && pages[i].freeHead == NIL
        invariant lo <= i <= hi
        invariant FirstPartial(pages, lo, hi) == FirstPartial(pages, i, hi)
      {
        i := i + 1;
      }
    }

    method Alloc(frame: Option<Frame>) returns (addr: Option<nat>)
      requires Followable(Abs()) && (frame.Some? ==> |frame.value.mem| == PAGE)
      modifies this`pages, this`partialHint
      ensures (Abs(), addr) == CacheAlloc(old(Abs()), frame)
    {
      hide ValidSize, FirstPartial, FreshPage, ReadWord;
      var start := Min(partialHint, |pages|);
      var i := ScanPartial(start, |pages|);
      if i == |pages| {
        i := ScanPartial(0, start);
        if i == start { i := |pages|; }
      }
      if i < |pages| {
        partialHint := i;
        addr := Some(pages[i].virt + pages[i].freeHead);
        pages := pages[i := PageAlloc(pages[i])];
        return;
      }
      if frame.None? { return None; }
      var page := NewPage(frame.value.virt, frame.value.mem, objSize);
      FreshHead(frame.value, objSize);
      addr := Some(page.virt + page.freeHead);
      pages := pages + [PageAlloc(page)];
      partialHint := |pages| - 1;
    }

    method Free(addr: nat)
      requires Freeable(Abs(), addr)
      modifies this`pages, this`partialHint
      ensures Abs() == CacheFree(old(Abs()), addr)
    {
      hide WriteWord;
      var pageStart := addr - addr % PAGE;
      var i := 0;
      while i < |pages|
        invariant 0 <= i <= |pages| && Abs() == old(Abs())
        invariant forall j :: 0 <= j < i ==> pages[j].virt != pageStart
      {
        if pages[i].virt == pageStart {
          assert i == FindPage(pages, pageStart);
          pages := pages[i := PageFree(pages[i], addr - pages[i].virt)];
          partialHint := i;
          return;
        }
        i := i + 1;
      }
    }

    method Reap()
      modifies this`pages, this`partialHint
      ensures Abs() == CacheReap(old(Abs()))
      ensures forall p :: p in pages <==> p in old(pages) && p.used != 0
    {
      RetainedAre(pages);
      RetainedNone(pages);
      hide Retained;
      var kept: seq<Page> := [];
      var i := 0;
      while i < |pages|
        invariant 0 <= i <= |pages| && pages == old(pages)
        invariant Retained(pages) == kept + Retained(pages[i..])
      {
        RetainedStep(pages, i);
        if pages[i].used != 0 {
          assert kept + ([pages[i]] + Retained(pages[i + 1..])) == (kept + [pages[i]]) + Retained(pages[i + 1..]);
          kept := kept + [pages[i]];
        }
        i := i + 1;
      }
      pages := kept;
      partialHint := 0;
    }
  }

  lemma RetainedStep(pages: seq<Page>, i: nat)
    requires i < |pages|
    ensures Retained(pages[i..]) == (if pages[i].used == 0 then [] else [pages[i]]) + Retained(pages[i + 1..])
  {
    assert pages[i..][1..] == pages[i + 1..];
  }

  lemma {:induction false} RetainedNone(pages: seq<Page>)
    ensures Retained(pages[0..]) == Retained(pages) && Retained(pages[|pages|..]) == []
  {
    assert pages[0..] == pages;
  }

  lemma FreshHead(f: Frame, size: nat)
    requires ValidSize(size) && |f.mem| == PAGE
    ensures FreshPage(f.virt, f.mem, size).freeHead == 0 && FreshPage(f.virt, f.mem, size).virt == f.virt
    ensures |FreshPage(f.virt, f.mem, size).mem| == PAGE
  {
  }
}
