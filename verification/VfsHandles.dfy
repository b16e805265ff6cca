/**
 * The kernel's descriptors: a table that sends a global descriptor to a mount index and the descriptor
 * of the file system there, kept while mounts come and go.
 */
module VfsHandles {
  import opened Arithmetic
  import opened Wrappers
  import opened Paths
  import V = VirtualFs
  import VR = VfsRuns
  import D = Descriptors
  import M = MemFs
  import R = Mounts
  import T = Tree

  datatype Entry = Entry(fd: nat, mount: nat, local: nat)

  datatype Table = Table(entries: seq<Entry>, next: nat)

  // `Vec::remove`.
  function RemoveAt<T>(s: seq<T>, i: nat): seq<T>
    requires i < |s|
  {
    s[..i] + s[i + 1..]
  }

  lemma RemovedAt<T>(s: seq<T>, i: nat)
    requires i < |s|
    ensures |RemoveAt(s, i)| == |s| - 1
    ensures forall j :: 0 <= j < |s| - 1 ==> RemoveAt(s, i)[j] == s[if j < i then j else j + 1]
  {
  }

  // ------------------------------------------------------------- the table

  function IndexOf(entries: seq<Entry>, fd: nat): (i: nat)
    ensures i <= |entries|
    ensures i < |entries| ==> entries[i].fd == fd
    ensures forall j :: 0 <= j < i ==> entries[j].fd != fd
  {
    if entries == [] || entries[0].fd == fd then 0 else 1 + IndexOf(entries[1..], fd)
  }

  predicate Used(entries: seq<Entry>, fd: nat) {
    IndexOf(entries, fd) < |entries|
  }

  // `wrapping_add(1)`.
  function After(fd: nat): (r: nat)
    requires fd < U32
    ensures r < U32
  {
    if fd + 1 == U32 then 0 else fd + 1
  }

  // `allocate_fd`: the first number not in use, from `at` on and around, within `left` tries.
  function FreeFrom(entries: seq<Entry>, at: nat, left: nat): (r: Option<nat>)
    requires at < U32
    ensures r.Some? ==> r.value < U32 && !Used(entries, r.value)
    decreases left
  {
    if left == 0 then None
    else if !Used(entries, at) then Some(at)
    else FreeFrom(entries, After(at), left - 1)
  }

  // The k-th number tried.
  function Tried(at: nat, k: nat): (r: nat)
    requires at < U32 && k <= U32
    ensures r < U32
  {
    if at + k < U32 then at + k else at + k - U32
  }

  /** No number is given only when all are in use; the one given is the first free one. */
  lemma {:induction false} FreeFromIsFirst(entries: seq<Entry>, at: nat, left: nat)
    requires at < U32 && left <= U32
    ensures match FreeFrom(entries, at, left)
      case None => forall k :: 0 <= k < left ==> Used(entries, Tried(at, k))
      case Some(fd) => exists k ::
        && 0 <= k < left && fd == Tried(at, k) && forall j :: 0 <= j < k ==> Used(entries, Tried(at, j))
    decreases left
  {
    hide Used;
    if left > 0 && Used(entries, at) {
      var next := After(at);
      FreeFromIsFirst(entries, next, left - 1);
      forall k | 0 < k <= left ensures Tried(at, k) == Tried(next, k - 1) {}
      assert Tried(at, 0) == at;
      match FreeFrom(entries, next, left - 1)
      case None =>
      case Some(fd) =>
        var k :| 0 <= k < left - 1 && fd == Tried(next, k) && forall j :: 0 <= j < k ==> Used(entries, Tried(next, j));
        assert fd == Tried(at, k + 1);
    } else if left > 0 {
      assert at == Tried(at, 0);
    }
  }

  ghost predicate AllUsed(entries: seq<Entry>) {
    forall fd: nat :: fd < U32 ==> Used(entries, fd)
  }

  lemma {:induction false} NoneIffAllUsed(entries: seq<Entry>, start: nat)
    requires start < U32
    ensures FreeFrom(entries, start, U32).None? <==> AllUsed(entries)
  {
    hide FreeFrom, Used, Tried;
    FreeFromIsFirst(entries, start, U32);
    if FreeFrom(entries, start, U32).None? {
      forall fd: nat | fd < U32 ensures Used(entries, fd) {
        TriedReaches(start, fd);
        assert Used(entries, Tried(start, Tries(start, fd)));
      }
    }
  }

  // How many tries after `start` a number comes up.
  function Tries(start: nat, fd: nat): (k: nat)
    requires start < U32 && fd < U32
    ensures k < U32
  {
    if start <= fd then fd - start else fd + U32 - start
  }

  lemma TriedReaches(start: nat, fd: nat)
    requires start < U32 && fd < U32
    ensures fd == Tried(start, Tries(start, fd))
  {
  }

  function Insert(t: Table, mount: nat, local: nat): (Table, Option<nat>)
    requires t.next < U32
  {
    match FreeFrom(t.entries, t.next, U32)
    case None => (t, None)
    case Some(fd) => (Table(t.entries + [Entry(fd, mount, local)], After(fd)), Some(fd))
  }

  function Find(t: Table, fd: nat): Option<Entry> {
    var i := IndexOf(t.entries, fd);
    if i < |t.entries| then Some(t.entries[i]) else None
  }

  function Take(t: Table, fd: nat): (Table, Option<Entry>) {
    var i := IndexOf(t.entries, fd);
    if i < |t.entries| then (t.(entries := RemoveAt(t.entries, i)), Some(t.entries[i])) else (t, None)
  }

  // `retain`, then one less for every index behind the mount that went.
  function Discard(entries: seq<Entry>, target: nat): (r: seq<Entry>)
    ensures |r| <= |entries|
  {
    if entries == [] then []
    else
      var e := entries[0];
      (if e.mount == target then [] else [if e.mount > target then e.(mount := e.mount - 1) else e])
      + Discard(entries[1..], target)
  }

  class HandleTable {
    var entries: seq<Entry>
    var nextFd: nat

    ghost function Value(): Table
      reads this
    {
      Table(entries, nextFd)
    }

    constructor ()
      ensures Value() == Table([], 0)
    {
      entries := [];
      nextFd := 0;
    }

    /** Gives the first free number after the last one given, and none only when all are in use. */
    method AllocateFd() returns (r: Option<nat>)
      requires nextFd < U32
      modifies this`nextFd
      ensures r == FreeFrom(entries, old(nextFd), U32)
      ensures nextFd == if r.Some? then After(r.value) else old(nextFd)
      ensures r.None? <==> AllUsed(entries)
    {
      NoneIffAllUsed(entries, nextFd);
      hide AllUsed, FreeFrom, Used;
      var start := nextFd;
      ghost var left := U32;
      while true
        invariant 0 < left <= U32
        invariant nextFd == Tried(start, U32 - left)
        invariant FreeFrom(entries, nextFd, left) == FreeFrom(entries, start, U32)
        decreases left
      {
        var candidate := nextFd;
        FreeFromUnfolds(entries, candidate, left);
        nextFd := After(nextFd);
        if !Used(entries, candidate) { return Some(candidate); }
        left := left - 1;
        if nextFd == start {
          assert left == 0;
          return None;
        }
      }
    }

    method InsertHandle(mount: nat, local: nat) returns (r: Option<nat>)
      requires nextFd < U32
      modifies this
      ensures (Value(), r) == Insert(old(Value()), mount, local)
    {
      hide FreeFrom, Used;
      r := AllocateFd();
      if r.Some? { entries := entries + [Entry(r.value, mount, local)]; }
    }

    method TakeHandle(fd: nat) returns (r: Option<Entry>)
      modifies this`entries
      ensures (Value(), r) == Take(old(Value()), fd)
    {
      var i := IndexOf(entries, fd);
      if i == |entries| { return None; }
      r := Some(entries[i]);
      entries := RemoveAt(entries, i);
    }

    /** The table's part of `unmount`: one pass drops the entries of the mount, a second renumbers the rest. */
    method DiscardMount(target: nat)
      modifies this`entries
      ensures entries == Discard(old(entries), target)
    {
      var kept := [];
      for i := 0 to |entries|
        invariant kept == Retained(entries[..i], target)
      {
        assert entries[..i + 1][..i] == entries[..i];
        if entries[i].mount != target { kept := kept + [entries[i]]; }
      }
      assert entries[..|entries|] == entries;
      var moved := [];
      for i := 0 to |kept|
        invariant moved == seq(i, k requires 0 <= k < i => Renumbered(kept[k], target))
      {
        moved := moved + [Renumbered(kept[i], target)];
      }
      DiscardIsBoth(entries, target);
      entries := moved;
    }
  }

  function Retained(entries: seq<Entry>, target: nat): seq<Entry> {
    if entries == [] then []
    else
      var n := |entries| - 1;
      Retained(entries[..n], target) + if entries[n].mount != target then [entries[n]] else []
  }

  function Renumbered(e: Entry, target: nat): Entry {
    if e.mount > target then e.(mount := e.mount - 1) else e
  }

  lemma {:induction false} DiscardAppend(a: seq<Entry>, b: seq<Entry>, target: nat)
    ensures Discard(a + b, target) == Discard(a, target) + Discard(b, target)
    decreases |a|
  {
    if a == [] {
      assert a + b == b;
    } else {
      assert (a + b)[1..] == a[1..] + b;
      DiscardAppend(a[1..], b, target);
    }
  }

  lemma {:induction false} DiscardIsBoth(entries: seq<Entry>, target: nat)
    ensures
      var kept := Retained(entries, target);
      Discard(entries, target) == seq(|kept|, k requires 0 <= k < |kept| => Renumbered(kept[k], target))
    decreases |entries|
  {
    if entries != [] {
      var n := |entries| - 1;
      DiscardIsBoth(entries[..n], target);
      assert entries == entries[..n] + [entries[n]];
      DiscardAppend(entries[..n], [entries[n]], target);
      assert Discard([entries[n]], target)
          == if entries[n].mount == target then [] else [Renumbered(entries[n], target)];
    }
  }

  lemma FreeFromUnfolds(entries: seq<Entry>, at: nat, left: nat)
    requires at < U32 && left > 0
    ensures FreeFrom(entries, at, left)
      == if !Used(entries, at) then Some(at) else FreeFrom(entries, After(at), left - 1)
    ensures FreeFrom(entries, at, 0) == None
  {
    hide Used;
  }

  // ------------------------------------------------------------- the context

  datatype Context = Context(vfs: V.World, table: Table)

  // Where a descriptor was opened: the file system, its descriptor there and the inode.
  datatype Origin = Origin(store: nat, local: nat, ino: nat)

  // The context and, for every global descriptor given out, where it was opened.
  datatype Traced = Traced(ctx: Context, origins: map<nat, Origin>)

  datatype Action =
    | DoMount(point: string, id: nat)
    | DoUnmount(path: string)
    | DoChange(path: string)
    | DoOpen(path: string, flags: nat)
    | DoCreate(path: string)
    | DoMkdir(path: string)
    | DoUnlink(path: string)
    | DoRead(fd: nat, n: nat)
    | DoWrite(fd: nat, bytes: seq<byte>)
    | DoSeek(fd: nat, pos: nat)
    | DoClose(fd: nat)

  function Mounts(c: Context): seq<R.Mount> {
    c.vfs.router.mounts
  }

  // `mount` refuses a point that is taken.
  function MountIn(c: Context, point: string, id: nat): Context {
    if R.IndexOfPoint(Mounts(c), Normalize(point)) < |Mounts(c)| then c
    else c.(vfs := VR.Step(c.vfs, VR.MountAt(point, id)))
  }

  // The index `unmount` takes away, when it takes one away.
  function Removes(c: Context, path: string): (r: Option<nat>)
    ensures r.Some? ==> r.value < |Mounts(c)|
  {
    var point := Normalize(R.ResolvePath(c.vfs.router.wd, path));
    var i := R.IndexOfPoint(Mounts(c), point);
    if i < |Mounts(c)| && point != "/" then Some(i) else None
  }

  function UnmountIn(c: Context, path: string): Context {
    match Removes(c, path)
    case None => c
    case Some(i) =>
      Context(
        VR.Step(c.vfs, VR.UnmountAt(R.ResolvePath(c.vfs.router.wd, path))),
        c.table.(entries := Discard(c.table.entries, i)))
  }

  // What the first half of `open` and `create` leaves to be registered.
  datatype Pending = Pending(mount: nat, at: Origin)

  // Opening behind the router: the path is there, or is made when `make` says so.
  function OpenFirst(w: V.World, path: string, flags: nat, make: bool): (V.World, Option<Pending>) {
    match R.FindFs(w.router.mounts, R.ResolvePath(w.router.wd, path))
    case None => (w, None)
    case Some((i, rest)) =>
      if i >= |w.router.mounts| || w.router.mounts[i].fs !in w.stores then (w, None)
      else
        var id := w.router.mounts[i].fs;
        var made := make && T.Lookup(w.stores[id].inodes, rest).None?;
        var w1 := if made then VR.OnStore(w, id, D.DoCreate(rest, T.File)) else w;
        if id !in w1.stores then (w1, None)
        else
          var d := D.Open(w1.stores[id], rest, flags).1;
          if d.None? then (w1, None)
          else
            (VR.OnStore(w1, id, D.DoOpen(rest, flags)), Some(Pending(i, Origin(id, d.value.fd, d.value.ino))))
  }

  // `close_at` and the like.
  function AtMount(w: V.World, mount: nat, call: D.Action): V.World {
    VR.Step(w, VR.AtMount(mount, call))
  }

  // `register_handle`: the second half.
  function Register(s: Traced, p: Pending): Traced
    requires s.ctx.table.next < U32
  {
    var (table, fd) := Insert(s.ctx.table, p.mount, p.at.local);
    match fd
    case None => s.(ctx := s.ctx.(vfs := AtMount(s.ctx.vfs, p.mount, D.DoClose(p.at.local))))
    case Some(n) => Traced(s.ctx.(table := table), s.origins[n := p.at])
  }

  function OpenIn(s: Traced, path: string, flags: nat, make: bool): Traced
    requires s.ctx.table.next < U32
  {
    var (w, p) := OpenFirst(s.ctx.vfs, path, flags, make);
    var s1 := s.(ctx := s.ctx.(vfs := w));
    if p.None? then s1 else Register(s1, p.value)
  }

  predicate Opens(a: Action) {
    a.DoOpen? || a.DoCreate?
  }

  predicate UsesFd(a: Action) {
    a.DoRead? || a.DoWrite? || a.DoSeek?
  }

  // `read`, `write`, `seek`: the call with the descriptor the table gives.
  function LocalCall(a: Action, local: nat): (r: D.Action)
    requires UsesFd(a)
    ensures !VR.ByPath(r) && !r.DoClose?
  {
    match a
    case DoRead(_, n) => D.DoRead(local, n)
    case DoWrite(_, bytes) => D.DoWrite(local, bytes)
    case DoSeek(_, pos) => D.DoSeek(local, pos)
  }

  function CallIn(c: Context, a: Action): Context
    requires UsesFd(a)
  {
    match Find(c.table, a.fd)
    case None => c
    case Some(e) => c.(vfs := AtMount(c.vfs, e.mount, LocalCall(a, e.local)))
  }

  function CloseIn(c: Context, fd: nat): Context {
    var (table, e) := Take(c.table, fd);
    if e.None? then c else Context(AtMount(c.vfs, e.value.mount, D.DoClose(e.value.local)), table)
  }

  function ByPathIn(c: Context, call: D.Action): Context {
    c.(vfs := VR.Step(c.vfs, VR.Routed(call)))
  }

  predicate Allowed(s: Traced, a: Action) {
    a.DoMount? ==> a.id !in s.ctx.vfs.stores
  }

  function Step(s: Traced, a: Action): Traced
    requires s.ctx.table.next < U32
  {
    var c := s.ctx;
    match a
    case DoMount(point, id) => s.(ctx := MountIn(c, point, id))
    case DoUnmount(path) => s.(ctx := UnmountIn(c, path))
    case DoChange(path) => s.(ctx := c.(vfs := VR.Step(c.vfs, VR.ChangeTo(path))))
    case DoOpen(path, flags) => OpenIn(s, path, flags, false)
    case DoCreate(path) => OpenIn(s, path, 0, true)
    case DoMkdir(path) => s.(ctx := ByPathIn(c, D.DoMkdir(path)))
    case DoUnlink(path) => s.(ctx := ByPathIn(c, D.DoUnlink(path)))
    case DoClose(fd) => s.(ctx := CloseIn(c, fd))
    case _ => s.(ctx := CallIn(c, a))
  }

  // ------------------------------------------------------------- what every step keeps

  // The entry leads to the file system and the descriptor its number was opened on.
  ghost predicate Reaches(s: Traced, e: Entry) {
    && e.mount < |Mounts(s.ctx)|
    && e.fd in s.origins
    && Mounts(s.ctx)[e.mount].fs == s.origins[e.fd].store
    && e.local == s.origins[e.fd].local
  }

  ghost predicate DistinctFds(entries: seq<Entry>) {
    forall i, j :: 0 <= i < j < |entries| ==> entries[i].fd != entries[j].fd
  }

  ghost predicate Inv(s: Traced) {
    && V.Inv(s.ctx.vfs)
    && s.ctx.table.next < U32
    && DistinctFds(s.ctx.table.entries)
    && forall i :: 0 <= i < |s.ctx.table.entries| ==> Reaches(s, s.ctx.table.entries[i])
  }

  lemma InvVfs(s: Traced)
    requires Inv(s)
    ensures V.Inv(s.ctx.vfs)
  {
  }

  lemma InvNext(s: Traced)
    requires Inv(s)
    ensures s.ctx.table.next < U32
  {
  }

  // A change behind the router.
  lemma BehindRouter(s: Traced, w: V.World)
    requires Inv(s) && V.Inv(w) && w.router.mounts == s.ctx.vfs.router.mounts
    ensures Inv(s.(ctx := s.ctx.(vfs := w)))
  {
    hide V.Inv;
    var after := s.(ctx := s.ctx.(vfs := w));
    forall i | 0 <= i < |after.ctx.table.entries| ensures Reaches(after, after.ctx.table.entries[i]) {
      assert Reaches(s, s.ctx.table.entries[i]);
    }
  }

  lemma RoutedStep(w: V.World, a: VR.Action)
    requires V.Inv(w) && VR.Allowed(w, a) && !a.MountAt? && !a.UnmountAt?
    ensures V.Inv(VR.Step(w, a)) && VR.Step(w, a).router.mounts == w.router.mounts
  {
    hide V.Inv, V.SpotOf, R.ResolvePath, VR.ListAnswer, R.FindFs, D.Step, VR.Redirected, R.DoMount, R.DoUnmount;
    VR.StepInv(w, a);
  }

  lemma MountKeeps(s: Traced, point: string, id: nat)
    requires Inv(s) && id !in s.ctx.vfs.stores
    ensures Inv(s.(ctx := MountIn(s.ctx, point, id)))
  {
    hide V.Inv, R.IndexOfPoint, Normalize, R.FindFs, VR.ListAnswer;
    var after := s.(ctx := MountIn(s.ctx, point, id));
    VR.StepInv(s.ctx.vfs, VR.MountAt(point, id));
    forall i | 0 <= i < |after.ctx.table.entries| ensures Reaches(after, after.ctx.table.entries[i]) {
      assert Reaches(s, s.ctx.table.entries[i]);
    }
  }

  // Points being distinct, taking one away takes away one index.
  lemma {:induction false} ExceptIsRemoval(mounts: seq<R.Mount>, i: nat)
    requires R.DistinctPoints(mounts) && i < |mounts|
    ensures R.Except(mounts, mounts[i].point) == RemoveAt(mounts, i)
    decreases i
  {
    hide RemoveAt;
    RemovalBehind(mounts, i);
    if i == 0 {
      NothingExcepted(mounts[1..], mounts[0].point);
    } else {
      ExceptIsRemoval(mounts[1..], i - 1);
    }
  }

  lemma RemovalBehind(mounts: seq<R.Mount>, i: nat)
    requires i < |mounts|
    ensures RemoveAt(mounts, i) == if i == 0 then mounts[1..] else [mounts[0]] + RemoveAt(mounts[1..], i - 1)
  {
  }

  lemma {:induction false} NothingExcepted(mounts: seq<R.Mount>, point: string)
    requires forall i :: 0 <= i < |mounts| ==> mounts[i].point != point
    ensures R.Except(mounts, point) == mounts
    decreases |mounts|
  {
    if mounts != [] { NothingExcepted(mounts[1..], point); }
  }

  // What is left of the mounts when `unmount` takes index i away.
  lemma UnmountedAt(c: Context, path: string)
    requires V.Inv(c.vfs)
    ensures V.Inv(UnmountIn(c, path).vfs) && UnmountIn(c, path).vfs.stores == c.vfs.stores
    ensures match Removes(c, path)
      case None => UnmountIn(c, path) == c
      case Some(i) => Mounts(UnmountIn(c, path)) == RemoveAt(Mounts(c), i)
  {
    hide R.IndexOfPoint, Normalize, R.ResolvePath, R.Except, R.Inv, D.Inv, Discard, RemoveAt;
    if Removes(c, path).Some? {
      var at := R.ResolvePath(c.vfs.router.wd, path);
      VR.StepInv(c.vfs, VR.UnmountAt(at));
      VR.DistinctOf(c.vfs.router);
      ExceptIsRemoval(Mounts(c), Removes(c, path).value);
    }
  }

  lemma {:induction false} DiscardMembers(entries: seq<Entry>, target: nat, e: Entry)
    requires e in Discard(entries, target)
    ensures exists d :: d in entries && d.mount != target && e == Renumbered(d, target)
    decreases |entries|
  {
    var d := entries[0];
    if d.mount != target && e == Renumbered(d, target) {
      assert d in entries;
    } else {
      DiscardMembers(entries[1..], target, e);
    }
  }

  lemma {:induction false} DiscardDistinct(entries: seq<Entry>, target: nat)
    requires DistinctFds(entries)
    ensures DistinctFds(Discard(entries, target))
    decreases |entries|
  {
    if entries != [] {
      DiscardDistinct(entries[1..], target);
      var rest := Discard(entries[1..], target);
      forall i | 0 <= i < |rest| ensures rest[i].fd != entries[0].fd {
        DiscardMembers(entries[1..], target, rest[i]);
      }
    }
  }

  lemma UnmountKeeps(s: Traced, path: string)
    requires Inv(s)
    ensures Inv(s.(ctx := UnmountIn(s.ctx, path)))
  {
    hide V.Inv, Removes, Discard, VR.Step, DistinctFds, RemoveAt;
    UnmountedAt(s.ctx, path);
    var r := Removes(s.ctx, path);
    if r.Some? {
      RemovedAt(Mounts(s.ctx), r.value);
      var entries := s.ctx.table.entries;
      var after := s.(ctx := UnmountIn(s.ctx, path));
      DiscardDistinct(entries, r.value);
      forall i | 0 <= i < |after.ctx.table.entries| ensures Reaches(after, after.ctx.table.entries[i]) {
        DiscardMembers(entries, r.value, after.ctx.table.entries[i]);
        var d :| d in entries && d.mount != r.value && after.ctx.table.entries[i] == Renumbered(d, r.value);
        assert Reaches(s, d);
      }
    }
  }

  lemma OpenFirstInv(w: V.World, path: string, flags: nat, make: bool)
    requires V.Inv(w)
    ensures
      var (after, p) := OpenFirst(w, path, flags, make);
      && V.Inv(after) && after.router == w.router
      && (p.Some? ==> p.value.mount < |w.router.mounts| && w.router.mounts[p.value.mount].fs == p.value.at.store)
  {
    hide R.FindFs, R.ResolvePath, T.Lookup, D.Inv, D.Step, D.Open, R.Inv;
    match R.FindFs(w.router.mounts, R.ResolvePath(w.router.wd, path))
    case None =>
    case Some((i, rest)) =>
      if i < |w.router.mounts| && w.router.mounts[i].fs in w.stores {
        var id := w.router.mounts[i].fs;
        VR.OnStoreInv(w, id, D.DoCreate(rest, T.File));
        VR.OnStoreInv(w, id, D.DoOpen(rest, flags));
        VR.OnStoreInv(VR.OnStore(w, id, D.DoCreate(rest, T.File)), id, D.DoOpen(rest, flags));
      }
  }

  lemma InsertKeeps(s: Traced, p: Pending)
    requires Inv(s) && p.mount < |Mounts(s.ctx)| && Mounts(s.ctx)[p.mount].fs == p.at.store
    ensures Inv(Register(s, p))
  {
    hide V.Inv, VR.Step, FreeFrom;
    var (table, fd) := Insert(s.ctx.table, p.mount, p.at.local);
    if fd.None? {
      RoutedStep(s.ctx.vfs, VR.AtMount(p.mount, D.DoClose(p.at.local)));
      BehindRouter(s, AtMount(s.ctx.vfs, p.mount, D.DoClose(p.at.local)));
    } else {
      var after := Register(s, p);
      var entries := s.ctx.table.entries;
      assert forall i :: 0 <= i < |entries| ==> entries[i].fd != fd.value by { NotUsed(entries, fd.value); }
      forall i | 0 <= i < |after.ctx.table.entries| ensures Reaches(after, after.ctx.table.entries[i]) {
        if i < |entries| { assert Reaches(s, entries[i]); }
      }
    }
  }

  lemma NotUsed(entries: seq<Entry>, fd: nat)
    requires !Used(entries, fd)
    ensures forall i :: 0 <= i < |entries| ==> entries[i].fd != fd
  {
  }

  lemma OpenKeeps(s: Traced, path: string, flags: nat, make: bool)
    requires Inv(s)
    ensures Inv(OpenIn(s, path, flags, make))
  {
    hide V.Inv, OpenFirst, Register, Reaches, DistinctFds;
    OpenFirstInv(s.ctx.vfs, path, flags, make);
    var (w, p) := OpenFirst(s.ctx.vfs, path, flags, make);
    BehindRouter(s, w);
    if p.Some? { InsertKeeps(s.(ctx := s.ctx.(vfs := w)), p.value); }
  }

  lemma CallKeeps(s: Traced, a: Action)
    requires Inv(s) && UsesFd(a)
    ensures Inv(s.(ctx := CallIn(s.ctx, a)))
  {
    hide V.Inv, Reaches, DistinctFds, VR.Step, IndexOf, LocalCall;
    var e := Find(s.ctx.table, a.fd);
    if e.Some? {
      RoutedStep(s.ctx.vfs, VR.AtMount(e.value.mount, LocalCall(a, e.value.local)));
      BehindRouter(s, AtMount(s.ctx.vfs, e.value.mount, LocalCall(a, e.value.local)));
    }
  }

  lemma CloseKeeps(s: Traced, fd: nat)
    requires Inv(s)
    ensures Inv(s.(ctx := CloseIn(s.ctx, fd)))
  {
    hide V.Inv, VR.Step, IndexOf, RemoveAt;
    var (table, e) := Take(s.ctx.table, fd);
    if e.Some? {
      RoutedStep(s.ctx.vfs, VR.AtMount(e.value.mount, D.DoClose(e.value.local)));
      RemovedAt(s.ctx.table.entries, IndexOf(s.ctx.table.entries, fd));
      var after := s.(ctx := CloseIn(s.ctx, fd));
      forall i | 0 <= i < |table.entries| ensures Reaches(after, table.entries[i]) {
        var k := if i < IndexOf(s.ctx.table.entries, fd) then i else i + 1;
        assert Reaches(s, s.ctx.table.entries[k]);
      }
    }
  }

  lemma ByPathKeeps(s: Traced, call: D.Action)
    requires Inv(s) && VR.ByPath(call)
    ensures Inv(s.(ctx := ByPathIn(s.ctx, call)))
  {
    hide V.Inv, Reaches, DistinctFds, VR.Step;
    RoutedStep(s.ctx.vfs, VR.Routed(call));
    BehindRouter(s, VR.Step(s.ctx.vfs, VR.Routed(call)));
  }

  lemma ChangeKeeps(s: Traced, path: string)
    requires Inv(s)
    ensures Inv(s.(ctx := s.ctx.(vfs := VR.Step(s.ctx.vfs, VR.ChangeTo(path)))))
  {
    hide V.Inv, Reaches, DistinctFds, VR.Step;
    RoutedStep(s.ctx.vfs, VR.ChangeTo(path));
    BehindRouter(s, VR.Step(s.ctx.vfs, VR.ChangeTo(path)));
  }

  lemma QuietInv(s: Traced, a: Action)
    requires Inv(s) && !a.DoMount? && !a.DoUnmount? && !Opens(a)
    ensures s.ctx.table.next < U32 && Inv(Step(s, a))
  {
    InvNext(s);
    hide Inv, CloseIn, CallIn, ByPathIn, VR.Step, Opens, UsesFd;
    match a
    case DoChange(path) => ChangeKeeps(s, path);
    case DoMkdir(path) => ByPathKeeps(s, D.DoMkdir(path));
    case DoUnlink(path) => ByPathKeeps(s, D.DoUnlink(path));
    case DoClose(fd) => CloseKeeps(s, fd);
    case _ => CallKeeps(s, a);
  }

  lemma StepInv(s: Traced, a: Action)
    requires Inv(s) && Allowed(s, a)
    ensures Inv(Step(s, a))
  {
    InvNext(s);
    hide Inv, MountIn, UnmountIn, OpenIn, CloseIn, CallIn, ByPathIn, VR.Step;
    match a
    case DoMount(point, id) => MountKeeps(s, point, id);
    case DoUnmount(path) => UnmountKeeps(s, path);
    case DoOpen(path, flags) => OpenKeeps(s, path, flags, false);
    case DoCreate(path) => OpenKeeps(s, path, 0, true);
    case _ => QuietInv(s, a);
  }

  // ------------------------------------------------------------- runs

  ghost predicate IsRun(s: Traced, actions: seq<Action>)
    requires Inv(s)
    decreases |actions|
  {
    actions == [] || (Allowed(s, actions[0]) && (StepInv(s, actions[0]); IsRun(Step(s, actions[0]), actions[1..])))
  }

  ghost function Run(s: Traced, actions: seq<Action>): (r: Traced)
    requires Inv(s) && IsRun(s, actions)
    ensures Inv(r)
    decreases |actions|
  {
    if actions == [] then s
    else
      StepInv(s, actions[0]);
      Run(Step(s, actions[0]), actions[1..])
  }

  function Start(): (s: Traced)
    ensures Inv(s)
  {
    V.BootInv();
    Traced(Context(V.Boot(), Table([], 0)), map[])
  }

  /**
   * Over every run of opens, closes, mounts and unmounts: a descriptor in the table is there once, and
   * its mount index leads to the very file system it was opened on, however the indices moved.
   */
  lemma {:induction false} HandlesOverEveryRun(actions: seq<Action>, fd: nat)
    requires IsRun(Start(), actions)
    ensures
      var s := Run(Start(), actions);
      match Find(s.ctx.table, fd)
      case None => true
      case Some(e) =>
        && e.mount < |Mounts(s.ctx)| && fd in s.origins
        && Mounts(s.ctx)[e.mount].fs == s.origins[fd].store && e.local == s.origins[fd].local
        && forall i :: 0 <= i < |s.ctx.table.entries| && s.ctx.table.entries[i].fd == fd ==>
             s.ctx.table.entries[i] == e
  {
    hide IsRun, Run, Start, V.Inv;
    var s := Run(Start(), actions);
    var i := IndexOf(s.ctx.table.entries, fd);
    if i < |s.ctx.table.entries| { assert Reaches(s, s.ctx.table.entries[i]); }
  }

  // ------------------------------------------------------------- the inode behind a descriptor

  // Every file system has given out at most k descriptors, in order.
  ghost predicate Bounded(w: V.World, k: nat) {
    forall id :: id in w.stores ==>
      w.stores[id].nextFd <= k && forall fd :: fd in w.stores[id].fds ==> fd < w.stores[id].nextFd
  }

  // The descriptor is open and names the inode.
  ghost predicate Holds(w: V.World, o: Origin) {
    && o.store in w.stores
    && o.local in w.stores[o.store].fds
    && w.stores[o.store].fds[o.local].ino == o.ino
  }

  ghost predicate SameSpot(o: Origin, p: Origin) {
    o.store == p.store && o.local == p.local
  }

  ghost function Fds(entries: seq<Entry>): set<nat> {
    set e | e in entries :: e.fd
  }

  ghost predicate NamedFds(w: V.World, origins: map<nat, Origin>, fds: set<nat>) {
    && (forall fd :: fd in fds ==> fd in origins && Holds(w, origins[fd]))
    && (forall fd, other :: fd in fds && other in fds && fd != other && fd in origins && other in origins ==>
        !SameSpot(origins[fd], origins[other]))
  }

  ghost predicate Named(s: Traced, k: nat) {
    Bounded(s.ctx.vfs, k) && NamedFds(s.ctx.vfs, s.origins, Fds(s.ctx.table.entries))
  }

  // A call that opens nothing disturbs no descriptor but the one it closes.
  lemma QuietCall(w: V.World, id: nat, call: D.Action, k: nat)
    requires Bounded(w, k) && !call.DoOpen?
    ensures
      var after := VR.OnStore(w, id, call);
      && Bounded(after, k)
      && forall o :: Holds(w, o) && !(call.DoClose? && id == o.store && call.fd == o.local) ==> Holds(after, o)
  {
    hide D.Step;
    if id in w.stores {
      QuietStep(w.stores[id], call);
      var after := VR.OnStore(w, id, call);
      forall o | Holds(w, o) && !(call.DoClose? && id == o.store && call.fd == o.local) ensures Holds(after, o) {
        if o.store == id { D.StepKeepsDescriptor(w.stores[id], call, o.local); }
      }
    }
  }

  lemma QuietStep(fs: M.Fs, call: D.Action)
    requires !call.DoOpen?
    ensures D.Step(fs, call).nextFd == fs.nextFd && D.Step(fs, call).fds.Keys <= fs.fds.Keys
  {
    hide T.Lookup, M.LookupParent, T.LookupChild, M.Insert, M.Remove, D.WriteAt, D.ReadAt;
  }

  lemma StaysNamed(s: Traced, w: V.World, entries: seq<Entry>, k: nat)
    requires Named(s, k) && Bounded(w, k) && Fds(entries) <= Fds(s.ctx.table.entries)
    requires forall fd :: fd in Fds(entries) && fd in s.origins && Holds(s.ctx.vfs, s.origins[fd]) ==>
      Holds(w, s.origins[fd])
    ensures Named(s.(ctx := Context(w, s.ctx.table.(entries := entries))), k)
  {
    hide Holds, SameSpot, Fds, Bounded;
  }

  lemma BehindNamed(s: Traced, a: VR.Action, k: nat)
    requires Named(s, k)
    requires match a
      case ChangeTo(_) => true
      case Routed(call) => VR.ByPath(call) && !call.DoOpen?
      case AtMount(_, call) => !VR.ByPath(call) && !call.DoClose?
      case _ => false
    ensures Named(s.(ctx := s.ctx.(vfs := VR.Step(s.ctx.vfs, a))), k)
  {
    hide Holds, SameSpot, Fds, Bounded, VR.OnStore, V.SpotOf, R.ResolvePath, R.DoChangeDirectory, VR.ListAnswer;
    var w := s.ctx.vfs;
    match a
    case ChangeTo(path) => SameStores(w, VR.Step(w, a), k);
    case Routed(call) =>
      var spot := V.SpotOf(w, R.ResolvePath(w.router.wd, call.path));
      if spot.Some? { QuietCall(w, spot.value.0, VR.Redirected(call, spot.value.1), k); }
    case AtMount(i, call) =>
      if i < |w.router.mounts| { QuietCall(w, w.router.mounts[i].fs, call, k); }
    StaysNamed(s, VR.Step(w, a), s.ctx.table.entries, k);
  }

  lemma SameStores(w: V.World, after: V.World, k: nat)
    requires Bounded(w, k) && after.stores == w.stores
    ensures Bounded(after, k) && forall o :: Holds(w, o) <==> Holds(after, o)
  {
  }

  lemma MountNamed(s: Traced, point: string, id: nat, k: nat)
    requires Named(s, k) && id !in s.ctx.vfs.stores
    ensures Named(s.(ctx := MountIn(s.ctx, point, id)), k)
  {
    hide SameSpot, Fds, R.IndexOfPoint, Normalize, R.DoMount, VR.ListAnswer;
    var after := MountIn(s.ctx, point, id);
    StaysNamed(s, after.vfs, after.table.entries, k);
  }

  lemma UnmountNamed(s: Traced, path: string, k: nat)
    requires Inv(s) && Named(s, k)
    ensures Named(s.(ctx := UnmountIn(s.ctx, path)), k)
  {
    hide Holds, SameSpot, Bounded, Removes, Discard, VR.Step, Inv, NamedFds, RemoveAt;
    assert V.Inv(s.ctx.vfs) by { InvVfs(s); }
    UnmountedAt(s.ctx, path);
    var after := UnmountIn(s.ctx, path);
    SameStores(s.ctx.vfs, after.vfs, k);
    forall fd | fd in Fds(after.table.entries) ensures fd in Fds(s.ctx.table.entries) {
      var e :| e in after.table.entries && e.fd == fd;
      var r := Removes(s.ctx, path);
      if r.Some? {
        DiscardMembers(s.ctx.table.entries, r.value, e);
        var d :| d in s.ctx.table.entries && d.mount != r.value && e == Renumbered(d, r.value);
      }
    }
    StaysNamed(s, after.vfs, after.table.entries, k);
  }

  lemma FindReaches(s: Traced, fd: nat)
    requires Inv(s)
    ensures match Find(s.ctx.table, fd)
      case None => true
      case Some(e) => e.fd == fd && Reaches(s, e) && fd in Fds(s.ctx.table.entries)
  {
    hide V.Inv;
    var i := IndexOf(s.ctx.table.entries, fd);
    if i < |s.ctx.table.entries| { assert s.ctx.table.entries[i] in s.ctx.table.entries; }
  }

  lemma TakeFds(t: Table, fd: nat)
    requires DistinctFds(t.entries) && Take(t, fd).1.Some?
    ensures fd in Fds(t.entries) && Fds(Take(t, fd).0.entries) == Fds(t.entries) - {fd}
  {
    hide IndexOf, RemoveAt;
    var entries, left := t.entries, Take(t, fd).0.entries;
    var i := IndexOf(entries, fd);
    RemovedAt(entries, i);
    assert entries[i] in entries;
    forall j | 0 <= j < |entries| && j != i ensures entries[j] in left {
      assert entries[j] == left[if j < i then j else j - 1];
    }
    forall j | 0 <= j < |left| ensures left[j].fd != fd && left[j] in entries {
      assert left[j] == entries[if j < i then j else j + 1];
    }
  }

  lemma AtMountIs(w: V.World, mount: nat, call: D.Action)
    requires mount < |w.router.mounts|
    ensures AtMount(w, mount, call) == VR.OnStore(w, w.router.mounts[mount].fs, call)
  {
    hide VR.OnStore;
  }

  lemma CloseNamed(s: Traced, fd: nat, k: nat)
    requires Inv(s) && Named(s, k)
    ensures Named(s.(ctx := CloseIn(s.ctx, fd)), k)
  {
    assert DistinctFds(s.ctx.table.entries);
    hide Inv, VR.OnStore, VR.Step, Bounded, Holds, IndexOf, Fds, DistinctFds;
    var (table, e) := Take(s.ctx.table, fd);
    if e.Some? {
      FindReaches(s, fd);
      TakeFds(s.ctx.table, fd);
      AtMountIs(s.ctx.vfs, e.value.mount, D.DoClose(e.value.local));
      QuietCall(s.ctx.vfs, s.origins[fd].store, D.DoClose(e.value.local), k);
      StaysNamed(s, CloseIn(s.ctx, fd).vfs, table.entries, k);
    }
  }

  // Opening behind the router: nobody held the descriptor it gives.
  lemma OpenFirstNamed(w: V.World, path: string, flags: nat, make: bool, k: nat)
    requires Bounded(w, k) && k + 1 < U32
    ensures
      var (after, p) := OpenFirst(w, path, flags, make);
      && Bounded(after, k + 1)
      && (forall o :: Holds(w, o) ==> Holds(after, o))
      && (p.Some? ==> Holds(after, p.value.at) && forall o :: Holds(w, o) ==> !SameSpot(o, p.value.at))
  {
    hide R.FindFs, R.ResolvePath, T.Lookup, D.Open, VR.OnStore, Bounded, Holds, SameSpot;
    BoundedMore(w, k);
    match R.FindFs(w.router.mounts, R.ResolvePath(w.router.wd, path))
    case None =>
    case Some((i, rest)) =>
      if i < |w.router.mounts| && w.router.mounts[i].fs in w.stores {
        var id := w.router.mounts[i].fs;
        var made := make && T.Lookup(w.stores[id].inodes, rest).None?;
        var w1 := if made then VR.OnStore(w, id, D.DoCreate(rest, T.File)) else w;
        QuietCall(w, id, D.DoCreate(rest, T.File), k);
        BoundedMore(w1, k);
        if id in w1.stores && D.Open(w1.stores[id], rest, flags).1.Some? { OpenCall(w1, id, rest, flags, k); }
      }
  }

  lemma BoundedMore(w: V.World, k: nat)
    requires Bounded(w, k)
    ensures Bounded(w, k + 1)
  {
  }

  lemma OpenCall(w: V.World, id: nat, rest: string, flags: nat, k: nat)
    requires Bounded(w, k) && k + 1 < U32 && id in w.stores && D.Open(w.stores[id], rest, flags).1.Some?
    ensures
      var d := D.Open(w.stores[id], rest, flags).1.value;
      var after := VR.OnStore(w, id, D.DoOpen(rest, flags));
      && Bounded(after, k + 1)
      && (forall o :: Holds(w, o) ==> Holds(after, o) && !SameSpot(o, Origin(id, d.fd, d.ino)))
      && Holds(after, Origin(id, d.fd, d.ino))
  {
    hide T.Lookup;
  }

  lemma RegisterNamed(s: Traced, p: Pending, k: nat)
    requires Inv(s) && Named(s, k) && Holds(s.ctx.vfs, p.at)
    requires p.mount < |Mounts(s.ctx)| && Mounts(s.ctx)[p.mount].fs == p.at.store
    requires forall fd :: fd in Fds(s.ctx.table.entries) && fd in s.origins ==> !SameSpot(s.origins[fd], p.at)
    ensures Named(Register(s, p), k)
  {
    hide V.Inv, VR.OnStore, Bounded, Holds, FreeFrom, Used;
    var (table, fd) := Insert(s.ctx.table, p.mount, p.at.local);
    var entries := s.ctx.table.entries;
    if fd.None? {
      QuietCall(s.ctx.vfs, p.at.store, D.DoClose(p.at.local), k);
      StaysNamed(s, AtMount(s.ctx.vfs, p.mount, D.DoClose(p.at.local)), entries, k);
    } else {
      NotUsed(entries, fd.value);
      var after := Register(s, p);
      forall other | other in Fds(after.ctx.table.entries) ensures other == fd.value || other in Fds(entries) {}
      assert fd.value !in Fds(entries);
    }
  }

  lemma OpenNamed(s: Traced, path: string, flags: nat, make: bool, k: nat)
    requires Inv(s) && Named(s, k) && k + 1 < U32
    ensures Named(OpenIn(s, path, flags, make), k + 1)
  {
    hide V.Inv, Bounded, Holds, SameSpot, Fds, OpenFirst, Register, DistinctFds, Reaches;
    var (w, p) := OpenFirst(s.ctx.vfs, path, flags, make);
    OpenFirstInv(s.ctx.vfs, path, flags, make);
    OpenFirstNamed(s.ctx.vfs, path, flags, make, k);
    BoundedMore(s.ctx.vfs, k);
    BehindRouter(s, w);
    StaysNamed(s, w, s.ctx.table.entries, k + 1);
    if p.Some? { RegisterNamed(s.(ctx := s.ctx.(vfs := w)), p.value, k + 1); }
  }

  lemma QuietNamed(s: Traced, a: Action, k: nat)
    requires Inv(s) && Named(s, k) && !Opens(a) && !a.DoMount? && !a.DoUnmount?
    ensures Named(Step(s, a), k)
  {
    InvNext(s);
    hide Inv, Named, CloseIn, CallIn, VR.Step, Opens;
    match a
    case DoChange(path) => BehindNamed(s, VR.ChangeTo(path), k);
    case DoMkdir(path) => BehindNamed(s, VR.Routed(D.DoMkdir(path)), k);
    case DoUnlink(path) => BehindNamed(s, VR.Routed(D.DoUnlink(path)), k);
    case DoClose(fd) => CloseNamed(s, fd, k);
    case _ => CallNamed(s, a, k);
  }

  lemma StepNamed(s: Traced, a: Action, k: nat)
    requires Inv(s) && Allowed(s, a) && Named(s, k) && (Opens(a) ==> k + 1 < U32)
    ensures Named(Step(s, a), if Opens(a) then k + 1 else k)
  {
    InvNext(s);
    hide Inv, Named, MountIn, UnmountIn, OpenIn, CloseIn, CallIn, ByPathIn, VR.Step;
    match a
    case DoMount(point, id) => MountNamed(s, point, id, k);
    case DoUnmount(path) => UnmountNamed(s, path, k);
    case DoOpen(path, flags) => OpenNamed(s, path, flags, false, k);
    case DoCreate(path) => OpenNamed(s, path, 0, true, k);
    case _ => QuietNamed(s, a, k);
  }

  lemma CallNamed(s: Traced, a: Action, k: nat)
    requires Named(s, k) && UsesFd(a)
    ensures Named(s.(ctx := CallIn(s.ctx, a)), k)
  {
    hide Named, VR.Step, LocalCall, IndexOf;
    var e := Find(s.ctx.table, a.fd);
    if e.Some? { BehindNamed(s, VR.AtMount(e.value.mount, LocalCall(a, e.value.local)), k); }
  }

  function OpenCount(actions: seq<Action>): nat {
    if actions == [] then 0 else (if Opens(actions[0]) then 1 else 0) + OpenCount(actions[1..])
  }

  lemma {:induction false} RunNamed(s: Traced, actions: seq<Action>, k: nat)
    requires Inv(s) && IsRun(s, actions) && Named(s, k) && k + OpenCount(actions) < U32
    ensures Named(Run(s, actions), k + OpenCount(actions))
    decreases |actions|
  {
    hide Inv, Named, Step, Allowed;
    if actions != [] {
      InvNext(s);
      StepInv(s, actions[0]);
      StepNamed(s, actions[0], k);
      RunNamed(Step(s, actions[0]), actions[1..], if Opens(actions[0]) then k + 1 else k);
    }
  }

  /**
   * In every run with fewer than 2^32 opens, an open global descriptor leads to an open descriptor of
   * the file system it was opened on that names the inode it was opened on, and no two global
   * descriptors share one.
   */
  lemma {:induction false} InodeOverEveryRun(actions: seq<Action>, fd: nat, other: nat)
    requires IsRun(Start(), actions) && OpenCount(actions) < U32
    ensures
      var s := Run(Start(), actions);
      match Find(s.ctx.table, fd)
      case None => true
      case Some(e) =>
        && fd in s.origins && e.mount < |Mounts(s.ctx)|
        && var id := Mounts(s.ctx)[e.mount].fs;
        && id in s.ctx.vfs.stores
        && e.local in s.ctx.vfs.stores[id].fds && s.ctx.vfs.stores[id].fds[e.local].ino == s.origins[fd].ino
        && match Find(s.ctx.table, other)
           case None => true
           case Some(d) => other == fd || d.mount != e.mount || d.local != e.local
  {
    hide IsRun, Run, V.Inv, IndexOf, OpenCount, V.Boot, DistinctFds;
    StartNamed();
    RunNamed(Start(), actions, 0);
    var s := Run(Start(), actions);
    FindReaches(s, fd);
    FindReaches(s, other);
  }

  lemma StartNamed()
    ensures Named(Start(), 0)
  {
  }

  // ------------------------------------------------------------- between the two halves of an open

  // The mount index the first half found still belongs to the file system the file was opened on.
  ghost predicate Lands(c: Context, p: Pending) {
    p.mount < |Mounts(c)| && Mounts(c)[p.mount].fs == p.at.store
  }

  ghost predicate Takes(c: Context, a: Action, i: nat) {
    a.DoUnmount? && Removes(c, a.path).Some? && Removes(c, a.path).value <= i
  }

  // Of the steps between, none unmounts that mount or one before it.
  ghost predicate Undisturbed(s: Traced, actions: seq<Action>, i: nat)
    requires Inv(s) && IsRun(s, actions)
    decreases |actions|
  {
    || actions == []
    || (!Takes(s.ctx, actions[0], i)
        && (StepInv(s, actions[0]); Undisturbed(Step(s, actions[0]), actions[1..], i)))
  }

  // A step adds a mount behind the others, takes one away or leaves them; no file system number returns.
  ghost predicate MovesMounts(c: Context, d: Context, a: Action) {
    && c.vfs.stores.Keys <= d.vfs.stores.Keys
    && match a
       case DoMount(_, id) =>
         Mounts(d) == Mounts(c) || exists m :: Mounts(d) == Mounts(c) + [m] && m.fs !in c.vfs.stores
       case DoUnmount(path) =>
         (match Removes(c, path)
          case None => Mounts(d) == Mounts(c)
          case Some(i) => Mounts(d) == RemoveAt(Mounts(c), i))
       case _ => Mounts(d) == Mounts(c)
  }

  lemma KeepsStores(w: V.World, a: VR.Action)
    ensures w.stores.Keys <= VR.Step(w, a).stores.Keys
  {
    hide V.SpotOf, R.ResolvePath, VR.ListAnswer, R.DoMount, D.Step, R.DoUnmount, R.DoChangeDirectory;
  }

  lemma MountMoves(c: Context, point: string, id: nat)
    requires V.Inv(c.vfs) && id !in c.vfs.stores
    ensures MovesMounts(c, MountIn(c, point, id), DoMount(point, id))
  {
    hide V.Inv, R.IndexOfPoint, Normalize, R.FindFs, VR.ListAnswer;
    var d := MountIn(c, point, id);
    assert Mounts(d) == Mounts(c) || Mounts(d) == Mounts(c) + [R.Mount(Normalize(point), id)];
  }

  ghost predicate Still(c: Context, d: Context) {
    Mounts(d) == Mounts(c) && c.vfs.stores.Keys <= d.vfs.stores.Keys
  }

  lemma OpenMoves(s: Traced, path: string, flags: nat, make: bool)
    requires Inv(s)
    ensures Still(s.ctx, OpenIn(s, path, flags, make).ctx)
  {
    hide V.Inv, DistinctFds, Reaches, VR.Step, FreeFrom, OpenFirst;
    OpenFirstInv(s.ctx.vfs, path, flags, make);
    OpenFirstStores(s.ctx.vfs, path, flags, make);
    var (w, p) := OpenFirst(s.ctx.vfs, path, flags, make);
    if p.Some? {
      RoutedStep(w, VR.AtMount(p.value.mount, D.DoClose(p.value.at.local)));
      KeepsStores(w, VR.AtMount(p.value.mount, D.DoClose(p.value.at.local)));
    }
  }

  lemma OpenFirstStores(w: V.World, path: string, flags: nat, make: bool)
    ensures w.stores.Keys <= OpenFirst(w, path, flags, make).0.stores.Keys
  {
    hide R.FindFs, R.ResolvePath, T.Lookup, D.Open, D.Step;
  }

  lemma BehindMoves(c: Context, table: Table, a: VR.Action)
    requires V.Inv(c.vfs) && VR.Allowed(c.vfs, a) && !a.MountAt? && !a.UnmountAt?
    ensures Still(c, Context(VR.Step(c.vfs, a), table))
  {
    hide V.Inv, VR.Step;
    RoutedStep(c.vfs, a);
    KeepsStores(c.vfs, a);
  }

  lemma CloseMoves(c: Context, fd: nat)
    requires V.Inv(c.vfs)
    ensures Still(c, CloseIn(c, fd))
  {
    hide V.Inv, VR.Step, IndexOf;
    var (table, e) := Take(c.table, fd);
    if e.Some? { BehindMoves(c, table, VR.AtMount(e.value.mount, D.DoClose(e.value.local))); }
  }

  lemma CallMoves(c: Context, a: Action)
    requires V.Inv(c.vfs) && UsesFd(a)
    ensures Still(c, CallIn(c, a))
  {
    hide V.Inv, VR.Step, IndexOf, LocalCall;
    var e := Find(c.table, a.fd);
    if e.Some? { BehindMoves(c, c.table, VR.AtMount(e.value.mount, LocalCall(a, e.value.local))); }
  }

  lemma StepStill(s: Traced, a: Action)
    requires Inv(s) && !a.DoMount? && !a.DoUnmount?
    ensures Still(s.ctx, Step(s, a).ctx)
  {
    InvNext(s);
    InvVfs(s);
    hide Inv, V.Inv, OpenIn, CloseIn, CallIn, VR.Step, Still;
    match a
    case DoChange(path) => BehindMoves(s.ctx, s.ctx.table, VR.ChangeTo(path));
    case DoOpen(path, flags) => OpenMoves(s, path, flags, false);
    case DoCreate(path) => OpenMoves(s, path, 0, true);
    case DoMkdir(path) => BehindMoves(s.ctx, s.ctx.table, VR.Routed(D.DoMkdir(path)));
    case DoUnlink(path) => BehindMoves(s.ctx, s.ctx.table, VR.Routed(D.DoUnlink(path)));
    case DoClose(fd) => CloseMoves(s.ctx, fd);
    case _ => CallMoves(s.ctx, a);
  }

  lemma StepMoves(s: Traced, a: Action)
    requires Inv(s) && Allowed(s, a)
    ensures MovesMounts(s.ctx, Step(s, a).ctx, a)
  {
    InvNext(s);
    InvVfs(s);
    hide Inv, V.Inv, MountIn, UnmountIn, OpenIn, CloseIn, CallIn, ByPathIn, VR.Step, Removes, RemoveAt;
    match a
    case DoMount(point, id) => MountMoves(s.ctx, point, id);
    case DoUnmount(path) => UnmountedAt(s.ctx, path);
    case _ => StepStill(s, a);
  }

  // The file system is known and mounted, if at all, before index i.
  ghost predicate Before(c: Context, i: nat, id: nat) {
    id in c.vfs.stores && forall j :: i <= j < |Mounts(c)| ==> Mounts(c)[j].fs != id
  }

  lemma StepStaysBefore(c: Context, d: Context, a: Action, i: nat, id: nat)
    requires MovesMounts(c, d, a) && Before(c, i, id)
    ensures Before(d, i, id)
  {
    hide Removes, RemoveAt;
    if a.DoUnmount? && Removes(c, a.path).Some? { RemovedAt(Mounts(c), Removes(c, a.path).value); }
  }

  lemma StepLands(c: Context, d: Context, a: Action, p: Pending)
    requires V.Inv(c.vfs) && MovesMounts(c, d, a) && Lands(c, p)
    ensures if Takes(c, a, p.mount) then Before(d, p.mount, p.at.store) else Lands(d, p)
  {
    hide Removes, R.Inv, D.Inv, RemoveAt;
    if a.DoUnmount? && Removes(c, a.path).Some? { RemovedAt(Mounts(c), Removes(c, a.path).value); }
  }

  lemma {:induction false} RunStaysBefore(s: Traced, actions: seq<Action>, i: nat, id: nat)
    requires Inv(s) && IsRun(s, actions) && Before(s.ctx, i, id)
    ensures Before(Run(s, actions).ctx, i, id)
    decreases |actions|
  {
    hide Inv, Step, Before, MovesMounts;
    if actions != [] {
      InvNext(s);
      StepInv(s, actions[0]);
      StepMoves(s, actions[0]);
      StepStaysBefore(s.ctx, Step(s, actions[0]).ctx, actions[0], i, id);
      RunStaysBefore(Step(s, actions[0]), actions[1..], i, id);
    }
  }

  /** After any steps between the halves the index is right exactly when none took that mount or an earlier one. */
  lemma {:induction false} LandsIff(s: Traced, actions: seq<Action>, p: Pending)
    requires Inv(s) && IsRun(s, actions) && Lands(s.ctx, p)
    ensures Lands(Run(s, actions).ctx, p) <==> Undisturbed(s, actions, p.mount)
    decreases |actions|
  {
    hide Inv, Step, Before, MovesMounts, Lands, Takes;
    if actions != [] {
      InvNext(s);
      InvVfs(s);
      StepInv(s, actions[0]);
      StepMoves(s, actions[0]);
      var next := Step(s, actions[0]);
      StepLands(s.ctx, next.ctx, actions[0], p);
      if Takes(s.ctx, actions[0], p.mount) {
        RunStaysBefore(next, actions[1..], p.mount, p.at.store);
        NotBeforeAndThere(Run(next, actions[1..]).ctx, p);
      } else {
        LandsIff(next, actions[1..], p);
      }
    }
  }

  lemma NotBeforeAndThere(c: Context, p: Pending)
    requires Before(c, p.mount, p.at.store)
    ensures !Lands(c, p)
  {
  }

  /**
   * `open` and `create` in two halves, any steps of others between: the descriptor given leads to the
   * file system the file was opened on exactly when none of them unmounted that mount or an earlier one.
   */
  lemma {:induction false} OpenInTwoHalves(s: Traced, path: string, flags: nat, make: bool, actions: seq<Action>)
    requires Inv(s) && OpenFirst(s.ctx.vfs, path, flags, make).1.Some?
    requires var half := s.(ctx := s.ctx.(vfs := OpenFirst(s.ctx.vfs, path, flags, make).0));
      Inv(half) && IsRun(half, actions)
    ensures
      var (w, p) := OpenFirst(s.ctx.vfs, path, flags, make);
      var half := s.(ctx := s.ctx.(vfs := w));
      var t := Run(half, actions);
      && t.ctx.table.next < U32
      && var end := Register(t, p.value);
      match FreeFrom(t.ctx.table.entries, t.ctx.table.next, U32)
      case None => end.ctx.table == t.ctx.table
      case Some(fd) =>
        && Find(end.ctx.table, fd) == Some(Entry(fd, p.value.mount, p.value.at.local))
        && (Reaches(end, Entry(fd, p.value.mount, p.value.at.local)) <==> Undisturbed(half, actions, p.value.mount))
  {
    hide Inv, Run, IsRun, Undisturbed, OpenFirst, FreeFrom, VR.Step, Used;
    InvVfs(s);
    OpenFirstInv(s.ctx.vfs, path, flags, make);
    var (w, p) := OpenFirst(s.ctx.vfs, path, flags, make);
    var half := s.(ctx := s.ctx.(vfs := w));
    LandsIff(half, actions, p.value);
    var t := Run(half, actions);
    InvNext(t);
    var fd := FreeFrom(t.ctx.table.entries, t.ctx.table.next, U32);
    if fd.Some? { FoundLast(t.ctx.table.entries, Entry(fd.value, p.value.mount, p.value.at.local)); }
  }

  lemma {:induction false} FoundLast(entries: seq<Entry>, e: Entry)
    requires !Used(entries, e.fd)
    ensures IndexOf(entries + [e], e.fd) == |entries|
  {
    hide IndexOf;
    NotUsed(entries, e.fd);
    var all := entries + [e];
    assert all[|entries|] == e && forall i :: 0 <= i < |entries| ==> all[i] == entries[i];
  }

  /** One unmount of that mount or an earlier one in between: the index is the next mount's, or nobody's. */
  lemma StaleIndexLeadsElsewhere(c: Context, path: string, p: Pending)
    requires V.Inv(c.vfs) && Lands(c, p) && Removes(c, path).Some? && Removes(c, path).value <= p.mount
    ensures
      var after := Mounts(UnmountIn(c, path));
      if p.mount + 1 == |Mounts(c)| then |after| == p.mount
      else p.mount < |after| && after[p.mount] == Mounts(c)[p.mount + 1] && after[p.mount].fs != p.at.store
  {
    hide Removes, VR.Step, UnmountIn, V.Inv, RemoveAt;
    if p.mount + 1 < |Mounts(c)| { MountsDiffer(c.vfs, p.mount); }
    UnmountedAt(c, path);
    RemovedAt(Mounts(c), Removes(c, path).value);
  }

  lemma MountsDiffer(w: V.World, i: nat)
    requires V.Inv(w) && i + 1 < |w.router.mounts|
    ensures w.router.mounts[i].fs != w.router.mounts[i + 1].fs
  {
    hide R.Inv, D.Inv;
  }

  // ------------------------------------------------------------- mount and unmount

  /**
   * `mount` takes its point from the root, `unmount` from the working directory: the one undoes the
   * other exactly when the path means the same from both.
   */
  lemma UnmountUndoesMountIff(c: Context, point: string, id: nat)
    requires V.Inv(c.vfs) && id !in c.vfs.stores && MountIn(c, point, id) != c
    ensures Mounts(UnmountIn(MountIn(c, point, id), point)) == Mounts(c) <==>
      R.ResolvePath(c.vfs.router.wd, point) == Normalize(point)
  {
    hide V.Inv, Normalize, R.ResolvePath, R.FindFs, VR.ListAnswer, R.IndexOfPoint, UnmountIn, R.Normal, RemoveAt;
    var d := MountIn(c, point, id);
    var m := R.Mount(Normalize(point), id);
    VR.StepInv(c.vfs, VR.MountAt(point, id));
    UnmountedAt(d, point);
    if Removes(d, point).Some? { RemovedAt(Mounts(d), Removes(d, point).value); }
    assert Mounts(d) == Mounts(c) + [m];
    var at := R.ResolvePath(c.vfs.router.wd, point);
    InvRoot(c.vfs);
    assert R.Normal(at) by { R.ResolveIsFold(c.vfs.router.wd, point); }
    assert Normalize(at) == at by { NormalIs(at); }
    if at == Normalize(point) {
      assert Mounts(d)[|Mounts(c)|].point == at;
      assert Removes(d, point) == Some(|Mounts(c)|);
    } else {
      assert forall i :: 0 <= i < |Mounts(c)| ==> Mounts(c)[i].point != m.point;
      var left := Mounts(UnmountIn(d, point));
      assert left[|left| - 1] == m;
    }
  }

  lemma NormalIs(path: string)
    requires R.Normal(path)
    ensures Normalize(path) == path
  {
  }

  lemma InvRoot(w: V.World)
    requires V.Inv(w)
    ensures R.Normal(w.router.wd)
    ensures exists i :: 0 <= i < |w.router.mounts| && w.router.mounts[i].point == "/"
  {
    hide R.Normal;
  }
}
