/**
 * What each call of the kernel's file context does to its descriptor table and to the file systems behind
 * it: when opening succeeds and what it gives, what a call by descriptor reaches, what closing and
 * unmounting end and what they leave.
 */
module HandleEffects {
  import opened Arithmetic
  import opened Wrappers
  import opened Paths
  import opened VfsHandles
  import V = VirtualFs
  import VR = VfsRuns
  import D = Descriptors
  import F = FileCalls
  import M = MemFs
  import R = Mounts
  import T = Tree

  // ------------------------------------------------------------- the table

  lemma FindIs(t: Table, i: nat)
    requires DistinctFds(t.entries) && i < |t.entries|
    ensures Find(t, t.entries[i].fd) == Some(t.entries[i])
  {
    hide IndexOf;
    var k := IndexOf(t.entries, t.entries[i].fd);
  }

  lemma FindNone(t: Table, fd: nat)
    requires forall i :: 0 <= i < |t.entries| ==> t.entries[i].fd != fd
    ensures Find(t, fd) == None
  {
    hide IndexOf;
  }

  /** Inserting gives a number that was free and changes the entry of no other. */
  lemma InsertGives(t: Table, mount: nat, local: nat, fd: nat)
    requires t.next < U32 && DistinctFds(t.entries)
    ensures
      var (after, r) := Insert(t, mount, local);
      match r
      case None => after == t && AllUsed(t.entries)
      case Some(n) =>
        && n < U32 && Find(t, n) == None
        && Find(after, fd) == if fd == n then Some(Entry(n, mount, local)) else Find(t, fd)
  {
    NoneIffAllUsed(t.entries, t.next);
    hide IndexOf, FreeFrom, AllUsed;
    var (after, r) := Insert(t, mount, local);
    if r.Some? {
      NotUsed(t.entries, r.value);
      FindNone(t, r.value);
      var e := Entry(r.value, mount, local);
      assert after.entries[|t.entries|] == e;
      FindAppended(t, after, fd);
    }
  }

  /** A number is given again at once only when there is no other: the search goes on behind the last one. */
  lemma InsertMovesOn(t: Table, mount: nat, local: nat)
    requires t.next < U32 && DistinctFds(t.entries) && Insert(t, mount, local).1.Some?
    ensures
      var (t1, fd) := Insert(t, mount, local);
      var t2 := Take(t1, fd.value).0;
      && t2.entries == t.entries && t2.next < U32
      && (Insert(t2, mount, local).1 == fd ==>
          forall other: nat :: other < U32 && other != fd.value ==> Used(t.entries, other))
  {
    hide FreeFrom, Used;
    var fd := Insert(t, mount, local).1.value;
    var t1 := Insert(t, mount, local).0;
    TakenBack(t, Entry(fd, mount, local));
    var t2 := Take(t1, fd).0;
    FreeFromIsFirst(t.entries, After(fd), U32);
    if Insert(t2, mount, local).1 == Some(fd) {
      var k :|
        && 0 <= k < U32 && fd == Tried(After(fd), k)
        && forall j :: 0 <= j < k ==> Used(t.entries, Tried(After(fd), j));
      forall other: nat | other < U32 && other != fd ensures Used(t.entries, other) {
        TriedReaches(After(fd), other);
        assert Tries(After(fd), other) < k;
      }
    }
  }

  lemma TakenBack(t: Table, e: Entry)
    requires !Used(t.entries, e.fd)
    ensures Take(Table(t.entries + [e], After(e.fd % U32)), e.fd).0.entries == t.entries
  {
    NotUsed(t.entries, e.fd);
    hide IndexOf;
    var all := t.entries + [e];
    var i := IndexOf(all, e.fd);
    assert all[|t.entries|] == e;
    assert forall j :: 0 <= j < |t.entries| ==> all[j] == t.entries[j];
    assert i == |t.entries|;
  }

  lemma FindAppended(t: Table, after: Table, fd: nat)
    requires |after.entries| == |t.entries| + 1 && after.entries[..|t.entries|] == t.entries
    requires forall i :: 0 <= i < |t.entries| ==> t.entries[i].fd != after.entries[|t.entries|].fd
    ensures
      var e := after.entries[|t.entries|];
      Find(after, fd) == if fd == e.fd then Some(e) else Find(t, fd)
  {
    hide IndexOf;
    assert forall i :: 0 <= i < |t.entries| ==> after.entries[i] == t.entries[i];
    var i, k := IndexOf(t.entries, fd), IndexOf(after.entries, fd);
  }

  /** Taking ends one number and changes the entry of no other. */
  lemma TakeEnds(t: Table, fd: nat, other: nat)
    requires DistinctFds(t.entries)
    ensures Take(t, fd).1 == Find(t, fd)
    ensures Find(Take(t, fd).0, other) == if other == fd then None else Find(t, other)
  {
    hide IndexOf, RemoveAt;
    var i := IndexOf(t.entries, fd);
    if i < |t.entries| {
      RemovedAt(t.entries, i);
      var left := Take(t, fd).0;
      var k := IndexOf(t.entries, other);
      if other == fd {
        FindNone(left, fd);
      } else if k < |t.entries| {
        var j := if k < i then k else k - 1;
        assert left.entries[j] == t.entries[k];
        LeftDistinct(t, fd);
        FindIs(left, j);
      } else {
        FindNone(left, other);
      }
    }
  }

  lemma LeftDistinct(t: Table, fd: nat)
    requires DistinctFds(t.entries)
    ensures DistinctFds(Take(t, fd).0.entries)
  {
    hide IndexOf, RemoveAt;
    var i := IndexOf(t.entries, fd);
    if i < |t.entries| { RemovedAt(t.entries, i); }
  }

  /** Discarding a mount ends exactly the numbers of that mount; the others keep their entry, renumbered. */
  lemma {:induction false} DiscardEnds(t: Table, target: nat, fd: nat)
    requires DistinctFds(t.entries)
    ensures
      var after := t.(entries := Discard(t.entries, target));
      Find(after, fd) ==
        match Find(t, fd)
        case None => None
        case Some(e) => if e.mount == target then None else Some(Renumbered(e, target))
    decreases |t.entries|
  {
    hide IndexOf;
    if t.entries == [] {
      FindNone(t, fd);
    } else {
      var e, rest := t.entries[0], t.(entries := t.entries[1..]);
      DiscardEnds(rest, target, fd);
      FindFront(t, fd);
      var after, tail := t.(entries := Discard(t.entries, target)), rest.(entries := Discard(rest.entries, target));
      if e.mount == target {
        assert after.entries == tail.entries;
        if e.fd == fd { FindNone(rest, fd); }
      } else {
        assert after.entries == [Renumbered(e, target)] + tail.entries;
        assert after.entries[1..] == tail.entries;
        FindFront(after, fd);
      }
    }
  }

  lemma FindFront(t: Table, fd: nat)
    requires t.entries != []
    ensures Find(t, fd) == if t.entries[0].fd == fd then Some(t.entries[0]) else Find(t.(entries := t.entries[1..]), fd)
  {
  }

  // ------------------------------------------------------------- opening

  function Front(cs: seq<Name>): seq<Name>
    requires cs != []
  {
    cs[..|cs| - 1]
  }

  // The path shows something, or can be made.
  ghost predicate Openable(w: V.World, path: string, make: bool) {
    var g := V.Goal(w, path);
    || V.View(w, g).Some?
    || (make && g != [] && V.IsDirectory(V.View(w, Front(g))))
  }

  /**
   * The first half of `open` and `create` succeeds exactly when the path shows something or, for `create`,
   * there is a directory to make it in; it opens the very inode the path leads to.
   */
  lemma OpenFirstIff(w: V.World, path: string, flags: nat, make: bool)
    requires V.Inv(w)
    ensures
      var (after, p) := OpenFirst(w, path, flags, make);
      && (p.Some? <==> Openable(w, path, make))
      && (p.Some? ==>
          && V.SpotOf(w, Render(V.Goal(w, path))).Some?
          && var (id, rest) := V.SpotOf(w, Render(V.Goal(w, path))).value;
          && p.value.at.store == id && id in after.stores && id in w.stores
          && T.Lookup(after.stores[id].inodes, rest) == Some(p.value.at.ino)
          && p.value.at.local == w.stores[id].nextFd)
  {
    hide T.Lookup, D.Inv, R.Inv, Render, Components, Fold, T.Follow, R.FindFs, V.Goal, R.ResolvePath, M.Create, D.Step,
         V.NodeOf, AllProper;
    V.GoalFacts(w, path);
    var g := V.Goal(w, path);
    V.SpotFacts(w, g);
    var (id, rest) := V.SpotOf(w, Render(g)).value;
    var fs := w.stores[id];
    ShownIff(fs, rest);
    V.CreateViewIff(w, g, T.File);
    MadeIff(fs, rest);
    CreatesAt(w, g);
    StepIsCreate(fs, rest);
    StepIsOpen(fs, rest, flags);
    StepIsOpen(M.Create(fs, rest, T.File).0, rest, flags);
  }

  lemma StepIsOpen(fs: M.Fs, rest: string, flags: nat)
    ensures D.Step(fs, D.DoOpen(rest, flags)).inodes == fs.inodes
  {
    hide T.Lookup;
  }

  lemma ShownIff(fs: M.Fs, rest: string)
    requires D.Inv(fs) && V.Plain(rest)
    ensures V.NodeOf(fs, Components(rest)).Some? <==> T.Lookup(fs.inodes, rest).Some?
  {
    hide T.Lookup, Components, T.Follow, T.TreeInv, AllProper;
    V.PlainFacts(fs, rest);
    V.FollowArrives(fs, Components(rest));
  }

  // What a creation makes is found, and takes no descriptor.
  lemma MadeIff(fs: M.Fs, rest: string)
    requires D.Inv(fs)
    ensures
      var (made, r) := M.Create(fs, rest, T.File);
      && made.nextFd == fs.nextFd
      && (r.Some? ==> T.Lookup(made.inodes, rest) == r)
      && (r.None? ==> made == fs)
  {
    hide T.Lookup, M.LookupParent, T.TreeInv, M.Insert;
    if M.Create(fs, rest, T.File).1.Some? {
      M.CreatedIsFound(fs, rest, T.File, rest);
      V.CreatedNumber(fs, rest);
    }
  }

  lemma CreatesAt(w: V.World, g: seq<Name>)
    requires V.SpotOf(w, Render(g)).Some?
    ensures
      var (id, rest) := V.SpotOf(w, Render(g)).value;
      id in w.stores && V.CreateAt(w, Render(g), T.File).1 == M.Create(w.stores[id], rest, T.File).1
  {
    hide R.FindFs, Render, M.Create;
  }

  lemma StepIsCreate(fs: M.Fs, rest: string)
    ensures D.Step(fs, D.DoCreate(rest, T.File)) == M.Create(fs, rest, T.File).0
  {
    hide M.Create;
  }

  // The file system the path is on.
  ghost predicate LeadsTo(w: V.World, path: string, id: nat) {
    var spot := V.SpotOf(w, Render(V.Goal(w, path)));
    spot.Some? && spot.value.0 == id
  }

  // A number that was free leads to the file system of the path; `other` is as before.
  ghost predicate Gives(s: Traced, t: Traced, path: string, fd: nat, other: nat) {
    && Find(s.ctx.table, fd) == None && Find(t.ctx.table, fd).Some?
    && fd in t.origins && LeadsTo(s.ctx.vfs, path, t.origins[fd].store)
    && (other != fd ==> Find(t.ctx.table, other) == Find(s.ctx.table, other))
  }

  /**
   * A whole `open` or `create`: a path that shows nothing changes no entry; otherwise one free number
   * gets an entry that leads to where it was opened, unless all numbers are in use.
   */
  lemma OpenGives(s: Traced, path: string, flags: nat, make: bool, other: nat)
    requires Inv(s)
    ensures
      var t := OpenIn(s, path, flags, make);
      && (!Openable(s.ctx.vfs, path, make) || AllUsed(s.ctx.table.entries) ==> t.ctx.table == s.ctx.table)
      && (Openable(s.ctx.vfs, path, make) && !AllUsed(s.ctx.table.entries) ==>
          exists fd :: Gives(s, t, path, fd, other))
  {
    hide V.Inv, OpenFirst, Find, AllUsed, V.SpotOf, V.Goal, Render, FreeFrom, VR.Step, Openable;
    OpenFirstIff(s.ctx.vfs, path, flags, make);
    OpenFirstInv(s.ctx.vfs, path, flags, make);
    var p := OpenFirst(s.ctx.vfs, path, flags, make).1;
    if p.Some? {
      InsertGives(s.ctx.table, p.value.mount, p.value.at.local, other);
      var fd := Insert(s.ctx.table, p.value.mount, p.value.at.local).1;
      NoneIffAllUsed(s.ctx.table.entries, s.ctx.table.next);
      if fd.Some? {
        InsertGives(s.ctx.table, p.value.mount, p.value.at.local, fd.value);
        assert Gives(s, OpenIn(s, path, flags, make), path, fd.value, other);
      }
    }
  }

  // The second half with no number left.
  lemma RegisterFull(s: Traced, p: Pending)
    requires V.Inv(s.ctx.vfs) && s.ctx.table.next < U32 && AllUsed(s.ctx.table.entries)
    requires p.mount < |s.ctx.vfs.router.mounts| && s.ctx.vfs.router.mounts[p.mount].fs == p.at.store
    ensures
      var w := Register(s, p).ctx.vfs;
      p.at.store in w.stores && p.at.local !in w.stores[p.at.store].fds
  {
    NoneIffAllUsed(s.ctx.table.entries, s.ctx.table.next);
    hide V.Inv, AllUsed, FreeFrom, AtMount, D.Step, D.Inv;
    StoreThere(s.ctx.vfs, p.mount);
    AtMountIs(s.ctx.vfs, p.mount, D.DoClose(p.at.local));
    ClosedGone(s.ctx.vfs.stores[p.at.store], p.at.local);
  }

  lemma ClosedGone(fs: M.Fs, fd: nat)
    ensures fd !in D.Step(fs, D.DoClose(fd)).fds
  {
  }

  /** When all numbers are in use, the descriptor that was opened is closed again. */
  lemma FullTableCloses(s: Traced, path: string, flags: nat, make: bool)
    requires Inv(s) && AllUsed(s.ctx.table.entries) && OpenFirst(s.ctx.vfs, path, flags, make).1.Some?
    ensures
      var o := OpenFirst(s.ctx.vfs, path, flags, make).1.value.at;
      var t := OpenIn(s, path, flags, make);
      o.store in t.ctx.vfs.stores && o.local !in t.ctx.vfs.stores[o.store].fds
  {
    hide V.Inv, OpenFirst, AllUsed, Register, Reaches, DistinctFds;
    OpenFirstInv(s.ctx.vfs, path, flags, make);
    var (w, p) := OpenFirst(s.ctx.vfs, path, flags, make);
    RegisterFull(s.(ctx := s.ctx.(vfs := w)), p.value);
  }

  // ------------------------------------------------------------- calls by descriptor

  /** `read`, `write` and `seek` reach the file system and the descriptor the number was opened on, and no other. */
  lemma CallReaches(s: Traced, a: Action)
    requires Inv(s) && UsesFd(a)
    ensures
      var after := CallIn(s.ctx, a);
      && after.table == s.ctx.table && after.vfs.router == s.ctx.vfs.router
      && match Find(s.ctx.table, a.fd)
         case None => after == s.ctx
         case Some(e) =>
           && a.fd in s.origins && s.origins[a.fd].store in s.ctx.vfs.stores
           && var o := s.origins[a.fd];
           after.vfs.stores == s.ctx.vfs.stores[o.store := D.Step(s.ctx.vfs.stores[o.store], LocalCall(a, o.local))]
  {
    hide V.Inv, IndexOf, LocalCall, D.Step, DistinctFds;
    FindReaches(s, a.fd);
    var e := Find(s.ctx.table, a.fd);
    if e.Some? {
      StoreThere(s.ctx.vfs, e.value.mount);
      AtMountIs(s.ctx.vfs, e.value.mount, LocalCall(a, e.value.local));
    }
  }

  lemma StoreThere(w: V.World, i: nat)
    requires V.Inv(w) && i < |w.router.mounts|
    ensures w.router.mounts[i].fs in w.stores && D.Inv(w.stores[w.router.mounts[i].fs])
  {
    hide R.Inv, D.Inv;
  }

  // What `read` answers.
  function ReadAnswer(c: Context, fd: nat, n: nat): Result<seq<byte>> {
    match Find(c.table, fd)
    case None => Err(InvalidFileDescriptor)
    case Some(e) =>
      if e.mount < |Mounts(c)| && Mounts(c)[e.mount].fs in c.vfs.stores
      then D.Read(c.vfs.stores[Mounts(c)[e.mount].fs], e.local, n).1
      else Err(InvalidFileDescriptor)
  }

  /**
   * In every run with fewer than 2^32 opens, reading an open number whose file is still there delivers
   * the bytes of the inode it was opened on, from the descriptor's offset, as many as fit.
   */
  lemma {:induction false} GlobalReadDelivers(actions: seq<Action>, fd: nat, n: nat)
    requires IsRun(Start(), actions) && OpenCount(actions) < U32
    requires
      var s := Run(Start(), actions);
      && Find(s.ctx.table, fd).Some? && fd in s.origins
      && var o := s.origins[fd];
      && o.store in s.ctx.vfs.stores
      && o.ino in s.ctx.vfs.stores[o.store].inodes && s.ctx.vfs.stores[o.store].inodes[o.ino].kind == T.File
    ensures
      var s := Run(Start(), actions);
      var o := s.origins[fd];
      var fs := s.ctx.vfs.stores[o.store];
      var d := fs.inodes[o.ino].data;
      && o.local in fs.fds
      && var at := fs.fds[o.local].offset;
      ReadAnswer(s.ctx, fd, n) == Ok(if at >= |d| then [] else d[at..Min(|d|, at + n)])
  {
    hide IsRun, Run, Start, OpenCount, IndexOf, V.Inv, D.Read;
    InodeOverEveryRun(actions, fd, fd);
    var s := Run(Start(), actions);
    FindReaches(s, fd);
    var o := s.origins[fd];
    var fs := s.ctx.vfs.stores[o.store];
    F.ReadDelivers(fs, o.local, n);
    var d, at := fs.inodes[o.ino].data, fs.fds[o.local].offset;
    var got := D.Read(fs, o.local, n).1.value;
    assert got == if at >= |d| then [] else d[at..Min(|d|, at + n)];
  }

  /** A closed number has no entry, its descriptor is closed, and no other number is touched. */
  lemma CloseEnds(s: Traced, fd: nat, other: nat)
    requires Inv(s)
    ensures
      var after := CloseIn(s.ctx, fd);
      && Find(after.table, other) == (if other == fd then None else Find(s.ctx.table, other))
      && after.vfs.router == s.ctx.vfs.router
      && match Find(s.ctx.table, fd)
         case None => after == s.ctx
         case Some(e) =>
           && fd in s.origins && s.origins[fd].store in s.ctx.vfs.stores
           && var o := s.origins[fd];
           after.vfs.stores
             == s.ctx.vfs.stores[o.store := D.Step(s.ctx.vfs.stores[o.store], D.DoClose(o.local))]
  {
    hide V.Inv, IndexOf, D.Step;
    TakeEnds(s.ctx.table, fd, other);
    FindReaches(s, fd);
    var e := Find(s.ctx.table, fd);
    if e.Some? {
      StoreThere(s.ctx.vfs, e.value.mount);
      AtMountIs(s.ctx.vfs, e.value.mount, D.DoClose(e.value.local));
    }
  }

  /** Unmounting ends exactly the numbers that were opened on the file system taken away. */
  lemma UnmountEnds(s: Traced, path: string, fd: nat)
    requires Inv(s)
    ensures
      var after := UnmountIn(s.ctx, path);
      match Find(s.ctx.table, fd)
      case None => Find(after.table, fd) == None
      case Some(e) =>
        Find(after.table, fd).Some? <==>
          (Removes(s.ctx, path).None? || Mounts(s.ctx)[Removes(s.ctx, path).value].fs != s.origins[fd].store)
  {
    hide Removes, Discard, VR.Step, IndexOf, DistinctFds;
    FindReaches(s, fd);
    var r := Removes(s.ctx, path);
    if r.Some? {
      DiscardEnds(s.ctx.table, r.value, fd);
      var e := Find(s.ctx.table, fd);
      if e.Some? { OneMountEach(s.ctx.vfs, e.value.mount, r.value); }
    }
  }

  lemma OneMountEach(w: V.World, i: nat, j: nat)
    requires V.Inv(w) && i < |w.router.mounts| && j < |w.router.mounts|
    ensures i == j <==> w.router.mounts[i].fs == w.router.mounts[j].fs
  {
    hide R.Inv, D.Inv;
  }
}
