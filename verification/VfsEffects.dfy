/**
 * What each call through the mount router does to what the whole system shows, under every list of names:
 * calls by path, calls by mount index, mounting, unmounting and changing directory.
 */
module VfsEffects {
  import opened Arithmetic
  import opened Wrappers
  import opened Paths
  import opened Tree
  import opened VirtualFs
  import opened VfsRuns
  import M = MemFs
  import D = Descriptors
  import F = FileCalls
  import R = Mounts

  function Front(cs: seq<Name>): seq<Name>
    requires cs != []
  {
    cs[..|cs| - 1]
  }

  // ------------------------------------------------------------- calls by path

  lemma RoutedIs(w: World, path: string)
    ensures
      var at := R.ResolvePath(w.router.wd, path);
      && Step(w, Routed(D.DoMkdir(path))) == MkdirAt(w, at).0
      && Step(w, Routed(D.DoUnlink(path))) == UnlinkAt(w, at).0
      && forall kind :: Step(w, Routed(D.DoCreate(path, kind))) == CreateAt(w, at, kind).0
  {
    hide SpotOf, R.ResolvePath, M.Create, M.Mkdir, M.Unlink;
  }

  /** `create`: one empty node where nothing was, below a directory; else nothing. */
  lemma CreateShows(w: World, path: string, kind: Kind, cs: seq<Name>)
    requires Inv(w) && AllProper(cs)
    ensures
      var g := Goal(w, path);
      View(Step(w, Routed(D.DoCreate(path, kind))), cs) ==
        if cs == g && g != [] && View(w, g).None? && IsDirectory(View(w, Front(g))) then Some(Node(kind, []))
        else View(w, cs)
  {
    hide Inv, View, CreateAt, Goal, R.ResolvePath, AllProper, Step, Render;
    RoutedIs(w, path);
    GoalFacts(w, path);
    CreateView(w, Goal(w, path), kind, cs);
    CreateViewIff(w, Goal(w, path), kind);
  }

  /** `mkdir` is the creation of a directory. */
  lemma MkdirShows(w: World, path: string, cs: seq<Name>)
    requires Inv(w) && AllProper(cs)
    ensures
      var g := Goal(w, path);
      View(Step(w, Routed(D.DoMkdir(path))), cs) ==
        if cs == g && g != [] && View(w, g).None? && IsDirectory(View(w, Front(g))) then Some(Node(Directory, []))
        else View(w, cs)
  {
    hide Inv, View, CreateAt, MkdirAt, Goal, R.ResolvePath, AllProper, Step, Render;
    RoutedIs(w, path);
    MkdirIsCreate(w, R.ResolvePath(w.router.wd, path));
    CreateShows(w, path, Directory, cs);
  }

  /** `unlink`: gone, if it is shown, is no mount point and has nothing below; else nothing. */
  lemma UnlinkShows(w: World, path: string, cs: seq<Name>)
    requires Inv(w) && AllProper(cs)
    ensures
      var g := Goal(w, path);
      View(Step(w, Routed(D.DoUnlink(path))), cs) == if cs == g && Removable(w, g) then None else View(w, cs)
  {
    hide Inv, View, UnlinkAt, Goal, R.ResolvePath, AllProper, Step, Render, Removable;
    RoutedIs(w, path);
    GoalFacts(w, path);
    UnlinkView(w, Goal(w, path), cs);
    UnlinkViewIff(w, Goal(w, path));
  }

  // ------------------------------------------------------------- calls on one file system

  // A step of one file system, seen from everywhere.
  lemma SteppedShows(w: World, id: nat, call: D.Action, cs: seq<Name>)
    requires Inv(w) && AllProper(cs) && id in w.stores && D.Inv(w.stores[id])
    ensures
      && SpotOf(w, Render(cs)).Some?
      && var (b, q) := SpotOf(w, Render(cs)).value;
      && Plain(q)
      && View(OnStore(w, id, call), cs)
        == if b == id then NodeOf(D.Step(w.stores[id], call), Components(q)) else View(w, cs)
  {
    hide Inv, D.Inv, D.Step, Render, Components, R.FindFs, Follow, Lookup, AllProper, NodeOf;
    OnStoreInv(w, id, call);
    SpotFacts(w, cs);
    SpotFacts(OnStore(w, id, call), cs);
    SameRoute(w, id, call, Render(cs));
  }

  lemma SameRoute(w: World, id: nat, call: D.Action, at: string)
    requires id in w.stores
    ensures SpotOf(OnStore(w, id, call), at) == SpotOf(w, at)
  {
    hide R.FindFs, D.Step;
  }

  predicate LeavesInodes(call: D.Action) {
    call.DoRead? || call.DoSeek? || call.DoClose? || call.DoOpen?
  }

  lemma InodesLeft(fs: M.Fs, call: D.Action)
    requires LeavesInodes(call)
    ensures D.Step(fs, call).inodes == fs.inodes
  {
    hide Lookup, D.ReadAt;
  }

  /** Opening, reading, seeking and closing change nothing that is shown anywhere. */
  lemma QuietShows(w: World, a: Action, cs: seq<Name>)
    requires Inv(w) && AllProper(cs)
    requires (a.Routed? && a.call.DoOpen?) || (a.AtMount? && LeavesInodes(a.call) && !a.call.DoOpen?)
    ensures View(Step(w, a), cs) == View(w, cs)
  {
    hide D.Inv, R.Inv, SpotOf, R.ResolvePath, OnStore, View;
    if a.Routed? {
      var at := R.ResolvePath(w.router.wd, a.call.path);
      if SpotOf(w, at).Some? {
        SpotMounted(w, at);
        QuietStore(w, SpotOf(w, at).value.0, Redirected(a.call, SpotOf(w, at).value.1), cs);
      }
    } else if a.index < |w.router.mounts| {
      QuietStore(w, w.router.mounts[a.index].fs, a.call, cs);
    }
  }

  lemma QuietStore(w: World, id: nat, call: D.Action, cs: seq<Name>)
    requires Inv(w) && AllProper(cs) && id in w.stores && D.Inv(w.stores[id]) && LeavesInodes(call)
    ensures View(OnStore(w, id, call), cs) == View(w, cs)
  {
    hide Inv, D.Inv, D.Step, Components, OnStore, SpotOf, AllProper, Render, ViewAt, Follow;
    SteppedShows(w, id, call, cs);
    InodesLeft(w.stores[id], call);
    SpotFacts(w, cs);
  }

  /**
   * A write through a mount changes the bytes shown under exactly the names, on that mount, that lead to
   * the inode the descriptor names.
   */
  lemma WriteShows(w: World, index: nat, fd: nat, bytes: seq<byte>, cs: seq<Name>)
    requires Inv(w) && AllProper(cs) && index < |w.router.mounts|
    requires F.Readable(w.stores[w.router.mounts[index].fs], fd)
    requires w.stores[w.router.mounts[index].fs].fds[fd].offset + |bytes| < WORD
    ensures
      var id := w.router.mounts[index].fs;
      var fs := w.stores[id];
      && SpotOf(w, Render(cs)).Some?
      && var (b, q) := SpotOf(w, Render(cs)).value;
      View(Step(w, AtMount(index, D.DoWrite(fd, bytes))), cs) ==
        if b == id && Follow(fs.inodes, Components(q), ROOT) == Some(fs.fds[fd].ino)
        then Some(Node(File, D.WriteAt(F.DataOf(fs, fd), fs.fds[fd].offset, bytes)))
        else View(w, cs)
  {
    hide D.Step, Components, SpotOf, AllProper, Render, ViewAt, Follow, D.WriteAt, R.Inv, D.Inv, OnStore;
    var id := w.router.mounts[index].fs;
    var fs := w.stores[id];
    SteppedShows(w, id, D.DoWrite(fd, bytes), cs);
    SpotFacts(w, cs);
    WrittenNode(fs, fd, bytes, Components(SpotOf(w, Render(cs)).value.1));
  }

  lemma {:induction false} WrittenNode(fs: M.Fs, fd: nat, bytes: seq<byte>, cs: seq<Name>)
    requires D.Inv(fs) && F.Readable(fs, fd) && fs.fds[fd].offset + |bytes| < WORD && AllProper(cs)
    ensures NodeOf(D.Step(fs, D.DoWrite(fd, bytes)), cs) ==
      if Follow(fs.inodes, cs, ROOT) == Some(fs.fds[fd].ino)
      then Some(Node(File, D.WriteAt(F.DataOf(fs, fd), fs.fds[fd].offset, bytes)))
      else NodeOf(fs, cs)
  {
    hide Follow, TreeInv, D.WriteAt, AllProper;
    var i := fs.fds[fd].ino;
    var data := D.WriteAt(F.DataOf(fs, fd), fs.fds[fd].offset, bytes);
    SetDataFollows(fs.inodes, fs.nextIno, i, data, cs);
  }

  // ------------------------------------------------------------- mounting

  // Why there is no directory under the names.
  function Missing(w: World, cs: seq<Name>): FsError {
    if View(w, cs).Some? then NotADirectory else FileNotFound
  }

  lemma ListAnswerIs(w: World, cs: seq<Name>)
    ensures ListAnswer(w, Render(cs)).None? <==> IsDirectory(View(w, cs))
    ensures !IsDirectory(View(w, cs)) ==> ListAnswer(w, Render(cs)) == Some(Missing(w, cs))
  {
    hide ViewAt, Render;
  }

  /** A mount succeeds exactly at the root or where a directory is shown; else the error says what is there. */
  lemma MountSucceedsIff(w: World, point: string, id: nat)
    requires Inv(w)
    ensures R.DoMount(w.router, point, id, ListAnswer(w, Normalize(point))).1 ==
      if Resolved(point) == [] || IsDirectory(View(w, Resolved(point))) then Ok(())
      else Err(Missing(w, Resolved(point)))
  {
    hide Inv, ViewAt, Components, Fold, Render, R.FindFs, ListAnswer, R.IndexOfPoint;
    ListAnswerIs(w, Resolved(point));
    ResolvedProper(point);
    RootRendering(Resolved(point));
    SpotFacts(w, Resolved(point));
    SpotFound(w, Normalize(point));
  }

  lemma SpotFound(w: World, at: string)
    ensures SpotOf(w, at).Some? ==> R.FindFs(w.router.mounts, at).Some?
  {
    hide R.FindFs;
  }

  lemma RootRendering(cs: seq<Name>)
    requires AllProper(cs)
    ensures Render(cs) == "/" <==> cs == []
  {
    hide Components, R.Normal;
    R.RenderNormal(cs);
    R.RootNormal();
    R.NormalFacts("/");
  }

  /** Unmounting what was mounted on a free point shows again, everywhere, what was shown before. */
  lemma UnmountRestores(w: World, point: string, id: nat, cs: seq<Name>)
    requires Inv(w) && id !in w.stores && AllProper(cs)
    requires R.IndexOfPoint(w.router.mounts, Normalize(point)) == |w.router.mounts|
    requires R.DoMount(w.router, point, id, ListAnswer(w, Normalize(point))).1.Ok?
    ensures View(Step(Step(w, MountAt(point, id)), UnmountAt(point)), cs) == View(w, cs)
  {
    hide Inv, ListAnswer, Normalize, R.DoMount, R.DoUnmount, R.IndexOfPoint, View, Render;
    InvRouter(w);
    R.UnmountUndoesMount(w.router, point, id, ListAnswer(w, Normalize(point)));
    var m := World(w.router, w.stores[id := D.Fresh()]);
    assert Step(Step(w, MountAt(point, id)), UnmountAt(point)) == m;
    MoreStores(w, id, cs);
  }

  lemma InvRouter(w: World)
    requires Inv(w)
    ensures R.Inv(w.router)
  {
  }

  // A file system that is nowhere mounted shows nowhere.
  lemma MoreStores(w: World, id: nat, cs: seq<Name>)
    requires Inv(w) && id !in w.stores && AllProper(cs)
    ensures View(World(w.router, w.stores[id := D.Fresh()]), cs) == View(w, cs)
  {
    hide Render, R.FindFs, Lookup, D.Inv, R.Inv, D.Fresh, AllProper, Components;
    SpotFacts(w, cs);
  }

  /** A point that is not mounted, and the root, cannot be unmounted: nothing changes. */
  lemma UnmountNothing(w: World, point: string)
    requires Inv(w)
    requires Normalize(point) == "/" || R.IndexOfPoint(w.router.mounts, Normalize(point)) == |w.router.mounts|
    ensures Step(w, UnmountAt(point)) == w
  {
    hide Normalize, R.IndexOfPoint, R.Except;
    if Normalize(point) != "/" { NothingTaken(w.router.mounts, Normalize(point)); }
  }

  lemma {:induction false} NothingTaken(mounts: seq<R.Mount>, point: string)
    requires forall i :: 0 <= i < |mounts| ==> mounts[i].point != point
    ensures R.Except(mounts, point) == mounts
    decreases |mounts|
  {
    if mounts != [] { NothingTaken(mounts[1..], point); }
  }

  // The mount that serves the names still serves them, and sees the same part of the path.
  lemma RouteStays(w: World, point: string, cs: seq<Name>)
    requires Inv(w) && Inv(Step(w, UnmountAt(point))) && AllProper(cs)
    requires MountOf(w, cs).Some? && MountOf(w, cs).value < |w.router.mounts|
    requires w.router.mounts[MountOf(w, cs).value].point != Normalize(point)
    ensures
      var kept := Step(w, UnmountAt(point)).router.mounts;
      && R.FindFs(w.router.mounts, Render(cs)).Some? && R.FindFs(kept, Render(cs)).Some?
      && var (i, rest) := R.FindFs(w.router.mounts, Render(cs)).value;
      && var (k, other) := R.FindFs(kept, Render(cs)).value;
      i < |w.router.mounts| && k < |kept| && kept[k] == w.router.mounts[i] && rest == other
  {
    hide Components, Render, Normalize, R.Normal, R.Join, D.Inv, R.RelativeToMount, R.FindIndex, R.Except;
    var w' := Step(w, UnmountAt(point));
    R.RenderNormal(cs);
    R.ExceptMembers(w.router.mounts, Normalize(point));
    var m := w.router.mounts[MountOf(w, cs).value];
    var kept := w'.router.mounts;
    assert m in kept;
    var k :| 0 <= k < |kept| && kept[k] == m;
    R.RoutesToLongestPrefix(w'.router, Render(cs), k);
    var i := R.FindFs(kept, Render(cs)).value.0;
    assert kept[i] in w.router.mounts;
    var j :| 0 <= j < |w.router.mounts| && w.router.mounts[j] == kept[i];
    R.RoutesToLongestPrefix(w.router, Render(cs), j);
    SameMount(w, kept[i], m);
  }

  /** Unmounting leaves every path alone that another mount serves. */
  lemma UnmountLeavesOthers(w: World, point: string, cs: seq<Name>)
    requires Inv(w) && AllProper(cs)
    requires MountOf(w, cs).Some? && MountOf(w, cs).value < |w.router.mounts|
    requires w.router.mounts[MountOf(w, cs).value].point != Normalize(point)
    ensures View(Step(w, UnmountAt(point)), cs) == View(w, cs)
  {
    hide Components, Render, Normalize, Lookup, Inv, R.FindFs, R.Except, MountOf;
    UnmountStep(w, point);
    RouteStays(w, point, cs);
  }

  lemma SameMount(w: World, a: R.Mount, b: R.Mount)
    requires Inv(w) && a in w.router.mounts && b in w.router.mounts && a.point == b.point
    ensures a == b
  {
    hide D.Inv, R.Normal;
  }

  // ------------------------------------------------------------- changing directory

  /**
   * Changing directory succeeds exactly where a directory is shown, and else says what is there; afterwards
   * a relative path continues from the names the given path stood for, and an absolute one means what it did.
   */
  lemma ChangeDirectoryMeans(w: World, path: string, q: string)
    requires Inv(w)
    ensures
      var w' := Step(w, ChangeTo(path));
      var g := Goal(w, path);
      && w'.stores == w.stores && w'.router.mounts == w.router.mounts
      && (IsDirectory(View(w, g)) ==> Goal(w', q) == Fold(if R.Absolute(q) then [] else g, Components(q)))
      && (!IsDirectory(View(w, g)) ==> w' == w)
      && R.DoChangeDirectory(w.router, path, ListAnswer(w, R.ResolvePath(w.router.wd, path))).1 ==
        if IsDirectory(View(w, g)) then Ok(()) else Err(Missing(w, g))
  {
    hide Inv, ViewAt, Render, R.FindFs, ListAnswer, R.ResolvePath, Fold, Components, R.Absolute;
    GoalFacts(w, path);
    var g := Goal(w, path);
    ListAnswerIs(w, g);
    SpotFacts(w, g);
    SpotFound(w, Render(g));
    R.RenderNormal(g);
  }
}
