/**
 * Every run of the mount router together with the file systems behind it: mounting, unmounting, changing
 * directory, operations by path and operations by mount index, in any order.
 */
module VfsRuns {
  import opened Arithmetic
  import opened Wrappers
  import opened Paths
  import opened Tree
  import opened VirtualFs
  import M = MemFs
  import D = Descriptors
  import R = Mounts

  datatype Action =
    | MountAt(point: string, id: nat)
    | UnmountAt(point: string)
    | ChangeTo(path: string)
    | Routed(call: D.Action)
    | AtMount(index: nat, call: D.Action)

  // What listing a directory by absolute path answers: an error, or none.
  function ListAnswer(w: World, at: string): Option<FsError> {
    match ViewAt(w, at)
    case None => Some(FileNotFound)
    case Some(node) => if node.kind != Directory then Some(NotADirectory) else None
  }

  // `with_fs`: the same call with the part of the path behind the mount point.
  function Redirected(call: D.Action, rest: string): D.Action {
    match call
    case DoCreate(_, kind) => D.DoCreate(rest, kind)
    case DoMkdir(_) => D.DoMkdir(rest)
    case DoUnlink(_) => D.DoUnlink(rest)
    case DoOpen(_, flags) => D.DoOpen(rest, flags)
    case _ => call
  }

  predicate ByPath(call: D.Action) {
    call.DoCreate? || call.DoMkdir? || call.DoUnlink? || call.DoOpen?
  }

  // The file system behind a mount takes a step.
  function OnStore(w: World, id: nat, call: D.Action): World {
    if id in w.stores then WithStore(w, id, D.Step(w.stores[id], call)) else w
  }

  // A file system is moved into the router, so the one mounted is in no mount yet; calls by path go
  // through the router, the others name a mount.
  ghost predicate Allowed(w: World, a: Action) {
    match a
    case MountAt(_, id) => id !in w.stores
    case Routed(call) => ByPath(call)
    case AtMount(_, call) => !ByPath(call)
    case _ => true
  }

  function Step(w: World, a: Action): World {
    match a
    case MountAt(point, id) =>
      var (router, r) := R.DoMount(w.router, point, id, ListAnswer(w, Normalize(point)));
      if r.Ok? then World(router, w.stores[id := D.Fresh()]) else w
    case UnmountAt(point) => w.(router := R.DoUnmount(w.router, point).0)
    case ChangeTo(path) =>
      w.(router := R.DoChangeDirectory(w.router, path, ListAnswer(w, R.ResolvePath(w.router.wd, path))).0)
    case Routed(call) =>
      if !ByPath(call) then w
      else
        (match SpotOf(w, R.ResolvePath(w.router.wd, call.path))
         case None => w
         case Some((id, rest)) => OnStore(w, id, Redirected(call, rest)))
    case AtMount(index, call) =>
      if index < |w.router.mounts| then OnStore(w, w.router.mounts[index].fs, call) else w
  }

  ghost predicate IsRun(w: World, actions: seq<Action>)
    decreases |actions|
  {
    actions == [] || (Allowed(w, actions[0]) && IsRun(Step(w, actions[0]), actions[1..]))
  }

  function Run(w: World, actions: seq<Action>): World
    decreases |actions|
  {
    if actions == [] then w else Run(Step(w, actions[0]), actions[1..])
  }

  // ------------------------------------------------------------- every step keeps the invariant

  lemma MountStep(w: World, point: string, id: nat)
    requires Inv(w) && id !in w.stores
    ensures Inv(Step(w, MountAt(point, id)))
  {
    hide D.Inv, R.Inv, Normalize, R.FindFs, ListAnswer, ViewAt, R.IndexOfPoint;
    D.FreshInv();
    R.MountInv(w.router, point, id, ListAnswer(w, Normalize(point)));
  }

  lemma UnmountStep(w: World, point: string)
    requires Inv(w)
    ensures Inv(Step(w, UnmountAt(point)))
  {
    hide D.Inv, R.Inv, Normalize, R.Except;
    R.UnmountInv(w.router, point);
    var kept := R.Except(w.router.mounts, Normalize(point));
    R.ExceptMembers(w.router.mounts, Normalize(point));
    R.ExceptDistinct(w.router.mounts, Normalize(point)) by { DistinctOf(w.router); }
    forall i, j | 0 <= i < j < |kept| ensures kept[i].fs != kept[j].fs {
      assert kept[i] in w.router.mounts && kept[j] in w.router.mounts;
      assert kept[i].point != kept[j].point;
    }
    assert forall i :: 0 <= i < |kept| ==> kept[i] in w.router.mounts;
  }

  lemma DistinctOf(v: R.Router)
    requires R.Inv(v)
    ensures R.DistinctPoints(v.mounts)
  {
  }

  lemma OnStoreInv(w: World, id: nat, call: D.Action)
    requires Inv(w) && (id in w.stores ==> D.Inv(w.stores[id]))
    ensures Inv(OnStore(w, id, call)) && OnStore(w, id, call).router == w.router
  {
    hide D.Inv, R.Inv, D.Step;
    if id in w.stores { D.StepInv(w.stores[id], call); }
  }

  lemma SpotMounted(w: World, at: string)
    requires Inv(w) && SpotOf(w, at).Some?
    ensures var id := SpotOf(w, at).value.0; id in w.stores && D.Inv(w.stores[id])
  {
    hide D.Inv, R.Inv, R.FindFs;
  }

  lemma StepInv(w: World, a: Action)
    requires Inv(w) && Allowed(w, a)
    ensures Inv(Step(w, a))
  {
    hide Inv, D.Inv, SpotOf, R.ResolvePath, R.DoMount, R.DoUnmount, OnStore, ListAnswer, R.DoChangeDirectory;
    match a
    case MountAt(point, id) => MountStep(w, point, id);
    case UnmountAt(point) => UnmountStep(w, point);
    case ChangeTo(path) => ChangeStep(w, path);
    case Routed(call) =>
      var spot := SpotOf(w, R.ResolvePath(w.router.wd, call.path));
      if spot.Some? {
        SpotMounted(w, R.ResolvePath(w.router.wd, call.path));
        OnStoreInv(w, spot.value.0, Redirected(call, spot.value.1));
      }
    case AtMount(index, call) => AtMountStep(w, index, call);
  }

  lemma ChangeStep(w: World, path: string)
    requires Inv(w)
    ensures Inv(Step(w, ChangeTo(path)))
  {
    hide D.Inv, R.Inv, R.ResolvePath, R.FindFs, ListAnswer;
    R.StepInv(w.router, R.ChangeTo(path, ListAnswer(w, R.ResolvePath(w.router.wd, path))));
  }

  lemma AtMountStep(w: World, index: nat, call: D.Action)
    requires Inv(w)
    ensures Inv(Step(w, AtMount(index, call)))
  {
    hide D.Inv, R.Inv, OnStore;
    if index < |w.router.mounts| { OnStoreInv(w, w.router.mounts[index].fs, call); }
  }

  /** Whatever is mounted, unmounted and done by path or by index: one file system per mount, each a tree. */
  lemma {:induction false} RunInv(w: World, actions: seq<Action>)
    requires Inv(w) && IsRun(w, actions)
    ensures Inv(Run(w, actions))
    decreases |actions|
  {
    hide Inv, Step, Allowed;
    if actions != [] {
      StepInv(w, actions[0]);
      RunInv(Step(w, actions[0]), actions[1..]);
    }
  }

  /**
   * After every run from boot, two paths name one file exactly when they stand for the same names: a file
   * made by one is found by the other if they do, and otherwise the other shows what it did before.
   */
  lemma {:induction false} VfsOverEveryRun(actions: seq<Action>, p: string, q: string)
    requires IsRun(Boot(), actions)
    ensures
      var w := Run(Boot(), actions);
      var at := R.ResolvePath(w.router.wd, p);
      var (w', made) := CreateAt(w, at, File);
      && Inv(w)
      && (made.Some? ==>
          if Goal(w, q) == Goal(w, p) then
            && SpotOf(w', R.ResolvePath(w.router.wd, q)).Some?
            && var (id, rest) := SpotOf(w', R.ResolvePath(w.router.wd, q)).value;
            id in w'.stores && Lookup(w'.stores[id].inodes, rest) == made
          else View(w', Goal(w, q)) == View(w, Goal(w, q)))
  {
    hide Run, IsRun, Boot, Inv, CreateAt, SpotOf, Lookup, View, Goal, R.ResolvePath;
    BootInv();
    RunInv(Boot(), actions);
    var w := Run(Boot(), actions);
    if CreateAt(w, R.ResolvePath(w.router.wd, p), File).1.Some? { CreatedEverywhere(w, p, q); }
  }

  // ------------------------------------------------------------- what mounting shows and hides

  // The mount a list of names is served by.
  function MountOf(w: World, cs: seq<Name>): Option<nat> {
    R.FindIndex(w.router.mounts, Render(cs))
  }

  /**
   * A mount on a free point shows an empty directory there and hides what the point led to, mounts below
   * it excepted; everything else shows what it did.
   */
  lemma MountShows(w: World, point: string, id: nat, cs: seq<Name>)
    requires Inv(w) && id !in w.stores && AllProper(cs)
    requires R.IndexOfPoint(w.router.mounts, Normalize(point)) == |w.router.mounts|
    requires R.DoMount(w.router, point, id, ListAnswer(w, Normalize(point))).1.Ok?
    ensures
      var p := Resolved(point);
      && MountOf(w, cs).Some? && MountOf(w, cs).value < |w.router.mounts|
      && var served := Components(w.router.mounts[MountOf(w, cs).value].point);
      View(Step(w, MountAt(point, id)), cs) ==
        if p <= cs && |served| < |p| then (if cs == p then Some(Node(Directory, [])) else None)
        else View(w, cs)
  {
    hide Components, Fold, Render, Normalize, R.Normal, Follow, Lookup, R.Join, D.Inv, ListAnswer, R.RelativeToMount,
         R.IndexOfPoint, NodeOf, NodeAt, R.FindIndex;
    var w' := Step(w, MountAt(point, id));
    MountStep(w, point, id);
    R.RenderNormal(cs);
    R.NormalizeNormal(point);
    R.RoutesToLongestPrefix(w.router, Render(cs), 0);
    NewIndex(w.router.mounts, R.Mount(Normalize(point), id), Render(cs));
    R.RelativeIff(Render(cs), Normalize(point));
    SpotFacts(w, cs);
    SpotFacts(w', cs);
    assert w'.router.mounts == w.router.mounts + [R.Mount(Normalize(point), id)];
    var i := R.FindIndex(w.router.mounts, Render(cs)).value;
    var p := Components(Normalize(point));
    if p <= cs {
      R.LongerIff(Render(cs), w.router.mounts[i].point, Normalize(point));
      TailProper(cs, |p|);
      FreshNode(cs[|p|..]);
    }
  }

  lemma TailProper(cs: seq<Name>, n: nat)
    requires AllProper(cs) && n <= |cs|
    ensures AllProper(cs[n..])
  {
  }

  lemma {:induction false} NewIndex(mounts: seq<R.Mount>, m: R.Mount, path: string)
    ensures R.FindIndex(mounts + [m], path) ==
      var best := R.FindIndex(mounts, path);
      if R.RelativeToMount(path, m.point).Some? && (best.None? || |mounts[best.value].point| <= |m.point|)
      then Some(|mounts|) else best
  {
    hide R.RelativeToMount;
    assert (mounts + [m])[..|mounts|] == mounts;
  }
}
