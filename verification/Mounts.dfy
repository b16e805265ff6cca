/** The mount router: file systems mounted on directories, paths routed to the longest mount point. */
module Mounts {
  import opened Wrappers
  import opened Paths

  // `fs` names the file system mounted there.
  datatype Mount = Mount(point: string, fs: nat)

  datatype Router = Router(mounts: seq<Mount>, wd: string)

  predicate Absolute(path: string) {
    path != "" && path[0] == '/'
  }

  // ------------------------------------------------------------- normal paths

  ghost predicate Normal(path: string) {
    Normalize(path) == path
  }

  lemma NormalFacts(path: string)
    requires Normal(path)
    ensures AllProper(Components(path)) && path == Render(Components(path)) && Absolute(path)
    ensures Resolved(path) == Components(path)
  {
    hide Components, Fold;
    NormalizeIdempotent(path);
    ResolvedProper(path);
  }

  lemma RenderNormal(cs: seq<Name>)
    requires AllProper(cs)
    ensures Normal(Render(cs)) && Components(Render(cs)) == cs
  {
    hide Components, Fold, Render;
    ComponentsOfRender(cs);
    FoldOfProper([], cs);
    assert [] + cs == cs;
  }

  lemma NormalizeNormal(path: string)
    ensures Normal(Normalize(path)) && Components(Normalize(path)) == Resolved(path)
  {
    hide Components, Fold, Normalize;
    NormalizeIdempotent(path);
  }

  lemma RootNormal()
    ensures Normal("/") && Components("/") == []
  {
    hide Components, Fold;
    RenderNormal([]);
  }

  // ------------------------------------------------------------- one mount point

  // `relative_to_mount`: the path as seen from a mount point.
  function RelativeToMount(path: string, point: string): Option<string> {
    if !Absolute(path) then None
    else if point == "/" then Some(path[1..])
    else if path == point then Some("")
    else if point <= path && |point| < |path| && path[|point|] == '/' then Some(path[|point| + 1..])
    else None
  }

  // A mount point with a remainder behind it.
  function Join(point: string, rest: string): string {
    if rest == "" then point
    else if point == "/" then "/" + rest
    else point + ("/" + rest)
  }

  lemma {:induction false} SlashedAppend(a: seq<Name>, b: seq<Name>)
    ensures Slashed(a + b) == Slashed(a) + Slashed(b)
    decreases |a|
  {
    if a == [] {
      assert a + b == b;
    } else {
      assert (a + b)[1..] == a[1..] + b;
      SlashedAppend(a[1..], b);
    }
  }

  lemma ComponentsOfAbsolute(rest: string)
    ensures Components("/" + rest) == Components(rest)
  {
    hide Components;
    ComponentsJoin("", rest);
    ComponentsOne("");
    assert "" + ("/" + rest) == "/" + rest;
  }

  // What the string test lets through really is below the mount point.
  lemma RelativeIsBelow(path: string, point: string)
    requires Normal(path) && Normal(point) && RelativeToMount(path, point).Some?
    ensures var rest := RelativeToMount(path, point).value;
      Components(path) == Components(point) + Components(rest) && Join(point, rest) == path
  {
    hide Components, Normalize, Render, AllProper;
    NormalFacts(path);
    RootNormal();
    var rest := RelativeToMount(path, point).value;
    ComponentsOne("");
    if point == "/" {
      ComponentsOfAbsolute(rest);
      assert path == "/" + rest;
    } else if path != point {
      assert path == point + ("/" + rest);
      ComponentsJoin(point, rest);
      assert rest != "" by { RestNotEmpty(path, point); }
    }
  }

  // A normal path other than "/" does not end with a slash.
  lemma RestNotEmpty(path: string, point: string)
    requires Normal(path) && Normal(point) && point != "/"
    ensures path != point + "/"
  {
    hide Components, Normalize, Slashed;
    NormalFacts(path);
    NormalFacts(point);
    assert point + ("/" + "") == point + "/";
    ComponentsJoin(point, "");
    ComponentsOne("");
    assert Components(point) + [] == Components(point);
  }

  // And what is below the mount point passes the string test.
  lemma BelowIsRelative(path: string, point: string)
    requires Normal(path) && Normal(point) && Components(point) <= Components(path)
    ensures RelativeToMount(path, point).Some?
  {
    hide Components, Normalize;
    NormalFacts(path);
    NormalFacts(point);
    var c, m := Components(path), Components(point);
    var rest := c[|m|..];
    assert c == m + rest;
    if m != [] && rest != [] {
      SlashedAppend(m, rest);
      assert path[|point|] == Slashed(rest)[0];
    } else if rest == [] {
      assert c == m;
    }
  }

  /**
   * The string test with its boundary check is the prefix test on components; mount point and
   * remainder join to the path.
   */
  lemma RelativeIff(path: string, point: string)
    requires Normal(path) && Normal(point)
    ensures RelativeToMount(path, point).Some? <==> Components(point) <= Components(path)
    ensures RelativeToMount(path, point).Some? ==>
      var rest := RelativeToMount(path, point).value;
      Components(rest) == Components(path)[|Components(point)|..] && Join(point, rest) == path
  {
    hide Components, Normalize, Join, RelativeToMount;
    if RelativeToMount(path, point).Some? {
      RelativeIsBelow(path, point);
    } else if Components(point) <= Components(path) {
      BelowIsRelative(path, point);
    }
  }

  lemma {:induction false} SlashedLonger(a: seq<Name>, b: seq<Name>)
    requires a <= b && AllProper(b)
    ensures |a| < |b| ==> |Slashed(b)| >= |Slashed(a)| + 2
  {
    var rest := b[|a|..];
    assert b == a + rest;
    SlashedAppend(a, rest);
    if rest != [] { assert rest[0] == b[|a|]; }
  }

  // Among mount points above one path, the longer string has more components.
  lemma LongerIff(path: string, p: string, q: string)
    requires Normal(p) && Normal(q) && Components(p) <= Components(path) && Components(q) <= Components(path)
    ensures |p| < |q| <==> |Components(p)| < |Components(q)|
    ensures |p| == |q| <==> p == q
  {
    hide Components, Normalize, Slashed;
    NormalFacts(p);
    NormalFacts(q);
    var a, b := Components(p), Components(q);
    if |a| <= |b| {
      assert a <= b;
      LongerByComponents(p, q);
    } else {
      assert b <= a;
      LongerByComponents(q, p);
    }
  }

  lemma LongerByComponents(p: string, q: string)
    requires Normal(p) && Normal(q) && Components(p) <= Components(q)
    ensures if |Components(p)| < |Components(q)| then |p| < |q| else p == q
  {
    hide Components, Normalize;
    NormalFacts(p);
    NormalFacts(q);
    var a, b := Components(p), Components(q);
    SlashedLonger(a, b);
    if |a| == |b| { assert a == b; }
  }

  // ------------------------------------------------------------- choosing the mount

  // `filter`, then `max_by_key` on the length, which keeps the last of equal ones.
  function FindIndex(mounts: seq<Mount>, path: string): (r: Option<nat>)
    ensures r.Some? ==> r.value < |mounts| && RelativeToMount(path, mounts[r.value].point).Some?
  {
    if mounts == [] then None
    else
      var n := |mounts| - 1;
      var best := FindIndex(mounts[..n], path);
      if RelativeToMount(path, mounts[n].point).Some?
        && (best.None? || |mounts[best.value].point| <= |mounts[n].point|)
      then Some(n) else best
  }

  // `find_fs`.
  function FindFs(mounts: seq<Mount>, path: string): Option<(nat, string)> {
    if !Absolute(path) then None
    else
      match FindIndex(mounts, path)
      case None => None
      case Some(i) => Some((i, RelativeToMount(path, mounts[i].point).value))
  }

  lemma {:induction false} FindIndexIsMax(mounts: seq<Mount>, path: string, j: nat)
    requires j < |mounts| && RelativeToMount(path, mounts[j].point).Some?
    ensures FindIndex(mounts, path).Some?
    ensures |mounts[j].point| <= |mounts[FindIndex(mounts, path).value].point|
    decreases |mounts|
  {
    hide RelativeToMount;
    var n := |mounts| - 1;
    if j < n { FindIndexIsMax(mounts[..n], path, j); }
  }

  ghost predicate DistinctPoints(mounts: seq<Mount>) {
    forall i, j :: 0 <= i < j < |mounts| ==> mounts[i].point != mounts[j].point
  }

  ghost predicate Inv(v: Router) {
    && (forall i :: 0 <= i < |v.mounts| ==> Normal(v.mounts[i].point))
    && DistinctPoints(v.mounts)
    && (exists i :: 0 <= i < |v.mounts| && v.mounts[i].point == "/")
    && Normal(v.wd)
  }

  /**
   * Every normal path is routed, to the mount whose components are the longest prefix of its own; the
   * remainder names the rest of the components and joins back to the path.
   */
  lemma RoutesToLongestPrefix(v: Router, path: string, j: nat)
    requires Inv(v) && Normal(path)
    ensures FindFs(v.mounts, path).Some?
    ensures var (i, rest) := FindFs(v.mounts, path).value;
      && i < |v.mounts|
      && var point := v.mounts[i].point;
      && Components(point) <= Components(path)
      && Components(rest) == Components(path)[|Components(point)|..]
      && Join(point, rest) == path
      && (j < |v.mounts| && j != i && Components(v.mounts[j].point) <= Components(path)
        ==> |Components(v.mounts[j].point)| < |Components(point)|)
  {
    hide Components, Normalize, Join, RelativeToMount, FindIndex;
    NormalFacts(path);
    RootNormal();
    var root :| 0 <= root < |v.mounts| && v.mounts[root].point == "/";
    RelativeIff(path, "/");
    FindIndexIsMax(v.mounts, path, root);
    var i := FindIndex(v.mounts, path).value;
    var point := v.mounts[i].point;
    RelativeIff(path, point);
    if j < |v.mounts| && j != i && Components(v.mounts[j].point) <= Components(path) {
      RelativeIff(path, v.mounts[j].point);
      FindIndexIsMax(v.mounts, path, j);
      LongerIff(path, v.mounts[j].point, point);
    }
  }

  // ------------------------------------------------------------- the working directory

  // `resolve_path`.
  function ResolvePath(wd: string, path: string): string {
    if Absolute(path) then Normalize(path)
    else if path == "" then wd
    else if wd != "" && wd[|wd| - 1] == '/' then Normalize(wd + path)
    else Normalize(wd + "/" + path)
  }

  lemma ComponentsBehind(wd: string, path: string)
    ensures wd != "" && wd[|wd| - 1] == '/' ==> Components(wd + path) == Components(wd) + Components(path)
    ensures Components(wd + "/" + path) == Components(wd) + Components(path)
  {
    hide Components;
    assert wd + "/" + path == wd + ("/" + path);
    ComponentsJoin(wd, path);
    if wd != "" && wd[|wd| - 1] == '/' {
      var front := wd[..|wd| - 1];
      assert wd == front + ("/" + "");
      assert wd + path == front + ("/" + path);
      ComponentsJoin(front, "");
      ComponentsJoin(front, path);
      ComponentsOne("");
    }
  }

  /** Resolving starts from the components of the working directory, or from none if the path is absolute. */
  lemma ResolveIsFold(wd: string, path: string)
    requires Normal(wd)
    ensures Normal(ResolvePath(wd, path))
    ensures Components(ResolvePath(wd, path)) == Fold(if Absolute(path) then [] else Components(wd), Components(path))
  {
    hide Components, Normalize, Fold;
    NormalFacts(wd);
    if Absolute(path) {
      NormalizeNormal(path);
    } else if path == "" {
      ComponentsOne("");
      FoldNone(Components(wd));
    } else {
      ComponentsBehind(wd, path);
      FoldAppend([], Components(wd), Components(path));
      NormalizeNormal(wd + path);
      NormalizeNormal(wd + "/" + path);
    }
  }

  // ------------------------------------------------------------- mount, unmount, change_directory

  function IndexOfPoint(mounts: seq<Mount>, point: string): (i: nat)
    ensures i <= |mounts|
    ensures i < |mounts| ==> mounts[i].point == point
    ensures forall j :: 0 <= j < i ==> mounts[j].point != point
  {
    if mounts == [] || mounts[0].point == point then 0 else 1 + IndexOfPoint(mounts[1..], point)
  }

  // `listing` is the answer of the one directory listing a call makes: an error, or none.
  function DoMount(v: Router, mountPoint: string, fs: nat, listing: Option<FsError>): (Router, Result<()>) {
    var point := Normalize(mountPoint);
    if point != "/" && FindFs(v.mounts, point).None? then (v, Err(FileNotFound))
    else if point != "/" && listing.Some? then
      (v, Err(if listing == Some(NotADirectory) then NotADirectory else FileNotFound))
    else
      var i := IndexOfPoint(v.mounts, point);
      if i < |v.mounts| then (v.(mounts := v.mounts[i := Mount(point, fs)]), Ok(()))
      else (v.(mounts := v.mounts + [Mount(point, fs)]), Ok(()))
  }

  // `Vec::retain(|m| m.mount_point != point)`.
  function Except(mounts: seq<Mount>, point: string): (r: seq<Mount>)
    ensures |r| <= |mounts|
  {
    if mounts == [] then []
    else (if mounts[0].point == point then [] else [mounts[0]]) + Except(mounts[1..], point)
  }

  function DoUnmount(v: Router, mountPoint: string): (Router, Result<bool>) {
    var point := Normalize(mountPoint);
    if point == "/" then (v, Err(InvalidInput))
    else
      var kept := Except(v.mounts, point);
      (v.(mounts := kept), Ok(|kept| < |v.mounts|))
  }

  function DoChangeDirectory(v: Router, path: string, listing: Option<FsError>): (Router, Result<()>) {
    var resolved := ResolvePath(v.wd, path);
    if FindFs(v.mounts, resolved).None? then (v, Err(FileNotFound))
    else if listing.Some? then (v, Err(listing.value))
    else (v.(wd := resolved), Ok(()))
  }

  /** A mount that succeeds stands at its point, in the place of the old one or last; the others stay. */
  lemma MountMeans(v: Router, mountPoint: string, fs: nat, listing: Option<FsError>)
    requires Inv(v)
    ensures
      var (after, r) := DoMount(v, mountPoint, fs, listing);
      var point := Normalize(mountPoint);
      && (r.Err? ==> after == v)
      && (r.Ok? ==>
          && after.wd == v.wd && Mount(point, fs) in after.mounts && |v.mounts| <= |after.mounts|
          && |after.mounts| == |v.mounts| + (if exists m :: m in v.mounts && m.point == point then 0 else 1)
          && forall i :: 0 <= i < |v.mounts| ==>
               after.mounts[i] == if v.mounts[i].point == point then Mount(point, fs) else v.mounts[i])
  {
    hide Normalize, FindFs, Normal, IndexOfPoint;
    var point := Normalize(mountPoint);
    var i := IndexOfPoint(v.mounts, point);
    var after := DoMount(v, mountPoint, fs, listing).0;
    if i < |v.mounts| {
      assert v.mounts[i] in v.mounts;
      assert DoMount(v, mountPoint, fs, listing).1.Ok? ==> after.mounts[i] == Mount(point, fs);
    } else if DoMount(v, mountPoint, fs, listing).1.Ok? {
      assert after.mounts[i] == Mount(point, fs);
    }
  }

  lemma {:induction false} ExceptMembers(mounts: seq<Mount>, point: string)
    ensures forall m :: m in Except(mounts, point) <==> m in mounts && m.point != point
    decreases |mounts|
  {
    if mounts != [] {
      ExceptMembers(mounts[1..], point);
      assert mounts == [mounts[0]] + mounts[1..];
    }
  }

  lemma {:induction false} ExceptDistinct(mounts: seq<Mount>, point: string)
    requires DistinctPoints(mounts)
    ensures DistinctPoints(Except(mounts, point))
    decreases |mounts|
  {
    if mounts != [] {
      ExceptDistinct(mounts[1..], point);
      ExceptMembers(mounts[1..], point);
      var r := Except(mounts[1..], point);
      assert forall j :: 0 <= j < |r| ==> r[j] in mounts[1..];
    }
  }

  lemma MountInv(v: Router, mountPoint: string, fs: nat, listing: Option<FsError>)
    requires Inv(v)
    ensures Inv(DoMount(v, mountPoint, fs, listing).0)
  {
    hide Normalize, Normal, FindFs, IndexOfPoint;
    var point := Normalize(mountPoint);
    NormalizeNormal(mountPoint);
    var (after, r) := DoMount(v, mountPoint, fs, listing);
    if r.Ok? {
      var root :| 0 <= root < |v.mounts| && v.mounts[root].point == "/";
      assert after.mounts[root].point == "/";
    }
  }

  lemma UnmountInv(v: Router, mountPoint: string)
    requires Inv(v)
    ensures Inv(DoUnmount(v, mountPoint).0)
  {
    hide Normalize, Except;
    var point := Normalize(mountPoint);
    var kept := Except(v.mounts, point);
    ExceptMembers(v.mounts, point);
    ExceptDistinct(v.mounts, point);
    var root :| 0 <= root < |v.mounts| && v.mounts[root].point == "/";
    if point != "/" {
      assert v.mounts[root] in kept;
      forall i | 0 <= i < |kept| ensures Normal(kept[i].point) {
        assert kept[i] in v.mounts;
      }
    }
  }

  datatype Action =
    | MountAt(point: string, fs: nat, listing: Option<FsError>)
    | UnmountAt(point: string)
    | ChangeTo(path: string, listing: Option<FsError>)

  function Step(v: Router, a: Action): Router {
    match a
    case MountAt(point, fs, listing) => DoMount(v, point, fs, listing).0
    case UnmountAt(point) => DoUnmount(v, point).0
    case ChangeTo(path, listing) => DoChangeDirectory(v, path, listing).0
  }

  function Run(v: Router, actions: seq<Action>): Router
    decreases |actions|
  {
    if actions == [] then v else Run(Step(v, actions[0]), actions[1..])
  }

  function Fresh(fs: nat): Router {
    Router([Mount("/", fs)], "/")
  }

  lemma FreshInv(fs: nat)
    ensures Inv(Fresh(fs))
  {
    RootNormal();
    assert Fresh(fs).mounts[0].point == "/";
  }

  lemma StepInv(v: Router, a: Action)
    requires Inv(v)
    ensures Inv(Step(v, a))
  {
    hide DoMount, DoUnmount, FindFs, ResolvePath, Normalize;
    match a
    case MountAt(point, fs, listing) => MountInv(v, point, fs, listing);
    case UnmountAt(point) => UnmountInv(v, point);
    case ChangeTo(path, listing) => ResolveIsFold(v.wd, path);
  }

  /** Over every run the mount points stay normal, distinct and with "/" among them. */
  lemma {:induction false} RunInv(v: Router, actions: seq<Action>)
    requires Inv(v)
    ensures Inv(Run(v, actions))
    decreases |actions|
  {
    hide Step, Inv;
    if actions != [] {
      StepInv(v, actions[0]);
      RunInv(Step(v, actions[0]), actions[1..]);
    }
  }

  /** After any run, every path is routed: relative ones from the working directory, to the longest prefix. */
  lemma {:induction false} RoutingOverEveryRun(fs: nat, actions: seq<Action>, path: string, j: nat)
    ensures var v := Run(Fresh(fs), actions);
      var goal := Fold(if Absolute(path) then [] else Components(v.wd), Components(path));
      && FindFs(v.mounts, ResolvePath(v.wd, path)).Some?
      && var (i, rest) := FindFs(v.mounts, ResolvePath(v.wd, path)).value;
      && i < |v.mounts|
      && goal == Components(v.mounts[i].point) + Components(rest)
      && (j < |v.mounts| && j != i && Components(v.mounts[j].point) <= goal
        ==> |Components(v.mounts[j].point)| < |Components(v.mounts[i].point)|)
  {
    hide Run, Components, Fold, FindFs, ResolvePath, Normalize, Join;
    FreshInv(fs);
    RunInv(Fresh(fs), actions);
    var v := Run(Fresh(fs), actions);
    ResolveIsFold(v.wd, path);
    RoutesToLongestPrefix(v, ResolvePath(v.wd, path), j);
  }

  /** Unmounting undoes a mount on a point that was free. */
  lemma UnmountUndoesMount(v: Router, mountPoint: string, fs: nat, listing: Option<FsError>)
    requires Inv(v) && DoMount(v, mountPoint, fs, listing).1.Ok?
    requires IndexOfPoint(v.mounts, Normalize(mountPoint)) == |v.mounts|
    ensures DoUnmount(DoMount(v, mountPoint, fs, listing).0, mountPoint) == (v, Ok(true))
  {
    hide Normalize, FindFs;
    var point := Normalize(mountPoint);
    var root :| 0 <= root < |v.mounts| && v.mounts[root].point == "/";
    ExceptAppended(v.mounts, Mount(point, fs));
  }

  lemma {:induction false} ExceptAppended(mounts: seq<Mount>, added: Mount)
    requires forall j :: 0 <= j < |mounts| ==> mounts[j].point != added.point
    ensures Except(mounts + [added], added.point) == mounts
    decreases |mounts|
  {
    var all := mounts + [added];
    if mounts == [] {
      assert all[1..] == [];
      assert Except(all[1..], added.point) == [];
    } else {
      assert all[1..] == mounts[1..] + [added];
      ExceptAppended(mounts[1..], added);
    }
  }

  // ------------------------------------------------------------- the object

  class Vfs {
    var mounts: seq<Mount>
    var wd: string

    ghost function Value(): Router
      reads this
    {
      Router(mounts, wd)
    }

    constructor (rootFs: nat)
      ensures Value() == Fresh(rootFs) && Inv(Value())
    {
      mounts := [Mount("/", rootFs)];
      wd := "/";
      FreshInv(rootFs);
    }

    method Resolve(path: string) returns (r: string)
      ensures r == ResolvePath(wd, path)
    {
      hide Normalize;
      if Absolute(path) {
        r := NormalizePath(path);
      } else if path == "" {
        r := wd;
      } else {
        var base := if wd != "" && wd[|wd| - 1] == '/' then wd else wd + "/";
        r := NormalizePath(base + path);
      }
    }

    method MountFs(mountPoint: string, fs: nat, listing: Option<FsError>) returns (r: Result<()>)
      modifies this`mounts
      ensures (Value(), r) == DoMount(old(Value()), mountPoint, fs, listing)
      ensures Inv(old(Value())) ==> Inv(Value())
    {
      hide Normalize, FindFs, Inv;
      if Inv(Value()) { MountInv(Value(), mountPoint, fs, listing); }
      var point := NormalizePath(mountPoint);
      if point != "/" {
        if FindFs(mounts, point).None? { return Err(FileNotFound); }
        if listing.Some? { return Err(if listing == Some(NotADirectory) then NotADirectory else FileNotFound); }
      }
      var i := IndexOfPoint(mounts, point);
      if i < |mounts| {
        mounts := mounts[i := Mount(point, fs)];
      } else {
        mounts := mounts + [Mount(point, fs)];
      }
      r := Ok(());
    }

    method Unmount(mountPoint: string) returns (r: Result<bool>)
      modifies this`mounts
      ensures (Value(), r) == DoUnmount(old(Value()), mountPoint)
      ensures Inv(old(Value())) ==> Inv(Value())
    {
      hide Normalize, Inv;
      if Inv(Value()) { UnmountInv(Value(), mountPoint); }
      var point := NormalizePath(mountPoint);
      if point == "/" { return Err(InvalidInput); }
      var before := |mounts|;
      mounts := Except(mounts, point);
      r := Ok(|mounts| < before);
    }

    method ChangeDirectory(path: string, listing: Option<FsError>) returns (r: Result<()>)
      modifies this`wd
      ensures (Value(), r) == DoChangeDirectory(old(Value()), path, listing)
      ensures Inv(old(Value())) ==> Inv(Value())
    {
      hide Normalize, Inv, ResolvePath, FindFs;
      if Inv(Value()) { StepInv(Value(), ChangeTo(path, listing)); }
      var resolved := Resolve(path);
      if FindFs(mounts, resolved).None? { return Err(FileNotFound); }
      if listing.Some? { return Err(listing.value); }
      wd := resolved;
      r := Ok(());
    }
  }
}
