/**
 * The file systems behind the mount router: in-memory file systems, one per mount, seen through
 * resolved paths. What an operation on a path changes for every other path, whichever mount it is on.
 */
module VirtualFs {
  import opened Arithmetic
  import opened Wrappers
  import opened Paths
  import opened Tree
  import M = MemFs
  import D = Descriptors
  import R = Mounts

  datatype World = World(router: R.Router, stores: map<nat, M.Fs>)

  // Every mount owns a file system of its own.
  ghost predicate Inv(w: World) {
    var mounts := w.router.mounts;
    && R.Inv(w.router)
    && (forall i :: 0 <= i < |mounts| ==> mounts[i].fs in w.stores && D.Inv(w.stores[mounts[i].fs]))
    && (forall i, j :: 0 <= i < j < |mounts| ==> mounts[i].fs != mounts[j].fs)
  }

  // What a path shows: a kind and the bytes.
  datatype Node = Node(kind: Kind, data: seq<byte>)

  function NodeAt(fs: M.Fs, at: Option<nat>): Option<Node> {
    match at
    case None => None
    case Some(n) => if n in fs.inodes then Some(Node(fs.inodes[n].kind, fs.inodes[n].data)) else None
  }

  // ------------------------------------------------------------- one file system

  // The node a list of names leads to.
  function NodeOf(fs: M.Fs, cs: seq<Name>): Option<Node> {
    NodeAt(fs, Follow(fs.inodes, cs, ROOT))
  }

  // A path made of proper names only.
  ghost predicate Plain(path: string) {
    AllProper(Components(path))
  }

  lemma PlainFacts(fs: M.Fs, path: string)
    requires D.Inv(fs) && Plain(path)
    ensures Resolved(path) == Components(path)
    ensures Lookup(fs.inodes, path) == Follow(fs.inodes, Components(path), ROOT)
  {
    hide Components, Fold, Follow, Lookup;
    FoldOfProper([], Components(path));
    assert [] + Components(path) == Components(path);
    LookupIsFollow(fs.inodes, fs.nextIno, path);
  }

  // In a tree a walk that arrives arrives at an inode.
  lemma {:induction false} FollowArrives(fs: M.Fs, cs: seq<Name>)
    requires D.Inv(fs) && AllProper(cs)
    ensures match Follow(fs.inodes, cs, ROOT)
      case None => true
      case Some(n) => n in fs.inodes && n < fs.nextIno
  {
    hide Follow, PathOf, NodeOk, AllProper, ChildrenOk, SiblingsDiffer;
    var r := Follow(fs.inodes, cs, ROOT);
    if r.Some? { ProperPathIff(fs.inodes, fs.nextIno, cs, r.value); }
  }

  lemma CreateNode(fs: M.Fs, path: string, kind: Kind, cs: seq<Name>)
    requires D.Inv(fs) && Plain(path) && AllProper(cs) && M.Create(fs, path, kind).1.Some?
    ensures D.Inv(M.Create(fs, path, kind).0)
    ensures NodeOf(M.Create(fs, path, kind).0, cs)
      == if cs == Components(path) then Some(Node(kind, [])) else NodeOf(fs, cs)
  {
    hide Components, Follow, Lookup, M.LookupParent, TreeInv, AllProper;
    PlainFacts(fs, path);
    M.CreateEffect(fs, path, kind, cs);
    FollowArrives(fs, cs);
    D.CreateStep(fs, path, kind);
  }

  lemma UnlinkNode(fs: M.Fs, path: string, cs: seq<Name>)
    requires D.Inv(fs) && Plain(path) && AllProper(cs) && M.Unlink(fs, path).1.Ok?
    ensures D.Inv(M.Unlink(fs, path).0)
    ensures NodeOf(M.Unlink(fs, path).0, cs) == if cs == Components(path) then None else NodeOf(fs, cs)
  {
    hide Components, Follow, Lookup, M.LookupParent, TreeInv, AllProper, FindNamed, M.Without;
    PlainFacts(fs, path);
    M.UnlinkEffect(fs, path, cs);
    D.UnlinkStep(fs, path);
    FollowArrives(fs, cs);
    FollowArrives(M.Unlink(fs, path).0, cs);
  }

  ghost predicate IsDirectory(node: Option<Node>) {
    node.Some? && node.value.kind.Directory?
  }

  /** Creation succeeds exactly where nothing is and the names before the last lead to a directory. */
  lemma CreateSucceedsIff(fs: M.Fs, path: string, kind: Kind)
    requires D.Inv(fs) && Plain(path)
    ensures
      var cs := Components(path);
      M.Create(fs, path, kind).1.Some? <==>
        (cs != [] && NodeOf(fs, cs).None? && IsDirectory(NodeOf(fs, cs[..|cs| - 1])))
  {
    hide Components, Follow, Lookup, M.LookupParent, NodeOk, ChildrenOk, SiblingsDiffer, M.Insert;
    var cs := Components(path);
    PlainFacts(fs, path);
    FollowArrives(fs, cs);
    M.ParentFoundIff(fs.inodes, fs.nextIno, path);
    FollowNone(fs.inodes, ROOT);
    if M.LookupParent(fs.inodes, path).Some? {
      var front := M.ParentComponents(fs.inodes, fs.nextIno, path);
      assert cs[..|cs| - 1] == front;
      FollowArrives(fs, front);
    }
  }

  // Something is listed below these names.
  ghost predicate HasEntries(fs: M.Fs, cs: seq<Name>) {
    exists n: Name {:trigger Proper(n)} :: Proper(n) && Follow(fs.inodes, cs + [n], ROOT).Some?
  }

  lemma {:induction false} ChildrenAreEntries(fs: M.Fs, cs: seq<Name>, i: nat)
    requires D.Inv(fs) && AllProper(cs) && Follow(fs.inodes, cs, ROOT) == Some(i) && i in fs.inodes
    ensures fs.inodes[i].children != [] <==> HasEntries(fs, cs)
  {
    hide Follow, AllProper, SiblingsDiffer, FindNamed, NoDuplicates;
    var t := fs.inodes;
    if t[i].children != [] {
      var c := t[i].children[0];
      assert ChildOk(t, i, c) && NodeOk(t, c);
      LookupChildIff(t, fs.nextIno, i, c, t[c].name);
      FollowAppend(t, cs, [t[c].name], ROOT);
      FollowOne(t, t[c].name, i);
    }
    if HasEntries(fs, cs) {
      var n: Name :| Proper(n) && Follow(t, cs + [n], ROOT).Some?;
      FollowAppend(t, cs, [n], ROOT);
      FollowOne(t, n, i);
      FindNamedFound(t, t[i].children, n);
    }
  }

  // For proper names `unlink` finds the child that the whole path leads to.
  lemma UnlinkFinds(fs: M.Fs, path: string)
    requires D.Inv(fs) && Plain(path)
    ensures
      var cs := Components(path);
      match M.LookupParent(fs.inodes, path)
      case None => cs == [] || Follow(fs.inodes, cs, ROOT).None?
      case Some((dir, name)) =>
        cs != [] && LookupChild(fs.inodes, dir, name) == Follow(fs.inodes, cs, ROOT)
  {
    hide Components, Follow, Lookup, M.LookupParent, NodeOk, ChildrenOk, SiblingsDiffer, FindNamed;
    var cs := Components(path);
    M.ParentFoundIff(fs.inodes, fs.nextIno, path);
    if cs != [] {
      var front, last := cs[..|cs| - 1], cs[|cs| - 1];
      assert cs == front + [last] && Proper(last);
      FollowAppend(fs.inodes, front, [last], ROOT);
      if M.LookupParent(fs.inodes, path).Some? {
        var other := M.ParentComponents(fs.inodes, fs.nextIno, path);
        assert other == front;
        FollowOne(fs.inodes, last, M.LookupParent(fs.inodes, path).value.0);
      }
    }
  }

  /** Unlinking succeeds exactly for what is there, is not the root, and is no directory with entries. */
  lemma UnlinkSucceedsIff(fs: M.Fs, path: string)
    requires D.Inv(fs) && Plain(path)
    ensures
      var cs := Components(path);
      M.Unlink(fs, path).1.Ok? <==>
        (cs != [] && NodeOf(fs, cs).Some? && (IsDirectory(NodeOf(fs, cs)) ==> !HasEntries(fs, cs)))
  {
    hide Components, Follow, Lookup, M.LookupParent, D.Inv, LookupChild, HasEntries, M.Remove, AllProper;
    var cs := Components(path);
    UnlinkFinds(fs, path);
    FollowArrives(fs, cs);
    if NodeOf(fs, cs).Some? { ChildrenAreEntries(fs, cs, Follow(fs.inodes, cs, ROOT).value); }
  }

  /** What is there has a directory above it. */
  lemma ParentIsDirectory(fs: M.Fs, cs: seq<Name>)
    requires D.Inv(fs) && AllProper(cs) && cs != [] && NodeOf(fs, cs).Some?
    ensures IsDirectory(NodeOf(fs, cs[..|cs| - 1]))
  {
    hide Follow, FindNamed, SiblingsDiffer, ChildrenOk, NoDuplicates, PathOf;
    var t, front, last := fs.inodes, cs[..|cs| - 1], cs[|cs| - 1];
    assert cs == front + [last] && Proper(last);
    FollowAppend(t, front, [last], ROOT);
    var d := Follow(t, front, ROOT).value;
    FollowOne(t, last, d);
    var c := Follow(t, cs, ROOT).value;
    LookupChildIff(t, fs.nextIno, d, c, last);
    assert NodeOk(t, c);
  }

  /** The kernel's `create_file` on one file system: create unless there, open, write, close. */
  function CreateFile(fs: M.Fs, path: string, data: seq<byte>): (M.Fs, Result<()>) {
    var there := Lookup(fs.inodes, path).Some?;
    var made := if there then fs else M.Create(fs, path, File).0;
    if !there && M.Create(fs, path, File).1.None? then (fs, Err(PermissionDenied))
    else
      match D.Open(made, path, 0)
      case (open, None) => (open, Err(FileNotFound))
      case (open, Some(d)) =>
        if data == [] then (D.Close(open, d.fd).0, Ok(()))
        else
          match D.Write(open, d.fd, data)
          case (written, Err(e)) => (D.Close(written, d.fd).0, Err(e))
          case (written, Ok(_)) => (D.Close(written, d.fd).0, Ok(()))
  }

  lemma {:induction false} SetDataFollows(t: Inodes, bound: nat, i: nat, data: seq<byte>, cs: seq<Name>)
    requires TreeInv(t, bound) && i in t && AllProper(cs)
    ensures TreeInv(M.SetData(t, i, data), bound)
    ensures Follow(M.SetData(t, i, data), cs, ROOT) == Follow(t, cs, ROOT)
  {
    hide TreeInv, Follow, AllProper;
    M.SetDataInv(t, bound, i, data);
    M.WithinAgrees(t, bound, M.SetData(t, i, data), bound, cs);
    var r := Follow(M.SetData(t, i, data), cs, ROOT);
    if r.Some? { ArrivesInTree(M.SetData(t, i, data), bound, cs); }
  }

  lemma {:induction false} ArrivesInTree(t: Inodes, bound: nat, cs: seq<Name>)
    requires TreeInv(t, bound) && AllProper(cs) && Follow(t, cs, ROOT).Some?
    ensures Follow(t, cs, ROOT).value in t
  {
    hide TreeInv, Follow, PathOf, AllProper;
    ProperPathIff(t, bound, cs, Follow(t, cs, ROOT).value);
  }

  // The state in which a new, empty file stands before it is written.
  lemma NewFileOpens(fs: M.Fs, path: string)
    requires D.Inv(fs) && M.Create(fs, path, File).1.Some?
    ensures
      var made := M.Create(fs, path, File).0;
      && D.Inv(made) && Lookup(fs.inodes, path).None? && Lookup(made.inodes, path) == Some(fs.nextIno)
      && fs.nextIno in made.inodes && made.inodes[fs.nextIno].kind == File && made.inodes[fs.nextIno].data == []
      && made.nextIno == fs.nextIno + 1
  {
    hide Lookup, M.LookupParent, NodeOk, ChildrenOk, SiblingsDiffer;
    D.CreateStep(fs, path, File);
    M.CreatedIsFound(fs, path, File, path);
  }

  /** Writing a new file puts its bytes under its path and changes no other. */
  lemma CreateFileNode(fs: M.Fs, path: string, data: seq<byte>, cs: seq<Name>)
    requires D.Inv(fs) && Plain(path) && AllProper(cs) && |data| < WORD
    requires M.Create(fs, path, File).1.Some?
    ensures
      var (after, r) := CreateFile(fs, path, data);
      && r.Ok? && D.Inv(after)
      && NodeOf(after, cs) == if cs == Components(path) then Some(Node(File, data)) else NodeOf(fs, cs)
  {
    hide Components, Follow, Lookup, M.Create, TreeInv, AllProper, D.WriteAt;
    var made, ino := M.Create(fs, path, File).0, fs.nextIno;
    NewFileOpens(fs, path);
    CreateNode(fs, path, File, cs);
    FollowArrives(fs, cs);
    M.CreateEffect(fs, path, File, cs);
    PlainFacts(fs, path);
    D.OpenStep(made, path, 0);
    var open := D.Open(made, path, 0).0;
    if data != [] {
      D.WriteStep(open, made.nextFd, data);
      assert D.WriteAt([], 0, data) == data by { WriteFresh(data); }
      SetDataFollows(made.inodes, made.nextIno, ino, data, cs);
    }
  }

  /** It leaves no descriptor behind, whether it succeeds or not, and changes none. */
  lemma CreateFileCloses(fs: M.Fs, path: string, data: seq<byte>, fd: nat)
    ensures
      var after := CreateFile(fs, path, data).0;
      fd in after.fds ==> fd in fs.fds && after.fds[fd] == fs.fds[fd]
  {
    hide Lookup, M.LookupParent, FindNamed, D.WriteAt;
  }

  lemma WriteFresh(data: seq<byte>)
    ensures D.WriteAt([], 0, data) == data
  {
    var r := D.WriteAt([], 0, data);
    assert r[0..|data|] == r;
  }

  // ------------------------------------------------------------- all file systems

  // The file system an absolute path belongs to, and the path as that one sees it.
  function SpotOf(w: World, at: string): Option<(nat, string)> {
    match R.FindFs(w.router.mounts, at)
    case None => None
    case Some((i, rest)) =>
      if i < |w.router.mounts| && w.router.mounts[i].fs in w.stores then Some((w.router.mounts[i].fs, rest)) else None
  }

  function ViewAt(w: World, at: string): Option<Node> {
    match SpotOf(w, at)
    case None => None
    case Some((id, rest)) =>
      if id in w.stores then NodeAt(w.stores[id], Lookup(w.stores[id].inodes, rest)) else None
  }

  // What the whole system shows under a list of names.
  function View(w: World, cs: seq<Name>): Option<Node> {
    ViewAt(w, Render(cs))
  }

  // The names a path given by the user stands for.
  function Goal(w: World, path: string): seq<Name> {
    Fold(if R.Absolute(path) then [] else Components(w.router.wd), Components(path))
  }

  lemma GoalFacts(w: World, path: string)
    requires Inv(w)
    ensures AllProper(Goal(w, path)) && R.ResolvePath(w.router.wd, path) == Render(Goal(w, path))
  {
    hide Components, Fold, R.ResolvePath, Render, R.Normal;
    R.ResolveIsFold(w.router.wd, path);
    R.NormalFacts(R.ResolvePath(w.router.wd, path));
  }

  lemma SpotFacts(w: World, cs: seq<Name>)
    requires Inv(w) && AllProper(cs)
    ensures SpotOf(w, Render(cs)).Some?
    ensures
      var (id, rest) := SpotOf(w, Render(cs)).value;
      && id in w.stores && D.Inv(w.stores[id]) && Plain(rest)
      && View(w, cs) == NodeOf(w.stores[id], Components(rest))
  {
    hide Components, Fold, Render, R.FindFs, R.Normal, Follow, Lookup, R.Join, D.Inv;
    R.RenderNormal(cs);
    R.RoutesToLongestPrefix(w.router, Render(cs), 0);
    var (id, rest) := SpotOf(w, Render(cs)).value;
    assert forall i :: 0 <= i < |Components(rest)| ==> Components(rest)[i] == cs[|cs| - |Components(rest)| + i];
    PlainFacts(w.stores[id], rest);
  }

  // Two lists of names on one file system are the same when what it sees of them is.
  lemma SpotsDiffer(w: World, g: seq<Name>, cs: seq<Name>)
    requires Inv(w) && AllProper(g) && AllProper(cs)
    requires SpotOf(w, Render(g)).Some? && SpotOf(w, Render(cs)).Some?
    ensures
      var (a, r) := SpotOf(w, Render(g)).value;
      var (b, q) := SpotOf(w, Render(cs)).value;
      cs == g <==> a == b && Components(q) == Components(r)
  {
    hide Components, Fold, Render, R.FindFs, R.Normal, R.Join, D.Inv;
    R.RenderNormal(g);
    R.RenderNormal(cs);
    R.RoutesToLongestPrefix(w.router, Render(g), 0);
    R.RoutesToLongestPrefix(w.router, Render(cs), 0);
    var (i, r) := R.FindFs(w.router.mounts, Render(g)).value;
    var (j, q) := R.FindFs(w.router.mounts, Render(cs)).value;
    var m := |Components(w.router.mounts[i].point)|;
    if i == j && Components(q) == Components(r) {
      assert g == g[..m] + g[m..] && cs == cs[..m] + cs[m..];
    }
  }

  function WithStore(w: World, id: nat, fs: M.Fs): World {
    w.(stores := w.stores[id := fs])
  }

  // A change of one file system, seen from everywhere.
  lemma StoreChanged(w: World, g: seq<Name>, fs: M.Fs, cs: seq<Name>)
    requires Inv(w) && AllProper(g) && AllProper(cs) && D.Inv(fs) && SpotOf(w, Render(g)).Some?
    ensures
      var (id, rest) := SpotOf(w, Render(g)).value;
      var w' := WithStore(w, id, fs);
      && Inv(w') && SpotOf(w, Render(cs)).Some?
      && var (b, q) := SpotOf(w, Render(cs)).value;
      && Plain(q) && View(w', cs) == (if b == id then NodeOf(fs, Components(q)) else View(w, cs))
      && (cs == g <==> b == id && Components(q) == Components(rest))
  {
    hide Components, Fold, Render, R.FindFs, Follow, Lookup, D.Inv, R.Inv, AllProper;
    var (id, rest) := SpotOf(w, Render(g)).value;
    SpotFacts(w, cs);
    SpotsDiffer(w, g, cs);
    var w' := WithStore(w, id, fs);
    SpotFacts(w', cs);
  }

  // ------------------------------------------------------------- operations by absolute path

  function CreateAt(w: World, at: string, kind: Kind): (World, Option<nat>) {
    match SpotOf(w, at)
    case None => (w, None)
    case Some((id, rest)) =>
      if id !in w.stores then (w, None)
      else
        var (fs, r) := M.Create(w.stores[id], rest, kind);
        (WithStore(w, id, fs), r)
  }

  function UnlinkAt(w: World, at: string): (World, Result<()>) {
    match SpotOf(w, at)
    case None => (w, Err(FileNotFound))
    case Some((id, rest)) =>
      if id !in w.stores then (w, Err(FileNotFound))
      else
        var (fs, r) := M.Unlink(w.stores[id], rest);
        (WithStore(w, id, fs), r)
  }

  function MkdirAt(w: World, at: string): (World, Result<()>) {
    match SpotOf(w, at)
    case None => (w, Err(FileNotFound))
    case Some((id, rest)) =>
      if id !in w.stores then (w, Err(FileNotFound))
      else
        var (fs, r) := M.Mkdir(w.stores[id], rest);
        (WithStore(w, id, fs), r)
  }

  function CreateFileAt(w: World, at: string, data: seq<byte>): (World, Result<()>) {
    match SpotOf(w, at)
    case None => (w, Err(FileNotFound))
    case Some((id, rest)) =>
      if id !in w.stores then (w, Err(FileNotFound))
      else
        var (fs, r) := CreateFile(w.stores[id], rest, data);
        (WithStore(w, id, fs), r)
  }

  /** Creating changes what the whole system shows under one list of names, to an empty node. */
  lemma CreateView(w: World, g: seq<Name>, kind: Kind, cs: seq<Name>)
    requires Inv(w) && AllProper(g) && AllProper(cs)
    ensures
      var (w', r) := CreateAt(w, Render(g), kind);
      && Inv(w')
      && View(w', cs) == if r.Some? && cs == g then Some(Node(kind, [])) else View(w, cs)
  {
    hide Components, Render, Follow, Lookup, D.Inv, M.Create, Inv, SpotOf, AllProper;
    SpotFacts(w, g);
    SpotFacts(w, cs);
    var (id, rest) := SpotOf(w, Render(g)).value;
    var (b, q) := SpotOf(w, Render(cs)).value;
    var fs := M.Create(w.stores[id], rest, kind).0;
    FailedCreate(w.stores[id], rest, kind);
    if M.Create(w.stores[id], rest, kind).1.Some? {
      CreateNode(w.stores[id], rest, kind, Components(q));
    }
    StoreChanged(w, g, fs, cs);
  }

  lemma UnlinkView(w: World, g: seq<Name>, cs: seq<Name>)
    requires Inv(w) && AllProper(g) && AllProper(cs)
    ensures
      var (w', r) := UnlinkAt(w, Render(g));
      Inv(w') && View(w', cs) == if r.Ok? && cs == g then None else View(w, cs)
  {
    hide Components, Render, Follow, Lookup, D.Inv, M.Unlink, Inv, SpotOf, AllProper;
    SpotFacts(w, g);
    SpotFacts(w, cs);
    var (id, rest) := SpotOf(w, Render(g)).value;
    var (b, q) := SpotOf(w, Render(cs)).value;
    FailedUnlink(w.stores[id], rest);
    if M.Unlink(w.stores[id], rest).1.Ok? { UnlinkNode(w.stores[id], rest, Components(q)); }
    StoreChanged(w, g, M.Unlink(w.stores[id], rest).0, cs);
  }

  lemma FailedUnlink(fs: M.Fs, path: string)
    ensures M.Unlink(fs, path).1.Err? ==> M.Unlink(fs, path).0 == fs
  {
    hide M.LookupParent, LookupFrom, FindNamed, M.Without;
  }

  // The names lead below the mount point they are routed to, not to it.
  ghost predicate Inside(w: World, g: seq<Name>) {
    SpotOf(w, Render(g)).Some? && Components(SpotOf(w, Render(g)).value.1) != []
  }

  // A directory with something listed in it, on its own file system.
  ghost predicate Occupied(w: World, g: seq<Name>) {
    && SpotOf(w, Render(g)).Some? && SpotOf(w, Render(g)).value.0 in w.stores
    && HasEntries(w.stores[SpotOf(w, Render(g)).value.0], Components(SpotOf(w, Render(g)).value.1))
  }

  // Something is shown that is no mount point and, if a directory, empty.
  ghost predicate Removable(w: World, g: seq<Name>) {
    View(w, g).Some? && Inside(w, g) && (IsDirectory(View(w, g)) ==> !Occupied(w, g))
  }

  /** Unlinking succeeds exactly for what is shown, is no mount point, and is no directory with entries. */
  lemma UnlinkViewIff(w: World, g: seq<Name>)
    requires Inv(w) && AllProper(g)
    ensures UnlinkAt(w, Render(g)).1.Ok? <==> Removable(w, g)
  {
    hide Components, Render, Follow, Lookup, D.Inv, M.Unlink, Inv, SpotOf, AllProper, ViewAt, NodeOf, HasEntries;
    SpotFacts(w, g);
    var (id, rest) := SpotOf(w, Render(g)).value;
    UnlinkSucceedsIff(w.stores[id], rest);
  }

  /** A mount point shows a directory, and so does the parent of what is shown below one. */
  lemma InsideParent(w: World, g: seq<Name>)
    requires Inv(w) && AllProper(g)
    ensures !Inside(w, g) ==> IsDirectory(View(w, g))
    ensures Inside(w, g) ==> g != []
    ensures Inside(w, g) && View(w, g).Some? ==> IsDirectory(View(w, g[..|g| - 1]))
  {
    hide Components, Render, Follow, Lookup, D.Inv, Inv, SpotOf, ViewAt, NodeOf;
    SpotFacts(w, g);
    var (id, rest) := SpotOf(w, Render(g)).value;
    if Inside(w, g) {
      if g == [] { NothingBelow(w, rest); }
      ParentSpot(w, g);
      SpotFacts(w, g[..|g| - 1]);
      if View(w, g).Some? { ParentIsDirectory(w.stores[id], Components(rest)); }
    } else {
      RootNode(w.stores[id]);
    }
  }

  lemma MkdirIsCreate(w: World, at: string)
    ensures MkdirAt(w, at).0 == CreateAt(w, at, Directory).0
  {
    hide M.Mkdir, M.Create, SpotOf;
    match SpotOf(w, at)
    case None =>
    case Some((id, rest)) => if id in w.stores { FailedCreate(w.stores[id], rest, Directory); }
  }

  // A name below a mount point and its parent are on the same file system.
  lemma ParentSpot(w: World, g: seq<Name>)
    requires Inv(w) && AllProper(g) && g != [] && SpotOf(w, Render(g)).Some?
    requires Components(SpotOf(w, Render(g)).value.1) != []
    ensures
      var (id, rest) := SpotOf(w, Render(g)).value;
      var cs := Components(rest);
      && SpotOf(w, Render(g[..|g| - 1])).Some?
      && var (b, q) := SpotOf(w, Render(g[..|g| - 1])).value;
      b == id && Components(q) == cs[..|cs| - 1]
  {
    hide Components, Fold, Render, R.FindFs, R.Normal, R.Join, D.Inv;
    var front := g[..|g| - 1];
    R.RenderNormal(g);
    R.RenderNormal(front);
    R.RoutesToLongestPrefix(w.router, Render(g), 0);
    R.RoutesToLongestPrefix(w.router, Render(front), 0);
    var i := R.FindFs(w.router.mounts, Render(g)).value.0;
    var j := R.FindFs(w.router.mounts, Render(front)).value.0;
    R.RoutesToLongestPrefix(w.router, Render(g), j);
    R.RoutesToLongestPrefix(w.router, Render(front), i);
  }

  /** Creation succeeds exactly where the system shows nothing, below a directory. */
  lemma CreateViewIff(w: World, g: seq<Name>, kind: Kind)
    requires Inv(w) && AllProper(g)
    ensures CreateAt(w, Render(g), kind).1.Some? <==>
      (g != [] && View(w, g).None? && IsDirectory(View(w, g[..|g| - 1])))
  {
    hide Components, Render, Follow, Lookup, D.Inv, M.Create, Inv, SpotOf, ViewAt;
    SpotFacts(w, g);
    var (id, rest) := SpotOf(w, Render(g)).value;
    CreateSucceedsIff(w.stores[id], rest, kind);
    if Components(rest) == [] {
      RootNode(w.stores[id]);
    } else {
      if g == [] { NothingBelow(w, rest); }
      ParentSpot(w, g);
      SpotFacts(w, g[..|g| - 1]);
    }
  }

  lemma RootNode(fs: M.Fs)
    requires D.Inv(fs)
    ensures IsDirectory(NodeOf(fs, []))
  {
    FollowNone(fs.inodes, ROOT);
  }

  lemma NothingBelow(w: World, rest: string)
    requires Inv(w) && SpotOf(w, Render([])).Some? && SpotOf(w, Render([])).value.1 == rest
    ensures Components(rest) == []
  {
    hide Components, Fold, Render, R.FindFs, R.Normal, R.Join, D.Inv;
    R.RenderNormal([]);
    R.RoutesToLongestPrefix(w.router, Render([]), 0);
  }

  /** Writing a new file shows its bytes under its names and changes nothing else. */
  lemma CreateFileView(w: World, g: seq<Name>, data: seq<byte>, cs: seq<Name>)
    requires Inv(w) && AllProper(g) && AllProper(cs) && |data| < WORD
    requires g != [] && View(w, g).None? && IsDirectory(View(w, g[..|g| - 1]))
    ensures
      var (w', r) := CreateFileAt(w, Render(g), data);
      && r.Ok? && Inv(w')
      && View(w', cs) == if cs == g then Some(Node(File, data)) else View(w, cs)
  {
    hide Components, Render, Follow, Lookup, D.Inv, M.Create, Inv, SpotOf, AllProper, CreateFile, ViewAt;
    CreateViewIff(w, g, File);
    SpotFacts(w, g);
    SpotFacts(w, cs);
    var (id, rest) := SpotOf(w, Render(g)).value;
    var (b, q) := SpotOf(w, Render(cs)).value;
    CreateFileNode(w.stores[id], rest, data, Components(q));
    StoreChanged(w, g, CreateFile(w.stores[id], rest, data).0, cs);
  }

  // A file system that cannot create leaves everything as it is.
  lemma CreateRefused(w: World, g: seq<Name>, kind: Kind, data: seq<byte>)
    requires Inv(w) && AllProper(g)
    requires View(w, g).None? && !(g != [] && IsDirectory(View(w, g[..|g| - 1])))
    ensures CreateAt(w, Render(g), kind).0 == w && CreateFileAt(w, Render(g), data).0 == w
  {
    hide Components, Render, Follow, Lookup, D.Inv, M.Create, Inv, SpotOf, AllProper, NodeOf;
    CreateViewIff(w, g, kind);
    CreateViewIff(w, g, File);
    SpotFacts(w, g);
    var (id, rest) := SpotOf(w, Render(g)).value;
    FailedCreate(w.stores[id], rest, kind);
    PlainFacts(w.stores[id], rest);
    FollowArrives(w.stores[id], Components(rest));
    assert NodeOf(w.stores[id], Components(rest)).None?;
    NotThere(w.stores[id], Components(rest));
    assert w.stores[id := w.stores[id]] == w.stores;
  }

  lemma {:induction false} NotThere(fs: M.Fs, cs: seq<Name>)
    requires D.Inv(fs) && AllProper(cs) && NodeOf(fs, cs).None?
    ensures Follow(fs.inodes, cs, ROOT).None?
  {
    hide Follow, D.Inv, AllProper;
    FollowArrives(fs, cs);
  }

  /** A directory just made can be unlinked again. */
  lemma NewDirectoryEmpty(w: World, g: seq<Name>)
    requires Inv(w) && AllProper(g) && View(w, g).None? && g != [] && IsDirectory(View(w, g[..|g| - 1]))
    ensures UnlinkAt(CreateAt(w, Render(g), Directory).0, Render(g)).1.Ok?
  {
    hide Components, Render, Follow, Lookup, D.Inv, M.Create, M.Unlink, Inv, SpotOf, AllProper, ViewAt, NodeOf,
         HasEntries;
    CreateViewIff(w, g, Directory);
    SpotFacts(w, g);
    var (id, rest) := SpotOf(w, Render(g)).value;
    NewNodeEmpty(w.stores[id], rest);
    SameSpots(w, Render(g), id, M.Create(w.stores[id], rest, Directory).0);
  }

  lemma SameSpots(w: World, at: string, id: nat, fs: M.Fs)
    requires id in w.stores
    ensures SpotOf(WithStore(w, id, fs), at) == SpotOf(w, at)
  {
    hide R.FindFs;
  }

  lemma NewNodeEmpty(fs: M.Fs, path: string)
    requires D.Inv(fs) && Plain(path) && M.Create(fs, path, Directory).1.Some?
    ensures M.Unlink(M.Create(fs, path, Directory).0, path).1.Ok?
  {
    hide Components, Follow, Lookup, D.Inv, M.Create, M.Unlink;
    var cs, made := Components(path), M.Create(fs, path, Directory).0;
    CreateSucceedsIff(fs, path, Directory);
    CreateNode(fs, path, Directory, cs);
    UnlinkSucceedsIff(made, path);
    NotThere(fs, cs);
    forall n | Proper(n) ensures Follow(made.inodes, cs + [n], ROOT).None? {
      assert AllProper(cs + [n]) && cs + [n] != cs;
      FollowAppend(fs.inodes, cs, [n], ROOT);
      CreateNode(fs, path, Directory, cs + [n]);
      NotThere(made, cs + [n]);
    }
  }

  /** Opening a path that shows a file and reading into a buffer of any size returns its first bytes, up to all. */
  lemma ShownIsRead(w: World, at: string, n: nat)
    requires Inv(w) && ViewAt(w, at).Some? && ViewAt(w, at).value.kind == File
    ensures
      var (id, rest) := SpotOf(w, at).value;
      var data := ViewAt(w, at).value.data;
      var (fs, d) := D.Open(w.stores[id], rest, 0);
      d.Some? && D.Read(fs, d.value.fd, n).1 == Ok(if n < |data| then data[..n] else data)
  {
    hide SpotOf, Lookup, Inv;
    var data := ViewAt(w, at).value.data;
    assert n < |data| ==> data[0..n] == data[..n];
    assert data[0..|data|] == data;
  }

  /**
   * `Vfs::create` from the outside: after it succeeds for p, every path that stands for the same names
   * is on the same file system and finds the very inode created, and every other path shows what it
   * did before.
   */
  lemma CreatedEverywhere(w: World, p: string, q: string)
    requires Inv(w) && CreateAt(w, R.ResolvePath(w.router.wd, p), File).1.Some?
    ensures
      var (w', made) := CreateAt(w, R.ResolvePath(w.router.wd, p), File);
      && Inv(w')
      && (Goal(w, q) == Goal(w, p) ==>
          && SpotOf(w', R.ResolvePath(w.router.wd, q)).Some?
          && var (id, rest) := SpotOf(w', R.ResolvePath(w.router.wd, q)).value;
          id in w'.stores && Lookup(w'.stores[id].inodes, rest) == made)
      && (Goal(w, q) != Goal(w, p) ==> View(w', Goal(w, q)) == View(w, Goal(w, q)))
  {
    hide Components, Render, Follow, Lookup, D.Inv, M.Create, Inv, Goal, AllProper, R.ResolvePath, R.FindFs, ViewAt;
    GoalFacts(w, p);
    GoalFacts(w, q);
    CreateView(w, Goal(w, p), File, Goal(w, q));
    SpotFacts(w, Goal(w, p));
    var (id, rest) := SpotOf(w, Render(Goal(w, p))).value;
    NewFileOpens(w.stores[id], rest);
    CreatedNumber(w.stores[id], rest);
  }

  lemma CreatedNumber(fs: M.Fs, path: string)
    requires M.Create(fs, path, File).1.Some?
    ensures M.Create(fs, path, File).1 == Some(fs.nextIno)
  {
    hide Lookup, M.LookupParent;
  }

  lemma FailedCreate(fs: M.Fs, path: string, kind: Kind)
    ensures M.Create(fs, path, kind).1.None? ==> M.Create(fs, path, kind).0 == fs
    ensures M.Mkdir(fs, path).0 == M.Create(fs, path, Directory).0
  {
    hide M.LookupParent, LookupFrom, Components;
    RootThere(fs.inodes);
  }

  lemma RootThere(t: Inodes)
    ensures Lookup(t, "/") == Some(ROOT)
  {
    ComponentsOne("");
    assert TrimStart("/") == "";
  }

  // ------------------------------------------------------------- at boot

  // One in-memory file system, mounted at the root and empty.
  function Boot(): World {
    World(R.Fresh(0), map[0 := D.Fresh()])
  }

  lemma BootInv()
    ensures Inv(Boot())
  {
    hide D.Inv, R.Inv;
    R.FreshInv(0);
    D.FreshInv();
  }

  lemma FreshNode(cs: seq<Name>)
    requires AllProper(cs)
    ensures NodeOf(D.Fresh(), cs) == if cs == [] then Some(Node(Directory, [])) else None
  {
    hide Follow, TreeInv, PathOf;
    D.FreshInv();
    var fs := D.Fresh();
    FollowArrives(fs, cs);
    ProperPathIff(fs.inodes, fs.nextIno, cs, ROOT);
    RootFacts(fs.inodes, fs.nextIno);
  }
}
