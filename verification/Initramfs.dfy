/**
 * The initial file system: unpacking into a system with one mount, described by a finite map from
 * lists of names to nodes, and what becomes of the archive the build script really writes.
 */
module Initramfs {
  import opened Arithmetic
  import opened Wrappers
  import opened Paths
  import opened Tree
  import opened Unpacking
  import C = Cpio
  import D = Descriptors
  import R = Mounts
  import V = VirtualFs

  // Everything shown, by its names.
  type Listing = map<seq<Name>, V.Node>

  // ------------------------------------------------------------- unpacking on the map

  function PlaceOf(a: C.Action): seq<Name> {
    Resolved(Text(a.path))
  }

  predicate DirIn(m: Listing, cs: seq<Name>) {
    cs in m && m[cs].kind.Directory?
  }

  ghost predicate EntriesIn(m: Listing, cs: seq<Name>) {
    exists n: Name {:trigger Proper(n)} :: Proper(n) && cs + [n] in m
  }

  predicate MakesIn(m: Listing, a: C.Action) {
    var path, g := Text(a.path), PlaceOf(a);
    && a.WriteWhole? && ParentOf(path) != "" && Resolved(ParentOf(path)) != g
    && g != [] && Front(g) !in m && Front(g) != [] && DirIn(m, Front(Front(g)))
  }

  ghost predicate PlaceableIn(m: Listing, a: C.Action) {
    var g := PlaceOf(a);
    && g != []
    && (g !in m || (a.WriteWhole? && (DirIn(m, g) ==> !EntriesIn(m, g))))
    && (DirIn(m, Front(g)) || MakesIn(m, a))
  }

  // One entry: a directory it makes for itself, then the entry.
  ghost function PerformIn(m: Listing, a: C.Action): Listing {
    var made := if MakesIn(m, a) then m[Front(PlaceOf(a)) := V.Node(Directory, [])] else m;
    if PlaceableIn(m, a) then made[PlaceOf(a) := Leaves(a)] else made
  }

  ghost function PerformAllIn(m: Listing, actions: seq<C.Action>): Listing
    decreases |actions|
  {
    if actions == [] then m else PerformAllIn(PerformIn(m, actions[0]), actions[1..])
  }

  // ------------------------------------------------------------- the map describes the system

  ghost predicate OneMount(w: V.World) {
    w.router.wd == "/" && |w.router.mounts| == 1 && w.router.mounts[0].point == "/"
  }

  ghost predicate ShownAs(w: V.World, m: Listing, cs: seq<Name>) {
    V.View(w, cs) == if cs in m then Some(m[cs]) else None
  }

  // The system shows exactly what the map lists.
  ghost predicate Describes(m: Listing, w: V.World) {
    && V.Inv(w) && OneMount(w)
    && forall cs {:trigger ShownAs(w, m, cs)} :: AllProper(cs) ==> ShownAs(w, m, cs)
  }

  lemma GoalAtRoot(w: V.World, path: string)
    requires OneMount(w)
    ensures V.Goal(w, path) == Resolved(path)
  {
    hide Components, Fold;
    R.RootNormal();
  }

  // With one mount the file system sees the names as they are.
  lemma OneSpot(w: V.World, cs: seq<Name>)
    requires V.Inv(w) && OneMount(w) && AllProper(cs)
    ensures V.SpotOf(w, Render(cs)).Some? && Components(V.SpotOf(w, Render(cs)).value.1) == cs
    ensures V.SpotOf(w, Render(cs)).value.0 == w.router.mounts[0].fs
  {
    hide Components, Fold, Render, R.FindFs, R.Normal, R.Join, D.Inv;
    R.RenderNormal(cs);
    R.RootNormal();
    R.RoutesToLongestPrefix(w.router, Render(cs), 0);
  }

  lemma UnlinkIn(w: V.World, m: Listing, g: seq<Name>)
    requires Describes(m, w) && AllProper(g)
    ensures V.Removable(w, g) <==> g in m && g != [] && (DirIn(m, g) ==> !EntriesIn(m, g))
  {
    hide V.Inv, AllProper, Render, V.ViewAt, Components, V.SpotOf, V.Occupied;
    V.UnlinkViewIff(w, g);
    OneSpot(w, g);
    assert ShownAs(w, m, g);
    OccupiedIn(w, m, g);
  }

  lemma OccupiedIn(w: V.World, m: Listing, g: seq<Name>)
    requires Describes(m, w) && AllProper(g)
    ensures V.Occupied(w, g) <==> EntriesIn(m, g)
  {
    hide V.Inv, Render, V.ViewAt, Components, V.SpotOf, Follow, V.NodeOf, Proper;
    V.SpotFacts(w, g);
    OneSpot(w, g);
    var fs := w.stores[V.SpotOf(w, Render(g)).value.0];
    forall n: Name | Proper(n) ensures Follow(fs.inodes, g + [n], ROOT).Some? <==> g + [n] in m {
      assert AllProper(g + [n]);
      assert ShownAs(w, m, g + [n]);
      V.SpotFacts(w, g + [n]);
      OneSpot(w, g + [n]);
      ShownThere(fs, g + [n]);
    }
  }

  lemma {:induction false} ShownThere(fs: V.M.Fs, cs: seq<Name>)
    requires D.Inv(fs) && AllProper(cs)
    ensures V.NodeOf(fs, cs).Some? <==> Follow(fs.inodes, cs, ROOT).Some?
  {
    hide Follow, D.Inv, AllProper;
    V.FollowArrives(fs, cs);
  }

  lemma PlaceableAgrees(w: V.World, m: Listing, a: C.Action)
    requires Describes(m, w)
    ensures Goal(w, a) == PlaceOf(a) && AllProper(PlaceOf(a))
    ensures MakesParent(w, a) <==> MakesIn(m, a)
    ensures Placeable(w, a) <==> PlaceableIn(m, a)
  {
    hide V.View, V.Inv, V.Goal, Render, V.Removable, Text, ParentOf, Resolved, EntriesIn, OneMount;
    var g := PlaceOf(a);
    GoalAtRoot(w, Text(a.path));
    GoalAtRoot(w, ParentOf(Text(a.path)));
    ResolvedProper(Text(a.path));
    UnlinkIn(w, m, g);
    assert ShownAs(w, m, g);
    if g != [] {
      FrontProper(g);
      assert ShownAs(w, m, Front(g));
      if Front(g) != [] {
        FrontProper(Front(g));
        assert ShownAs(w, m, Front(Front(g)));
      }
    }
  }

  /** One entry on the system is one entry on the map. */
  lemma PerformAgrees(w: V.World, m: Listing, a: C.Action)
    requires Describes(m, w) && Sound(Text(a.path)) && |Leaves(a).data| < WORD
    ensures Describes(PerformIn(m, a), Perform(w, a))
  {
    hide V.View, V.Inv, V.Goal, Perform, Text, Sound, AllProper, Goal, PlaceOf, MakesParent, Placeable, MakesIn,
         PlaceableIn;
    PlaceableAgrees(w, m, a);
    var empty: seq<Name> := [];
    EmptyProper();
    PerformShows(w, a, empty);
    var w' := Perform(w, a);
    forall cs | AllProper(cs) ensures ShownAs(w', PerformIn(m, a), cs) {
      PerformShows(w, a, cs);
      assert ShownAs(w, m, cs);
      if MakesParent(w, a) { MadeMissing(w, a); }
    }
  }

  lemma EmptyProper()
    ensures AllProper([])
  {
  }

  /** Unpacking shows exactly what going through the entries on the map leads to. */
  lemma {:induction false} PerformAllAgrees(w: V.World, m: Listing, actions: seq<C.Action>)
    requires Describes(m, w) && AllSound(actions)
    ensures Describes(PerformAllIn(m, actions), PerformAll(w, actions))
    decreases |actions|
  {
    hide Describes, Perform, PerformIn, Sound, Text;
    if actions != [] {
      PerformAgrees(w, m, actions[0]);
      PerformAllAgrees(Perform(w, actions[0]), PerformIn(m, actions[0]), actions[1..]);
    }
  }

  // ------------------------------------------------------------- at boot

  function BootListing(): Listing {
    map[[] := V.Node(Directory, [])]
  }

  lemma BootDescribed()
    ensures Describes(BootListing(), V.Boot())
  {
    hide Components, Fold, Follow, D.Inv, R.Inv, Render;
    V.BootInv();
    var w := V.Boot();
    assert V.Inv(w) && OneMount(w);
    forall cs | AllProper(cs) ensures ShownAs(w, BootListing(), cs) {
      V.SpotFacts(w, cs);
      OneSpot(w, cs);
      V.FreshNode(cs);
    }
  }

  /**
   * From any list of entries to what the booted system shows: writing the archive, reading it and
   * unpacking it into the empty system shows, under every list of names, exactly what the map says.
   */
  lemma {:induction false} BootShows(es: seq<C.Entry>, cs: seq<Name>)
    requires Archivable(es) && AllProper(cs)
    ensures
      var w := PerformAll(V.Boot(), Asked(C.WrittenAll([], es)));
      var m := PerformAllIn(BootListing(), C.AllEntryActions(es));
      V.Inv(w) && V.View(w, cs) == if cs in m then Some(m[cs]) else None
  {
    hide PerformAll, PerformAllIn, Asked, C.WrittenAll, C.AllEntryActions, V.View, V.Inv, OneMount, AllSound, AllProper;
    AskedIs(es);
    BootDescribed();
    PerformAllAgrees(V.Boot(), BootListing(), C.AllEntryActions(es));
    var w := PerformAll(V.Boot(), Asked(C.WrittenAll([], es)));
    assert ShownAs(w, PerformAllIn(BootListing(), C.AllEntryActions(es)), cs);
  }

  // ------------------------------------------------------------- archives that lose nothing

  // The directory an entry makes for itself, when its own is new and the one above is known.
  ghost predicate OwnParent(dirs: set<seq<Name>>, used: set<seq<Name>>, a: C.Action) {
    var path, g := Text(a.path), PlaceOf(a);
    && a.WriteWhole? && ParentOf(path) != "" && Resolved(ParentOf(path)) != g
    && g != [] && Front(g) !in used && Front(g) != [] && Front(Front(g)) in dirs
  }

  ghost function DirsAfter(dirs: set<seq<Name>>, used: set<seq<Name>>, a: C.Action): set<seq<Name>> {
    if a.Mkdir? then dirs + {PlaceOf(a)}
    else if OwnParent(dirs, used, a) then dirs + {Front(PlaceOf(a))} else dirs
  }

  ghost function UsedAfter(dirs: set<seq<Name>>, used: set<seq<Name>>, a: C.Action): set<seq<Name>> {
    if OwnParent(dirs, used, a) then used + {Front(PlaceOf(a)), PlaceOf(a)} else used + {PlaceOf(a)}
  }

  // Every entry has names no earlier one has, below a known directory or one it makes itself.
  ghost predicate Ordered(dirs: set<seq<Name>>, used: set<seq<Name>>, actions: seq<C.Action>)
    decreases |actions|
  {
    actions == [] || (
      var a, g := actions[0], PlaceOf(actions[0]);
      && g != [] && g !in used && (Front(g) in dirs || OwnParent(dirs, used, a))
      && Ordered(DirsAfter(dirs, used, a), UsedAfter(dirs, used, a), actions[1..]))
  }

  // The directories listed include `dirs`, and nothing is listed outside `used`.
  ghost predicate Known(m: Listing, dirs: set<seq<Name>>, used: set<seq<Name>>) {
    (forall n :: n in dirs ==> DirIn(m, n) && n in used) && forall n :: n in m ==> n in used
  }

  lemma OrderedStep(m: Listing, dirs: set<seq<Name>>, used: set<seq<Name>>, a: C.Action)
    requires Known(m, dirs, used) && PlaceOf(a) != [] && PlaceOf(a) !in used
    requires Front(PlaceOf(a)) in dirs || OwnParent(dirs, used, a)
    ensures PlaceableIn(m, a)
    ensures Known(PerformIn(m, a), DirsAfter(dirs, used, a), UsedAfter(dirs, used, a))
    ensures forall n :: n in m ==> n in PerformIn(m, a) && PerformIn(m, a)[n] == m[n]
  {
    hide PlaceOf, Text, ParentOf, Resolved, EntriesIn;
    var g := PlaceOf(a);
    assert |Front(g)| < |g|;
  }

  lemma {:induction false} OrderedKeeps(
      m: Listing, dirs: set<seq<Name>>, used: set<seq<Name>>, actions: seq<C.Action>, cs: seq<Name>)
    requires Known(m, dirs, used) && Ordered(dirs, used, actions) && cs in m
    ensures cs in PerformAllIn(m, actions) && PerformAllIn(m, actions)[cs] == m[cs]
    decreases |actions|
  {
    hide PlaceOf, Known, PerformIn, OwnParent, PlaceableIn, DirsAfter, UsedAfter;
    if actions != [] {
      var a := actions[0];
      OrderedStep(m, dirs, used, a);
      OrderedKeeps(PerformIn(m, a), DirsAfter(dirs, used, a), UsedAfter(dirs, used, a), actions[1..], cs);
    }
  }

  /** From an ordered list every entry ends up listed. */
  lemma {:induction false} OrderedListed(
      m: Listing, dirs: set<seq<Name>>, used: set<seq<Name>>, actions: seq<C.Action>, k: nat)
    requires Known(m, dirs, used) && Ordered(dirs, used, actions) && k < |actions|
    ensures
      var all, g := PerformAllIn(m, actions), PlaceOf(actions[k]);
      g in all && all[g] == Leaves(actions[k])
    decreases k
  {
    hide PlaceOf, Known, OwnParent, PlaceableIn, DirsAfter, UsedAfter, MakesIn;
    var a := actions[0];
    OrderedStep(m, dirs, used, a);
    var m', d, u := PerformIn(m, a), DirsAfter(dirs, used, a), UsedAfter(dirs, used, a);
    if k == 0 {
      OrderedKeeps(m', d, u, actions[1..], PlaceOf(a));
    } else {
      OrderedListed(m', d, u, actions[1..], k - 1);
    }
  }

  /**
   * At boot, from any ordered list of entries, every one is there afterwards: directories as
   * directories, files with their own bodies.
   */
  lemma {:induction false} BootFilesReadable(es: seq<C.Entry>, k: nat)
    requires Archivable(es) && k < |C.AllEntryActions(es)|
    requires Ordered({[]}, {[]}, C.AllEntryActions(es))
    ensures
      var w := PerformAll(V.Boot(), Asked(C.WrittenAll([], es)));
      var a := C.AllEntryActions(es)[k];
      V.Inv(w) && V.View(w, PlaceOf(a)) == Some(Leaves(a))
  {
    hide PerformAll, PerformAllIn, Asked, C.WrittenAll, C.AllEntryActions, V.View, V.Inv, Ordered, Archivable, Resolved;
    var actions := C.AllEntryActions(es);
    ResolvedProper(Text(actions[k].path));
    BootShows(es, PlaceOf(actions[k]));
    assert Known(BootListing(), {[]}, {[]});
    OrderedListed(BootListing(), {[]}, {[]}, actions, k);
  }
}
