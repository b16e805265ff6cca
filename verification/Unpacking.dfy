/**
 * Unpacking the initial archive into the mounted file systems: from the list of entries the build
 * script wrote to the bytes a program reads.
 */
module Unpacking {
  import opened Arithmetic
  import opened Wrappers
  import opened Paths
  import opened Tree
  import C = Cpio
  import D = Descriptors
  import R = Mounts
  import V = VirtualFs

  // Text is its bytes; the slash and the dot are single bytes that occur in no longer character.
  function Text(bytes: seq<byte>): string {
    seq(|bytes|, i requires 0 <= i < |bytes| => bytes[i] as char)
  }

  // ------------------------------------------------------------- the operations unpacking uses

  function Here(w: V.World, path: string): string {
    R.ResolvePath(w.router.wd, path)
  }

  predicate Exists(w: V.World, path: string) {
    V.ViewAt(w, Here(w, path)).Some?
  }

  predicate IsDir(w: V.World, path: string) {
    var v := V.ViewAt(w, Here(w, path));
    v.Some? && v.value.kind.Directory?
  }

  // `parent_of`.
  function ParentOf(path: string): string {
    var i := LastSlash(path);
    if i == |path| then "" else if i == 0 then "/" else path[..i]
  }

  function Remove(w: V.World, path: string): V.World {
    if Exists(w, path) then V.UnlinkAt(w, Here(w, path)).0 else w
  }

  // `write_entire_file`.
  function WriteEntireFile(w: V.World, path: string, body: seq<byte>): V.World {
    if IsDir(w, path) then w
    else
      var cleared := Remove(w, path);
      V.CreateFileAt(cleared, Here(cleared, path), body).0
  }

  // The first step of a file entry: a missing parent directory is made.
  function WithParent(w: V.World, path: string): V.World {
    var parent := ParentOf(path);
    if parent != "" && !Exists(w, parent) then V.MkdirAt(w, Here(w, parent)).0 else w
  }

  // What the loop of `unpack` does with one entry.
  function Perform(w: V.World, a: C.Action): V.World {
    var path := Text(a.path);
    match a
    case Mkdir(_) => V.MkdirAt(w, Here(w, path)).0
    case WriteWhole(_, body) => WriteEntireFile(Remove(WithParent(w, path), path), path, body)
  }

  function PerformAll(w: V.World, actions: seq<C.Action>): V.World
    decreases |actions|
  {
    if actions == [] then w else PerformAll(Perform(w, actions[0]), actions[1..])
  }

  // ------------------------------------------------------------- the names of an entry

  // What unpacking lets through: a relative path that does not climb.
  ghost predicate Sound(path: string) {
    path != "" && path[0] != '/' && forall i :: 0 <= i < |Components(path)| ==> Components(path)[i] != ".."
  }

  function Front(cs: seq<Name>): seq<Name>
    requires cs != []
  {
    cs[..|cs| - 1]
  }

  // The names an entry is placed under.
  function Goal(w: V.World, a: C.Action): seq<Name> {
    V.Goal(w, Text(a.path))
  }

  lemma GoalIs(w: V.World, path: string)
    requires V.Inv(w)
    ensures AllProper(V.Goal(w, path)) && Here(w, path) == Render(V.Goal(w, path))
  {
    hide V.Goal, R.ResolvePath, Render, V.Inv, AllProper;
    V.GoalFacts(w, path);
  }

  lemma FrontProper(g: seq<Name>)
    requires g != [] && AllProper(g)
    ensures AllProper(Front(g)) && Front(g) != g
  {
    assert |Front(g)| < |g|;
  }

  /** `parent_of` a sound path stands for the names before the last, or for the same names. */
  lemma ParentGoal(w: V.World, path: string)
    requires Sound(path)
    ensures
      var parent, g := ParentOf(path), V.Goal(w, path);
      parent != "" ==> V.Goal(w, parent) == g || (g != [] && V.Goal(w, parent) == Front(g))
  {
    hide Components, LastSlash, Fold;
    var i := LastSlash(path);
    if 0 < i < |path| {
      var dir, last := path[..i], path[i + 1..];
      assert path == dir + ("/" + last) && !R.Absolute(dir) && dir != "";
      ComponentsJoin(dir, last);
      ComponentsOne(last);
      var base := Components(w.router.wd);
      FoldAppend(base, Components(dir), Components(last));
      var stack := Fold(base, Components(dir));
      FoldNone(stack);
      FoldOne(stack, last);
      if last != "" { assert Components(path)[|Components(path)| - 1] == last; }
      assert last != "" && last != "." ==> Front(stack + [last]) == stack;
    }
  }

  // ------------------------------------------------------------- one entry

  // The entry's directory is missing, and the entry makes it.
  ghost predicate MakesParent(w: V.World, a: C.Action) {
    var path, g := Text(a.path), Goal(w, a);
    && a.WriteWhole? && ParentOf(path) != "" && V.Goal(w, ParentOf(path)) != g
    && g != [] && V.View(w, Front(g)).None?
    && Front(g) != [] && V.IsDirectory(V.View(w, Front(Front(g))))
  }

  // Its place is free or can be cleared, below a directory that is there or that it makes.
  ghost predicate Placeable(w: V.World, a: C.Action) {
    var g := Goal(w, a);
    && g != []
    && (V.View(w, g).None? || (a.WriteWhole? && V.Removable(w, g)))
    && (V.IsDirectory(V.View(w, Front(g))) || MakesParent(w, a))
  }

  // What an entry leaves in its place.
  function Leaves(a: C.Action): V.Node {
    match a
    case Mkdir(_) => V.Node(Directory, [])
    case WriteWhole(_, body) => V.Node(File, body)
  }

  // What the system shows under names cs after the entry.
  ghost function Expected(w: V.World, a: C.Action, cs: seq<Name>): Option<V.Node> {
    var g := Goal(w, a);
    if cs == g && Placeable(w, a) then Some(Leaves(a))
    else if MakesParent(w, a) && cs == Front(g) then Some(V.Node(Directory, []))
    else V.View(w, cs)
  }

  lemma SameRouter(w: V.World, at: string)
    ensures V.MkdirAt(w, at).0.router == w.router && V.UnlinkAt(w, at).0.router == w.router
    ensures forall body :: V.CreateFileAt(w, at, body).0.router == w.router
  {
  }

  // Nothing at g, and a directory above.
  ghost predicate Open(w: V.World, g: seq<Name>) {
    V.View(w, g).None? && g != [] && V.IsDirectory(V.View(w, Front(g)))
  }

  lemma MkdirShows(w: V.World, g: seq<Name>, cs: seq<Name>)
    requires V.Inv(w) && AllProper(g) && AllProper(cs)
    ensures
      var w' := V.MkdirAt(w, Render(g)).0;
      && V.Inv(w') && w'.router == w.router
      && V.View(w', cs) == if cs == g && Open(w, g) then Some(V.Node(Directory, [])) else V.View(w, cs)
  {
    hide V.View, AllProper, V.Inv, V.CreateAt, V.MkdirAt, Render;
    V.MkdirIsCreate(w, Render(g));
    V.CreateView(w, g, Directory, cs);
    V.CreateViewIff(w, g, Directory);
    SameRouter(w, Render(g));
  }

  lemma RemoveShows(w: V.World, path: string, cs: seq<Name>)
    requires V.Inv(w) && AllProper(cs)
    ensures
      var w', g := Remove(w, path), V.Goal(w, path);
      && V.Inv(w') && w'.router == w.router
      && V.View(w', cs) == (if cs == g && V.Removable(w, g) then None else V.View(w, cs))
      && (V.Removable(w, g) ==> V.View(w, g).Some?)
  {
    hide V.ViewAt, Here, AllProper, V.Inv, V.UnlinkAt, V.Goal, Render, V.Inside, V.Occupied;
    GoalIs(w, path);
    var g := V.Goal(w, path);
    SameRouter(w, Render(g));
    V.UnlinkViewIff(w, g);
    V.UnlinkView(w, g, cs);
  }

  // `write_entire_file` where a directory or nothing is shown.
  lemma WriteShows(w: V.World, path: string, body: seq<byte>, cs: seq<Name>)
    requires V.Inv(w) && AllProper(cs) && |body| < WORD
    requires V.View(w, V.Goal(w, path)).None? || V.IsDirectory(V.View(w, V.Goal(w, path)))
    ensures
      var w', g := WriteEntireFile(w, path, body), V.Goal(w, path);
      && V.Inv(w') && w'.router == w.router
      && V.View(w', cs) == if cs == g && Open(w, g) then Some(V.Node(File, body)) else V.View(w, cs)
  {
    hide V.ViewAt, Here, AllProper, V.Inv, V.UnlinkAt, V.Removable, V.CreateFileAt, V.Goal, Render;
    GoalIs(w, path);
    var g := V.Goal(w, path);
    SameRouter(w, Render(g));
    if V.View(w, g).None? {
      if Open(w, g) { V.CreateFileView(w, g, body, cs); } else { V.CreateRefused(w, g, File, body); }
    }
  }

  // The step makes the missing parent, or a directory in the file's own place, or nothing.
  lemma WithParentShows(w: V.World, a: C.Action, cs: seq<Name>)
    requires V.Inv(w) && Sound(Text(a.path)) && a.WriteWhole? && AllProper(cs)
    ensures
      var path, g := Text(a.path), Goal(w, a);
      var w' := WithParent(w, path);
      var own := ParentOf(path) != "" && V.Goal(w, ParentOf(path)) == g && Open(w, g);
      && V.Inv(w') && w'.router == w.router
      && V.View(w', cs) ==
        (if own && cs == g then Some(V.Node(Directory, []))
         else if MakesParent(w, a) && cs == Front(g) then Some(V.Node(Directory, []))
         else V.View(w, cs))
      && (own ==> w' == V.CreateAt(w, Render(g), Directory).0)
      && (!own && !MakesParent(w, a) && V.View(w, g).Some? && V.Inside(w, g) ==> w' == w)
  {
    hide V.ViewAt, Here, AllProper, V.Inv, V.Goal, Render, ParentOf, Sound, Text, V.MkdirAt, V.CreateAt, V.Inside;
    var path, g := Text(a.path), Goal(w, a);
    var parent := ParentOf(path);
    ParentGoal(w, path);
    GoalIs(w, path);
    GoalIs(w, parent);
    if parent != "" && !Exists(w, parent) {
      var p := V.Goal(w, parent);
      MkdirShows(w, p, cs);
      V.MkdirIsCreate(w, Render(p));
      V.InsideParent(w, g);
    }
  }

  /** One entry, whatever the system shows, changes what it shows exactly as expected for all names. */
  lemma PerformShows(w: V.World, a: C.Action, cs: seq<Name>)
    requires V.Inv(w) && Sound(Text(a.path)) && AllProper(cs) && (a.WriteWhole? ==> |a.body| < WORD)
    ensures V.Inv(Perform(w, a)) && Perform(w, a).router == w.router
    ensures V.View(Perform(w, a), cs) == Expected(w, a, cs)
  {
    hide V.ViewAt, Here, AllProper, V.Inv, V.MkdirAt, V.UnlinkAt, V.Removable, Render, ParentOf, V.Goal, Text, Sound;
    GoalIs(w, Text(a.path));
    if a.Mkdir? { MkdirShows(w, Goal(w, a), cs); } else { PerformFileShows(w, a, cs); }
  }

  lemma SameGoal(w: V.World, v: V.World, path: string)
    requires w.router == v.router
    ensures V.Goal(w, path) == V.Goal(v, path)
  {
  }

  lemma PerformFileShows(w: V.World, a: C.Action, cs: seq<Name>)
    requires V.Inv(w) && a.WriteWhole? && Sound(Text(a.path)) && AllProper(cs) && |a.body| < WORD
    ensures V.Inv(Perform(w, a)) && Perform(w, a).router == w.router
    ensures V.View(Perform(w, a), cs) == Expected(w, a, cs)
  {
    hide V.View, Here, AllProper, V.Inv, V.Removable, Render, ParentOf, V.Goal, Text, Sound, WithParent, Remove,
         WriteEntireFile;
    var path, g := Text(a.path), Goal(w, a);
    var w1 := WithParent(w, path);
    var w2 := Remove(w1, path);
    GoalIs(w, path);
    WithParentShows(w, a, cs);
    WithParentShows(w, a, g);
    SameGoal(w, w1, path);
    RemoveShows(w1, path, cs);
    RemoveShows(w1, path, g);
    SameGoal(w, w2, path);
    ClearingAgrees(w, a);
    if g != [] {
      FrontProper(g);
      WithParentShows(w, a, Front(g));
      RemoveShows(w1, path, Front(g));
    }
    WriteShows(w2, path, a.body, cs);
  }

  // Whether the place can be cleared is the same after the first step, unless that step filled it.
  lemma ClearingAgrees(w: V.World, a: C.Action)
    requires V.Inv(w) && a.WriteWhole? && Sound(Text(a.path))
    ensures
      var path, g := Text(a.path), Goal(w, a);
      var w1 := WithParent(w, path);
      && (V.View(w, g).Some? ==> V.Removable(w1, g) == V.Removable(w, g))
      && (V.View(w, g).Some? && V.Removable(w, g) ==> g != [] && V.IsDirectory(V.View(w, Front(g))))
      && (V.View(w, g).Some? && !V.Removable(w, g) ==> V.IsDirectory(V.View(w, g)))
      && (V.View(w, g).None? && V.View(w1, g).Some? ==> V.Removable(w1, g))
      && (V.View(w, g).None? ==> g != [])
  {
    hide V.View, Here, AllProper, V.Inv, V.CreateAt, Render, ParentOf, V.Goal, Text, Sound, WithParent, V.Occupied,
         V.Inside, V.UnlinkAt;
    var path, g := Text(a.path), Goal(w, a);
    var w1 := WithParent(w, path);
    GoalIs(w, path);
    WithParentShows(w, a, g);
    V.InsideParent(w, g);
    InsideByRouter(w, w1, g);
    if V.View(w, g).None? && V.View(w1, g).Some? {
      V.NewDirectoryEmpty(w, g);
      V.UnlinkViewIff(w1, g);
    }
  }

  lemma InsideByRouter(w: V.World, v: V.World, g: seq<Name>)
    requires V.Inv(w) && V.Inv(v) && w.router == v.router && AllProper(g)
    ensures V.Inside(w, g) == V.Inside(v, g)
  {
    hide Components, Render, R.FindFs, V.Inv, AllProper;
    V.SpotFacts(w, g);
    V.SpotFacts(v, g);
  }

  ghost predicate IsFile(node: Option<V.Node>) {
    node.Some? && node.value.kind.File?
  }

  /** A file entry shows its body afterwards exactly when it could be placed; else no file is shown there. */
  lemma FileShownIff(w: V.World, a: C.Action)
    requires V.Inv(w) && a.WriteWhole? && Sound(Text(a.path)) && |a.body| < WORD
    ensures V.View(Perform(w, a), Goal(w, a)) == Some(V.Node(File, a.body)) <==> Placeable(w, a)
    ensures IsFile(V.View(Perform(w, a), Goal(w, a))) <==> Placeable(w, a)
  {
    hide V.View, AllProper, V.Inv, V.UnlinkAt, Render, ParentOf, V.Goal, Text, Sound, Perform, V.Occupied, V.Inside;
    var g := Goal(w, a);
    GoalIs(w, Text(a.path));
    PerformShows(w, a, g);
    V.UnlinkViewIff(w, g);
    V.InsideParent(w, g);
  }

  /** An entry that finds neither its directory nor that directory's own is dropped. */
  lemma PerformRefused(w: V.World, a: C.Action)
    requires V.Inv(w) && Sound(Text(a.path)) && V.View(w, Goal(w, a)).None?
    requires !Placeable(w, a) && !MakesParent(w, a)
    ensures Perform(w, a) == w
  {
    hide V.ViewAt, Here, AllProper, V.Inv, V.UnlinkAt, V.Removable, V.MkdirAt, V.CreateAt, V.CreateFileAt, Render,
         ParentOf, V.Goal;
    hide Text, Sound;
    var path, g := Text(a.path), Goal(w, a);
    GoalIs(w, path);
    V.CreateRefused(w, g, Directory, Leaves(a).data);
    V.MkdirIsCreate(w, Render(g));
    var parent := ParentOf(path);
    if a.WriteWhole? && parent != "" && !Exists(w, parent) {
      ParentGoal(w, path);
      GoalIs(w, parent);
      var p := V.Goal(w, parent);
      V.CreateRefused(w, p, Directory, []);
      V.MkdirIsCreate(w, Render(p));
    }
  }

  // ------------------------------------------------------------- the whole archive

  ghost predicate AllSound(actions: seq<C.Action>) {
    forall j :: 0 <= j < |actions| ==> Sound(Text(actions[j].path)) && |Leaves(actions[j]).data| < WORD
  }

  lemma {:induction false} PerformAllAppend(w: V.World, a: seq<C.Action>, b: seq<C.Action>)
    ensures PerformAll(w, a + b) == PerformAll(PerformAll(w, a), b)
    decreases |a|
  {
    hide Perform;
    if a == [] {
      assert a + b == b;
    } else {
      assert (a + b)[1..] == a[1..] + b;
      PerformAllAppend(Perform(w, a[0]), a[1..], b);
    }
  }

  lemma {:induction false} PerformAllInv(w: V.World, actions: seq<C.Action>)
    requires V.Inv(w) && AllSound(actions)
    ensures V.Inv(PerformAll(w, actions)) && PerformAll(w, actions).router == w.router
    decreases |actions|
  {
    hide Perform, V.Inv, Sound, V.View, Expected, Text;
    if actions != [] {
      var empty: seq<Name> := [];
      PerformShows(w, actions[0], empty);
      PerformAllInv(Perform(w, actions[0]), actions[1..]);
    }
  }

  // No entry is a file under these names.
  ghost predicate NoFileUnder(w: V.World, actions: seq<C.Action>, cs: seq<Name>) {
    forall j :: 0 <= j < |actions| && actions[j].WriteWhole? ==> Goal(w, actions[j]) != cs
  }

  /** Entries under other names neither change a file nor put one where none was. */
  lemma {:induction false} OthersKeep(w: V.World, actions: seq<C.Action>, cs: seq<Name>)
    requires V.Inv(w) && AllSound(actions) && AllProper(cs) && NoFileUnder(w, actions, cs)
    ensures
      var v := V.View(PerformAll(w, actions), cs);
      if IsFile(V.View(w, cs)) then v == V.View(w, cs) else !IsFile(v)
    decreases |actions|
  {
    hide Perform, V.Inv, Sound, V.View, V.Goal, AllProper, Text, MakesParent, V.UnlinkAt, V.Removable;
    if actions != [] {
      var a, rest := actions[0], actions[1..];
      var w' := Perform(w, a);
      PerformShows(w, a, cs);
      if MakesParent(w, a) { MadeMissing(w, a); }
      forall j | 0 <= j < |rest| ensures Goal(w', rest[j]) == Goal(w, rest[j]) {
        SameGoal(w, w', Text(rest[j].path));
      }
      assert NoFileUnder(w', rest, cs);
      hide Goal, NoFileUnder, Expected;
      OthersKeep(w', rest, cs);
    }
  }

  lemma MadeMissing(w: V.World, a: C.Action)
    requires MakesParent(w, a)
    ensures Goal(w, a) != [] && V.View(w, Front(Goal(w, a))).None?
  {
    hide V.View, V.Goal, Text, ParentOf;
  }

  // ------------------------------------------------------------- what unpacking asks for is sound

  lemma {:induction false} DotDotInside(s: string)
    requires ".." in Split(s)
    ensures exists i :: 0 <= i < |s| - 1 && s[i] == '.' && s[i + 1] == '.'
    decreases |s|
  {
    var i := FirstSlash(s);
    if i < |s| && s[..i] != ".." {
      var t := s[i + 1..];
      DotDotInside(t);
      var j :| 0 <= j < |t| - 1 && t[j] == '.' && t[j + 1] == '.';
      assert s[i + 1 + j] == '.' && s[i + 1 + j + 1] == '.';
    } else {
      assert s[..i] == "..";
      assert s[0] == s[..i][0] && s[0 + 1] == s[..i][1];
    }
  }

  lemma ActionSound(path: seq<byte>)
    requires path != [] && path[0] != 47 && !C.HasDotDot(path)
    ensures Sound(Text(path))
  {
    hide Split;
    var s := Text(path);
    NonEmptyMembers(Split(s));
    if ".." in Split(s) { DotDotInside(s); }
  }

  lemma {:induction false} TrimmedNoSlash(name: seq<byte>)
    ensures var p := C.TrimSlashes(name); p == [] || p[0] != 47
    decreases |name|
  {
    if name != [] && name[0] == 47 { TrimmedNoSlash(name[1..]); }
  }

  /** Every request `unpack` makes for written entries is for a sound path. */
  lemma {:induction false} EntriesSound(es: seq<C.Entry>)
    requires forall i :: 0 <= i < |es| ==> C.Representable(es[i])
    ensures AllSound(C.AllEntryActions(es))
    decreases |es|
  {
    hide Sound, Text, C.TrimSlashes, C.HasDotDot;
    if es != [] {
      var e := es[0];
      EntriesSound(es[1..]);
      TrimmedNoSlash(e.name);
      var path := C.TrimSlashes(e.name);
      if path != [] && !C.HasDotDot(path) { ActionSound(path); }
    }
  }

  // What `unpack` asks for when it reads this archive.
  function Asked(archive: seq<byte>): seq<C.Action> {
    C.AllActions(C.ParseAll(archive, 0).files)
  }

  // The entries the build script can write faithfully.
  ghost predicate Archivable(es: seq<C.Entry>) {
    forall i :: 0 <= i < |es| ==> C.Representable(es[i]) && es[i].name != C.TRAILER
  }

  lemma {:induction false} AskedIs(es: seq<C.Entry>)
    requires Archivable(es)
    ensures Asked(C.WrittenAll([], es)) == C.AllEntryActions(es) && AllSound(C.AllEntryActions(es))
  {
    hide C.ParseAll, C.WrittenAll, C.AllActions, C.AllEntryActions, C.Representable, AllSound;
    C.UnpackRecreates(es);
    EntriesSound(es);
  }

  /**
   * From the build script to the reader, into any mounted system: once the archive written from a list
   * of entries is unpacked, a file entry that no later one replaces shows its body under its name if
   * and only if it could be placed when its turn came.
   */
  lemma {:induction false} UnpackedReadableIff(w: V.World, es: seq<C.Entry>, k: nat)
    requires V.Inv(w) && Archivable(es) && k < |C.AllEntryActions(es)|
    requires
      var actions := C.AllEntryActions(es);
      actions[k].WriteWhole? && NoFileUnder(w, actions[k + 1..], Goal(w, actions[k]))
    ensures
      var actions := Asked(C.WrittenAll([], es));
      && actions == C.AllEntryActions(es)
      && V.Inv(PerformAll(w, actions))
      && (V.View(PerformAll(w, actions), Goal(w, actions[k])) == Some(V.Node(File, actions[k].body))
          <==> Placeable(PerformAll(w, actions[..k]), actions[k]))
  {
    hide V.Inv, V.View, Goal, Placeable, Sound, Text, Perform, C.AllEntryActions, C.WrittenAll, Asked, Archivable;
    var actions := C.AllEntryActions(es);
    AskedIs(es);
    var before, a, after := actions[..k], actions[k], actions[k + 1..];
    assert actions == before + ([a] + after);
    var w1 := PerformAll(w, before);
    PerformAllAppend(w, before, [a] + after);
    PerformAllInv(w, before);
    PerformAllInv(w, actions);
    assert ([a] + after)[1..] == after;
    var w2 := Perform(w1, a);
    assert PerformAll(w, actions) == PerformAll(w2, after);
    PlacedIff(w, w1, a, after);
  }

  // One file entry and the entries behind it.
  lemma {:induction false} PlacedIff(w: V.World, w1: V.World, a: C.Action, after: seq<C.Action>)
    requires V.Inv(w1) && w1.router == w.router && a.WriteWhole? && AllSound([a] + after)
    requires NoFileUnder(w, after, Goal(w, a))
    ensures V.View(PerformAll(Perform(w1, a), after), Goal(w, a)) == Some(V.Node(File, a.body)) <==> Placeable(w1, a)
  {
    hide V.Inv, V.View, V.Goal, Placeable, Sound, Text, Perform, Expected;
    var g := Goal(w, a);
    SameGoal(w, w1, Text(a.path));
    assert ([a] + after)[0] == a;
    FileShownIff(w1, a);
    GoalIs(w1, Text(a.path));
    PerformShows(w1, a, g);
    var w2 := Perform(w1, a);
    forall j | 0 <= j < |after| ensures Goal(w2, after[j]) == Goal(w, after[j]) {
      SameGoal(w, w2, Text(after[j].path));
    }
    assert AllSound(after) by { assert ([a] + after)[1..] == after; TailSound([a] + after); }
    OthersKeep(w2, after, g);
  }

  lemma TailSound(actions: seq<C.Action>)
    requires actions != [] && AllSound(actions)
    ensures AllSound(actions[1..])
  {
    hide Sound, Text;
  }
}
