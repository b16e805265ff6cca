/**
 * The archive the build script writes: for every port a directory below `packages`, a manifest and a
 * binary, and no entry for `packages` itself.
 */
module Ports {
  import opened Arithmetic
  import opened Wrappers
  import opened Paths
  import opened Tree
  import opened Unpacking
  import opened Initramfs
  import C = Cpio
  import V = VirtualFs
  import D = Descriptors
  import R = Mounts

  datatype Port = Port(name: seq<byte>, manifest: seq<byte>, binary: seq<byte>)

  const SLASH: byte := 47
  const PACKAGES: seq<byte> := [112, 97, 99, 107, 97, 103, 101, 115]                        // "packages"
  const MANIFEST: seq<byte> := [109, 97, 110, 105, 102, 101, 115, 116, 46, 116, 120, 116]   // "manifest.txt"
  const BINARY: seq<byte> := [97, 112, 112, 46, 98, 105, 110]                               // "app.bin"

  // ------------------------------------------------------------- the entries

  function Below(dir: seq<byte>, name: seq<byte>): seq<byte> {
    dir + ([SLASH] + name)
  }

  function PortDir(p: Port): seq<byte> {
    Below(PACKAGES, p.name)
  }

  // `write_cpio_package`.
  function PortEntries(p: Port): seq<C.Entry> {
    [C.Entry(PortDir(p), true, []),
     C.Entry(Below(PortDir(p), MANIFEST), false, p.manifest),
     C.Entry(Below(PortDir(p), BINARY), false, p.binary)]
  }

  function ArchiveOf(ports: seq<Port>): seq<C.Entry> {
    if ports == [] then [] else PortEntries(ports[0]) + ArchiveOf(ports[1..])
  }

  // What unpacking asks for, port by port.
  function PortActions(p: Port): seq<C.Action> {
    [C.Mkdir(PortDir(p)),
     C.WriteWhole(Below(PortDir(p), MANIFEST), p.manifest),
     C.WriteWhole(Below(PortDir(p), BINARY), p.binary)]
  }

  function AllPortActions(ports: seq<Port>): seq<C.Action> {
    if ports == [] then [] else PortActions(ports[0]) + AllPortActions(ports[1..])
  }

  // A name that is one component and that unpacking does not take for a climbing path.
  ghost predicate GoodName(name: seq<byte>) {
    Proper(Text(name)) && !C.HasDotDot(name)
  }

  ghost predicate GoodPorts(ports: seq<Port>) {
    forall i :: 0 <= i < |ports| ==> GoodName(ports[i].name)
  }

  lemma NoDots(dir: seq<byte>, name: seq<byte>)
    requires !C.HasDotDot(dir) && !C.HasDotDot(name)
    ensures !C.HasDotDot(Below(dir, name))
  {
    var path := Below(dir, name);
    forall i | 0 <= i < |path| - 1 ensures !(path[i] == 46 && path[i + 1] == 46) {
      if i + 1 < |dir| {
        assert path[i] == dir[i] && path[i + 1] == dir[i + 1];
      } else if i > |dir| {
        assert path[i] == name[i - |dir| - 1] && path[i + 1] == name[i - |dir|];
      }
    }
  }

  lemma ConstantNames()
    ensures GoodName(PACKAGES) && GoodName(MANIFEST) && GoodName(BINARY)
  {
    assert Text(PACKAGES)[0] == 'p' && Text(MANIFEST)[0] == 'm' && Text(BINARY)[0] == 'a';
  }

  lemma PortActionsAsked(p: Port)
    requires GoodName(p.name)
    ensures C.AllEntryActions(PortEntries(p)) == PortActions(p)
  {
    hide C.HasDotDot, Text, Proper;
    ConstantNames();
    NoDots(PACKAGES, p.name);
    NoDots(PortDir(p), MANIFEST);
    NoDots(PortDir(p), BINARY);
    var es := PortEntries(p);
    assert PortDir(p)[0] == 112;
    Untrimmed(es[0]);
    Untrimmed(es[1]);
    Untrimmed(es[2]);
    hide C.TrimSlashes;
    assert es[1..] == [es[1], es[2]] && es[1..][1..] == [es[2]] && es[1..][1..][1..] == [];
    assert C.AllEntryActions(es[1..][1..][1..]) == [];
    assert C.AllEntryActions(es[1..][1..]) == C.EntryActions(es[2]);
    assert C.AllEntryActions(es[1..]) == C.EntryActions(es[1]) + C.EntryActions(es[2]);
  }

  lemma Untrimmed(e: C.Entry)
    requires e.name != [] && e.name[0] != SLASH && !C.HasDotDot(e.name)
    ensures C.EntryActions(e) == [if e.isDir then C.Mkdir(e.name) else C.WriteWhole(e.name, e.body)]
  {
    hide C.HasDotDot;
  }

  lemma {:induction false} EntryActionsAppend(a: seq<C.Entry>, b: seq<C.Entry>)
    ensures C.AllEntryActions(a + b) == C.AllEntryActions(a) + C.AllEntryActions(b)
    decreases |a|
  {
    hide C.EntryActions;
    if a == [] {
      assert a + b == b;
    } else {
      assert (a + b)[1..] == a[1..] + b;
      EntryActionsAppend(a[1..], b);
    }
  }

  lemma {:induction false} ArchiveAsked(ports: seq<Port>)
    requires GoodPorts(ports)
    ensures C.AllEntryActions(ArchiveOf(ports)) == AllPortActions(ports)
    decreases |ports|
  {
    hide PortEntries, PortActions, GoodName;
    if ports != [] {
      PortActionsAsked(ports[0]);
      EntryActionsAppend(PortEntries(ports[0]), ArchiveOf(ports[1..]));
      ArchiveAsked(ports[1..]);
    }
  }

  // ------------------------------------------------------------- where they are placed

  lemma TextBelow(dir: seq<byte>, name: seq<byte>)
    ensures Text(Below(dir, name)) == Text(dir) + ("/" + Text(name))
  {
  }

  lemma PlaceBelow(dir: seq<byte>, name: seq<byte>)
    requires Proper(Text(name))
    ensures Resolved(Text(Below(dir, name))) == Resolved(Text(dir)) + [Text(name)]
  {
    hide Components, Fold, Text;
    TextBelow(dir, name);
    ResolvedJoin(Text(dir), Text(name));
    ComponentsOne(Text(name));
    FoldOne(Resolved(Text(dir)), Text(name));
  }

  lemma PlaceAlone(name: seq<byte>)
    requires Proper(Text(name))
    ensures Resolved(Text(name)) == [Text(name)]
  {
    hide Components, Fold, Text;
    ComponentsOne(Text(name));
    FoldOne([], Text(name));
  }

  function Top(): seq<Name> {
    [Text(PACKAGES)]
  }

  /** The places of a port: a directory two names deep and two files three names deep. */
  lemma PortPlaces(p: Port)
    requires GoodName(p.name)
    ensures
      var actions, dir := PortActions(p), Top() + [Text(p.name)];
      && PlaceOf(actions[0]) == dir
      && PlaceOf(actions[1]) == dir + [Text(MANIFEST)] && PlaceOf(actions[2]) == dir + [Text(BINARY)]
  {
    hide Resolved, Text;
    ConstantNames();
    PlaceAlone(PACKAGES);
    PlaceBelow(PACKAGES, p.name);
    PlaceBelow(PortDir(p), MANIFEST);
    PlaceBelow(PortDir(p), BINARY);
  }

  lemma PortSound(p: Port)
    requires GoodName(p.name)
    ensures forall i :: 0 <= i < 3 ==> Sound(Text(PortActions(p)[i].path))
  {
    hide Sound, Text, C.HasDotDot, Proper;
    ConstantNames();
    NoDots(PACKAGES, p.name);
    NoDots(PortDir(p), MANIFEST);
    NoDots(PortDir(p), BINARY);
    assert PortDir(p)[0] == 112;
    ActionSound(PortDir(p));
    ActionSound(Below(PortDir(p), MANIFEST));
    ActionSound(Below(PortDir(p), BINARY));
  }

  // ------------------------------------------------------------- the system unpacked into

  // Paths are taken from the root, and nothing is mounted below `packages`.
  ghost predicate Ready(w: V.World) {
    && V.Inv(w) && w.router.wd == "/"
    && forall i :: 0 <= i < |w.router.mounts| ==> !(Top() < Components(w.router.mounts[i].point))
  }

  lemma GoalIsPlace(w: V.World, a: C.Action)
    requires w.router.wd == "/"
    ensures Goal(w, a) == PlaceOf(a) && AllProper(PlaceOf(a))
  {
    hide Components, Fold, Text;
    R.RootNormal();
    ResolvedProper(Text(a.path));
  }

  lemma BelowInside(w: V.World, cs: seq<Name>)
    requires Ready(w) && AllProper(cs) && Top() < cs
    ensures V.Inside(w, cs)
  {
    hide Components, Render, R.FindFs, R.Join, R.Normal, Text, D.Inv;
    R.RenderNormal(cs);
    R.RoutesToLongestPrefix(w.router, Render(cs), 0);
    V.SpotFacts(w, cs);
  }

  // What is shown below `packages` has a directory above it.
  lemma ShownBelow(w: V.World, cs: seq<Name>)
    requires Ready(w) && AllProper(cs) && Top() < cs && V.View(w, cs).Some?
    ensures V.IsDirectory(V.View(w, Front(cs)))
  {
    hide V.View, V.Inside, Components, Text;
    BelowInside(w, cs);
    V.InsideParent(w, cs);
  }

  lemma PortProper(p: Port)
    requires GoodName(p.name)
    ensures
      var dir := Top() + [Text(p.name)];
      AllProper(Top()) && AllProper(dir) && AllProper(dir + [Text(MANIFEST)]) && AllProper(dir + [Text(BINARY)])
  {
    hide Text, Proper, C.HasDotDot;
    ConstantNames();
  }

  // ------------------------------------------------------------- without `packages`

  // An entry whose directory and that directory's own are not there.
  lemma DroppedAlone(w: V.World, a: C.Action)
    requires V.Inv(w) && w.router.wd == "/" && Sound(Text(a.path))
    requires PlaceOf(a) != [] && V.View(w, PlaceOf(a)).None? && !V.IsDirectory(V.View(w, Front(PlaceOf(a))))
    requires a.WriteWhole? ==>
      Front(PlaceOf(a)) != [] && !V.IsDirectory(V.View(w, Front(Front(PlaceOf(a)))))
    ensures Perform(w, a) == w
  {
    hide V.Inv, V.View, Perform, Text, Sound, PlaceOf, Goal, V.Removable, ParentOf, V.Goal;
    GoalIsPlace(w, a);
    PerformRefused(w, a);
  }

  lemma {:induction false} PortDropped(w: V.World, p: Port)
    requires Ready(w) && GoodName(p.name) && !V.IsDirectory(V.View(w, Top()))
    ensures PerformAll(w, PortActions(p)) == w
  {
    var actions, dir := PortActions(p), Top() + [Text(p.name)];
    var man, bin := dir + [Text(MANIFEST)], dir + [Text(BINARY)];
    NothingBelow(w, p);
    hide Ready, V.View, Perform, Sound, Text, PlaceOf, C.HasDotDot, Below;
    PortPlaces(p);
    PortSound(p);
    assert Front(dir) == Top() && Front(man) == dir && Front(bin) == dir;
    DroppedAlone(w, actions[0]);
    DroppedAlone(w, actions[1]);
    DroppedAlone(w, actions[2]);
    ThreeActions(w, p);
  }

  lemma NothingBelow(w: V.World, p: Port)
    requires Ready(w) && GoodName(p.name) && !V.IsDirectory(V.View(w, Top()))
    ensures
      var dir := Top() + [Text(p.name)];
      && V.Inv(w) && w.router.wd == "/"
      && V.View(w, dir).None? && V.View(w, dir + [Text(MANIFEST)]).None? && V.View(w, dir + [Text(BINARY)]).None?
  {
    hide V.View, V.Inv, Text, Components;
    var dir := Top() + [Text(p.name)];
    var man, bin := dir + [Text(MANIFEST)], dir + [Text(BINARY)];
    PortProper(p);
    assert Front(dir) == Top() && Front(man) == dir && Front(bin) == dir;
    if V.View(w, dir).Some? { ShownBelow(w, dir); }
    if V.View(w, man).Some? { ShownBelow(w, man); }
    if V.View(w, bin).Some? { ShownBelow(w, bin); }
  }

  lemma {:induction false} ThreeActions(w: V.World, p: Port)
    ensures
      var a := PortActions(p);
      PerformAll(w, a) == Perform(Perform(Perform(w, a[0]), a[1]), a[2])
  {
    hide Perform, Below, PortDir;
    var a := PortActions(p);
    assert a[1..][1..][1..] == [];
    var w1 := Perform(w, a[0]);
    var w2 := Perform(w1, a[1]);
    assert PerformAll(w2, a[1..][1..]) == PerformAll(Perform(w2, a[2]), a[1..][1..][1..]);
    assert PerformAll(w1, a[1..]) == PerformAll(w2, a[1..][1..]);
  }

  lemma {:induction false} PortsDropped(w: V.World, ports: seq<Port>)
    requires Ready(w) && GoodPorts(ports) && !V.IsDirectory(V.View(w, Top()))
    ensures PerformAll(w, AllPortActions(ports)) == w
    decreases |ports|
  {
    hide Ready, PortActions, GoodName, V.View;
    if ports != [] {
      PortDropped(w, ports[0]);
      PerformAllAppend(w, PortActions(ports[0]), AllPortActions(ports[1..]));
      hide PerformAll;
      PortsDropped(w, ports[1..]);
    } else {
      assert AllPortActions(ports) == [];
    }
  }

  /**
   * Into a system without a directory `packages`, whatever else it holds and has mounted, unpacking the
   * archive the build script writes changes nothing: every entry is dropped.
   */
  lemma {:induction false} PortArchiveIsLost(w: V.World, ports: seq<Port>)
    requires Ready(w) && GoodPorts(ports) && Archivable(ArchiveOf(ports)) && !V.IsDirectory(V.View(w, Top()))
    ensures PerformAll(w, Asked(C.WrittenAll([], ArchiveOf(ports)))) == w
  {
    hide Ready, GoodPorts, PerformAll, Asked, C.WrittenAll, Archivable, ArchiveOf, V.View;
    AskedIs(ArchiveOf(ports));
    ArchiveAsked(ports);
    PortsDropped(w, ports);
  }

  lemma {:induction false} BootReady()
    ensures Ready(V.Boot()) && !V.IsDirectory(V.View(V.Boot(), Top()))
  {
    hide Describes, Text, V.View, Components, Proper, C.HasDotDot;
    R.RootNormal();
    V.BootInv();
    ConstantNames();
    assert AllProper(Top());
    BootShownAs(Top());
  }

  lemma BootShownAs(cs: seq<Name>)
    requires AllProper(cs)
    ensures ShownAs(V.Boot(), BootListing(), cs)
  {
    hide OneMount, V.Inv, ShownAs, V.Boot;
    BootDescribed();
  }

  /** The empty system is such a one. */
  lemma {:induction false} BootLosesPorts(ports: seq<Port>)
    requires GoodPorts(ports) && Archivable(ArchiveOf(ports))
    ensures PerformAll(V.Boot(), Asked(C.WrittenAll([], ArchiveOf(ports)))) == V.Boot()
  {
    hide Ready, GoodPorts, PerformAll, Asked, C.WrittenAll, Archivable, ArchiveOf, V.Boot, V.View;
    BootReady();
    PortArchiveIsLost(V.Boot(), ports);
  }

  // ------------------------------------------------------------- with it

  // Nothing of the port is shown.
  ghost predicate Absent(w: V.World, p: Port) {
    var dir := Top() + [Text(p.name)];
    V.View(w, dir).None? && V.View(w, dir + [Text(MANIFEST)]).None? && V.View(w, dir + [Text(BINARY)]).None?
  }

  // Nothing of these ports is shown, and their names differ.
  ghost predicate NewPorts(w: V.World, ports: seq<Port>) {
    && (forall i :: 0 <= i < |ports| ==> Absent(w, ports[i]))
    && (forall i, j :: 0 <= i < j < |ports| ==> Text(ports[i].name) != Text(ports[j].name))
  }

  lemma FileNamesDiffer()
    ensures Text(MANIFEST) != Text(BINARY)
  {
    assert Text(MANIFEST)[0] == 'm' && Text(BINARY)[0] == 'a';
  }

  // An entry for a free place below a directory is the one change.
  lemma PlacedAlone(w: V.World, a: C.Action, cs: seq<Name>)
    requires V.Inv(w) && w.router.wd == "/" && Sound(Text(a.path)) && AllProper(cs)
    requires PlaceOf(a) != [] && V.View(w, PlaceOf(a)).None? && V.IsDirectory(V.View(w, Front(PlaceOf(a))))
    requires |Leaves(a).data| < WORD
    ensures V.Inv(Perform(w, a)) && Perform(w, a).router == w.router
    ensures V.View(Perform(w, a), cs) == if cs == PlaceOf(a) then Some(Leaves(a)) else V.View(w, cs)
  {
    hide V.Inv, V.View, Perform, Text, Sound, PlaceOf, Goal, V.Removable, ParentOf, V.Goal, AllProper;
    GoalIsPlace(w, a);
    PerformShows(w, a, cs);
  }

  // What a system shows once the port is there.
  ghost function WithPort(w: V.World, p: Port, cs: seq<Name>): Option<V.Node> {
    var dir := Top() + [Text(p.name)];
    if cs == dir then Some(V.Node(Directory, []))
    else if cs == dir + [Text(MANIFEST)] then Some(V.Node(File, p.manifest))
    else if cs == dir + [Text(BINARY)] then Some(V.Node(File, p.binary))
    else V.View(w, cs)
  }

  lemma {:induction false} PortPlaced(w: V.World, p: Port, cs: seq<Name>)
    requires V.Inv(w) && w.router.wd == "/" && GoodName(p.name) && AllProper(cs)
    requires |p.manifest| < WORD && |p.binary| < WORD
    requires V.IsDirectory(V.View(w, Top())) && Absent(w, p)
    ensures
      var w' := PerformAll(w, PortActions(p));
      V.Inv(w') && w'.router == w.router && V.View(w', cs) == WithPort(w, p, cs)
  {
    hide V.Inv, V.View, Perform, Sound, Text, PlaceOf, C.HasDotDot, Below, AllProper, PerformAll, Proper;
    var a, dir := PortActions(p), Top() + [Text(p.name)];
    var man, bin := dir + [Text(MANIFEST)], dir + [Text(BINARY)];
    PortPlaces(p);
    PortSound(p);
    PortProper(p);
    FileNamesDiffer();
    ThreeActions(w, p);
    assert Front(dir) == Top() && Front(man) == dir && Front(bin) == dir;
    assert man[|dir|] != bin[|dir|] && dir != man && dir != bin;
    PlacedAlone(w, a[0], dir);
    PlacedAlone(w, a[0], man);
    PlacedAlone(w, a[0], bin);
    PlacedAlone(w, a[0], cs);
    var w1 := Perform(w, a[0]);
    PlacedAlone(w1, a[1], dir);
    PlacedAlone(w1, a[1], bin);
    PlacedAlone(w1, a[1], cs);
    var w2 := Perform(w1, a[1]);
    PlacedAlone(w2, a[2], cs);
  }

  // Another port's places are not among them.
  lemma OtherPort(w: V.World, p: Port, q: Port)
    requires Text(p.name) != Text(q.name)
    ensures
      var dir := Top() + [Text(q.name)];
      && WithPort(w, p, dir) == V.View(w, dir)
      && WithPort(w, p, dir + [Text(MANIFEST)]) == V.View(w, dir + [Text(MANIFEST)])
      && WithPort(w, p, dir + [Text(BINARY)]) == V.View(w, dir + [Text(BINARY)])
  {
    hide V.View, Text;
    var d, e := Top() + [Text(p.name)], Top() + [Text(q.name)];
    assert d[1] != e[1];
    assert (d + [Text(MANIFEST)])[1] == d[1] && (d + [Text(BINARY)])[1] == d[1];
    assert (e + [Text(MANIFEST)])[1] == e[1] && (e + [Text(BINARY)])[1] == e[1];
  }

  lemma {:induction false} Bodies(ports: seq<Port>)
    requires ports != [] && Archivable(ArchiveOf(ports))
    ensures Archivable(ArchiveOf(ports[1..])) && |ports[0].manifest| < WORD && |ports[0].binary| < WORD
  {
    hide Below, PortDir;
    var es, rest := ArchiveOf(ports), ArchiveOf(ports[1..]);
    assert es == PortEntries(ports[0]) + rest;
    assert es[1].body == ports[0].manifest && es[2].body == ports[0].binary;
    forall i | 0 <= i < |rest| ensures C.Representable(rest[i]) && rest[i].name != C.TRAILER {
      assert rest[i] == es[3 + i];
    }
  }

  // After one port the others are still new, and `packages` is still there.
  lemma {:induction false} NewAfterOne(w: V.World, ports: seq<Port>)
    requires V.Inv(w) && w.router.wd == "/" && GoodPorts(ports) && NewPorts(w, ports) && ports != []
    requires V.IsDirectory(V.View(w, Top())) && |ports[0].manifest| < WORD && |ports[0].binary| < WORD
    ensures
      var w' := PerformAll(w, PortActions(ports[0]));
      && V.Inv(w') && w'.router == w.router && V.IsDirectory(V.View(w', Top())) && NewPorts(w', ports[1..])
  {
    hide V.Inv, V.View, PerformAll, PortActions, Text, Proper, C.HasDotDot, WithPort;
    var w', p := PerformAll(w, PortActions(ports[0])), ports[0];
    assert GoodName(p.name) && Absent(w, p);
    PortProper(p);
    PortPlaced(w, p, Top());
    TopStays(w, p);
    forall i | 0 <= i < |ports[1..]| ensures Absent(w', ports[1..][i]) {
      var q := ports[i + 1];
      assert ports[1..][i] == q && GoodName(q.name) && Absent(w, q);
      PortProper(q);
      OtherPort(w, p, q);
      PortPlaced(w, p, Top() + [Text(q.name)]);
      PortPlaced(w, p, Top() + [Text(q.name)] + [Text(MANIFEST)]);
      PortPlaced(w, p, Top() + [Text(q.name)] + [Text(BINARY)]);
    }
  }

  lemma TopStays(w: V.World, p: Port)
    ensures WithPort(w, p, Top()) == V.View(w, Top())
  {
    hide V.View, Text;
  }

  // A binary that is there stays when other ports come.
  lemma {:induction false} BinaryStays(w: V.World, ports: seq<Port>, q: Port)
    requires V.Inv(w) && w.router.wd == "/" && GoodPorts(ports) && Archivable(ArchiveOf(ports)) && NewPorts(w, ports)
    requires V.IsDirectory(V.View(w, Top())) && GoodName(q.name)
    requires forall i :: 0 <= i < |ports| ==> Text(ports[i].name) != Text(q.name)
    ensures
      var bin := Top() + [Text(q.name)] + [Text(BINARY)];
      V.View(PerformAll(w, AllPortActions(ports)), bin) == V.View(w, bin)
    decreases |ports|
  {
    hide V.Inv, V.View, PortActions, Text, Proper, C.HasDotDot, WithPort, Archivable, NewPorts, GoodName;
    if ports == [] {
      assert AllPortActions(ports) == [];
    } else {
      Bodies(ports);
      assert Absent(w, ports[0]) by { FirstAbsent(w, ports); }
      NewAfterOne(w, ports);
      PerformAllAppend(w, PortActions(ports[0]), AllPortActions(ports[1..]));
      hide PerformAll;
      PortProper(q);
      OtherPort(w, ports[0], q);
      PortPlaced(w, ports[0], Top() + [Text(q.name)] + [Text(BINARY)]);
      BinaryStays(PerformAll(w, PortActions(ports[0])), ports[1..], q);
    }
  }

  lemma FirstAbsent(w: V.World, ports: seq<Port>)
    requires NewPorts(w, ports) && ports != []
    ensures Absent(w, ports[0])
    ensures forall i :: 0 <= i < |ports| - 1 ==> Text(ports[1..][i].name) != Text(ports[0].name)
  {
    hide Absent, Text;
  }

  lemma {:induction false} PortsPlaced(w: V.World, ports: seq<Port>, i: nat)
    requires V.Inv(w) && w.router.wd == "/" && GoodPorts(ports) && Archivable(ArchiveOf(ports)) && NewPorts(w, ports)
    requires V.IsDirectory(V.View(w, Top())) && i < |ports|
    ensures
      var bin := Top() + [Text(ports[i].name)] + [Text(BINARY)];
      V.View(PerformAll(w, AllPortActions(ports)), bin) == Some(V.Node(File, ports[i].binary))
    decreases i
  {
    hide V.Inv, V.View, PortActions, Text, Proper, C.HasDotDot, WithPort, Archivable, NewPorts, GoodName, Absent;
    var p, w' := ports[0], PerformAll(w, PortActions(ports[0]));
    Bodies(ports);
    FirstAbsent(w, ports);
    NewAfterOne(w, ports);
    PerformAllAppend(w, PortActions(p), AllPortActions(ports[1..]));
    hide PerformAll;
    if i == 0 {
      PortProper(p);
      PortPlaced(w, p, Top() + [Text(p.name)] + [Text(BINARY)]);
      BinaryThere(w, p);
      BinaryStays(w', ports[1..], p);
    } else {
      PortsPlaced(w', ports[1..], i - 1);
    }
  }

  lemma BinaryThere(w: V.World, p: Port)
    ensures WithPort(w, p, Top() + [Text(p.name)] + [Text(BINARY)]) == Some(V.Node(File, p.binary))
  {
    hide V.View, Text;
    FileNamesDiffer();
    var dir := Top() + [Text(p.name)];
    assert (dir + [Text(MANIFEST)])[2] != (dir + [Text(BINARY)])[2];
  }

  /**
   * Exactly when the archive of the build script arrives: of ports that are new to the system, each
   * shows its binary after unpacking if and only if `packages` was a directory before.
   */
  lemma {:induction false} PortShownIff(w: V.World, ports: seq<Port>, i: nat)
    requires Ready(w) && GoodPorts(ports) && Archivable(ArchiveOf(ports)) && NewPorts(w, ports) && i < |ports|
    ensures
      var w' := PerformAll(w, Asked(C.WrittenAll([], ArchiveOf(ports))));
      V.IsDirectory(V.View(w, Top())) <==>
        V.View(w', Top() + [Text(ports[i].name)] + [Text(BINARY)]) == Some(V.Node(File, ports[i].binary))
  {
    hide PerformAll, Asked, C.WrittenAll, Archivable, ArchiveOf, V.View, V.Inv, AllPortActions, Text, GoodPorts,
         Components;
    if V.IsDirectory(V.View(w, Top())) {
      AskedIs(ArchiveOf(ports));
      ArchiveAsked(ports);
      PortsPlaced(w, ports, i);
    } else {
      PortArchiveIsLost(w, ports);
      assert Absent(w, ports[i]);
    }
  }
}
