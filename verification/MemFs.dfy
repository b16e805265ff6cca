/**
 * The name space of the in-memory file system: the inode tree changed by create, mkdir and unlink,
 * and what each change means for every path.
 */
module MemFs {
  import opened Arithmetic
  import opened Wrappers
  import opened Paths
  import opened Tree

  datatype Descriptor = Descriptor(fd: nat, ino: nat, offset: nat, flags: nat)

  datatype Fs = Fs(inodes: Inodes, nextIno: nat, fds: map<nat, Descriptor>, nextFd: nat)

  // ------------------------------------------------------------- changing the tree

  function Insert(t: Inodes, ino: nat, name: Name, kind: Kind, parent: nat): Inodes
    requires parent in t
  {
    var grown := t[ino := NewInode(name, kind, parent)];
    grown[parent := grown[parent].(children := grown[parent].children + [ino])]
  }

  // `Vec::retain(|c| c != gone)`.
  function Without(s: seq<nat>, gone: nat): seq<nat> {
    if s == [] then []
    else (if s[0] == gone then [] else [s[0]]) + Without(s[1..], gone)
  }

  function Remove(t: Inodes, parent: nat, child: nat): Inodes
    requires parent in t
  {
    t[parent := t[parent].(children := Without(t[parent].children, child))] - {child}
  }

  lemma {:induction false} WithoutMembers(s: seq<nat>, gone: nat)
    ensures forall c :: c in Without(s, gone) <==> c in s && c != gone
    ensures NoDuplicates(s) ==> NoDuplicates(Without(s, gone))
    ensures s == [] ==> Without(s, gone) == []
    decreases |s|
  {
    if s != [] {
      WithoutMembers(s[1..], gone);
      assert s == [s[0]] + s[1..];
      assert NoDuplicates(s) ==> s[0] !in s[1..];
    }
  }

  ghost predicate CanInsert(t: Inodes, bound: nat, name: Name, parent: nat) {
    && TreeInv(t, bound) && parent in t && t[parent].kind == Directory
    && Proper(name) && LookupChild(t, parent, name) == None
  }

  lemma InsertNodes(t: Inodes, bound: nat, name: Name, kind: Kind, parent: nat)
    requires CanInsert(t, bound, name, parent)
    ensures Rooted(Insert(t, bound, name, kind, parent))
    ensures NodesOk(Insert(t, bound, name, kind, parent), bound + 1)
  {
    hide FindNamed, SiblingsDiffer, ChildrenOk;
    var t' := Insert(t, bound, name, kind, parent);
    assert NodeOk(t, parent);
    forall i | i in t' ensures ROOT <= i < bound + 1 && NodeOk(t', i) {
      if i != bound {
        assert NodeOk(t, i);
        if i == parent { NewestIsFresh(t, bound, parent); }
      }
    }
  }

  lemma NewestIsFresh(t: Inodes, bound: nat, parent: nat)
    requires TreeInv(t, bound) && parent in t
    ensures NoDuplicates(t[parent].children + [bound])
  {
    var kids := t[parent].children;
    assert NodeOk(t, parent);
    forall i | 0 <= i < |kids| ensures kids[i] != bound {
      assert ChildOk(t, parent, kids[i]);
    }
  }

  lemma InsertChildren(t: Inodes, bound: nat, name: Name, kind: Kind, parent: nat)
    requires CanInsert(t, bound, name, parent)
    ensures ChildrenOk(Insert(t, bound, name, kind, parent))
  {
    hide FindNamed, SiblingsDiffer, NodeOk;
    var t' := Insert(t, bound, name, kind, parent);
    forall p, c | p in t' && c in t'[p].children ensures ChildOk(t', p, c) {
      assert p in t && c in t[p].children ==> ChildOk(t, p, c);
    }
  }

  lemma InsertSiblings(t: Inodes, bound: nat, name: Name, kind: Kind, parent: nat)
    requires CanInsert(t, bound, name, parent)
    ensures SiblingsDiffer(Insert(t, bound, name, kind, parent))
  {
    hide FindNamed, ChildrenOk, NodeOk, LookupChild;
    var t' := Insert(t, bound, name, kind, parent);
    forall c: nat ensures c in t && c != ROOT && t[c].parent == parent ==> t[c].name != name {
      LookupChildIff(t, bound, parent, c, name);
    }
  }

  /** Adding a fresh proper name below a directory keeps the tree. */
  lemma InsertInv(t: Inodes, bound: nat, name: Name, kind: Kind, parent: nat)
    requires CanInsert(t, bound, name, parent)
    ensures TreeInv(Insert(t, bound, name, kind, parent), bound + 1)
  {
    InsertNodes(t, bound, name, kind, parent);
    InsertChildren(t, bound, name, kind, parent);
    InsertSiblings(t, bound, name, kind, parent);
  }

  ghost predicate CanRemove(t: Inodes, bound: nat, child: nat) {
    TreeInv(t, bound) && child in t && child != ROOT && t[child].children == [] && t[child].parent in t
  }

  lemma RemoveNode(t: Inodes, parent: nat, child: nat, i: nat)
    requires parent in t && child in t && t[child].children == [] && parent != child
    requires i in t && i != child && NodeOk(t, i)
    ensures NodeOk(Remove(t, parent, child), i)
  {
    hide Without, NoDuplicates, Proper;
    WithoutMembers(t[parent].children, child);
    assert i != ROOT ==> t[i].parent != child;
  }

  lemma RemoveNodes(t: Inodes, bound: nat, child: nat)
    requires CanRemove(t, bound, child)
    ensures Rooted(Remove(t, t[child].parent, child))
    ensures NodesOk(Remove(t, t[child].parent, child), bound)
  {
    hide SiblingsDiffer, ChildrenOk, Without, NoDuplicates;
    var parent := t[child].parent;
    var t' := Remove(t, parent, child);
    assert NodeOk(t, child);
    hide NodeOk;
    forall i | i in t' ensures ROOT <= i < bound && NodeOk(t', i) {
      RemoveNode(t, parent, child, i);
    }
  }

  lemma RemoveChildren(t: Inodes, bound: nat, child: nat)
    requires CanRemove(t, bound, child)
    ensures ChildrenOk(Remove(t, t[child].parent, child))
  {
    hide SiblingsDiffer, Without, NodesOk;
    var parent := t[child].parent;
    var t' := Remove(t, parent, child);
    WithoutMembers(t[parent].children, child);
    forall p, c | p in t' && c in t'[p].children ensures ChildOk(t', p, c) {
      assert ChildOk(t, p, c);
    }
  }

  lemma RemoveSiblings(t: Inodes, parent: nat, child: nat)
    requires SiblingsDiffer(t) && parent in t
    ensures SiblingsDiffer(Remove(t, parent, child))
  {
    hide Without;
  }

  /** Taking a leaf away keeps the tree. */
  lemma RemoveInv(t: Inodes, bound: nat, child: nat)
    requires CanRemove(t, bound, child)
    ensures TreeInv(Remove(t, t[child].parent, child), bound)
  {
    RemoveNodes(t, bound, child);
    RemoveChildren(t, bound, child);
    RemoveSiblings(t, t[child].parent, child);
  }

  // New contents for a file.
  function SetData(t: Inodes, i: nat, data: seq<byte>): Inodes
    requires i in t
  {
    t[i := t[i].(data := data, size := |data|)]
  }

  lemma SetDataNodes(t: Inodes, bound: nat, i: nat, data: seq<byte>)
    requires NodesOk(t, bound) && i in t
    ensures NodesOk(SetData(t, i, data), bound)
  {
    hide NoDuplicates, Proper;
    var t' := SetData(t, i, data);
    forall j | j in t' ensures ROOT <= j < bound && NodeOk(t', j) {
      assert NodeOk(t, j);
    }
  }

  lemma SetDataEdges(t: Inodes, i: nat, data: seq<byte>)
    requires ChildrenOk(t) && i in t
    ensures ChildrenOk(SetData(t, i, data))
  {
    var t' := SetData(t, i, data);
    forall p, c | p in t' && c in t'[p].children ensures ChildOk(t', p, c) {
      assert ChildOk(t, p, c);
    }
  }

  lemma SetDataNames(t: Inodes, i: nat, data: seq<byte>)
    requires SiblingsDiffer(t) && i in t
    ensures SiblingsDiffer(SetData(t, i, data))
  {
  }

  /** New contents keep the tree. */
  lemma SetDataInv(t: Inodes, bound: nat, i: nat, data: seq<byte>)
    requires TreeInv(t, bound) && i in t
    ensures TreeInv(SetData(t, i, data), bound)
  {
    hide NodesOk, ChildrenOk, SiblingsDiffer;
    SetDataNodes(t, bound, i, data);
    SetDataEdges(t, i, data);
    SetDataNames(t, i, data);
  }

  // ------------------------------------------------------------- what the names mean

  // Every inode of `small` is in `big` under the same name and parent.
  ghost predicate Within(small: Inodes, big: Inodes) {
    forall i :: i in small ==> i in big && big[i].name == small[i].name && big[i].parent == small[i].parent
  }

  lemma {:induction false} WithinKeepsPaths(small: Inodes, low: nat, big: Inodes, high: nat, i: nat)
    requires TreeInv(small, low) && TreeInv(big, high) && Within(small, big) && i in small
    ensures PathOf(small, low, i) == PathOf(big, high, i)
    decreases i
  {
    hide SiblingsDiffer, ChildrenOk, NoDuplicates, Proper;
    assert NodeOk(small, i) && NodeOk(big, i);
    if i != ROOT { WithinKeepsPaths(small, low, big, high, small[i].parent); }
  }

  // A larger tree answers like the smaller one, except with inodes the smaller one lacks.
  lemma {:induction false} WithinAgrees(small: Inodes, low: nat, big: Inodes, high: nat, cs: seq<Name>)
    requires TreeInv(small, low) && TreeInv(big, high) && Within(small, big) && AllProper(cs)
    ensures match Follow(big, cs, ROOT)
      case None => Follow(small, cs, ROOT) == None
      case Some(i) => Follow(small, cs, ROOT) == if i in small then Some(i) else None
  {
    hide TreeInv, PathOf, Follow, AllProper;
    var a, b := Follow(small, cs, ROOT), Follow(big, cs, ROOT);
    if a.Some? {
      ProperPathIff(small, low, cs, a.value);
      WithinKeepsPaths(small, low, big, high, a.value);
      ProperPathIff(big, high, cs, a.value);
    }
    if b.Some? && b.value in small {
      ProperPathIff(big, high, cs, b.value);
      WithinKeepsPaths(small, low, big, high, b.value);
      ProperPathIff(small, low, cs, b.value);
    }
  }

  /** After an insertion exactly one more name list resolves, to the new inode. */
  lemma {:induction false} InsertMeaning(t: Inodes, bound: nat, name: Name, kind: Kind, parent: nat, cs: seq<Name>)
    requires CanInsert(t, bound, name, parent) && AllProper(cs)
    ensures Follow(Insert(t, bound, name, kind, parent), cs, ROOT)
      == if cs == PathOf(t, bound, parent) + [name] then Some(bound) else Follow(t, cs, ROOT)
  {
    hide Follow, NodeOk, AllProper, ChildrenOk, SiblingsDiffer, FindNamed;
    var t' := Insert(t, bound, name, kind, parent);
    InsertInv(t, bound, name, kind, parent);
    WithinAgrees(t, bound, t', bound + 1, cs);
    WithinKeepsPaths(t, bound, t', bound + 1, parent);
    ProperPathIff(t', bound + 1, cs, bound);
    var r := Follow(t', cs, ROOT);
    if r.Some? { ProperPathIff(t', bound + 1, cs, r.value); }
  }

  /** After a removal exactly one name list less resolves. */
  lemma {:induction false} RemoveMeaning(t: Inodes, bound: nat, child: nat, cs: seq<Name>)
    requires CanRemove(t, bound, child) && AllProper(cs)
    ensures Follow(Remove(t, t[child].parent, child), cs, ROOT)
      == if cs == PathOf(t, bound, child) then None else Follow(t, cs, ROOT)
  {
    hide Follow, PathOf, NodeOk, AllProper, ChildrenOk, SiblingsDiffer, Without;
    var t' := Remove(t, t[child].parent, child);
    RemoveInv(t, bound, child);
    WithinAgrees(t', bound, t, bound, cs);
    ProperPathIff(t, bound, cs, child);
    var r := Follow(t, cs, ROOT);
    if r.Some? { ProperPathIff(t, bound, cs, r.value); }
  }

  // A step that succeeds in the smaller tree gives the same inode in the larger one.
  lemma {:induction false} FollowGrows(small: Inodes, low: nat, big: Inodes, high: nat, cs: seq<Name>, cur: nat)
    requires TreeInv(small, low) && TreeInv(big, high) && Within(small, big) && cur in small && Pieces(cs)
    requires Follow(small, cs, cur).Some?
    ensures Follow(big, cs, cur) == Follow(small, cs, cur)
    decreases |cs|
  {
    hide TreeInv, PathOf, StepInto;
    if cs != [] {
      var next := StepInto(small, cur, cs[0]).value;
      StepIsPush(small, low, cur, cs[0]);
      StepGrows(small, low, big, high, cs[0], cur);
      FollowGrows(small, low, big, high, cs[1..], next);
    }
  }

  lemma StepGrows(small: Inodes, low: nat, big: Inodes, high: nat, c: Name, cur: nat)
    requires TreeInv(small, low) && TreeInv(big, high) && Within(small, big) && cur in small
    requires StepInto(small, cur, c).Some?
    ensures StepInto(big, cur, c) == StepInto(small, cur, c)
  {
    hide TreeInv, LookupChild;
    if c != "." && c != ".." {
      var n := LookupChild(small, cur, c).value;
      LookupChildIff(small, low, cur, n, c);
      LookupChildIff(big, high, cur, n, c);
    }
  }

  /** Whatever path resolves in a tree resolves alike in every tree that contains it. */
  lemma LookupGrows(small: Inodes, low: nat, big: Inodes, high: nat, path: string)
    requires TreeInv(small, low) && TreeInv(big, high) && Within(small, big)
    requires Lookup(small, path).Some?
    ensures Lookup(big, path) == Lookup(small, path)
  {
    hide TreeInv, Lookup, Components, Follow;
    RootFacts(small, low);
    ComponentsArePieces(path);
    LookupIsFollow(small, low, path);
    LookupIsFollow(big, high, path);
    FollowGrows(small, low, big, high, Components(path), ROOT);
  }

  // ------------------------------------------------------------- the parent of a path

  function LookupParent(t: Inodes, path: string): Option<(nat, Name)> {
    var p := TrimEnd(path);
    if p == "" then None
    else
      var i := LastSlash(p);
      if i == |p| then Some((ROOT, p))
      else
        match Lookup(t, if i == 0 then "/" else p[..i])
        case None => None
        case Some(dir) => Some((dir, p[i + 1..]))
  }

  // The components of a path are those of its parent and the last name.
  lemma ParentComponents(t: Inodes, bound: nat, path: string) returns (front: seq<Name>)
    requires TreeInv(t, bound) && LookupParent(t, path).Some?
    ensures var (dir, name) := LookupParent(t, path).value;
      name != "" && NoSlash(name) && Components(path) == front + [name] && Follow(t, front, ROOT) == Some(dir)
  {
    hide TreeInv, Lookup, Components, Follow, TrimEnd, LastSlash;
    var p := TrimEnd(path);
    var i := LastSlash(p);
    ComponentsTrimEnd(path);
    if i == |p| {
      ComponentsOne(p);
      FollowNone(t, ROOT);
      front := [];
    } else {
      var dir, name := p[..i], p[i + 1..];
      assert p == dir + ("/" + name);
      SlashedParent(t, bound, dir, name);
      front := Components(dir);
    }
  }

  lemma {:induction false} SlashedParent(t: Inodes, bound: nat, dir: string, name: Name)
    requires TreeInv(t, bound) && name != "" && NoSlash(name)
    ensures Components(dir + ("/" + name)) == Components(dir) + [name]
    ensures Lookup(t, if dir == "" then "/" else dir) == Follow(t, Components(dir), ROOT)
  {
    hide TreeInv, Lookup, Components, Follow;
    ComponentsJoin(dir, name);
    ComponentsOne(name);
    ComponentsOne("");
    ComponentsJoin("", "");
    assert "" + ("/" + "") == "/";
    LookupIsFollow(t, bound, if dir == "" then "/" else dir);
  }

  /** The parent of a path is found exactly when all names but the last resolve. */
  lemma {:induction false} ParentFoundIff(t: Inodes, bound: nat, path: string)
    requires TreeInv(t, bound)
    ensures LookupParent(t, path).Some?
       <==> var cs := Components(path); cs != [] && Follow(t, cs[..|cs| - 1], ROOT).Some?
  {
    hide TreeInv, Lookup, Components, Follow, TrimEnd, LastSlash;
    if LookupParent(t, path).Some? {
      var front := ParentComponents(t, bound, path);
      assert Components(path)[..|front|] == front;
    } else {
      var p := TrimEnd(path);
      var i := LastSlash(p);
      ComponentsTrimEnd(path);
      ComponentsOne("");
      if p != "" {
        var dir, name := p[..i], p[i + 1..];
        assert p == dir + ("/" + name);
        SlashedParent(t, bound, dir, name);
        assert Components(path)[..|Components(dir)|] == Components(dir);
      }
    }
  }

  /** Looking a path up is one step from its parent, to the name its normal form ends with. */
  lemma {:induction false} ParentStep(t: Inodes, bound: nat, path: string)
    requires TreeInv(t, bound) && LookupParent(t, path).Some?
    ensures var (dir, name) := LookupParent(t, path).value;
      && dir in t && name != "" && NoSlash(name)
      && Lookup(t, path) == StepInto(t, dir, name)
      && Resolved(path) == Push(PathOf(t, bound, dir), name)
  {
    hide TreeInv, Lookup, Components, Follow, Fold, PathOf, StepInto, LookupParent;
    var (dir, name) := LookupParent(t, path).value;
    var front := ParentComponents(t, bound, path);
    RootFacts(t, bound);
    LookupIsFollow(t, bound, path);
    ComponentsArePieces(path);
    assert forall i :: 0 <= i < |front| ==> front[i] == Components(path)[i];
    FollowIsFold(t, bound, front, ROOT);
    FollowAppend(t, front, [name], ROOT);
    FollowOne(t, name, dir);
    FoldAppend([], front, [name]);
    FoldOne(Fold([], front), name);
  }

  // ------------------------------------------------------------- create, mkdir, unlink

  function Create(fs: Fs, path: string, kind: Kind): (Fs, Option<nat>) {
    if Lookup(fs.inodes, path).Some? then (fs, None)
    else
      match LookupParent(fs.inodes, path)
      case None => (fs, None)
      case Some((dir, name)) =>
        if dir !in fs.inodes || fs.inodes[dir].kind != Directory then (fs, None)
        else
          (fs.(inodes := Insert(fs.inodes, fs.nextIno, name, kind, dir), nextIno := fs.nextIno + 1), Some(fs.nextIno))
  }

  function Mkdir(fs: Fs, path: string): (Fs, Result<()>) {
    if path == "/" then (fs, Ok(()))
    else if LookupParent(fs.inodes, path).None? then (fs, Err(InvalidPath))
    else
      match Create(fs, path, Directory)
      case (made, None) => (made, Err(PermissionDenied))
      case (made, Some(_)) => (made, Ok(()))
  }

  function Unlink(fs: Fs, path: string): (Fs, Result<()>) {
    match LookupParent(fs.inodes, path)
    case None => (fs, Err(FileNotFound))
    case Some((dir, name)) =>
      match LookupChild(fs.inodes, dir, name)
      case None => (fs, Err(FileNotFound))
      case Some(child) =>
        if child !in fs.inodes then (fs, Err(FileNotFound))
        else if fs.inodes[child].kind == Directory && fs.inodes[child].children != [] then (fs, Err(DirectoryNotEmpty))
        else (fs.(inodes := Remove(fs.inodes, dir, child)), Ok(()))
  }

  // What create checked before it inserts is what the tree needs.
  lemma CreateCanInsert(fs: Fs, path: string, kind: Kind)
    requires TreeInv(fs.inodes, fs.nextIno) && Create(fs, path, kind).1.Some?
    ensures var (dir, name) := LookupParent(fs.inodes, path).value;
      CanInsert(fs.inodes, fs.nextIno, name, dir) && Resolved(path) == PathOf(fs.inodes, fs.nextIno, dir) + [name]
  {
    hide TreeInv, Lookup, LookupParent, PathOf, LookupChild, Resolved;
    ParentStep(fs.inodes, fs.nextIno, path);
  }

  /**
   * A successful create makes exactly one more name list resolve, the normal form of its path, to an
   * inode number not used before; a failed one changes nothing.
   */
  lemma {:induction false} CreateEffect(fs: Fs, path: string, kind: Kind, cs: seq<Name>)
    requires TreeInv(fs.inodes, fs.nextIno) && AllProper(cs)
    ensures var (made, r) := Create(fs, path, kind);
      && TreeInv(made.inodes, made.nextIno)
      && (r.None? ==> made == fs)
      && (r.Some? ==>
        && r.value == fs.nextIno
        && Follow(made.inodes, cs, ROOT) == if cs == Resolved(path) then r else Follow(fs.inodes, cs, ROOT))
  {
    if Create(fs, path, kind).1.Some? {
      hide TreeInv, Lookup, LookupParent, PathOf, Resolved, Follow, Insert, CanInsert, AllProper;
      CreateCanInsert(fs, path, kind);
      var (dir, name) := LookupParent(fs.inodes, path).value;
      InsertInv(fs.inodes, fs.nextIno, name, kind, dir);
      InsertMeaning(fs.inodes, fs.nextIno, name, kind, dir, cs);
    }
  }

  lemma InsertWithin(t: Inodes, bound: nat, name: Name, kind: Kind, parent: nat)
    requires CanInsert(t, bound, name, parent)
    ensures Within(t, Insert(t, bound, name, kind, parent))
  {
    hide NodeOk, ChildrenOk, SiblingsDiffer;
  }

  /** Created paths are found under the path given, and no path that resolved before changes its meaning. */
  lemma CreatedIsFound(fs: Fs, path: string, kind: Kind, other: string)
    requires TreeInv(fs.inodes, fs.nextIno) && Create(fs, path, kind).1.Some?
    ensures var made := Create(fs, path, kind).0;
      && Lookup(made.inodes, path) == Some(fs.nextIno)
      && (Lookup(fs.inodes, other).Some? ==> Lookup(made.inodes, other) == Lookup(fs.inodes, other))
  {
    hide TreeInv, Lookup, LookupParent, PathOf, Resolved, Follow, CanInsert, Insert, Components;
    var made := Create(fs, path, kind).0;
    var t, n := fs.inodes, fs.nextIno;
    var (dir, name) := LookupParent(t, path).value;
    CreateCanInsert(fs, path, kind);
    InsertInv(t, n, name, kind, dir);
    InsertWithin(t, n, name, kind, dir);
    if Lookup(t, other).Some? { LookupGrows(t, n, made.inodes, n + 1, other); }
    var front := ParentComponents(t, n, path);
    RootFacts(t, n);
    ComponentsArePieces(path);
    assert forall i :: 0 <= i < |front| ==> front[i] == Components(path)[i];
    FollowGrows(t, n, made.inodes, n + 1, front, ROOT);
    LookupIsFollow(made.inodes, n + 1, path);
    FollowAppend(made.inodes, front, [name], ROOT);
    FollowOne(made.inodes, name, dir);
    StepToNew(t, n, name, kind, dir);
  }

  lemma StepToNew(t: Inodes, bound: nat, name: Name, kind: Kind, parent: nat)
    requires CanInsert(t, bound, name, parent)
    ensures StepInto(Insert(t, bound, name, kind, parent), parent, name) == Some(bound)
  {
    hide NodeOk, ChildrenOk, SiblingsDiffer, FindNamed;
    InsertInv(t, bound, name, kind, parent);
    LookupChildIff(Insert(t, bound, name, kind, parent), bound + 1, parent, bound, name);
  }

  lemma UnlinkCanRemove(fs: Fs, path: string)
    requires TreeInv(fs.inodes, fs.nextIno) && Unlink(fs, path).1.Ok?
    ensures LookupParent(fs.inodes, path).Some?
    ensures var (dir, name) := LookupParent(fs.inodes, path).value;
      LookupChild(fs.inodes, dir, name).Some?
    ensures var (dir, name) := LookupParent(fs.inodes, path).value;
      var child := LookupChild(fs.inodes, dir, name).value;
      && CanRemove(fs.inodes, fs.nextIno, child)
      && fs.inodes[child].parent == dir
      && PathOf(fs.inodes, fs.nextIno, child) == Resolved(path)
      && Lookup(fs.inodes, path) == Some(child)
  {
    hide Lookup, LookupParent, LookupChild, Resolved, NoDuplicates, SiblingsDiffer, ChildrenOk;
    var t, n := fs.inodes, fs.nextIno;
    var (dir, name) := LookupParent(t, path).value;
    var child := LookupChild(t, dir, name).value;
    ParentStep(t, n, path);
    LookupChildIff(t, n, dir, child, name);
    assert NodeOk(t, child);
  }

  /** A successful unlink makes exactly one name list less resolve; a failed one changes nothing. */
  lemma {:induction false} UnlinkEffect(fs: Fs, path: string, cs: seq<Name>)
    requires TreeInv(fs.inodes, fs.nextIno) && AllProper(cs)
    ensures var (cut, r) := Unlink(fs, path);
      && TreeInv(cut.inodes, cut.nextIno)
      && cut.nextIno == fs.nextIno
      && (r.Err? ==> cut == fs)
      && (r.Ok? ==>
        && Lookup(fs.inodes, path).Some?
        && Follow(cut.inodes, cs, ROOT) == if cs == Resolved(path) then None else Follow(fs.inodes, cs, ROOT))
  {
    if Unlink(fs, path).1.Ok? {
      hide TreeInv, Lookup, LookupParent, LookupChild, PathOf, Resolved, Follow, Remove, AllProper;
      UnlinkCanRemove(fs, path);
      var (dir, name) := LookupParent(fs.inodes, path).value;
      var child := LookupChild(fs.inodes, dir, name).value;
      RemoveInv(fs.inodes, fs.nextIno, child);
      RemoveMeaning(fs.inodes, fs.nextIno, child, cs);
    }
  }

  /** An unlinked path is gone, and any path that still resolves means what it did. */
  lemma UnlinkedIsGone(fs: Fs, path: string, other: string)
    requires TreeInv(fs.inodes, fs.nextIno) && Unlink(fs, path).1.Ok?
    ensures var cut := Unlink(fs, path).0;
      && Lookup(cut.inodes, path) == None
      && (Lookup(cut.inodes, other).Some? ==> Lookup(cut.inodes, other) == Lookup(fs.inodes, other))
  {
    hide TreeInv, Lookup, Unlink, PathOf, Resolved, Follow, Normalize;
    var cut := Unlink(fs, path).0;
    ResolvedProper(path);
    UnlinkEffect(fs, path, Resolved(path));
    UnlinkWithin(fs, path);
    LookupNormalized(cut.inodes, cut.nextIno, path);
    if Lookup(cut.inodes, path).Some? { NormalizeKeepsMeaning(cut.inodes, cut.nextIno, path); }
    if Lookup(cut.inodes, other).Some? { LookupGrows(cut.inodes, cut.nextIno, fs.inodes, fs.nextIno, other); }
  }

  lemma UnlinkWithin(fs: Fs, path: string)
    ensures Within(Unlink(fs, path).0.inodes, fs.inodes)
  {
    hide Lookup, LookupParent, FindNamed, Without;
  }
}
