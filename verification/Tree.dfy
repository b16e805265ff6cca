/**
 * The inode tree of the in-memory file system: the path walker, the tree
 * invariant, and the agreement of the walker with lexical normalisation.
 */
module Tree {
  import opened Arithmetic
  import opened Wrappers
  import opened Paths

  datatype Kind = File | Directory | Symlink

  datatype Inode = Inode(
    name: Name, kind: Kind, data: seq<byte>, children: seq<nat>,
    parent: nat, target: Option<string>, size: nat)

  type Inodes = map<nat, Inode>

  const ROOT: nat := 1
  const MAX_SYMLINK_DEPTH: nat := 8

  function NewInode(name: Name, kind: Kind, parent: nat): Inode {
    Inode(name, kind, [], [], parent, None, 0)
  }

  // ------------------------------------------------------------- the walker

  // The first listed child that exists and has this name.
  function FindNamed(t: Inodes, children: seq<nat>, name: Name): Option<nat> {
    if children == [] then None
    else if children[0] in t && t[children[0]].name == name then Some(children[0])
    else FindNamed(t, children[1..], name)
  }

  function LookupChild(t: Inodes, parent: nat, name: Name): Option<nat> {
    if parent !in t then None else FindNamed(t, t[parent].children, name)
  }

  // One component taken from inode `cur`.
  function StepInto(t: Inodes, cur: nat, comp: Name): Option<nat> {
    if comp == "." then Some(cur)
    else if comp == ".." then
      if cur !in t then None else Some(if t[cur].parent == 0 then ROOT else t[cur].parent)
    else LookupChild(t, cur, comp)
  }

  // `lookup_from`; the measure shows that it ends whatever the link targets are.
  function LookupFrom(t: Inodes, path: string, start: nat, depth: nat): Option<nat>
    decreases if depth <= MAX_SYMLINK_DEPTH then MAX_SYMLINK_DEPTH + 1 - depth else 0, 1, 0
  {
    if depth > MAX_SYMLINK_DEPTH then None
    else if path == "" then Some(start)
    else if path[0] == '/' then Walk(t, Components(TrimStart(path)), ROOT, depth)
    else Walk(t, Components(path), start, depth)
  }

  // The component loop of `lookup_from`.
  function Walk(t: Inodes, comps: seq<Name>, cur: nat, depth: nat): Option<nat>
    requires depth <= MAX_SYMLINK_DEPTH
    decreases MAX_SYMLINK_DEPTH + 1 - depth, 0, |comps|
  {
    if comps == [] then Some(cur)
    else
      match StepInto(t, cur, comps[0])
      case None => None
      case Some(next) =>
        if next !in t then None
        else
          match t[next].target
          case None => Walk(t, comps[1..], next, depth)
          case Some(target) =>
            var from := if target != "" && target[0] == '/' then ROOT else cur;
            LookupFrom(t, target + Slashed(comps[1..]), from, depth + 1)
  }

  function Lookup(t: Inodes, path: string): Option<nat> {
    LookupFrom(t, path, ROOT, 0)
  }

  // The same walk where no inode is a link.
  function Follow(t: Inodes, comps: seq<Name>, cur: nat): Option<nat>
    decreases |comps|
  {
    if comps == [] then Some(cur)
    else
      match StepInto(t, cur, comps[0])
      case None => None
      case Some(next) => Follow(t, comps[1..], next)
  }

  // ------------------------------------------------------------- the invariant

  ghost predicate NoDuplicates(s: seq<nat>) {
    forall i, j :: 0 <= i < j < |s| ==> s[i] != s[j]
  }

  // An inode other than the root hangs below an older directory.
  ghost predicate Attached(t: Inodes, i: nat)
    requires i in t
  {
    var p := t[i].parent;
    Proper(t[i].name) && p in t && p < i && t[p].kind == Directory && i in t[p].children
  }

  ghost predicate NodeOk(t: Inodes, i: nat)
    requires i in t
  {
    && t[i].size == |t[i].data|
    && t[i].target == None
    && NoDuplicates(t[i].children)
    && (t[i].kind != Directory ==> t[i].children == [])
    && (i != ROOT ==> Attached(t, i))
  }

  ghost predicate ChildOk(t: Inodes, p: nat, c: nat) {
    c in t && c != ROOT && p in t && t[c].parent == p
  }

  ghost predicate ChildrenOk(t: Inodes) {
    forall p, c {:trigger ChildOk(t, p, c)} :: p in t && c in t[p].children ==> ChildOk(t, p, c)
  }

  ghost predicate SiblingsDiffer(t: Inodes) {
    forall a, b :: a in t && b in t && a != b && a != ROOT && b != ROOT && t[a].parent == t[b].parent
      ==> t[a].name != t[b].name
  }

  ghost predicate Rooted(t: Inodes) {
    ROOT in t && t[ROOT].parent == 0 && t[ROOT].kind == Directory && t[ROOT].name == ""
  }

  ghost predicate NodesOk(t: Inodes, bound: nat) {
    && (forall i :: i in t ==> ROOT <= i < bound)
    && (forall i {:trigger NodeOk(t, i)} :: i in t ==> NodeOk(t, i))
  }

  // The inodes below `bound` form a tree with named edges.
  ghost predicate TreeInv(t: Inodes, bound: nat) {
    Rooted(t) && NodesOk(t, bound) && ChildrenOk(t) && SiblingsDiffer(t)
  }

  // ------------------------------------------------------------- children by name

  lemma {:induction false} FindNamedFound(t: Inodes, children: seq<nat>, name: Name)
    ensures var r := FindNamed(t, children, name);
      match r
      case Some(c) => c in children && c in t && t[c].name == name
      case None => forall c :: c in children && c in t ==> t[c].name != name
    decreases |children|
  {
    if children != [] {
      FindNamedFound(t, children[1..], name);
      assert children == [children[0]] + children[1..];
    }
  }

  /** Looking a name up below a directory finds exactly the child that has it. */
  lemma LookupChildIff(t: Inodes, bound: nat, p: nat, c: nat, name: Name)
    requires TreeInv(t, bound) && p in t
    ensures LookupChild(t, p, name) == Some(c) <==> c in t && c != ROOT && t[c].parent == p && t[c].name == name
  {
    var r := LookupChild(t, p, name);
    FindNamedFound(t, t[p].children, name);
    if c in t && c != ROOT && t[c].parent == p && t[c].name == name {
      assert NodeOk(t, c);
      assert r.Some?;
      assert ChildOk(t, p, r.value);
    }
    if r == Some(c) { assert ChildOk(t, p, c); }
  }

  // ------------------------------------------------------------- canonical paths

  // The names on the way from the root to inode i.
  ghost function PathOf(t: Inodes, bound: nat, i: nat): (cs: seq<Name>)
    requires TreeInv(t, bound) && i in t
    ensures AllProper(cs)
    decreases i
  {
    assert NodeOk(t, i);
    if i == ROOT then [] else PathOf(t, bound, t[i].parent) + [t[i].name]
  }

  // One step of the walker is one push on the component stack.
  lemma {:induction false} StepIsPush(t: Inodes, bound: nat, cur: nat, comp: Name)
    requires TreeInv(t, bound) && cur in t && comp != ""
    requires StepInto(t, cur, comp).Some?
    ensures var n := StepInto(t, cur, comp).value;
      n in t && PathOf(t, bound, n) == Push(PathOf(t, bound, cur), comp)
  {
    hide FindNamed;
    var n := StepInto(t, cur, comp).value;
    assert NodeOk(t, cur);
    if comp != "." && comp != ".." {
      LookupChildIff(t, bound, cur, n, comp);
    } else if comp == ".." && cur != ROOT {
      assert NodeOk(t, t[cur].parent);
      var up := PathOf(t, bound, n);
      assert (up + [t[cur].name])[..|up|] == up;
    }
  }

  ghost predicate Pieces(cs: seq<Name>) {
    forall i :: 0 <= i < |cs| ==> cs[i] != ""
  }

  /** The walker keeps the component stack: where it arrives, the stack is the canonical path. */
  lemma {:induction false} FollowIsFold(t: Inodes, bound: nat, comps: seq<Name>, cur: nat)
    requires TreeInv(t, bound) && cur in t && Pieces(comps)
    ensures match Follow(t, comps, cur)
      case None => true
      case Some(i) => i in t && PathOf(t, bound, i) == Fold(PathOf(t, bound, cur), comps)
    decreases |comps|
  {
    hide TreeInv, PathOf, StepInto;
    if comps != [] && StepInto(t, cur, comps[0]).Some? {
      StepIsPush(t, bound, cur, comps[0]);
      FollowIsFold(t, bound, comps[1..], StepInto(t, cur, comps[0]).value);
    }
  }

  lemma {:induction false} FollowAppend(t: Inodes, a: seq<Name>, b: seq<Name>, cur: nat)
    ensures Follow(t, a + b, cur) == match Follow(t, a, cur) case None => None case Some(mid) => Follow(t, b, mid)
    decreases |a|
  {
    hide StepInto;
    if a == [] {
      assert a + b == b;
    } else {
      assert (a + b)[1..] == a[1..] + b;
      match StepInto(t, cur, a[0])
      case None =>
      case Some(next) => FollowAppend(t, a[1..], b, next);
    }
  }

  lemma {:induction false} FollowOne(t: Inodes, c: Name, cur: nat)
    ensures Follow(t, [c], cur) == StepInto(t, cur, c)
  {
    hide StepInto;
    var one := [c];
    assert one[1..] == [];
    match StepInto(t, cur, c)
    case None =>
    case Some(next) => assert Follow(t, one[1..], next) == Some(next);
  }

  /** Every inode is reached by walking its canonical path. */
  lemma {:induction false} PathReaches(t: Inodes, bound: nat, i: nat)
    requires TreeInv(t, bound) && i in t
    ensures Follow(t, PathOf(t, bound, i), ROOT) == Some(i)
    decreases i
  {
    hide Follow, FindNamed;
    assert NodeOk(t, i);
    if i == ROOT {
      FollowNone(t, ROOT);
    } else {
      var p, name := t[i].parent, t[i].name;
      PathReaches(t, bound, p);
      FollowAppend(t, PathOf(t, bound, p), [name], ROOT);
      FollowOne(t, name, p);
      LookupChildIff(t, bound, p, i, name);
    }
  }

  lemma {:induction false} FollowNone(t: Inodes, cur: nat)
    ensures Follow(t, [], cur) == Some(cur)
  {
  }

  lemma {:induction false} RootFacts(t: Inodes, bound: nat)
    requires TreeInv(t, bound)
    ensures Rooted(t) && PathOf(t, bound, ROOT) == []
  {
  }

  /** On proper names the walker is the inverse of the canonical path. */
  lemma {:induction false} ProperPathIff(t: Inodes, bound: nat, cs: seq<Name>, i: nat)
    requires TreeInv(t, bound) && AllProper(cs)
    ensures Follow(t, cs, ROOT) == Some(i) <==> i in t && PathOf(t, bound, i) == cs
  {
    hide Follow, TreeInv, Fold, PathOf;
    RootFacts(t, bound);
    FollowIsFold(t, bound, cs, ROOT);
    FoldOfProper([], cs);
    assert [] + cs == cs;
    if i in t { PathReaches(t, bound, i); }
  }

  // ------------------------------------------------------------- walker and normaliser

  lemma {:induction false} WalkIsFollow(t: Inodes, bound: nat, comps: seq<Name>, cur: nat, depth: nat)
    requires TreeInv(t, bound) && cur in t && Pieces(comps) && depth <= MAX_SYMLINK_DEPTH
    ensures Walk(t, comps, cur, depth) == Follow(t, comps, cur)
    decreases |comps|
  {
    hide StepInto, PathOf, LookupFrom;
    if comps != [] && StepInto(t, cur, comps[0]).Some? {
      var next := StepInto(t, cur, comps[0]).value;
      StepIsPush(t, bound, cur, comps[0]);
      assert NodeOk(t, next);
      WalkIsFollow(t, bound, comps[1..], next, depth);
    }
  }

  lemma ComponentsArePieces(path: string)
    ensures Pieces(Components(path))
  {
    hide Components;
    ComponentsPlain(path);
  }

  /** Without links, a path means its components taken from the root. */
  lemma {:induction false} LookupIsFollow(t: Inodes, bound: nat, path: string)
    requires TreeInv(t, bound)
    ensures Lookup(t, path) == Follow(t, Components(path), ROOT)
  {
    hide Components, Follow, Walk, TreeInv, TrimStart;
    RootFacts(t, bound);
    ComponentsArePieces(path);
    ComponentsTrimStart(path);
    WalkIsFollow(t, bound, Components(path), ROOT, 0);
    if path == "" {
      ComponentsOne("");
      FollowNone(t, ROOT);
    }
  }

  /** A path that resolves at all resolves to the inode its normalised components name. */
  lemma {:induction false} LookupIsResolved(t: Inodes, bound: nat, path: string, i: nat)
    requires TreeInv(t, bound) && Lookup(t, path) == Some(i)
    ensures i in t && PathOf(t, bound, i) == Resolved(path)
  {
    hide Components, Follow, TreeInv, Lookup, PathOf, Fold;
    LookupIsFollow(t, bound, path);
    RootFacts(t, bound);
    ComponentsArePieces(path);
    FollowIsFold(t, bound, Components(path), ROOT);
  }

  lemma {:induction false} LookupNormalized(t: Inodes, bound: nat, path: string)
    requires TreeInv(t, bound)
    ensures Lookup(t, Normalize(path)) == Follow(t, Resolved(path), ROOT)
  {
    hide Components, Follow, TreeInv, Lookup, Fold, Render;
    LookupIsFollow(t, bound, Normalize(path));
    NormalizeIdempotent(path);
  }

  /** Lexical normalisation keeps the meaning of every path that resolves. */
  lemma NormalizeKeepsMeaning(t: Inodes, bound: nat, path: string)
    requires TreeInv(t, bound) && Lookup(t, path).Some?
    ensures Lookup(t, Normalize(path)) == Lookup(t, path)
  {
    hide Components, Follow, TreeInv, Lookup, Fold, PathOf, Normalize;
    var i := Lookup(t, path).value;
    LookupIsResolved(t, bound, path, i);
    ResolvedProper(path);
    ProperPathIff(t, bound, Resolved(path), i);
    LookupNormalized(t, bound, path);
  }

  // Every directory the path passes through exists: each prefix of its components resolves once normalised.
  ghost predicate PrefixesExist(t: Inodes, comps: seq<Name>) {
    forall k :: 0 <= k <= |comps| ==> Follow(t, Fold([], comps[..k]), ROOT).Some?
  }

  lemma {:induction false} FollowIffPrefixes(t: Inodes, bound: nat, comps: seq<Name>)
    requires TreeInv(t, bound)
    requires forall i :: 0 <= i < |comps| ==> comps[i] != "" && NoSlash(comps[i])
    ensures Follow(t, comps, ROOT).Some? <==> PrefixesExist(t, comps)
    decreases |comps|
  {
    hide Follow, TreeInv, Fold, PathOf;
    RootFacts(t, bound);
    assert comps[..|comps|] == comps;
    if comps == [] {
      assert forall k :: 0 <= k <= |comps| ==> comps[..k] == [];
      FoldNone([]);
      FollowNone(t, ROOT);
    } else {
      var front, last := comps[..|comps| - 1], comps[|comps| - 1];
      assert comps == front + [last];
      assert forall k :: 0 <= k <= |front| ==> comps[..k] == front[..k];
      FollowIffPrefixes(t, bound, front);
      LastStep(t, bound, front, last);
    }
  }

  // With the front resolved, the last step succeeds exactly when the folded whole resolves.
  lemma {:induction false} LastStep(t: Inodes, bound: nat, front: seq<Name>, last: Name)
    requires TreeInv(t, bound)
    requires forall i :: 0 <= i < |front| ==> front[i] != "" && NoSlash(front[i])
    requires last != "" && NoSlash(last)
    ensures Follow(t, front, ROOT).None? ==> Follow(t, front + [last], ROOT).None?
    ensures Follow(t, front, ROOT).Some? ==>
      (Follow(t, front + [last], ROOT).Some? <==> Follow(t, Fold([], front + [last]), ROOT).Some?)
  {
    hide Follow, TreeInv, Fold, PathOf, StepInto;
    RootFacts(t, bound);
    FollowAppend(t, front, [last], ROOT);
    if Follow(t, front, ROOT).Some? {
      var mid := Follow(t, front, ROOT).value;
      FollowIsFold(t, bound, front, ROOT);
      FollowOne(t, last, mid);
      FoldAppend([], front, [last]);
      FoldOne(Fold([], front), last);
      StepSucceedsIff(t, bound, mid, last);
    }
  }

  lemma {:induction false} StepSucceedsIff(t: Inodes, bound: nat, mid: nat, last: Name)
    requires TreeInv(t, bound) && mid in t && last != "" && NoSlash(last)
    ensures StepInto(t, mid, last).Some? <==> Follow(t, Push(PathOf(t, bound, mid), last), ROOT).Some?
  {
    hide Follow, PathOf, FindNamed;
    if StepInto(t, mid, last).Some? {
      var n := StepInto(t, mid, last).value;
      StepIsPush(t, bound, mid, last);
      PathReaches(t, bound, n);
    } else {
      assert Proper(last);
      FollowAppend(t, PathOf(t, bound, mid), [last], ROOT);
      PathReaches(t, bound, mid);
      FollowOne(t, last, mid);
    }
  }

  /** A path resolves exactly when every prefix of it, once normalised, does. */
  lemma LookupIff(t: Inodes, bound: nat, path: string)
    requires TreeInv(t, bound)
    ensures Lookup(t, path).Some? <==> PrefixesExist(t, Components(path))
  {
    hide Components, Follow, TreeInv, Lookup, Fold, PrefixesExist;
    LookupIsFollow(t, bound, path);
    ComponentsPlain(path);
    FollowIffPrefixes(t, bound, Components(path));
  }

  /** The converse of the normalisation law fails: leaving a missing directory again. */
  lemma LeavingMissingFails(t: Inodes, bound: nat, name: Name)
    requires TreeInv(t, bound) && Proper(name) && LookupChild(t, ROOT, name) == None
    ensures var path := "/" + (name + "/..");
      Lookup(t, path) == None && Normalize(path) == "/" && Lookup(t, Normalize(path)) == Some(ROOT)
  {
    hide Components, Follow, TreeInv, Lookup, Fold, LookupChild;
    var path := "/" + (name + "/..");
    assert path == "" + ("/" + (name + ("/" + "..")));
    ComponentsJoin("", name + ("/" + ".."));
    ComponentsJoin(name, "..");
    ComponentsOne("");
    ComponentsOne(name);
    ComponentsOne("..");
    assert Components(path) == [name] + [".."];
    LookupIsFollow(t, bound, path);
    FollowAppend(t, [name], [".."], ROOT);
    FollowOne(t, name, ROOT);
    assert Lookup(t, path) == None;
    FoldAppend([], [name], [".."]);
    FoldOne([], name);
    assert Push([], name) == [name];
    FoldOne([name], "..");
    assert Push([name], "..") == [];
    assert Resolved(path) == [];
    LookupNormalized(t, bound, path);
    FollowNone(t, ROOT);
  }
}
