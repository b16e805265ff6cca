/** Slash-separated paths: splitting, components and lexical normalisation. */
module Paths {

  type Name = string

  // ------------------------------------------------------------- splitting

  predicate NoSlash(s: string) {
    forall i :: 0 <= i < |s| ==> s[i] != '/'
  }

  function FirstSlash(s: string): (i: nat)
    ensures i <= |s| && NoSlash(s[..i])
    ensures i < |s| ==> s[i] == '/'
  {
    if s == "" || s[0] == '/' then 0
    else
      var i := 1 + FirstSlash(s[1..]);
      assert s[..i] == [s[0]] + s[1..][..i - 1];
      i
  }

  // `str::split('/')`: n slashes give n + 1 pieces.
  function Split(s: string): (r: seq<string>)
    ensures |r| > 0
    decreases |s|
  {
    var i := FirstSlash(s);
    if i == |s| then [s] else [s[..i]] + Split(s[i + 1..])
  }

  function NonEmpty(pieces: seq<string>): seq<Name> {
    if pieces == [] then []
    else (if pieces[0] == "" then [] else [pieces[0]]) + NonEmpty(pieces[1..])
  }

  function Components(path: string): seq<Name> {
    NonEmpty(Split(path))
  }

  lemma {:induction false} FirstSlashUnique(a: string, b: string)
    requires NoSlash(a)
    ensures FirstSlash(a + ("/" + b)) == |a|
    decreases |a|
  {
    var s := a + ("/" + b);
    if a == "" {
      assert s[0] == '/';
    } else {
      assert s[0] == a[0];
      assert s[1..] == a[1..] + ("/" + b);
      FirstSlashUnique(a[1..], b);
    }
  }

  lemma {:induction false} SplitAt(head: string, tail: string)
    requires NoSlash(head)
    ensures Split(head + ("/" + tail)) == [head] + Split(tail)
  {
    var s := head + ("/" + tail);
    FirstSlashUnique(head, tail);
    assert s[..|head|] == head && s[|head| + 1..] == tail;
  }

  lemma {:induction false} SplitOne(s: string)
    requires NoSlash(s)
    ensures Split(s) == [s]
  {
    if FirstSlash(s) < |s| { assert false; }
  }

  lemma {:induction false} SplitJoins(a: string, b: string)
    ensures Split(a + ("/" + b)) == Split(a) + Split(b)
    decreases |a|
  {
    hide Split, FirstSlash;
    var i := FirstSlash(a);
    var head := a[..i];
    if i == |a| {
      assert head == a;
      SplitOne(a);
      SplitAt(a, b);
    } else {
      var tail := a[i + 1..];
      assert a == head + ("/" + tail);
      SplitAt(head, tail);
      SplitJoins(tail, b);
      SplitAt(head, tail + ("/" + b));
      assert a + ("/" + b) == head + ("/" + (tail + ("/" + b)));
    }
  }

  lemma {:induction false} NonEmptyAppend(a: seq<string>, b: seq<string>)
    ensures NonEmpty(a + b) == NonEmpty(a) + NonEmpty(b)
    decreases |a|
  {
    if a == [] {
      assert a + b == b;
    } else {
      assert (a + b)[1..] == a[1..] + b;
      NonEmptyAppend(a[1..], b);
    }
  }

  /** A slash separates components, wherever it stands. */
  lemma ComponentsJoin(a: string, b: string)
    ensures Components(a + ("/" + b)) == Components(a) + Components(b)
  {
    hide Split, NonEmpty;
    SplitJoins(a, b);
    NonEmptyAppend(Split(a), Split(b));
  }

  lemma ComponentsOne(c: string)
    requires NoSlash(c)
    ensures Components(c) == if c == "" then [] else [c]
  {
    hide Split;
    SplitOne(c);
    assert [c][1..] == [];
    assert NonEmpty([c][1..]) == [];
  }

  lemma {:induction false} PiecesHaveNoSlash(s: string)
    ensures forall i :: 0 <= i < |Split(s)| ==> NoSlash(Split(s)[i])
    decreases |s|
  {
    var i := FirstSlash(s);
    if i < |s| {
      PiecesHaveNoSlash(s[i + 1..]);
    } else {
      assert s[..i] == s;
    }
  }

  lemma {:induction false} NonEmptyMembers(pieces: seq<string>)
    ensures forall c :: c in NonEmpty(pieces) <==> c in pieces && c != ""
    decreases |pieces|
  {
    if pieces != [] {
      NonEmptyMembers(pieces[1..]);
      assert pieces == [pieces[0]] + pieces[1..];
    }
  }

  /** Components are non-empty and contain no slash. */
  lemma ComponentsPlain(path: string)
    ensures forall i :: 0 <= i < |Components(path)| ==> Components(path)[i] != "" && NoSlash(Components(path)[i])
  {
    hide Split;
    PiecesHaveNoSlash(path);
    NonEmptyMembers(Split(path));
    assert forall i :: 0 <= i < |Components(path)| ==> Components(path)[i] in Components(path);
  }

  // `trim_start_matches('/')` and `trim_end_matches('/')`.
  function TrimStart(s: string): string {
    if s != "" && s[0] == '/' then TrimStart(s[1..]) else s
  }

  function TrimEnd(s: string): (r: string)
    ensures r == "" || r[|r| - 1] != '/'
  {
    if s != "" && s[|s| - 1] == '/' then TrimEnd(s[..|s| - 1]) else s
  }

  lemma {:induction false} ComponentsTrimStart(s: string)
    ensures Components(TrimStart(s)) == Components(s)
    decreases |s|
  {
    hide Components;
    if s != "" && s[0] == '/' {
      ComponentsTrimStart(s[1..]);
      assert s == "" + ("/" + s[1..]);
      ComponentsJoin("", s[1..]);
      ComponentsOne("");
    }
  }

  lemma {:induction false} ComponentsTrimEnd(s: string)
    ensures Components(TrimEnd(s)) == Components(s)
    decreases |s|
  {
    hide Components;
    if s != "" && s[|s| - 1] == '/' {
      var front := s[..|s| - 1];
      ComponentsTrimEnd(front);
      assert s == front + ("/" + "");
      ComponentsJoin(front, "");
      ComponentsOne("");
    }
  }

  // `rfind('/')`, with the length standing for no slash at all.
  function LastSlash(s: string): (i: nat)
    ensures i <= |s|
    ensures i < |s| ==> s[i] == '/' && NoSlash(s[i + 1..])
    ensures i == |s| ==> NoSlash(s)
  {
    if s == "" then 0
    else if s[|s| - 1] == '/' then |s| - 1
    else
      var front := s[..|s| - 1];
      var i := LastSlash(front);
      if i < |front| then
        assert s[i + 1..] == front[i + 1..] + [s[|s| - 1]];
        i
      else
        assert s == front + [s[|s| - 1]];
        |s|
  }

  // ------------------------------------------------------------- rendering

  // A name that can stand in a normalised path.
  predicate Proper(c: Name) {
    c != "" && c != "." && c != ".." && NoSlash(c)
  }

  ghost predicate AllProper(cs: seq<Name>) {
    forall i :: 0 <= i < |cs| ==> Proper(cs[i])
  }

  function Slashed(cs: seq<Name>): string {
    if cs == [] then "" else "/" + (cs[0] + Slashed(cs[1..]))
  }

  function Render(cs: seq<Name>): (s: string)
    ensures s != "" && s[0] == '/'
  {
    if cs == [] then "/" else Slashed(cs)
  }

  lemma {:induction false} ComponentsOfSlashed(cs: seq<Name>)
    requires forall i :: 0 <= i < |cs| ==> cs[i] != "" && NoSlash(cs[i])
    ensures Components(Slashed(cs)) == cs
    decreases |cs|
  {
    hide Components;
    if cs == [] {
      ComponentsOne("");
    } else {
      var c, rest := cs[0], cs[1..];
      var body := c + Slashed(rest);
      assert Slashed(cs) == "" + ("/" + body);
      ComponentsJoin("", body);
      ComponentsOne("");
      ComponentsOne(c);
      if rest == [] {
        assert body == c;
      } else {
        ComponentsOfSlashed(rest);
        var inner := rest[0] + Slashed(rest[1..]);
        ComponentsJoin(c, inner);
        ComponentsJoin("", inner);
        assert Slashed(rest) == "" + ("/" + inner);
      }
    }
  }

  /** Rendering and splitting are inverse on plain components. */
  lemma ComponentsOfRender(cs: seq<Name>)
    requires forall i :: 0 <= i < |cs| ==> cs[i] != "" && NoSlash(cs[i])
    ensures Components(Render(cs)) == cs
  {
    if cs == [] {
      assert "/" == "" + ("/" + "");
      ComponentsJoin("", "");
      ComponentsOne("");
    } else {
      ComponentsOfSlashed(cs);
    }
  }

  // ------------------------------------------------------------- normalisation

  // One piece applied to the component stack.
  function Push(stack: seq<Name>, piece: string): seq<Name> {
    if piece == "" || piece == "." then stack
    else if piece == ".." then (if stack == [] then [] else stack[..|stack| - 1])
    else stack + [piece]
  }

  function Fold(stack: seq<Name>, pieces: seq<string>): seq<Name>
    decreases |pieces|
  {
    if pieces == [] then stack else Fold(Push(stack, pieces[0]), pieces[1..])
  }

  function Normalize(path: string): string {
    Render(Fold([], Components(path)))
  }

  lemma {:induction false} FoldNone(stack: seq<Name>)
    ensures Fold(stack, []) == stack
  {
  }

  lemma {:induction false} FoldOne(stack: seq<Name>, piece: string)
    ensures Fold(stack, [piece]) == Push(stack, piece)
  {
    var one := [piece];
    assert one[1..] == [];
    assert Fold(Push(stack, piece), one[1..]) == Push(stack, piece);
  }

  lemma {:induction false} FoldAppend(stack: seq<Name>, a: seq<string>, b: seq<string>)
    ensures Fold(stack, a + b) == Fold(Fold(stack, a), b)
    decreases |a|
  {
    if a == [] {
      assert a + b == b;
    } else {
      assert (a + b)[1..] == a[1..] + b;
      FoldAppend(Push(stack, a[0]), a[1..], b);
    }
  }

  /** Empty pieces do not matter to the stack. */
  lemma {:induction false} FoldNonEmpty(stack: seq<Name>, pieces: seq<string>)
    ensures Fold(stack, NonEmpty(pieces)) == Fold(stack, pieces)
    decreases |pieces|
  {
    if pieces != [] {
      var rest := NonEmpty(pieces[1..]);
      if pieces[0] == "" {
        assert [] + rest == rest;
      } else {
        assert ([pieces[0]] + rest)[1..] == rest;
      }
      FoldNonEmpty(Push(stack, pieces[0]), pieces[1..]);
    }
  }

  lemma {:induction false} FoldProper(stack: seq<Name>, pieces: seq<string>)
    requires AllProper(stack) && forall i :: 0 <= i < |pieces| ==> NoSlash(pieces[i])
    ensures AllProper(Fold(stack, pieces))
    decreases |pieces|
  {
    if pieces != [] { FoldProper(Push(stack, pieces[0]), pieces[1..]); }
  }

  lemma {:induction false} FoldOfProper(stack: seq<Name>, cs: seq<Name>)
    requires AllProper(cs)
    ensures Fold(stack, cs) == stack + cs
    decreases |cs|
  {
    if cs == [] {
      assert stack + cs == stack;
    } else {
      FoldOfProper(stack + [cs[0]], cs[1..]);
      assert stack + [cs[0]] + cs[1..] == stack + cs;
    }
  }

  // The component list a path stands for.
  function Resolved(path: string): seq<Name> {
    Fold([], Components(path))
  }

  lemma ResolvedProper(path: string)
    ensures AllProper(Resolved(path))
  {
    hide Components, Fold;
    ComponentsPlain(path);
    FoldProper([], Components(path));
  }

  /** The normal form has the resolved components, and normalising again changes nothing. */
  lemma NormalizeIdempotent(path: string)
    ensures Components(Normalize(path)) == Resolved(path)
    ensures Normalize(Normalize(path)) == Normalize(path)
  {
    hide Components, Fold, Render;
    ResolvedProper(path);
    ComponentsOfRender(Resolved(path));
    FoldOfProper([], Resolved(path));
    assert [] + Resolved(path) == Resolved(path);
  }

  /** Two paths normalise alike exactly when they resolve to the same components. */
  lemma NormalizeInjective(a: string, b: string)
    ensures Normalize(a) == Normalize(b) <==> Resolved(a) == Resolved(b)
  {
    hide Components, Fold, Render;
    NormalizeIdempotent(a);
    NormalizeIdempotent(b);
  }

  /** Concatenating a path behind an absolute one continues from its components. */
  lemma ResolvedJoin(a: string, b: string)
    ensures Resolved(a + ("/" + b)) == Fold(Resolved(a), Components(b))
  {
    hide Components, Fold;
    ComponentsJoin(a, b);
    FoldAppend([], Components(a), Components(b));
  }

  lemma {:induction false} SlashedSnoc(cs: seq<Name>, c: Name)
    ensures Slashed(cs + [c]) == Slashed(cs) + ("/" + c)
    decreases |cs|
  {
    var all := cs + [c];
    if cs == [] {
      assert all[1..] == [];
      assert Slashed(all[1..]) == "";
      assert c + "" == c;
      assert "" + ("/" + c) == "/" + c;
    } else {
      assert all[1..] == cs[1..] + [c];
      SlashedSnoc(cs[1..], c);
    }
  }

  // The second loop of `normalize_path`: the components joined by slashes.
  method JoinComponents(stack: seq<Name>) returns (result: string)
    ensures result == Render(stack)
  {
    if stack == [] { return "/"; }
    result := "/";
    var i := 0;
    while i < |stack|
      invariant 0 <= i <= |stack|
      invariant result == if i < |stack| then Slashed(stack[..i]) + "/" else Slashed(stack)
    {
      hide Slashed;
      assert stack[..i + 1] == stack[..i] + [stack[i]];
      SlashedSnoc(stack[..i], stack[i]);
      assert result + stack[i] == Slashed(stack[..i + 1]);
      result := result + stack[i];
      if i < |stack| - 1 { result := result + "/"; } else { assert stack[..i + 1] == stack; }
      i := i + 1;
    }
  }

  /** `normalize_path`: a component stack, then the components joined. */
  method NormalizePath(path: string) returns (result: string)
    ensures result == Normalize(path)
  {
    hide Split, Render;
    var pieces := Split(path);
    var stack: seq<Name> := [];
    var k := 0;
    while k < |pieces|
      invariant 0 <= k <= |pieces|
      invariant Fold(stack, pieces[k..]) == Fold([], pieces)
    {
      match pieces[k] {
        case "" =>
        case "." =>
        case ".." => if stack != [] { stack := stack[..|stack| - 1]; }
        case c => stack := stack + [c];
      }
      k := k + 1;
    }
    FoldNonEmpty([], pieces);
    result := JoinComponents(stack);
  }
}
