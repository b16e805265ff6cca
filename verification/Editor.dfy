/** The editor's row buffer, proved to be a flat text with one insertion point. */
module Editor {
  import opened Arithmetic
  import Utf8

  const NL: byte := 10
  const CR: byte := 13

  type Row = seq<byte>

  // ------------------------------------------------------------- rows and flat text

  predicate NoNewline(row: Row) {
    forall i :: 0 <= i < |row| ==> row[i] != NL
  }

  ghost predicate Rows(rows: seq<Row>) {
    |rows| > 0 && forall i :: 0 <= i < |rows| ==> NoNewline(rows[i])
  }

  // The rows joined by newlines.
  function Join(rows: seq<Row>): seq<byte>
    requires |rows| > 0
  {
    if |rows| == 1 then rows[0] else rows[0] + ([NL] + Join(rows[1..]))
  }

  // Join two row lists by running the last row of the first into the first row of the second.
  function Glue(a: seq<Row>, b: seq<Row>): (r: seq<Row>)
    requires |a| > 0 && |b| > 0
    ensures |r| == |a| + |b| - 1
  {
    a[..|a| - 1] + ([a[|a| - 1] + b[0]] + b[1..])
  }

  // The rows up to the cursor, and from it on.
  function Above(rows: seq<Row>, r: nat, c: nat): (a: seq<Row>)
    requires r < |rows| && c <= |rows[r]|
    ensures |a| == r + 1
  {
    rows[..r] + [rows[r][..c]]
  }

  function Below(rows: seq<Row>, r: nat, c: nat): (b: seq<Row>)
    requires r < |rows| && c <= |rows[r]|
    ensures |b| == |rows| - r
  {
    [rows[r][c..]] + rows[r + 1..]
  }

  // The cursor as an offset into the flat text.
  function Offset(rows: seq<Row>, r: nat, c: nat): nat
    requires r < |rows| && c <= |rows[r]|
  {
    |Join(Above(rows, r, c))|
  }

  lemma {:induction false} JoinGlue(a: seq<Row>, b: seq<Row>)
    requires |a| > 0 && |b| > 0
    ensures Join(Glue(a, b)) == Join(a) + Join(b)
    decreases |a|
  {
    var g := Glue(a, b);
    if |a| == 1 {
      assert g[0] == a[0] + b[0] && g[1..] == b[1..];
    } else {
      assert g[0] == a[0] && g[1..] == Glue(a[1..], b);
      JoinGlue(a[1..], b);
    }
  }

  lemma {:induction false} JoinConcat(a: seq<Row>, b: seq<Row>)
    requires |a| > 0 && |b| > 0
    ensures Join(a + b) == Join(a) + ([NL] + Join(b))
    decreases |a|
  {
    var g := a + b;
    if |a| == 1 {
      assert g[0] == a[0] && g[1..] == b;
    } else {
      assert g[0] == a[0] && g[1..] == a[1..] + b;
      JoinConcat(a[1..], b);
    }
  }

  lemma JoinOne(row: Row)
    ensures Join([row]) == row
  {
  }

  lemma GluesBack(rows: seq<Row>, r: nat, c: nat)
    requires r < |rows| && c <= |rows[r]|
    ensures Glue(Above(rows, r, c), Below(rows, r, c)) == rows
  {
    var a, b := Above(rows, r, c), Below(rows, r, c);
    assert a[..r] == rows[..r] && a[r] + b[0] == rows[r] && b[1..] == rows[r + 1..];
    assert rows == rows[..r] + ([rows[r]] + rows[r + 1..]);
  }

  lemma {:induction false} CursorSplits(rows: seq<Row>, r: nat, c: nat)
    requires r < |rows| && c <= |rows[r]|
    ensures Glue(Above(rows, r, c), Below(rows, r, c)) == rows
    ensures Join(rows) == Join(Above(rows, r, c)) + Join(Below(rows, r, c))
  {
    hide Join, Above, Below, Glue;
    GluesBack(rows, r, c);
    JoinGlue(Above(rows, r, c), Below(rows, r, c));
  }

  // ------------------------------------------------------------- the text determines the rows

  lemma FirstRowDetermined(a: Row, s: seq<byte>, b: Row, t: seq<byte>)
    requires NoNewline(a) && NoNewline(b) && a + ([NL] + s) == b + ([NL] + t)
    ensures a == b && s == t
  {
    var x := a + ([NL] + s);
    assert x[|a|] == NL && x[|b|] == NL;
    assert |a| == |b|;
    assert x[..|a|] == a == b;
    assert x[|a| + 1..] == s == t;
  }

  lemma {:induction false} JoinHasNewline(rows: seq<Row>)
    requires |rows| > 1
    ensures !NoNewline(Join(rows))
  {
    assert Join(rows)[|rows[0]|] == NL;
  }

  /** Two row lists with the same text are the same. */
  lemma {:induction false} JoinInjective(a: seq<Row>, b: seq<Row>)
    requires Rows(a) && Rows(b) && Join(a) == Join(b)
    ensures a == b
    decreases |a|
  {
    if |a| == 1 || |b| == 1 {
      if |a| > 1 { JoinHasNewline(a); }
      if |b| > 1 { JoinHasNewline(b); }
      assert a == [a[0]] && b == [b[0]];
    } else {
      FirstRowDetermined(a[0], Join(a[1..]), b[0], Join(b[1..]));
      JoinInjective(a[1..], b[1..]);
      assert a == [a[0]] + a[1..] && b == [b[0]] + b[1..];
    }
  }

  /** Text and offset together determine rows and cursor. */
  lemma {:induction false} StateDetermined(rows: seq<Row>, r: nat, c: nat, rows': seq<Row>, r': nat, c': nat)
    requires Rows(rows) && Rows(rows')
    requires r < |rows| && c <= |rows[r]| && r' < |rows'| && c' <= |rows'[r']|
    requires Join(rows) == Join(rows') && Offset(rows, r, c) == Offset(rows', r', c')
    ensures rows == rows' && r == r' && c == c'
  {
    hide Join;
    JoinInjective(rows, rows');
    CursorSplits(rows, r, c);
    CursorSplits(rows, r', c');
    var a, a' := Above(rows, r, c), Above(rows, r', c');
    var text := Join(rows);
    assert text[..|Join(a)|] == Join(a) && text[..|Join(a')|] == Join(a');
    JoinInjective(a, a');
    assert a[r] == rows[r][..c] && a'[r'] == rows[r'][..c'];
  }

  // ------------------------------------------------------------- edits on values

  function Remove(row: Row, col: nat): Row {
    if col < |row| then row[..col] + row[col + 1..] else row
  }

  function InsertRows(rows: seq<Row>, r: nat, c: nat, ch: byte): seq<Row>
    requires r < |rows| && c <= |rows[r]|
  {
    if ch == NL then rows[..r] + ([rows[r][..c]] + ([rows[r][c..]] + rows[r + 1..]))
    else rows[r := rows[r][..c] + ([ch] + rows[r][c..])]
  }

  function BackspaceRows(rows: seq<Row>, r: nat, c: nat): seq<Row>
    requires r < |rows| && c <= |rows[r]|
  {
    if c > 0 then rows[r := Remove(rows[r], c - 1)]
    else if r > 0 then rows[..r - 1] + ([rows[r - 1] + rows[r]] + rows[r + 1..])
    else rows
  }

  function DeleteRows(rows: seq<Row>, r: nat, c: nat): seq<Row>
    requires r < |rows| && c <= |rows[r]|
  {
    if c < |rows[r]| then rows[r := Remove(rows[r], c)]
    else if r + 1 < |rows| then rows[..r] + ([rows[r] + rows[r + 1]] + rows[r + 2..])
    else rows
  }

  // The text is `before` up to the cursor and `after` from there on.
  ghost predicate Shows(rows: seq<Row>, r: nat, c: nat, before: seq<byte>, after: seq<byte>) {
    && Rows(rows) && r < |rows| && c <= |rows[r]|
    && Join(Above(rows, r, c)) == before && Join(Below(rows, r, c)) == after
  }

  lemma {:induction false} ShowsText(rows: seq<Row>, r: nat, c: nat, before: seq<byte>, after: seq<byte>)
    requires Shows(rows, r, c, before, after)
    ensures Join(rows) == before + after && Offset(rows, r, c) == |before|
  {
    CursorSplits(rows, r, c);
  }

  lemma AboveExtends(rows: seq<Row>, r: nat, c: nat, x: byte)
    requires r < |rows| && c < |rows[r]| && rows[r][c] == x
    ensures Join(Above(rows, r, c + 1)) == Join(Above(rows, r, c)) + [x]
    ensures Join(Below(rows, r, c)) == [x] + Join(Below(rows, r, c + 1))
  {
    var a, b := Above(rows, r, c), Below(rows, r, c + 1);
    assert rows[r][..c + 1] == rows[r][..c] + [x];
    assert rows[r][c..] == [x] + rows[r][c + 1..];
    assert Above(rows, r, c + 1) == Glue(a, [[x]]);
    assert Below(rows, r, c) == Glue([[x]], b);
    JoinGlue(a, [[x]]);
    JoinGlue([[x]], b);
    JoinOne([x]);
  }

  lemma AboveCrosses(rows: seq<Row>, r: nat)
    requires r + 1 < |rows|
    ensures Join(Above(rows, r + 1, 0)) == Join(Above(rows, r, |rows[r]|)) + [NL]
    ensures Join(Below(rows, r, |rows[r]|)) == [NL] + Join(Below(rows, r + 1, 0))
  {
    var a, b := Above(rows, r, |rows[r]|), Below(rows, r + 1, 0);
    assert rows[r][..|rows[r]|] == rows[r] && rows[r + 1][..0] == [] && rows[r + 1][0..] == rows[r + 1];
    assert rows[..r + 1] == rows[..r] + [rows[r]];
    assert Above(rows, r + 1, 0) == a + [[]];
    assert rows[r][|rows[r]|..] == [];
    assert rows[r + 1..] == [rows[r + 1]] + rows[r + 2..];
    assert Below(rows, r, |rows[r]|) == [[]] + b;
    JoinConcat(a, [[]]);
    JoinConcat([[]], b);
    JoinOne([]);
  }

  /** Inserting puts one byte in front of the cursor. */
  lemma InsertIsFlat(rows: seq<Row>, r: nat, c: nat, ch: byte)
    requires Rows(rows) && r < |rows| && c <= |rows[r]|
    ensures
      var rows' := InsertRows(rows, r, c, ch);
      var r', c' := if ch == NL then r + 1 else r, if ch == NL then 0 else c + 1;
      Shows(rows', r', c', Join(Above(rows, r, c)) + [ch], Join(Below(rows, r, c)))
  {
    hide Join;
    var rows' := InsertRows(rows, r, c, ch);
    if ch == NL {
      assert rows'[r] == rows[r][..c] && rows'[r + 1] == rows[r][c..];
      assert rows'[r][..c] == rows[r][..c];
      assert Above(rows', r, c) == Above(rows, r, c);
      assert Below(rows', r + 1, 0) == Below(rows, r, c);
      AboveCrosses(rows', r);
    } else {
      assert Above(rows', r, c) == Above(rows, r, c);
      assert rows'[r][c + 1..] == rows[r][c..];
      assert Below(rows', r, c + 1) == Below(rows, r, c);
      AboveExtends(rows', r, c, ch);
    }
  }

  /** Backspace removes the byte in front of the cursor, a newline when rows are joined. */
  lemma BackspaceIsFlat(rows: seq<Row>, r: nat, c: nat)
    requires Rows(rows) && r < |rows| && c <= |rows[r]| && (r > 0 || c > 0)
    ensures
      var rows' := BackspaceRows(rows, r, c);
      var r', c' := if c > 0 then r else r - 1, if c > 0 then c - 1 else |rows[r - 1]|;
      var before := Join(Above(rows, r, c));
      |before| > 0 && Shows(rows', r', c', before[..|before| - 1], Join(Below(rows, r, c)))
  {
    hide Join;
    var rows' := BackspaceRows(rows, r, c);
    var before := Join(Above(rows, r, c));
    if c > 0 {
      AboveExtends(rows, r, c - 1, rows[r][c - 1]);
      assert before[..|before| - 1] == Join(Above(rows, r, c - 1));
      assert Above(rows', r, c - 1) == Above(rows, r, c - 1);
      assert rows'[r][c - 1..] == rows[r][c..];
      assert Below(rows', r, c - 1) == Below(rows, r, c);
      assert Rows(rows');
    } else {
      AboveCrosses(rows, r - 1);
      var k := |rows[r - 1]|;
      assert before[..|before| - 1] == Join(Above(rows, r - 1, k));
      assert rows'[r - 1] == rows[r - 1] + rows[r];
      assert rows'[r - 1][..k] == rows[r - 1] == rows[r - 1][..k];
      assert Above(rows', r - 1, k) == Above(rows, r - 1, k);
      assert rows'[r - 1][k..] == rows[r] == rows[r][0..];
      assert Below(rows', r - 1, k) == Below(rows, r, 0);
      assert Rows(rows');
    }
  }

  /** Delete removes the byte behind the cursor. */
  lemma DeleteIsFlat(rows: seq<Row>, r: nat, c: nat)
    requires Rows(rows) && r < |rows| && c <= |rows[r]| && (c < |rows[r]| || r + 1 < |rows|)
    ensures
      var after := Join(Below(rows, r, c));
      |after| > 0 && Shows(DeleteRows(rows, r, c), r, c, Join(Above(rows, r, c)), after[1..])
  {
    hide Join;
    var rows' := DeleteRows(rows, r, c);
    var after := Join(Below(rows, r, c));
    if c < |rows[r]| {
      AboveExtends(rows, r, c, rows[r][c]);
      assert after[1..] == Join(Below(rows, r, c + 1));
      assert Above(rows', r, c) == Above(rows, r, c);
      assert rows'[r][c..] == rows[r][c + 1..];
      assert Below(rows', r, c) == Below(rows, r, c + 1);
      assert Rows(rows');
    } else {
      AboveCrosses(rows, r);
      assert after[1..] == Join(Below(rows, r + 1, 0));
      assert rows'[r] == rows[r] + rows[r + 1];
      assert rows'[r][..c] == rows[r] == rows[r][..c];
      assert Above(rows', r, c) == Above(rows, r, c);
      assert rows'[r][c..] == rows[r + 1] == rows[r + 1][0..];
      assert Below(rows', r, c) == Below(rows, r + 1, 0);
      assert Rows(rows');
    }
  }

  // ------------------------------------------------------------- edits on the flat text

  function InsertAt(text: seq<byte>, o: nat, ch: byte): seq<byte>
    requires o <= |text|
  {
    text[..o] + [ch] + text[o..]
  }

  function RemoveAt(text: seq<byte>, o: nat): seq<byte>
    requires o < |text|
  {
    text[..o] + text[o + 1..]
  }

  // The state is this flat text with the cursor at this offset.
  ghost predicate Refines(rows: seq<Row>, r: nat, c: nat, text: seq<byte>, o: nat) {
    && Rows(rows) && r < |rows| && c <= |rows[r]|
    && Join(rows) == text && Offset(rows, r, c) == o <= |text|
  }

  lemma {:induction false} RefinesSelf(rows: seq<Row>, r: nat, c: nat)
    requires Rows(rows) && r < |rows| && c <= |rows[r]|
    ensures Refines(rows, r, c, Join(rows), Offset(rows, r, c))
    ensures Shows(rows, r, c, Join(rows)[..Offset(rows, r, c)], Join(rows)[Offset(rows, r, c)..])
  {
    hide Join;
    CursorSplits(rows, r, c);
  }

  lemma {:induction false} InsertRefines(rows: seq<Row>, r: nat, c: nat, ch: byte)
    requires Rows(rows) && r < |rows| && c <= |rows[r]|
    ensures
      var o := Offset(rows, r, c);
      var r', c' := if ch == NL then r + 1 else r, if ch == NL then 0 else c + 1;
      && o <= |Join(rows)|
      && Refines(InsertRows(rows, r, c, ch), r', c', InsertAt(Join(rows), o, ch), o + 1)
  {
    hide Join, InsertRows, Above, Below, InsertAt;
    CursorSplits(rows, r, c);
    InsertIsFlat(rows, r, c, ch);
    var r', c' := if ch == NL then r + 1 else r, if ch == NL then 0 else c + 1;
    var before, after := Join(Above(rows, r, c)), Join(Below(rows, r, c));
    ShowsText(InsertRows(rows, r, c, ch), r', c', before + [ch], after);
    InsertsBetween(before, after, ch);
  }

  lemma {:induction false} BackspaceRefines(rows: seq<Row>, r: nat, c: nat)
    requires Rows(rows) && r < |rows| && c <= |rows[r]| && (r > 0 || c > 0)
    ensures
      var o := Offset(rows, r, c);
      var r', c' := if c > 0 then r else r - 1, if c > 0 then c - 1 else |rows[r - 1]|;
      && 0 < o <= |Join(rows)|
      && Refines(BackspaceRows(rows, r, c), r', c', RemoveAt(Join(rows), o - 1), o - 1)
  {
    hide Join, BackspaceRows, Above, Below, RemoveAt;
    CursorSplits(rows, r, c);
    BackspaceIsFlat(rows, r, c);
    var r', c' := if c > 0 then r else r - 1, if c > 0 then c - 1 else |rows[r - 1]|;
    var before, after := Join(Above(rows, r, c)), Join(Below(rows, r, c));
    ShowsText(BackspaceRows(rows, r, c), r', c', before[..|before| - 1], after);
    RemovesLast(before, after);
  }

  lemma RemovesLast(before: seq<byte>, after: seq<byte>)
    requires |before| > 0
    ensures RemoveAt(before + after, |before| - 1) == before[..|before| - 1] + after
  {
  }

  lemma RemovesFirst(before: seq<byte>, after: seq<byte>)
    requires |after| > 0
    ensures RemoveAt(before + after, |before|) == before + after[1..]
  {
  }

  lemma InsertsBetween(before: seq<byte>, after: seq<byte>, ch: byte)
    ensures InsertAt(before + after, |before|, ch) == (before + [ch]) + after
  {
    assert (before + after)[..|before|] == before && (before + after)[|before|..] == after;
  }

  lemma {:induction false} DeleteRefines(rows: seq<Row>, r: nat, c: nat)
    requires Rows(rows) && r < |rows| && c <= |rows[r]| && (c < |rows[r]| || r + 1 < |rows|)
    ensures
      var o := Offset(rows, r, c);
      o < |Join(rows)| && Refines(DeleteRows(rows, r, c), r, c, RemoveAt(Join(rows), o), o)
  {
    hide Join, DeleteRows, Above, Below, RemoveAt;
    CursorSplits(rows, r, c);
    DeleteIsFlat(rows, r, c);
    var before, after := Join(Above(rows, r, c)), Join(Below(rows, r, c));
    ShowsText(DeleteRows(rows, r, c), r, c, before, after[1..]);
    RemovesFirst(before, after);
  }

  /** The text ends at the cursor exactly in the last column of the last row. */
  lemma {:induction false} OffsetEnds(rows: seq<Row>, r: nat, c: nat)
    requires Rows(rows) && r < |rows| && c <= |rows[r]|
    ensures Offset(rows, r, c) == 0 <==> r == 0 && c == 0
    ensures Offset(rows, r, c) == |Join(rows)| <==> r + 1 == |rows| && c == |rows[r]|
  {
    if r > 0 || c > 0 { BackspaceRefines(rows, r, c); } else { assert Above(rows, r, c) == [[]]; }
    if c < |rows[r]| || r + 1 < |rows| {
      DeleteRefines(rows, r, c);
    } else {
      CursorSplits(rows, r, c);
      assert Below(rows, r, c) == [[]];
    }
  }

  // What `delete` leaves, in every case.
  lemma {:induction false} DeleteShows(rows: seq<Row>, r: nat, c: nat)
    requires Rows(rows) && r < |rows| && c <= |rows[r]|
    ensures
      var o, text := Offset(rows, r, c), Join(rows);
      Refines(DeleteRows(rows, r, c), r, c, if o < |text| then RemoveAt(text, o) else text, o)
  {
    hide Join, Offset, RemoveAt, Remove;
    RefinesSelf(rows, r, c);
    OffsetEnds(rows, r, c);
    if c < |rows[r]| || r + 1 < |rows| { DeleteRefines(rows, r, c); }
  }

  lemma JoinsNext(rows: seq<Row>, r: nat)
    requires r + 1 < |rows|
    ensures
      var others := rows[..r + 1] + rows[r + 2..];
      others[r := others[r] + rows[r + 1]] == rows[..r] + ([rows[r] + rows[r + 1]] + rows[r + 2..])
  {
  }

  /** Inserting any byte, a newline included, and pressing backspace restores rows and cursor. */
  lemma BackspaceUndoesInsert(rows: seq<Row>, r: nat, c: nat, ch: byte)
    requires Rows(rows) && r < |rows| && c <= |rows[r]|
    ensures
      var r', c' := if ch == NL then r + 1 else r, if ch == NL then 0 else c + 1;
      var rows' := InsertRows(rows, r, c, ch);
      && r' < |rows'| && c' <= |rows'[r']|
      && BackspaceRows(rows', r', c') == rows
      && (if c' > 0 then r' == r && c' - 1 == c else r' - 1 == r && |rows'[r' - 1]| == c)
  {
    hide Join, Above, Below, InsertRows, BackspaceRows;
    var r', c' := if ch == NL then r + 1 else r, if ch == NL then 0 else c + 1;
    var rows' := InsertRows(rows, r, c, ch);
    InsertRefines(rows, r, c, ch);
    BackspaceRefines(rows', r', c');
    RefinesSelf(rows, r, c);
    var o := Offset(rows, r, c);
    assert RemoveAt(InsertAt(Join(rows), o, ch), o) == Join(rows);
    var r2, c2 := if c' > 0 then r' else r' - 1, if c' > 0 then c' - 1 else |rows'[r' - 1]|;
    StateDetermined(rows, r, c, BackspaceRows(rows', r', c'), r2, c2);
  }

  // ------------------------------------------------------------- cursor movement by character

  // What `as_str` makes of a row: nothing when the bytes are not UTF-8.
  function AsStr(row: Row): Row {
    if Utf8.Valid(row) then row else []
  }

  // The largest character start before col, or 0.
  function PreviousChar(s: Row, col: nat): (i: nat)
    ensures i <= col && (col > 0 ==> i < col)
    ensures i > 0 ==> i < |s| && !Utf8.Continuation(s[i])
    ensures forall j :: i < j < col && j < |s| ==> Utf8.Continuation(s[j])
    decreases col
  {
    if col == 0 then 0
    else if col - 1 < |s| && !Utf8.Continuation(s[col - 1]) then col - 1
    else PreviousChar(s, col - 1)
  }

  // The least character start after col, or the end.
  function NextChar(s: Row, col: nat): (i: nat)
    requires col < |s|
    ensures col < i <= |s|
    ensures i < |s| ==> !Utf8.Continuation(s[i])
    ensures forall j :: col < j < i ==> Utf8.Continuation(s[j])
    decreases |s| - col
  {
    if col + 1 == |s| || !Utf8.Continuation(s[col + 1]) then col + 1 else NextChar(s, col + 1)
  }

  // ------------------------------------------------------------- scrolling

  function ClampWithViewport(scroll: nat, row: nat, count: nat, view: nat): nat {
    if view == 0 then scroll
    else
      var last := SaturatingSub(SaturatingAdd(scroll, view), 1);
      var s := if row < scroll then row
               else if row > last then SaturatingSub(row, SaturatingSub(view, 1))
               else scroll;
      if SaturatingAdd(s, view) > count then (if count >= view then SaturatingSub(count, view) else 0) else s
  }

  // The sums of this one wrap.
  function EnsureVisible(scroll: nat, row: nat, count: nat, view: nat): nat {
    if view == 0 then scroll
    else
      var last := Wrapped(scroll + view - 1);
      var s := if row < scroll then row
               else if row > last then SaturatingSub(row, view - 1)
               else scroll;
      if Wrapped(s + view) > count then SaturatingSub(SaturatingSub(count, 1), SaturatingSub(view, 1)) else s
  }

  // The positions a 64-bit machine can hold; a row takes more than one byte.
  ghost predicate Scrollable(scroll: nat, row: nat, count: nat, view: nat) {
    row < count < SLICE && scroll < WORD && 0 < view < WORD
  }

  lemma WrappedSums(scroll: nat, row: nat, view: nat)
    requires scroll < WORD && row < WORD && 0 < view < WORD
    ensures Wrapped(scroll + view - 1) == if scroll + view <= WORD then scroll + view - 1 else scroll + view - 1 - WORD
    ensures Wrapped(scroll + view) == if scroll + view < WORD then scroll + view else scroll + view - WORD
    ensures Wrapped(row + view) == if row + view < WORD then row + view else row + view - WORD
    ensures row >= view - 1 ==> Wrapped(row - (view - 1) + view) == if row + 1 < WORD then row + 1 else 0
  {
    hide Wrapped;
    WrappedSum(scroll + view - 1);
    WrappedSum(scroll + view);
    WrappedSum(row + view);
    WrappedSum(row + 1);
  }

  /** Either clamp keeps the cursor in view. */
  lemma ClampsShowCursor(scroll: nat, row: nat, count: nat, view: nat)
    requires Scrollable(scroll, row, count, view)
    ensures var s := ClampWithViewport(scroll, row, count, view); s <= row < s + view && (s > 0 ==> s + view <= count)
    ensures var s := EnsureVisible(scroll, row, count, view); s <= row < s + view
  {
    hide Wrapped;
    WrappedSums(scroll, row, view);
  }

  /** The first clamp moves the view no further than any other that shows the cursor and ends with the text. */
  lemma ClampMovesLeast(scroll: nat, row: nat, count: nat, view: nat, other: nat)
    requires Scrollable(scroll, row, count, view)
    requires other <= row < other + view && (other > 0 ==> other + view <= count)
    ensures
      var s := ClampWithViewport(scroll, row, count, view);
      (s < scroll ==> other <= s) && (s > scroll ==> other >= s)
  {
  }

  /** The two clamps agree exactly when no sum that matters overflows. */
  lemma ClampsAgreeIff(scroll: nat, row: nat, count: nat, view: nat)
    requires Scrollable(scroll, row, count, view)
    ensures ClampWithViewport(scroll, row, count, view) == EnsureVisible(scroll, row, count, view) <==>
      if row < scroll then row + view < WORD else scroll + view != WORD
  {
    hide Wrapped;
    WrappedSums(scroll, row, view);
  }

  // ------------------------------------------------------------- whole texts

  function FirstNewline(text: seq<byte>): (i: nat)
    ensures i <= |text| && NoNewline(text[..i])
    ensures i < |text| ==> text[i] == NL
  {
    if text == [] || text[0] == NL then 0
    else
      var i := 1 + FirstNewline(text[1..]);
      assert text[..i] == [text[0]] + text[1..][..i - 1];
      i
  }

  function StripCr(line: Row): Row {
    if |line| > 0 && line[|line| - 1] == CR then line[..|line| - 1] else line
  }

  // `from_text`: lines end at a newline, a carriage return before it is dropped, and what
  // follows the last newline is a row of its own.
  function FromText(text: seq<byte>): (rows: seq<Row>)
    ensures |rows| > 0
    decreases |text|
  {
    var i := FirstNewline(text);
    if i == |text| then [text] else [StripCr(text[..i])] + FromText(text[i + 1..])
  }

  ghost predicate HasCrLf(text: seq<byte>) {
    exists i :: 0 <= i < |text| - 1 && text[i] == CR && text[i + 1] == NL
  }

  lemma CrLfSplits(line: Row, rest: seq<byte>)
    requires NoNewline(line)
    ensures HasCrLf(line + ([NL] + rest)) <==> StripCr(line) != line || HasCrLf(rest)
  {
    var text := line + ([NL] + rest);
    var n := |line|;
    if StripCr(line) != line {
      assert text[n - 1] == CR && text[n - 1 + 1] == NL;
    }
    if HasCrLf(rest) {
      var i :| 0 <= i < |rest| - 1 && rest[i] == CR && rest[i + 1] == NL;
      assert text[n + 1 + i] == CR && text[n + 1 + i + 1] == NL;
    }
    if HasCrLf(text) && StripCr(line) == line {
      var i :| 0 <= i < |text| - 1 && text[i] == CR && text[i + 1] == NL;
      assert i > n;
      assert rest[i - n - 1] == CR && rest[i - n - 1 + 1] == NL;
    }
  }

  lemma NoCrLfInLine(line: Row)
    requires NoNewline(line)
    ensures !HasCrLf(line)
  {
  }

  lemma {:induction false} FromTextRows(text: seq<byte>)
    ensures Rows(FromText(text))
    decreases |text|
  {
    hide FirstNewline, StripCr, NoNewline;
    var i := FirstNewline(text);
    if i == |text| {
      assert text[..i] == text;
    } else {
      StripCrFree(text[..i]);
      FromTextRows(text[i + 1..]);
    }
  }

  lemma StripCrFree(line: Row)
    requires NoNewline(line)
    ensures NoNewline(StripCr(line))
  {
  }

  lemma {:induction false} JoinFront(row: Row, rows: seq<Row>)
    requires |rows| > 0
    ensures Join([row] + rows) == row + ([NL] + Join(rows))
  {
    assert ([row] + rows)[1..] == rows;
  }

  // The first line goes to the first row, the rest to the others.
  lemma {:induction false} FromTextSplits(text: seq<byte>)
    requires FirstNewline(text) < |text|
    ensures
      var i := FirstNewline(text);
      && text == text[..i] + ([NL] + text[i + 1..])
      && Join(FromText(text)) == StripCr(text[..i]) + ([NL] + Join(FromText(text[i + 1..])))
  {
    hide FirstNewline, StripCr, Join;
    var i := FirstNewline(text);
    JoinFront(StripCr(text[..i]), FromText(text[i + 1..]));
  }

  lemma {:induction false} FromTextSame(text: seq<byte>)
    requires !HasCrLf(text)
    ensures Join(FromText(text)) == text
    decreases |text|
  {
    hide Join, HasCrLf, StripCr;
    var i := FirstNewline(text);
    if i == |text| {
      JoinOne(text);
    } else {
      FromTextSplits(text);
      CrLfSplits(text[..i], text[i + 1..]);
      FromTextSame(text[i + 1..]);
    }
  }

  lemma {:induction false} FromTextShorter(text: seq<byte>)
    ensures |Join(FromText(text))| <= |text|
    ensures HasCrLf(text) ==> |Join(FromText(text))| < |text|
    decreases |text|
  {
    hide Join, HasCrLf;
    var i := FirstNewline(text);
    if i == |text| {
      JoinOne(text);
      assert text[..i] == text;
      NoCrLfInLine(text);
    } else {
      FromTextSplits(text);
      CrLfSplits(text[..i], text[i + 1..]);
      FromTextShorter(text[i + 1..]);
    }
  }

  /** Loading gives newline-free rows, and gives the text back exactly when it has no CR LF. */
  lemma {:induction false} FromTextRoundTrip(text: seq<byte>)
    ensures Rows(FromText(text))
    ensures |Join(FromText(text))| <= |text|
    ensures Join(FromText(text)) == text <==> !HasCrLf(text)
  {
    hide Join, FromText, HasCrLf;
    FromTextRows(text);
    FromTextShorter(text);
    if !HasCrLf(text) { FromTextSame(text); }
  }

  function FullText(rows: seq<Row>): seq<byte>
    requires |rows| > 0
  {
    if |rows| == 1 then AsStr(rows[0]) else AsStr(rows[0]) + ([NL] + FullText(rows[1..]))
  }

  ghost predicate AllUtf8(rows: seq<Row>) {
    forall i :: 0 <= i < |rows| ==> Utf8.Valid(rows[i])
  }

  /** `full_text` is the flat text exactly when every row is UTF-8; other rows are dropped. */
  lemma {:induction false} FullTextIsJoinIff(rows: seq<Row>)
    requires |rows| > 0
    ensures |FullText(rows)| <= |Join(rows)|
    ensures FullText(rows) == Join(rows) <==> AllUtf8(rows)
    decreases |rows|
  {
    assert Utf8.Valid([]);
    if |rows| > 1 {
      FullTextIsJoinIff(rows[1..]);
      var a, b := AsStr(rows[0]), rows[0];
      var s, t := [NL] + FullText(rows[1..]), [NL] + Join(rows[1..]);
      if a + s == b + t {
        assert |a| == |b| && |s| == |t|;
        assert (a + s)[..|a|] == a && (b + t)[..|b|] == b;
        assert (a + s)[|a|..] == s && (b + t)[|b|..] == t;
        assert s[1..] == FullText(rows[1..]) && t[1..] == Join(rows[1..]);
        assert forall i :: 1 <= i < |rows| ==> rows[i] == rows[1..][i - 1];
      }
    }
  }

  // ------------------------------------------------------------- the code

  class EditorBuffer {
    var rows: seq<Row>
    var cursorRow: nat
    var cursorCol: nat
    var scrollRow: nat
    var dirty: bool

    ghost predicate Valid()
      reads this
    {
      Rows(rows) && cursorRow < |rows| && cursorCol <= |rows[cursorRow]|
    }

    ghost function Text(): seq<byte>
      requires Valid()
      reads this
    {
      Join(rows)
    }

    ghost function Point(): nat
      requires Valid()
      reads this
    {
      Offset(rows, cursorRow, cursorCol)
    }

    constructor (text: seq<byte>)
      ensures Valid() && rows == FromText(text) && Point() == 0 && scrollRow == 0 && !dirty
    {
      rows := FromText(text);
      cursorRow, cursorCol, scrollRow, dirty := 0, 0, 0, false;
      new;
      FromTextRoundTrip(text);
      OffsetEnds(rows, 0, 0);
    }

    method InsertChar(ch: byte)
      requires Valid()
      modifies this
      ensures Valid() && dirty && scrollRow == old(scrollRow)
      ensures old(Point()) <= |old(Text())|
      ensures Text() == InsertAt(old(Text()), old(Point()), ch) && Point() == old(Point()) + 1
    {
      hide Join;
      InsertRefines(rows, cursorRow, cursorCol, ch);
      dirty := true;
      var row := rows[cursorRow];
      if ch == NL {
        var tail := row[cursorCol..];
        var kept := rows[cursorRow := row[..cursorCol]];
        cursorRow := cursorRow + 1;
        cursorCol := 0;
        rows := kept[..cursorRow] + ([tail] + kept[cursorRow..]);
        assert rows == InsertRows(old(rows), old(cursorRow), old(cursorCol), ch);
      } else {
        rows := rows[cursorRow := row[..cursorCol] + ([ch] + row[cursorCol..])];
        cursorCol := cursorCol + 1;
      }
    }

    method Backspace()
      requires Valid()
      modifies this
      ensures Valid() && dirty && scrollRow == old(scrollRow)
      ensures old(Point()) == 0 ==> Text() == old(Text()) && Point() == 0
      ensures old(Point()) <= |old(Text())|
      ensures old(Point()) > 0 ==>
        Text() == RemoveAt(old(Text()), old(Point()) - 1) && Point() == old(Point()) - 1
    {
      hide Join;
      RefinesSelf(rows, cursorRow, cursorCol);
      OffsetEnds(rows, cursorRow, cursorCol);
      if cursorRow > 0 || cursorCol > 0 { BackspaceRefines(rows, cursorRow, cursorCol); }
      dirty := true;
      if cursorCol > 0 {
        cursorCol := cursorCol - 1;
        rows := rows[cursorRow := Remove(rows[cursorRow], cursorCol)];
      } else if cursorRow > 0 {
        var current := rows[cursorRow];
        var others := rows[..cursorRow] + rows[cursorRow + 1..];
        cursorRow := cursorRow - 1;
        cursorCol := |others[cursorRow]|;
        rows := others[cursorRow := others[cursorRow] + current];
        assert rows == BackspaceRows(old(rows), old(cursorRow), old(cursorCol));
      }
    }

    method DeleteChar()
      requires Valid()
      modifies this
      ensures Valid() && dirty && scrollRow == old(scrollRow) && Point() == old(Point()) <= |old(Text())|
      ensures Text() == if old(Point()) < |old(Text())| then RemoveAt(old(Text()), old(Point())) else old(Text())
    {
      hide Join, Offset, RemoveAt, Remove;
      DeleteShows(rows, cursorRow, cursorCol);
      dirty := true;
      if cursorCol < |rows[cursorRow]| {
        rows := rows[cursorRow := Remove(rows[cursorRow], cursorCol)];
      } else if cursorRow + 1 < |rows| {
        var next := rows[cursorRow + 1];
        var others := rows[..cursorRow + 1] + rows[cursorRow + 2..];
        rows := others[cursorRow := others[cursorRow] + next];
        JoinsNext(old(rows), cursorRow);
      }
    }

    method ClampScroll()
      modifies this`scrollRow
      ensures scrollRow == Min(old(scrollRow), cursorRow)
    {
      if cursorRow < scrollRow { scrollRow := cursorRow; }
    }

    method CursorLeft()
      requires Valid()
      modifies this`cursorRow, this`cursorCol, this`scrollRow
      ensures Valid() && scrollRow == Min(old(scrollRow), cursorRow)
      ensures old(cursorCol) > 0 ==>
        && cursorRow == old(cursorRow)
        && cursorCol == PreviousChar(AsStr(rows[cursorRow]), old(cursorCol)) < old(cursorCol)
      ensures old(cursorCol) == 0 && old(cursorRow) > 0 ==> Point() == old(Point()) - 1
      ensures old(Point()) == 0 ==> Point() == 0
    {
      hide Join;
      OffsetEnds(rows, cursorRow, cursorCol);
      if cursorCol > 0 {
        cursorCol := PreviousChar(AsStr(rows[cursorRow]), cursorCol);
      } else if cursorRow > 0 {
        AboveCrosses(rows, cursorRow - 1);
        cursorRow := cursorRow - 1;
        cursorCol := |rows[cursorRow]|;
      }
      ClampScroll();
    }

    method CursorRight()
      requires Valid()
      modifies this`cursorRow, this`cursorCol, this`scrollRow
      ensures Valid() && scrollRow == Min(old(scrollRow), cursorRow)
      ensures
        var s := AsStr(rows[old(cursorRow)]);
        if old(cursorCol) < |s| then cursorRow == old(cursorRow) && cursorCol == NextChar(s, old(cursorCol))
        else if old(cursorRow) + 1 < |rows| then cursorRow == old(cursorRow) + 1 && cursorCol == 0
        else cursorRow == old(cursorRow) && cursorCol == old(cursorCol)
    {
      var s := AsStr(rows[cursorRow]);
      if cursorCol < |s| {
        cursorCol := NextChar(s, cursorCol);
      } else if cursorRow + 1 < |rows| {
        cursorRow := cursorRow + 1;
        cursorCol := 0;
      }
      ClampScroll();
    }

    // Up or down by up to `count` rows, the column cut to the new row.
    method MoveRows(up: bool, count: nat)
      requires Valid()
      modifies this`cursorRow, this`cursorCol, this`scrollRow
      ensures Valid() && scrollRow == Min(old(scrollRow), cursorRow)
      ensures cursorRow == if up then SaturatingSub(old(cursorRow), count)
                           else Min(old(cursorRow) + count, |rows| - 1)
      ensures cursorCol == Min(old(cursorCol), |rows[cursorRow]|)
    {
      var k := 0;
      while k < count
        invariant 0 <= k <= count && cursorRow < |rows|
        invariant cursorCol == old(cursorCol) && scrollRow == old(scrollRow)
        invariant cursorRow == if up then SaturatingSub(old(cursorRow), k) else Min(old(cursorRow) + k, |rows| - 1)
      {
        if up && cursorRow > 0 {
          cursorRow := cursorRow - 1;
        } else if !up && cursorRow + 1 < |rows| {
          cursorRow := cursorRow + 1;
        } else {
          break;
        }
        k := k + 1;
      }
      if cursorCol > |rows[cursorRow]| { cursorCol := |rows[cursorRow]|; }
      ClampScroll();
    }

    method EnsureCursorVisible(view: nat)
      requires Valid() && |rows| < SLICE && scrollRow < WORD && view < WORD
      modifies this`scrollRow
      ensures scrollRow == EnsureVisible(old(scrollRow), cursorRow, |rows|, view)
      ensures view > 0 ==> scrollRow <= cursorRow < scrollRow + view
    {
      hide Wrapped;
      if view == 0 { return; }
      ClampsShowCursor(scrollRow, cursorRow, |rows|, view);
      var last := Wrapped(scrollRow + view - 1);
      if cursorRow < scrollRow {
        scrollRow := cursorRow;
      } else if cursorRow > last {
        scrollRow := SaturatingSub(cursorRow, view - 1);
      }
      if Wrapped(scrollRow + view) > |rows| {
        var end := SaturatingSub(|rows|, 1);
        scrollRow := SaturatingSub(end, SaturatingSub(view, 1));
      }
    }
  }
}
