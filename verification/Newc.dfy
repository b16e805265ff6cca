/**
 * The "newc" layout written out byte by byte: where the writer puts everything and where the reader looks,
 * each stated with the literal positions of the format and apart from the other.
 */
module Newc {
  import opened Arithmetic
  import opened Wrappers
  import opened Cpio
  import Utf8

  // "0123456789abcdef"
  const HEX: seq<byte> := [48, 49, 50, 51, 52, 53, 54, 55, 56, 57, 97, 98, 99, 100, 101, 102]

  // The k-th hexadecimal digit of a number, least significant first.
  function Nibble(v: nat, k: nat): (d: nat)
    ensures d < 16
  {
    v / Pow16(k) % 16
  }

  // Eight lower-case hexadecimal digits of v, most significant first.
  function Digits(v: nat): (s: seq<byte>)
    ensures |s| == 8
  {
    seq(8, k requires 0 <= k < 8 => HEX[Nibble(v, 7 - k)])
  }

  ghost predicate Hex8(data: seq<byte>, at: nat, v: nat) {
    at + 8 <= |data| && data[at..at + 8] == Digits(v)
  }

  // ------------------------------------------------------------- the digits

  lemma DigitOf(d: nat)
    requires d < 16
    ensures HexDigit(d) == HEX[d]
  {
  }

  lemma NibbleStep(v: nat, k: nat)
    ensures Nibble(v, 0) == v % 16 && Nibble(v, k + 1) == Nibble(v / 16, k)
  {
    DivDiv(v, Pow16(k));
  }

  lemma DivDiv(v: nat, p: nat)
    requires p > 0
    ensures v / (16 * p) == v / 16 / p
  {
    var q, r := v / 16, v % 16;
    var a, b := q / p, q % p;
    assert v == 16 * q + r && q == p * a + b;
    assert v == (16 * p) * a + (16 * b + r);
    assert 16 * b + r < 16 * p;
    ModUnique(v, a, 16 * p, 16 * b + r);
  }

  /** Written with w digits, the i-th from the left is the one of weight 16^(w-1-i). */
  lemma {:induction false} HexIsNibbles(v: nat, w: nat, i: nat)
    requires 1 <= w <= 8 && v < Pow16(w) && Pow16(w) <= U32 && i < w
    ensures |Hex(v, w)| == w && Hex(v, w)[i] == HEX[Nibble(v, w - 1 - i)]
    decreases w
  {
    hide Nibble, Hex, HexValue, HexDigit, Pow16;
    QuotientFits(v, w);
    HexStep(v, w);
    NibbleStep(v, 0);
    DigitOf(v % 16);
    if w > 1 {
      HexRoundTrip(v / 16, w - 1);
      if i < w - 1 {
        HexIsNibbles(v / 16, w - 1, i);
        NibbleStep(v, w - 2 - i);
      }
    }
  }

  lemma HexStep(v: nat, w: nat)
    requires w >= 1 && (w == 1 ==> v < 16)
    ensures Hex(v, w) == if w == 1 then [HexDigit(v % 16)] else Hex(v / 16, w - 1) + [HexDigit(v % 16)]
  {
  }

  lemma QuotientFits(v: nat, w: nat)
    requires w >= 1 && v < Pow16(w)
    ensures v / 16 < Pow16(w - 1) <= Pow16(w) && (w == 1 ==> v < 16)
  {
  }

  lemma {:induction false} EightNibbles(v: nat)
    requires v < U32
    ensures Hex(v, 8) == Digits(v)
  {
    hide Hex, Nibble, Pow16;
    EightDigits(v);
    PowersOf16();
    forall k | 0 <= k < 8 ensures Hex(v, 8)[k] == HEX[Nibble(v, 7 - k)] { HexIsNibbles(v, 8, k); }
  }

  lemma {:induction false} PowersOf16()
    ensures Pow16(8) == U32
  {
    assert Pow16(4) == 0x1_0000;
  }

  // ------------------------------------------------------------- the writer

  // The thirteen fields of an entry at their places.
  ghost predicate HeaderOf(data: seq<byte>, o: nat, mode: nat, links: nat, size: nat, name: nat) {
    && Hex8(data, o + 6, 1) && Hex8(data, o + 14, mode) && Hex8(data, o + 22, 0) && Hex8(data, o + 30, 0)
    && Hex8(data, o + 38, links) && Hex8(data, o + 46, 0) && Hex8(data, o + 54, size)
    && Hex8(data, o + 62, 0) && Hex8(data, o + 70, 0) && Hex8(data, o + 78, 0) && Hex8(data, o + 86, 0)
    && Hex8(data, o + 94, name) && Hex8(data, o + 102, 0)
  }

  lemma FieldWritten(data: seq<byte>, offset: nat, vs: seq<nat>, name: seq<byte>, k: nat)
    requires HoldsName(data, offset, vs, name) && k < 13
    ensures Hex8(data, offset + 6 + 8 * k, vs[k])
  {
    hide Hex, Fields, Digits;
    FieldsLayout(vs, k);
    EightNibbles(vs[k]);
    var header := MAGIC + Fields(vs);
    assert header[6 + 8 * k..6 + 8 * k + 8] == Fields(vs)[8 * k..8 * k + 8];
    SliceOfSlice(data, offset, offset + 110, 6 + 8 * k, 6 + 8 * k + 8);
  }

  lemma HeaderWritten(data: seq<byte>, o: nat, e: Entry)
    requires HoldsName(data, o, EntryFields(e), e.name)
    ensures HeaderOf(data, o, Mode(e), if e.isDir then 2 else 1, FileSize(e), |e.name| + 1)
  {
    hide Hex8, HoldsName;
    var vs := EntryFields(e);
    FieldWritten(data, o, vs, e.name, 0);
    FieldWritten(data, o, vs, e.name, 1);
    FieldWritten(data, o, vs, e.name, 2);
    FieldWritten(data, o, vs, e.name, 3);
    FieldWritten(data, o, vs, e.name, 4);
    FieldWritten(data, o, vs, e.name, 5);
    FieldWritten(data, o, vs, e.name, 6);
    FieldWritten(data, o, vs, e.name, 7);
    FieldWritten(data, o, vs, e.name, 8);
    FieldWritten(data, o, vs, e.name, 9);
    FieldWritten(data, o, vs, e.name, 10);
    FieldWritten(data, o, vs, e.name, 11);
    FieldWritten(data, o, vs, e.name, 12);
  }

  /**
   * An entry as it is written: the magic, the fields, the name with its NUL, zeros to a multiple of four,
   * the body, zeros to a multiple of four; what was written before stays in front. A directory says that
   * its body is empty, whatever it is.
   */
  lemma EntryLayout(buf: seq<byte>, e: Entry)
    requires Encodable(e)
    ensures
      var w, o := Written(buf, e), |buf|;
      var mode := if e.isDir then 4 * 0x1000 + 7 * 64 + 5 * 8 + 5 else 8 * 0x1000 + 6 * 64 + 4 * 8 + 4;
      && |w| >= o + 111 + |e.name| + |e.body| && |w| % 4 == 0 && w[..o] == buf
      && w[o..o + 6] == [48, 55, 48, 55, 48, 49]
      && HeaderOf(w, o, mode, if e.isDir then 2 else 1, if e.isDir then 0 else |e.body|, |e.name| + 1)
      && w[o + 110..o + 110 + |e.name|] == e.name && w[o + 110 + |e.name|] == 0
      && exists body: nat ::
        && o + 111 + |e.name| <= body < o + 111 + |e.name| + 4 && body % 4 == 0
        && body + |e.body| <= |w| < body + |e.body| + 4
        && (forall i :: o + 111 + |e.name| <= i < body ==> w[i] == 0)
        && w[body..body + |e.body|] == e.body
        && (forall i :: body + |e.body| <= i < |w| ==> w[i] == 0)
  {
    hide Fields, Hex8, HoldsName, Named, WithBody, Padding, Align4;
    var vs := EntryFields(e);
    var start, w := Named(buf, vs, e.name), Written(buf, e);
    EntryFieldsFit(e);
    BodyLayout(start, e.body, w);
    NamedLayout(buf, vs, e.name, w);
    HeaderWritten(w, |buf|, e);
    MagicIs(w, |buf|, vs, e.name);
    NamePlaced(w, |buf|, vs, e.name);
    NamedTail(buf, vs, e.name);
    BodyTail(start, e.body);
    FrontKept(buf, start, w);
    assert w[..|start|] == start;
    assert forall i :: 0 <= i < |start| ==> w[i] == start[i];
    var body := |start|;
    assert w[body..body + |e.body|] == e.body;
  }

  /** The entry that ends an archive: no size, and the name TRAILER!!! with its NUL. */
  lemma {:induction false} TrailerLayout(buf: seq<byte>)
    ensures
      var w, o := WrittenAll(buf, []), |buf|;
      && |w| >= o + 121 && |w| % 4 == 0 && w[..o] == buf && w[o..o + 6] == [48, 55, 48, 55, 48, 49]
      && Hex8(w, o + 54, 0) && Hex8(w, o + 94, 11)
      && w[o + 110..o + 120] == [84, 82, 65, 73, 76, 69, 82, 33, 33, 33] && w[o + 120] == 0
  {
    hide Fields, Hex8, HoldsName, Named, Align4;
    var w := WrittenAll(buf, []);
    NamedLayout(buf, TRAILER_FIELDS, TRAILER, w);
    NamedTail(buf, TRAILER_FIELDS, TRAILER);
    MagicIs(w, |buf|, TRAILER_FIELDS, TRAILER);
    NamePlaced(w, |buf|, TRAILER_FIELDS, TRAILER);
    FieldWritten(w, |buf|, TRAILER_FIELDS, TRAILER, 6);
    FieldWritten(w, |buf|, TRAILER_FIELDS, TRAILER, 11);
  }

  lemma NamePlaced(data: seq<byte>, offset: nat, vs: seq<nat>, name: seq<byte>)
    requires HoldsName(data, offset, vs, name)
    ensures offset + 110 + |name| + 1 <= |data| && data[offset + 110..offset + 110 + |name|] == name
  {
  }

  lemma FrontKept(buf: seq<byte>, start: seq<byte>, w: seq<byte>)
    requires buf <= start <= w
    ensures w[..|buf|] == buf
  {
  }

  // Behind the name: a NUL and zeros up to the next multiple of four.
  lemma NamedTail(buf: seq<byte>, vs: seq<nat>, name: seq<byte>)
    requires |vs| == 13 && (forall i :: 0 <= i < 13 ==> vs[i] < U32)
    ensures
      var n, end := Named(buf, vs, name), |buf| + 110 + |name|;
      && end + 1 <= |n| < end + 5 && |n| % 4 == 0 && buf <= n
      && forall i :: end <= i < |n| ==> n[i] == 0
  {
    hide Fields, Align4;
    FieldsLayout(vs, 0);
    var front := buf + (MAGIC + Fields(vs)) + (name + [0]);
    assert |front| == |buf| + 110 + |name| + 1 && front[|front| - 1] == 0;
    assert front[..|buf|] == buf;
    PaddedTail(buf, front);
  }

  lemma PaddedTail(buf: seq<byte>, front: seq<byte>)
    requires buf <= front && front != [] && front[|front| - 1] == 0
    ensures
      var n := front + Padding(|front|);
      && |front| <= |n| < |front| + 4 && |n| % 4 == 0 && buf <= n
      && forall i :: |front| - 1 <= i < |n| ==> n[i] == 0
  {
    hide Align4;
    assert (front + Padding(|front|))[..|buf|] == front[..|buf|];
  }

  lemma BodyTail(start: seq<byte>, body: seq<byte>)
    ensures
      var w, end := WithBody(start, body), |start| + |body|;
      && end <= |w| < end + 4 && |w| % 4 == 0
      && forall i :: end <= i < |w| ==> w[i] == 0
  {
    hide Align4;
  }

  // ------------------------------------------------------------- the reader

  /**
   * What the reader takes from any bytes it accepts: the magic at 0, mode, owner, group, links, time, size
   * and device numbers at their places, the name behind the header without its last byte, the body at the
   * next multiple of four, the next entry at the one after that.
   */
  lemma ReaderLayout(data: seq<byte>, o: nat)
    requires ParseEntry(data, o).Some?
    ensures
      var p := ParseEntry(data, o).value;
      var h, size := p.header, FieldAt(data, o + 94, 8);
      && o + 110 <= |data| && data[o..o + 6] == [48, 55, 48, 55, 48, 49]
      && Some(h.mode) == FieldAt(data, o + 14, 8) && Some(h.uid) == FieldAt(data, o + 22, 8)
      && Some(h.gid) == FieldAt(data, o + 30, 8) && Some(h.nlink) == FieldAt(data, o + 38, 8)
      && Some(h.mtime) == FieldAt(data, o + 46, 8) && Some(h.filesize) == FieldAt(data, o + 54, 8)
      && Some(h.devmajor) == FieldAt(data, o + 62, 8) && Some(h.devminor) == FieldAt(data, o + 70, 8)
      && Some(h.rdevmajor) == FieldAt(data, o + 78, 8) && Some(h.rdevminor) == FieldAt(data, o + 86, 8)
      && size.Some? && o + 110 + |h.name| <= |data|
      && |h.name| == (if size.value == 0 then 0 else size.value - 1)
      && h.name == data[o + 110..o + 110 + |h.name|] && Utf8.Valid(h.name)
      && o + 110 + size.value <= p.bodyStart < o + 114 + size.value && p.bodyStart % 4 == 0
      && p.bodyStart + h.filesize <= p.next < p.bodyStart + h.filesize + 4 && p.next % 4 == 0
  {
    hide HexValue, Utf8.Valid, Align4, FieldAt;
    FieldPlaces(data, o);
  }

  lemma FieldPlaces(data: seq<byte>, o: nat)
    ensures
      var fs := HeaderFields(data, o);
      && fs[0] == FieldAt(data, o + 14, 8) && fs[1] == FieldAt(data, o + 22, 8) && fs[2] == FieldAt(data, o + 30, 8)
      && fs[3] == FieldAt(data, o + 38, 8) && fs[4] == FieldAt(data, o + 46, 8) && fs[5] == FieldAt(data, o + 54, 8)
      && fs[6] == FieldAt(data, o + 62, 8) && fs[7] == FieldAt(data, o + 70, 8) && fs[8] == FieldAt(data, o + 78, 8)
      && fs[9] == FieldAt(data, o + 86, 8) && fs[10] == FieldAt(data, o + 94, 8)
  {
    hide FieldAt, HeaderFields;
  }

  // A hexadecimal digit in either case.
  predicate DigitHere(b: byte, d: nat)
    requires d < 16
  {
    b == HEX[d] || (d >= 10 && b as int + 32 == HEX[d])
  }

  ghost predicate Reads(s: seq<byte>, v: nat) {
    v < Pow16(|s|) && forall k :: 0 <= k < |s| ==> DigitHere(s[k], Nibble(v, |s| - 1 - k))
  }

  lemma DigitValueIff(b: byte, d: nat)
    ensures DigitValue(b) == Some(d) <==> d < 16 && DigitHere(b, d)
  {
  }

  lemma {:induction false} Pow16Small(n: nat)
    requires n <= 8
    ensures Pow16(n) <= U32
    decreases 8 - n
  {
    if n == 8 { PowersOf16(); } else { Pow16Small(n + 1); }
  }

  lemma ReadsStep(s: seq<byte>, v: nat)
    requires s != []
    ensures Reads(s, v) <==> Reads(s[..|s| - 1], v / 16) && DigitHere(s[|s| - 1], v % 16)
  {
    hide Nibble, DigitHere;
    var n := |s|;
    var front := s[..n - 1];
    NibbleStep(v, 0);
    assert v < Pow16(n) <==> v / 16 < Pow16(n - 1);
    forall k | 0 <= k < n - 1 ensures Nibble(v, n - 1 - k) == Nibble(v / 16, n - 2 - k) && s[k] == front[k] {
      NibbleStep(v, n - 2 - k);
    }
  }

  /** At most eight digits, upper or lower case, have the value v exactly when they are the digits of v. */
  lemma {:induction false} HexValueIff(s: seq<byte>, v: nat)
    requires |s| <= 8
    ensures HexValue(s) == Some(v) <==> Reads(s, v)
    decreases |s|
  {
    if s != [] {
      hide Reads, DigitValue, DigitHere, Pow16;
      ReadsStep(s, v);
      HexValueIff(s[..|s| - 1], v / 16);
      DigitValueIff(s[|s| - 1], v % 16);
      ValueStep(s, v);
    }
  }

  // The last digit is the remainder.
  lemma {:induction false} ValueStep(s: seq<byte>, v: nat)
    requires 0 < |s| <= 8
    ensures HexValue(s) == Some(v) <==>
      HexValue(s[..|s| - 1]) == Some(v / 16) && DigitValue(s[|s| - 1]) == Some(v % 16)
  {
    var front, last := HexValue(s[..|s| - 1]), DigitValue(s[|s| - 1]);
    if front.Some? {
      FieldFits(s[..|s| - 1]);
      assert last.Some? ==> last.value < 16;
      assert front == Some(v / 16) && last == Some(v % 16) ==> v / 16 * 16 + v % 16 == v;
    }
  }

  lemma {:induction false} FieldFits(s: seq<byte>)
    requires |s| <= 8 && HexValue(s).Some?
    ensures HexValue(s).value < Pow16(|s|) <= U32
    decreases |s|
  {
    Pow16Small(|s|);
    if s != [] {
      FieldFits(s[..|s| - 1]);
    }
  }

  /** A field holds the value whose eight digits stand there, in either case, and no value when none do. */
  lemma FieldReads(data: seq<byte>, at: nat, v: nat)
    ensures FieldAt(data, at, 8) == Some(v) <==> at + 8 <= |data| && Reads(data[at..at + 8], v)
  {
    hide HexValue, Reads;
    if at + 8 <= |data| { HexValueIff(data[at..at + 8], v); }
  }

  // The body at the next multiple of four behind the name, the next entry at the one behind the body.
  ghost predicate Placed(data: seq<byte>, nameEnd: nat, size: nat, body: nat, next: nat) {
    && nameEnd <= body < nameEnd + 4 && body % 4 == 0
    && body + size <= next < body + size + 4 && next % 4 == 0 && next <= |data|
  }

  ghost predicate HasRoom(data: seq<byte>, nameEnd: nat, size: nat) {
    exists body: nat, next: nat :: Placed(data, nameEnd, size, body, next)
  }

  lemma RoomIff(data: seq<byte>, nameEnd: nat, size: nat)
    ensures HasRoom(data, nameEnd, size) <==> Align4(Align4(nameEnd) + size) <= |data|
  {
    var body := Align4(nameEnd);
    var next := Align4(body + size);
    if HasRoom(data, nameEnd, size) {
      var b: nat, n: nat :| Placed(data, nameEnd, size, b, n);
      assert b == body && n == next;
    }
    if next <= |data| { assert Placed(data, nameEnd, size, body, next); }
  }

  // Hexadecimal digits in every field but the first and the last.
  predicate HasFields(data: seq<byte>, o: nat) {
    && FieldAt(data, o + 14, 8).Some? && FieldAt(data, o + 22, 8).Some? && FieldAt(data, o + 30, 8).Some?
    && FieldAt(data, o + 38, 8).Some? && FieldAt(data, o + 46, 8).Some? && FieldAt(data, o + 54, 8).Some?
    && FieldAt(data, o + 62, 8).Some? && FieldAt(data, o + 70, 8).Some? && FieldAt(data, o + 78, 8).Some?
    && FieldAt(data, o + 86, 8).Some? && FieldAt(data, o + 94, 8).Some?
  }

  // The name without its last byte.
  function NameAt(data: seq<byte>, o: nat, name: nat): (s: seq<byte>)
    requires o + 110 + name <= |data|
  {
    data[o + 110..o + 110 + if name == 0 then 0 else name - 1]
  }

  /** Exactly the bytes that are read as an entry. */
  lemma ReadsIff(data: seq<byte>, o: nat)
    ensures ParseEntry(data, o).Some? <==>
      (&& o + 110 <= |data| && data[o..o + 6] == [48, 55, 48, 55, 48, 49] && HasFields(data, o)
       && var size, name := FieldAt(data, o + 54, 8).value, FieldAt(data, o + 94, 8).value;
          HasRoom(data, o + 110 + name, size) && o + 110 + name <= |data| && Utf8.Valid(NameAt(data, o, name)))
  {
    hide HexValue, Utf8.Valid, FieldAt, HasRoom, Align4;
    FieldPlaces(data, o);
    if HasFields(data, o) {
      var size, name := FieldAt(data, o + 54, 8).value, FieldAt(data, o + 94, 8).value;
      RoomIff(data, o + 110 + name, size);
    }
  }

  // ------------------------------------------------------------- what an entry asks for

  // The name behind its leading slashes.
  ghost predicate Unslashed(name: seq<byte>, path: seq<byte>) {
    && |path| <= |name| && path == name[|name| - |path|..]
    && (forall i :: 0 <= i < |name| - |path| ==> name[i] == 47)
    && (path != [] ==> path[0] != 47)
  }

  lemma {:induction false} TrimmedIs(name: seq<byte>)
    ensures Unslashed(name, TrimSlashes(name))
    decreases |name|
  {
    if name != [] && name[0] == 47 {
      TrimmedIs(name[1..]);
      var path := TrimSlashes(name[1..]);
      assert name[1..][|name| - 1 - |path|..] == name[|name| - |path|..];
      assert forall i :: 1 <= i < |name| - |path| ==> name[i] == name[1..][i - 1];
    } else {
      assert name[0..] == name;
    }
  }

  /**
   * Unpacking asks for one thing per entry: a directory or a file under the name behind its leading
   * slashes, by the type bits of the mode. It asks for nothing when no name is left, when two dots stand
   * side by side in it, or for any other type.
   */
  lemma EntryAsks(f: File)
    ensures
      var path := TrimSlashes(f.name);
      var climbs := exists i :: 0 <= i < |f.name| - 1 && f.name[i] == 46 && f.name[i + 1] == 46;
      var kind := f.mode / 4096 % 16;
      && Unslashed(f.name, path)
      && ActionsFor(f) ==
        if path == [] || climbs then []
        else if kind == 4 then [Mkdir(path)]
        else if kind == 8 then [WriteWhole(path, f.body)]
        else []
  {
    TrimmedIs(f.name);
    DotsKept(f.name, TrimSlashes(f.name));
    hide TrimSlashes, Unslashed, HasDotDot;
  }

  lemma DotsKept(name: seq<byte>, path: seq<byte>)
    requires Unslashed(name, path)
    ensures HasDotDot(path) <==> exists i :: 0 <= i < |name| - 1 && name[i] == 46 && name[i + 1] == 46
  {
    var k := |name| - |path|;
    if i :| 0 <= i < |name| - 1 && name[i] == 46 && name[i + 1] == 46 {
      assert i >= k;
      assert path[i - k] == 46 && path[i - k + 1] == 46;
    }
    if i :| 0 <= i < |path| - 1 && path[i] == 46 && path[i + 1] == 46 {
      assert name[k + i] == 46 && name[k + i + 1] == 46;
    }
  }
}
