/**
 * The initramfs archive: the writer of the build script and the reader of the kernel, two
 * separate pieces of code for the SVR4 "newc" portable ASCII format.
 */
module Cpio {
  import opened Arithmetic
  import opened Wrappers
  import Utf8

  const MAGIC: seq<byte> := [48, 55, 48, 55, 48, 49]                       // "070701"
  const TRAILER: seq<byte> := [84, 82, 65, 73, 76, 69, 82, 33, 33, 33]     // "TRAILER!!!"

  // ------------------------------------------------------------- hexadecimal fields

  function HexDigit(d: nat): byte
    requires d < 16
  {
    if d < 10 then 48 + d else 97 + d - 10
  }

  function DigitValue(b: byte): Option<nat> {
    if 48 <= b <= 57 then Some(b - 48)
    else if 97 <= b <= 102 then Some(b - 97 + 10)
    else if 65 <= b <= 70 then Some(b - 65 + 10)
    else None
  }

  // `write_hex`: at least `width` digits, padded with zeros, more when the value needs them.
  function Hex(v: nat, width: nat): (s: seq<byte>)
    ensures |s| >= width && |s| >= 1
    decreases v + width
  {
    if v < 16 && width <= 1 then [HexDigit(v)]
    else Hex(v / 16, if width > 0 then width - 1 else 0) + [HexDigit(v % 16)]
  }

  // The value of a digit string; None for a foreign character or 64-bit overflow.
  function HexValue(s: seq<byte>): Option<nat> {
    if s == [] then Some(0)
    else
      match HexValue(s[..|s| - 1])
      case None => None
      case Some(v) =>
        match DigitValue(s[|s| - 1])
        case None => None
        case Some(d) => if v * 16 + d < WORD then Some(v * 16 + d) else None
  }

  function Pow16(w: nat): (p: nat)
    ensures p >= 1
  {
    if w == 0 then 1 else 16 * Pow16(w - 1)
  }

  /** A value of w digits is written with exactly w and read back. */
  lemma {:induction false} HexRoundTrip(v: nat, w: nat)
    requires 1 <= w <= 8 && v < Pow16(w) && Pow16(w) <= U32
    ensures |Hex(v, w)| == w && HexValue(Hex(v, w)) == Some(v)
    decreases w
  {
    var s := Hex(v, w);
    assert DigitValue(HexDigit(v % 16)) == Some(v % 16);
    if w == 1 {
      assert s[..0] == [];
      assert HexValue(s[..0]) == Some(0);
    } else {
      HexRoundTrip(v / 16, w - 1);
      assert s[..|s| - 1] == Hex(v / 16, w - 1);
    }
  }

  lemma {:induction false} EightDigits(v: nat)
    requires v < U32
    ensures |Hex(v, 8)| == 8 && HexValue(Hex(v, 8)) == Some(v)
  {
    assert Pow16(4) == 0x1_0000;
    assert Pow16(8) == U32;
    HexRoundTrip(v, 8);
  }

  // Field reader on a buffer: None when out of bounds.
  function FieldAt(data: seq<byte>, offset: nat, len: nat): Option<nat> {
    if offset + len <= |data| then HexValue(data[offset..offset + len]) else None
  }

  /** `parse_hex`, the accumulating loop. */
  method ParseHex(data: seq<byte>, offset: nat, len: nat) returns (r: Option<nat>)
    ensures r == FieldAt(data, offset, len)
  {
    if offset + len > |data| { return None; }
    var bytes := data[offset..offset + len];
    var v := 0;
    var i := 0;
    while i < |bytes|
      invariant 0 <= i <= |bytes|
      invariant HexValue(bytes[..i]) == Some(v)
    {
      assert bytes[..i + 1][..i] == bytes[..i];
      var d := DigitValue(bytes[i]);
      if d.None? || v * 16 + d.value >= WORD {
        PrefixNone(bytes, i + 1);
        return None;
      }
      v := v * 16 + d.value;
      i := i + 1;
    }
    assert bytes[..i] == bytes;
    return Some(v);
  }

  /** A bad prefix spoils the whole field. */
  lemma {:induction false} PrefixNone(s: seq<byte>, i: nat)
    requires i <= |s| && HexValue(s[..i]).None?
    ensures HexValue(s).None?
    decreases |s|
  {
    if i == |s| {
      assert s[..i] == s;
    } else {
      assert s[..|s| - 1][..i] == s[..i];
      PrefixNone(s[..|s| - 1], i);
    }
  }

  // ------------------------------------------------------------- alignment

  function Align4(n: nat): (a: nat)
    ensures n <= a < n + 4 && a % 4 == 0
  {
    (n + 3) / 4 * 4
  }

  function Padding(n: nat): (p: seq<byte>)
    ensures n + |p| == Align4(n)
  {
    seq((4 - n % 4) % 4, i => 0)
  }

  // ------------------------------------------------------------- the writer

  datatype Entry = Entry(name: seq<byte>, isDir: bool, body: seq<byte>)

  function Fields(vs: seq<nat>): seq<byte> {
    if vs == [] then [] else Hex(vs[0], 8) + Fields(vs[1..])
  }

  function Mode(e: Entry): nat { if e.isDir then 0x41ED else 0x81A4 }        // 0o040755, 0o100644

  function FileSize(e: Entry): nat { if e.isDir then 0 else |e.body| }

  // inode, mode, uid, gid, nlink, mtime, filesize, four device numbers, namesize, check
  function EntryFields(e: Entry): (vs: seq<nat>)
    ensures |vs| == 13
  {
    [1, Mode(e), 0, 0, if e.isDir then 2 else 1, 0, FileSize(e), 0, 0, 0, 0, |e.name| + 1, 0]
  }

  const TRAILER_FIELDS: seq<nat> := [0, 0, 0, 0, 0, 0, 0, 0, 0, 0, 0, 11, 0]

  // Header, name and terminator, padded to a multiple of four of the whole buffer.
  function Named(buf: seq<byte>, vs: seq<nat>, name: seq<byte>): seq<byte> {
    var n := buf + (MAGIC + Fields(vs)) + (name + [0]);
    n + Padding(|n|)
  }

  function WithBody(buf: seq<byte>, body: seq<byte>): seq<byte> {
    var b := buf + body;
    b + Padding(|b|)
  }

  // The body is appended whatever the kind of entry.
  function Written(buf: seq<byte>, e: Entry): seq<byte> {
    WithBody(Named(buf, EntryFields(e), e.name), e.body)
  }

  function WrittenAll(buf: seq<byte>, es: seq<Entry>): seq<byte>
    decreases |es|
  {
    if es == [] then Named(buf, TRAILER_FIELDS, TRAILER) else WrittenAll(Written(buf, es[0]), es[1..])
  }

  method Pad(buf: seq<byte>) returns (out: seq<byte>)
    ensures out == buf + Padding(|buf|)
  {
    out := buf;
    var padding := (4 - |buf| % 4) % 4;
    var k := 0;
    while k < padding
      invariant 0 <= k <= padding
      invariant out == buf + Padding(|buf|)[..k]
    {
      out := out + [0];
      k := k + 1;
    }
    assert Padding(|buf|)[..k] == Padding(|buf|);
  }

  // The magic and the fields one after the other.
  method WriteHeader(buf: seq<byte>, fields: seq<nat>) returns (out: seq<byte>)
    ensures out == buf + (MAGIC + Fields(fields))
  {
    hide Hex;
    out := buf + MAGIC;
    var k := 0;
    while k < |fields|
      invariant 0 <= k <= |fields|
      invariant out == buf + (MAGIC + Fields(fields[..k]))
    {
      FieldsSnoc(fields[..k], fields[k]);
      assert fields[..k + 1] == fields[..k] + [fields[k]];
      assert out + Hex(fields[k], 8) == buf + (MAGIC + (Fields(fields[..k]) + Hex(fields[k], 8)));
      out := out + Hex(fields[k], 8);
      k := k + 1;
    }
    assert fields[..k] == fields;
  }

  /** `write_cpio_file`. */
  method WriteFile(buf: seq<byte>, e: Entry) returns (out: seq<byte>)
    ensures out == Written(buf, e)
  {
    hide Fields, Padding;
    out := WriteHeader(buf, EntryFields(e));
    out := out + (e.name + [0]);
    out := Pad(out);
    out := out + e.body;
    out := Pad(out);
  }

  /** `write_cpio_trailer`. */
  method WriteTrailer(buf: seq<byte>) returns (out: seq<byte>)
    ensures out == WrittenAll(buf, [])
  {
    hide Fields, Padding;
    out := WriteHeader(buf, TRAILER_FIELDS);
    out := out + (TRAILER + [0]);
    out := Pad(out);
  }

  lemma {:induction false} FieldsSnoc(vs: seq<nat>, v: nat)
    ensures Fields(vs + [v]) == Fields(vs) + Hex(v, 8)
    decreases |vs|
  {
    if vs == [] {
      assert (vs + [v])[1..] == [];
      assert Fields([]) == [];
    } else {
      assert (vs + [v])[1..] == vs[1..] + [v];
      FieldsSnoc(vs[1..], v);
    }
  }

  // ------------------------------------------------------------- the reader

  datatype Header = Header(
    name: seq<byte>, mode: nat, uid: nat, gid: nat, nlink: nat, mtime: nat, filesize: nat,
    devmajor: nat, devminor: nat, rdevmajor: nat, rdevminor: nat)

  datatype Parsed = Parsed(header: Header, bodyStart: nat, next: nat)

  predicate AllSome(fs: seq<Option<nat>>) {
    forall i :: 0 <= i < |fs| ==> fs[i].Some?
  }

  function Values(fs: seq<Option<nat>>): (vs: seq<nat>)
    requires AllSome(fs)
    ensures |vs| == |fs| && forall i :: 0 <= i < |fs| ==> vs[i] == fs[i].value
  {
    seq(|fs|, i requires 0 <= i < |fs| => fs[i].value)
  }

  function HeaderField(data: seq<byte>, offset: nat, k: nat): Option<nat> {
    FieldAt(data, offset + 6 + 8 * k, 8)
  }

  // Fields mode to namesize, in the order of the header.
  function HeaderFields(data: seq<byte>, offset: nat): (fs: seq<Option<nat>>)
    ensures |fs| == 11 && forall i :: 0 <= i < 11 ==> fs[i] == HeaderField(data, offset, i + 1)
  {
    seq(11, i requires 0 <= i < 11 => HeaderField(data, offset, i + 1))
  }

  // The rest of `parse_entry` once the fields are known.
  function ParseRest(data: seq<byte>, offset: nat, vs: seq<nat>): (r: Option<Parsed>)
    requires |vs| == 11 && offset + 110 <= |data|
    ensures r.Some? ==>
      && offset + 110 <= r.value.bodyStart
      && r.value.bodyStart + r.value.header.filesize <= r.value.next <= |data|
  {
    var namesize, filesize := vs[10], vs[5];
    var nameStart := offset + 110;
    var nameEnd := nameStart + if namesize > 0 then namesize - 1 else 0;
    if nameEnd > |data| then None
    else if !Utf8.Valid(data[nameStart..nameEnd]) then None
    else
      var bodyStart := Align4(nameStart + namesize);
      var bodyEnd := bodyStart + filesize;
      if bodyEnd > |data| || Align4(bodyEnd) > |data| then None
      else
        Some(Parsed(
          Header(data[nameStart..nameEnd], vs[0], vs[1], vs[2], vs[3], vs[4], filesize, vs[6], vs[7], vs[8], vs[9]),
          bodyStart, Align4(bodyEnd)))
  }

  /** `parse_entry`: everything it reports lies inside the data, at least 110 bytes further on. */
  function ParseEntry(data: seq<byte>, offset: nat): (r: Option<Parsed>)
    ensures r.Some? ==>
      && offset + 110 <= r.value.bodyStart
      && r.value.bodyStart + r.value.header.filesize <= r.value.next <= |data|
  {
    if offset + 110 > |data| then None
    else if data[offset..offset + 6] != MAGIC then None
    else if !AllSome(HeaderFields(data, offset)) then None
    else ParseRest(data, offset, Values(HeaderFields(data, offset)))
  }

  datatype File = File(name: seq<byte>, mode: nat, body: seq<byte>)
  datatype Listing = Listing(files: seq<File>, sawTrailer: bool)

  // Every entry from `offset` to the trailer or the first malformed one.
  function ParseAll(data: seq<byte>, offset: nat): Listing
    decreases |data| - offset
  {
    if offset >= |data| then Listing([], false)
    else
      match ParseEntry(data, offset)
      case None => Listing([], false)
      case Some(p) =>
        if p.header.name == TRAILER then Listing([], true)
        else
          var rest := ParseAll(data, p.next);
          var body := data[p.bodyStart..p.bodyStart + p.header.filesize];
          Listing([File(p.header.name, p.header.mode, body)] + rest.files, rest.sawTrailer)
  }

  // ------------------------------------------------------------- one entry

  // The fields fit their eight digits and the name is text.
  predicate Encodable(e: Entry) {
    |e.name| + 1 < U32 && |e.body| < U32 && Utf8.Valid(e.name)
  }

  predicate Representable(e: Entry) {
    Encodable(e) && (e.isDir ==> e.body == [])
  }

  lemma {:induction false} FieldsLayout(vs: seq<nat>, k: nat)
    requires forall i :: 0 <= i < |vs| ==> vs[i] < U32
    ensures |Fields(vs)| == 8 * |vs|
    ensures k < |vs| ==> Fields(vs)[8 * k..8 * k + 8] == Hex(vs[k], 8)
    decreases |vs|
  {
    hide Hex;
    if vs != [] {
      EightDigits(vs[0]);
      FieldsLayout(vs[1..], if k > 0 then k - 1 else 0);
      var f, rest := Fields(vs), Fields(vs[1..]);
      if 0 < k < |vs| {
        assert f[8 * k..8 * k + 8] == rest[8 * (k - 1)..8 * (k - 1) + 8];
      }
    }
  }

  // `data` continues as the header, name and padding were written at `offset`.
  ghost predicate HoldsName(data: seq<byte>, offset: nat, vs: seq<nat>, name: seq<byte>) {
    && |vs| == 13 && (forall i :: 0 <= i < 13 ==> vs[i] < U32)
    && vs[11] == |name| + 1
    && offset + 110 + |name| + 1 <= |data|
    && data[offset..offset + 110] == MAGIC + Fields(vs)
    && data[offset + 110..offset + 110 + |name|] == name
  }

  lemma HeaderFieldIs(data: seq<byte>, offset: nat, vs: seq<nat>, name: seq<byte>, k: nat)
    requires HoldsName(data, offset, vs, name) && k < 13
    ensures HeaderField(data, offset, k) == Some(vs[k])
  {
    hide HexValue, Hex, Fields;
    FieldsLayout(vs, k);
    EightDigits(vs[k]);
    var header := MAGIC + Fields(vs);
    assert header[6 + 8 * k..6 + 8 * k + 8] == Fields(vs)[8 * k..8 * k + 8];
    SliceOfSlice(data, offset, offset + 110, 6 + 8 * k, 6 + 8 * k + 8);
  }

  lemma SliceOfSlice(s: seq<byte>, a: nat, b: nat, c: nat, d: nat)
    requires a <= b <= |s| && c <= d <= b - a
    ensures s[a..b][c..d] == s[a + c..a + d]
  {
    var x, y := s[a..b][c..d], s[a + c..a + d];
    forall i | 0 <= i < |x| ensures x[i] == y[i] {
      assert s[a..b][c + i] == s[a + c + i];
    }
  }

  lemma MagicIs(data: seq<byte>, offset: nat, vs: seq<nat>, name: seq<byte>)
    requires HoldsName(data, offset, vs, name)
    ensures data[offset..offset + 6] == MAGIC
  {
    hide Fields;
    FieldsLayout(vs, 0);
    assert data[offset..offset + 6] == data[offset..offset + 110][..6];
  }

  // What the reader makes of a header with these fields.
  function Decoded(name: seq<byte>, vs: seq<nat>): Header
    requires |vs| == 13
  {
    Header(name, vs[1], vs[2], vs[3], vs[4], vs[5], vs[6], vs[7], vs[8], vs[9], vs[10])
  }

  lemma {:induction false} ParsesBack(data: seq<byte>, offset: nat, vs: seq<nat>, name: seq<byte>)
    requires HoldsName(data, offset, vs, name) && Utf8.Valid(name)
    requires Align4(Align4(offset + 110 + |name| + 1) + vs[6]) <= |data|
    ensures
      var start := Align4(offset + 110 + |name| + 1);
      ParseEntry(data, offset) == Some(Parsed(Decoded(name, vs), start, Align4(start + vs[6])))
  {
    hide HeaderField, Utf8.Valid, Fields, Align4, HeaderFields, Values;
    MagicIs(data, offset, vs, name);
    FieldsParse(data, offset, vs, name);
    RestParses(data, offset, vs, name);
    hide HoldsName, ParseRest, Decoded;
  }

  lemma {:induction false} RestParses(data: seq<byte>, offset: nat, vs: seq<nat>, name: seq<byte>)
    requires |vs| == 13 && vs[11] == |name| + 1 && Utf8.Valid(name)
    requires offset + 110 + |name| + 1 <= |data| && data[offset + 110..offset + 110 + |name|] == name
    requires Align4(Align4(offset + 110 + |name| + 1) + vs[6]) <= |data|
    ensures
      var start := Align4(offset + 110 + |name| + 1);
      ParseRest(data, offset, vs[1..12]) == Some(Parsed(Decoded(name, vs), start, Align4(start + vs[6])))
  {
    hide Utf8.Valid, Align4;
    var ws := vs[1..12];
    assert ws[10] == vs[11] && ws[5] == vs[6];
  }

  lemma FieldsParse(data: seq<byte>, offset: nat, vs: seq<nat>, name: seq<byte>)
    requires HoldsName(data, offset, vs, name)
    ensures AllSome(HeaderFields(data, offset)) && Values(HeaderFields(data, offset)) == vs[1..12]
  {
    hide HeaderField, HeaderFields, Values;
    var fs := HeaderFields(data, offset);
    forall i | 0 <= i < 11 ensures fs[i] == Some(vs[i + 1]) {
      HeaderFieldIs(data, offset, vs, name, i + 1);
    }
  }

  lemma EntryFieldsFit(e: Entry)
    requires Encodable(e)
    ensures forall i :: 0 <= i < 13 ==> EntryFields(e)[i] < U32
  {
  }

  lemma NamedLayout(buf: seq<byte>, vs: seq<nat>, name: seq<byte>, data: seq<byte>)
    requires |vs| == 13 && (forall i :: 0 <= i < 13 ==> vs[i] < U32) && vs[11] == |name| + 1
    requires Named(buf, vs, name) <= data
    ensures HoldsName(data, |buf|, vs, name)
    ensures |Named(buf, vs, name)| == Align4(|buf| + 110 + |name| + 1)
  {
    hide Fields, Align4, Padding;
    FieldsLayout(vs, 0);
    var header := MAGIC + Fields(vs);
    var n := buf + header + (name + [0]);
    var w := Named(buf, vs, name);
    assert w[..|n|] == n;
    assert data[..|w|] == w;
    assert n[|buf|..|buf| + 110] == header;
    assert n[|buf| + 110..|buf| + 110 + |name|] == name;
    assert data[|buf|..|buf| + 110] == w[|buf|..|buf| + 110] == n[|buf|..|buf| + 110];
    assert data[|buf| + 110..|buf| + 110 + |name|] == n[|buf| + 110..|buf| + 110 + |name|];
  }

  lemma BodyLayout(start: seq<byte>, body: seq<byte>, data: seq<byte>)
    requires WithBody(start, body) <= data
    ensures start <= data && |WithBody(start, body)| == Align4(|start| + |body|)
    ensures |start| + |body| <= |data| && data[|start|..|start| + |body|] == body
  {
    hide Align4, Padding;
    var w := WithBody(start, body);
    assert data[..|w|] == w;
    assert w[..|start|] == start;
    assert w[|start|..|start| + |body|] == body;
    assert data[|start|..|start| + |body|] == w[|start|..|start| + |body|];
  }

  // The reader's view of a written entry.
  function Seen(e: Entry): File { File(e.name, Mode(e), e.body) }

  /** One entry: the reader finds name, mode and body where the writer put them. */
  lemma EntryRoundTrip(buf: seq<byte>, e: Entry, data: seq<byte>)
    requires Representable(e) && Written(buf, e) <= data
    ensures
      var p := ParseEntry(data, |buf|);
      && p.Some? && p.value.next == |Written(buf, e)|
      && p.value.header.name == e.name && p.value.header.mode == Mode(e)
      && data[p.value.bodyStart..p.value.bodyStart + p.value.header.filesize] == e.body
  {
    hide Fields, Align4, Padding, Utf8.Valid, ParseEntry, HoldsName, Named, WithBody;
    var vs := EntryFields(e);
    var start := Named(buf, vs, e.name);
    EntryFieldsFit(e);
    BodyLayout(start, e.body, data);
    NamedLayout(buf, vs, e.name, data);
    ParsesBack(data, |buf|, vs, e.name);
  }

  lemma {:induction false} WrittenAllGrows(buf: seq<byte>, es: seq<Entry>)
    ensures buf <= WrittenAll(buf, es) && |WrittenAll(buf, es)| > |buf|
    decreases |es|
  {
    hide Fields, Padding;
    if es == [] {
      assert Named(buf, TRAILER_FIELDS, TRAILER)[..|buf|] == buf;
    } else {
      WrittenAllGrows(Written(buf, es[0]), es[1..]);
      var w := Written(buf, es[0]);
      var start := Named(buf, EntryFields(es[0]), es[0].name);
      assert start[..|buf|] == buf && w[..|start|] == start;
      assert WrittenAll(buf, es)[..|w|] == w;
      assert WrittenAll(buf, es)[..|buf|] == w[..|buf|] == start[..|buf|];
    }
  }

  lemma TrailerParses(buf: seq<byte>, data: seq<byte>)
    requires Named(buf, TRAILER_FIELDS, TRAILER) <= data
    ensures |buf| < |data| && ParseEntry(data, |buf|).Some? && ParseEntry(data, |buf|).value.header.name == TRAILER
  {
    hide Fields, Utf8.Valid, ParseEntry, Named;
    AsciiIsValid(TRAILER);
    NamedParses(buf, TRAILER_FIELDS, TRAILER, data);
  }

  lemma {:induction false} NamedParses(buf: seq<byte>, vs: seq<nat>, name: seq<byte>, data: seq<byte>)
    requires |vs| == 13 && (forall i :: 0 <= i < 13 ==> vs[i] < U32) && vs[11] == |name| + 1 && vs[6] == 0
    requires Named(buf, vs, name) <= data && Utf8.Valid(name)
    ensures |buf| < |data| && ParseEntry(data, |buf|).Some? && ParseEntry(data, |buf|).value.header.name == name
    ensures ParseEntry(data, |buf|).value.header.filesize == 0
    ensures ParseEntry(data, |buf|).value.next == |Named(buf, vs, name)|
  {
    hide Fields, Utf8.Valid, ParseEntry, Named;
    NamedLayout(buf, vs, name, data);
    ParsesBack(data, |buf|, vs, name);
  }

  lemma {:induction false} AsciiIsValid(s: seq<byte>)
    requires forall i :: 0 <= i < |s| ==> s[i] < 0x80
    ensures Utf8.Valid(s)
    decreases |s|
  {
    if s != [] { AsciiIsValid(s[1..]); }
  }

  // The entries before the first one that carries the trailer's name.
  function UpToTrailer(es: seq<Entry>): seq<Entry> {
    if es == [] || es[0].name == TRAILER then [] else [es[0]] + UpToTrailer(es[1..])
  }

  function SeenAll(es: seq<Entry>): (fs: seq<File>)
    ensures |fs| == |es| && forall i :: 0 <= i < |es| ==> fs[i] == Seen(es[i])
  {
    seq(|es|, i requires 0 <= i < |es| => Seen(es[i]))
  }

  lemma {:induction false} ArchiveReadsBack(buf: seq<byte>, es: seq<Entry>, data: seq<byte>)
    requires (forall i :: 0 <= i < |es| ==> Representable(es[i])) && WrittenAll(buf, es) <= data
    ensures ParseAll(data, |buf|) == Listing(SeenAll(UpToTrailer(es)), true)
    decreases |es|
  {
    hide ParseEntry, Written, Named, Representable, Mode, SeenAll;
    WrittenAllGrows(buf, es);
    if es == [] {
      TrailerParses(buf, data);
      assert SeenAll([]) == [];
    } else {
      var e, w := es[0], Written(buf, es[0]);
      WrittenAllGrows(w, es[1..]);
      assert w <= data;
      EntryRoundTrip(buf, e, data);
      if e.name != TRAILER {
        ArchiveReadsBack(w, es[1..], data);
        assert SeenAll(UpToTrailer(es)) == [Seen(e)] + SeenAll(UpToTrailer(es[1..]));
      } else {
        assert SeenAll([]) == [];
      }
    }
  }

  /**
   * Archive round trip: for every list of representable entries none of which is called
   * TRAILER!!!, reading the written archive yields the same names, modes and bodies in order,
   * and then the trailer. It holds after any prefix already in the buffer and before any suffix.
   */
  lemma {:induction false} ArchiveRoundTrip(buf: seq<byte>, es: seq<Entry>, suffix: seq<byte>)
    requires forall i :: 0 <= i < |es| ==> Representable(es[i]) && es[i].name != TRAILER
    ensures ParseAll(WrittenAll(buf, es) + suffix, |buf|) == Listing(SeenAll(es), true)
  {
    hide ParseAll, WrittenAll, Representable;
    ArchiveReadsBack(buf, es, WrittenAll(buf, es) + suffix);
    NoTrailer(es);
  }

  lemma {:induction false} NoTrailer(es: seq<Entry>)
    requires forall i :: 0 <= i < |es| ==> es[i].name != TRAILER
    ensures UpToTrailer(es) == es
    decreases |es|
  {
    if es != [] { NoTrailer(es[1..]); }
  }

  /** A directory is read back with an empty body, whatever was written for it. */
  lemma DirectoryReadsEmpty(buf: seq<byte>, e: Entry, data: seq<byte>)
    requires Encodable(e) && e.isDir && Written(buf, e) <= data
    ensures |buf| < |data| && ParseEntry(data, |buf|).Some?
    ensures ParseEntry(data, |buf|).value.header.name == e.name
    ensures ParseEntry(data, |buf|).value.header.filesize == 0
  {
    hide Fields, Padding, Utf8.Valid, Named, WithBody, ParseEntry;
    BodyLayout(Named(buf, EntryFields(e), e.name), e.body, data);
    NamedParses(buf, EntryFields(e), e.name, data);
  }

  // What an entry needs to come back from the archive.
  predicate Survives(e: Entry) {
    e.name != TRAILER && (e.isDir ==> e.body == [])
  }

  // The listing shows the first entry only if that entry survives.
  lemma {:induction false} FirstMustSurvive(buf: seq<byte>, es: seq<Entry>, data: seq<byte>)
    requires es != [] && Encodable(es[0]) && Written(buf, es[0]) <= data && |buf| < |data|
    requires ParseAll(data, |buf|) == Listing(SeenAll(es), true)
    ensures Survives(es[0])
    ensures ParseAll(data, |Written(buf, es[0])|) == Listing(SeenAll(es[1..]), true)
  {
    hide ParseEntry, Written, Encodable, Mode, SeenAll;
    var e, w := es[0], Written(buf, es[0]);
    var files := ParseAll(data, |buf|).files;
    assert files[0] == Seen(e);
    if e.isDir {
      DirectoryReadsEmpty(buf, e, data);
      assert files[0].body == [];
    }
    EntryRoundTrip(buf, e, data);
    assert files[1..] == SeenAll(es[1..]);
    assert files == [files[0]] + ParseAll(data, |w|).files;
  }

  lemma {:induction false} ReadBackMustSurvive(buf: seq<byte>, es: seq<Entry>, data: seq<byte>)
    requires (forall i :: 0 <= i < |es| ==> Encodable(es[i])) && WrittenAll(buf, es) <= data
    requires ParseAll(data, |buf|) == Listing(SeenAll(es), true)
    ensures forall i :: 0 <= i < |es| ==> Survives(es[i])
    decreases |es|
  {
    hide ParseAll, Written, Encodable, SeenAll, Survives, WrittenAll;
    if es != [] {
      RestWritten(buf, es, data);
      FirstMustSurvive(buf, es, data);
      ReadBackMustSurvive(Written(buf, es[0]), es[1..], data);
    }
  }

  // What is written of the first entry and of the others is in the data, and is not nothing.
  lemma {:induction false} RestWritten(buf: seq<byte>, es: seq<Entry>, data: seq<byte>)
    requires es != [] && WrittenAll(buf, es) <= data
    ensures
      var w := Written(buf, es[0]);
      w <= data && WrittenAll(w, es[1..]) <= data && |buf| < |data|
  {
    hide Written;
    WrittenAllGrows(buf, es);
    WrittenAllGrows(Written(buf, es[0]), es[1..]);
  }

  /**
   * Exactly when an archive reads back: of entries whose fields fit, all come back with name, mode
   * and body, followed by the trailer, if and only if none is called TRAILER!!! and no directory has
   * a body.
   */
  lemma {:induction false} ArchiveRoundTripIff(buf: seq<byte>, es: seq<Entry>, data: seq<byte>)
    requires (forall i :: 0 <= i < |es| ==> Encodable(es[i])) && WrittenAll(buf, es) <= data
    ensures ParseAll(data, |buf|) == Listing(SeenAll(es), true) <==> forall i :: 0 <= i < |es| ==> Survives(es[i])
  {
    hide ParseAll, WrittenAll, Encodable, SeenAll;
    if ParseAll(data, |buf|) == Listing(SeenAll(es), true) {
      ReadBackMustSurvive(buf, es, data);
    }
    if forall i :: 0 <= i < |es| ==> Survives(es[i]) {
      ArchiveReadsBack(buf, es, data);
      NoTrailer(es);
    }
  }

  /**
   * A directory entry with a body is announced with size zero while its body is written, so the
   * reader takes the body for the next header: unless it starts with the magic, reading ends there.
   */
  lemma DirectoryBodyDerails(buf: seq<byte>, e: Entry, data: seq<byte>)
    requires e.isDir && |e.body| >= 6 && e.body[..6] != MAGIC
    requires |e.name| + 1 < U32 && Utf8.Valid(e.name) && Written(buf, e) <= data
    ensures
      var p := ParseEntry(data, |buf|);
      p.Some? && p.value.next < |data| && ParseEntry(data, p.value.next).None?
  {
    hide Fields, Padding, Utf8.Valid, Named, WithBody, ParseEntry;
    var start := Named(buf, EntryFields(e), e.name);
    BodyLayout(start, e.body, data);
    NamedParses(buf, EntryFields(e), e.name, data);
    assert data[|start|..|start| + 6] == data[|start|..|start| + |e.body|][..6];
    NoMagicNoEntry(data, |start|);
  }

  lemma NoMagicNoEntry(data: seq<byte>, offset: nat)
    requires offset + 6 <= |data| && data[offset..offset + 6] != MAGIC
    ensures ParseEntry(data, offset).None?
  {
  }

  // ------------------------------------------------------------- unpacking

  datatype Action = Mkdir(path: seq<byte>) | WriteWhole(path: seq<byte>, body: seq<byte>)

  function TrimSlashes(name: seq<byte>): seq<byte> {
    if name != [] && name[0] == 47 then TrimSlashes(name[1..]) else name
  }

  predicate HasDotDot(path: seq<byte>) {
    exists i :: 0 <= i < |path| - 1 && path[i] == 46 && path[i + 1] == 46
  }

  // The file type bits of the mode.
  function TypeBits(mode: nat): nat { mode / 0x1000 % 0x10 }

  function ActionsFor(f: File): (a: seq<Action>)
    ensures |a| <= 1
  {
    var path := TrimSlashes(f.name);
    if path == [] || HasDotDot(path) then []
    else if TypeBits(f.mode) == 4 then [Mkdir(path)]
    else if TypeBits(f.mode) == 8 then [WriteWhole(path, f.body)]
    else []
  }

  function AllActions(fs: seq<File>): seq<Action> {
    if fs == [] then [] else ActionsFor(fs[0]) + AllActions(fs[1..])
  }

  /** The loop of `unpack`: what it asks of the file system, and the count it returns. */
  method Unpack(archive: seq<byte>) returns (count: nat, actions: seq<Action>)
    ensures actions == AllActions(ParseAll(archive, 0).files) && count == |actions|
  {
    hide ParseEntry, ActionsFor;
    count, actions := 0, [];
    var offset := 0;
    ghost var goal := AllActions(ParseAll(archive, 0).files);
    while offset < |archive|
      invariant 0 <= offset
      invariant goal == actions + AllActions(ParseAll(archive, offset).files)
      invariant count == |actions|
      decreases |archive| - offset
    {
      var p := ParseEntry(archive, offset);
      if p.None? || p.value.header.name == TRAILER { return; }
      var h := p.value.header;
      var body := archive[p.value.bodyStart..p.value.bodyStart + h.filesize];
      var step := ActionsFor(File(h.name, h.mode, body));
      actions := actions + step;
      count := count + |step|;
      offset := p.value.next;
    }
  }

  // What unpacking a written entry does.
  function EntryActions(e: Entry): seq<Action> {
    var path := TrimSlashes(e.name);
    if path == [] || HasDotDot(path) then []
    else if e.isDir then [Mkdir(path)] else [WriteWhole(path, e.body)]
  }

  function AllEntryActions(es: seq<Entry>): seq<Action> {
    if es == [] then [] else EntryActions(es[0]) + AllEntryActions(es[1..])
  }

  lemma {:induction false} SeenActions(es: seq<Entry>)
    ensures AllActions(SeenAll(es)) == AllEntryActions(es)
    decreases |es|
  {
    if es != [] {
      SeenActions(es[1..]);
      assert SeenAll(es)[1..] == SeenAll(es[1..]);
      assert TypeBits(0x41ED) == 4 && TypeBits(0x81A4) == 8;
    }
  }

  /** From build script to file system: unpacking the archive recreates every entry in order. */
  lemma {:induction false} UnpackRecreates(es: seq<Entry>)
    requires forall i :: 0 <= i < |es| ==> Representable(es[i]) && es[i].name != TRAILER
    ensures AllActions(ParseAll(WrittenAll([], es), 0).files) == AllEntryActions(es)
  {
    hide ParseAll, WrittenAll, Representable, AllActions, AllEntryActions, SeenAll;
    ArchiveRoundTrip([], es, []);
    assert WrittenAll([], es) + [] == WrittenAll([], es);
    SeenActions(es);
  }
}
