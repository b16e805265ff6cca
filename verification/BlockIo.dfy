/** Byte-granular reads and writes of the device file system over a block storage driver. */
module BlockIo {
  import opened Arithmetic
  import opened Wrappers

  const MAX_BLOCKS: int := 64

  // ------------------------------------------------------------- block arithmetic

  function Lba(off: nat, bs: nat): nat
    requires bs > 0
  {
    off / bs
  }

  function BlockOffset(off: nat, bs: nat): (b: nat)
    requires bs > 0
    ensures b < bs
  {
    off % bs
  }

  // The number of blocks one call moves: enough to cover the buffer, at least one, at most 64.
  // An overflowing sum counts as one block.
  function Actual(off: nat, len: nat, bs: nat): nat
    requires bs > 0
  {
    var sum := BlockOffset(off, bs) + len;
    Min(if sum < WORD then Max((sum + bs - 1) / bs, 1) else 1, MAX_BLOCKS)
  }

  function Span(blocks: nat, bs: nat): nat {
    blocks * bs
  }

  // How far one call gets: to the end of the buffer or of the 64th block.
  function Reach(off: nat, len: nat, bs: nat): int
    requires bs > 0
  {
    Min(len, MAX_BLOCKS * bs - BlockOffset(off, bs))
  }

  lemma CeilDiv(x: nat, d: nat)
    requires d > 0 && x > 0
    ensures var q := (x + d - 1) / d; q >= 1 && x <= q * d < x + d
  {
    var q, r := (x + d - 1) / d, (x + d - 1) % d;
    assert x + d - 1 == q * d + r;
    if q <= 0 { MulLe(q, 0, d); }
  }

  /** The blocks moved cover what is copied, and by less than one block too much. */
  lemma SpanFacts(off: nat, len: nat, bs: nat)
    requires 0 < bs && len > 0 && BlockOffset(off, bs) + len < WORD
    ensures
      var b := BlockOffset(off, bs);
      var span := Span(Actual(off, len, bs), bs);
      && bs <= span
      && Min(len, span - b) == Reach(off, len, bs)
      && 1 <= Reach(off, len, bs) <= len
      && b + Reach(off, len, bs) <= span < b + Reach(off, len, bs) + bs
  {
    hide BlockOffset;
    var b := BlockOffset(off, bs);
    CeilDiv(b + len, bs);
    var q := (b + len + bs - 1) / bs;
    MulLe(1, q, bs);
    if q > MAX_BLOCKS {
      MulLe(MAX_BLOCKS + 1, q, bs);
    } else {
      MulLe(q, MAX_BLOCKS, bs);
    }
  }

  lemma StartOfBlock(off: nat, blocks: nat, bs: nat)
    requires bs > 0
    ensures Span(Lba(off, bs), bs) + BlockOffset(off, bs) == off
    ensures Span(Lba(off, bs) + blocks, bs) == Span(Lba(off, bs), bs) + Span(blocks, bs)
  {
    assert off == (off / bs) * bs + off % bs;
    var l := off / bs;
    assert (l + blocks) * bs == l * bs + blocks * bs;
  }

  /** On a disk of whole blocks, rounding up to the block still fits. */
  lemma RoundUpFits(blocks: nat, size: nat, end: nat, bs: nat)
    requires bs > 0 && size % bs == 0 && end <= size && Span(blocks, bs) < end + bs
    ensures Span(blocks, bs) <= size
  {
    var k := size / bs;
    assert size == k * bs;
    MultipleBelow(blocks, k, bs);
    MulLe(blocks, k, bs);
  }

  // ------------------------------------------------------------- flat specification

  function Splice(disk: seq<byte>, off: nat, data: seq<byte>): (d: seq<byte>)
    requires off + |data| <= |disk|
    ensures |d| == |disk|
  {
    disk[..off] + data + disk[off + |data|..]
  }

  // The byte range of the blocks one call asks the driver for lies on the disk.
  predicate InRange(size: nat, bs: nat, off: nat, len: nat)
    requires bs > 0
  {
    Span(Lba(off, bs) + Actual(off, len, bs), bs) <= size
  }

  lemma InRangeFacts(size: nat, bs: nat, off: nat, len: nat)
    requires bs > 0 && len > 0 && BlockOffset(off, bs) + len < WORD
    ensures InRange(size, bs, off, len) ==> off + Reach(off, len, bs) <= size
    ensures size % bs == 0 && off + Reach(off, len, bs) <= size ==> InRange(size, bs, off, len)
  {
    hide Actual, Lba, BlockOffset, Reach, Span;
    SpanFacts(off, len, bs);
    StartOfBlock(off, Actual(off, len, bs), bs);
    if size % bs == 0 && off + Reach(off, len, bs) <= size {
      RoundUpFits(Lba(off, bs) + Actual(off, len, bs), size, off + Reach(off, len, bs), bs);
    }
  }

  // ------------------------------------------------------------- the code

  class DevFs {
    const bs: nat
    // Contents of the storage device, and the position of each open descriptor.
    var disk: seq<byte>
    var offsets: map<nat, nat>

    ghost predicate Valid()
      reads this
    {
      && bs < 0x1_0000_0000
      && |disk| < WORD
      && (forall fd :: fd in offsets ==> offsets[fd] < WORD)
    }

    constructor (blockSize: nat, contents: seq<byte>)
      requires blockSize < 0x1_0000_0000 && |contents| < WORD
      ensures Valid() && bs == blockSize && disk == contents && offsets == map[]
    {
      bs, disk, offsets := blockSize, contents, map[];
    }

    // The storage driver: whole blocks, or an error that changes nothing.
    method ReadBlocks(lba: nat, count: nat, fault: bool) returns (r: Option<seq<byte>>)
      ensures r.Some? <==> !fault && Span(lba + count, bs) <= |disk|
      ensures r.Some? ==> Span(lba, bs) <= Span(lba + count, bs)
                          && r.value == disk[Span(lba, bs)..Span(lba + count, bs)]
    {
      if fault || Span(lba + count, bs) > |disk| { return None; }
      MulLe(lba, lba + count, bs);
      return Some(disk[Span(lba, bs)..Span(lba + count, bs)]);
    }

    method WriteBlocks(lba: nat, data: seq<byte>, fault: bool) returns (ok: bool)
      modifies this`disk
      ensures ok <==> !fault && Span(lba, bs) + |data| <= |old(disk)|
      ensures !ok ==> disk == old(disk)
      ensures ok ==> disk == Splice(old(disk), Span(lba, bs), data)
    {
      ok := !fault && Span(lba, bs) + |data| <= |disk|;
      if ok { disk := Splice(disk, Span(lba, bs), data); }
    }

    method Read(fd: nat, buf: array<byte>, fault: bool) returns (r: Result<nat>)
      requires Valid() && buf.Length < 0x8000_0000_0000_0000
      modifies this`offsets, buf
      ensures Valid()
      ensures r == (
        if fd !in old(offsets) then Err(InvalidFileDescriptor)
        else if bs == 0 || buf.Length == 0 then Ok(0)
        else if fault || !InRange(|disk|, bs, old(offsets)[fd], buf.Length) then Err(NotSupported)
        else Ok(Reach(old(offsets)[fd], buf.Length, bs)))
      ensures r.Err? ==> offsets == old(offsets) && buf[..] == old(buf[..])
      ensures r.Ok? ==>
        var off := old(offsets)[fd];
        && r.value <= buf.Length
        && (buf.Length > 0 && bs > 0 ==> r.value >= 1)
        && (r.value > 0 ==> off + r.value <= |disk| && buf[..r.value] == disk[off..off + r.value])
        && buf[r.value..] == old(buf[r.value..])
        && offsets == old(offsets)[fd := off + r.value]
    {
      hide Actual, Lba, BlockOffset, Reach, Span;
      if fd !in offsets { return Err(InvalidFileDescriptor); }
      var off := offsets[fd];
      if bs == 0 || buf.Length == 0 { return Ok(0); }
      SpanFacts(off, buf.Length, bs);
      InRangeFacts(|disk|, bs, off, buf.Length);
      StartOfBlock(off, Actual(off, buf.Length, bs), bs);
      var blockOff, lba, actual := BlockOffset(off, bs), Lba(off, bs), Actual(off, buf.Length, bs);
      var tmp := ReadBlocks(lba, actual, fault);
      if tmp.None? { return Err(NotSupported); }
      var n := Min(buf.Length, Span(actual, bs) - blockOff);
      forall i | 0 <= i < n {
        buf[i] := tmp.value[blockOff + i];
      }
      if off + n >= WORD { return Err(InvalidSeek); }
      offsets := offsets[fd := off + n];
      return Ok(n);
    }

    // The image to write back: the blocks read, unless the data fills all of them, with the
    // data patched in.
    method BlockImage(lba: nat, count: nat, blockOff: nat, patch: seq<byte>, fault: bool)
      returns (r: Option<seq<byte>>)
      requires blockOff + |patch| <= Span(count, bs)
      requires Span(lba + count, bs) == Span(lba, bs) + Span(count, bs)
      ensures r.None? <==> !(blockOff == 0 && |patch| == Span(count, bs))
                           && (fault || Span(lba + count, bs) > |disk|)
      ensures r.Some? ==> |r.value| == Span(count, bs)
      ensures r.Some? && Span(lba + count, bs) <= |disk| ==>
                Patched(disk, Span(lba, bs), Span(count, bs), blockOff, patch, r.value)
    {
      hide Span;
      var tmp: seq<byte> := seq(Span(count, bs), i => 0);
      if blockOff != 0 || |patch| != Span(count, bs) {
        var blocks := ReadBlocks(lba, count, fault);
        if blocks.None? { return None; }
        tmp := blocks.value;
      }
      return Some(Splice(tmp, blockOff, patch));
    }

    method Write(fd: nat, data: seq<byte>, readFault: bool, writeFault: bool) returns (r: Result<nat>)
      requires Valid() && |data| < 0x8000_0000_0000_0000
      modifies this`offsets, this`disk
      ensures Valid()
      ensures r.Ok? ==> fd in old(offsets)
      ensures fd !in old(offsets) ==> r == Err(InvalidFileDescriptor)
      ensures fd in old(offsets) && (bs == 0 || data == []) ==> r == Ok(0)
      ensures fd in old(offsets) && bs > 0 && data != [] && !readFault && !writeFault ==>
        r == (if InRange(|old(disk)|, bs, old(offsets)[fd], |data|)
              then Ok(Reach(old(offsets)[fd], |data|, bs)) else Err(NotSupported))
      ensures r.Err? ==> offsets == old(offsets) && disk == old(disk)
      ensures r.Ok? ==>
        var off := old(offsets)[fd];
        && r.value <= |data|
        && (data != [] && bs > 0 ==> r.value >= 1)
        && (r.value == 0 ==> disk == old(disk))
        && (r.value > 0 ==> off + r.value <= |old(disk)| && disk == Splice(old(disk), off, data[..r.value]))
        && offsets == old(offsets)[fd := off + r.value]
    {
      hide Actual, Lba, BlockOffset, Reach, Span, Splice, Patched;
      if fd !in offsets { return Err(InvalidFileDescriptor); }
      var off := offsets[fd];
      if bs == 0 || data == [] { return Ok(0); }
      SpanFacts(off, |data|, bs);
      InRangeFacts(|disk|, bs, off, |data|);
      StartOfBlock(off, Actual(off, |data|, bs), bs);
      var blockOff, lba, actual := BlockOffset(off, bs), Lba(off, bs), Actual(off, |data|, bs);
      var writeBytes := Span(actual, bs);
      var n := Min(|data|, writeBytes - blockOff);
      var tmp := BlockImage(lba, actual, blockOff, data[..n], readFault);
      if tmp.None? { return Err(NotSupported); }
      ghost var before := disk;
      var ok := WriteBlocks(lba, tmp.value, writeFault);
      if !ok { return Err(NotSupported); }
      ReadModifyWrite(before, Span(lba, bs), writeBytes, blockOff, data[..n], tmp.value);
      if off + n >= WORD { return Err(InvalidSeek); }
      offsets := offsets[fd := off + n];
      return Ok(n);
    }
  }

  ghost predicate Patched(disk: seq<byte>, start: nat, span: nat, b: nat, patch: seq<byte>, tmp: seq<byte>)
    requires start + span <= |disk| && b + |patch| <= span
  {
    tmp == if b == 0 && |patch| == span then patch else Splice(disk[start..start + span], b, patch)
  }

  /** Patching the block image and writing it back is patching the disk. */
  lemma ReadModifyWrite(disk: seq<byte>, start: nat, span: nat, b: nat, patch: seq<byte>, tmp: seq<byte>)
    requires start + span <= |disk| && b + |patch| <= span && |tmp| == span
    requires Patched(disk, start, span, b, patch, tmp)
    ensures Splice(disk, start, tmp) == Splice(disk, start + b, patch)
  {
    var x, y := Splice(disk, start, tmp), Splice(disk, start + b, patch);
    forall i | 0 <= i < |disk| ensures x[i] == y[i] {
      if start <= i < start + span && !(b == 0 && |patch| == span) {
        assert disk[start..start + span][i - start] == disk[i];
      }
    }
  }

  // ------------------------------------------------------------- repeating the call

  // The effect of successful calls until the data is used up; None when a call is refused.
  function WriteAll(disk: seq<byte>, bs: nat, off: nat, data: seq<byte>): Option<seq<byte>>
    requires bs > 0
    decreases |data|
  {
    if data == [] then Some(disk)
    else
      var n := Reach(off, |data|, bs);
      if !InRange(|disk|, bs, off, |data|) || !(1 <= n <= |data|) || off + n > |disk| then None
      else WriteAll(Splice(disk, off, data[..n]), bs, off + n, data[n..])
  }

  // The bytes successful read calls deliver until `len` bytes have arrived.
  function ReadAll(disk: seq<byte>, bs: nat, off: nat, len: nat): Option<seq<byte>>
    requires bs > 0
    decreases len
  {
    if len == 0 then Some([])
    else
      var n := Reach(off, len, bs);
      if !InRange(|disk|, bs, off, len) || !(1 <= n <= len) || off + n > |disk| then None
      else match ReadAll(disk, bs, off + n, len - n)
           case None => None
           case Some(rest) => Some(disk[off..off + n] + rest)
  }

  lemma SpliceTwice(disk: seq<byte>, off: nat, a: seq<byte>, b: seq<byte>)
    requires off + |a| + |b| <= |disk|
    ensures Splice(Splice(disk, off, a), off + |a|, b) == Splice(disk, off, a + b)
  {
    var x, y := Splice(Splice(disk, off, a), off + |a|, b), Splice(disk, off, a + b);
    forall i | 0 <= i < |disk| ensures x[i] == y[i] {
    }
  }

  /**
   * On a disk of whole blocks, repeating the write until the buffer is used up succeeds exactly
   * when the data fits the disk, and then equals one splice of the whole buffer.
   */
  lemma {:induction false} WriteAllIsSplice(disk: seq<byte>, bs: nat, off: nat, data: seq<byte>)
    requires 0 < bs && |disk| % bs == 0 && |disk| < WORD && bs + |data| <= WORD
    ensures data != [] ==> (WriteAll(disk, bs, off, data).Some? <==> off + |data| <= |disk|)
    ensures data != [] && off + |data| <= |disk| ==>
              WriteAll(disk, bs, off, data) == Some(Splice(disk, off, data))
    decreases |data|
  {
    hide Actual, Lba, BlockOffset, Reach, Span, InRange;
    if data != [] {
      var n := Reach(off, |data|, bs);
      SpanFacts(off, |data|, bs);
      InRangeFacts(|disk|, bs, off, |data|);
      if off + n <= |disk| {
        var d := Splice(disk, off, data[..n]);
        assert data == data[..n] + data[n..];
        WriteAllIsSplice(d, bs, off + n, data[n..]);
        if off + |data| <= |disk| {
          SpliceTwice(disk, off, data[..n], data[n..]);
        }
        if n == |data| { assert data[..n] == data; }
      }
    }
  }

  /** The same for reads: the whole range at once. */
  lemma {:induction false} ReadAllIsSlice(disk: seq<byte>, bs: nat, off: nat, len: nat)
    requires 0 < bs && |disk| % bs == 0 && |disk| < WORD && bs + len <= WORD
    ensures len > 0 ==> (ReadAll(disk, bs, off, len).Some? <==> off + len <= |disk|)
    ensures len > 0 && off + len <= |disk| ==> ReadAll(disk, bs, off, len) == Some(disk[off..off + len])
    decreases len
  {
    hide Actual, Lba, BlockOffset, Reach, Span, InRange;
    if len > 0 {
      var n := Reach(off, len, bs);
      SpanFacts(off, len, bs);
      InRangeFacts(|disk|, bs, off, len);
      if off + n <= |disk| {
        ReadAllIsSlice(disk, bs, off + n, len - n);
        if off + len <= |disk| {
          assert disk[off..off + len] == disk[off..off + n] + disk[off + n..off + len];
        }
      }
    }
  }
}
