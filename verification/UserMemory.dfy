/** Copying a NUL-terminated string out of user memory, one page at a time. */
module UserMemory {
  import opened Arithmetic
  import Utf8

  datatype SystemError = InvalidArgument | PermissionDenied
  datatype CopyError = System(error: SystemError) | InvalidUtf8 | MissingNul
  datatype Result = Ok(text: seq<byte>) | Err(error: CopyError)

  // The user pages that pass validation, and the error page validation gives for the others.
  datatype Memory = Memory(pages: map<nat, seq<byte>>, refusal: map<nat, SystemError>)

  ghost predicate WellFormed(m: Memory) {
    forall p :: p in m.pages ==> |m.pages[p]| == PAGE
  }

  function Refusal(m: Memory, page: nat): SystemError {
    if page in m.refusal then m.refusal[page] else InvalidArgument
  }

  function Page(a: nat): nat { a / PAGE }

  function InPage(a: nat): (o: nat)
    ensures o < PAGE
  {
    a % PAGE
  }

  // Address arithmetic wraps at 2^64.
  function Address(ptr: nat, k: nat): nat {
    (ptr + k) % WORD
  }

  function BytesUntilPageEnd(a: nat): (n: nat)
    ensures 0 < n <= PAGE
  {
    PAGE - InPage(a)
  }

  // The null page address is refused even when page 0 is mapped.
  predicate Readable(m: Memory, a: nat) {
    a != 0 && Page(a) in m.pages
  }

  function ByteAt(m: Memory, a: nat): byte
    requires WellFormed(m) && Readable(m, a)
  {
    m.pages[Page(a)][InPage(a)]
  }

  function Finish(text: seq<byte>): Result {
    if Utf8.Valid(text) then Ok(text) else Err(InvalidUtf8)
  }

  // ------------------------------------------------------------- byte-by-byte reference

  // Look at position k onward, `text` being what precedes it.
  ghost function Scan(m: Memory, ptr: nat, maxLen: nat, k: nat, text: seq<byte>): Result
    requires WellFormed(m) && k <= maxLen
    decreases maxLen - k
  {
    if k == maxLen then Err(MissingNul)
    else
      var a := Address(ptr, k);
      if !Readable(m, a) then Err(System(if a == 0 then InvalidArgument else Refusal(m, Page(a))))
      else if ByteAt(m, a) == 0 then Finish(text)
      else Scan(m, ptr, maxLen, k + 1, text + [ByteAt(m, a)])
  }

  // Where the scan stops: at the limit, an unreadable byte or the first NUL.
  ghost function Stop(m: Memory, ptr: nat, maxLen: nat, k: nat): (s: nat)
    requires WellFormed(m) && k <= maxLen
    ensures k <= s <= maxLen
    decreases maxLen - k
  {
    if k == maxLen then k
    else
      var a := Address(ptr, k);
      if !Readable(m, a) || ByteAt(m, a) == 0 then k else Stop(m, ptr, maxLen, k + 1)
  }

  ghost function CString(m: Memory, ptr: nat, maxLen: nat): Result
    requires WellFormed(m)
  {
    if ptr == 0 || maxLen == 0 then Err(System(InvalidArgument)) else Scan(m, ptr, maxLen, 0, [])
  }

  // ------------------------------------------------------------- decoding in one piece

  function FirstNul(bytes: seq<byte>): (i: nat)
    ensures i <= |bytes|
    ensures i < |bytes| ==> bytes[i] == 0
    ensures forall j :: 0 <= j < i ==> bytes[j] != 0
  {
    if bytes == [] || bytes[0] == 0 then 0
    else
      var i := 1 + FirstNul(bytes[1..]);
      assert forall j :: 0 <= j < i ==> bytes[j] == if j == 0 then bytes[0] else bytes[1..][j - 1];
      i
  }

  // `decode_c_string`.
  function Decode(bytes: seq<byte>): Result {
    if FirstNul(bytes) == |bytes| then Err(MissingNul) else Finish(bytes[..FirstNul(bytes)])
  }

  // The first |bytes| bytes of memory at ptr are `bytes`, as far as they are readable.
  ghost predicate Shows(m: Memory, ptr: nat, bytes: seq<byte>)
    requires WellFormed(m)
  {
    forall k :: 0 <= k < |bytes| && Readable(m, Address(ptr, k)) ==> ByteAt(m, Address(ptr, k)) == bytes[k]
  }

  lemma {:induction false} ScanIsDecode(m: Memory, ptr: nat, bytes: seq<byte>, k: nat)
    requires WellFormed(m) && Shows(m, ptr, bytes) && k <= FirstNul(bytes)
    requires forall i :: 0 <= i <= FirstNul(bytes) && i < |bytes| ==> Readable(m, Address(ptr, i))
    ensures Scan(m, ptr, |bytes|, k, bytes[..k]) == Decode(bytes)
    ensures Stop(m, ptr, |bytes|, k) == FirstNul(bytes)
    decreases |bytes| - k
  {
    hide Address, Page, InPage, Utf8.Valid;
    if k < FirstNul(bytes) {
      assert bytes[..k + 1] == bytes[..k] + [bytes[k]];
      ScanIsDecode(m, ptr, bytes, k + 1);
    }
  }

  /**
   * Whenever the pages up to the terminator are mapped, copying agrees with decoding the
   * first `max_len` bytes in one piece, whatever lies behind the terminator; the scan stops at
   * the first NUL.
   */
  lemma {:induction false} CStringIsDecode(m: Memory, ptr: nat, bytes: seq<byte>)
    requires WellFormed(m) && Shows(m, ptr, bytes) && ptr != 0 && bytes != []
    requires forall i :: 0 <= i <= FirstNul(bytes) && i < |bytes| ==> Readable(m, Address(ptr, i))
    ensures CString(m, ptr, |bytes|) == Decode(bytes)
    ensures Stop(m, ptr, |bytes|, 0) == FirstNul(bytes)
  {
    ScanIsDecode(m, ptr, bytes, 0);
    assert bytes[..0] == [];
  }

  // ------------------------------------------------------------- what the result means

  // Memory at ptr holds `text`, readable and without a NUL.
  ghost predicate Holds(m: Memory, ptr: nat, text: seq<byte>)
    requires WellFormed(m)
  {
    forall i :: 0 <= i < |text| ==>
      Readable(m, Address(ptr, i)) && ByteAt(m, Address(ptr, i)) == text[i] && text[i] != 0
  }

  // What copying gives when `text` is all that stands before the limit, an unreadable byte or a NUL.
  ghost predicate Concludes(m: Memory, ptr: nat, maxLen: nat, text: seq<byte>, r: Result)
    requires WellFormed(m)
  {
    var a := (ptr + |text|) % WORD;
    if |text| == maxLen then r == Err(MissingNul)
    else if a == 0 then r == Err(System(InvalidArgument))
    else if a / PAGE !in m.pages then r == Err(System(Refusal(m, a / PAGE)))
    else m.pages[a / PAGE][a % PAGE] == 0 && r == if Utf8.Valid(text) then Ok(text) else Err(InvalidUtf8)
  }

  lemma {:induction false} ScanMeans(m: Memory, ptr: nat, maxLen: nat, k: nat, text: seq<byte>)
    returns (all: seq<byte>)
    requires WellFormed(m) && k == |text| <= maxLen && Holds(m, ptr, text)
    ensures text <= all && |all| <= maxLen && Holds(m, ptr, all)
    ensures |all| == Stop(m, ptr, maxLen, k)
    ensures Concludes(m, ptr, maxLen, all, Scan(m, ptr, maxLen, k, text))
    decreases maxLen - k
  {
    hide Utf8.Valid;
    all := text;
    if k < maxLen {
      var a := Address(ptr, k);
      if Readable(m, a) && ByteAt(m, a) != 0 {
        all := ScanMeans(m, ptr, maxLen, k + 1, text + [ByteAt(m, a)]);
      }
    }
  }

  /**
   * Memory at a pointer begins with one text that ends at the limit, at an unreadable byte or at a NUL.
   * Copying gives that text if a NUL ends it and it is UTF-8; else the error says which of these happened.
   */
  lemma CStringMeans(m: Memory, ptr: nat, maxLen: nat) returns (text: seq<byte>)
    requires WellFormed(m) && ptr != 0 && maxLen > 0
    ensures |text| <= maxLen && Holds(m, ptr, text)
    ensures |text| == Stop(m, ptr, maxLen, 0)
    ensures Concludes(m, ptr, maxLen, text, CString(m, ptr, maxLen))
  {
    hide Concludes, Scan, Stop;
    text := ScanMeans(m, ptr, maxLen, 0, []);
  }

  // ------------------------------------------------------------- locality

  ghost predicate SamePage(m: Memory, n: Memory, p: nat) {
    && (p in m.pages <==> p in n.pages)
    && (p in m.pages ==> m.pages[p] == n.pages[p])
    && Refusal(m, p) == Refusal(n, p)
  }

  /** The result depends on no page beyond the one where the scan stops. */
  lemma {:induction false} ScanIsLocal(m: Memory, n: Memory, ptr: nat, maxLen: nat, k: nat, text: seq<byte>)
    requires WellFormed(m) && WellFormed(n) && k <= maxLen
    requires forall i :: k <= i <= Stop(m, ptr, maxLen, k) && i < maxLen ==> SamePage(m, n, Page(Address(ptr, i)))
    ensures Scan(m, ptr, maxLen, k, text) == Scan(n, ptr, maxLen, k, text)
    ensures Stop(m, ptr, maxLen, k) == Stop(n, ptr, maxLen, k)
    decreases maxLen - k
  {
    hide Address, Page, InPage;
    if k < maxLen {
      var a := Address(ptr, k);
      assert SamePage(m, n, Page(a));
      if Readable(m, a) && ByteAt(m, a) != 0 {
        ScanIsLocal(m, n, ptr, maxLen, k + 1, text + [ByteAt(m, a)]);
      }
    }
  }

  // ------------------------------------------------------------- one page at a time

  // The bytes of one chunk, which lies inside one page.
  function ChunkBytes(m: Memory, a: nat, len: nat): (c: seq<byte>)
    requires WellFormed(m) && Page(a) in m.pages && len <= BytesUntilPageEnd(a)
    ensures |c| == len
  {
    m.pages[Page(a)][InPage(a)..InPage(a) + len]
  }

  lemma ChunkAddress(ptr: nat, offset: nat, i: nat)
    requires i < BytesUntilPageEnd(Address(ptr, offset))
    ensures Page(Address(ptr, offset + i)) == Page(Address(ptr, offset))
    ensures InPage(Address(ptr, offset + i)) == InPage(Address(ptr, offset)) + i
    ensures Address(ptr, offset) != 0 ==> Address(ptr, offset + i) != 0
  {
    var a := Address(ptr, offset);
    assert WORD % PAGE == 0;
    assert a + i < WORD;
    var q := (ptr + offset) / WORD;
    assert ptr + offset + i == q * WORD + (a + i);
    ModUnique(ptr + offset + i, q, WORD, a + i);
  }

  /** Skipping a chunk without NUL is skipping its bytes one by one. */
  lemma {:induction false} ScanChunk(m: Memory, ptr: nat, maxLen: nat, offset: nat, len: nat, i: nat, text: seq<byte>)
    requires WellFormed(m) && Readable(m, Address(ptr, offset))
    requires offset + len <= maxLen && len <= BytesUntilPageEnd(Address(ptr, offset))
    requires var chunk := ChunkBytes(m, Address(ptr, offset), len); i <= FirstNul(chunk)
    ensures
      var chunk := ChunkBytes(m, Address(ptr, offset), len);
      var nul := FirstNul(chunk);
      && Scan(m, ptr, maxLen, offset + i, text + chunk[..i])
         == (if nul < len then Finish(text + chunk[..nul]) else Scan(m, ptr, maxLen, offset + len, text + chunk))
      && Stop(m, ptr, maxLen, offset + i)
         == (if nul < len then offset + nul else Stop(m, ptr, maxLen, offset + len))
    decreases len - i
  {
    hide Page, InPage, Address, Utf8.Valid, FirstNul;
    var chunk := ChunkBytes(m, Address(ptr, offset), len);
    if i == len {
      assert chunk[..i] == chunk;
    } else {
      ChunkAddress(ptr, offset, i);
      assert ByteAt(m, Address(ptr, offset + i)) == chunk[i];
      if i < FirstNul(chunk) {
        assert text + chunk[..i] + [chunk[i]] == text + chunk[..i + 1];
        ScanChunk(m, ptr, maxLen, offset, len, i + 1, text);
      }
    }
  }

  /**
   * `copy_c_string`: the page-chunked copy gives the byte-by-byte result in every case, errors
   * included, and validates no page beyond the one where that scan stops.
   */
  method CopyCString(m: Memory, ptr: nat, maxLen: nat) returns (r: Result, ghost touched: set<nat>)
    requires WellFormed(m) && ptr < WORD
    ensures r == CString(m, ptr, maxLen)
    ensures forall p :: p in touched ==>
      exists i :: 0 <= i <= Stop(m, ptr, maxLen, 0) && p == Page(Address(ptr, i))
  {
    hide Page, InPage, Utf8.Valid, FirstNul, ChunkBytes;
    touched := {};
    if ptr == 0 || maxLen == 0 {
      return Err(System(InvalidArgument)), {};
    }
    var bytes: seq<byte> := [];
    var offset := 0;
    while offset < maxLen
      invariant 0 <= offset <= maxLen
      invariant Scan(m, ptr, maxLen, offset, bytes) == CString(m, ptr, maxLen)
      invariant Stop(m, ptr, maxLen, offset) == Stop(m, ptr, maxLen, 0)
      invariant forall p :: p in touched ==>
        exists i :: 0 <= i <= Stop(m, ptr, maxLen, 0) && p == Page(Address(ptr, i))
      decreases maxLen - offset
    {
      var current := Address(ptr, offset);
      hide Address;
      var chunkLen := Min(maxLen - offset, BytesUntilPageEnd(current));
      touched := touched + {Page(current)};
      if current == 0 { return Err(System(InvalidArgument)), touched; }
      if Page(current) !in m.pages { return Err(System(Refusal(m, Page(current)))), touched; }
      var chunk := ChunkBytes(m, current, chunkLen);
      ScanChunk(m, ptr, maxLen, offset, chunkLen, 0, bytes);
      assert bytes + chunk[..0] == bytes;
      var nul := FirstNul(chunk);
      if nul < |chunk| {
        bytes := bytes + chunk[..nul];
        return Finish(bytes), touched;
      }
      bytes := bytes + chunk;
      offset := offset + chunkLen;
    }
    return Err(MissingNul), touched;
  }
}
