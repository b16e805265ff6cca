/**
 * AES key unwrap of the WPA handshake, section 2.2.2 of RFC 3394, proved the inverse of the
 * key wrap of section 2.2.1. The block cipher under a fixed key is any permutation of 16-byte
 * blocks together with its inverse.
 */
module KeyWrap {

  type Bytes = seq<bv8>

  datatype Cipher = Cipher(encrypt: Bytes -> Bytes, decrypt: Bytes -> Bytes)

  ghost predicate IsPermutation(c: Cipher) {
    && (forall b: Bytes {:trigger c.encrypt(b)} :: |b| == 16 ==>
          |c.encrypt(b)| == 16 && c.decrypt(c.encrypt(b)) == b)
    && (forall b: Bytes {:trigger c.decrypt(b)} :: |b| == 16 ==>
          |c.decrypt(b)| == 16 && c.encrypt(c.decrypt(b)) == b)
  }

  datatype Result = Ok(key: Bytes) | Err

  // The integrity register A and the blocks R[1..n], as flat bytes.
  datatype Registers = Registers(a: Bytes, r: Bytes)

  ghost predicate Shape(s: Registers, n: nat) {
    |s.a| == 8 && |s.r| == 8 * n
  }

  const IV: Bytes := [0xA6, 0xA6, 0xA6, 0xA6, 0xA6, 0xA6, 0xA6, 0xA6]

  // Byte k of the step counter, least significant first.
  function CounterByte(t: nat, k: nat): bv8 {
    if k == 0 then (t % 256) as bv8 else CounterByte(t / 256, k - 1)
  }

  // A with the big-endian step counter exclusive-ored in.
  function XorCounter(a: Bytes, t: nat): (x: Bytes)
    requires |a| == 8
    ensures |x| == 8
  {
    seq(8, i requires 0 <= i < 8 => a[i] ^ CounterByte(t, 7 - i))
  }

  function Chunk(r: Bytes, i: nat): (c: Bytes)
    requires 8 * i + 8 <= |r|
    ensures |c| == 8
  {
    r[8 * i..8 * i + 8]
  }

  function SetChunk(r: Bytes, i: nat, c: Bytes): (s: Bytes)
    requires 8 * i + 8 <= |r| && |c| == 8
    ensures |s| == |r|
  {
    r[..8 * i] + c + r[8 * i + 8..]
  }

  // The step counter of row j, block i (counting both from zero).
  function Counter(n: nat, j: nat, i: nat): nat {
    n * j + i + 1
  }

  // ------------------------------------------------------------- section 2.2.1: wrap

  ghost function WrapStep(c: Cipher, n: nat, j: nat, i: nat, s: Registers): (t: Registers)
    requires IsPermutation(c) && Shape(s, n) && i < n
    ensures Shape(t, n)
  {
    var b := c.encrypt(s.a + Chunk(s.r, i));
    Registers(XorCounter(b[..8], Counter(n, j, i)), SetChunk(s.r, i, b[8..]))
  }

  // Blocks 0..i of row j, in ascending order.
  ghost function WrapRow(c: Cipher, n: nat, j: nat, i: nat, s: Registers): (t: Registers)
    requires IsPermutation(c) && Shape(s, n) && i <= n
    ensures Shape(t, n)
  {
    if i == 0 then s else WrapStep(c, n, j, i - 1, WrapRow(c, n, j, i - 1, s))
  }

  ghost function WrapRows(c: Cipher, n: nat, j: nat, s: Registers): (t: Registers)
    requires IsPermutation(c) && Shape(s, n)
    ensures Shape(t, n)
  {
    if j == 0 then s else WrapRow(c, n, j - 1, n, WrapRows(c, n, j - 1, s))
  }

  ghost function Wrap(c: Cipher, key: Bytes): (w: Bytes)
    requires IsPermutation(c) && |key| % 8 == 0
    ensures |w| == |key| + 8
  {
    var s := WrapRows(c, |key| / 8, 6, Registers(IV, key));
    s.a + s.r
  }

  // ------------------------------------------------------------- section 2.2.2: unwrap

  ghost function UnwrapStep(c: Cipher, n: nat, j: nat, i: nat, s: Registers): (t: Registers)
    requires IsPermutation(c) && Shape(s, n) && i < n
    ensures Shape(t, n)
  {
    var b := c.decrypt(XorCounter(s.a, Counter(n, j, i)) + Chunk(s.r, i));
    Registers(b[..8], SetChunk(s.r, i, b[8..]))
  }

  // Blocks i-1 down to 0 of row j.
  ghost function UnwrapRow(c: Cipher, n: nat, j: nat, i: nat, s: Registers): (t: Registers)
    requires IsPermutation(c) && Shape(s, n) && i <= n
    ensures Shape(t, n)
  {
    if i == 0 then s else UnwrapRow(c, n, j, i - 1, UnwrapStep(c, n, j, i - 1, s))
  }

  ghost function UnwrapRows(c: Cipher, n: nat, j: nat, s: Registers): (t: Registers)
    requires IsPermutation(c) && Shape(s, n)
    ensures Shape(t, n)
  {
    if j == 0 then s else UnwrapRows(c, n, j - 1, UnwrapRow(c, n, j - 1, n, s))
  }

  ghost predicate WellFormed(w: Bytes) {
    |w| >= 24 && |w| % 8 == 0
  }

  // The registers after all six rows, from a well-formed input.
  ghost function Unwrapped(c: Cipher, w: Bytes): (t: Registers)
    requires IsPermutation(c) && WellFormed(w)
    ensures Shape(t, |w| / 8 - 1)
  {
    UnwrapRows(c, |w| / 8 - 1, 6, Registers(w[..8], w[8..]))
  }

  ghost function Unwrap(c: Cipher, w: Bytes): Result
    requires IsPermutation(c)
  {
    if !WellFormed(w) then Err
    else if Unwrapped(c, w).a != IV then Err
    else Ok(Unwrapped(c, w).r)
  }

  // ------------------------------------------------------------- steps are inverse

  lemma XorTwice(a: Bytes, t: nat)
    requires |a| == 8
    ensures XorCounter(XorCounter(a, t), t) == a
  {
    hide CounterByte;
    forall i | 0 <= i < 8 ensures XorCounter(XorCounter(a, t), t)[i] == a[i] {
      XorInvolution(a[i], CounterByte(t, 7 - i));
    }
  }

  lemma XorInvolution(x: bv8, y: bv8)
    ensures (x ^ y) ^ y == x
  {
  }

  lemma ChunkOfSet(r: Bytes, i: nat, c: Bytes)
    requires 8 * i + 8 <= |r| && |c| == 8
    ensures Chunk(SetChunk(r, i, c), i) == c
    ensures SetChunk(SetChunk(r, i, c), i, Chunk(r, i)) == r
  {
    var s := SetChunk(r, i, c);
    assert s[..8 * i] == r[..8 * i];
    assert s[8 * i + 8..] == r[8 * i + 8..];
    assert r == r[..8 * i] + r[8 * i..8 * i + 8] + r[8 * i + 8..];
  }

  lemma UnwrapOfWrapStep(c: Cipher, n: nat, j: nat, i: nat, s: Registers)
    requires IsPermutation(c) && Shape(s, n) && i < n
    ensures UnwrapStep(c, n, j, i, WrapStep(c, n, j, i, s)) == s
  {
    hide XorCounter, Chunk, SetChunk, Counter;
    var plain := s.a + Chunk(s.r, i);
    var b := c.encrypt(plain);
    XorTwice(b[..8], Counter(n, j, i));
    ChunkOfSet(s.r, i, b[8..]);
    assert b[..8] + b[8..] == b;
    assert plain[..8] == s.a && plain[8..] == Chunk(s.r, i);
  }

  lemma WrapOfUnwrapStep(c: Cipher, n: nat, j: nat, i: nat, s: Registers)
    requires IsPermutation(c) && Shape(s, n) && i < n
    ensures WrapStep(c, n, j, i, UnwrapStep(c, n, j, i, s)) == s
  {
    hide XorCounter, Chunk, SetChunk, Counter;
    var cipher := XorCounter(s.a, Counter(n, j, i)) + Chunk(s.r, i);
    var b := c.decrypt(cipher);
    XorTwice(s.a, Counter(n, j, i));
    ChunkOfSet(s.r, i, b[8..]);
    assert b[..8] + b[8..] == b;
    assert cipher[..8] == XorCounter(s.a, Counter(n, j, i)) && cipher[8..] == Chunk(s.r, i);
  }

  lemma {:induction false} RowsAreInverse(c: Cipher, n: nat, j: nat, i: nat, s: Registers)
    requires IsPermutation(c) && Shape(s, n) && i <= n
    ensures UnwrapRow(c, n, j, i, WrapRow(c, n, j, i, s)) == s
    ensures WrapRow(c, n, j, i, UnwrapRow(c, n, j, i, s)) == s
    decreases i
  {
    hide WrapStep, UnwrapStep, IsPermutation;
    if i > 0 {
      UnwrapOfWrapStep(c, n, j, i - 1, WrapRow(c, n, j, i - 1, s));
      RowsAreInverse(c, n, j, i - 1, s);
      RowsAreInverse(c, n, j, i - 1, UnwrapStep(c, n, j, i - 1, s));
      WrapOfUnwrapStep(c, n, j, i - 1, s);
    }
  }

  lemma {:induction false} AllRowsAreInverse(c: Cipher, n: nat, j: nat, s: Registers)
    requires IsPermutation(c) && Shape(s, n)
    ensures UnwrapRows(c, n, j, WrapRows(c, n, j, s)) == s
    ensures WrapRows(c, n, j, UnwrapRows(c, n, j, s)) == s
    decreases j
  {
    hide WrapRow, UnwrapRow, IsPermutation;
    if j > 0 {
      RowsAreInverse(c, n, j - 1, n, WrapRows(c, n, j - 1, s));
      AllRowsAreInverse(c, n, j - 1, s);
      AllRowsAreInverse(c, n, j - 1, UnwrapRow(c, n, j - 1, n, s));
      RowsAreInverse(c, n, j - 1, n, s);
    }
  }

  // ------------------------------------------------------------- the two directions

  // The lengths the wrap of RFC 3394 is defined for: at least two 64-bit blocks.
  ghost predicate Wrappable(key: Bytes) {
    |key| >= 16 && |key| % 8 == 0
  }

  /** Unwrapping undoes wrapping, for every key-encryption key and every length. */
  lemma UnwrapUndoesWrap(c: Cipher, key: Bytes)
    requires IsPermutation(c) && Wrappable(key)
    ensures Unwrap(c, Wrap(c, key)) == Ok(key)
  {
    hide WrapRows, UnwrapRows, IsPermutation;
    var n := |key| / 8;
    var s := WrapRows(c, n, 6, Registers(IV, key));
    var w := Wrap(c, key);
    assert w[..8] == s.a && w[8..] == s.r;
    AllRowsAreInverse(c, n, 6, Registers(IV, key));
    assert Unwrapped(c, w) == Registers(IV, key);
  }

  /** Whatever unwraps successfully is the wrap of the result: nothing else is accepted. */
  lemma OnlyWrapsUnwrap(c: Cipher, w: Bytes, key: Bytes)
    requires IsPermutation(c)
    ensures Unwrap(c, w) == Ok(key) <==> Wrappable(key) && w == Wrap(c, key)
  {
    if Wrappable(key) && w == Wrap(c, key) {
      UnwrapUndoesWrap(c, key);
    }
    if Unwrap(c, w) == Ok(key) {
      AcceptedIsWrapped(c, w);
    }
  }

  lemma AcceptedIsWrapped(c: Cipher, w: Bytes)
    requires IsPermutation(c) && Unwrap(c, w).Ok?
    ensures var key := Unwrap(c, w).key; Wrappable(key) && w == Wrap(c, key)
  {
    hide WrapRows, UnwrapRows, IsPermutation;
    AllRowsAreInverse(c, |w| / 8 - 1, 6, Registers(w[..8], w[8..]));
    assert Unwrapped(c, w) == Registers(IV, Unwrap(c, w).key);
    assert w[..8] + w[8..] == w;
  }

  // ------------------------------------------------------------- section 2.2.1: the shifting registers

  // The n digits to base 256 of a number, most significant first.
  function Digits(t: nat, n: nat): (d: seq<nat>)
    ensures |d| == n && forall i :: 0 <= i < n ==> d[i] < 256
  {
    if n == 0 then [] else Digits(t / 256, n - 1) + [t % 256]
  }

  // The number the digits stand for.
  function Number(d: seq<nat>): nat {
    if d == [] then 0 else 256 * Number(d[..|d| - 1]) + d[|d| - 1]
  }

  function Pow256(n: nat): (p: nat)
    ensures p > 0
  {
    if n == 0 then 1 else 256 * Pow256(n - 1)
  }

  /** The digits are those of the number, as long as there is room for it. */
  lemma {:induction false} DigitsAreNumber(t: nat, n: nat)
    requires t < Pow256(n)
    ensures Number(Digits(t, n)) == t
    decreases n
  {
    if n > 0 {
      QuotientBelow(t, Pow256(n - 1));
      DigitsAreNumber(t / 256, n - 1);
      var d := Digits(t, n);
      assert d[..n - 1] == Digits(t / 256, n - 1) && d[n - 1] == t % 256;
    }
  }

  lemma QuotientBelow(t: nat, p: nat)
    requires t < 256 * p
    ensures t / 256 < p
  {
  }

  // The n-byte big-endian form of a number.
  function BigEndian(t: nat, n: nat): (b: Bytes)
    ensures |b| == n
  {
    seq(n, i requires 0 <= i < n => Digits(t, n)[i] as bv8)
  }

  function Xor(a: Bytes, b: Bytes): (x: Bytes)
    requires |a| == |b|
    ensures |x| == |a|
  {
    seq(|a|, i requires 0 <= i < |a| => a[i] ^ b[i])
  }

  /**
   * The registers after t steps, as the RFC writes them: the block in front goes through the cipher
   * with A, the others move up, and the step number enters A.
   */
  ghost function Shifted(c: Cipher, key: Bytes, t: nat): (s: Registers)
    requires IsPermutation(c) && |key| >= 8
    ensures |s.a| == 8 && |s.r| == |key|
  {
    if t == 0 then Registers(seq(8, _ => 0xA6), key)
    else
      var s := Shifted(c, key, t - 1);
      var b := c.encrypt(s.a + s.r[..8]);
      Registers(Xor(b[..8], BigEndian(t, 8)), s.r[8..] + b[8..])
  }

  /** The key wrap of RFC 3394: six steps for every block of the key. */
  ghost function RfcWrap(c: Cipher, key: Bytes): (w: Bytes)
    requires IsPermutation(c) && |key| >= 8
    ensures |w| == |key| + 8
  {
    var s := Shifted(c, key, 6 * (|key| / 8));
    s.a + s.r
  }

  lemma {:induction false} CounterBytes(t: nat, k: nat, n: nat)
    requires k < n
    ensures CounterByte(t, k) == Digits(t, n)[n - 1 - k] as bv8
    decreases k
  {
    if k > 0 { CounterBytes(t / 256, k - 1, n - 1); }
  }

  lemma XorCounterIsXor(a: Bytes, t: nat)
    requires |a| == 8
    ensures XorCounter(a, t) == Xor(a, BigEndian(t, 8))
  {
    hide CounterByte, Digits;
    forall i | 0 <= i < 8 ensures CounterByte(t, 7 - i) == BigEndian(t, 8)[i] { CounterBytes(t, 7 - i, 8); }
  }

  // The blocks with the first i of them moved behind the others.
  function Rotated(r: Bytes, i: nat): (q: Bytes)
    requires 8 * i <= |r|
    ensures |q| == |r|
  {
    r[8 * i..] + r[..8 * i]
  }

  // Working on block i in place and moving on is working on the block in front and shifting.
  lemma RotatedStep(r: Bytes, i: nat, b: Bytes)
    requires 8 * i + 8 <= |r| && |b| == 8
    ensures Rotated(r, i)[..8] == Chunk(r, i)
    ensures Rotated(SetChunk(r, i, b), i + 1) == Rotated(r, i)[8..] + b
  {
    var s := SetChunk(r, i, b);
    assert s[8 * i + 8..] == r[8 * i + 8..];
    assert s[..8 * i + 8] == r[..8 * i] + b;
    assert Rotated(r, i)[8..] == r[8 * i + 8..] + r[..8 * i];
  }

  lemma RotatedAll(r: Bytes, n: nat)
    requires |r| == 8 * n
    ensures Rotated(r, n) == r && Rotated(r, 0) == r
  {
  }

  // The two forms side by side: i blocks into row j, which `base` steps came before.
  lemma {:induction false} RowIsShifted(c: Cipher, key: Bytes, n: nat, j: nat, base: nat, i: nat, s: Registers)
    requires IsPermutation(c) && |key| == 8 * n && n > 0 && i <= n && Shape(s, n) && base == n * j
    requires Shifted(c, key, base) == s
    ensures
      var t := WrapRow(c, n, j, i, s);
      Shifted(c, key, base + i) == Registers(t.a, Rotated(t.r, i))
    decreases i
  {
    hide IsPermutation, Rotated, Shifted, WrapStep;
    if i == 0 {
      RotatedAll(s.r, n);
    } else {
      RowIsShifted(c, key, n, j, base, i - 1, s);
      ShiftedStep(c, key, n, j, base, i - 1, WrapRow(c, n, j, i - 1, s));
    }
  }

  lemma ShiftedStep(c: Cipher, key: Bytes, n: nat, j: nat, base: nat, i: nat, p: Registers)
    requires IsPermutation(c) && |key| == 8 * n && i < n && Shape(p, n) && base == n * j
    requires Shifted(c, key, base + i) == Registers(p.a, Rotated(p.r, i))
    ensures
      var t := WrapStep(c, n, j, i, p);
      Shifted(c, key, base + (i + 1)) == Registers(t.a, Rotated(t.r, i + 1))
  {
    hide IsPermutation, XorCounter, Chunk, SetChunk, Rotated, Shifted;
    ShiftedOnce(c, key, base + i + 1, p, i);
  }

  lemma ShiftedOnce(c: Cipher, key: Bytes, t: nat, p: Registers, i: nat)
    requires IsPermutation(c) && |key| >= 8 && t > 0 && |p.a| == 8 && |p.r| == |key| && 8 * i + 8 <= |key|
    requires Shifted(c, key, t - 1) == Registers(p.a, Rotated(p.r, i))
    ensures
      var b := c.encrypt(p.a + Chunk(p.r, i));
      && |b| == 16
      && Shifted(c, key, t) == Registers(XorCounter(b[..8], t), Rotated(SetChunk(p.r, i, b[8..]), i + 1))
  {
    var b := c.encrypt(p.a + Chunk(p.r, i));
    assert |p.a + Chunk(p.r, i)| == 16;
    hide XorCounter, Xor, BigEndian, Rotated, SetChunk, Chunk;
    XorCounterIsXor(b[..8], t);
    RotatedStep(p.r, i, b[8..]);
  }

  lemma {:induction false} RowsAreShifted(c: Cipher, key: Bytes, n: nat, j: nat, base: nat)
    requires IsPermutation(c) && |key| == 8 * n && n > 0 && base == n * j
    ensures Shifted(c, key, base) == WrapRows(c, n, j, Registers(seq(8, _ => 0xA6), key))
    decreases j
  {
    hide IsPermutation, WrapRow, Rotated;
    if j > 0 {
      hide Shifted;
      var before := n * (j - 1);
      assert base == before + n;
      RowsAreShifted(c, key, n, j - 1, before);
      var s := WrapRows(c, n, j - 1, Registers(seq(8, _ => 0xA6), key));
      RowIsShifted(c, key, n, j - 1, before, n, s);
      RotatedAll(WrapRow(c, n, j - 1, n, s).r, n);
    }
  }

  /** The rows of the index form and the shifting registers compute one wrap, for every key of whole blocks. */
  lemma WrapIsRfcWrap(c: Cipher, key: Bytes)
    requires IsPermutation(c) && |key| % 8 == 0 && |key| >= 8
    ensures Wrap(c, key) == RfcWrap(c, key)
  {
    hide IsPermutation, WrapRows, Shifted;
    var n := |key| / 8;
    RowsAreShifted(c, key, n, 6, 6 * n);
    assert IV == seq(8, _ => 0xA6);
  }

  // A key is returned exactly when the input is its wrap; any other input is refused.
  ghost predicate ReturnsRfcKey(c: Cipher, w: Bytes, res: Result)
    requires IsPermutation(c)
  {
    forall key :: res == Ok(key) <==> |key| >= 16 && |key| % 8 == 0 && w == RfcWrap(c, key)
  }

  lemma UnwrapsRfcWraps(c: Cipher, w: Bytes)
    requires IsPermutation(c)
    ensures ReturnsRfcKey(c, w, Unwrap(c, w))
  {
    hide IsPermutation, Unwrap, Wrap, RfcWrap;
    forall key ensures Unwrap(c, w) == Ok(key) <==> |key| >= 16 && |key| % 8 == 0 && w == RfcWrap(c, key) {
      OnlyWrapsUnwrap(c, w, key);
      if |key| >= 16 && |key| % 8 == 0 { WrapIsRfcWrap(c, key); }
    }
  }

  // ------------------------------------------------------------- the code

  // Exclusive-or the counter into the register, least significant byte last.
  method XorCounterInto(a0: Bytes, t: nat) returns (a: Bytes)
    requires |a0| == 8
    ensures a == XorCounter(a0, t)
  {
    hide CounterByte;
    a := a0;
    var k := 0;
    while k < 8
      invariant 0 <= k <= 8 && |a| == 8
      invariant forall i :: 0 <= i < 8 ==> a[i] == if i < 8 - k then a0[i] else XorCounter(a0, t)[i]
    {
      a := a[7 - k := a[7 - k] ^ CounterByte(t, k)];
      k := k + 1;
    }
  }

  /** Accepts exactly the wraps of RFC 3394, and returns the key that was wrapped. */
  method AesKeyUnwrap(c: Cipher, ciphertext: Bytes) returns (res: Result)
    requires IsPermutation(c)
    ensures res == Unwrap(c, ciphertext)
    ensures ReturnsRfcKey(c, ciphertext, res)
  {
    hide ReturnsRfcKey, UnwrapStep, UnwrapRow, IsPermutation, XorCounter, Chunk, SetChunk, Counter;
    UnwrapsRfcWraps(c, ciphertext);
    if |ciphertext| < 24 || |ciphertext| % 8 != 0 {
      return Err;
    }
    var n := |ciphertext| / 8 - 1;
    var r: Bytes := ciphertext[8..];
    var a: Bytes := ciphertext[..8];
    ghost var goal := Unwrapped(c, ciphertext);
    var j := 6;
    while j > 0
      invariant 0 <= j <= 6 && Shape(Registers(a, r), n)
      invariant UnwrapRows(c, n, j, Registers(a, r)) == goal
    {
      j := j - 1;
      a, r := UnwrapOneRow(c, n, j, a, r);
    }
    if a != IV {
      return Err;
    }
    return Ok(r);
  }

  method UnwrapOneRow(c: Cipher, n: nat, j: nat, a0: Bytes, r0: Bytes) returns (a: Bytes, r: Bytes)
    requires IsPermutation(c) && Shape(Registers(a0, r0), n)
    ensures Registers(a, r) == UnwrapRow(c, n, j, n, Registers(a0, r0))
  {
    hide XorCounter, Chunk, SetChunk, Counter;
    a, r := a0, r0;
    ghost var goal := UnwrapRow(c, n, j, n, Registers(a, r));
    var i := n;
    while i > 0
      invariant 0 <= i <= n && Shape(Registers(a, r), n)
      invariant UnwrapRow(c, n, j, i, Registers(a, r)) == goal
    {
      i := i - 1;
      var x := XorCounterInto(a, Counter(n, j, i));
      var decrypted := c.decrypt(x + Chunk(r, i));
      a, r := decrypted[..8], SetChunk(r, i, decrypted[8..]);
    }
  }
}
