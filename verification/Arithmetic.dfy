/** Facts about powers of two and remainders shared by the other modules. */
module Arithmetic {

  /** The number of values of a 64-bit word; `usize` and `u64` are 64 bits wide. */
  const WORD: int := 0x1_0000_0000_0000_0000
  const U32: int := 0x1_0000_0000
  const PAGE: int := 4096
  // A slice holds at most isize::MAX bytes.
  const SLICE: int := 0x8000_0000_0000_0000

  type byte = b: int | 0 <= b < 256

  function Min(a: int, b: int): (m: int)
    ensures m <= a && m <= b && (m == a || m == b)
  {
    if a <= b then a else b
  }

  function Max(a: int, b: int): (m: int)
    ensures m >= a && m >= b && (m == a || m == b)
  {
    if a >= b then a else b
  }

  // The unsigned 64-bit operations that stop at the ends of the range.
  // What is left of a sum in 64 bits.
  function Wrapped(n: nat): nat { n % WORD }

  lemma WrappedSum(n: nat)
    requires n < 2 * WORD
    ensures Wrapped(n) == if n < WORD then n else n - WORD
  {
  }

  function SaturatingAdd(a: nat, b: nat): nat { Min(a + b, WORD - 1) }
  function SaturatingSub(a: nat, b: nat): nat { if a >= b then a - b else 0 }
  function SaturatingMul(a: nat, b: nat): nat { Min(a * b, WORD - 1) }

  function Pow2(k: nat): (p: nat)
    ensures p >= 1
  {
    if k == 0 then 1 else 2 * Pow2(k - 1)
  }

  function Pow256(k: nat): (p: nat)
    ensures p >= 1
  {
    if k == 0 then 1 else 256 * Pow256(k - 1)
  }

  ghost predicate IsPowerOfTwo(n: nat) {
    exists k: nat :: n == Pow2(k)
  }

  lemma {:induction false} Pow2Add(a: nat, b: nat)
    ensures Pow2(a + b) == Pow2(a) * Pow2(b)
  {
    if a > 0 {
      Pow2Add(a - 1, b);
    }
  }

  lemma {:induction false} Pow2Monotone(a: nat, b: nat)
    requires a < b
    ensures Pow2(a) < Pow2(b)
    decreases b
  {
    if a + 1 < b {
      Pow2Monotone(a, b - 1);
    }
  }

  lemma WordIsPow2()
    ensures Pow2(64) == WORD
  {
    assert Pow2(8) == 256;
    Pow2Add(8, 8);
    Pow2Add(16, 16);
    assert Pow2(32) == 0x1_0000_0000;
    Pow2Add(32, 32);
  }

  lemma MulLe(a: int, b: int, n: int)
    requires a <= b && n >= 0
    ensures a * n <= b * n
  {
  }

  lemma MulSuccessor(k: int, n: int)
    ensures (k + 1) * n == k * n + n
  {
  }

  lemma MultipleBelow(a: int, k: int, n: int)
    requires n > 0 && a * n < k * n + n
    ensures a <= k
  {
    if a > k {
      MulSuccessor(k, n);
      MulLe(k + 1, a, n);
    }
  }

  /** A multiple of `n` strictly between `-n` and `n` is zero. */
  lemma SmallMultiple(d: int, n: int)
    requires n > 0 && -n < d * n < n
    ensures d == 0
  {
    if d >= 1 {
      MulLe(1, d, n);
    } else if d <= -1 {
      MulLe(d, -1, n);
    }
  }

  /** A remainder is pinned down by any decomposition. */
  lemma ModUnique(x: int, q: int, n: int, r: int)
    requires 0 <= r < n
    requires x == q * n + r
    ensures x % n == r && x / n == q
  {
    var q', r' := x / n, x % n;
    assert x == q' * n + r';
    assert (q' - q) * n == r - r' by {
      assert (q' - q) * n == q' * n - q * n;
    }
    SmallMultiple(q' - q, n);
  }

  lemma ModMultiple(q: int, n: int)
    requires n > 0
    ensures (q * n) % n == 0
  {
    ModUnique(q * n, q, n, 0);
  }

  lemma ModShift(x: int, q: int, n: int)
    requires n > 0
    ensures (x + q * n) % n == x % n
  {
    var d := x / n;
    assert x == d * n + x % n;
    assert x + q * n == (d + q) * n + x % n;
    ModUnique(x + q * n, d + q, n, x % n);
  }

  /** Reducing modulo a multiple first does not change the remainder. */
  lemma ModOfMod(x: int, m: int, n: int)
    requires n > 0 && m > 0 && m % n == 0
    ensures (x % m) % n == x % n
  {
    var q := x / m;
    var d := m / n;
    assert m == d * n;
    assert x == q * m + x % m;
    assert q * m == (q * d) * n;
    ModShift(x % m, q * d, n);
  }

  /** Two numbers closer than `n` and distinct have distinct remainders. */
  lemma ModDistinct(a: int, b: int, n: int)
    requires n > 0 && a < b < a + n
    ensures a % n != b % n
  {
    var qa, ra, qb, rb := a / n, a % n, b / n, b % n;
    assert a == qa * n + ra && b == qb * n + rb;
    if ra == rb {
      assert (qb - qa) * n == b - a by {
        assert (qb - qa) * n == qb * n - qa * n;
      }
      SmallMultiple(qb - qa, n);
    }
  }

  lemma ModAdd(a: int, k: int, n: int)
    requires n > 0 && 0 <= k <= n
    ensures (a + k) % n == if a % n + k < n then a % n + k else a % n + k - n
  {
    var q := a / n;
    assert a == q * n + a % n;
    if a % n + k < n {
      ModUnique(a + k, q, n, a % n + k);
    } else {
      assert a + k == (q + 1) * n + (a % n + k - n);
      ModUnique(a + k, q + 1, n, a % n + k - n);
    }
  }

  lemma PowerOfTwoDividesWord(n: nat)
    requires IsPowerOfTwo(n) && n <= WORD
    ensures n > 0 && WORD % n == 0
  {
    var k: nat :| n == Pow2(k);
    WordIsPow2();
    if k > 64 {
      Pow2Monotone(64, k);
    }
    Pow2Add(64 - k, k);
    ModMultiple(Pow2(64 - k), n);
  }

  lemma OddProduct(n: nat, e: nat)
    requires n % 2 == 1 && e % 2 == 1
    ensures (n * e) % 2 == 1
  {
    var a, b := n / 2, e / 2;
    calc {
      n * e;
      (2 * a + 1) * e;
      2 * (a * e) + e;
      2 * (a * e + b) + 1;
    }
  }

  /** Every divisor of a power of two is a power of two. */
  lemma {:induction false} DivisorOfPow2(n: nat, e: nat, k: nat)
    requires n * e == Pow2(k)
    ensures IsPowerOfTwo(n)
    decreases k
  {
    if k == 0 {
      if n > 1 {
        assert e >= 1;
        MulLe(1, e, n);
        assert false;
      }
      assert n == Pow2(0);
    } else if n % 2 == 0 {
      var h := n / 2;
      HalveProduct(h, e, Pow2(k - 1));
      DivisorOfPow2(h, e, k - 1);
      var j: nat :| h == Pow2(j);
      assert n == Pow2(j + 1);
    } else {
      if e % 2 == 1 {
        OddProduct(n, e);
        assert false;
      }
      var h := e / 2;
      HalveProduct(h, n, Pow2(k - 1));
      DivisorOfPow2(n, h, k - 1);
    }
  }

  lemma HalveProduct(h: nat, e: nat, p: nat)
    requires (2 * h) * e == 2 * p
    ensures h * e == p
  {
    assert (2 * h) * e == 2 * (h * e);
  }

  /**
   * The reason `BufferQueue::new` insists on a power of two: slot numbers computed from
   * counters that wrap at 2^64 stay right for every counter value exactly then.
   */
  lemma WrapSafeIffPowerOfTwo(n: nat)
    requires 0 < n <= WORD
    ensures (forall x: nat :: (x % WORD) % n == x % n) <==> IsPowerOfTwo(n)
  {
    if IsPowerOfTwo(n) {
      PowerOfTwoDividesWord(n);
      forall x: nat ensures (x % WORD) % n == x % n {
        ModOfMod(x, WORD, n);
      }
    } else {
      WordNotDivisible(n);
      var x: nat := WORD;
      assert (x % WORD) % n == 0 != x % n;
    }
  }

  lemma WordNotDivisible(n: nat)
    requires 0 < n && !IsPowerOfTwo(n)
    ensures WORD % n != 0
  {
    if WORD % n == 0 {
      var d := WORD / n;
      assert n * d == WORD;
      WordIsPow2();
      DivisorOfPow2(n, d, 64);
    }
  }
}
