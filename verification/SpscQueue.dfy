/**
 * The lock-free single-producer single-consumer byte queue of the audio layer.
 *
 * `Step` is the protocol at the granularity of its atomic loads, single byte copies and
 * atomic stores; a run is any interleaving of the two sides. `BufferQueue` is the code
 * itself, executed without interference and proved to be one particular run.
 */
module SpscQueue {
  import opened Arithmetic

  // Local variables of a `write` call in progress.
  datatype Producer =
    | PIdle
    | PLoaded(data: seq<byte>, w: nat)
    | PCopying(data: seq<byte>, w: nat, n: nat, k: nat)

  // Local variables of a `read` call in progress; `dst` is what has been copied out.
  datatype Consumer =
    | CIdle
    | CLoaded(want: nat, r: nat)
    | CCopying(r: nat, n: nat, dst: seq<byte>)

  // `produced` and `taken` are histories: every byte published by the producer, and every
  // byte released by the consumer (by a read, or discarded by a reset).
  datatype State = State(
    buf: seq<byte>, head: nat, tail: nat,
    p: Producer, c: Consumer,
    produced: seq<byte>, taken: seq<byte>)

  datatype Action =
    | StartWrite(data: seq<byte>) | LoadTail | CopyIn | PublishHead
    | StartRead(want: nat) | LoadHead | CopyOut | PublishTail
    | Reset

  function Init(capacity: nat): State {
    State(seq(capacity, i => 0), 0, 0, PIdle, CIdle, [], [])
  }

  // Unsigned 64-bit subtraction, `wrapping_sub`.
  function WrappingSub(a: nat, b: nat): (d: nat) {
    (a - b) % WORD
  }

  // The cell of the i-th byte ever produced.
  function Cell(i: nat, capacity: nat): (c: nat)
    requires capacity > 0
    ensures c < capacity
  {
    i % capacity
  }

  // The cell that byte `k` of an `n`-byte transfer starting at counter `x` goes through:
  // a first chunk up to the end of the buffer, the remainder from its beginning.
  function TransferCell(x: nat, n: nat, k: nat, capacity: nat): int
    requires capacity > 0
  {
    var first := Min(capacity - Cell(x, capacity), n);
    if k < first then Cell(x, capacity) + k else k - first
  }

  function Put(buf: seq<byte>, i: int, b: byte): (r: seq<byte>)
    ensures |r| == |buf|
  {
    if 0 <= i < |buf| then buf[i := b] else buf
  }

  function Get(buf: seq<byte>, i: int): byte {
    if 0 <= i < |buf| then buf[i] else 0
  }

  // An action that is not enabled leaves the state alone.
  function Step(s: State, a: Action): State
    requires |s.buf| > 0
  {
    match a
    case StartWrite(data) =>
      if s.p.PIdle? then s.(p := PLoaded(data, s.head)) else s
    case LoadTail =>
      if s.p.PLoaded? then
        var free := WrappingSub(|s.buf|, WrappingSub(s.p.w, s.tail));
        if free == 0 then s.(p := PIdle)
        else s.(p := PCopying(s.p.data, s.p.w, Min(|s.p.data|, free), 0))
      else s
    case CopyIn =>
      if s.p.PCopying? && s.p.k < s.p.n && s.p.n <= |s.p.data| then
        var cell := TransferCell(s.p.w, s.p.n, s.p.k, |s.buf|);
        s.(buf := Put(s.buf, cell, s.p.data[s.p.k]), p := s.p.(k := s.p.k + 1))
      else s
    case PublishHead =>
      if s.p.PCopying? && s.p.k == s.p.n && s.p.n <= |s.p.data| then
        s.(head := (s.p.w + s.p.n) % WORD, p := PIdle, produced := s.produced + s.p.data[..s.p.n])
      else s
    case StartRead(want) =>
      if s.c.CIdle? then s.(c := CLoaded(want, s.tail)) else s
    case LoadHead =>
      if s.c.CLoaded? then
        var avail := WrappingSub(s.head, s.c.r);
        if avail == 0 then s.(c := CIdle)
        else s.(c := CCopying(s.c.r, Min(s.c.want, avail), []))
      else s
    case CopyOut =>
      if s.c.CCopying? && |s.c.dst| < s.c.n then
        var cell := TransferCell(s.c.r, s.c.n, |s.c.dst|, |s.buf|);
        s.(c := s.c.(dst := s.c.dst + [Get(s.buf, cell)]))
      else s
    case PublishTail =>
      if s.c.CCopying? && |s.c.dst| == s.c.n then
        s.(tail := (s.c.r + s.c.n) % WORD, c := CIdle, taken := s.taken + s.c.dst)
      else s
    case Reset =>
      // only called when both sides are quiescent
      if s.p.PIdle? && s.c.CIdle? then s.(tail := s.head, taken := s.produced) else s
  }

  function Run(s: State, actions: seq<Action>): (r: State)
    requires |s.buf| > 0
    ensures |r.buf| == |s.buf|
    decreases |actions|
  {
    if actions == [] then s else Run(Step(s, actions[0]), actions[1..])
  }

  ghost predicate Capacity(n: nat) {
    IsPowerOfTwo(n) && n < WORD
  }

  ghost predicate ProducerInv(s: State)
    requires |s.buf| > 0 && |s.taken| <= |s.produced|
  {
    match s.p
    case PIdle => true
    case PLoaded(_, w) => w == s.head
    case PCopying(data, w, n, k) =>
      && w == s.head
      && k <= n <= |data|
      && |s.produced| + n <= |s.taken| + |s.buf|
      && (forall i {:trigger data[i]} :: 0 <= i < k ==>
            s.buf[Cell(|s.produced| + i, |s.buf|)] == data[i])
  }

  ghost predicate ConsumerInv(s: State) {
    match s.c
    case CIdle => true
    case CLoaded(_, r) => r == s.tail
    case CCopying(r, n, dst) =>
      && r == s.tail
      && |dst| <= n
      && |s.taken| + n <= |s.produced|
      && dst == s.produced[|s.taken|..|s.taken| + |dst|]
  }

  ghost predicate Inv(s: State) {
    && Capacity(|s.buf|)
    && |s.buf| > 0
    && s.taken <= s.produced
    && |s.produced| <= |s.taken| + |s.buf|
    && s.head == |s.produced| % WORD
    && s.tail == |s.taken| % WORD
    && (forall i {:trigger s.produced[i]} :: |s.taken| <= i < |s.produced| ==>
          s.buf[Cell(i, |s.buf|)] == s.produced[i])
    && ProducerInv(s)
    && ConsumerInv(s)
  }

  // ------------------------------------------------------------- arithmetic of the counters

  /** The wrapping difference of two counters is the true distance. */
  lemma WrappingDistance(a: nat, b: nat, h: nat, t: nat)
    requires b <= a < b + WORD && h == a % WORD && t == b % WORD
    ensures WrappingSub(h, t) == a - b
  {
    var qa, qb := a / WORD, b / WORD;
    assert a == qa * WORD + h && b == qb * WORD + t;
    ModShift(a - b, qb - qa, WORD);
    assert h - t == a - b + (qb - qa) * WORD;
  }

  /** The chunked copy addresses the true cell, wrap-around of buffer and counter included. */
  lemma TransferCellIsCell(x: nat, count: nat, n: nat, k: nat, capacity: nat)
    requires capacity > 0 && Capacity(capacity)
    requires x == count % WORD && k < n <= capacity
    ensures TransferCell(x, n, k, capacity) == Cell(count + k, capacity)
  {
    PowerOfTwoDividesWord(capacity);
    ModOfMod(count, WORD, capacity);
    ModAdd(count, k, capacity);
  }

  lemma CellsDistinct(i: nat, j: nat, capacity: nat)
    requires capacity > 0 && i < j < i + capacity
    ensures Cell(i, capacity) != Cell(j, capacity)
  {
    ModDistinct(i, j, capacity);
  }

  lemma AdvanceCounter(count: nat, x: nat, n: nat)
    requires x == count % WORD
    ensures (x + n) % WORD == (count + n) % WORD
  {
    var q := count / WORD;
    ModShift(x + n, q, WORD);
    assert count + n == x + n + q * WORD;
  }

  // ------------------------------------------------------------- every step keeps the invariant

  lemma InitInv(capacity: nat)
    requires Capacity(capacity)
    ensures capacity > 0 && Inv(Init(capacity))
  {
    PowerOfTwoDividesWord(capacity);
  }

  lemma LoadTailInv(s: State)
    requires Inv(s) && s.p.PLoaded?
    ensures Inv(Step(s, LoadTail))
  {
    hide Cell, TransferCell, IsPowerOfTwo;
    WrappingDistance(|s.produced|, |s.taken|, s.head, s.tail);
  }

  lemma CopyInInv(s: State)
    requires Inv(s) && s.p.PCopying? && s.p.k < s.p.n
    ensures Inv(Step(s, CopyIn))
  {
    hide Cell, TransferCell, IsPowerOfTwo;
    var n, k, cap, count := s.p.n, s.p.k, |s.buf|, |s.produced|;
    TransferCellIsCell(s.p.w, count, n, k, cap);
    var cell := Cell(count + k, cap);
    var t := Step(s, CopyIn);
    assert t.buf == s.buf[cell := s.p.data[k]];
    forall i | |s.taken| <= i < count ensures Cell(i, cap) != cell {
      CellsDistinct(i, count + k, cap);
    }
    forall i {:trigger s.p.data[i]} | 0 <= i < k + 1
      ensures t.buf[Cell(count + i, cap)] == s.p.data[i]
    {
      if i < k { CellsDistinct(count + i, count + k, cap); }
    }
  }

  lemma PublishHeadInv(s: State)
    requires Inv(s) && s.p.PCopying? && s.p.k == s.p.n
    ensures Inv(Step(s, PublishHead))
  {
    hide Cell, TransferCell, IsPowerOfTwo;
    var t := Step(s, PublishHead);
    AdvanceCounter(|s.produced|, s.head, s.p.n);
    forall i {:trigger t.produced[i]} | |t.taken| <= i < |t.produced|
      ensures t.buf[Cell(i, |t.buf|)] == t.produced[i]
    {
      if i < |s.produced| {
        assert t.produced[i] == s.produced[i];
      } else {
        var j := i - |s.produced|;
        assert t.produced[i] == s.p.data[j];
      }
    }
    assert ConsumerInv(t);
  }

  lemma LoadHeadInv(s: State)
    requires Inv(s) && s.c.CLoaded?
    ensures Inv(Step(s, LoadHead))
  {
    hide Cell, TransferCell, IsPowerOfTwo;
    WrappingDistance(|s.produced|, |s.taken|, s.head, s.tail);
  }

  lemma CopyOutInv(s: State)
    requires Inv(s) && s.c.CCopying? && |s.c.dst| < s.c.n
    ensures Inv(Step(s, CopyOut))
  {
    hide Cell, TransferCell, IsPowerOfTwo;
    var k := |s.c.dst|;
    TransferCellIsCell(s.c.r, |s.taken|, s.c.n, k, |s.buf|);
    var t := Step(s, CopyOut);
    assert s.buf[Cell(|s.taken| + k, |s.buf|)] == s.produced[|s.taken| + k];
    assert t.c.dst == s.produced[|s.taken|..|s.taken| + k + 1];
  }

  lemma PublishTailInv(s: State)
    requires Inv(s) && s.c.CCopying? && |s.c.dst| == s.c.n
    ensures Inv(Step(s, PublishTail))
  {
    hide Cell, TransferCell, IsPowerOfTwo;
    var t := Step(s, PublishTail);
    AdvanceCounter(|s.taken|, s.tail, s.c.n);
    assert s.taken == s.produced[..|s.taken|];
    assert t.taken == s.produced[..|s.taken| + s.c.n];
  }

  lemma StepInv(s: State, a: Action)
    requires Inv(s)
    ensures Inv(Step(s, a))
  {
    hide Cell, TransferCell, IsPowerOfTwo;
    match a
    case LoadTail => if s.p.PLoaded? { LoadTailInv(s); }
    case CopyIn => if s.p.PCopying? && s.p.k < s.p.n { CopyInInv(s); }
    case PublishHead => if s.p.PCopying? && s.p.k == s.p.n { PublishHeadInv(s); }
    case LoadHead => if s.c.CLoaded? { LoadHeadInv(s); }
    case CopyOut => if s.c.CCopying? && |s.c.dst| < s.c.n { CopyOutInv(s); }
    case PublishTail => if s.c.CCopying? && |s.c.dst| == s.c.n { PublishTailInv(s); }
    case _ =>
  }

  lemma {:induction false} RunInv(s: State, actions: seq<Action>)
    requires Inv(s)
    ensures Inv(Run(s, actions))
    decreases |actions|
  {
    if actions != [] {
      StepInv(s, actions[0]);
      RunInv(Step(s, actions[0]), actions[1..]);
    }
  }

  // ------------------------------------------------------------- what every interleaving guarantees

  /**
   * Safety over every interleaving: what has been taken out is a prefix of what was put in,
   * a read in progress holds the bytes that follow, and the queue never overflows.
   */
  lemma {:induction false} FifoOverEveryRun(capacity: nat, actions: seq<Action>)
    requires Capacity(capacity) && capacity > 0
    ensures
      var s := Run(Init(capacity), actions);
      && s.taken <= s.produced
      && |s.produced| - |s.taken| <= capacity
      && WrappingSub(s.head, s.tail) == |s.produced| - |s.taken|
      && (s.c.CCopying? ==> s.taken + s.c.dst <= s.produced)
  {
    var s := Run(Init(capacity), actions);
    InitInv(capacity);
    RunInv(Init(capacity), actions);
    WrappingDistance(|s.produced|, |s.taken|, s.head, s.tail);
    if s.c.CCopying? {
      assert s.taken == s.produced[..|s.taken|];
      assert s.taken + s.c.dst == s.produced[..|s.taken| + |s.c.dst|];
    }
  }

  // The cells of the bytes numbered lo up to hi.
  ghost function Cells(lo: nat, hi: nat, capacity: nat): set<nat>
    requires capacity > 0
  {
    set i | lo <= i < hi :: Cell(i, capacity)
  }

  /**
   * Exclusive ownership over every interleaving: a byte copied in lands in the buffer and in
   * no cell holding an unread byte; a byte copied out comes from an unread cell; and the whole
   * region of a write in progress is disjoint from the whole region of a read in progress.
   */
  lemma {:induction false} OwnershipOverEveryRun(capacity: nat, actions: seq<Action>)
    requires Capacity(capacity) && capacity > 0
    ensures
      var s := Run(Init(capacity), actions);
      var unread := Cells(|s.taken|, |s.produced|, capacity);
      && (s.p.PCopying? ==>
            Cells(|s.produced|, |s.produced| + s.p.n, capacity) !! unread)
      && (s.p.PCopying? && s.p.k < s.p.n ==>
            var cell := TransferCell(s.p.w, s.p.n, s.p.k, capacity);
            cell in Cells(|s.produced|, |s.produced| + s.p.n, capacity) && cell < capacity)
      && (s.c.CCopying? && |s.c.dst| < s.c.n ==>
            TransferCell(s.c.r, s.c.n, |s.c.dst|, capacity) in unread)
  {
    hide Cell, TransferCell, IsPowerOfTwo;
    var s := Run(Init(capacity), actions);
    InitInv(capacity);
    RunInv(Init(capacity), actions);
    var lo, mid := |s.taken|, |s.produced|;
    if s.p.PCopying? {
      forall i, j | lo <= i < mid && mid <= j < mid + s.p.n
        ensures Cell(i, capacity) != Cell(j, capacity)
      {
        CellsDistinct(i, j, capacity);
      }
      if s.p.k < s.p.n {
        TransferCellIsCell(s.p.w, mid, s.p.n, s.p.k, capacity);
        assert Cell(mid + s.p.k, capacity) in Cells(mid, mid + s.p.n, capacity);
      }
    }
    if s.c.CCopying? && |s.c.dst| < s.c.n {
      TransferCellIsCell(s.c.r, lo, s.c.n, |s.c.dst|, capacity);
      assert Cell(lo + |s.c.dst|, capacity) in Cells(lo, mid, capacity);
    }
  }

  // ------------------------------------------------------------- calls without interference

  function Iterate(s: State, a: Action, n: nat): (t: State)
    requires |s.buf| > 0
    ensures |t.buf| == |s.buf|
    decreases n
  {
    if n == 0 then s else Iterate(Step(s, a), a, n - 1)
  }

  // A call that runs from start to finish: two loads, `n` byte copies, one store.
  function Call(s: State, first: Action, second: Action, copy: Action, n: nat, last: Action): State
    requires |s.buf| > 0
  {
    Step(Iterate(Step(Step(s, first), second), copy, n), last)
  }

  function WriteCall(s: State, data: seq<byte>, n: nat): State
    requires |s.buf| > 0
  {
    Call(s, StartWrite(data), LoadTail, CopyIn, n, PublishHead)
  }

  function ReadCall(s: State, want: nat, n: nat): State
    requires |s.buf| > 0
  {
    Call(s, StartRead(want), LoadHead, CopyOut, n, PublishTail)
  }

  lemma {:induction false} RunAppend(s: State, xs: seq<Action>, z: Action)
    requires |s.buf| > 0
    ensures Run(s, xs + [z]) == Step(Run(s, xs), z)
    decreases |xs|
  {
    var ys := xs + [z];
    if xs == [] {
      assert ys[1..] == [];
    } else {
      assert ys[0] == xs[0] && ys[1..] == xs[1..] + [z];
      RunAppend(Step(s, xs[0]), xs[1..], z);
    }
  }

  // Some run leads from s to t.
  ghost predicate Reaches(s: State, t: State)
    requires |s.buf| > 0
  {
    exists xs :: Run(s, xs) == t
  }

  lemma ReachesStep(s: State, t: State, a: Action)
    requires |s.buf| > 0 && Reaches(s, t)
    ensures |t.buf| > 0 && Reaches(s, Step(t, a))
  {
    hide Step;
    var xs :| Run(s, xs) == t;
    RunAppend(s, xs, a);
  }

  lemma {:induction false} ReachesIterate(s: State, t: State, a: Action, n: nat)
    requires |s.buf| > 0 && Reaches(s, t)
    ensures |t.buf| > 0 && Reaches(s, Iterate(t, a, n))
    decreases n
  {
    hide Step, Reaches;
    ReachesStep(s, t, a);
    if n > 0 {
      ReachesIterate(s, Step(t, a), a, n - 1);
    }
  }

  /** An uninterrupted call is one of the runs the safety theorems speak of. */
  lemma CallIsRun(s: State, first: Action, second: Action, copy: Action, n: nat, last: Action)
    requires |s.buf| > 0
    ensures Reaches(s, Call(s, first, second, copy, n, last))
  {
    assert Run(s, []) == s;
    assert Reaches(s, s);
    hide Step, Reaches, Iterate;
    ReachesStep(s, s, first);
    ReachesStep(s, Step(s, first), second);
    var s2 := Step(Step(s, first), second);
    ReachesIterate(s, s2, copy, n);
    ReachesStep(s, Iterate(s2, copy, n), last);
  }

  lemma CallInv(s: State, first: Action, second: Action, copy: Action, n: nat, last: Action)
    requires Inv(s)
    ensures Inv(Call(s, first, second, copy, n, last))
  {
    CallIsRun(s, first, second, copy, n, last);
    hide Call, Inv;
    var t := Call(s, first, second, copy, n, last);
    var xs :| Run(s, xs) == t;
    RunInv(s, xs);
  }

  // Every cell except those of the bytes numbered lo up to hi is the same in both buffers.
  ghost predicate SameOutside(a: seq<byte>, b: seq<byte>, lo: nat, hi: nat)
    requires |a| == |b| > 0
  {
    forall c: nat :: c < |a| && c !in Cells(lo, hi, |a|) ==> a[c] == b[c]
  }

  lemma CopyInFrame(s: State)
    requires Inv(s) && s.p.PCopying? && s.p.k < s.p.n
    ensures
      var t := Step(s, CopyIn);
      var lo := |s.produced|;
      && t == s.(buf := t.buf, p := s.p.(k := s.p.k + 1))
      && SameOutside(s.buf, t.buf, lo + s.p.k, lo + s.p.n)
  {
    hide Cell, TransferCell, IsPowerOfTwo;
    var lo := |s.produced|;
    TransferCellIsCell(s.p.w, lo, s.p.n, s.p.k, |s.buf|);
    assert Cell(lo + s.p.k, |s.buf|) in Cells(lo + s.p.k, lo + s.p.n, |s.buf|);
  }

  lemma SameOutsideTrans(a: seq<byte>, b: seq<byte>, c: seq<byte>, lo: nat, hi: nat)
    requires |a| == |b| == |c| > 0 && lo < hi
    requires SameOutside(a, b, lo, hi) && SameOutside(b, c, lo + 1, hi)
    ensures SameOutside(a, c, lo, hi)
  {
    assert Cells(lo + 1, hi, |a|) <= Cells(lo, hi, |a|);
  }

  lemma {:induction false} IterateCopyIn(s: State, m: nat)
    requires Inv(s) && s.p.PCopying? && s.p.k + m == s.p.n
    ensures
      var t := Iterate(s, CopyIn, m);
      && Inv(t)
      && t == s.(buf := t.buf, p := s.p.(k := s.p.n))
      && SameOutside(s.buf, t.buf, |s.produced| + s.p.k, |s.produced| + s.p.n)
    decreases m
  {
    hide Cell, TransferCell, IsPowerOfTwo;
    if m > 0 {
      var u := Step(s, CopyIn);
      CopyInInv(s);
      CopyInFrame(s);
      hide Inv, Step;
      IterateCopyIn(u, m - 1);
      var t := Iterate(u, CopyIn, m - 1);
      SameOutsideTrans(s.buf, u.buf, t.buf, |s.produced| + s.p.k, |s.produced| + s.p.n);
    }
  }

  lemma {:induction false} IterateCopyOut(s: State, m: nat)
    requires Inv(s) && s.c.CCopying? && |s.c.dst| + m == s.c.n
    ensures Iterate(s, CopyOut, m) == s.(c := s.c.(dst := s.produced[|s.taken|..|s.taken| + s.c.n]))
    decreases m
  {
    hide Cell, TransferCell, IsPowerOfTwo;
    if m > 0 {
      CopyOutInv(s);
      IterateCopyOut(Step(s, CopyOut), m - 1);
    }
  }

  lemma BeginWrite(s: State, data: seq<byte>)
    requires Inv(s) && s.p.PIdle?
    ensures
      var free := |s.buf| - (|s.produced| - |s.taken|);
      var t := Step(Step(s, StartWrite(data)), LoadTail);
      && Inv(t)
      && t == if free == 0 then s else s.(p := PCopying(data, s.head, Min(|data|, free), 0))
  {
    hide Cell, TransferCell, IsPowerOfTwo;
    StepInv(s, StartWrite(data));
    LoadTailInv(Step(s, StartWrite(data)));
    WrappingDistance(|s.produced|, |s.taken|, s.head, s.tail);
  }

  lemma EndWrite(s: State, t: State, data: seq<byte>, n: nat)
    requires |s.buf| == |t.buf| > 0 && s.p.PIdle? && n <= |data| && s.head < WORD
    requires
      || t == s.(buf := t.buf, p := PCopying(data, s.head, n, n))
      || (t == s && n == 0)
    ensures Step(t, PublishHead)
         == s.(buf := t.buf, head := (s.head + n) % WORD, produced := s.produced + data[..n])
  {
    if n == 0 { assert s.produced + data[..n] == s.produced; }
  }

  // The bytes of `data[..n]` sit in the cells from number lo on.
  ghost predicate Stored(buf: seq<byte>, lo: nat, data: seq<byte>, n: nat)
    requires |buf| > 0 && n <= |data|
  {
    forall i {:trigger data[i]} :: 0 <= i < n ==> buf[Cell(lo + i, |buf|)] == data[i]
  }

  /**
   * A whole write without interference: the largest prefix that fits is appended, and no cell
   * outside the region written changes.
   */
  lemma WriteCallEffect(s: State, data: seq<byte>)
    requires Inv(s) && s.p.PIdle?
    ensures
      var n := Min(|data|, |s.buf| - (|s.produced| - |s.taken|));
      var t := WriteCall(s, data, n);
      && |t.buf| == |s.buf|
      && t == s.(buf := t.buf, head := (s.head + n) % WORD, produced := s.produced + data[..n])
      && SameOutside(s.buf, t.buf, |s.produced|, |s.produced| + n)
      && Stored(t.buf, |s.produced|, data, n)
      && (n == 0 ==> t.buf == s.buf)
  {
    hide Cell, TransferCell, IsPowerOfTwo;
    var free := |s.buf| - (|s.produced| - |s.taken|);
    var n := Min(|data|, free);
    BeginWrite(s, data);
    if free == 0 {
      assert s.head < WORD;
      hide Step, Inv;
      EndWrite(s, s, data, n);
    } else {
      WriteCallEffectRoom(s, data, n);
    }
  }

  lemma WriteCallEffectRoom(s: State, data: seq<byte>, n: nat)
    requires Inv(s) && s.p.PIdle? && n == Min(|data|, |s.buf| - (|s.produced| - |s.taken|))
    requires |s.produced| - |s.taken| < |s.buf|
    ensures
      var t := WriteCall(s, data, n);
      && |t.buf| == |s.buf|
      && t == s.(buf := t.buf, head := (s.head + n) % WORD, produced := s.produced + data[..n])
      && SameOutside(s.buf, t.buf, |s.produced|, |s.produced| + n)
      && Stored(t.buf, |s.produced|, data, n)
      && (n == 0 ==> t.buf == s.buf)
  {
    hide Cell, TransferCell, IsPowerOfTwo, Step;
    var u := s.(p := PCopying(data, s.head, n, 0));
    BeginWrite(s, data);
    IterateCopyIn(u, n);
    var t := Iterate(u, CopyIn, n);
    assert Stored(t.buf, |s.produced|, data, n);
    hide Inv, SameOutside, Stored;
    EndWrite(s, t, data, n);
  }

  lemma BeginRead(s: State, want: nat)
    requires Inv(s) && s.c.CIdle?
    ensures
      var avail := |s.produced| - |s.taken|;
      var t := Step(Step(s, StartRead(want)), LoadHead);
      && Inv(t)
      && t == if avail == 0 then s else s.(c := CCopying(s.tail, Min(want, avail), []))
  {
    hide Cell, TransferCell, IsPowerOfTwo;
    StepInv(s, StartRead(want));
    LoadHeadInv(Step(s, StartRead(want)));
    WrappingDistance(|s.produced|, |s.taken|, s.head, s.tail);
  }

  lemma EndRead(s: State, t: State, n: nat, out: seq<byte>)
    requires |s.buf| > 0 && s.c.CIdle? && |out| == n && s.tail < WORD
    requires t == s.(c := CCopying(s.tail, n, out)) || (t == s && n == 0)
    ensures Step(t, PublishTail) == s.(tail := (s.tail + n) % WORD, taken := s.taken + out)
  {
    if n == 0 { assert s.taken + out == s.taken; }
  }

  // With nothing to read the call ends where it began.
  lemma EmptyReadEffect(s: State, want: nat)
    requires Inv(s) && s.c.CIdle? && |s.produced| == |s.taken|
    ensures ReadCall(s, want, 0) == s && s.tail == (s.tail + 0) % WORD
  {
    hide Step, Inv, Cell, TransferCell, IsPowerOfTwo;
    TailFits(s);
    BeginRead(s, want);
    EndRead(s, s, 0, []);
  }

  lemma TailFits(s: State)
    requires Inv(s)
    ensures |s.buf| > 0 && s.tail < WORD && |s.taken| <= |s.produced|
  {
  }

  lemma CopyingReadEffect(s: State, want: nat, n: nat)
    requires Inv(s) && s.c.CIdle? && |s.produced| > |s.taken| && n == Min(want, |s.produced| - |s.taken|)
    ensures
      var out := s.produced[|s.taken|..|s.taken| + n];
      ReadCall(s, want, n) == s.(tail := (s.tail + n) % WORD, taken := s.taken + out)
  {
    hide Step, Inv, Cell, TransferCell, IsPowerOfTwo, Iterate;
    TailFits(s);
    BeginRead(s, want);
    var out := s.produced[|s.taken|..|s.taken| + n];
    var u := s.(c := CCopying(s.tail, n, []));
    IterateCopyOut(u, n);
    EndRead(s, u.(c := CCopying(s.tail, n, out)), n, out);
  }

  /** A whole read without interference takes the oldest bytes, in order. */
  lemma ReadCallEffect(s: State, want: nat)
    requires Inv(s) && s.c.CIdle?
    ensures
      var n := Min(want, |s.produced| - |s.taken|);
      var out := s.produced[|s.taken|..|s.taken| + n];
      ReadCall(s, want, n) == s.(tail := (s.tail + n) % WORD, taken := s.taken + out)
  {
    hide ReadCall, Inv;
    TailFits(s);
    if |s.produced| == |s.taken| {
      EmptyReadEffect(s, want);
      assert s.taken + s.produced[|s.taken|..|s.taken|] == s.taken;
    } else {
      CopyingReadEffect(s, want, Min(want, |s.produced| - |s.taken|));
    }
  }

  // ------------------------------------------------------------- the code

  ghost predicate CopiedIn(before: seq<byte>, after: seq<byte>, w: nat, data: seq<byte>, n: nat)
    requires |before| == |after| > 0 && n <= |before| && n <= |data|
  {
    var wIdx := Cell(w, |after|);
    var first := Min(|after| - wIdx, n);
    forall c :: 0 <= c < |after| ==>
      after[c] == if c < n - first then data[first + c]
                  else if wIdx <= c < wIdx + first then data[c - wIdx] else before[c]
  }

  ghost predicate CopiedOut(buf: seq<byte>, out: seq<byte>, r: nat, n: nat)
    requires |buf| > 0 && |out| == n <= |buf|
  {
    var rIdx := Cell(r, |buf|);
    var first := Min(|buf| - rIdx, n);
    forall i :: 0 <= i < n ==> out[i] == if i < first then buf[rIdx + i] else buf[i - first]
  }

  class BufferQueue {
    const buf: array<byte>
    var writeHead: nat
    var readTail: nat
    // Histories, kept for the specification only.
    ghost var produced: seq<byte>
    ghost var taken: seq<byte>

    ghost function Abs(): State
      reads this, buf
    {
      State(buf[..], writeHead, readTail, PIdle, CIdle, produced, taken)
    }

    ghost predicate Valid()
      reads this, buf
    {
      Inv(Abs())
    }

    // The bytes waiting to be read.
    ghost function Contents(): seq<byte>
      requires Valid()
      reads this, buf
    {
      produced[|taken|..]
    }

    constructor (capacity: nat)
      requires Capacity(capacity)
      ensures Valid() && fresh(buf) && Abs() == Init(capacity)
    {
      InitInv(capacity);
      buf := new byte[capacity](i => 0);
      writeHead, readTail := 0, 0;
      produced, taken := [], [];
      new;
      assert buf[..] == Init(capacity).buf;
    }

    method Available() returns (n: nat)
      requires Valid()
      ensures n == |Contents()| <= buf.Length
    {
      n := WrappingSub(writeHead, readTail);
      WrappingDistance(|produced|, |taken|, writeHead, readTail);
    }

    method FreeSpace() returns (n: nat)
      requires Valid()
      ensures n == buf.Length - |Contents()|
    {
      var used := Available();
      n := buf.Length - used;
    }

    // The two block copies of `write`: up to the end of the buffer, then from its beginning.
    method CopyDataIn(w: nat, data: seq<byte>, n: nat)
      requires 0 < buf.Length && n <= buf.Length && n <= |data|
      modifies buf
      ensures CopiedIn(old(buf[..]), buf[..], w, data, n)
    {
      hide Cell;
      var wIdx := Cell(w, buf.Length);
      var first := Min(buf.Length - wIdx, n);
      forall i | 0 <= i < first {
        buf[wIdx + i] := data[i];
      }
      if first < n {
        forall i | 0 <= i < n - first {
          buf[i] := data[first + i];
        }
      }
    }

    // The two block copies of `read`.
    method CopyDataOut(r: nat, dst: array<byte>, n: nat)
      requires 0 < buf.Length && n <= buf.Length && n <= dst.Length && dst != buf
      modifies dst
      ensures CopiedOut(buf[..], dst[..n], r, n) && dst[n..] == old(dst[n..])
    {
      hide Cell;
      var rIdx := Cell(r, buf.Length);
      var first := Min(buf.Length - rIdx, n);
      forall i | 0 <= i < first {
        dst[i] := buf[rIdx + i];
      }
      if first < n {
        forall i | 0 <= i < n - first {
          dst[first + i] := buf[i];
        }
      }
    }

    method Write(data: seq<byte>) returns (n: nat)
      requires Valid()
      modifies this`writeHead, this`produced, buf
      ensures n == Min(|data|, buf.Length - |old(Contents())|)
      ensures Abs() == WriteCall(old(Abs()), data, n)
      ensures Valid() && Contents() == old(Contents()) + data[..n]
    {
      hide Call, Cell, TransferCell, CopiedIn, CopiedOut, IsPowerOfTwo, ProducerInv, ConsumerInv;
      hide SameOutside, Stored;
      ghost var s := Abs();
      WriteCallEffect(s, data);
      WrappingDistance(|produced|, |taken|, writeHead, readTail);
      var capacity := buf.Length;
      var w, r := writeHead, readTail;
      var used := WrappingSub(w, r);
      var free := capacity - used;
      n := Min(|data|, free);
      CallInv(s, StartWrite(data), LoadTail, CopyIn, n, PublishHead);
      if free == 0 {
        assert produced + data[..n] == produced;
        DropConcat(produced, data[..n], |taken|);
        return;
      }
      CopyDataIn(w, data, n);
      writeHead := (w + n) % WORD;
      produced := produced + data[..n];
      TransferIsRun(s.buf, WriteCall(s, data, n).buf, buf[..], |s.produced|, w, data, n);
      assert Abs() == WriteCall(s, data, n);
      DropConcat(s.produced, data[..n], |taken|);
    }

    method Read(dst: array<byte>) returns (n: nat)
      requires Valid() && dst != buf
      modifies this`readTail, this`taken, dst
      ensures n == Min(dst.Length, |old(Contents())|)
      ensures Abs() == ReadCall(old(Abs()), dst.Length, n)
      ensures dst[..n] == old(Contents())[..n] && dst[n..] == old(dst[n..])
      ensures Valid() && Contents() == old(Contents())[n..]
    {
      hide Call, Cell, TransferCell, CopiedIn, CopiedOut, IsPowerOfTwo;
      ghost var s := Abs();
      ReadCallEffect(s, dst.Length);
      WrappingDistance(|produced|, |taken|, writeHead, readTail);
      var capacity := buf.Length;
      var r, w := readTail, writeHead;
      var avail := WrappingSub(w, r);
      if avail == 0 {
        assert taken + produced[|taken|..|taken|] == taken;
        return 0;
      }
      n := Min(dst.Length, avail);
      CopyDataOut(r, dst, n);
      readTail := (r + n) % WORD;
      TransferIsContents(s, dst[..n], n);
      taken := taken + produced[|taken|..|taken| + n];
      CallInv(s, StartRead(dst.Length), LoadHead, CopyOut, n, PublishTail);
    }

    method ResetQueue()
      requires Valid()
      modifies this`readTail, this`taken
      ensures Abs() == Step(old(Abs()), Reset)
      ensures Valid() && Contents() == []
    {
      ghost var s := Abs();
      StepInv(s, Reset);
      readTail := writeHead;
      taken := produced;
    }
  }

  lemma DropConcat(a: seq<byte>, b: seq<byte>, k: nat)
    requires k <= |a|
    ensures (a + b)[k..] == a[k..] + b
  {
  }

  /** The two block copies of `read` deliver the oldest unread bytes. */
  lemma TransferIsContents(s: State, out: seq<byte>, n: nat)
    requires Inv(s) && |out| == n <= |s.produced| - |s.taken|
    requires CopiedOut(s.buf, out, s.tail, n)
    ensures out == s.produced[|s.taken|..|s.taken| + n]
  {
    hide Cell, IsPowerOfTwo;
    forall i | 0 <= i < n ensures out[i] == s.produced[|s.taken| + i] {
      TransferCellIsCell(s.tail, |s.taken|, n, i, |s.buf|);
    }
  }

  /** The two block copies of `write` fill the buffer as the byte-by-byte run does. */
  lemma TransferIsRun(before: seq<byte>, after: seq<byte>, b: seq<byte>,
                      lo: nat, w: nat, data: seq<byte>, n: nat)
    requires |b| == |before| == |after| > 0 && Capacity(|b|)
    requires w == lo % WORD && n <= |data| && n <= |b|
    requires SameOutside(before, after, lo, lo + n) && Stored(after, lo, data, n)
    requires CopiedIn(before, b, w, data, n)
    ensures b == after
  {
    forall c: nat | c < |b| ensures b[c] == after[c] {
      TransferIsRunAt(before, after, b, lo, w, data, n, c);
    }
  }

  lemma TransferIsRunAt(before: seq<byte>, after: seq<byte>, b: seq<byte>,
                        lo: nat, w: nat, data: seq<byte>, n: nat, c: nat)
    requires |b| == |before| == |after| > 0 && Capacity(|b|)
    requires w == lo % WORD && n <= |data| && n <= |b| && c < |b|
    requires SameOutside(before, after, lo, lo + n) && Stored(after, lo, data, n)
    requires
      var wIdx := Cell(w, |b|);
      var first := Min(|b| - wIdx, n);
      b[c] == if c < n - first then data[first + c]
              else if wIdx <= c < wIdx + first then data[c - wIdx] else before[c]
    ensures b[c] == after[c]
  {
    hide Cell, IsPowerOfTwo;
    var cap := |b|;
    var wIdx := Cell(w, cap);
    var first := Min(cap - wIdx, n);
    if c < n - first {
      TransferCellIsCell(w, lo, n, first + c, cap);
    } else if wIdx <= c < wIdx + first {
      TransferCellIsCell(w, lo, n, c - wIdx, cap);
    } else {
      forall i: nat | lo <= i < lo + n ensures Cell(i, cap) != c {
        TransferCellIsCell(w, lo, n, i - lo, cap);
      }
      assert c !in Cells(lo, lo + n, cap);
    }
  }
}
