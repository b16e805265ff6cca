/**
 * `available` and `free_space` of the byte queue as what they are: two loads, first of the write
 * counter and then of the read counter, with steps of both sides in between and afterwards.
 */
module QueueObservers {
  import opened Arithmetic
  import opened SpscQueue

  // What `available` returns when the first load sees one state and the second load another.
  function Observed(first: State, second: State): nat {
    WrappingSub(first.head, second.tail)
  }

  // No step of the run moves the read counter, or the write counter.
  ghost predicate NoTaking(actions: seq<Action>) {
    forall i :: 0 <= i < |actions| ==> !actions[i].PublishTail? && !actions[i].Reset?
  }

  ghost predicate NoProducing(actions: seq<Action>) {
    forall i :: 0 <= i < |actions| ==> !actions[i].PublishHead?
  }

  lemma StepGrows(s: State, a: Action)
    requires Inv(s)
    ensures s.produced <= Step(s, a).produced && s.taken <= Step(s, a).taken
    ensures !a.PublishTail? && !a.Reset? ==> Step(s, a).taken == s.taken
    ensures !a.PublishHead? ==> Step(s, a).produced == s.produced
  {
    hide Cell, IsPowerOfTwo, TransferCell, WrappingSub;
  }

  lemma {:induction false} RunGrows(s: State, actions: seq<Action>)
    requires Inv(s)
    ensures
      var t := Run(s, actions);
      && Inv(t) && |t.buf| == |s.buf|
      && |s.produced| <= |t.produced| && |s.taken| <= |t.taken|
      && (NoTaking(actions) ==> t.taken == s.taken)
      && (NoProducing(actions) ==> t.produced == s.produced)
    decreases |actions|
  {
    hide Inv, Step;
    RunInv(s, actions);
    if actions != [] {
      assert |s.buf| > 0 by { InvSize(s); }
      StepGrows(s, actions[0]);
      StepInv(s, actions[0]);
      RunGrows(Step(s, actions[0]), actions[1..]);
    }
  }

  lemma InvSize(s: State)
    requires Inv(s)
    ensures |s.buf| > 0
  {
  }

  lemma CountersOf(s: State)
    requires Inv(s)
    ensures s.head == |s.produced| % WORD && s.tail == |s.taken| % WORD
    ensures |s.taken| <= |s.produced| <= |s.taken| + |s.buf| && |s.buf| < WORD
  {
  }

  /**
   * Called by the consumer, which does not read in the meantime: the value is what was unread at the
   * first load, and at least as many bytes are unread ever after, until it reads.
   */
  lemma {:induction false} ConsumerMayTrust(s: State, between: seq<Action>, later: seq<Action>)
    requires Inv(s) && NoTaking(between) && NoTaking(later)
    ensures
      var second := Run(s, between);
      && |second.buf| > 0
      && var end := Run(second, later);
      && Observed(s, second) == |s.produced| - |s.taken|
      && Observed(s, second) <= |end.produced| - |end.taken|
  {
    hide Inv, Run, NoTaking, WrappingSub;
    InvSize(s);
    RunGrows(s, between);
    var second := Run(s, between);
    InvSize(second);
    RunGrows(second, later);
    CountersOf(s);
    CountersOf(second);
    WrappingDistance(|s.produced|, |second.taken|, s.head, second.tail);
  }

  /**
   * Called by the producer, which does not write in the meantime: `free_space` promises no more room
   * than there is at the second load and ever after, until it writes.
   */
  lemma {:induction false} ProducerMayTrust(s: State, between: seq<Action>, later: seq<Action>)
    requires Inv(s) && NoProducing(between) && NoProducing(later)
    ensures
      var second := Run(s, between);
      && |second.buf| > 0
      && var end := Run(second, later);
      && Observed(s, second) == |second.produced| - |second.taken|
      && 0 <= |s.buf| - Observed(s, second) <= |end.buf| - (|end.produced| - |end.taken|)
  {
    hide Inv, Run, NoProducing, WrappingSub;
    InvSize(s);
    RunGrows(s, between);
    var second := Run(s, between);
    InvSize(second);
    RunGrows(second, later);
    CountersOf(s);
    CountersOf(second);
    WrappingDistance(|s.produced|, |second.taken|, s.head, second.tail);
  }

  /**
   * Called by anybody: the value is the difference of the two counts modulo 2^64. While fewer than
   * 2^64 less the capacity bytes overtake it, it is at most the capacity exactly when no byte written
   * after the first load has been read before the second.
   */
  lemma {:induction false} AnybodySees(s: State, between: seq<Action>)
    requires Inv(s)
    ensures
      var second := Run(s, between);
      && Observed(s, second) == (|s.produced| - |second.taken|) % WORD
      && (|second.taken| <= |s.produced| ==> Observed(s, second) <= |s.buf|)
      && (0 < |second.taken| - |s.produced| < WORD - |s.buf| ==> Observed(s, second) > |s.buf|)
  {
    hide Inv, Run;
    InvSize(s);
    RunGrows(s, between);
    var second := Run(s, between);
    CountersOf(s);
    CountersOf(second);
    ModSub(|s.produced|, |second.taken|);
  }

  lemma ModSub(a: nat, b: nat)
    ensures (a % WORD - b % WORD) % WORD == (a - b) % WORD
  {
    var qa, qb := a / WORD, b / WORD;
    assert a - b == (a % WORD - b % WORD) + (qa - qb) * WORD;
    ModShift(a % WORD - b % WORD, qa - qb, WORD);
  }

  /**
   * And otherwise it can be nonsense: one byte written and read between the two loads makes an empty
   * queue report 2^64 - 1 unread bytes.
   */
  lemma AnybodyCanSeeNonsense(capacity: nat, b: byte) returns (second: State)
    requires Capacity(capacity) && capacity > 0
    ensures Reaches(Init(capacity), second)
    ensures second.taken == second.produced == [b] && Observed(Init(capacity), second) == WORD - 1
  {
    hide Inv, Call, Capacity;
    var s := Init(capacity);
    InitInv(capacity);
    CountersOf(s);
    WriteCallEffect(s, [b]);
    var mid := WriteCall(s, [b], 1);
    CallIsRun(s, StartWrite([b]), LoadTail, CopyIn, 1, PublishHead);
    CallInv(s, StartWrite([b]), LoadTail, CopyIn, 1, PublishHead);
    assert [b][..1] == [b];
    assert mid.produced == [b] && mid.taken == [] && mid.head == 1;
    ReadCallEffect(mid, 1);
    second := ReadCall(mid, 1, 1);
    CallIsRun(mid, StartRead(1), LoadHead, CopyOut, 1, PublishTail);
    assert second.taken == [b] && second.tail == 1;
    ReachesTrans(s, mid, second);
  }

  lemma ReachesTrans(s: State, t: State, u: State)
    requires |s.buf| > 0 && |t.buf| > 0 && Reaches(s, t) && Reaches(t, u)
    ensures Reaches(s, u)
  {
    hide Step;
    var xs :| Run(s, xs) == t;
    var ys :| Run(t, ys) == u;
    RunConcat(s, xs, ys);
  }

  lemma {:induction false} RunConcat(s: State, xs: seq<Action>, ys: seq<Action>)
    requires |s.buf| > 0
    ensures |Run(s, xs).buf| > 0 && Run(s, xs + ys) == Run(Run(s, xs), ys)
    decreases |xs|
  {
    hide Step;
    if xs == [] {
      assert xs + ys == ys;
    } else {
      assert (xs + ys)[1..] == xs[1..] + ys;
      StepSize(s, xs[0]);
      RunConcat(Step(s, xs[0]), xs[1..], ys);
    }
  }

  lemma StepSize(s: State, a: Action)
    requires |s.buf| > 0
    ensures |Step(s, a).buf| == |s.buf|
  {
    hide Cell, TransferCell, WrappingSub;
  }
}
