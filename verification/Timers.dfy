/** The timer queue: one-shot and repeating timers in a heap ordered by (deadline, id). */
module Timers {
  import opened Arithmetic
  import opened Wrappers

  // Tick counts are u64.
  const MAX: nat := WORD - 1

  datatype Mode = OneShot | Repeating(interval: nat)
  datatype Policy = FixedRate | FixedDelay
  datatype Timer = Timer(deadline: nat, id: nat, mode: Mode, policy: Policy, missed: nat, cap: nat)
  datatype RegisterResult = Registered(id: nat) | ZeroInterval

  predicate WellFormed(t: Timer) {
    t.deadline <= MAX && t.cap <= MAX && (t.mode.Repeating? ==> 0 < t.mode.interval <= MAX)
  }

  ghost predicate AllWellFormed(timers: multiset<Timer>) {
    forall t :: t in timers ==> WellFormed(t)
  }

  // The heap's order, earliest first.
  predicate Le(a: Timer, b: Timer) {
    a.deadline < b.deadline || (a.deadline == b.deadline && a.id <= b.id)
  }

  // The whole intervals that have passed since the deadline.
  function Passed(d: nat, i: nat, now: nat): nat
    requires i > 0 && d <= now
  {
    (now - d) / i
  }

  // Interval boundaries reached since the deadline, the deadline included.
  function Missed(t: Timer, now: nat): nat
    requires t.mode.Repeating? && t.mode.interval > 0 && t.deadline <= now
  {
    SaturatingAdd(Passed(t.deadline, t.mode.interval, now), 1)
  }

  function Rescheduled(t: Timer, now: nat): Timer
    requires t.mode.Repeating? && t.mode.interval > 0 && t.deadline <= now
  {
    var next := match t.policy
      case FixedRate => SaturatingAdd(t.deadline, SaturatingMul(t.mode.interval, Missed(t, now)))
      case FixedDelay => SaturatingAdd(now, t.mode.interval);
    t.(deadline := next, missed := 0)
  }

  predicate CanPop(timers: multiset<Timer>, now: nat, t: Timer) {
    t.deadline <= now && IsFirst(timers, t)
  }

  // The heap after popping t.
  function After(timers: multiset<Timer>, now: nat, t: Timer): multiset<Timer>
    requires t.deadline <= now && WellFormed(t)
  {
    timers - multiset{t} + if t.mode.Repeating? then multiset{Rescheduled(t, now)} else multiset{}
  }

  // The timer as handed to the caller.
  function Popped(t: Timer, now: nat): Timer
    requires t.deadline <= now && WellFormed(t)
  {
    if t.mode.Repeating? then t.(missed := Min(Missed(t, now), t.cap)) else t
  }

  predicate IsFirst(timers: multiset<Timer>, t: Timer) {
    t in timers && forall u :: u in timers ==> Le(t, u)
  }

  lemma {:induction false} MinimumExists(timers: multiset<Timer>)
    requires timers != multiset{}
    ensures exists t :: IsFirst(timers, t)
    decreases |timers|
  {
    var t :| t in timers;
    var rest := timers - multiset{t};
    if rest == multiset{} {
      SplitOff(timers, t);
      assert IsFirst(timers, t);
    } else {
      MinimumExists(rest);
      var m :| IsFirst(rest, m);
      FirstOfBoth(timers, t, m);
    }
  }

  lemma SplitOff(timers: multiset<Timer>, t: Timer)
    requires t in timers
    ensures forall u :: u in timers <==> u == t || u in timers - multiset{t}
  {
  }

  lemma FirstOfBoth(timers: multiset<Timer>, t: Timer, m: Timer)
    requires t in timers && IsFirst(timers - multiset{t}, m)
    ensures exists u :: IsFirst(timers, u)
  {
    SplitOff(timers, t);
    assert IsFirst(timers, if Le(t, m) then t else m);
  }

  // ------------------------------------------------------------- the code

  class ChronoLine {
    var timers: multiset<Timer>
    var now: nat
    var maxCatchUp: nat

    ghost predicate Valid()
      reads this
    {
      AllWellFormed(timers) && now <= MAX && maxCatchUp <= MAX
    }

    constructor ()
      ensures Valid() && timers == multiset{} && now == 0 && maxCatchUp == MAX
    {
      timers, now, maxCatchUp := multiset{}, 0, MAX;
    }

    method RegisterWithModeAndPolicy(deadline: nat, id: nat, mode: Mode, policy: Policy) returns (r: RegisterResult)
      requires Valid() && deadline <= MAX && (mode.Repeating? ==> mode.interval <= MAX)
      modifies this`timers
      ensures Valid()
      ensures r == if mode == Repeating(0) then ZeroInterval else Registered(id)
      ensures timers == if mode == Repeating(0) then old(timers)
                        else old(timers) + multiset{Timer(deadline, id, mode, policy, 0, maxCatchUp)}
    {
      if mode.Repeating? && mode.interval == 0 { return ZeroInterval; }
      timers := timers + multiset{Timer(deadline, id, mode, policy, 0, maxCatchUp)};
      return Registered(id);
    }

    // The clock never goes back.
    method Tick(to: nat)
      requires Valid() && to <= MAX
      modifies this`now
      ensures Valid() && now == Max(old(now), to)
    {
      now := if now >= to then now else to;
    }

    method HasExpired() returns (b: bool)
      ensures b <==> exists t :: t in timers && t.deadline <= now
    {
      if timers == multiset{} { return false; }
      MinimumExists(timers);
      var first :| IsFirst(timers, first);
      b := first.deadline <= now;
    }

    method PopExpired() returns (r: Option<Timer>)
      requires Valid()
      modifies this`timers
      ensures Valid()
      ensures r.None? <==> forall t :: t in old(timers) ==> t.deadline > now
      ensures r.None? ==> timers == old(timers)
      ensures r.Some? ==> exists t ::
        && CanPop(old(timers), now, t) && WellFormed(t)
        && r.value == Popped(t, now) && timers == After(old(timers), now, t)
      ensures r.Some? ==> forall u :: u in old(timers) ==>
        r.value.deadline < u.deadline || (r.value.deadline == u.deadline && r.value.id <= u.id)
    {
      hide Rescheduled, Missed;
      var expired := HasExpired();
      if !expired { return None; }
      MinimumExists(timers);
      var t :| IsFirst(timers, t);
      ghost var before := timers;
      assert CanPop(before, now, t) && WellFormed(t);
      AfterWellFormed(before, now, t);
      hide AllWellFormed, CanPop;
      timers := timers - multiset{t};
      if t.mode.Repeating? {
        timers := timers + multiset{Rescheduled(t, now)};
      }
      assert timers == After(before, now, t);
      return Some(Popped(t, now));
    }

    method Cancel(id: nat) returns (removed: bool)
      requires Valid()
      modifies this`timers
      ensures Valid()
      ensures forall t :: timers[t] == if t.id == id then 0 else old(timers)[t]
      ensures removed <==> exists t :: t in old(timers) && t.id == id
    {
      var rest, kept: multiset<Timer> := timers, multiset{};
      removed := false;
      while rest != multiset{}
        invariant rest <= timers
        invariant forall t :: kept[t] == if t.id == id then 0 else timers[t] - rest[t]
        invariant removed <==> exists t :: t in timers - rest && t.id == id
        decreases |rest|
      {
        var t :| t in rest;
        ghost var before := rest;
        rest := rest - multiset{t};
        if t.id != id { kept := kept + multiset{t}; } else { removed := true; }
        assert t in timers - rest;
        assert forall u :: u in timers - rest ==> u == t || u in timers - before;
      }
      timers := kept;
      assert forall t :: t in kept ==> t in old(timers);
    }
  }

  // ------------------------------------------------------------- rescheduling

  // The k-th point of the grid that starts at d with period i.
  function Phase(d: nat, i: nat, k: nat): nat {
    d + k * i
  }

  lemma PhaseAscends(d: nat, i: nat, j: nat, k: nat)
    requires j <= k
    ensures Phase(d, i, j) <= Phase(d, i, k)
    ensures Phase(d, i, 0) == d && Phase(d, i, k + 1) == Phase(d, i, k) + i
  {
    MulLe(j, k, i);
    MulSuccessor(k, i);
  }

  lemma LastPhase(d: nat, i: nat, now: nat)
    requires i > 0 && d <= now
    ensures var k := Passed(d, i, now); Phase(d, i, k) <= now < Phase(d, i, k + 1) && k <= now - d
  {
    var k := (now - d) / i;
    assert now - d == k * i + (now - d) % i;
    MulSuccessor(k, i);
    MulLe(1, i, k);
  }

  lemma MissedIsExact(t: Timer, now: nat)
    requires WellFormed(t) && t.mode.Repeating? && t.deadline <= now <= MAX
    ensures var k := Passed(t.deadline, t.mode.interval, now);
            Missed(t, now) == if k < MAX then k + 1 else MAX
    ensures Passed(t.deadline, t.mode.interval, now) >= MAX ==> now == MAX
  {
    LastPhase(t.deadline, t.mode.interval, now);
  }

  lemma SaturatedProduct(i: nat, m: nat, k: nat)
    requires i > 0 && m == if k < MAX then k + 1 else MAX
    ensures SaturatingMul(i, m) == Min((k + 1) * i, MAX)
  {
    if k < MAX {
      assert i * m == (k + 1) * i;
    } else {
      MulLe(1, i, MAX);
      MulLe(MAX, k + 1, i);
    }
  }

  lemma RateDeadline(t: Timer, now: nat)
    requires WellFormed(t) && t.mode.Repeating? && t.policy.FixedRate? && t.deadline <= now <= MAX
    ensures
      var k := Passed(t.deadline, t.mode.interval, now);
      Rescheduled(t, now).deadline == Min(Phase(t.deadline, t.mode.interval, k + 1), MAX)
  {
    hide Missed, SaturatingMul, Passed;
    var i := t.mode.interval;
    var k := Passed(t.deadline, i, now);
    MissedIsExact(t, now);
    SaturatedProduct(i, Missed(t, now), k);
  }

  // No phase after now comes before the next one.
  lemma NextPhaseLeast(d: nat, i: nat, now: nat, k: nat, j: nat)
    requires Phase(d, i, k) <= now < Phase(d, i, j)
    ensures j >= k + 1
  {
    hide Phase;
    if j <= k { PhaseAscends(d, i, j, k); }
  }

  /** A fixed-rate timer moves to the least point of its grid after now, or saturates. */
  lemma RateKeepsPhase(t: Timer, now: nat)
    requires WellFormed(t) && t.mode.Repeating? && t.policy.FixedRate? && t.deadline <= now <= MAX
    ensures
      var k := Passed(t.deadline, t.mode.interval, now);
      && Rescheduled(t, now).deadline == Min(Phase(t.deadline, t.mode.interval, k + 1), MAX)
      && Phase(t.deadline, t.mode.interval, k) <= now < Phase(t.deadline, t.mode.interval, k + 1)
      && (forall j: nat :: Phase(t.deadline, t.mode.interval, j) > now ==> j >= k + 1)
  {
    hide Phase, Rescheduled, Passed;
    var d, i := t.deadline, t.mode.interval;
    var k := Passed(d, i, now);
    LastPhase(d, i, now);
    RateDeadline(t, now);
    forall j: nat | Phase(d, i, j) > now ensures j >= k + 1 { NextPhaseLeast(d, i, now, k, j); }
  }

  /** A repeating timer that was due is rescheduled after now, unless now is the last tick. */
  lemma RescheduledAfterNow(t: Timer, now: nat)
    requires WellFormed(t) && t.mode.Repeating? && t.deadline <= now <= MAX
    ensures WellFormed(Rescheduled(t, now))
    ensures now < MAX ==> Rescheduled(t, now).deadline > now
  {
    hide Phase, Missed, SaturatingMul;
    if t.policy.FixedRate? { RateKeepsPhase(t, now); }
  }

  // ------------------------------------------------------------- draining

  // ts can be popped one after the other without the clock moving.
  ghost predicate Trace(timers: multiset<Timer>, now: nat, ts: seq<Timer>)
    decreases |ts|
  {
    ts == [] || (CanPop(timers, now, ts[0]) && WellFormed(ts[0]) && Trace(After(timers, now, ts[0]), now, ts[1..]))
  }

  ghost function Final(timers: multiset<Timer>, now: nat, ts: seq<Timer>): multiset<Timer>
    requires Trace(timers, now, ts)
    decreases |ts|
  {
    if ts == [] then timers else Final(After(timers, now, ts[0]), now, ts[1..])
  }

  ghost predicate Drained(timers: multiset<Timer>, now: nat) {
    forall t :: t in timers ==> t.deadline > now
  }

  lemma AfterWellFormed(timers: multiset<Timer>, now: nat, t: Timer)
    requires AllWellFormed(timers) && CanPop(timers, now, t) && now <= MAX
    ensures AllWellFormed(After(timers, now, t))
  {
    if t.mode.Repeating? { RescheduledAfterNow(t, now); }
  }

  lemma AfterCounts(timers: multiset<Timer>, now: nat, t: Timer, u: Timer)
    requires AllWellFormed(timers) && CanPop(timers, now, t) && now < MAX && u.deadline <= now
    ensures After(timers, now, t)[u] + (if u == t then 1 else 0) == timers[u]
  {
    if t.mode.Repeating? { RescheduledAfterNow(t, now); }
  }

  /** Whatever has been popped so far was due at the start, each as often as it was there. */
  lemma {:induction false} TraceCounts(timers: multiset<Timer>, now: nat, ts: seq<Timer>, u: Timer)
    requires AllWellFormed(timers) && now < MAX && Trace(timers, now, ts)
    ensures u.deadline > now ==> multiset(ts)[u] == 0
    ensures u.deadline <= now ==> multiset(ts)[u] + Final(timers, now, ts)[u] == timers[u]
    decreases |ts|
  {
    if ts != [] {
      hide After;
      var t, rest := ts[0], ts[1..];
      AfterWellFormed(timers, now, t);
      TraceCounts(After(timers, now, t), now, rest, u);
      assert ts == [t] + rest;
      assert multiset(ts)[u] == (if u == t then 1 else 0) + multiset(rest)[u];
      if u.deadline <= now { AfterCounts(timers, now, t, u); }
    }
  }

  /** Timers come out in (deadline, id) order. */
  lemma {:induction false} TraceSorted(timers: multiset<Timer>, now: nat, ts: seq<Timer>)
    requires AllWellFormed(timers) && now < MAX && Trace(timers, now, ts)
    ensures forall i, j :: 0 <= i < j < |ts| ==>
      ts[i].deadline < ts[j].deadline || (ts[i].deadline == ts[j].deadline && ts[i].id <= ts[j].id)
    decreases |ts|
  {
    if ts != [] {
      hide After;
      var t, rest := ts[0], ts[1..];
      AfterWellFormed(timers, now, t);
      TraceSorted(After(timers, now, t), now, rest);
      forall i, j | 0 <= i < j < |ts| ensures Le(ts[i], ts[j]) {
        assert ts[j] == rest[j - 1];
        if i == 0 {
          assert ts[j] in multiset(ts);
          TraceCounts(timers, now, ts, ts[j]);
        } else {
          assert ts[i] == rest[i - 1];
        }
      }
    }
  }

  /**
   * Draining before the last tick: any sequence of pops that ends with nothing due has returned
   * exactly the timers due at the start, each once, in (deadline, id) order.
   */
  lemma {:induction false} DrainReturnsTheExpired(timers: multiset<Timer>, now: nat, ts: seq<Timer>)
    requires AllWellFormed(timers) && now < MAX && Trace(timers, now, ts)
    ensures |ts| <= |timers|
    ensures forall i, j :: 0 <= i < j < |ts| ==> Le(ts[i], ts[j])
    ensures Drained(Final(timers, now, ts), now) <==>
              forall t: Timer :: multiset(ts)[t] == if t.deadline <= now then timers[t] else 0
  {
    hide After, Trace, Final;
    TraceSorted(timers, now, ts);
    forall t: Timer
      ensures multiset(ts)[t] <= timers[t]
      ensures t.deadline > now ==> multiset(ts)[t] == 0
      ensures t.deadline <= now ==> multiset(ts)[t] + Final(timers, now, ts)[t] == timers[t]
    {
      TraceCounts(timers, now, ts, t);
    }
    SubmultisetSize(multiset(ts), timers);
    if Drained(Final(timers, now, ts), now) {
      forall t: Timer ensures multiset(ts)[t] == if t.deadline <= now then timers[t] else 0 {
      }
    }
  }

  lemma SubmultisetSize(a: multiset<Timer>, b: multiset<Timer>)
    requires a <= b
    ensures |a| <= |b|
  {
    assert b == a + (b - a);
  }

  /** As long as something is due, a pop succeeds. */
  lemma PopWhenDue(timers: multiset<Timer>, now: nat)
    requires !Drained(timers, now)
    ensures exists t :: CanPop(timers, now, t)
  {
    MinimumExists(timers);
    var t :| IsFirst(timers, t);
    assert CanPop(timers, now, t);
  }

  ghost predicate AnyRepeating(timers: multiset<Timer>) {
    exists t :: t in timers && t.mode.Repeating?
  }

  lemma DueAtLastTick(timers: multiset<Timer>)
    requires AllWellFormed(timers) && AnyRepeating(timers)
    ensures !Drained(timers, MAX)
  {
  }

  lemma StillRepeats(timers: multiset<Timer>, t: Timer)
    requires AllWellFormed(timers) && AnyRepeating(timers) && CanPop(timers, MAX, t)
    ensures AllWellFormed(After(timers, MAX, t)) && AnyRepeating(After(timers, MAX, t))
  {
    var r :| r in timers && r.mode.Repeating?;
    AfterWellFormed(timers, MAX, t);
    var w := if t.mode.Repeating? then Rescheduled(t, MAX) else r;
    assert w in After(timers, MAX, t) && w.mode.Repeating?;
  }

  lemma {:induction false} TraceCons(timers: multiset<Timer>, t: Timer, ts: seq<Timer>)
    requires CanPop(timers, MAX, t) && WellFormed(t) && Trace(After(timers, MAX, t), MAX, ts)
    ensures Trace(timers, MAX, [t] + ts)
  {
    hide After, CanPop, WellFormed;
    assert ([t] + ts)[1..] == ts;
  }

  lemma {:induction false} PopsForever(timers: multiset<Timer>, n: nat)
    requires AllWellFormed(timers) && AnyRepeating(timers)
    ensures exists ts :: |ts| == n && Trace(timers, MAX, ts)
    decreases n
  {
    if n == 0 {
      assert Trace(timers, MAX, []);
    } else {
      hide After, AnyRepeating, CanPop, IsFirst, Trace;
      DueAtLastTick(timers);
      PopWhenDue(timers, MAX);
      var t :| CanPop(timers, MAX, t);
      var next := After(timers, MAX, t);
      StillRepeats(timers, t);
      PopsForever(next, n - 1);
      var ts :| |ts| == n - 1 && Trace(next, MAX, ts);
      TraceCons(timers, t, ts);
      assert |[t] + ts| == n;
    }
  }

  lemma {:induction false} OneShotsRunOut(timers: multiset<Timer>, now: nat, ts: seq<Timer>)
    requires !AnyRepeating(timers) && Trace(timers, now, ts)
    ensures |ts| <= |timers|
    decreases |ts|
  {
    if ts != [] {
      assert After(timers, now, ts[0]) == timers - multiset{ts[0]};
      OneShotsRunOut(After(timers, now, ts[0]), now, ts[1..]);
    }
  }

  ghost predicate TracesBounded(timers: multiset<Timer>, now: nat, bound: nat) {
    forall ts :: Trace(timers, now, ts) ==> |ts| <= bound
  }

  /**
   * Draining terminates exactly when the clock is not at its last tick or no repeating timer is
   * left: otherwise a rescheduled timer is due again at once.
   */
  lemma DrainTerminatesIff(timers: multiset<Timer>, now: nat)
    requires AllWellFormed(timers) && now <= MAX
    ensures (exists bound: nat :: TracesBounded(timers, now, bound))
       <==> now < MAX || !AnyRepeating(timers)
  {
    if now < MAX || !AnyRepeating(timers) {
      forall ts | Trace(timers, now, ts) ensures |ts| <= |timers| {
        if now < MAX { DrainReturnsTheExpired(timers, now, ts); } else { OneShotsRunOut(timers, now, ts); }
      }
      assert TracesBounded(timers, now, |timers|);
    } else {
      forall bound: nat ensures !TracesBounded(timers, now, bound) {
        PopsForever(timers, bound + 1);
      }
    }
  }

  // ------------------------------------------------------------- missed ticks over a run

  datatype Line = Line(timers: multiset<Timer>, now: nat)

  // `choice` is the timer the heap yields, `rest` what a cancellation leaves.
  datatype Event =
    | Tick(to: nat) | Register(timer: Timer) | Pop(choice: Timer)
    | Cancellation(id: nat, rest: multiset<Timer>)

  // All timers of one id are gone and no other is.
  ghost predicate Cancelled(timers: multiset<Timer>, id: nat, rest: multiset<Timer>) {
    forall t :: rest[t] == if t.id == id then 0 else timers[t]
  }

  ghost predicate Enabled(l: Line, e: Event) {
    match e
    case Tick(to) => to <= MAX
    case Register(t) => WellFormed(t)
    case Pop(t) => CanPop(l.timers, l.now, t) && WellFormed(t)
    case Cancellation(id, rest) => Cancelled(l.timers, id, rest)
  }

  ghost function Step(l: Line, e: Event): Line
    requires Enabled(l, e)
  {
    match e
    case Tick(to) => l.(now := Max(l.now, to))
    case Register(t) => l.(timers := l.timers + multiset{t})
    case Pop(t) => l.(timers := After(l.timers, l.now, t))
    case Cancellation(_, rest) => l.(timers := rest)
  }

  ghost predicate IsRun(l: Line, es: seq<Event>)
    decreases |es|
  {
    es == [] || (Enabled(l, es[0]) && IsRun(Step(l, es[0]), es[1..]))
  }

  ghost function End(l: Line, es: seq<Event>): Line
    requires IsRun(l, es)
    decreases |es|
  {
    if es == [] then l else End(Step(l, es[0]), es[1..])
  }

  // The uncapped missed counts reported for timer `id` over the run.
  ghost function TotalMissed(l: Line, es: seq<Event>, id: nat): nat
    requires IsRun(l, es)
    decreases |es|
  {
    if es == [] then 0
    else
      (if es[0].Pop? && es[0].choice.id == id && es[0].choice.mode.Repeating?
       then Missed(es[0].choice, l.now) else 0)
      + TotalMissed(Step(l, es[0]), es[1..], id)
  }

  // Nothing is registered or cancelled under the id.
  ghost predicate LeavesAlone(e: Event, id: nat) {
    (e.Register? ==> e.timer.id != id) && (e.Cancellation? ==> e.id != id)
  }

  ghost predicate Undisturbed(es: seq<Event>, id: nat) {
    forall k :: 0 <= k < |es| ==> LeavesAlone(es[k], id)
  }

  // The fixed-rate timer `t` is the only one with its id.
  ghost predicate Watches(l: Line, t: Timer) {
    && AllWellFormed(l.timers) && l.now <= MAX
    && t in l.timers && t.mode.Repeating? && t.policy.FixedRate?
    && l.timers[t] == 1
    && (forall u :: u in l.timers && u.id == t.id ==> u == t)
  }

  ghost function PhasePoints(d: nat, i: nat, now: nat): set<nat> {
    set k: nat | k <= now && Phase(d, i, k) <= now
  }

  lemma {:induction false} NowGrows(l: Line, es: seq<Event>)
    requires IsRun(l, es)
    ensures End(l, es).now >= l.now
    decreases |es|
  {
    if es != [] { NowGrows(Step(l, es[0]), es[1..]); }
  }

  lemma PhaseOfPhase(d: nat, i: nat, a: nat, b: nat)
    ensures Phase(Phase(d, i, a), i, b) == Phase(d, i, a + b)
  {
    assert (a + b) * i == a * i + b * i;
  }

  // The watched timer after one event.
  ghost function Watched(l: Line, e: Event, t: Timer): Timer
    requires Enabled(l, e)
  {
    if e.Pop? && e.choice.id == t.id && e.choice.mode.Repeating? then Rescheduled(e.choice, l.now) else t
  }

  lemma StepKeepsWatching(l: Line, e: Event, t: Timer)
    requires Watches(l, t) && Enabled(l, e) && LeavesAlone(e, t.id)
    ensures Watches(Step(l, e), Watched(l, e, t))
    ensures e.Pop? && e.choice.id == t.id ==> e.choice == t && t.deadline <= l.now && WellFormed(t)
  {
    hide Missed, SaturatingMul, SaturatingAdd;
    match e
    case Tick(_) =>
    case Register(_) =>
    case Pop(c) => PopKeepsWatching(l, c, t);
    case Cancellation(_, rest) => assert forall u :: u in rest ==> u in l.timers;
  }

  lemma PopKeepsWatching(l: Line, c: Timer, t: Timer)
    requires Watches(l, t) && Enabled(l, Pop(c))
    ensures Watches(Step(l, Pop(c)), Watched(l, Pop(c), t))
    ensures c.id == t.id ==> c == t
  {
    AfterWellFormed(l.timers, l.now, c);
    if c.mode.Repeating? { RescheduledKeepsIdentity(c, l.now); }
    hide Rescheduled, IsFirst, AllWellFormed;
  }

  /** Popping moves the watched timer along its grid by exactly the missed count, up to the last tick. */
  lemma PopAdvancesPhase(t: Timer, now: nat)
    requires WellFormed(t) && t.mode.Repeating? && t.policy.FixedRate? && t.deadline <= now < MAX
    ensures
      var m := Missed(t, now);
      && m > 0
      && Rescheduled(t, now).deadline == Min(Phase(t.deadline, t.mode.interval, m), MAX)
      && Phase(t.deadline, t.mode.interval, m - 1) <= now
  {
    hide Phase, Missed, SaturatingMul;
    RateKeepsPhase(t, now);
    MissedIsExact(t, now);
  }

  /**
   * Over every run that ends before the last tick a fixed-rate timer stays on its grid, as many
   * points on as the missed counts add up to, or waits at the last tick.
   */
  lemma {:induction false} RunKeepsPhase(l: Line, es: seq<Event>, t: Timer) returns (u: Timer)
    requires Watches(l, t) && IsRun(l, es) && Undisturbed(es, t.id)
    requires End(l, es).now < MAX
    ensures
      var total := TotalMissed(l, es, t.id);
      && Watches(End(l, es), u) && u.id == t.id
      && u.deadline == Min(Phase(t.deadline, t.mode.interval, total), MAX)
      && (total > 0 ==> Phase(t.deadline, t.mode.interval, total - 1) <= End(l, es).now)
    decreases |es|
  {
    hide Phase, Missed, Rescheduled, CanPop, After;
    var i := t.mode.interval;
    if es == [] {
      u := t;
      PhaseAscends(t.deadline, i, 0, 0);
      assert WellFormed(t);
    } else {
      var e, next, rest := es[0], Step(l, es[0]), es[1..];
      StepKeepsWatching(l, e, t);
      NowGrows(l, es);
      assert Undisturbed(rest, t.id);
      var t1 := Watched(l, e, t);
      hide Watches, Undisturbed, AllWellFormed;
      if e.Pop? && e.choice.id == t.id {
        RescheduledKeepsIdentity(t, l.now);
        PopAdvancesPhase(t, l.now);
        u := RunKeepsPhase(next, rest, t1);
        ChainPhases(t.deadline, i, Missed(t, l.now), TotalMissed(next, rest, t.id), l.now, End(next, rest).now);
      } else {
        u := RunKeepsPhase(next, rest, t1);
      }
    }
  }

  // A timer that waits at the last tick is not popped before it.
  lemma ChainPhases(d: nat, i: nat, m: nat, rest: nat, now: nat, later: nat)
    requires m > 0 && now <= later < MAX && Phase(d, i, m - 1) <= now
    requires rest > 0 ==> Phase(Min(Phase(d, i, m), MAX), i, rest - 1) <= later
    ensures Min(Phase(Min(Phase(d, i, m), MAX), i, rest), MAX) == Min(Phase(d, i, m + rest), MAX)
    ensures Phase(d, i, m + rest - 1) <= later
  {
    hide Phase;
    var e := Min(Phase(d, i, m), MAX);
    PhaseAscends(e, i, 0, if rest > 0 then rest - 1 else 0);
    PhaseOfPhase(d, i, m, rest);
    if rest > 0 { PhaseOfPhase(d, i, m, rest - 1); }
  }

  lemma RescheduledKeepsIdentity(t: Timer, now: nat)
    requires t.mode.Repeating? && t.mode.interval > 0 && t.deadline <= now
    ensures var r := Rescheduled(t, now); r.id == t.id && r.mode == t.mode && r.policy == t.policy
  {
  }

  ghost function UpTo(n: nat): (s: set<nat>)
    ensures |s| == n && forall k: nat :: k in s <==> k < n
  {
    if n == 0 then {} else UpTo(n - 1) + {n - 1}
  }

  lemma CountPhasePoints(d: nat, i: nat, now: nat, total: nat)
    requires i > 0 && Phase(d, i, total) > now
    requires total > 0 ==> Phase(d, i, total - 1) <= now
    ensures |PhasePoints(d, i, now)| == total
  {
    forall k: nat ensures k in PhasePoints(d, i, now) <==> k < total {
      if k < total { PhaseAscends(d, i, k, total - 1); MulLe(1, i, k); } else { PhaseAscends(d, i, total, k); }
    }
    assert PhasePoints(d, i, now) == UpTo(total);
  }

  lemma {:induction false} RunKeepsWatching(l: Line, es: seq<Event>, t: Timer) returns (u: Timer)
    requires Watches(l, t) && IsRun(l, es) && Undisturbed(es, t.id)
    ensures Watches(End(l, es), u)
    decreases |es|
  {
    hide Missed, Rescheduled, CanPop, After, AllWellFormed;
    if es == [] {
      u := t;
    } else {
      StepKeepsWatching(l, es[0], t);
      if es[0].Pop? && es[0].choice.id == t.id { RescheduledKeepsIdentity(t, l.now); }
      hide Watches;
      u := RunKeepsWatching(Step(l, es[0]), es[1..], Watched(l, es[0], t));
    }
  }

  /**
   * Over every run with a clock that does not go back: when nothing is due at the end, the
   * uncapped missed counts reported for a fixed-rate timer add up to the number of points of its
   * grid that have passed.
   */
  lemma {:induction false} MissedCountsAddUp(l: Line, es: seq<Event>, t: Timer)
    requires Watches(l, t) && IsRun(l, es) && Undisturbed(es, t.id)
    requires Drained(End(l, es).timers, End(l, es).now)
    ensures TotalMissed(l, es, t.id) == |PhasePoints(t.deadline, t.mode.interval, End(l, es).now)|
  {
    hide Phase, IsRun, End, TotalMissed;
    var w := RunKeepsWatching(l, es, t);
    assert WellFormed(w);
    var u := RunKeepsPhase(l, es, t);
    CountPhasePoints(t.deadline, t.mode.interval, End(l, es).now, TotalMissed(l, es, t.id));
  }

  // ------------------------------------------------------------- what a pop hands out and leaves

  lemma PointsPassed(d: nat, i: nat, now: nat)
    requires i > 0 && d <= now
    ensures |PhasePoints(d, i, now)| == Passed(d, i, now) + 1
  {
    hide Phase, Passed;
    LastPhase(d, i, now);
    CountPhasePoints(d, i, now, Passed(d, i, now) + 1);
  }

  /**
   * The timer handed to the caller is the one that was due; a repeating one reports how many points of
   * its grid have been reached, the deadline included, up to its cap.
   */
  lemma PoppedReports(t: Timer, now: nat)
    requires WellFormed(t) && t.deadline <= now <= MAX
    ensures t.mode.OneShot? ==> Popped(t, now) == t
    ensures t.mode.Repeating? ==>
      var points := |PhasePoints(t.deadline, t.mode.interval, now)|;
      Popped(t, now) == Timer(t.deadline, t.id, t.mode, t.policy, if points < t.cap then points else t.cap, t.cap)
  {
    hide Missed, PhasePoints, Passed;
    if t.mode.Repeating? {
      MissedIsExact(t, now);
      PointsPassed(t.deadline, t.mode.interval, now);
    }
  }

  /**
   * The timer left in the queue is the same with nothing missed; a fixed-rate one is due at the least
   * point of its grid after now, a fixed-delay one an interval after now, or at the last tick.
   */
  lemma LeftInQueue(t: Timer, now: nat)
    requires WellFormed(t) && t.mode.Repeating? && t.deadline <= now <= MAX
    ensures
      var r := Rescheduled(t, now);
      && r == Timer(r.deadline, t.id, t.mode, t.policy, 0, t.cap)
      && (t.policy.FixedDelay? ==>
          r.deadline == if now + t.mode.interval < MAX then now + t.mode.interval else MAX)
      && (t.policy.FixedRate? ==> exists k: nat ::
          && Phase(t.deadline, t.mode.interval, k) > now
          && (forall j: nat :: Phase(t.deadline, t.mode.interval, j) > now ==> j >= k)
          && r.deadline == Min(Phase(t.deadline, t.mode.interval, k), MAX))
  {
    hide Missed, SaturatingMul, Phase, Passed;
    if t.policy.FixedRate? {
      RateKeepsPhase(t, now);
      var k := Passed(t.deadline, t.mode.interval, now) + 1;
      assert Phase(t.deadline, t.mode.interval, k) > now;
    }
  }

  // The missed counts handed out for timer `id` over the run.
  ghost function TotalReported(l: Line, es: seq<Event>, id: nat): nat
    requires IsRun(l, es)
    decreases |es|
  {
    if es == [] then 0
    else
      (if es[0].Pop? && es[0].choice.id == id then Popped(es[0].choice, l.now).missed else 0)
      + TotalReported(Step(l, es[0]), es[1..], id)
  }

  lemma {:induction false} ReportedIsMissed(l: Line, es: seq<Event>, t: Timer)
    requires Watches(l, t) && IsRun(l, es) && Undisturbed(es, t.id) && t.cap == MAX
    ensures TotalReported(l, es, t.id) == TotalMissed(l, es, t.id)
    decreases |es|
  {
    hide Missed, Rescheduled, CanPop, After, AllWellFormed;
    if es != [] {
      StepKeepsWatching(l, es[0], t);
      assert Undisturbed(es[1..], t.id);
      if es[0].Pop? && es[0].choice.id == t.id {
        LeavesCap(t, l.now);
        UncappedReport(t, l.now);
      }
      hide Watches, Undisturbed, Popped;
      ReportedIsMissed(Step(l, es[0]), es[1..], Watched(l, es[0], t));
    }
  }

  lemma LeavesCap(t: Timer, now: nat)
    requires t.mode.Repeating? && t.mode.interval > 0 && t.deadline <= now
    ensures Rescheduled(t, now).cap == t.cap && Rescheduled(t, now).id == t.id
  {
  }

  lemma UncappedReport(t: Timer, now: nat)
    requires t.mode.Repeating? && t.deadline <= now && WellFormed(t) && t.cap == MAX
    ensures Popped(t, now).missed == Missed(t, now)
  {
  }

  /**
   * Over every run with a clock that does not go back: when nothing is due at the end, the missed counts
   * handed out for a fixed-rate timer without a cap add up to the points of its grid that have passed.
   */
  lemma {:induction false} ReportedCountsAddUp(l: Line, es: seq<Event>, t: Timer)
    requires Watches(l, t) && IsRun(l, es) && Undisturbed(es, t.id) && t.cap == MAX
    requires Drained(End(l, es).timers, End(l, es).now)
    ensures TotalReported(l, es, t.id) == |PhasePoints(t.deadline, t.mode.interval, End(l, es).now)|
  {
    hide IsRun, End, TotalMissed, TotalReported, PhasePoints, Watches, Undisturbed, Drained;
    ReportedIsMissed(l, es, t);
    MissedCountsAddUp(l, es, t);
  }
}
