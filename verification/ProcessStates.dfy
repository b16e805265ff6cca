/**
 * What every scheduler call does to every process, by process id: who has the turn afterwards, who is
 * ready, blocked or ended, and that a blocked process sleeps until it is woken.
 */
module ProcessStates {
  import opened Wrappers
  import opened Scheduler

  // The state of the process with this id, if there is one.
  function StateOf(procs: seq<Process>, pid: nat): Option<ProcState> {
    var i := Find(procs, pid);
    if i < |procs| then Some(procs[i].state) else None
  }

  // ------------------------------------------------------------- finding processes

  lemma {:induction false} SamePids(a: seq<Process>, b: seq<Process>, pid: nat)
    requires |a| == |b| && forall i :: 0 <= i < |a| ==> a[i].pid == b[i].pid
    ensures Find(a, pid) == Find(b, pid)
  {
    hide Find;
  }

  ghost predicate Distinct(procs: seq<Process>) {
    forall i, j :: 0 <= i < j < |procs| ==> procs[i].pid != procs[j].pid
  }

  lemma {:induction false} StateAt(procs: seq<Process>, i: nat)
    requires Distinct(procs) && i < |procs|
    ensures Find(procs, procs[i].pid) == i && StateOf(procs, procs[i].pid) == Some(procs[i].state)
  {
    hide Find;
    var k := Find(procs, procs[i].pid);
  }

  // ------------------------------------------------------------- single changes

  lemma SetStateOf(procs: seq<Process>, p: nat, st: ProcState, pid: nat)
    ensures StateOf(SetState(procs, p, st), pid)
      == if pid == p && StateOf(procs, p).Some? then Some(st) else StateOf(procs, pid)
  {
    hide Find;
    SamePids(procs, SetState(procs, p, st), pid);
  }

  lemma UnblockOf(procs: seq<Process>, p: nat, pid: nat)
    ensures StateOf(UnblockIn(procs, p), pid)
      == if pid == p && StateOf(procs, p) == Some(Blocked) then Some(Ready) else StateOf(procs, pid)
  {
    hide Find;
    SamePids(procs, UnblockIn(procs, p), pid);
  }

  lemma {:induction false} UnblockAllOf(procs: seq<Process>, pids: seq<nat>, pid: nat)
    ensures StateOf(UnblockAll(procs, pids), pid)
      == if pid in pids && StateOf(procs, pid) == Some(Blocked) then Some(Ready) else StateOf(procs, pid)
    decreases |pids|
  {
    hide StateOf, UnblockIn;
    if pids != [] {
      UnblockOf(procs, pids[0], pid);
      UnblockAllOf(UnblockIn(procs, pids[0]), pids[1..], pid);
    }
  }

  /** `unblock_process` makes a blocked process with this id ready; it touches nothing else. */
  lemma UnblockStates(s: State, p: nat, pid: nat)
    ensures
      var t := Step(s, DoUnblock(p));
      && t.index == s.index && t.current == s.current
      && StateOf(t.procs, pid)
        == if pid == p && StateOf(s.procs, p) == Some(Blocked) then Some(Ready) else StateOf(s.procs, pid)
  {
    hide StateOf, UnblockIn;
    UnblockOf(s.procs, p, pid);
  }

  // ------------------------------------------------------------- scheduling

  // How many steps the round takes from one position to another, a full round for the position itself.
  function Steps(from: nat, to: nat, n: nat): int {
    if to > from then to - from else to + n - from
  }

  /**
   * Round robin: the turn goes to the nearest ready process in the round, the current one coming last,
   * and to the first process named idle when none is ready.
   */
  lemma TurnGoesToNearest(s: State, k: nat)
    requires s.index < |s.procs|
    ensures
      var t := ScheduleNext(s);
      && t.index < |s.procs| == |t.procs| && t.current == s.procs[t.index].pid
      && (k < |s.procs| && s.procs[k].state.Ready? ==>
          && s.procs[t.index].state.Ready?
          && Steps(s.index, t.index, |s.procs|) <= Steps(s.index, k, |s.procs|))
      && ((forall i :: 0 <= i < |s.procs| ==> !s.procs[i].state.Ready?) ==>
          t.index == if FirstIdle(s.procs) < |s.procs| then FirstIdle(s.procs) else s.index)
  {
    hide FirstReady, FirstIdle;
  }

  // Only the process that had the turn and the one that gets it can change state.
  lemma ScheduleOf(s: State, pid: nat)
    requires s.procs != [] && Distinct(s.procs)
    ensures
      var t, cur := ScheduleNext(s), Clamped(s);
      && t.index < |t.procs| == |s.procs| && t.procs[t.index].pid == s.procs[t.index].pid == t.current
      && StateOf(t.procs, pid) ==
        if t.index == cur then StateOf(s.procs, pid)
        else if pid == t.current then Some(Running)
        else if pid == s.procs[cur].pid && s.procs[cur].state.Running? then Some(Ready)
        else StateOf(s.procs, pid)
  {
    hide Find, Target;
    var t, cur := ScheduleNext(s), Clamped(s);
    SamePids(s.procs, t.procs, pid);
    StateAt(s.procs, cur);
    StateAt(s.procs, t.index);
  }

  // Whoever gets the turn was ready, or had it already.
  lemma ChosenWasReady(s: State)
    requires Shape(s) && OthersWait(s)
    ensures
      var t := ScheduleNext(s);
      t.index < |s.procs| && (t.index == s.index || s.procs[t.index].state.Ready?)
  {
    hide FirstReady;
    IdleIsFirst(s.procs);
  }

  lemma ShapeDistinct(s: State)
    requires Shape(s)
    ensures s.procs != [] && Distinct(s.procs) && Clamped(s) == s.index
    ensures StateOf(s.procs, s.current) == Some(s.procs[s.index].state)
  {
    hide Find, StateOf;
    StateAt(s.procs, s.index);
  }

  /** Scheduling and yielding: the old process is ready, the chosen one runs, nobody else notices. */
  lemma ScheduleStates(s: State, pid: nat)
    requires Inv(s)
    ensures
      var t := ScheduleNext(s);
      && Yield(s) == t
      && StateOf(t.procs, pid) ==
        if pid == t.current then Some(Running)
        else if pid == s.current then Some(Ready)
        else StateOf(s.procs, pid)
  {
    hide Find, StateOf, ScheduleNext;
    ShapeDistinct(s);
    ScheduleOf(s, pid);
    var t := ScheduleNext(s);
    if t.index == s.index { assert t.current == s.current; } else { assert s.procs[t.index].pid != s.current; }
  }

  /** Blocking: the old process is blocked, another one runs, nobody else notices. */
  lemma BlockStates(s: State, pid: nat)
    requires Inv(s) && s.index != 0
    ensures
      var t := BlockCurrent(s);
      && t.current != s.current && StateOf(s.procs, t.current) == Some(Ready)
      && StateOf(t.procs, pid) ==
        if pid == s.current then Some(Blocked)
        else if pid == t.current then Some(Running)
        else StateOf(s.procs, pid)
  {
    hide Find, StateOf, ScheduleNext, Target;
    ShapeDistinct(s);
    FindCurrent(s);
    var m := s.(procs := SetState(s.procs, s.current, Blocked));
    ChosenOther(s, m);
    SetStateOf(s.procs, s.current, Blocked, pid);
    ScheduleOf(m, pid);
    var t := ScheduleNext(m);
    StateAt(s.procs, t.index);
  }

  // With idle waiting in front, the turn leaves a process that is not ready.
  lemma ChosenOther(s: State, m: State)
    requires Inv(s) && s.index != 0 && m.index == s.index && m.current == s.current && m.nextPid == s.nextPid
    requires |m.procs| == |s.procs| && !m.procs[s.index].state.Ready?
    requires forall i :: 0 <= i < |s.procs| && i != s.index ==> m.procs[i] == s.procs[i]
    requires m.procs[s.index].pid == s.procs[s.index].pid
    ensures Distinct(m.procs)
    ensures ScheduleNext(m).index != s.index && s.procs[ScheduleNext(m).index].state.Ready?
  {
    hide FirstReady;
  }

  // ------------------------------------------------------------- ending

  // The process exists and is not spared.
  predicate Ends(s: State, p: nat) {
    Find(s.procs, p) < |s.procs| && !s.procs[Find(s.procs, p)].idle
  }

  predicate IsParent(s: State, pid: nat, child: nat) {
    Find(s.procs, child) < |s.procs| && s.procs[Find(s.procs, child)].parent == Some(pid)
  }

  // Who is woken when p ends.
  predicate WokenBy(s: State, p: nat, waiters: seq<nat>, pid: nat) {
    (Ends(s, p) && pid in waiters) || IsParent(s, pid, p)
  }

  // The states between ending a process and scheduling away from it.
  lemma EndingStates(s: State, p: nat, waiters: seq<nat>, pid: nat)
    ensures
      var t := Ending(s, p, waiters);
      && t.index == s.index && t.current == s.current && |t.procs| == |s.procs|
      && StateOf(t.procs, pid) ==
        if pid == p && Ends(s, p) then Some(Terminated)
        else if WokenBy(s, p, waiters, pid) && StateOf(s.procs, pid) == Some(Blocked) then Some(Ready)
        else StateOf(s.procs, pid)
  {
    hide Find, StateOf, UnblockAll, UnblockIn, SetState;
    var ended := s.procs;
    if Ends(s, p) {
      SetStateOf(s.procs, p, Terminated, pid);
      assert StateOf(s.procs, p).Some? by { EndsExists(s, p); }
      var marked := SetState(s.procs, p, Terminated);
      UnblockAllOf(marked, waiters, pid);
      ended := UnblockAll(marked, waiters);
    }
    ParentKept(s, p, waiters);
    var i := Find(ended, p);
    if i < |ended| && ended[i].parent.Some? { UnblockOf(ended, ended[i].parent.value, pid); }
  }

  lemma EndsExists(s: State, p: nat)
    requires Ends(s, p)
    ensures StateOf(s.procs, p).Some?
  {
  }

  // Marking and waking leave ids and parents alone.
  lemma {:induction false} ParentKept(s: State, p: nat, waiters: seq<nat>)
    ensures
      var ended := if Ends(s, p) then UnblockAll(SetState(s.procs, p, Terminated), waiters) else s.procs;
      && |ended| == |s.procs| && Find(ended, p) == Find(s.procs, p)
      && (Find(ended, p) < |ended| ==> ended[Find(ended, p)].parent == s.procs[Find(s.procs, p)].parent)
  {
    hide Find, UnblockAll;
    if Ends(s, p) {
      var marked := SetState(s.procs, p, Terminated);
      UnblockAllWakes(marked, waiters);
      SamePids(s.procs, UnblockAll(marked, waiters), p);
    }
  }

  /**
   * Terminating: the process has ended unless it is named idle, the waiters it releases and its parent
   * are ready if they were blocked, and if it had the turn the turn goes on; nobody else notices.
   */
  lemma TerminateStates(s: State, p: nat, waiters: seq<nat>, pid: nat)
    requires Inv(s)
    ensures
      var t := Terminate(s, p, waiters);
      && (s.current != p ==> t.current == s.current)
      && StateOf(t.procs, pid) ==
        if pid == t.current then Some(Running)
        else if pid == p && Ends(s, p) then Some(Terminated)
        else if pid == p && s.current == p then Some(Ready)
        else if WokenBy(s, p, waiters, pid) && StateOf(s.procs, pid) == Some(Blocked) then Some(Ready)
        else StateOf(s.procs, pid)
    ensures Ends(s, p) && s.current == p ==> Terminate(s, p, waiters).current != p
  {
    hide Find, StateOf, Ending, ScheduleNext, WokenBy, Ends;
    ShapeDistinct(s);
    EndingInv(s, p, waiters);
    EndingStates(s, p, waiters, pid);
    EndingStates(s, p, waiters, s.current);
    var e := Ending(s, p, waiters);
    if s.current == p {
      LeavingShape(e);
      ShapeDistinct(e);
      ScheduleOf(e, pid);
      if Ends(s, p) { LeavesEnded(e); }
    }
  }

  lemma LeavingShape(e: State)
    requires Leaving(e)
    ensures Shape(e) && OthersWait(e)
  {
  }

  lemma LeavesEnded(e: State)
    requires Leaving(e) && StateOf(e.procs, e.current) == Some(Terminated)
    ensures ScheduleNext(e).index != e.index && ScheduleNext(e).current != e.current
  {
    ShapeDistinct(e);
    ScheduleOf(e, e.current);
    hide FirstReady, StateOf, Find;
    IdleIsFirst(e.procs);
    assert e.index != 0;
  }

  // ------------------------------------------------------------- creating and faults

  /** Creating adds one ready process under a new id while there is room, and changes no other. */
  lemma CreateStates(s: State, idle: bool, parent: Option<nat>, pid: nat)
    requires Safe(s)
    ensures
      var t := Create(s, idle, parent);
      && t.index == s.index && t.current == s.current && t.nextPid == s.nextPid + 1
      && StateOf(t.procs, pid) ==
        (if pid == s.nextPid && |s.procs| < MAX_PROCESSES then Some(Ready) else StateOf(s.procs, pid))
      && (|s.procs| < MAX_PROCESSES ==>
          t.procs == s.procs + [Process(s.nextPid, idle, Ready, parent)])
  {
    hide Find;
    var t := Create(s, idle, parent);
    if |s.procs| < MAX_PROCESSES {
      FindAppended(s.procs, Process(s.nextPid, idle, Ready, parent), pid);
    }
  }

  lemma {:induction false} FindAppended(procs: seq<Process>, p: Process, pid: nat)
    requires Find(procs, p.pid) == |procs|
    ensures Find(procs + [p], pid) ==
      if pid == p.pid then |procs| else if Find(procs, pid) < |procs| then Find(procs, pid) else |procs| + 1
  {
    hide Find;
    var all := procs + [p];
    assert all[|procs|] == p && forall i :: 0 <= i < |procs| ==> all[i] == procs[i];
  }

  /**
   * Adding a process of its own making: refused exactly when the table is full; otherwise it is the last
   * of the list and the only one with its id, and all processes with other ids are still there.
   */
  lemma AddMeans(procs: seq<Process>, p: Process, q: Process)
    requires Distinct(procs)
    ensures AddIn(procs, p).None? <==> |procs| >= MAX_PROCESSES
    ensures AddIn(procs, p).Some? ==>
      var r := AddIn(procs, p).value;
      && Distinct(r) && r != [] && r[|r| - 1] == p
      && |r| == |procs| + (if StateOf(procs, p.pid).Some? then 0 else 1)
      && (q in r <==> q == p || (q in procs && q.pid != p.pid))
  {
    hide Find;
    var i, n := Find(procs, p.pid), |procs| - 1;
    if |procs| < MAX_PROCESSES && i < |procs| {
      var cut := SwapRemove(procs, i);
      assert forall k :: 0 <= k < n ==> cut[k] == procs[if k == i then n else k];
      if q in procs && q.pid != p.pid {
        var k :| 0 <= k < |procs| && procs[k] == q;
        assert cut[if k == n then i else k] == q;
      }
    }
  }

  lemma {:induction false} SurvivorsOf(procs: seq<Process>, pid: nat)
    requires Distinct(procs)
    ensures StateOf(Survivors(procs), pid)
      == if StateOf(procs, pid) == Some(Terminated) then None else StateOf(procs, pid)
    decreases |procs|
  {
    if procs != [] {
      SurvivorsOf(procs[1..], pid);
      var p, rest := procs[0], procs[1..];
      assert procs == [p] + rest;
      StateInFront(p, rest, pid);
      if p.state.Terminated? {
        assert Survivors(procs) == Survivors(rest);
        if p.pid == pid { NotAmong(rest, pid); }
      } else {
        assert Survivors(procs) == [p] + Survivors(rest);
        StateInFront(p, Survivors(rest), pid);
      }
    }
  }

  lemma StateInFront(p: Process, rest: seq<Process>, pid: nat)
    ensures StateOf([p] + rest, pid) == if p.pid == pid then Some(p.state) else StateOf(rest, pid)
  {
    assert ([p] + rest)[1..] == rest;
  }

  lemma NotAmong(procs: seq<Process>, pid: nat)
    requires forall i :: 0 <= i < |procs| ==> procs[i].pid != pid
    ensures StateOf(procs, pid) == None
  {
    hide Find;
  }

  /**
   * A fault: the process that had the turn and every ended one are gone, the turn is another's, and
   * everybody else is as before.
   */
  lemma FaultStates(s: State, pid: nat)
    requires Inv(s) && s.index != 0
    ensures
      var t := Fault(s);
      && t.current != s.current && StateOf(s.procs, t.current) == Some(Ready)
      && StateOf(t.procs, pid) ==
        if pid == s.current || StateOf(s.procs, pid) == Some(Terminated) then None
        else if pid == t.current then (if OthersSurvive(s) then Some(Running) else Some(Ready))
        else StateOf(s.procs, pid)
  {
    hide Find, StateOf, ScheduleNext, Survivors, OthersSurvive;
    ShapeDistinct(s);
    var a := AfterFault(s);
    FaultFaulted(s);
    FaultedCleanup(a);
    FaultRecoveryIff(s);
    SetStateOf(s.procs, s.current, Terminated, pid);
    SetStateOf(s.procs, s.current, Terminated, s.current);
    FaultedDistinct(a);
    SurvivorsOf(a.procs, pid);
    SurvivorsOf(a.procs, s.current);
    var c, t := Cleanup(a), Fault(s);
    ScheduleOf(c, pid);
    ScheduleOf(c, s.current);
    SafeCurrent(t);
    StateAt(c.procs, t.index);
    ChosenAmongReady(c);
    SurvivorsOf(a.procs, t.current);
    SetStateOf(s.procs, s.current, Terminated, t.current);
  }

  lemma ChosenAmongReady(c: State)
    requires c.procs != [] && c.procs[0].state.Ready?
    ensures ScheduleNext(c).index < |c.procs| && c.procs[ScheduleNext(c).index].state.Ready?
  {
    hide FirstReady;
  }

  lemma FaultedDistinct(a: State)
    requires Faulted(a)
    ensures Distinct(a.procs) && Distinct(Cleanup(a).procs)
  {
    hide Survivors;
    FaultedCleanup(a);
  }

  lemma SafeCurrent(t: State)
    requires Safe(t)
    ensures Inv(t) ==> StateOf(t.procs, t.current) == Some(Running)
    ensures !Inv(t) ==> StateOf(t.procs, t.current) == Some(Ready)
  {
    hide StateOf, Find;
    ShapeDistinct(t);
    assert Inv(t) ==> t.procs[t.index].state == Running;
    assert !Inv(t) ==> t.procs[t.index].state == Ready;
  }

  // ------------------------------------------------------------- sleeping

  // Not ready, not running, without the turn.
  ghost predicate Asleep(s: State, pid: nat) {
    var st := StateOf(s.procs, pid);
    && s.current != pid && pid < s.nextPid
    && st != Some(Ready) && st != Some(Running)
  }

  // The calls that may make this process ready.
  predicate Wakes(s: State, a: Action, pid: nat) {
    match a
    case DoUnblock(p) => p == pid
    case DoTerminate(p, waiters) => WokenBy(s, p, waiters, pid)
    case _ => false
  }

  // Asleep stays asleep, and blocked stays blocked unless it is ended.
  ghost predicate SleepsOn(s: State, t: State, pid: nat, ended: bool) {
    && Asleep(t, pid)
    && (StateOf(s.procs, pid) == Some(Blocked) && !ended ==> StateOf(t.procs, pid) == Some(Blocked))
  }

  lemma ScheduleSleeps(s: State, pid: nat)
    requires Shape(s) && OthersWait(s) && Asleep(s, pid)
    ensures SleepsOn(s, ScheduleNext(s), pid, false)
  {
    hide Find, StateOf, ScheduleNext;
    ShapeDistinct(s);
    ChosenWasReady(s);
    ScheduleOf(s, pid);
    var t := ScheduleNext(s);
    StateAt(s.procs, t.index);
    KeepsNextPid(s);
  }

  lemma KeepsNextPid(s: State)
    ensures ScheduleNext(s).nextPid == s.nextPid
  {
    hide Target;
  }

  lemma BlockSleeps(s: State, pid: nat)
    requires Inv(s) && s.index != 0 && Asleep(s, pid)
    ensures SleepsOn(s, BlockCurrent(s), pid, false)
  {
    hide Find, StateOf, ScheduleNext, SetState;
    BlockStates(s, pid);
    KeepsNextPid(s.(procs := SetState(s.procs, s.current, Blocked)));
  }

  lemma TerminateSleeps(s: State, p: nat, waiters: seq<nat>, pid: nat)
    requires Safe(s) && Asleep(s, pid) && !WokenBy(s, p, waiters, pid)
    ensures SleepsOn(s, Terminate(s, p, waiters), pid, p == pid)
  {
    hide Find, StateOf, ScheduleNext, WokenBy, Ends, UnblockAll, SetState, WakeParent;
    EndingStates(s, p, waiters, pid);
    EndingInv(s, p, waiters);
    var e := Ending(s, p, waiters);
    hide Ending;
    if s.current == p {
      if Resting(s) { RestingShape(e); } else { LeavingShape(e); }
      EndingKeeps(s, p, waiters);
      ScheduleSleeps(e, pid);
    } else {
      EndingKeeps(s, p, waiters);
    }
  }

  lemma EndingKeeps(s: State, p: nat, waiters: seq<nat>)
    ensures Ending(s, p, waiters).nextPid == s.nextPid
  {
  }

  lemma RestingShape(e: State)
    requires Resting(e)
    ensures Shape(e) && OthersWait(e)
  {
  }

  lemma FaultSleeps(s: State, pid: nat)
    requires Inv(s) && s.index != 0 && Asleep(s, pid)
    ensures SleepsOn(s, Fault(s), pid, false)
  {
    hide Find, StateOf, ScheduleNext, SetState, Survivors, OthersSurvive;
    FaultStates(s, pid);
    FaultInv(s);
    SafeCurrent(Fault(s));
    KeepsNextPid(Cleanup(s.(procs := SetState(s.procs, s.current, Terminated))));
  }

  lemma StepSleeps(s: State, a: Action, pid: nat)
    requires Safe(s) && Allowed(s, a) && Asleep(s, pid) && !Wakes(s, a, pid)
    ensures SleepsOn(s, Step(s, a), pid, a.DoTerminate? && a.pid == pid)
  {
    hide StateOf, ScheduleNext, Create, BlockCurrent, Terminate, Fault, UnblockIn, WokenBy;
    if Resting(s) { RestingShape(s); }
    match a
    case DoCreate(idle, parent) => CreateStates(s, idle, parent, pid);
    case DoSchedule => ScheduleSleeps(s, pid);
    case DoYield => ScheduleSleeps(s, pid);
    case DoBlock => BlockSleeps(s, pid);
    case DoUnblock(p) => UnblockStates(s, p, pid);
    case DoTerminate(p, waiters) => TerminateSleeps(s, p, waiters, pid);
    case DoFault => FaultSleeps(s, pid);
  }

  // No call of the run wakes the process.
  ghost predicate Undisturbed(s: State, actions: seq<Action>, pid: nat)
    decreases |actions|
  {
    actions == [] || (!Wakes(s, actions[0], pid) && Undisturbed(Step(s, actions[0]), actions[1..], pid))
  }

  predicate Ended(actions: seq<Action>, pid: nat) {
    exists i :: 0 <= i < |actions| && actions[i].DoTerminate? && actions[i].pid == pid
  }

  lemma {:induction false} SleepsThroughout(s: State, actions: seq<Action>, pid: nat)
    requires Safe(s) && IsRun(s, actions) && Asleep(s, pid) && Undisturbed(s, actions, pid)
    ensures SleepsOn(s, Run(s, actions), pid, Ended(actions, pid))
    decreases |actions|
  {
    hide Step, Safe, StateOf, Wakes, Allowed;
    if actions != [] {
      StepInv(s, actions[0]);
      StepSleeps(s, actions[0], pid);
      SleepsThroughout(Step(s, actions[0]), actions[1..], pid);
      if Ended(actions[1..], pid) {
        var i :| 0 <= i < |actions[1..]| && actions[1..][i].DoTerminate? && actions[1..][i].pid == pid;
        assert actions[i + 1].DoTerminate? && actions[i + 1].pid == pid;
      }
    }
  }

  /**
   * Over every run: a process that blocks is blocked, and from then on it is neither ready nor running
   * nor has the turn, whatever else is scheduled, created, blocked, ended or faults, until its id is
   * unblocked or a process ends that lists it as waiter or parent. Unless it is ended it stays blocked.
   */
  lemma {:induction false} BlockedUntilWoken(before: seq<Action>, actions: seq<Action>)
    requires IsRun(Init(), before) && Run(Init(), before).index != 0
    requires
      var s := Run(Init(), before);
      IsRun(BlockCurrent(s), actions) && Undisturbed(BlockCurrent(s), actions, s.current)
    ensures
      var s := Run(Init(), before);
      var pid, t := s.current, Run(BlockCurrent(s), actions);
      && StateOf(BlockCurrent(s).procs, pid) == Some(Blocked)
      && t.current != pid && StateOf(t.procs, pid) != Some(Ready) && StateOf(t.procs, pid) != Some(Running)
      && (!Ended(actions, pid) ==> StateOf(t.procs, pid) == Some(Blocked))
  {
    hide Run, IsRun, StateOf, BlockCurrent, Undisturbed, Ended;
    RunInv(Init(), before);
    var s := Run(Init(), before);
    BlockStates(s, s.current);
    BlockInv(s);
    BlockKeeps(s);
    SleepsThroughout(BlockCurrent(s), actions, s.current);
  }

  lemma BlockKeeps(s: State)
    requires Inv(s)
    ensures BlockCurrent(s).nextPid == s.nextPid && s.current < s.nextPid
  {
    hide ScheduleNext, SetState;
    KeepsNextPid(s.(procs := SetState(s.procs, s.current, Blocked)));
  }
}
