/** The round-robin scheduler: a process list, the position running now, and its process id. */
module Scheduler {
  import opened Wrappers

  const MAX_PROCESSES: nat := 64

  datatype ProcState = Ready | Running | Blocked | Terminated

  // `idle` says the process is named "idle".
  datatype Process = Process(pid: nat, idle: bool, state: ProcState, parent: Option<nat>)

  datatype State = State(procs: seq<Process>, index: nat, current: nat, nextPid: nat)

  // ------------------------------------------------------------- searches

  // The least position from lo up to hi that is ready, or hi.
  function FirstReady(procs: seq<Process>, lo: nat, hi: nat): (i: nat)
    requires lo <= hi <= |procs|
    ensures lo <= i <= hi
    ensures i < hi ==> procs[i].state.Ready?
    ensures forall j :: lo <= j < i ==> !procs[j].state.Ready?
    decreases hi - lo
  {
    if lo == hi || procs[lo].state.Ready? then lo else FirstReady(procs, lo + 1, hi)
  }

  // The next ready position after `start`, going round once; `start` itself comes last.
  function NextReady(procs: seq<Process>, start: nat): (r: Option<nat>)
    requires start < |procs|
    ensures r.Some? ==> r.value < |procs| && procs[r.value].state.Ready?
    ensures r.None? ==> forall j :: 0 <= j < |procs| ==> !procs[j].state.Ready?
  {
    var i := FirstReady(procs, start + 1, |procs|);
    if i < |procs| then Some(i)
    else
      var j := FirstReady(procs, 0, start + 1);
      if j <= start then Some(j) else None
  }

  // Position of the first process named "idle", or the length.
  function FirstIdle(procs: seq<Process>): (i: nat)
    ensures i <= |procs|
    ensures i < |procs| ==> procs[i].idle
    ensures forall j :: 0 <= j < i ==> !procs[j].idle
  {
    if procs == [] || procs[0].idle then 0
    else
      var i := 1 + FirstIdle(procs[1..]);
      assert forall j :: 0 <= j < i ==> procs[j] == if j == 0 then procs[0] else procs[1..][j - 1];
      i
  }

  function Find(procs: seq<Process>, pid: nat): (i: nat)
    ensures i <= |procs|
    ensures i < |procs| ==> procs[i].pid == pid
    ensures forall j :: 0 <= j < i ==> procs[j].pid != pid
  {
    if procs == [] || procs[0].pid == pid then 0
    else
      var i := 1 + Find(procs[1..], pid);
      assert forall j :: 0 <= j < i ==> procs[j] == if j == 0 then procs[0] else procs[1..][j - 1];
      i
  }

  // ------------------------------------------------------------- operations

  // Where the scan of `schedule_next` ends: a ready process, the idle one, or where it began.
  function Target(procs: seq<Process>, start: nat): (t: nat)
    requires start < |procs|
    ensures t < |procs|
  {
    match NextReady(procs, start)
    case Some(i) => i
    case None => if FirstIdle(procs) < |procs| then FirstIdle(procs) else start
  }

  function Clamped(s: State): (i: nat)
    requires s.procs != []
    ensures i < |s.procs|
  {
    if s.index < |s.procs| then s.index else |s.procs| - 1
  }

  function ScheduleNext(s: State): State {
    if s.procs == [] then s
    else
      var cur := Clamped(s);
      var next := Target(s.procs, cur);
      var procs :=
        if cur == next then s.procs
        else
          var p := if s.procs[cur].state.Running? then s.procs[cur := s.procs[cur].(state := Ready)] else s.procs;
          p[next := p[next].(state := Running)];
      s.(procs := procs, index := next, current := procs[next].pid)
  }

  // `with_process` setting the state of the process with this id, if there is one.
  function SetState(procs: seq<Process>, pid: nat, st: ProcState): (r: seq<Process>)
    ensures |r| == |procs|
  {
    var i := Find(procs, pid);
    if i < |procs| then procs[i := procs[i].(state := st)] else procs
  }

  function UnblockIn(procs: seq<Process>, pid: nat): (r: seq<Process>)
    ensures |r| == |procs|
  {
    var i := Find(procs, pid);
    if i < |procs| && procs[i].state.Blocked? then procs[i := procs[i].(state := Ready)] else procs
  }

  function UnblockAll(procs: seq<Process>, pids: seq<nat>): (r: seq<Process>)
    ensures |r| == |procs|
    decreases |pids|
  {
    if pids == [] then procs else UnblockAll(UnblockIn(procs, pids[0]), pids[1..])
  }

  // `swap_remove`: the last element takes the place of the removed one.
  function SwapRemove(procs: seq<Process>, i: nat): seq<Process>
    requires i < |procs|
  {
    procs[i := procs[|procs| - 1]][..|procs| - 1]
  }

  function AddIn(procs: seq<Process>, p: Process): Option<seq<Process>> {
    if |procs| >= MAX_PROCESSES then None
    else
      var i := Find(procs, p.pid);
      Some((if i < |procs| then SwapRemove(procs, i) else procs) + [p])
  }

  // Allocating an id and adding a ready process.
  function Create(s: State, idle: bool, parent: Option<nat>): State {
    var s' := s.(nextPid := s.nextPid + 1);
    match AddIn(s.procs, Process(s.nextPid, idle, Ready, parent))
    case None => s'
    case Some(procs) => s'.(procs := procs)
  }

  function BlockCurrent(s: State): State {
    if s.current == 0 then s
    else ScheduleNext(s.(procs := SetState(s.procs, s.current, Blocked)))
  }

  function Yield(s: State): State {
    if s.current == 0 then s else ScheduleNext(s)
  }

  // The parent is woken when it is waiting.
  function WakeParent(procs: seq<Process>, child: nat): (r: seq<Process>)
    ensures |r| == |procs|
  {
    var i := Find(procs, child);
    if i < |procs| && procs[i].parent.Some? then UnblockIn(procs, procs[i].parent.value) else procs
  }

  // The process ended, waiters and parent woken. `waiters` are the ids released by the process's
  // resources. A process named "idle" is spared.
  function Ending(s: State, pid: nat, waiters: seq<nat>): State {
    var i := Find(s.procs, pid);
    var ended :=
      if i < |s.procs| && !s.procs[i].idle then UnblockAll(SetState(s.procs, pid, Terminated), waiters)
      else s.procs;
    s.(procs := WakeParent(ended, pid))
  }

  function Terminate(s: State, pid: nat, waiters: seq<nat>): State {
    var t := Ending(s, pid, waiters);
    if s.current == pid then ScheduleNext(t) else t
  }

  function Survivors(procs: seq<Process>): seq<Process> {
    if procs == [] then []
    else (if procs[0].state.Terminated? then [] else [procs[0]]) + Survivors(procs[1..])
  }

  function Cleanup(s: State): State {
    s.(procs := Survivors(s.procs))
  }

  // A processor exception in user mode: the current process is marked as ended, then the recovery
  // code removes the ended processes and schedules. Without a current process the machine halts.
  function Fault(s: State): State {
    if s.current == 0 then s
    else ScheduleNext(Cleanup(s.(procs := SetState(s.procs, s.current, Terminated))))
  }

  // ------------------------------------------------------------- runs

  datatype Action =
    | DoCreate(idle: bool, parent: Option<nat>)
    | DoSchedule
    | DoYield
    | DoBlock
    | DoUnblock(pid: nat)
    | DoTerminate(pid: nat, waiters: seq<nat>)
    | DoFault

  function Init(): State {
    State([Process(1, true, Running, None)], 0, 1, 2)
  }

  function Step(s: State, a: Action): State {
    match a
    case DoCreate(idle, parent) => Create(s, idle, parent)
    case DoSchedule => ScheduleNext(s)
    case DoYield => Yield(s)
    case DoBlock => BlockCurrent(s)
    case DoUnblock(pid) => s.(procs := UnblockIn(s.procs, pid))
    case DoTerminate(pid, waiters) => Terminate(s, pid, waiters)
    case DoFault => Fault(s)
  }

  // The idle process never blocks itself and, running in the kernel, never faults in user mode.
  predicate Allowed(s: State, a: Action) {
    a.DoBlock? || a.DoFault? ==> s.index != 0
  }

  // Calls of `schedule_next` made by a step.
  function Calls(s: State, a: Action): nat {
    match a
    case DoSchedule => 1
    case DoYield => if s.current == 0 then 0 else 1
    case DoBlock => if s.current == 0 then 0 else 1
    case DoTerminate(pid, _) => if s.current == pid then 1 else 0
    case DoFault => if s.current == 0 then 0 else 1
    case _ => 0
  }

  ghost predicate IsRun(s: State, actions: seq<Action>)
    decreases |actions|
  {
    actions == [] || (Allowed(s, actions[0]) && IsRun(Step(s, actions[0]), actions[1..]))
  }

  predicate NoFaults(actions: seq<Action>) {
    forall i :: 0 <= i < |actions| ==> !actions[i].DoFault?
  }

  function Run(s: State, actions: seq<Action>): State
    decreases |actions|
  {
    if actions == [] then s else Run(Step(s, actions[0]), actions[1..])
  }

  function TotalCalls(s: State, actions: seq<Action>): nat
    decreases |actions|
  {
    if actions == [] then 0 else Calls(s, actions[0]) + TotalCalls(Step(s, actions[0]), actions[1..])
  }

  // ------------------------------------------------------------- invariant

  ghost predicate Ids(s: State) {
    && (forall i :: 0 <= i < |s.procs| ==> 0 < s.procs[i].pid < s.nextPid)
    && (forall i, j :: 0 <= i < j < |s.procs| ==> s.procs[i].pid != s.procs[j].pid)
  }

  ghost predicate Shape(s: State) {
    && 0 < |s.procs| <= MAX_PROCESSES
    && s.index < |s.procs|
    && s.current == s.procs[s.index].pid
    && s.procs[0].idle
    && Ids(s)
  }

  // Nobody but the process at `index` runs; idle, in front, is ready or running there.
  ghost predicate OthersWait(s: State)
    requires s.procs != []
  {
    && (forall i :: 0 <= i < |s.procs| && i != s.index ==> !s.procs[i].state.Running?)
    && (s.index != 0 ==> s.procs[0].state.Ready?)
  }

  ghost predicate Inv(s: State) {
    Shape(s) && OthersWait(s) && s.procs[s.index].state.Running?
  }

  // Idle has the turn but is still marked ready: what a fault leaves when idle alone survives it.
  ghost predicate Resting(s: State) {
    Shape(s) && OthersWait(s) && s.index == 0 && s.procs[0].state.Ready?
  }

  ghost predicate Safe(s: State) {
    Inv(s) || Resting(s)
  }

  // In the middle of a step the current process may just have blocked or ended.
  ghost predicate Handover(s: State) {
    Shape(s) && OthersWait(s) && (s.index == 0 ==> s.procs[0].state.Running?)
    && !s.procs[s.index].state.Ready?
  }

  lemma {:induction false} IdleIsFirst(procs: seq<Process>)
    requires procs != [] && procs[0].idle
    ensures FirstIdle(procs) == 0
  {
  }

  /** Scheduling from a state with at most one running process leaves exactly one. */
  lemma ScheduleInv(s: State)
    requires Handover(s)
    ensures Inv(ScheduleNext(s))
  {
    hide FirstReady;
    IdleIsFirst(s.procs);
    var t := ScheduleNext(s);
    var next := Target(s.procs, s.index);
    assert next != s.index ==> s.procs[next].state.Ready?;
  }

  // A resting scheduler rests on until something else is ready.
  lemma ScheduleResting(s: State)
    requires Resting(s)
    ensures Safe(ScheduleNext(s))
  {
    hide FirstReady;
    var next := Target(s.procs, 0);
    assert s.procs[next].state.Ready?;
  }

  lemma FindCurrent(s: State)
    requires Shape(s)
    ensures Find(s.procs, s.current) == s.index
  {
    hide Find;
    var i := Find(s.procs, s.current);
  }

  // Only states differ, and only from blocked to ready.
  ghost predicate Woken(a: seq<Process>, b: seq<Process>) {
    && |a| == |b|
    && forall i :: 0 <= i < |a| ==> b[i] == a[i] || (a[i].state.Blocked? && b[i] == a[i].(state := Ready))
  }

  lemma {:induction false} UnblockAllWakes(procs: seq<Process>, pids: seq<nat>)
    ensures Woken(procs, UnblockAll(procs, pids))
    decreases |pids|
  {
    hide Find;
    if pids != [] { UnblockAllWakes(UnblockIn(procs, pids[0]), pids[1..]); }
  }

  lemma WokenInv(s: State, procs: seq<Process>)
    requires Woken(s.procs, procs)
    ensures Inv(s) ==> Inv(s.(procs := procs))
    ensures Resting(s) ==> Resting(s.(procs := procs))
    ensures Leaving(s) ==> Leaving(s.(procs := procs))
  {
  }

  lemma CreateInv(s: State, idle: bool, parent: Option<nat>)
    requires Safe(s)
    ensures Inv(s) ==> Inv(Create(s, idle, parent))
    ensures Safe(Create(s, idle, parent))
    ensures s.procs <= Create(s, idle, parent).procs && Create(s, idle, parent).index == s.index
  {
    hide Find;
  }

  lemma BlockInv(s: State)
    requires Inv(s) && s.index != 0
    ensures Inv(BlockCurrent(s))
  {
    hide ScheduleNext, Find;
    FindCurrent(s);
    ScheduleInv(s.(procs := SetState(s.procs, s.current, Blocked)));
  }

  // Ready to be scheduled away from: still running, or just ended.
  ghost predicate Leaving(s: State) {
    Handover(s) && (s.procs[s.index].state.Running? || s.procs[s.index].state.Terminated?)
  }

  lemma {:induction false} EndProcess(s: State, pid: nat)
    requires Safe(s) && Find(s.procs, pid) < |s.procs| && !s.procs[Find(s.procs, pid)].idle
    ensures
      var t := s.(procs := SetState(s.procs, pid, Terminated));
      if Resting(s) then Resting(t) else if pid == s.current then Leaving(t) else Inv(t)
  {
    hide Find;
    FindCurrent(s);
  }

  lemma EndingInv(s: State, pid: nat, waiters: seq<nat>)
    requires Safe(s)
    ensures
      var t := Ending(s, pid, waiters);
      if Resting(s) then Resting(t) else if pid == s.current then Leaving(t) else Inv(t)
  {
    hide Find, UnblockAll, SetState, WakeParent;
    var i := Find(s.procs, pid);
    var ended := s;
    if i < |s.procs| && !s.procs[i].idle {
      EndProcess(s, pid);
      ended := s.(procs := SetState(s.procs, pid, Terminated));
      UnblockAllWakes(ended.procs, waiters);
      WokenInv(ended, UnblockAll(ended.procs, waiters));
      ended := ended.(procs := UnblockAll(ended.procs, waiters));
    }
    WakeParentWakes(ended.procs, pid);
    WokenInv(ended, WakeParent(ended.procs, pid));
  }

  lemma TerminateInv(s: State, pid: nat, waiters: seq<nat>)
    requires Safe(s)
    ensures Inv(s) ==> Inv(Terminate(s, pid, waiters))
    ensures Safe(Terminate(s, pid, waiters))
  {
    hide ScheduleNext, Find, UnblockAll, SetState, WakeParent;
    EndingInv(s, pid, waiters);
    var t := Ending(s, pid, waiters);
    if s.current == pid {
      if Resting(s) { ScheduleResting(t); } else { ScheduleInv(t); }
    }
  }

  lemma WakeParentWakes(procs: seq<Process>, child: nat)
    ensures Woken(procs, WakeParent(procs, child))
  {
    hide Find;
  }

  lemma StepInv(s: State, a: Action)
    requires Safe(s) && Allowed(s, a)
    ensures Safe(Step(s, a))
    ensures Inv(s) && !a.DoFault? ==> Inv(Step(s, a))
  {
    hide ScheduleNext, Find, Create, BlockCurrent, Terminate, Fault;
    match a
    case DoCreate(idle, parent) => CreateInv(s, idle, parent);
    case DoSchedule => if Resting(s) { ScheduleResting(s); } else { ScheduleInv(s); }
    case DoYield => if Resting(s) { ScheduleResting(s); } else { ScheduleInv(s); }
    case DoBlock => BlockInv(s);
    case DoUnblock(pid) => WokenInv(s, UnblockIn(s.procs, pid));
    case DoTerminate(pid, waiters) => TerminateInv(s, pid, waiters);
    case DoFault => FaultInv(s);
  }

  lemma {:induction false} RunInv(s: State, actions: seq<Action>)
    requires Safe(s) && IsRun(s, actions)
    ensures Safe(Run(s, actions))
    ensures Inv(s) && NoFaults(actions) ==> Inv(Run(s, actions))
    decreases |actions|
  {
    hide Step, Inv, Resting;
    if actions != [] {
      StepInv(s, actions[0]);
      RunInv(Step(s, actions[0]), actions[1..]);
    }
  }

  /**
   * Over every run, faults and their recovery included: whoever runs is the process at
   * `schedule_index`, under the current id, and if nobody runs that process is idle, marked ready.
   * Over every run without faults exactly one process runs.
   */
  lemma {:induction false} OneRunningOverEveryRun(actions: seq<Action>)
    requires IsRun(Init(), actions)
    ensures
      var s := Run(Init(), actions);
      && s.index < |s.procs| && s.procs[s.index].pid == s.current
      && (forall i :: 0 <= i < |s.procs| && s.procs[i].state.Running? ==> i == s.index)
      && (s.procs[s.index].state.Running? || (s.procs[s.index].idle && s.procs[s.index].state.Ready?))
      && (NoFaults(actions) ==> s.procs[s.index].state.Running?)
  {
    hide Run;
    RunInv(Init(), actions);
  }

  // ------------------------------------------------------------- cleanup

  ghost predicate NoneTerminated(procs: seq<Process>) {
    forall i :: 0 <= i < |procs| ==> !procs[i].state.Terminated?
  }

  lemma {:induction false} SurvivorsAppend(a: seq<Process>, b: seq<Process>)
    ensures Survivors(a + b) == Survivors(a) + Survivors(b)
    decreases |a|
  {
    if a == [] {
      assert a + b == b;
    } else {
      assert (a + b)[1..] == a[1..] + b;
      SurvivorsAppend(a[1..], b);
    }
  }

  lemma {:induction false} SurvivorsFacts(a: seq<Process>)
    ensures |Survivors(a)| <= |a|
    ensures NoneTerminated(a) ==> Survivors(a) == a
    ensures !NoneTerminated(a) ==> |Survivors(a)| < |a|
    ensures forall p :: p in Survivors(a) ==> p in a && !p.state.Terminated?
    ensures a != [] && !a[0].state.Terminated? ==> Survivors(a) != [] && Survivors(a)[0] == a[0]
    decreases |a|
  {
    if a != [] {
      SurvivorsFacts(a[1..]);
      assert a == [a[0]] + a[1..];
      if NoneTerminated(a[1..]) && !a[0].state.Terminated? {
        assert forall i :: 0 <= i < |a| ==> a[i] == if i == 0 then a[0] else a[1..][i - 1];
      }
    }
  }

  // The list around the running process.
  function Front(s: State): seq<Process>
    requires s.index < |s.procs|
  {
    s.procs[..s.index]
  }

  function Back(s: State): seq<Process>
    requires s.index < |s.procs|
  {
    s.procs[s.index + 1..]
  }

  lemma CleanupSplits(s: State)
    requires Inv(s)
    ensures Cleanup(s).procs == Survivors(Front(s)) + [s.procs[s.index]] + Survivors(Back(s))
  {
    var r := s.procs[s.index];
    assert s.procs == Front(s) + ([r] + Back(s));
    SurvivorsAppend(Front(s), [r] + Back(s));
    SurvivorsAppend([r], Back(s));
    assert [r][1..] == [];
  }

  lemma {:induction false} SurvivorsDistinct(a: seq<Process>)
    requires forall i, j :: 0 <= i < j < |a| ==> a[i].pid != a[j].pid
    ensures var b := Survivors(a); forall i, j :: 0 <= i < j < |b| ==> b[i].pid != b[j].pid
    decreases |a|
  {
    if a != [] {
      SurvivorsDistinct(a[1..]);
      SurvivorsFacts(a[1..]);
    }
  }

  /** What cleanup leaves: the running process, moved forward by the ended ones before it. */
  lemma CleanupShape(s: State)
    requires Inv(s)
    ensures
      var procs := Cleanup(s).procs;
      var pos := |Survivors(Front(s))|;
      && pos < |procs| <= MAX_PROCESSES && procs[pos] == s.procs[s.index]
      && (forall i :: 0 <= i < |procs| ==> (procs[i].state.Running? <==> i == pos))
      && procs[0].idle && (pos != 0 ==> procs[0].state.Ready?)
      && Ids(s.(procs := procs))
      && pos <= s.index && (pos == s.index <==> NoneTerminated(Front(s)))
      && (pos + 1 == |procs| <==> Survivors(Back(s)) == [])
  {
    hide Survivors, Inv, Ids;
    CleanupSplits(s);
    CleanupSizes(s);
    CleanupRunning(s);
    CleanupIdle(s);
  }

  lemma CleanupSizes(s: State)
    requires Inv(s)
    ensures
      var pos := |Survivors(Front(s))|;
      && |Survivors(s.procs)| <= |s.procs| <= MAX_PROCESSES
      && pos <= s.index && (pos == s.index <==> NoneTerminated(Front(s)))
  {
    hide Survivors;
    SurvivorsFacts(s.procs);
    SurvivorsFacts(Front(s));
  }

  lemma CleanupRunning(s: State)
    requires Inv(s)
    ensures
      var procs := Cleanup(s).procs;
      forall i :: 0 <= i < |procs| ==> (procs[i].state.Running? <==> i == |Survivors(Front(s))|)
  {
    hide Survivors;
    CleanupSplits(s);
    SurvivorsFacts(Front(s));
    SurvivorsFacts(Back(s));
    var procs, pos := Cleanup(s).procs, |Survivors(Front(s))|;
    forall i | 0 <= i < |procs| ensures procs[i].state.Running? <==> i == pos {
      if i < pos { assert procs[i] in Survivors(Front(s)); }
      if i > pos { assert procs[i] == Survivors(Back(s))[i - pos - 1]; }
    }
  }

  lemma CleanupIdle(s: State)
    requires Inv(s)
    ensures
      var procs := Cleanup(s).procs;
      && procs != [] && procs[0] == s.procs[0] && procs[0].idle
      && (|Survivors(Front(s))| != 0 ==> procs[0].state.Ready?)
      && Ids(s.(procs := procs))
  {
    hide Survivors;
    SurvivorsFacts(s.procs);
    SurvivorsFacts(Front(s));
    SurvivorsDistinct(s.procs);
    var procs := Cleanup(s).procs;
    forall i | 0 <= i < |procs| ensures 0 < procs[i].pid < s.nextPid {
      assert procs[i] in Survivors(s.procs);
    }
  }

  /** Cleanup preserves the invariant exactly when nothing ended before the running process. */
  lemma CleanupKeepsInvIff(s: State)
    requires Inv(s)
    ensures Inv(Cleanup(s)) <==> NoneTerminated(Front(s))
  {
    CleanupShape(s);
    hide Survivors, NoneTerminated;
  }

  ghost predicate OneRunning(procs: seq<Process>) {
    exists i :: 0 <= i < |procs| && procs[i].state.Running? && OnlyRunning(procs, i)
  }

  ghost predicate OnlyRunning(procs: seq<Process>, i: nat) {
    forall j :: 0 <= j < |procs| && procs[j].state.Running? ==> j == i
  }

  /**
   * `cleanup` followed by `schedule_next`: one process runs afterwards exactly when nothing had
   * ended before the running one or nothing survives behind it; otherwise the old process keeps
   * running beside the new one.
   */
  lemma CleanupThenScheduleIff(s: State)
    requires Inv(s)
    ensures OneRunning(ScheduleNext(Cleanup(s)).procs)
       <==> NoneTerminated(Front(s)) || Survivors(Back(s)) == []
  {
    CleanupShape(s);
    hide Survivors, NoneTerminated;
    var c, pos := Cleanup(s), |Survivors(Front(s))|;
    if pos == s.index || pos + 1 == |c.procs| {
      var d := c.(index := pos);
      assert ScheduleNext(c) == ScheduleNext(d);
      ScheduleInv(d);
      var t := ScheduleNext(d);
      assert OnlyRunning(t.procs, t.index);
    } else {
      TwoRunning(c, pos);
    }
  }

  lemma TwoRunning(c: State, pos: nat)
    requires pos < |c.procs| && 0 < pos < Clamped(c)
    requires forall i :: 0 <= i < |c.procs| ==> (c.procs[i].state.Running? <==> i == pos)
    requires c.procs[0].state.Ready?
    ensures !OneRunning(ScheduleNext(c).procs)
  {
    hide FirstReady;
    var t := ScheduleNext(c);
    assert t.index != pos && t.procs[t.index].state.Running? && t.procs[pos].state.Running?;
  }

  // ------------------------------------------------------------- faults

  // The current process has been marked as ended and not yet replaced.
  ghost predicate Faulted(s: State) {
    Handover(s) && s.procs[s.index].state.Terminated?
  }

  lemma FaultedCleanup(s: State)
    requires Faulted(s)
    ensures
      var c := Cleanup(s);
      && 0 < |c.procs| <= |s.procs| && c.procs[0] == s.procs[0] && Ids(c)
      && forall i :: 0 <= i < |c.procs| ==> !c.procs[i].state.Running?
  {
    hide Survivors;
    SurvivorsFacts(s.procs);
    SurvivorsDistinct(s.procs);
    var c := Cleanup(s);
    forall i | 0 <= i < |c.procs| ensures 0 < c.procs[i].pid < s.nextPid && !c.procs[i].state.Running? {
      assert c.procs[i] in Survivors(s.procs);
      var j :| 0 <= j < |s.procs| && s.procs[j] == c.procs[i];
    }
  }

  // Scheduling when nobody runs: idle is found only behind the old position, never at it.
  lemma StartOne(c: State)
    requires 0 < |c.procs| <= MAX_PROCESSES && Ids(c) && c.procs[0].idle && c.procs[0].state.Ready?
    requires forall i :: 0 <= i < |c.procs| ==> !c.procs[i].state.Running?
    ensures Clamped(c) != 0 ==> Inv(ScheduleNext(c))
    ensures |c.procs| == 1 ==> Resting(ScheduleNext(c))
  {
    hide FirstReady, FirstIdle;
    var next := Target(c.procs, Clamped(c));
    assert c.procs[next].state.Ready?;
  }

  lemma RecoveryInv(s: State)
    requires Faulted(s)
    ensures
      var t := ScheduleNext(Cleanup(s));
      if |Survivors(s.procs)| > 1 then Inv(t) else Resting(t)
  {
    FaultedCleanup(s);
    hide Survivors, ScheduleNext, Inv, Resting, Ids;
    StartOne(Cleanup(s));
  }

  // The state in which the recovery code finds the processes.
  function AfterFault(s: State): State {
    s.(procs := SetState(s.procs, s.current, Terminated))
  }

  lemma FaultFaulted(s: State)
    requires Inv(s) && s.index != 0
    ensures Faulted(AfterFault(s)) && AfterFault(s).procs == s.procs[s.index := s.procs[s.index].(state := Terminated)]
  {
    hide Find;
    FindCurrent(s);
  }

  lemma FaultInv(s: State)
    requires Safe(s) && s.index != 0
    ensures Safe(Fault(s))
  {
    hide ScheduleNext, Survivors, SetState;
    FaultFaulted(s);
    RecoveryInv(AfterFault(s));
  }

  // Somebody besides idle outlives the fault of the current process.
  ghost predicate OthersSurvive(s: State) {
    exists j :: 0 < j < |s.procs| && j != s.index && !s.procs[j].state.Terminated?
  }

  lemma {:induction false} SurvivorsCount(a: seq<Process>, j: nat)
    requires j < |a| && !a[j].state.Terminated?
    ensures a[j] in Survivors(a)
    decreases |a|
  {
    if j > 0 { SurvivorsCount(a[1..], j - 1); }
  }

  // Idle survives a fault of another process, and so does one that had not ended.
  lemma OthersCount(s: State)
    requires Inv(s) && s.index != 0 && OthersSurvive(s)
    ensures |Survivors(AfterFault(s).procs)| > 1
  {
    FaultFaulted(s);
    var a := AfterFault(s).procs;
    hide Survivors, AfterFault;
    var j :| 0 < j < |s.procs| && j != s.index && !s.procs[j].state.Terminated?;
    TwoSurvive(a, j);
  }

  lemma {:induction false} TwoSurvive(a: seq<Process>, j: nat)
    requires 0 < j < |a| && !a[0].state.Terminated? && !a[j].state.Terminated? && a[0].pid != a[j].pid
    ensures |Survivors(a)| > 1
  {
    hide Survivors;
    SurvivorsFacts(a);
    SurvivorsCount(a, j);
  }

  lemma CountedAreOthers(s: State)
    requires Inv(s) && s.index != 0 && |Survivors(AfterFault(s).procs)| > 1
    ensures OthersSurvive(s)
  {
    FaultFaulted(s);
    var a := AfterFault(s).procs;
    assert forall i, j :: 0 <= i < j < |a| ==> a[i].pid != a[j].pid;
    hide Survivors, AfterFault, Inv;
    var j := SecondSurvivor(a);
    assert a[j] == s.procs[j];
  }

  lemma SecondSurvivor(a: seq<Process>) returns (j: nat)
    requires |a| > 0 && !a[0].state.Terminated? && forall i, k :: 0 <= i < k < |a| ==> a[i].pid != a[k].pid
    requires |Survivors(a)| > 1
    ensures 0 < j < |a| && !a[j].state.Terminated?
  {
    hide Survivors;
    SurvivorsFacts(a);
    SurvivorsDistinct(a);
    var b := Survivors(a);
    assert b[1] in b;
    j :| 0 <= j < |a| && a[j] == b[1];
  }

  lemma MoreThanIdle(s: State)
    requires Inv(s) && s.index != 0
    ensures |Survivors(AfterFault(s).procs)| > 1 <==> OthersSurvive(s)
  {
    hide Inv, Survivors, AfterFault, OthersSurvive;
    if OthersSurvive(s) { OthersCount(s); }
    if |Survivors(AfterFault(s).procs)| > 1 { CountedAreOthers(s); }
  }

  /**
   * A fault leaves exactly one process running if and only if somebody besides idle survives it;
   * otherwise idle has the turn but stays marked ready, because the position it is found at is the
   * position the scan began at.
   */
  lemma FaultRecoveryIff(s: State)
    requires Inv(s) && s.index != 0
    ensures Inv(Fault(s)) <==> OthersSurvive(s)
    ensures !OthersSurvive(s) ==> Resting(Fault(s))
  {
    hide ScheduleNext, Survivors, SetState, OthersSurvive;
    FaultFaulted(s);
    RecoveryInv(AfterFault(s));
    MoreThanIdle(s);
  }

  // ------------------------------------------------------------- bounded waiting

  // How far the turn is from position k, going round a full table of 64.
  function Distance(index: nat, k: nat): int {
    if index < k then k - index else k + MAX_PROCESSES - index
  }

  // Positions and ids never move.
  ghost predicate SameOrder(a: seq<Process>, b: seq<Process>) {
    |a| <= |b| && forall i :: 0 <= i < |a| ==> b[i].pid == a[i].pid
  }

  // Ready, and not the one that has the turn.
  ghost predicate WaitsAt(s: State, k: nat) {
    k < |s.procs| && s.procs[k].state.Ready? && k != s.index
  }

  /** A scheduling step that passes over a waiting process brings the turn closer to it. */
  lemma ScheduleApproaches(s: State, k: nat)
    requires (Handover(s) || Resting(s)) && WaitsAt(s, k)
    ensures
      var t := ScheduleNext(s);
      && SameOrder(s.procs, t.procs)
      && (t.index == k || (WaitsAt(t, k) && 0 < Distance(t.index, k) < Distance(s.index, k)))
  {
    hide FirstReady;
    var i := FirstReady(s.procs, s.index + 1, |s.procs|);
    if i == |s.procs| {
      var j := FirstReady(s.procs, 0, s.index + 1);
      assert j <= k;
    }
  }

  // Either k waits on and the turn is at most as far away, less the scheduling calls made, or k has
  // the turn, or k has ended.
  ghost predicate Approaches(s: State, t: State, k: nat, calls: nat, mayEnd: bool)
    requires k < |s.procs|
  {
    && SameOrder(s.procs, t.procs)
    && (|| t.index == k
        || (mayEnd && t.procs[k].state.Terminated?)
        || (WaitsAt(t, k) && Distance(t.index, k) + calls <= Distance(s.index, k)))
  }

  // Ending a process and waking others leaves the order and every other ready process alone.
  lemma EndingApproaches(s: State, pid: nat, waiters: seq<nat>, k: nat)
    requires k < |s.procs| && s.procs[k].state.Ready?
    ensures
      var t := Ending(s, pid, waiters);
      && |t.procs| == |s.procs| && SameOrder(s.procs, t.procs)
      && (t.procs[k].state.Ready? || t.procs[k].state.Terminated?)
  {
    hide Find, UnblockAll, WakeParent;
    var i := Find(s.procs, pid);
    var ended := s.procs;
    if i < |s.procs| && !s.procs[i].idle {
      ended := SetState(s.procs, pid, Terminated);
      UnblockAllWakes(ended, waiters);
      ended := UnblockAll(ended, waiters);
    }
    WakeParentWakes(ended, pid);
  }

  lemma TerminateApproaches(s: State, pid: nat, waiters: seq<nat>, k: nat)
    requires Safe(s) && WaitsAt(s, k)
    ensures Approaches(s, Terminate(s, pid, waiters), k, Calls(s, DoTerminate(pid, waiters)), true)
  {
    hide ScheduleNext, Find, UnblockAll, WakeParent, SetState;
    EndingInv(s, pid, waiters);
    EndingApproaches(s, pid, waiters, k);
    var t := Ending(s, pid, waiters);
    hide Handover, Inv, Leaving, Resting, Ending;
    if s.current == pid {
      if t.procs[k].state.Ready? {
        LeavingHandsOver(s, t);
        ScheduleApproaches(t, k);
      } else {
        ScheduleKeepsEnded(t, k);
      }
    }
  }

  lemma LeavingHandsOver(s: State, t: State)
    requires if Resting(s) then Resting(t) else Leaving(t)
    ensures Handover(t) || Resting(t)
  {
  }

  // Scheduling never gives the turn to a process that has ended, nor changes its state.
  lemma ScheduleKeepsEnded(t: State, k: nat)
    requires k < |t.procs| && t.procs[k].state.Terminated?
    ensures SameOrder(t.procs, ScheduleNext(t).procs)
    ensures ScheduleNext(t).procs[k].state.Terminated? || ScheduleNext(t).index == k
  {
    hide FirstReady, FirstIdle;
  }

  lemma StepApproaches(s: State, a: Action, k: nat)
    requires Safe(s) && Allowed(s, a) && !a.DoFault? && WaitsAt(s, k)
    ensures Approaches(s, Step(s, a), k, Calls(s, a), a.DoTerminate?)
  {
    hide ScheduleNext, Find, Create, Terminate, Fault;
    match a
    case DoCreate(idle, parent) => CreateInv(s, idle, parent);
    case DoSchedule => ScheduleApproaches(s, k);
    case DoYield => ScheduleApproaches(s, k);
    case DoBlock =>
      FindCurrent(s);
      ScheduleApproaches(s.(procs := SetState(s.procs, s.current, Blocked)), k);
    case DoUnblock(pid) =>
    case DoTerminate(pid, waiters) => TerminateApproaches(s, pid, waiters, k);
  }

  // Where a survivor ends up: behind the survivors that were before it.
  lemma {:induction false} SurvivorMoves(a: seq<Process>, k: nat)
    requires k < |a| && !a[k].state.Terminated?
    ensures
      var j := |Survivors(a[..k])|;
      j <= k && j < |Survivors(a)| && Survivors(a)[j] == a[k] && (!NoneTerminated(a[..k]) ==> j < k)
  {
    var front, back := a[..k], a[k + 1..];
    assert a == front + ([a[k]] + back);
    SurvivorsAppend(front, [a[k]] + back);
    assert ([a[k]] + back)[1..] == back;
    SurvivorsFacts(front);
  }

  // One number that every scheduling call lowers while a process waits, faults included.
  function Rank(index: nat, k: nat): int {
    MAX_PROCESSES * k + Distance(index, k)
  }

  // The turn after cleanup: the first ready process behind the old position, or idle in front.
  lemma TurnAfterCleanup(c: State, k: nat)
    requires c.procs != [] && c.procs[0].state.Ready? && k < |c.procs| && c.procs[k].state.Ready?
    requires forall i :: 0 <= i < |c.procs| ==> !c.procs[i].state.Running?
    ensures
      var t := ScheduleNext(c);
      && SameOrder(c.procs, t.procs) && |t.procs| == |c.procs| && t.index < |t.procs|
      && (t.index != k ==>
          && t.procs[k].state.Ready?
          && ((c.index < t.index && !(c.index < k < t.index)) || (t.index == 0 && k <= c.index)))
  {
    hide FirstReady;
    var cur := Clamped(c);
    var i := FirstReady(c.procs, cur + 1, |c.procs|);
    if i == |c.procs| {
      var j := FirstReady(c.procs, 0, cur + 1);
      assert j == 0;
    }
  }

  lemma RankFalls(x: nat, k: nat, y: nat, j: nat)
    requires 0 < x < MAX_PROCESSES && k < MAX_PROCESSES && k != x && y < MAX_PROCESSES && j != y
    requires j <= k && (x < k ==> j < k)
    requires (x < y && !(x < j < y)) || (y == 0 && j <= x)
    ensures Rank(y, j) < Rank(x, k)
  {
  }

  /** A fault moves a waiting process forward, gives it the turn, or lowers its rank. */
  lemma FaultApproaches(s: State, k: nat)
    requires Inv(s) && s.index != 0 && WaitsAt(s, k)
    ensures
      var t, j := Fault(s), |Survivors(AfterFault(s).procs[..k])|;
      && j < |t.procs| && t.procs[j].pid == s.procs[k].pid
      && (t.index == j || (WaitsAt(t, j) && Rank(t.index, j) < Rank(s.index, k)))
  {
    hide Survivors, SetState, ScheduleNext;
    FaultFaulted(s);
    var a := AfterFault(s);
    FaultedCleanup(a);
    SurvivorMoves(a.procs, k);
    var c, j := Cleanup(a), |Survivors(a.procs[..k])|;
    if s.index < k { assert a.procs[..k][s.index].state.Terminated?; }
    TurnAfterCleanup(c, j);
    var t := ScheduleNext(c);
    hide Inv, Faulted;
    if t.index != j { RankFalls(s.index, k, t.index, j); }
  }

  // ------------------------------------------------------------- waiting over a run

  // The process with this id is ready and does not have the turn.
  ghost predicate Waits(s: State, pid: nat) {
    WaitsAt(s, Find(s.procs, pid))
  }

  // It has the turn, or it has ended.
  ghost predicate Served(s: State, pid: nat) {
    var k := Find(s.procs, pid);
    k < |s.procs| && (k == s.index || s.procs[k].state.Terminated?)
  }

  lemma FindIs(s: State, k: nat)
    requires Ids(s) && k < |s.procs|
    ensures Find(s.procs, s.procs[k].pid) == k
  {
    hide Find;
    var i := Find(s.procs, s.procs[k].pid);
  }

  function Place(s: State, pid: nat): nat {
    Find(s.procs, pid)
  }

  /** One step serves a waiting process or leaves it waiting, with its rank lowered by the calls made. */
  lemma StepServes(s: State, a: Action, pid: nat)
    requires Safe(s) && Allowed(s, a) && Waits(s, pid)
    ensures
      var t, k := Step(s, a), Place(s, pid);
      || Served(t, pid)
      || (&& Waits(t, pid)
          && Rank(t.index, Place(t, pid)) + Calls(s, a) <= Rank(s.index, k)
          && (!a.DoFault? ==> Distance(t.index, Place(t, pid)) + Calls(s, a) <= Distance(s.index, k)))
  {
    var t, k := Step(s, a), Place(s, pid);
    StepInv(s, a);
    assert Ids(t);
    hide Step, Find;
    if a.DoFault? {
      FaultStep(s);
      FaultApproaches(s, k);
      FindIs(t, |Survivors(AfterFault(s).procs[..k])|);
    } else {
      StepApproaches(s, a, k);
      FindIs(t, k);
    }
  }

  lemma FaultStep(s: State)
    ensures Step(s, DoFault) == Fault(s)
  {
  }

  // The process waits in every state of the run.
  ghost predicate WaitsThroughout(s: State, actions: seq<Action>, pid: nat)
    decreases |actions|
  {
    Waits(s, pid) && (actions == [] || WaitsThroughout(Step(s, actions[0]), actions[1..], pid))
  }

  lemma {:induction false} WaitIsBounded(s: State, actions: seq<Action>, pid: nat)
    requires Safe(s) && IsRun(s, actions) && WaitsThroughout(s, actions, pid)
    ensures TotalCalls(s, actions) < Rank(s.index, Place(s, pid))
    ensures NoFaults(actions) ==> TotalCalls(s, actions) < Distance(s.index, Place(s, pid))
    decreases |actions|
  {
    hide Step, Inv, Resting, Find;
    RankPositive(s, pid);
    if actions != [] {
      StepInv(s, actions[0]);
      StepServes(s, actions[0], pid);
      NotBoth(Step(s, actions[0]), pid);
      hide Calls, Safe, Waits, Served, Rank, Distance;
      WaitIsBounded(Step(s, actions[0]), actions[1..], pid);
    }
  }

  lemma RankPositive(s: State, pid: nat)
    requires Safe(s) && Waits(s, pid)
    ensures 0 < Distance(s.index, Place(s, pid)) <= 63 && 0 < Rank(s.index, Place(s, pid)) <= 4095
  {
    hide Find;
  }

  lemma NotBoth(s: State, pid: nat)
    ensures !(Waits(s, pid) && Served(s, pid))
  {
    hide Find;
  }

  // At some point of the run the process has the turn or has ended.
  ghost predicate ServedDuring(s: State, actions: seq<Action>, pid: nat)
    decreases |actions|
  {
    Served(s, pid) || (actions != [] && ServedDuring(Step(s, actions[0]), actions[1..], pid))
  }

  lemma {:induction false} ServedOrWaits(s: State, actions: seq<Action>, pid: nat)
    requires Safe(s) && IsRun(s, actions) && Waits(s, pid)
    ensures ServedDuring(s, actions, pid) || WaitsThroughout(s, actions, pid)
    decreases |actions|
  {
    hide Step, Inv, Resting, Find;
    if actions != [] {
      var t := Step(s, actions[0]);
      StepInv(s, actions[0]);
      StepServes(s, actions[0], pid);
      hide Safe, Waits, Served;
      if Waits(t, pid) { ServedOrWaits(t, actions[1..], pid); }
    }
  }

  /**
   * Bounded waiting: whatever is created, blocked, unblocked or terminated meanwhile, a process that
   * waits has had the turn or has ended by the time of the 63rd call of `schedule_next`.
   */
  lemma {:induction false} ServedWithin63Calls(before: seq<Action>, actions: seq<Action>, pid: nat)
    requires IsRun(Init(), before) && IsRun(Run(Init(), before), actions) && NoFaults(actions)
    requires Waits(Run(Init(), before), pid) && TotalCalls(Run(Init(), before), actions) >= 63
    ensures ServedDuring(Run(Init(), before), actions, pid)
  {
    hide Run, Waits, TotalCalls;
    RunInv(Init(), before);
    var s := Run(Init(), before);
    ServedOrWaits(s, actions, pid);
    RankPositive(s, pid);
    if WaitsThroughout(s, actions, pid) { WaitIsBounded(s, actions, pid); }
  }

  /** Faults pass over a process when they move it to the current position; still 4095 calls serve it. */
  lemma {:induction false} ServedDespiteFaults(before: seq<Action>, actions: seq<Action>, pid: nat)
    requires IsRun(Init(), before) && IsRun(Run(Init(), before), actions)
    requires Waits(Run(Init(), before), pid) && TotalCalls(Run(Init(), before), actions) >= 4095
    ensures ServedDuring(Run(Init(), before), actions, pid)
  {
    hide Run, Waits, TotalCalls;
    RunInv(Init(), before);
    var s := Run(Init(), before);
    ServedOrWaits(s, actions, pid);
    RankPositive(s, pid);
    if WaitsThroughout(s, actions, pid) { WaitIsBounded(s, actions, pid); }
  }

  // ------------------------------------------------------------- both failures are reached

  // Some run from the start leads here.
  ghost predicate Reached(s: State) {
    exists actions :: IsRun(Init(), actions) && Run(Init(), actions) == s
  }

  lemma {:induction false} RunAppend(s: State, actions: seq<Action>, a: Action)
    requires IsRun(s, actions) && Allowed(Run(s, actions), a)
    ensures IsRun(s, actions + [a]) && Run(s, actions + [a]) == Step(Run(s, actions), a)
    decreases |actions|
  {
    hide Step, Allowed;
    var all := actions + [a];
    if actions == [] {
      assert all[1..] == [];
      assert Run(Step(s, a), all[1..]) == Step(s, a) && IsRun(Step(s, a), all[1..]);
    } else {
      assert all[1..] == actions[1..] + [a];
      RunAppend(Step(s, actions[0]), actions[1..], a);
    }
  }

  lemma ReachedStep(s: State, a: Action)
    requires Reached(s) && Allowed(s, a)
    ensures Reached(Step(s, a))
  {
    hide Step, Allowed, Run, IsRun;
    var actions :| IsRun(Init(), actions) && Run(Init(), actions) == s;
    RunAppend(Init(), actions, a);
  }

  lemma InitReached()
    ensures Reached(Init())
  {
    assert IsRun(Init(), []) && Run(Init(), []) == Init();
  }

  lemma CreateAppends(s: State)
    requires Ids(s) && |s.procs| < MAX_PROCESSES
    ensures Create(s, false, None)
      == s.(procs := s.procs + [Process(s.nextPid, false, Ready, None)], nextPid := s.nextPid + 1)
  {
    hide Find;
  }

  lemma ScheduleToNext(s: State)
    requires s.index + 1 < |s.procs| && s.procs[s.index].state.Running? && s.procs[s.index + 1].state.Ready?
    ensures
      var i := s.index;
      var p := s.procs[i := s.procs[i].(state := Ready)];
      ScheduleNext(s) == s.(procs := p[i + 1 := p[i + 1].(state := Running)], index := i + 1, current := p[i + 1].pid)
  {
  }

  lemma TerminateOther(s: State, i: nat)
    requires Ids(s) && i < |s.procs| && !s.procs[i].idle && s.procs[i].parent.None? && s.current != s.procs[i].pid
    ensures Terminate(s, s.procs[i].pid, []) == s.(procs := s.procs[i := s.procs[i].(state := Terminated)])
  {
    FindIs(s, i);
    var t := s.(procs := s.procs[i := s.procs[i].(state := Terminated)]);
    FindIs(t, i);
    hide Find;
  }

  // Idle and three processes that have not run.
  lemma ThreeCreated() returns (s: State)
    ensures Reached(s) && Inv(s) && |s.procs| == 4 && s.index == 0
    ensures forall i :: 1 <= i < 4 ==> s.procs[i] == Process(i + 1, false, Ready, None)
  {
    hide Create, Run, IsRun;
    InitReached();
    s := Init();
    var make := DoCreate(false, None);
    for k := 1 to 4
      invariant Reached(s) && Inv(s) && |s.procs| == k && s.index == 0 && s.nextPid == k + 1
      invariant forall i :: 1 <= i < k ==> s.procs[i] == Process(i + 1, false, Ready, None)
    {
      ReachedStep(s, make);
      CreateAppends(s);
      CreateInv(s, false, None);
      s := Create(s, false, None);
    }
  }

  /**
   * The public `cleanup` followed by `schedule_next` can leave two processes running, in a state that
   * is reached by creating three processes, scheduling twice and terminating the first. The recovery
   * code does not call it so: there the current process has ended.
   */
  lemma CleanupReachesTwoRunning() returns (s: State)
    ensures Reached(s) && Inv(s) && !OneRunning(ScheduleNext(Cleanup(s)).procs)
  {
    hide ScheduleNext, Terminate, Run, IsRun, Survivors, OneRunning;
    s := ThreeCreated();
    ScheduleInv(s);
    ReachedStep(s, DoSchedule);
    ScheduleToNext(s);
    s := ScheduleNext(s);
    ScheduleInv(s);
    ReachedStep(s, DoSchedule);
    ScheduleToNext(s);
    s := ScheduleNext(s);
    ReachedStep(s, DoTerminate(2, []));
    TerminateInv(s, 2, []);
    TerminateOther(s, 1);
    s := Terminate(s, 2, []);
    FirstGone(s);
    CleanupThenScheduleIff(s);
  }

  lemma FirstGone(s: State)
    requires Inv(s) && s.index == 2 && |s.procs| == 4
    requires s.procs[1].state.Terminated? && s.procs[3].state.Ready?
    ensures !NoneTerminated(Front(s)) && Survivors(Back(s)) != []
  {
    assert Front(s)[1].state.Terminated?;
    assert Back(s)[0].state.Ready?;
  }

  /** One process besides idle runs and faults: afterwards idle alone is left, and nobody runs. */
  lemma FaultReachesNoneRunning() returns (s: State)
    ensures Reached(s) && Resting(s) && |s.procs| == 1
  {
    hide Create, ScheduleNext, Fault, Run, IsRun;
    InitReached();
    s := Init();
    ReachedStep(s, DoCreate(false, None));
    CreateAppends(s);
    CreateInv(s, false, None);
    s := Create(s, false, None);
    ReachedStep(s, DoSchedule);
    ScheduleInv(s);
    ScheduleToNext(s);
    s := ScheduleNext(s);
    assert !OthersSurvive(s);
    FaultRecoveryIff(s);
    OnlyIdleLeft(s);
    ReachedStep(s, DoFault);
    s := Fault(s);
  }

  lemma OnlyIdleLeft(s: State)
    requires Inv(s) && |s.procs| == 2 && s.index == 1
    ensures Fault(s).procs == [s.procs[0]]
  {
    FaultFaulted(s);
    var a := AfterFault(s);
    hide SetState, Find;
    assert a.procs[1..][1..] == [];
    assert Survivors(a.procs[1..]) == [];
    assert Survivors(a.procs) == [s.procs[0]];
    var c := Cleanup(a);
    assert Target(c.procs, 0) == 0;
  }

  // ------------------------------------------------------------- the code

  class SchedulerContext {
    var procs: seq<Process>
    var scheduleIndex: nat
    var currentPid: nat
    var nextPid: nat

    ghost function Abs(): State
      reads this
    {
      State(procs, scheduleIndex, currentPid, nextPid)
    }

    // Start with the idle process running.
    constructor ()
      ensures Abs() == Init()
    {
      procs, scheduleIndex, currentPid, nextPid := [Process(1, true, Running, None)], 0, 1, 2;
    }

    method Add(p: Process) returns (ok: bool)
      modifies this`procs
      ensures ok == AddIn(old(procs), p).Some?
      ensures procs == if ok then AddIn(old(procs), p).value else old(procs)
    {
      if |procs| >= MAX_PROCESSES { return false; }
      var pos := Find(procs, p.pid);
      if pos < |procs| {
        procs := procs[pos := procs[|procs| - 1]][..|procs| - 1];
      }
      procs := procs + [p];
      return true;
    }

    // The round-robin scan: one step at a time, wrapping, until a ready process or the start.
    method Scan(start: nat) returns (next: nat)
      requires start < |procs|
      ensures next == Target(procs, start)
    {
      hide FirstReady, FirstIdle;
      next := start;
      var wrapped := false;
      while true
        invariant next < |procs|
        invariant !wrapped ==> start <= next && forall i :: start < i <= next ==> !procs[i].state.Ready?
        invariant wrapped ==> next < start && forall i :: start < i < |procs| ==> !procs[i].state.Ready?
        invariant wrapped ==> forall i :: 0 <= i <= next ==> !procs[i].state.Ready?
        decreases if wrapped then start - next else start + |procs| - next
      {
        next := if next + 1 == |procs| then 0 else next + 1;
        if next <= start { wrapped := true; }
        if procs[next].state.Ready? { break; }
        if next == start {
          var idle := FirstIdle(procs);
          if idle < |procs| { next := idle; }
          break;
        }
      }
    }

    method ScheduleNextProcess() returns (previous: Option<nat>, chosen: nat)
      modifies this`procs, this`scheduleIndex, this`currentPid
      ensures Abs() == ScheduleNext(old(Abs()))
      ensures old(procs) == [] ==> previous == None && chosen == 0
      ensures old(procs) != [] ==> previous == Some(old(procs)[Clamped(old(Abs()))].pid) && chosen == currentPid
    {
      hide Target;
      if procs == [] { return None, 0; }
      var cur := if scheduleIndex <= |procs| - 1 then scheduleIndex else |procs| - 1;
      var next := Scan(cur);
      previous := Some(procs[cur].pid);
      chosen := procs[next].pid;
      scheduleIndex := next;
      currentPid := chosen;
      if cur != next {
        if procs[cur].state.Running? {
          procs := procs[cur := procs[cur].(state := Ready)];
        }
        procs := procs[next := procs[next].(state := Running)];
      }
    }

    method BlockCurrentProcess()
      modifies this`procs, this`scheduleIndex, this`currentPid
      ensures Abs() == BlockCurrent(old(Abs()))
    {
      hide ScheduleNext;
      if currentPid == 0 { return; }
      procs := SetState(procs, currentPid, Blocked);
      var o, n := ScheduleNextProcess();
    }

    method YieldCurrent()
      modifies this`procs, this`scheduleIndex, this`currentPid
      ensures Abs() == Yield(old(Abs()))
    {
      if currentPid == 0 { return; }
      var o, n := ScheduleNextProcess();
    }

    method UnblockProcess(pid: nat)
      modifies this`procs
      ensures procs == UnblockIn(old(procs), pid)
    {
      var i := Find(procs, pid);
      if i < |procs| && procs[i].state.Blocked? {
        procs := procs[i := procs[i].(state := Ready)];
      }
    }

    method TerminateProcess(pid: nat, waiters: seq<nat>)
      modifies this`procs, this`scheduleIndex, this`currentPid
      ensures Abs() == Terminate(old(Abs()), pid, waiters)
    {
      hide ScheduleNext, Find, UnblockIn;
      var i := Find(procs, pid);
      if i < |procs| && !procs[i].idle {
        procs := SetState(procs, pid, Terminated);
        ghost var goal := UnblockAll(procs, waiters);
        var k := 0;
        while k < |waiters|
          invariant 0 <= k <= |waiters|
          invariant goal == UnblockAll(procs, waiters[k..])
          invariant scheduleIndex == old(scheduleIndex) && currentPid == old(currentPid)
        {
          UnblockProcess(waiters[k]);
          k := k + 1;
        }
      }
      var child := Find(procs, pid);
      if child < |procs| && procs[child].parent.Some? {
        UnblockProcess(procs[child].parent.value);
      }
      if currentPid == pid {
        var o, n := ScheduleNextProcess();
      }
    }

    // `terminate_and_recover` and the code it returns into.
    method RecoverFromFault()
      modifies this`procs, this`scheduleIndex, this`currentPid
      ensures Abs() == Fault(old(Abs()))
    {
      hide ScheduleNext;
      if currentPid == 0 { return; }
      procs := SetState(procs, currentPid, Terminated);
      procs := Survivors(procs);
      var o, n := ScheduleNextProcess();
    }
  }
}
