/** The podman usage lock: ltvm processes hold it shared while they use the podman machine,
    and the auto-stop stops the machine only while it holds the lock exclusively. */
module PodmanLock {

  type Pid = nat

  datatype Mode = Shared | Exclusive

  /** Where a process is.  `Opened` waits in flock; `preflight` says who asked for the hold.
      `Trying` is between podman_idle_lock's start and the answer of its flock. */
  datatype Phase = Idle | Opened(preflight: bool) | Looking | Starting | Trying | Alone | Stopping

  /** `fd`: the process-wide hold on the lock file is set. */
  datatype Proc = Proc(fd: bool, at: Phase)

  /** `orphans` counts stop commands whose ltvm process was killed while they ran. */
  datatype State = State(procs: map<Pid, Proc>, locks: map<Pid, Mode>, machine: bool, orphans: nat)

  function Get(s: State, p: Pid): Proc { if p in s.procs then s.procs[p] else Proc(false, Idle) }

  datatype Action =
    | Hold(preflight: bool) | GrantShared | NoLock
    | SeeRunning | SeeStopped | Started | PreflightFails
    | BeginIdle | DropShared | TakeExclusive | Refused
    | BeginStop | StopDone | StopFails | Leave
    | Exit | UserStart | UserStop | OrphanStop

  datatype Event = Event(pid: Pid, action: Action)

  function AfterHold(preflight: bool): Phase { if preflight then Looking else Idle }

  /** No other process holds the lock at all. */
  predicate Free(s: State, p: Pid) { forall q :: q in s.locks ==> q == p }

  /** No other process holds the lock exclusively. */
  predicate Sharable(s: State, p: Pid) { forall q :: q in s.locks && q != p ==> s.locks[q] == Shared }

  predicate Enabled(s: State, e: Event) {
    var at := Get(s, e.pid).at;
    match e.action
    case Hold(_) => at == Idle
    case GrantShared => at.Opened? && Sharable(s, e.pid)
    case NoLock => at.Opened?
    case SeeRunning => at == Looking && s.machine
    case SeeStopped => at == Looking && !s.machine
    case Started => at == Starting
    case PreflightFails => at == Looking || at == Starting
    case BeginIdle => at == Idle
    case DropShared => at == Trying
    case TakeExclusive => at == Trying && Free(s, e.pid)
    case Refused => at == Trying
    case BeginStop => at == Alone
    case StopDone => at == Stopping
    case StopFails => at == Stopping
    case Leave => at == Alone
    case Exit => true
    case UserStart => true
    case UserStop => true
    case OrphanStop => s.orphans > 0
  }

  function Go(s: State, p: Pid, fd: bool, at: Phase): State { s.(procs := s.procs[p := Proc(fd, at)]) }

  function Next(s: State, e: Event): State
    requires Enabled(s, e)
  {
    var p := e.pid;
    var me := Get(s, p);
    match e.action
    // A process that has its hold goes on; another opens the lock file and waits.
    case Hold(pre) => Go(s, p, me.fd, if me.fd then AfterHold(pre) else Opened(pre))
    case GrantShared => Go(s, p, true, AfterHold(me.at.preflight)).(locks := s.locks[p := Shared])
    case NoLock => Go(s, p, me.fd, AfterHold(me.at.preflight))
    case SeeRunning => Go(s, p, me.fd, Idle)
    case SeeStopped => Go(s, p, me.fd, Starting)
    case Started => Go(s, p, me.fd, Idle).(machine := true)
    case PreflightFails => Go(s, p, me.fd, Idle)
    // The hold moves out of the process-wide variable before the conversion.
    case BeginIdle => Go(s, p, false, Trying)
    // Converting a flock may first drop the old lock, and then fail to get the new one.
    case DropShared => s.(locks := s.locks - {p})
    case TakeExclusive => Go(s, p, false, Alone).(locks := s.locks[p := Exclusive])
    case Refused => Go(s, p, false, Idle).(locks := s.locks - {p})
    case BeginStop => Go(s, p, me.fd, Stopping)
    case StopDone => Go(s, p, me.fd, Alone).(machine := false)
    case StopFails => Go(s, p, me.fd, Alone)
    case Leave => Go(s, p, false, Idle).(locks := s.locks - {p})
    case Exit =>
      State(s.procs - {p}, s.locks - {p}, s.machine, if me.at == Stopping then s.orphans + 1 else s.orphans)
    case UserStart => s.(machine := true)
    case UserStop => s.(machine := false)
    case OrphanStop => s.(machine := false, orphans := s.orphans - 1)
  }

  /** A run: events in any interleaving, with the states between them. */
  ghost predicate Run(ss: seq<State>, es: seq<Event>) {
    && |ss| == |es| + 1
    && ss[0].procs == map[] && ss[0].locks == map[] && ss[0].orphans == 0
    && forall i :: 0 <= i < |es| ==> Enabled(ss[i], es[i]) && ss[i + 1] == Next(ss[i], es[i])
  }

  // ---- what every step keeps -------------------------------------------------------------

  predicate ProcOk(s: State, p: Pid) {
    var me := Get(s, p);
    && (me.fd ==> p in s.locks && s.locks[p] == Shared && !me.at.Opened? && !Inside(me.at) && me.at != Trying)
    && (Inside(me.at) <==> p in s.locks && s.locks[p] == Exclusive)
    && (p in s.locks && s.locks[p] == Shared ==> me.fd || me.at == Trying)
  }

  predicate Inside(at: Phase) { at == Alone || at == Stopping }

  ghost predicate Inv(s: State) {
    && (forall p :: ProcOk(s, p))
    && (forall p :: p in s.locks && s.locks[p] == Exclusive ==> Free(s, p))
  }

  lemma StepKeeps(s: State, e: Event)
    requires Inv(s) && Enabled(s, e)
    ensures Inv(Next(s, e))
  {
    var p, t := e.pid, Next(s, e);
    assert ProcOk(s, p);
    forall q ensures ProcOk(t, q) {
      assert ProcOk(s, q);
    }
  }

  lemma {:induction false} EveryStateIsOk(ss: seq<State>, es: seq<Event>, i: nat)
    requires Run(ss, es) && i < |ss|
    ensures Inv(ss[i])
  {
    if i > 0 {
      EveryStateIsOk(ss, es, i - 1);
      StepKeeps(ss[i - 1], es[i - 1]);
    }
  }

  // ---- the promise -------------------------------------------------------------------------

  predicate HoldsUsage(s: State, p: Pid) { p in s.locks && s.locks[p] == Shared }

  /** In no run does an auto-stop stop the machine while another process has the lock. */
  lemma AutoStopIsAlone(ss: seq<State>, es: seq<Event>, i: nat, p: Pid)
    requires Run(ss, es) && i < |es| && es[i].action == StopDone && p != es[i].pid
    ensures p !in ss[i].locks && p !in ss[i + 1].locks
  {
    EveryStateIsOk(ss, es, i);
    assert ProcOk(ss[i], es[i].pid);
  }

  /** The step by which a preflight returns without an error. */
  predicate Passes(e: Event, p: Pid) { e.pid == p && (e.action == SeeRunning || e.action == Started) }

  /** The machine is stopped by something that is not a live auto-stop. */
  predicate OutsideStop(e: Event) { e.action == UserStop || e.action == OrphanStop }

  /** The promise: from the step that passes the preflight, and for as long as the process
      keeps the hold it had then, the machine runs, whatever the other processes do. */
  lemma {:induction false} MachineStaysUp(ss: seq<State>, es: seq<Event>, i: nat, j: nat, p: Pid)
    requires Run(ss, es) && i < j < |ss| && Passes(es[i], p)
    requires forall k :: i <= k <= j ==> HoldsUsage(ss[k], p)
    requires forall k :: i < k < j ==> !OutsideStop(es[k])
    ensures ss[j].machine
  {
    var k := j - 1;
    if i < k {
      MachineStaysUp(ss, es, i, k, p);
      if es[k].action == StopDone && es[k].pid != p {
        AutoStopIsAlone(ss, es, k, p);
      }
      EveryStateIsOk(ss, es, k);
      assert ProcOk(ss[k], p);
      assert HoldsUsage(ss[k], p) && !OutsideStop(es[k]);
    }
  }

  /** A hold is never lost to another process: only its owner's conversion or exit ends it. */
  lemma OnlyTheOwnerLetsGo(ss: seq<State>, es: seq<Event>, i: nat, p: Pid)
    requires Run(ss, es) && i < |es| && HoldsUsage(ss[i], p) && !HoldsUsage(ss[i + 1], p)
    ensures es[i].pid == p
    ensures es[i].action in {DropShared, TakeExclusive, Refused, Exit}
  {
    EveryStateIsOk(ss, es, i);
    assert ProcOk(ss[i], p);
  }

  /** A stop command outlives its process only if that process was killed inside the stop. */
  lemma {:induction false} OrphansComeFromKills(ss: seq<State>, es: seq<Event>, i: nat)
    requires Run(ss, es) && i < |ss| && ss[i].orphans > 0
    ensures exists k :: 0 <= k < i && es[k].action == Exit && Get(ss[k], es[k].pid).at == Stopping
  {
    if i > 0 && ss[i - 1].orphans > 0 {
      OrphansComeFromKills(ss, es, i - 1);
    }
  }

  /** So with no kill inside a stop and no stop by hand, nothing stops it at all. */
  lemma MachineStaysUpUnlessKilled(ss: seq<State>, es: seq<Event>, i: nat, j: nat, p: Pid)
    requires Run(ss, es) && i < j < |ss| && Passes(es[i], p)
    requires forall k :: i <= k <= j ==> HoldsUsage(ss[k], p)
    requires forall k :: 0 <= k < |es| ==> es[k].action != UserStop
    requires forall k :: 0 <= k < |es| && es[k].action == Exit ==> Get(ss[k], es[k].pid).at != Stopping
    ensures ss[j].machine
  {
    forall k | i < k < j ensures !OutsideStop(es[k]) {
      if es[k].action == OrphanStop {
        OrphansComeFromKills(ss, es, k);
      }
    }
    MachineStaysUp(ss, es, i, j, p);
  }

  // ---- which holders are exposed -------------------------------------------------------------

  /** Any continuation of a state. */
  ghost predicate Path(ss: seq<State>, es: seq<Event>) {
    && |ss| == |es| + 1
    && forall i :: 0 <= i < |es| ==> Enabled(ss[i], es[i]) && ss[i + 1] == Next(ss[i], es[i])
  }

  /** A continuation in which the process keeps its hold, nobody stops the machine by hand,
      and yet it is stopped in the end. */
  ghost predicate LosesMachine(ss: seq<State>, es: seq<Event>, p: Pid) {
    && Path(ss, es) && !ss[|es|].machine
    && (forall k :: 0 <= k < |ss| ==> HoldsUsage(ss[k], p))
    && forall k :: 0 <= k < |es| ==> es[k].action != UserStop
  }

  ghost predicate CanLoseMachine(s: State, p: Pid) { exists ss, es :: LosesMachine(ss, es, p) && ss[0] == s }

  /** While a process holds the lock, no stop begins, so none can be orphaned. */
  lemma HolderStaysSafe(s: State, e: Event, p: Pid)
    requires Inv(s) && HoldsUsage(s, p) && s.machine && s.orphans == 0 && Enabled(s, e) && e.action != UserStop
    ensures Next(s, e).machine && Next(s, e).orphans == 0
  {
    assert ProcOk(s, e.pid) && ProcOk(s, p);
  }

  lemma {:induction false} HolderStaysSafeOn(ss: seq<State>, es: seq<Event>, p: Pid, i: nat)
    requires Path(ss, es) && Inv(ss[0]) && ss[0].machine && ss[0].orphans == 0 && i < |ss|
    requires forall k :: 0 <= k < |ss| ==> HoldsUsage(ss[k], p)
    requires forall k :: 0 <= k < |es| ==> es[k].action != UserStop
    ensures Inv(ss[i]) && ss[i].machine && ss[i].orphans == 0
  {
    if i > 0 {
      HolderStaysSafeOn(ss, es, p, i - 1);
      StepKeeps(ss[i - 1], es[i - 1]);
      HolderStaysSafe(ss[i - 1], es[i - 1], p);
    }
  }

  /** A holder can lose a running machine exactly when the stop command of a killed process is
      still running. */
  lemma HolderIsExposedExactly(s: State, p: Pid)
    requires Inv(s) && HoldsUsage(s, p) && s.machine
    ensures CanLoseMachine(s, p) <==> s.orphans > 0
  {
    if s.orphans > 0 {
      var e := Event(p, OrphanStop);
      var ss, es := [s, Next(s, e)], [e];
      assert LosesMachine(ss, es, p);
    }
    forall ss, es | LosesMachine(ss, es, p) && ss[0] == s ensures s.orphans > 0 {
      if s.orphans == 0 {
        HolderStaysSafeOn(ss, es, p, |es|);
      }
    }
  }

  /** In every state of every run. */
  lemma EveryHolderIsExposedExactly(ss: seq<State>, es: seq<Event>, i: nat, p: Pid)
    requires Run(ss, es) && i < |ss| && HoldsUsage(ss[i], p) && ss[i].machine
    ensures CanLoseMachine(ss[i], p) <==> ss[i].orphans > 0
  {
    EveryStateIsOk(ss, es, i);
    HolderIsExposedExactly(ss[i], p);
  }

  // ---- where the promise ends ---------------------------------------------------------------

  /** Run `ss`, `es` ends in `s`. */
  ghost predicate RunTo(ss: seq<State>, es: seq<Event>, s: State) { Run(ss, es) && ss[|es|] == s }

  lemma Do(ss: seq<State>, es: seq<Event>, s: State, e: Event, t: State) returns (ss': seq<State>, es': seq<Event>)
    requires RunTo(ss, es, s) && Enabled(s, e) && t == Next(s, e)
    ensures ss' == ss + [t] && es' == es + [e] && RunTo(ss', es', t)
  {
    ss', es' := ss + [t], es + [e];
  }

  /** A process takes the lock alone and starts to stop the machine. */
  lemma StopStarts(ss: seq<State>, es: seq<Event>, s: State) returns (ss': seq<State>, es': seq<Event>)
    requires RunTo(ss, es, s) && Get(s, 1) == Proc(false, Idle) && s.locks == map[]
    ensures |es'| == |es| + 3 && es <= es' && ss <= ss'
    ensures forall k :: |es| <= k < |es'| ==> es'[k].action in {BeginIdle, TakeExclusive, BeginStop}
    ensures RunTo(ss', es', State(s.procs[1 := Proc(false, Stopping)], map[1 := Exclusive], s.machine, s.orphans))
  {
    var s1 := s.(procs := s.procs[1 := Proc(false, Trying)]);
    ss', es' := Do(ss, es, s, Event(1, BeginIdle), s1);
    var s2 := s1.(procs := s.procs[1 := Proc(false, Alone)], locks := map[1 := Exclusive]);
    assert s2 == Next(s1, Event(1, TakeExclusive));
    ss', es' := Do(ss', es', s1, Event(1, TakeExclusive), s2);
    var s3 := s2.(procs := s.procs[1 := Proc(false, Stopping)]);
    assert s3 == Next(s2, Event(1, BeginStop));
    ss', es' := Do(ss', es', s2, Event(1, BeginStop), s3);
  }

  /** A process asks for the hold, and the lock is free for it. */
  lemma HoldGranted(ss: seq<State>, es: seq<Event>, s: State, pre: bool) returns (ss': seq<State>, es': seq<Event>)
    requires RunTo(ss, es, s) && Get(s, 0) == Proc(false, Idle) && s.locks == map[]
    ensures es' == es + [Event(0, Hold(pre)), Event(0, GrantShared)] && ss <= ss'
    ensures RunTo(ss', es', s.(procs := s.procs[0 := Proc(true, AfterHold(pre))], locks := map[0 := Shared]))
  {
    var s1 := s.(procs := s.procs[0 := Proc(false, Opened(pre))]);
    ss', es' := Do(ss, es, s, Event(0, Hold(pre)), s1);
    var s2 := s.(procs := s.procs[0 := Proc(true, AfterHold(pre))], locks := map[0 := Shared]);
    assert s2 == Next(s1, Event(0, GrantShared));
    ss', es' := Do(ss', es', s1, Event(0, GrantShared), s2);
  }

  const FRESH := State(map[], map[], true, 0)

  lemma PassUnlocked() returns (ss: seq<State>, es: seq<Event>)
    ensures es == [Event(0, Hold(true)), Event(0, NoLock), Event(0, SeeRunning)]
    ensures RunTo(ss, es, FRESH.(procs := map[0 := Proc(false, Idle)]))
  {
    ss, es := [FRESH], [];
    var s1, s2 := FRESH.(procs := map[0 := Proc(false, Opened(true))]), FRESH.(procs := map[0 := Proc(false, Looking)]);
    ss, es := Do(ss, es, FRESH, Event(0, Hold(true)), s1);
    assert s2 == Next(s1, Event(0, NoLock));
    ss, es := Do(ss, es, s1, Event(0, NoLock), s2);
    var s3 := FRESH.(procs := map[0 := Proc(false, Idle)]);
    assert s3 == Next(s2, Event(0, SeeRunning));
    ss, es := Do(ss, es, s2, Event(0, SeeRunning), s3);
  }

  /** Passing the preflight without the hold does not count: a process that could not lock
      and takes the hold afterwards can find the machine stopped in between. */
  lemma LateHoldLosesTheMachine() returns (ss: seq<State>, es: seq<Event>)
    ensures Run(ss, es) && |es| == 10
    ensures Passes(es[2], 0) && HoldsUsage(ss[10], 0) && !ss[10].machine
    ensures forall k :: 0 <= k < |es| ==> !OutsideStop(es[k])
  {
    ss, es := PassUnlocked();
    var s := FRESH.(procs := map[0 := Proc(false, Idle)]);
    ss, es := StopStarts(ss, es, s);
    var t := State(s.procs[1 := Proc(false, Stopping)], map[1 := Exclusive], true, 0);
    var t1 := t.(procs := s.procs[1 := Proc(false, Alone)], machine := false);
    assert t1 == Next(t, Event(1, StopDone));
    ss, es := Do(ss, es, t, Event(1, StopDone), t1);
    var t2 := t1.(procs := s.procs[1 := Proc(false, Idle)], locks := map[]);
    assert t2 == Next(t1, Event(1, Leave));
    ss, es := Do(ss, es, t1, Event(1, Leave), t2);
    ss, es := HoldGranted(ss, es, t2, false);
  }

  /** Nor does the lock protect from the stop command of a process killed inside its stop:
      the command goes on without the lock. */
  lemma KilledStopLosesTheMachine() returns (ss: seq<State>, es: seq<Event>)
    ensures Run(ss, es) && |es| == 8
    ensures Passes(es[6], 0) && HoldsUsage(ss[6], 0) && HoldsUsage(ss[7], 0) && HoldsUsage(ss[8], 0)
    ensures !ss[8].machine && forall k :: 0 <= k < |es| ==> es[k].action != UserStop
  {
    ss, es := KilledInStop();
    var t1 := State(map[], map[], true, 1);
    ss, es := HoldGranted(ss, es, t1, true);
    var t2 := State(t1.procs[0 := Proc(true, Looking)], map[0 := Shared], true, 1);
    var t3 := State(t1.procs[0 := Proc(true, Idle)], map[0 := Shared], true, 1);
    assert t3 == Next(t2, Event(0, SeeRunning));
    ss, es := Do(ss, es, t2, Event(0, SeeRunning), t3);
    assert ss[6] == t2 && ss[7] == t3;
    ss, es := Do(ss, es, t3, Event(1, OrphanStop), t3.(machine := false, orphans := 0));
  }

  lemma KilledInStop() returns (ss: seq<State>, es: seq<Event>)
    ensures RunTo(ss, es, State(map[], map[], true, 1))
    ensures |es| == 4 && forall k :: 0 <= k < |es| ==> es[k].action != UserStop
  {
    ss, es := StopStarts([FRESH], [], FRESH);
    var t := State(FRESH.procs[1 := Proc(false, Stopping)], map[1 := Exclusive], true, 0);
    var t1 := State(map[], map[], true, 1);
    assert t1 == Next(t, Event(1, Exit));
    ss, es := Do(ss, es, t, Event(1, Exit), t1);
  }
}
