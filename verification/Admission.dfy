/** Memory admission: which launches the host's memory budget lets through, while
    other VMs are created, stopped and destroyed at any moment. */
module Admission {
  import opened Text

  const RESERVE_FLOOR_MB := 1024

  datatype Budget = Budget(totalMb: int, reserveMb: int, overcommit: real)

  function BudgetMb(b: Budget): int { b.totalMb - b.reserveMb }

  /** Python's int() of a float: towards zero. */
  function Truncate(x: real): int { if x >= 0.0 then x.Floor else -((-x).Floor) }

  function LimitMb(b: Budget): int { Truncate(BudgetMb(b) as real * b.overcommit) }

  /** `cgroupMb` is 0 when no cgroup bounds the guest. */
  function MemoryBudget(memTotalMb: int, cgroupMb: int, overcommit: real): (r: Option<Budget>)
    ensures r.None? <==> memTotalMb <= 0
    ensures r.Some? ==> 0 < r.value.totalMb <= memTotalMb && (0 < cgroupMb ==> r.value.totalMb <= cgroupMb)
    ensures r.Some? ==> r.value.totalMb == memTotalMb || r.value.totalMb == cgroupMb
    ensures r.Some? ==> RESERVE_FLOOR_MB <= r.value.reserveMb && r.value.totalMb <= 10 * r.value.reserveMb + 9
    ensures r.Some? ==> r.value.reserveMb == RESERVE_FLOOR_MB || 10 * r.value.reserveMb <= r.value.totalMb
    ensures r.Some? ==> r.value.overcommit == overcommit
  {
    if memTotalMb <= 0 then None
    else
      var total := if 0 < cgroupMb < memTotalMb then cgroupMb else memTotalMb;
      Some(Budget(total, if total / 10 > RESERVE_FLOOR_MB then total / 10 else RESERVE_FLOOR_MB, overcommit))
  }

  predicate Fits(b: Budget, needed: nat, committed: nat) {
    needed <= BudgetMb(b) && committed + needed <= LimitMb(b)
  }

  /** A VM is worth waiting for exactly when an otherwise idle host would take it. */
  lemma FitsWhenIdle(b: Budget, needed: nat)
    requires b.overcommit >= 1.0
    ensures needed <= BudgetMb(b) <==> Fits(b, needed, 0)
  {
    if needed <= BudgetMb(b) {
      var x := BudgetMb(b) as real;
      assert x * b.overcommit >= x * 1.0;
    }
  }

  datatype Outcome = Started(poll: nat) | NeverFits | GaveUp

  /** The --wait loop over the committed totals it reads, one per poll until the deadline:
      it starts the VM at the first poll with room, and gives up early only if no poll could. */
  method LaunchWithWait(b: Budget, needed: nat, polls: seq<nat>) returns (r: Outcome)
    requires b.overcommit >= 1.0 && polls != []
    ensures r.Started? ==> r.poll < |polls| && Fits(b, needed, polls[r.poll])
    ensures r.Started? ==> forall j :: 0 <= j < r.poll ==> !Fits(b, needed, polls[j])
    ensures !r.Started? ==> forall j :: 0 <= j < |polls| ==> !Fits(b, needed, polls[j])
    ensures r.NeverFits? <==> forall c: nat :: !Fits(b, needed, c)
  {
    FitsWhenIdle(b, needed);
    var k := 0;
    while k < |polls|
      invariant 0 <= k <= |polls|
      invariant k > 0 ==> needed <= BudgetMb(b)
      invariant forall j :: 0 <= j < k ==> !Fits(b, needed, polls[j])
    {
      if Fits(b, needed, polls[k]) { return Started(k); }
      if needed > BudgetMb(b) { return NeverFits; }
      k := k + 1;
    }
    r := GaveUp;
  }

  // ---- sums over VMs -------------------------------------------------------------

  ghost function Sum(m: map<string, nat>): nat
    decreases |m|
  {
    if m == map[] then 0 else var k :| k in m; assert |m - {k}| < |m| by { Smaller(m, k); } m[k] + Sum(m - {k})
  }

  lemma Smaller(m: map<string, nat>, k: string)
    requires k in m
    ensures |m - {k}| == |m| - 1
  {
    assert (m - {k}).Keys == m.Keys - {k};
  }

  lemma {:induction false} SumRemove(m: map<string, nat>, k: string)
    requires k in m
    ensures Sum(m) == m[k] + Sum(m - {k})
    decreases |m|
  {
    var j :| j in m && Sum(m) == m[j] + Sum(m - {j});
    if j != k {
      Smaller(m, j);
      Smaller(m, k);
      SumRemove(m - {j}, k);
      SumRemove(m - {k}, j);
      assert m - {j} - {k} == m - {k} - {j};
    }
  }

  lemma {:induction false} SumMonotone(m: map<string, nat>, n: map<string, nat>)
    requires forall k :: k in m ==> k in n && n[k] == m[k]
    ensures Sum(m) <= Sum(n)
    decreases |m|
  {
    if m != map[] {
      var k :| k in m;
      Smaller(m, k);
      SumRemove(m, k);
      SumRemove(n, k);
      SumMonotone(m - {k}, n - {k});
    }
  }

  lemma {:induction false} SumBounded(m: map<string, nat>, n: map<string, nat>)
    requires forall k :: k in m ==> k in n && m[k] <= n[k]
    ensures Sum(m) <= Sum(n)
    decreases |m|
  {
    if m != map[] {
      var k :| k in m;
      Smaller(m, k);
      SumRemove(m, k);
      SumRemove(n, k);
      SumBounded(m - {k}, n - {k});
    }
  }

  // ---- the protocol ----------------------------------------------------------------

  /** A VM: the memory its record holds, the memory its QEMU was started with while it runs,
      and whether the record can be read.  The scan skips an unreadable one with a warning. */
  datatype Vm = Vm(mem: nat, qemu: Option<nat>, readable: bool)

  /** A process that has loaded a VM and is about to start it, or waits for memory to. */
  datatype Launcher = Launcher(vm: string, needed: nat)

  /** The launcher holding the lock: the records it has still to read, and the (name, MiB)
      list so far. */
  datatype Scan = Scan(pid: nat, todo: set<string>, seen: map<string, nat>)

  datatype Host = Host(vms: map<string, Vm>, pending: map<nat, Launcher>, lock: Option<Scan>)

  /** `Set` is a write of `ltvm set`, which looks whether the VM runs before it writes but takes
      no lock, so a start may come in between.  `Release` gives the lock up until the next
      poll; `GiveUp` ends the launcher, wherever it is. */
  datatype Step =
    | Create(name: string, mem: nat)
    | Set(name: string, mem: nat)
    | Stop(name: string)
    | Destroy(name: string)
    | Corrupt(name: string)
    | Load(pid: nat, name: string)
    | Acquire(pid: nat)
    | Read(name: string)
    | Admit
    | Release
    | GiveUp(pid: nat)

  predicate Runs(vms: map<string, Vm>, n: string) { n in vms && vms[n].qemu.Some? }

  /** One step of one process; a step that is not enabled changes nothing. */
  ghost function Do(b: Budget, h: Host, s: Step): Host {
    match s
    case Create(n, mem) => if n in h.vms then h else h.(vms := h.vms[n := Vm(mem, None, true)])
    case Set(n, mem) => if n in h.vms then h.(vms := h.vms[n := Vm(mem, h.vms[n].qemu, true)]) else h
    case Stop(n) => if n in h.vms then h.(vms := h.vms[n := h.vms[n].(qemu := None)]) else h
    case Destroy(n) => h.(vms := h.vms - {n})
    case Corrupt(n) => if n in h.vms then h.(vms := h.vms[n := h.vms[n].(readable := false)]) else h
    case Load(p, n) =>
      if p !in h.pending && n in h.vms && h.vms[n].readable
      then h.(pending := h.pending[p := Launcher(n, h.vms[n].mem)]) else h
    case Acquire(p) =>
      if h.lock.None? && p in h.pending
      then h.(lock := Some(Scan(p, h.vms.Keys - {h.pending[p].vm}, map[]))) else h
    case Read(n) =>
      if h.lock.Some? && n in h.lock.value.todo then h.(lock := Some(ReadInto(h.vms, h.lock.value, n))) else h
    case Admit =>
      if Admits(b, h)
      then Host(StartQemu(h.vms, h.pending[h.lock.value.pid]), h.pending - {h.lock.value.pid}, None) else h
    case Release => h.(lock := None)
    case GiveUp(p) =>
      Host(h.vms, h.pending - {p}, if h.lock.Some? && h.lock.value.pid == p then None else h.lock)
  }

  function ReadInto(vms: map<string, Vm>, l: Scan, n: string): Scan {
    var counts := Runs(vms, n) && vms[n].readable;
    l.(todo := l.todo - {n}, seen := if counts then l.seen[n := vms[n].mem] else l.seen)
  }

  ghost predicate Admits(b: Budget, h: Host) {
    && h.lock.Some? && h.lock.value.todo == {} && h.lock.value.pid in h.pending
    && Fits(b, h.pending[h.lock.value.pid].needed, Sum(h.lock.value.seen))
  }

  /** QEMU gets the memory the launcher loaded, and the record gets QEMU's pid and nothing
      else.  Of a VM that is gone the disk is gone too; of one that runs QEMU holds the
      pidfile: both make the start fail. */
  function StartQemu(vms: map<string, Vm>, l: Launcher): map<string, Vm> {
    if l.vm !in vms || vms[l.vm].qemu.Some? then vms
    else vms[l.vm := vms[l.vm].(qemu := Some(l.needed))]
  }

  ghost function Run(b: Budget, h: Host, s: seq<Step>): Host {
    if s == [] then h else Do(b, Run(b, h, s[..|s| - 1]), s[|s| - 1])
  }

  /** The memory really in use, and what a scan counts of it. */
  function Running(vms: map<string, Vm>): map<string, nat> {
    map n | Runs(vms, n) && n in vms :: vms[n].qemu.value
  }

  function Counted(vms: map<string, Vm>): map<string, nat> {
    map n | n in vms && Runs(vms, n) && vms[n].readable :: vms[n].mem
  }

  /** The scan when nothing moves: it finds exactly the other running VMs it can read. */
  method RunningVmMemory(vms: map<string, Vm>, names: seq<string>, skip: string) returns (seen: map<string, nat>)
    ensures seen == map n | n in names && n != skip && n in Counted(vms) :: vms[n].mem
  {
    seen := map[];
    for i := 0 to |names|
      invariant seen == map n | n in names[..i] && n != skip && n in Counted(vms) :: vms[n].mem
    {
      var n := names[i];
      assert names[..i + 1] == names[..i] + [n];
      if n != skip && n in vms && vms[n].readable && vms[n].qemu.Some? {
        seen := seen[n := vms[n].mem];
      }
    }
    assert names[..|names|] == names;
  }

  // ---- the VMs a scan counts in full ---------------------------------------------------------

  /** A running VM whose record is readable and holds no less than QEMU has. */
  predicate IsShown(vm: Vm) { vm.qemu.Some? && vm.readable && vm.qemu.value <= vm.mem }

  function Shown(vms: map<string, Vm>): map<string, nat> {
    map n | n in vms && IsShown(vms[n]) :: vms[n].qemu.value
  }

  predicate AllShown(vms: map<string, Vm>) { forall n :: n in vms && vms[n].qemu.Some? ==> IsShown(vms[n]) }

  predicate Within(b: Budget, m: map<string, nat>) { forall n :: n in m ==> m[n] <= BudgetMb(b) }

  /** Every VM shown is still to be read, or was counted in full. */
  ghost predicate ScanCovers(vms: map<string, Vm>, vm: string, l: Scan) {
    forall n :: n in Shown(vms) && n != vm ==> n in l.todo || (n in l.seen && Shown(vms)[n] <= l.seen[n])
  }

  ghost predicate Inv(b: Budget, h: Host) {
    && (Shown(h.vms) == map[] || Sum(Shown(h.vms)) <= LimitMb(b))
    && (h.lock.Some? ==>
          h.lock.value.pid in h.pending && ScanCovers(h.vms, h.pending[h.lock.value.pid].vm, h.lock.value))
  }

  /** A write of `set` that makes a running VM count in full that did not before. */
  predicate Reveals(vms: map<string, Vm>, s: Step) {
    s.Set? && Runs(vms, s.name) && !IsShown(vms[s.name]) && vms[s.name].qemu.value <= s.mem
  }

  /** Steps of others only ever lower what is shown. */
  lemma FewerShown(b: Budget, h: Host, h': Host)
    requires Inv(b, h) && h'.lock == h.lock
    requires h.lock.Some? ==>
               h.lock.value.pid in h'.pending && h'.pending[h.lock.value.pid] == h.pending[h.lock.value.pid]
    requires forall n :: n in Shown(h'.vms) ==> n in Shown(h.vms) && Shown(h'.vms)[n] == Shown(h.vms)[n]
    ensures Inv(b, h')
  {
    SumMonotone(Shown(h'.vms), Shown(h.vms));
    if Shown(h.vms) == map[] {
      assert Shown(h'.vms) == map[];
    }
  }

  lemma StartTouchesOne(vms: map<string, Vm>, l: Launcher)
    ensures var vms' := StartQemu(vms, l);
            && Shown(vms') - {l.vm} == Shown(vms) - {l.vm}
            && (forall n :: n != l.vm ==> (Runs(vms', n) <==> Runs(vms, n)))
            && (forall n :: n != l.vm && Runs(vms, n) ==> vms'[n] == vms[n])
            && (vms' == vms || (Runs(vms', l.vm) && vms'[l.vm].qemu.value == l.needed && !Runs(vms, l.vm)))
  {
  }

  /** Under the lock the scanned total bounds what is shown at the launch. */
  lemma AdmitKeeps(b: Budget, h: Host)
    requires Inv(b, h) && Admits(b, h)
    ensures Inv(b, Do(b, h, Admit))
  {
    var l := h.pending[h.lock.value.pid];
    var vms' := StartQemu(h.vms, l);
    StartTouchesOne(h.vms, l);
    if vms' != h.vms {
      var others := Shown(h.vms) - {l.vm};
      SumBounded(others, h.lock.value.seen);
      if l.vm in Shown(vms') {
        SumRemove(Shown(vms'), l.vm);
      } else {
        assert Shown(vms') == Shown(vms') - {l.vm};
      }
    }
  }

  lemma ReadKeeps(b: Budget, h: Host, n: string)
    requires Inv(b, h) && h.lock.Some? && n in h.lock.value.todo
    ensures Inv(b, Do(b, h, Read(n)))
  {
    var l := h.lock.value;
    var l' := ReadInto(h.vms, l, n);
    assert l'.pid == l.pid;
    if n in Shown(h.vms) {
      assert l'.seen[n] == h.vms[n].mem && Shown(h.vms)[n] <= h.vms[n].mem;
    }
  }

  /** Every step keeps what is shown within the limit, unless it reveals what was hidden. */
  lemma StepKeeps(b: Budget, h: Host, s: Step)
    requires Inv(b, h) && !Reveals(h.vms, s)
    ensures Inv(b, Do(b, h, s))
  {
    var h' := Do(b, h, s);
    match s {
      case Admit =>
        if Admits(b, h) { AdmitKeeps(b, h); }
      case Acquire(p) =>
      case Read(n) =>
        if h.lock.Some? && n in h.lock.value.todo { ReadKeeps(b, h, n); }
      case Release =>
      case GiveUp(p) =>
      case _ => FewerShown(b, h, h');
    }
  }

  predicate Idle(h: Host) { h.lock.None? && forall n :: n in h.vms ==> h.vms[n].qemu.None? }

  ghost predicate NothingRevealed(b: Budget, h: Host, s: seq<Step>) {
    forall i :: 0 <= i < |s| ==> !Reveals(Run(b, h, s[..i]).vms, s[i])
  }

  lemma {:induction false} RunKeeps(b: Budget, h: Host, s: seq<Step>)
    requires Idle(h) && NothingRevealed(b, h, s)
    ensures Inv(b, Run(b, h, s))
  {
    if s == [] {
      assert Shown(h.vms) == map[];
    } else {
      var n := |s| - 1;
      forall i | 0 <= i < n ensures !Reveals(Run(b, h, s[..n][..i]).vms, s[..n][i]) {
        assert s[..n][..i] == s[..i];
      }
      RunKeeps(b, h, s[..n]);
      StepKeeps(b, Run(b, h, s[..n]), s[n]);
    }
  }

  lemma StepKeepsBudget(b: Budget, h: Host, s: Step)
    requires Within(b, Running(h.vms))
    ensures Within(b, Running(Do(b, h, s).vms))
  {
    var vms' := Do(b, h, s).vms;
    forall n | n in Running(vms') ensures Running(vms')[n] <= BudgetMb(b) {
      assert Runs(h.vms, n) && vms'[n].qemu == h.vms[n].qemu ==> n in Running(h.vms);
    }
  }

  /** In every run whatsoever, no running VM exceeds the budget. */
  lemma {:induction false} NoVmExceedsTheBudget(b: Budget, h: Host, s: seq<Step>)
    requires Within(b, Running(h.vms))
    ensures Within(b, Running(Run(b, h, s).vms))
  {
    if s != [] {
      NoVmExceedsTheBudget(b, h, s[..|s| - 1]);
      StepKeepsBudget(b, Run(b, h, s[..|s| - 1]), s[|s| - 1]);
    }
  }

  /** In every interleaving in which `set` reveals no hidden VM, the VMs a scan counts in full
      stay within the limit together. */
  lemma CommittedStaysWithinLimit(b: Budget, h: Host, s: seq<Step>)
    requires Idle(h) && NothingRevealed(b, h, s)
    ensures var vms := Run(b, h, s).vms; Shown(vms) != map[] ==> Sum(Shown(vms)) <= LimitMb(b)
  {
    RunKeeps(b, h, s);
  }

  // ---- runs in which every VM is counted in full -----------------------------------------------

  /** What could make QEMU's memory differ from the record's: a record damaged, changed, or
      made anew under a launcher that has loaded it. */
  predicate Upsets(h: Host, s: Step) {
    s.Corrupt? || s.Set? || (s.Create? && exists p :: p in h.pending && h.pending[p].vm == s.name)
  }

  ghost predicate Calm(b: Budget, h: Host, s: seq<Step>) {
    forall i :: 0 <= i < |s| ==> !Upsets(Run(b, h, s[..i]), s[i])
  }

  lemma CalmPrefix(b: Budget, h: Host, s: seq<Step>, n: nat)
    requires Calm(b, h, s) && n <= |s|
    ensures Calm(b, h, s[..n])
  {
    forall i | 0 <= i < n ensures !Upsets(Run(b, h, s[..n][..i]), s[..n][i]) {
      assert s[..n][..i] == s[..i];
    }
  }

  lemma CalmRevealsNothing(b: Budget, h: Host, s: seq<Step>)
    requires Calm(b, h, s)
    ensures NothingRevealed(b, h, s)
  {
    forall i | 0 <= i < |s| ensures !Reveals(Run(b, h, s[..i]).vms, s[i]) {
      assert !Upsets(Run(b, h, s[..i]), s[i]);
    }
  }

  /** Launchers know their VMs as the records have them. */
  predicate Current(h: Host) {
    forall p :: p in h.pending && h.pending[p].vm in h.vms ==>
      h.vms[h.pending[p].vm].readable && h.pending[p].needed <= h.vms[h.pending[p].vm].mem
  }

  lemma StepStaysShown(b: Budget, h: Host, s: Step)
    requires AllShown(h.vms) && Current(h) && !Upsets(h, s)
    ensures AllShown(Do(b, h, s).vms) && Current(Do(b, h, s))
  {
    var h' := Do(b, h, s);
    forall n | Runs(h'.vms, n) ensures IsShown(h'.vms[n]) {
      assert Runs(h.vms, n) ==> IsShown(h.vms[n]);
    }
  }

  lemma {:induction false} StaysShown(b: Budget, h: Host, s: seq<Step>)
    requires Idle(h) && Current(h) && Calm(b, h, s)
    ensures AllShown(Run(b, h, s).vms) && Current(Run(b, h, s))
  {
    if s != [] {
      var n := |s| - 1;
      CalmPrefix(b, h, s, n);
      StaysShown(b, h, s[..n]);
      StepStaysShown(b, Run(b, h, s[..n]), s[n]);
    }
  }

  /** All running VMs together stay within the limit in every state of a run at which they are
      all counted in full, and so in every state of a calm run. */
  lemma RunningStaysWithinLimit(b: Budget, h: Host, s: seq<Step>)
    requires Idle(h)
    requires (NothingRevealed(b, h, s) && AllShown(Run(b, h, s).vms)) || (Current(h) && Calm(b, h, s))
    ensures var vms := Run(b, h, s).vms; Running(vms) != map[] ==> Sum(Running(vms)) <= LimitMb(b)
  {
    if Current(h) && Calm(b, h, s) {
      CalmRevealsNothing(b, h, s);
      StaysShown(b, h, s);
    }
    RunKeeps(b, h, s);
    ShownIsRunning(Run(b, h, s).vms);
  }

  lemma ShownIsRunning(vms: map<string, Vm>)
    requires AllShown(vms)
    ensures Shown(vms) == Running(vms)
  {
  }

  lemma {:induction false} RunAppend(b: Budget, h: Host, s: seq<Step>, t: seq<Step>)
    ensures Run(b, h, s + t) == Run(b, Run(b, h, s), t)
  {
    if t == [] {
      assert s + t == s;
    } else {
      RunAppend(b, h, s, t[..|t| - 1]);
      assert (s + t)[..|s + t| - 1] == s + t[..|t| - 1];
    }
  }
}
