/** Which hosts can come to exceed the memory limit: those with a VM whose QEMU has, or is about
    to get, more memory than a scan counts for it. */
module Exposure {
  import opened Text
  import opened Admission

  /** What a scan counts for the VM while it runs. */
  function Counts(vm: Vm): nat { if vm.readable then vm.mem else 0 }

  /** A running VM that is not counted in full. */
  predicate Hides(vm: Vm) { vm.qemu.Some? && vm.qemu.value > Counts(vm) }

  /** A launcher that can be let through and would start such a VM. */
  predicate WillHide(b: Budget, vms: map<string, Vm>, l: Launcher) {
    l.vm in vms && Counts(vms[l.vm]) < l.needed <= BudgetMb(b)
  }

  predicate Exposed(b: Budget, h: Host) {
    || (exists n :: n in h.vms && Hides(h.vms[n]))
    || (exists p :: p in h.pending && WillHide(b, h.vms, h.pending[p]))
  }

  ghost predicate Exceeds(b: Budget, h: Host) { Sum(Running(h.vms)) > LimitMb(b) }

  lemma LimitCoversBudget(b: Budget)
    requires b.overcommit >= 1.0 && BudgetMb(b) >= 0
    ensures BudgetMb(b) <= LimitMb(b)
  {
    var x := BudgetMb(b) as real;
    assert x * b.overcommit >= x * 1.0;
  }

  // ---- runs -------------------------------------------------------------------------------

  lemma RunOne(b: Budget, h: Host, e: Step)
    ensures Run(b, h, [e]) == Do(b, h, e)
    ensures !Upsets(h, e) ==> Calm(b, h, [e])
  {
    assert [e][..0] == [];
    assert Run(b, h, []) == h;
  }

  lemma CalmAppend(b: Budget, h: Host, s: seq<Step>, t: seq<Step>)
    requires Calm(b, h, s) && Calm(b, Run(b, h, s), t)
    ensures Calm(b, h, s + t) && Run(b, h, s + t) == Run(b, Run(b, h, s), t)
  {
    RunAppend(b, h, s, t);
    forall i | 0 <= i < |s + t| ensures !Upsets(Run(b, h, (s + t)[..i]), (s + t)[i]) {
      if i < |s| {
        assert (s + t)[..i] == s[..i] && (s + t)[i] == s[i];
      } else {
        var j := i - |s|;
        assert (s + t)[..i] == s + t[..j] && (s + t)[i] == t[j];
        RunAppend(b, h, s, t[..j]);
      }
    }
  }

  lemma RunCons(b: Budget, h: Host, e: Step, s: seq<Step>)
    requires !Upsets(h, e) && Calm(b, Do(b, h, e), s)
    ensures Calm(b, h, [e] + s) && Run(b, h, [e] + s) == Run(b, Do(b, h, e), s)
  {
    RunOne(b, h, e);
    CalmAppend(b, h, [e], s);
  }

  // ---- a host that is not exposed stays within the limit ---------------------------------------

  lemma StepStaysCovered(b: Budget, h: Host, s: Step)
    requires !Exposed(b, h) && !Upsets(h, s)
    ensures !Exposed(b, Do(b, h, s))
  {
    var h' := Do(b, h, s);
    forall n | n in h'.vms ensures !Hides(h'.vms[n]) {
      assert n in h.vms ==> !Hides(h.vms[n]);
      if s.Admit? && Admits(b, h) {
        assert !WillHide(b, h.vms, h.pending[h.lock.value.pid]);
      }
    }
    forall p | p in h'.pending ensures !WillHide(b, h'.vms, h'.pending[p]) {
      assert p in h.pending ==> !WillHide(b, h.vms, h.pending[p]);
    }
  }

  lemma {:induction false} RunStaysCovered(b: Budget, h: Host, s: seq<Step>)
    requires !Exposed(b, h) && Inv(b, h) && Calm(b, h, s)
    ensures !Exposed(b, Run(b, h, s)) && Inv(b, Run(b, h, s))
  {
    if s != [] {
      var n := |s| - 1;
      CalmPrefix(b, h, s, n);
      RunStaysCovered(b, h, s[..n]);
      var u := Run(b, h, s[..n]);
      assert !Upsets(u, s[n]);
      StepStaysCovered(b, u, s[n]);
      StepKeeps(b, u, s[n]);
    }
  }

  lemma {:induction false} SumWithZeros(m: map<string, nat>, n: map<string, nat>)
    requires forall k :: k in m ==> k in n && n[k] == m[k]
    requires forall k :: k in n && k !in m ==> n[k] == 0
    ensures Sum(n) == Sum(m)
    decreases |n|
  {
    if n == map[] {
      assert m == map[];
    } else {
      var k :| k in n;
      SumRemove(n, k);
      Smaller(n, k);
      if k in m {
        SumRemove(m, k);
        SumWithZeros(m - {k}, n - {k});
      } else {
        SumWithZeros(m, n - {k});
      }
    }
  }

  lemma CoveredIsWithin(b: Budget, h: Host)
    requires Inv(b, h) && !Exposed(b, h) && LimitMb(b) >= 0
    ensures !Exceeds(b, h)
  {
    var m, n := Shown(h.vms), Running(h.vms);
    forall k | k in n && k !in m ensures n[k] == 0 {
      assert !Hides(h.vms[k]);
    }
    SumWithZeros(m, n);
  }

  lemma WithinIsInv(b: Budget, h: Host)
    requires h.lock.None? && !Exceeds(b, h)
    ensures Inv(b, h)
  {
    SumMonotone(Shown(h.vms), Running(h.vms));
  }

  // ---- a launch on a host of any size ------------------------------------------------------------

  function Pick(m: map<string, nat>, ks: set<string>): map<string, nat> { map k | k in m && k in ks :: m[k] }

  /** The scan to its end, with nothing else going on. */
  lemma {:induction false} ReadAll(b: Budget, h: Host) returns (s: seq<Step>)
    requires h.lock.Some?
    ensures Calm(b, h, s)
    ensures var l := h.lock.value;
            Run(b, h, s) == h.(lock := Some(l.(todo := {}, seen := l.seen + Pick(Counted(h.vms), l.todo))))
    decreases |h.lock.value.todo|
  {
    var l := h.lock.value;
    if l.todo == {} {
      s := [];
      assert l.seen + Pick(Counted(h.vms), {}) == l.seen;
    } else {
      var k :| k in l.todo;
      var h1 := Do(b, h, Read(k));
      var rest := ReadAll(b, h1);
      s := [Read(k)] + rest;
      RunCons(b, h, Read(k), rest);
      ReadOne(h.vms, l, k);
    }
  }

  lemma ReadOne(vms: map<string, Vm>, l: Scan, k: string)
    requires k in l.todo
    ensures ReadInto(vms, l, k).seen + Pick(Counted(vms), l.todo - {k}) == l.seen + Pick(Counted(vms), l.todo)
  {
  }

  lemma SeesTheOthers(vms: map<string, Vm>, x: string)
    requires x in vms && vms[x].qemu.None?
    ensures map[] + Pick(Counted(vms), vms.Keys - {x}) == Counted(vms)
  {
  }

  /** A launcher whose VM is stopped and fits beside the counted ones starts it. */
  lemma LaunchAlone(b: Budget, h: Host, p: nat) returns (s: seq<Step>)
    requires h.lock.None? && p in h.pending && h.pending[p].vm in h.vms && h.vms[h.pending[p].vm].qemu.None?
    requires Fits(b, h.pending[p].needed, Sum(Counted(h.vms)))
    ensures Calm(b, h, s) && Run(b, h, s) == Host(StartQemu(h.vms, h.pending[p]), h.pending - {p}, None)
  {
    var x := h.pending[p].vm;
    var h1 := Do(b, h, Acquire(p));
    var scan := ReadAll(b, h1);
    SeesTheOthers(h.vms, x);
    var h2 := h.(lock := Some(Scan(p, {}, Counted(h.vms))));
    assert Run(b, h1, scan) == h2;
    assert Do(b, h2, Admit) == Host(StartQemu(h.vms, h.pending[p]), h.pending - {p}, None);
    RunOne(b, h2, Admit);
    CalmAppend(b, h1, scan, [Admit]);
    s := [Acquire(p)] + (scan + [Admit]);
    RunCons(b, h, Acquire(p), scan + [Admit]);
  }

  // ---- filling the host ------------------------------------------------------------------------------

  lemma {:induction false} FreshName(ks: set<string>) returns (n: string)
    ensures forall k :: k in ks ==> |k| < |n|
    decreases |ks|
  {
    if ks == {} {
      n := "x";
    } else {
      var k :| k in ks;
      var m := FreshName(ks - {k});
      n := if |m| > |k| then m else k + "x";
    }
  }

  lemma {:induction false} FreshPid(ks: set<nat>) returns (n: nat)
    ensures forall k :: k in ks ==> k < n
    decreases |ks|
  {
    if ks == {} {
      n := 0;
    } else {
      var k :| k in ks;
      var m := FreshPid(ks - {k});
      n := if m > k then m else k + 1;
      assert forall j :: j in ks ==> j == k || j in ks - {k};
    }
  }

  const UNIT := Vm(1, Some(1), true)

  /** A new VM of 1 MiB runs, and nothing else has changed. */
  lemma {:induction false} AddOne(b: Budget, h: Host) returns (s: seq<Step>, x: string)
    requires h.lock.None? && BudgetMb(b) >= 1 && Sum(Counted(h.vms)) + 1 <= LimitMb(b)
    ensures Calm(b, h, s) && x !in h.vms && Run(b, h, s) == h.(vms := h.vms[x := UNIT])
    ensures Sum(Counted(h.vms[x := UNIT])) == Sum(Counted(h.vms)) + 1
  {
    x := FreshName(h.vms.Keys + set p | p in h.pending :: h.pending[p].vm);
    var p := FreshPid(h.pending.Keys);
    assert x !in h.vms && p !in h.pending;
    assert !Upsets(h, Create(x, 1)) by {
      forall q | q in h.pending ensures h.pending[q].vm != x {
        assert h.pending[q].vm in set q | q in h.pending :: h.pending[q].vm;
      }
    }
    var h1 := Do(b, h, Create(x, 1));
    var h2 := Do(b, h1, Load(p, x));
    assert h2 == Host(h.vms[x := Vm(1, None, true)], h.pending[p := Launcher(x, 1)], None);
    assert Counted(h2.vms) == Counted(h.vms);
    var launch := LaunchAlone(b, h2, p);
    assert h2.pending - {p} == h.pending;
    assert StartQemu(h2.vms, h2.pending[p]) == h.vms[x := UNIT];
    RunCons(b, h1, Load(p, x), launch);
    s := [Create(x, 1)] + ([Load(p, x)] + launch);
    RunCons(b, h, Create(x, 1), [Load(p, x)] + launch);
    CountUnit(h.vms, x);
  }

  lemma CountUnit(vms: map<string, Vm>, x: string)
    requires x !in vms
    ensures Sum(Counted(vms[x := UNIT])) == Sum(Counted(vms)) + 1
  {
    var c := Counted(vms[x := UNIT]);
    assert c - {x} == Counted(vms);
    SumRemove(c, x);
  }

  /** VMs of 1 MiB, one by one, until the counted total has grown by `k`. */
  lemma {:induction false} Fill(b: Budget, h: Host, k: nat) returns (s: seq<Step>)
    requires h.lock.None? && BudgetMb(b) >= 1 && Sum(Counted(h.vms)) + k <= LimitMb(b)
    ensures Calm(b, h, s)
    ensures var vms := Run(b, h, s).vms;
            && (forall n :: n in h.vms ==> n in vms && vms[n] == h.vms[n])
            && (forall n :: n in vms && n !in h.vms ==> vms[n] == UNIT)
            && Sum(Counted(vms)) == Sum(Counted(h.vms)) + k
    decreases k
  {
    if k == 0 {
      s := [];
    } else {
      var one, x := AddOne(b, h);
      var rest := Fill(b, Run(b, h, one), k - 1);
      s := one + rest;
      CalmAppend(b, h, one, rest);
    }
  }

  function Stopped(vms: map<string, Vm>, ns: set<string>): map<string, Vm> {
    map n | n in vms :: if n in ns then vms[n].(qemu := None) else vms[n]
  }

  lemma {:induction false} StopAll(b: Budget, h: Host, ns: set<string>) returns (s: seq<Step>)
    ensures Calm(b, h, s) && Run(b, h, s) == h.(vms := Stopped(h.vms, ns))
    decreases |ns|
  {
    if ns == {} {
      s := [];
      assert Stopped(h.vms, ns) == h.vms;
    } else {
      var n :| n in ns;
      var h1 := Do(b, h, Stop(n));
      var rest := StopAll(b, h1, ns - {n});
      s := [Stop(n)] + rest;
      RunCons(b, h, Stop(n), rest);
      assert Stopped(h1.vms, ns - {n}) == Stopped(h.vms, ns);
    }
  }

  /** One VM is hidden, and every other running one is counted exactly. */
  predicate ExactBut(vms: map<string, Vm>, u: string) {
    && u in vms && Hides(vms[u])
    && forall n :: n in vms && n != u && vms[n].qemu.Some? ==> vms[n].readable && vms[n].qemu == Some(vms[n].mem)
  }

  lemma MoreRunsThanCounted(vms: map<string, Vm>, u: string)
    requires ExactBut(vms, u)
    ensures Sum(Running(vms)) > Sum(Counted(vms))
  {
    SumRemove(Running(vms), u);
    assert Running(vms) - {u} == Counted(vms) - {u};
    if u in Counted(vms) {
      SumRemove(Counted(vms), u);
    } else {
      assert Counted(vms) - {u} == Counted(vms);
    }
  }

  lemma CountedAlone(vms: map<string, Vm>, u: string)
    requires u in vms && vms[u].qemu.Some? && forall n :: n in vms && n != u ==> vms[n].qemu.None?
    ensures Sum(Counted(vms)) == Counts(vms[u])
  {
    var c := Counted(vms);
    if vms[u].readable {
      assert c == map[u := vms[u].mem];
      SumRemove(c, u);
      assert c - {u} == map[];
    } else {
      assert c == map[];
    }
  }

  /** With one VM hidden, the counted ones can fill the whole limit. */
  lemma HiddenExceeds(b: Budget, h: Host, u: string) returns (s: seq<Step>)
    requires Within(b, Running(h.vms)) && h.lock.None? && b.overcommit >= 1.0 && BudgetMb(b) >= 1
    requires u in h.vms && Hides(h.vms[u])
    ensures Calm(b, h, s) && Exceeds(b, Run(b, h, s))
  {
    LimitCoversBudget(b);
    var stops := StopAll(b, h, h.vms.Keys - {u});
    var h1 := Run(b, h, stops);
    assert h1.vms[u] == h.vms[u] && u in Running(h.vms);
    CountedAlone(h1.vms, u);
    var fill := Fill(b, h1, LimitMb(b) - Counts(h.vms[u]));
    s := stops + fill;
    CalmAppend(b, h, stops, fill);
    MoreRunsThanCounted(Run(b, h, s).vms, u);
  }

  /** Once the others have stopped, the launcher is let through, and its VM is hidden. */
  lemma WaitingExceeds(b: Budget, h: Host, p: nat) returns (s: seq<Step>)
    requires Within(b, Running(h.vms)) && h.lock.None? && b.overcommit >= 1.0 && BudgetMb(b) >= 1
    requires p in h.pending && WillHide(b, h.vms, h.pending[p])
    ensures Calm(b, h, s) && Exceeds(b, Run(b, h, s))
  {
    LimitCoversBudget(b);
    var stops := StopAll(b, h, h.vms.Keys);
    var h1 := Run(b, h, stops);
    assert Counted(h1.vms) == map[];
    var launch := LaunchAlone(b, h1, p);
    CalmAppend(b, h, stops, launch);
    NoVmExceedsTheBudget(b, h, stops + launch);
    var more := HiddenExceeds(b, Run(b, h, stops + launch), h.pending[p].vm);
    s := stops + launch + more;
    CalmAppend(b, h, stops + launch, more);
  }

  // ---- exactly ---------------------------------------------------------------------------------------

  /** Some calm run leads over the limit. */
  ghost predicate CanExceed(b: Budget, h: Host) { exists s :: Calm(b, h, s) && Exceeds(b, Run(b, h, s)) }

  /** With the lock free, the running VMs can come to exceed the limit with no record damaged or
      changed any more exactly when they exceed it already, a running VM is not counted in full,
      or a launcher waits that would start such a VM and fits the budget. */
  lemma LimitBreaksExactly(b: Budget, h: Host)
    requires Within(b, Running(h.vms)) && h.lock.None? && b.overcommit >= 1.0 && BudgetMb(b) >= 1
    ensures CanExceed(b, h) <==> Exceeds(b, h) || Exposed(b, h)
  {
    if Exceeds(b, h) {
      assert Run(b, h, []) == h && Calm(b, h, []);
    } else if Exposed(b, h) {
      var s := ExposedExceeds(b, h);
    } else {
      LimitCoversBudget(b);
      WithinIsInv(b, h);
      forall s | Calm(b, h, s) ensures !Exceeds(b, Run(b, h, s)) {
        RunStaysCovered(b, h, s);
        CoveredIsWithin(b, Run(b, h, s));
      }
    }
  }

  lemma ExposedExceeds(b: Budget, h: Host) returns (s: seq<Step>)
    requires Within(b, Running(h.vms)) && h.lock.None? && b.overcommit >= 1.0 && BudgetMb(b) >= 1
    requires Exposed(b, h)
    ensures Calm(b, h, s) && Exceeds(b, Run(b, h, s))
  {
    if u :| u in h.vms && Hides(h.vms[u]) {
      s := HiddenExceeds(b, h, u);
    } else {
      var p :| p in h.pending && WillHide(b, h.vms, h.pending[p]);
      s := WaitingExceeds(b, h, p);
    }
  }

  /** So for every state that any run from an idle host can reach. */
  lemma EveryRunIsExposedExactly(b: Budget, h: Host, s: seq<Step>)
    requires Idle(h) && b.overcommit >= 1.0 && BudgetMb(b) >= 1 && Run(b, h, s).lock.None?
    ensures CanExceed(b, Run(b, h, s)) <==> Exceeds(b, Run(b, h, s)) || Exposed(b, Run(b, h, s))
  {
    NoVmExceedsTheBudget(b, h, s);
    LimitBreaksExactly(b, Run(b, h, s));
  }

  // ---- what exposes a host -----------------------------------------------------------------------------

  /** A launcher for `n` that fits the budget and asks for more than `counted`. */
  predicate Awaited(b: Budget, h: Host, n: string, counted: nat) {
    exists p :: p in h.pending && h.pending[p].vm == n && counted < h.pending[p].needed <= BudgetMb(b)
  }

  /** A record that can no longer be read exposes the host exactly when its VM runs with memory,
      or a launcher has loaded it: a stopped VM alone does not, for nothing can load it. */
  lemma CorruptExposes(b: Budget, h: Host, n: string)
    requires !Exposed(b, h) && n in h.vms
    ensures Exposed(b, Do(b, h, Corrupt(n))) <==>
            (h.vms[n].qemu.Some? && h.vms[n].qemu.value > 0) || Awaited(b, h, n, 0)
  {
    ChangeExposes(b, h, n, h.vms[n].(readable := false));
  }

  /** A change of the memory does exactly when QEMU has more than the new amount, or a launcher
      has loaded more. */
  lemma SetExposes(b: Budget, h: Host, n: string, mem: nat)
    requires !Exposed(b, h) && n in h.vms
    ensures Exposed(b, Do(b, h, Set(n, mem))) <==>
            (h.vms[n].qemu.Some? && h.vms[n].qemu.value > mem) || Awaited(b, h, n, mem)
  {
    ChangeExposes(b, h, n, Vm(mem, h.vms[n].qemu, true));
  }

  /** A VM made anew does exactly when a launcher has loaded more from the one before. */
  lemma CreateExposes(b: Budget, h: Host, n: string, mem: nat)
    requires !Exposed(b, h) && n !in h.vms
    ensures Exposed(b, Do(b, h, Create(n, mem))) <==> Awaited(b, h, n, mem)
  {
    ChangeExposes(b, h, n, Vm(mem, None, true));
  }

  lemma ChangeExposes(b: Budget, h: Host, n: string, vm: Vm)
    requires !Exposed(b, h)
    ensures Exposed(b, h.(vms := h.vms[n := vm])) <==> Hides(vm) || Awaited(b, h, n, Counts(vm))
  {
    var h' := h.(vms := h.vms[n := vm]);
    if Hides(vm) {
      assert n in h'.vms && Hides(h'.vms[n]);
    }
    if p :| p in h.pending && h.pending[p].vm == n && Counts(vm) < h.pending[p].needed <= BudgetMb(b) {
      assert WillHide(b, h'.vms, h'.pending[p]);
    }
    if Exposed(b, h') && !Hides(vm) {
      forall k | k in h'.vms ensures !Hides(h'.vms[k]) {
        assert k != n ==> k in h.vms && !Hides(h.vms[k]);
      }
      var p :| p in h'.pending && WillHide(b, h'.vms, h'.pending[p]);
      assert !WillHide(b, h.vms, h.pending[p]);
    }
  }
}
