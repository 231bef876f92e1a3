/** Whether a rewrite of the disk block undoes configure_ost_count. */
module OstCountStays {
  import opened Text
  import opened LocalSh
  import opened LocalShMeaning
  import opened LocalShEdits
  import opened LocalShResults
  import opened OstFiles
  import opened KeptBlocks
  import opened Redeploy

  function Sets(s: Seg, v: string): Option<Rhs> { LastAssign(SegLines(s), v) }

  predicate IsTarget(s: Seg) { IsKind(s, Disk) || IsKind(s, OstCount) }

  /** Nothing but the disk and OST count blocks sets `v`. */
  predicate Silent(t: seq<Seg>, v: string) { forall i :: 0 <= i < |t| && !IsTarget(t[i]) ==> Sets(t[i], v).None? }

  /** From the first disk or OST count block on, nothing else sets `v`. */
  predicate Quiet(t: seq<Seg>, v: string) {
    t == [] || (if IsTarget(t[0]) then Silent(t[1..], v) else Quiet(t[1..], v))
  }

  /** A disk block is there, and no OST count block before it. */
  predicate DiskFirst(t: seq<Seg>) {
    t != [] && (IsKind(t[0], Disk) || (!IsKind(t[0], OstCount) && DiskFirst(t[1..])))
  }

  lemma RenderLast(t: seq<Seg>, v: string)
    requires t != []
    ensures LastAssign(Render(t), v)
            == if LastAssign(Render(t[1..]), v).Some? then LastAssign(Render(t[1..]), v) else Sets(t[0], v)
  {
    LastAssignAppend(SegLines(t[0]), Render(t[1..]), v);
  }

  /** Every block of kind `k` sets `v` to `r`. */
  predicate Gives(t: seq<Seg>, k: Kind, v: string, r: Option<Rhs>) {
    forall i :: 0 <= i < |t| && IsKind(t[i], k) ==> Sets(t[i], v) == r
  }

  lemma Tails(t: seq<Seg>, k: Kind, v: string, r: Option<Rhs>)
    requires t != []
    ensures Gives(t, k, v, r) ==> Gives(t[1..], k, v, r)
    ensures Silent(t, v) ==> Silent(t[1..], v)
  {
    assert forall i :: 0 <= i < |t[1..]| ==> t[1..][i] == t[i + 1];
  }

  lemma {:induction false} SilentLast(t: seq<Seg>, k: Kind, v: string, r: Option<Rhs>)
    requires Silent(t, v) && Gives(t, k, v, r) && forall i :: 0 <= i < |t| && IsTarget(t[i]) ==> IsKind(t[i], k)
    ensures LastAssign(Render(t), v) == if HasKind(t, k) then r else None
  {
    if t != [] {
      RenderLast(t, v);
      Tails(t, k, v, r);
      KindsCons(t, k);
      assert forall i :: 0 <= i < |t[1..]| ==> t[1..][i] == t[i + 1];
      SilentLast(t[1..], k, v, r);
    }
  }

  lemma OnlyOneLeft(t: seq<Seg>, j: Kind)
    requires t != [] && OneEach(t) && IsKind(t[0], j) && (j == Disk || j == OstCount)
    ensures forall i :: 0 <= i < |t[1..]| && IsTarget(t[1..][i]) ==>
            IsKind(t[1..][i], if j == Disk then OstCount else Disk)
  {
  }

  /** With both blocks there, the one further down decides, unless it does not set `v`. */
  lemma {:induction false} BothDecide(t: seq<Seg>, v: string, r: Rhs, x: Option<Rhs>)
    requires OneEach(t) && Quiet(t, v) && HasKind(t, Disk) && HasKind(t, OstCount)
    requires Gives(t, OstCount, v, Some(r)) && Gives(t, Disk, v, x)
    ensures LastAssign(Render(t), v) == if DiskFirst(t) || x.None? then Some(r) else x
  {
    RenderLast(t, v);
    KindsCons(t, Disk);
    KindsCons(t, OstCount);
    Tails(t, Disk, v, x);
    Tails(t, OstCount, v, Some(r));
    if IsKind(t[0], Disk) {
      OnlyOneLeft(t, Disk);
      SilentLast(t[1..], OstCount, v, Some(r));
    } else if IsKind(t[0], OstCount) {
      OnlyOneLeft(t, OstCount);
      SilentLast(t[1..], Disk, v, x);
    } else {
      BothDecide(t[1..], v, r, x);
    }
  }

  // ---- through the edits ---------------------------------------------------------------------

  lemma {:induction false} ReplaceStays(t: seq<Seg>, b: Seg, v: string)
    requires b.Block? && IsTarget(b)
    ensures Quiet(Replace(t, b), v) == Quiet(t, v) && DiskFirst(Replace(t, b)) == DiskFirst(t)
    ensures Silent(Replace(t, b), v) == Silent(t, v)
  {
    var r := Replace(t, b);
    assert forall i :: 0 <= i < |t| ==> IsTarget(r[i]) == IsTarget(t[i]) && (!IsTarget(t[i]) ==> r[i] == t[i]);
    if t != [] {
      ReplaceStays(t[1..], b, v);
      assert r[1..] == Replace(t[1..], b);
    }
  }

  lemma LineSetsNothing(v: string)
    ensures Sets(Line(""), v).None?
  {
    assert SegLines(Line("")) == [""] && [""][1..] == [];
    assert Parse("") == Other && LastAssign([], v).None?;
  }

  lemma {:induction false} AppendStays(t: seq<Seg>, b: Seg, v: string)
    requires b.Block? && IsTarget(b)
    ensures var r := t + [Line(""), b];
            && (Quiet(t, v) ==> Quiet(r, v)) && (Silent(t, v) ==> Silent(r, v))
            && (HasKind(t, OstCount) || b.kind == OstCount ==> DiskFirst(r) == DiskFirst(t))
  {
    var r := t + [Line(""), b];
    LineSetsNothing(v);
    if t == [] {
      assert r[1..] == [b] && [b][1..] == [];
    } else {
      AppendStays(t[1..], b, v);
      KindsCons(t, OstCount);
      assert r[1..] == t[1..] + [Line(""), b];
    }
  }

  lemma {:induction false} RamAside(t: seq<Seg>)
    ensures DiskFirst(Without(t, Ram)) == DiskFirst(t)
  {
    if t != [] {
      RamAside(t[1..]);
      var w := Without(t, Ram);
      if !IsKind(t[0], Ram) {
        assert w[0] == t[0] && w[1..] == Without(t[1..], Ram);
      } else {
        assert w == Without(t[1..], Ram);
      }
    }
  }

  lemma {:induction false} NoDiskNotFirst(t: seq<Seg>)
    requires !HasKind(t, Disk)
    ensures !DiskFirst(t)
  {
    if t != [] {
      KindsCons(t, Disk);
      NoDiskNotFirst(t[1..]);
    }
  }

  lemma SpliceGives(t: seq<Seg>, b: Seg, k: Kind, v: string, r: Option<Rhs>)
    requires b.Block?
    ensures Gives(SpliceSegs(t, b), b.kind, v, Sets(b, v))
    ensures k != b.kind && Gives(t, k, v, r) ==> Gives(SpliceSegs(t, b), k, v, r)
    ensures HasKind(SpliceSegs(t, b), b.kind)
    ensures k != b.kind ==> (HasKind(SpliceSegs(t, b), k) <==> HasKind(t, k))
  {
    var s := SpliceSegs(t, b);
    if HasKind(t, b.kind) {
      ReplaceKeepsKind(t, b);
      forall i | 0 <= i < |s| && IsKind(s[i], b.kind) ensures s[i] == b { }
      SameOtherKinds(t, s, b, k);
    } else {
      assert IsKind(s[|t| + 1], b.kind);
      SameOtherKinds(t, s, b, k);
    }
  }

  lemma SameOtherKinds(t: seq<Seg>, s: seq<Seg>, b: Seg, k: Kind)
    requires b.Block? && s == SpliceSegs(t, b)
    ensures k != b.kind ==> (HasKind(s, k) <==> HasKind(t, k))
  {
    if k != b.kind && HasKind(t, k) {
      var i :| 0 <= i < |t| && IsKind(t[i], k);
      assert IsKind(s[i], k);
    }
    if k != b.kind && HasKind(s, k) {
      var i :| 0 <= i < |s| && IsKind(s[i], k);
      assert i < |t| && IsKind(t[i], k);
    }
  }

  lemma SpliceStays(t: seq<Seg>, b: Seg, v: string)
    requires b.Block? && IsTarget(b) && Quiet(t, v) && OneEach(t)
    ensures Quiet(SpliceSegs(t, b), v) && OneEach(SpliceSegs(t, b))
    ensures HasKind(t, OstCount) || b.kind == OstCount ==> DiskFirst(SpliceSegs(t, b)) == DiskFirst(t)
  {
    if HasKind(t, b.kind) {
      ReplaceStays(t, b, v);
      ReplaceOneEach(t, b);
    } else {
      AppendStays(t, b, v);
      AppendOneEach(t, b);
    }
  }

  /** After configure_ost_count a rewrite of the disk block leaves a setting of the OST count
      block as it is exactly when the disk block does not make that setting, makes it the same,
      or was there before the OST count block. */
  lemma DiskRewriteAfterCount(m: Marks, t: seq<Seg>, e: Edit, d: Edit, v: string, r: Rhs)
    requires Separate(m) && TailOk(m, t) && e.OstTotal? && e.count > 0 && !Refused(e) && d.TestDisks?
    requires Quiet(Without(t, Ram), v) && Sets(EditBlock(m, e), v) == Some(r)
    ensures var x := Sets(EditBlock(m, d), v);
            LastAssign(Render(ApplySegs(m, d, ApplySegs(m, e, t))), v) == Some(r) <==>
              x.None? || x == Some(r) || DiskFirst(t)
  {
    WithoutOneEach(m, t, Ram);
    WithoutKinds(m, t, Ram);
    RamAside(t);
    SplicedDecide(Without(t, Ram), EditBlock(m, e), EditBlock(m, d), v, r);
  }

  lemma SplicedDecide(w: seq<Seg>, o: Seg, d: Seg, v: string, r: Rhs)
    requires OneEach(w) && Quiet(w, v) && IsKind(o, OstCount) && IsKind(d, Disk) && Sets(o, v) == Some(r)
    ensures var x := Sets(d, v);
            LastAssign(Render(SpliceSegs(SpliceSegs(w, o), d)), v) == Some(r) <==>
              x.None? || x == Some(r) || DiskFirst(w)
  {
    var t1 := SpliceSegs(w, o);
    var t2 := SpliceSegs(t1, d);
    SpliceGives(w, o, Disk, v, None);
    SpliceStays(w, o, v);
    SpliceGives(t1, d, OstCount, v, Some(r));
    SpliceStays(t1, d, v);
    BothDecide(t2, v, r, Sets(d, v));
  }

  // ---- when it stays -------------------------------------------------------------------------------

  /** The OST count block decides `v`, with a disk block before it. */
  ghost predicate Settled(t: seq<Seg>, v: string, r: Rhs) {
    OneEach(t) && Quiet(t, v) && DiskFirst(t) && HasKind(t, Disk) && HasKind(t, OstCount)
      && Gives(t, OstCount, v, Some(r))
  }

  lemma {:induction false} SettledStays(m: Marks, t: seq<Seg>, es: seq<Edit>, v: string, r: Rhs)
    requires Settled(t, v, r) && DiskOnly(es)
    ensures Settled(ApplyAllSegs(m, es, t), v, r)
  {
    if es != [] {
      var u := ApplyAllSegs(m, es[..|es| - 1], t);
      SettledStays(m, t, es[..|es| - 1], v, r);
      var d := EditBlock(m, es[|es| - 1]);
      SpliceStays(u, d, v);
      SpliceGives(u, d, OstCount, v, Some(r));
    }
  }

  lemma {:induction false} FirstIsThere(t: seq<Seg>)
    requires DiskFirst(t)
    ensures HasKind(t, Disk)
  {
    KindsCons(t, Disk);
    if !IsKind(t[0], Disk) {
      FirstIsThere(t[1..]);
    }
  }

  lemma {:induction false} SettledDecides(t: seq<Seg>, v: string, r: Rhs)
    requires Settled(t, v, r)
    ensures LastAssign(Render(t), v) == Some(r)
  {
    RenderLast(t, v);
    KindsCons(t, Disk);
    KindsCons(t, OstCount);
    Tails(t, OstCount, v, Some(r));
    if IsKind(t[0], Disk) {
      OnlyOneLeft(t, Disk);
      SilentLast(t[1..], OstCount, v, Some(r));
    } else {
      SettledDecides(t[1..], v, r);
    }
  }

  /** So with the disk block in its place, any number of disk rewrites leaves every setting of
      configure_ost_count alone. */
  lemma CountSurvivesDiskRewrites(m: Marks, t: seq<Seg>, e: Edit, es: seq<Edit>, v: string, r: Rhs)
    requires Separate(m) && TailOk(m, t) && e.OstTotal? && e.count > 0 && !Refused(e) && DiskOnly(es) && DiskFirst(t)
    requires Quiet(Without(t, Ram), v) && Sets(EditBlock(m, e), v) == Some(r)
    ensures LastAssign(Render(ApplyAllSegs(m, es, ApplySegs(m, e, t))), v) == Some(r)
  {
    var w, o := Without(t, Ram), EditBlock(m, e);
    WithoutOneEach(m, t, Ram);
    RamAside(t);
    FirstIsThere(w);
    SpliceStays(w, o, v);
    SpliceGives(w, o, Disk, v, None);
    SettledStays(m, ApplySegs(m, e, t), es, v, r);
    SettledDecides(ApplyAllSegs(m, es, ApplySegs(m, e, t)), v, r);
  }

  // ---- the settings themselves ------------------------------------------------------------------------

  const COUNT := "OSTCOUNT"

  lemma OtherSetting(v: string, text: string)
    requires IsName(v) && v != COUNT
    ensures LastAssign([Set(v, text)], COUNT).None?
  {
    AssignsElsewhere(v, text, COUNT);
  }

  lemma DeviceIsOther(name: string, n: nat, text: string)
    requires name == "OSTDEV" || name == "MDSDEV"
    ensures LastAssign([Set(name + Decimal(n), text)], COUNT).None?
  {
    DeviceName(name, n);
    assert (name + Decimal(n))[3] == 'D' && COUNT[3] == 'C';
    OtherSetting(name + Decimal(n), text);
  }

  lemma {:induction false} DevicesAreOther(name: string, n: nat, b: Backing)
    requires name == "OSTDEV" || name == "MDSDEV"
    ensures LastAssign(Devices(name, n, b), COUNT).None?
  {
    if n > 0 {
      DevicesAreOther(name, n - 1, b);
      DeviceIsOther(name, n, Device(b, n));
      LastAssignAppend(Devices(name, n - 1, b), [Set(name + Decimal(n), Device(b, n))], COUNT);
    }
  }

  lemma {:induction false} FileDevicesAreOther(first: nat, last: nat)
    ensures LastAssign(FileDevices(first, last), COUNT).None?
    decreases last
  {
    if last > first {
      FileDevicesAreOther(first, last - 1);
      DeviceIsOther("OSTDEV", last, OstFile(last));
      LastAssignAppend(FileDevices(first, last - 1), [Set("OSTDEV" + Decimal(last), OstFile(last))], COUNT);
    }
  }

  lemma CounterSets(v: string, value: string)
    requires Tracked(v)
    ensures LastAssign([EnvCount(v, value)], COUNT) == if v == COUNT then Some(Default(EnvName(COUNT), value)) else None
  {
    EnvCountClean(v, value);
    assert [EnvCount(v, value)][1..] == [];
  }

  lemma SizesAreOther(kb: string)
    ensures LastAssign([Set("MDSSIZE", kb)], COUNT).None? && LastAssign([Set("OSTSIZE", kb)], COUNT).None?
  {
    OtherSetting("MDSSIZE", kb);
    OtherSetting("OSTSIZE", kb);
  }

  lemma ClientsAreOther()
    ensures LastAssign(ClientLines(), COUNT).None?
  {
    ClientsSetThemselves(COUNT);
  }

  lemma CountLinesSet(count: nat, disks: nat, kb: nat)
    ensures LastAssign(CountLines(count, disks, kb), COUNT) == Some(Default(EnvName(COUNT), Decimal(count)))
  {
    CounterSets(COUNT, Decimal(count));
    SizesAreOther(Decimal(kb));
    FileDevicesAreOther(disks, count);
    FirstOfThree([EnvCount(COUNT, Decimal(count))], count > disks, [Set("OSTSIZE", Decimal(kb))],
      FileDevices(disks, count));
  }

  lemma FirstOfThree(a: seq<string>, p: bool, b: seq<string>, c: seq<string>)
    requires LastAssign(b, COUNT).None? && LastAssign(c, COUNT).None?
    ensures LastAssign(a + Opt(p, b) + c, COUNT) == LastAssign(a, COUNT)
  {
    LastAssignAppend(a, Opt(p, b), COUNT);
    LastAssignAppend(a + Opt(p, b), c, COUNT);
  }

  lemma DiskLinesSet(mdts: nat, osts: nat, bytes: nat)
    ensures LastAssign(DiskLines(mdts, osts, bytes), COUNT)
            == if osts > 0 then Some(Default(EnvName(COUNT), Decimal(osts))) else None
  {
    var kb := Decimal(bytes / 1024);
    SizesAreOther(kb);
    MdsIsOther(mdts);
    OstCounterSets(osts);
    DevicesAreOther("OSTDEV", osts, OnDisk(mdts));
    ClientsAreOther();
    FourthOfSix(bytes > 0 && mdts > 0, [Set("MDSSIZE", kb)], bytes > 0 && osts > 0, [Set("OSTSIZE", kb)],
                mdts > 0, [EnvCount("MDSCOUNT", Decimal(mdts))] + Devices("MDSDEV", mdts, OnDisk(0)),
                osts > 0, [EnvCount("OSTCOUNT", Decimal(osts))], Devices("OSTDEV", osts, OnDisk(mdts)), ClientLines(),
                  COUNT);
  }

  lemma OstCounterSets(osts: nat)
    ensures LastAssign([EnvCount("OSTCOUNT", Decimal(osts))], COUNT) == Some(Default(EnvName(COUNT), Decimal(osts)))
  {
    CounterSets("OSTCOUNT", Decimal(osts));
  }

  lemma MdsIsOther(mdts: nat)
    ensures LastAssign([EnvCount("MDSCOUNT", Decimal(mdts))] + Devices("MDSDEV", mdts, OnDisk(0)), COUNT).None?
  {
    CounterSets("MDSCOUNT", Decimal(mdts));
    DevicesAreOther("MDSDEV", mdts, OnDisk(0));
    LastAssignAppend([EnvCount("MDSCOUNT", Decimal(mdts))], Devices("MDSDEV", mdts, OnDisk(0)), COUNT);
  }

  lemma FourthOfSix(p: bool, a: seq<string>, q: bool, b: seq<string>, r: bool, c: seq<string>, s: bool, d: seq<string>,
                    e: seq<string>, f: seq<string>, v: string)
    requires LastAssign(a, v).None? && LastAssign(b, v).None? && LastAssign(c, v).None?
    requires LastAssign(e, v).None? && LastAssign(f, v).None?
    ensures LastAssign(Opt(p, a) + Opt(q, b) + Opt(r, c) + Opt(s, d) + e + f, v) == if s then LastAssign(d, v) else None
  {
    OptSets(p, a, v);
    OptSets(q, b, v);
    OptSets(r, c, v);
    OptSets(s, d, v);
    SixSet(Opt(p, a), Opt(q, b), Opt(r, c), Opt(s, d), e, f, v);
  }

  lemma OptSets(p: bool, a: seq<string>, v: string)
    ensures LastAssign(Opt(p, a), v) == if p then LastAssign(a, v) else None
  {
  }

  lemma SixSet(x: seq<string>, y: seq<string>, z: seq<string>, w: seq<string>, e: seq<string>, f: seq<string>,
               v: string)
    requires LastAssign(x, v).None? && LastAssign(y, v).None? && LastAssign(z, v).None?
    requires LastAssign(e, v).None? && LastAssign(f, v).None?
    ensures LastAssign(x + y + z + w + e + f, v) == LastAssign(w, v)
  {
    LastAssignAppend(x, y, v);
    LastAssignAppend(x + y, z, v);
    LastAssignAppend(x + y + z, w, v);
    LastAssignAppend(x + y + z + w, e, v);
    LastAssignAppend(x + y + z + w + e, f, v);
  }

  /** What the two blocks set: the OST count, and the device of OST `n`. */
  lemma BlocksSet(m: Marks, e: Edit, d: Edit, n: nat)
    requires Separate(m) && e.OstTotal? && d.TestDisks?
    ensures Sets(EditBlock(m, e), COUNT) == Some(Default(EnvName(COUNT), Decimal(e.count)))
    ensures e.disks < n <= e.count ==> Sets(EditBlock(m, e), OstDev(n)) == Some(Lit(OstFile(n)))
    ensures Sets(EditBlock(m, d), COUNT) == if d.osts > 0 then Some(Default(EnvName(COUNT), Decimal(d.osts))) else None
    ensures Sets(EditBlock(m, d), OstDev(n)) == if 1 <= n <= d.osts then Some(Lit(DiskDevice(d.mdts + n))) else None
  {
    var kb := CountKb(e);
    CountLinesSet(e.count, e.disks, kb);
    CountAssigns(e.count, e.disks, kb, n);
    BlockAssigns(m, OstCount, CountLines(e.count, e.disks, kb), COUNT);
    BlockAssigns(m, OstCount, CountLines(e.count, e.disks, kb), OstDev(n));
    DiskLinesSet(d.mdts, d.osts, d.bytes);
    DiskAssigns(d.mdts, d.osts, d.bytes, n);
    BlockAssigns(m, Disk, DiskLines(d.mdts, d.osts, d.bytes), COUNT);
    BlockAssigns(m, Disk, DiskLines(d.mdts, d.osts, d.bytes), OstDev(n));
  }

  /** A rewrite of the disk block leaves the OST count alone exactly when it has no OSTs, has as
      many, or its block was there before; and an OST in a file stays there exactly when the disk
      block does not reach it or was there before. */
  lemma DiskRewriteKeepsCount(m: Marks, t: seq<Seg>, e: Edit, d: Edit, n: nat)
    requires Separate(m) && TailOk(m, t) && e.OstTotal? && e.count > 0 && !Refused(e) && d.TestDisks?
    ensures var u := ApplySegs(m, d, ApplySegs(m, e, t));
            && (Quiet(Without(t, Ram), COUNT) ==>
                  (LastAssign(Render(u), COUNT) == Some(Default(EnvName(COUNT), Decimal(e.count))) <==>
                   d.osts == 0 || d.osts == e.count || DiskFirst(t)))
            && (e.disks < n <= e.count && Quiet(Without(t, Ram), OstDev(n)) ==>
                  (LastAssign(Render(u), OstDev(n)) == Some(Lit(OstFile(n))) <==> n > d.osts || DiskFirst(t)))
  {
    BlocksSet(m, e, d, n);
    if Quiet(Without(t, Ram), COUNT) {
      DiskRewriteAfterCount(m, t, e, d, COUNT, Default(EnvName(COUNT), Decimal(e.count)));
      DecimalRoundTrip(e.count);
      DecimalRoundTrip(d.osts);
    }
    if e.disks < n <= e.count && Quiet(Without(t, Ram), OstDev(n)) {
      DiskRewriteAfterCount(m, t, e, d, OstDev(n), Lit(OstFile(n)));
      FileIsNoDisk(n, d.mdts + n);
    }
  }

  lemma FileIsNoDisk(n: nat, k: nat)
    ensures OstFile(n) != DiskDevice(k)
  {
    assert OstFile(n)[1] == 'v' && DiskDevice(k)[1] == 'd';
  }

  /** Sourced, after any number of disk rewrites: the count holds unless the environment sets
      another, and every OST past the disks is in its file. */
  lemma CountStaysWhenSourced(m: Marks, t: seq<Seg>, e: Edit, es: seq<Edit>, n: nat, env: Env)
    requires Separate(m) && TailOk(m, t) && e.OstTotal? && e.count > 0 && !Refused(e) && DiskOnly(es) && DiskFirst(t)
    ensures var file := ApplyAll(m, es, Apply(m, e, Saved(m, t)));
            && (Quiet(Without(t, Ram), COUNT) ==>
                  Value(Source(env, file), COUNT)
                    == if Value(env, COUNT) != "" then Value(env, COUNT) else Decimal(e.count))
            && (e.disks < n <= e.count && Quiet(Without(t, Ram), OstDev(n)) ==>
              Value(Source(env, file), OstDev(n)) == OstFile(n))
  {
    ApplyOnSaved(m, e, t);
    RunOnSaved(m, es, ApplySegs(m, e, t));
    var u := ApplyAllSegs(m, es, ApplySegs(m, e, t));
    BlocksSet(m, e, TestDisks(0, 0, 0), n);
    if Quiet(Without(t, Ram), COUNT) {
      CountSurvivesDiskRewrites(m, t, e, es, COUNT, Default(EnvName(COUNT), Decimal(e.count)));
      SourcingRespectsEnvironment(m, u, env, COUNT, Decimal(e.count));
    }
    if e.disks < n <= e.count && Quiet(Without(t, Ram), OstDev(n)) {
      CountSurvivesDiskRewrites(m, t, e, es, OstDev(n), Lit(OstFile(n)));
      SavedLiteral(m, u, OstDev(n), OstFile(n), env);
    }
  }

  // ---- the order deploys keep ----------------------------------------------------------------------------

  lemma {:induction false} FirstAsideFrom(t: seq<Seg>, k: Kind)
    requires k != Disk
    ensures DiskFirst(t) ==> DiskFirst(Without(t, k))
  {
    if t != [] {
      FirstAsideFrom(t[1..], k);
      var w := Without(t, k);
      if IsKind(t[0], k) {
        assert w == Without(t[1..], k);
      } else {
        assert w[0] == t[0] && w[1..] == Without(t[1..], k);
      }
    }
  }

  lemma {:induction false} FirstAfterReplace(t: seq<Seg>, b: Seg)
    requires b.Block?
    ensures DiskFirst(Replace(t, b)) == DiskFirst(t)
  {
    if t != [] {
      FirstAfterReplace(t[1..], b);
      assert Replace(t, b)[1..] == Replace(t[1..], b);
    }
  }

  lemma {:induction false} FirstAfterAppend(t: seq<Seg>, more: seq<Seg>)
    ensures DiskFirst(t) ==> DiskFirst(t + more)
  {
    if t != [] {
      FirstAfterAppend(t[1..], more);
      assert (t + more)[0] == t[0] && (t + more)[1..] == t[1..] + more;
    }
  }

  lemma FirstAfterSplice(t: seq<Seg>, b: Seg)
    requires b.Block? && DiskFirst(t)
    ensures DiskFirst(SpliceSegs(t, b))
  {
    FirstAfterReplace(t, b);
    FirstAfterAppend(t, [Line(""), b]);
  }

  /** A disk block that comes first stays first, whatever is edited. */
  lemma DiskStaysFirst(m: Marks, t: seq<Seg>, e: Edit)
    requires DiskFirst(t)
    ensures DiskFirst(ApplySegs(m, e, t))
  {
    if !Refused(e) {
      var b := EditBlock(m, e);
      FirstAsideFrom(t, Ram);
      FirstAsideFrom(t, OstCount);
      FirstAsideFrom(t, Fstype);
      match e
      case TestDisks(_, _, _) => FirstAfterSplice(t, b);
      case RamOsts(_, _, _) => FirstAfterAppend(Without(t, Ram), [Line(""), b]);
      case OstTotal(n, _, _, _) => if n > 0 { FirstAfterSplice(Without(t, Ram), b); }
      case FsType(_) => FirstAfterAppend(Without(t, Fstype), [Line(""), b]);
      case Restore(_) => if b.Block? { FirstAfterSplice(t, b); }
    }
  }

  lemma {:induction false} DiskStaysFirstOn(m: Marks, t: seq<Seg>, es: seq<Edit>)
    requires DiskFirst(t)
    ensures DiskFirst(ApplyAllSegs(m, es, t))
  {
    if es != [] {
      DiskStaysFirstOn(m, t, es[..|es| - 1]);
      DiskStaysFirst(m, ApplyAllSegs(m, es[..|es| - 1], t), es[|es| - 1]);
    }
  }

  lemma {:induction false} AppendedDiskIsFirst(t: seq<Seg>, d: Seg)
    requires IsKind(d, Disk) && !HasKind(t, OstCount)
    ensures DiskFirst(SpliceSegs(t, d))
  {
    if HasKind(t, Disk) {
      FirstAfterReplace(t, d);
      PresentDiskIsFirst(t);
    } else {
      FirstAtTheEnd(t, d);
    }
  }

  lemma {:induction false} PresentDiskIsFirst(t: seq<Seg>)
    requires HasKind(t, Disk) && !HasKind(t, OstCount)
    ensures DiskFirst(t)
  {
    KindsCons(t, Disk);
    KindsCons(t, OstCount);
    if !IsKind(t[0], Disk) {
      PresentDiskIsFirst(t[1..]);
    }
  }

  lemma {:induction false} FirstAtTheEnd(t: seq<Seg>, d: Seg)
    requires IsKind(d, Disk) && !HasKind(t, OstCount)
    ensures DiskFirst(t + [Line(""), d])
  {
    var r := t + [Line(""), d];
    if t == [] {
      assert r[1..] == [d];
    } else {
      KindsCons(t, OstCount);
      FirstAtTheEnd(t[1..], d);
      assert r[1..] == t[1..] + [Line(""), d];
    }
  }

  /** What a deploy is asked for: the VM's disks, and the options it was given. */
  datatype Deploy = Deploy(
    mdts: nat, osts: nat, bytes: nat, count: Option<Edit>, ram: Option<Edit>, fs: Option<string>, kept: map<Kind, Seg>)

  predicate DeployOk(d: Deploy) {
    && (d.count.Some? ==> d.count.value.OstTotal?) && (d.ram.Some? ==> d.ram.value.RamOsts?)
    && forall k :: k in d.kept ==> IsKept(k) && IsKind(d.kept[k], k)
  }

  function Given(e: Option<Edit>): seq<Edit> { if e.None? then [] else [e.value] }

  /** The edits after the disk block, in a deploy's order: count, ram, file system type, and the
      kept blocks that it did not write itself. */
  function Later(d: Deploy): seq<Edit> {
    var skip := (if d.count.Some? || d.ram.Some? then {OstCount} else {}) + (if d.fs.Some? then {Fstype} else {});
    Given(d.count) + Given(d.ram) + (if d.fs.Some? then [FsType(d.fs.value)] else []) + RestoreEdits(d.kept, skip)
  }

  /** A deploy writes the disk block first, if the VM has disks. */
  function DeployEdits(d: Deploy): seq<Edit> { (if d.mdts + d.osts > 0 then [Disks(d)] else []) + Later(d) }

  function Disks(d: Deploy): Edit { TestDisks(d.mdts, d.osts, d.bytes) }

  /** Each llmount writes the disk block again, disks or not. */
  function Mounts(d: Deploy, k: nat): seq<Edit> { seq(k, i requires 0 <= i < k => Disks(d)) }

  lemma {:induction false} ApplyAllSegsAppend(m: Marks, a: seq<Edit>, b: seq<Edit>, t: seq<Seg>)
    ensures ApplyAllSegs(m, a + b, t) == ApplyAllSegs(m, b, ApplyAllSegs(m, a, t))
    decreases |b|
  {
    if b == [] {
      assert a + b == a;
    } else {
      var n := |b| - 1;
      ApplyAllSegsAppend(m, a, b[..n], t);
      assert (a + b)[..|a + b| - 1] == a + b[..n];
    }
  }

  /** The failing order is none of a deploy's own: from the first edit of every deploy of a VM
      with disks on, and through any edits after it, the disk block is there and comes before
      the OST count block. */
  lemma DeploysPutDisksFirst(m: Marks, stock: seq<Seg>, d: Deploy, more: seq<Edit>, n: nat)
    requires d.mdts + d.osts > 0 && 0 < n <= |DeployEdits(d) + more| && !HasKind(stock, OstCount)
    ensures var u := ApplyAllSegs(m, (DeployEdits(d) + more)[..n], stock); DiskFirst(u) && HasKind(u, Disk)
  {
    var es := (DeployEdits(d) + more)[..n];
    var first, rest := [Disks(d)], es[1..];
    assert es == first + rest;
    OneEdit(m, Disks(d), stock);
    AppendedDiskIsFirst(stock, EditBlock(m, Disks(d)));
    ApplyAllSegsAppend(m, first, rest, stock);
    DiskStaysFirstOn(m, ApplyAllSegs(m, first, stock), rest);
    FirstIsThere(ApplyAllSegs(m, es, stock));
  }

  lemma OneEdit(m: Marks, e: Edit, t: seq<Seg>)
    ensures ApplyAllSegs(m, [e], t) == ApplySegs(m, e, t)
  {
    assert [e][..0] == [];
  }

  // ---- llmounts after a deploy -------------------------------------------------------------------------------

  /** Every disk block is this one. */
  predicate DisksAre(t: seq<Seg>, b: Seg) { forall s :: s in t && IsKind(s, Disk) ==> s == b }

  predicate WritesNoDisk(e: Edit) { !e.TestDisks? && (e.Restore? ==> e.block.Block? && e.block.kind != Disk) }

  lemma SpliceMembers(t: seq<Seg>, b: Seg)
    requires b.Block?
    ensures forall s :: s in SpliceSegs(t, b) ==> s in t || s == b || s == Line("")
  {
  }

  lemma DisksStay(m: Marks, t: seq<Seg>, e: Edit, b: Seg)
    requires DisksAre(t, b) && WritesNoDisk(e)
    ensures DisksAre(ApplySegs(m, e, t), b)
  {
    WithoutMembers(t, Ram);
    WithoutMembers(t, OstCount);
    WithoutMembers(t, Fstype);
    if !Refused(e) && !(e.OstTotal? && e.count == 0) {
      var w := if e.FsType? then Without(t, Fstype) else if e.Restore? then t else Without(t, Ram);
      SpliceMembers(w, EditBlock(m, e));
    }
  }

  lemma {:induction false} DisksStayOn(m: Marks, t: seq<Seg>, es: seq<Edit>, b: Seg)
    requires DisksAre(t, b) && forall i :: 0 <= i < |es| ==> WritesNoDisk(es[i])
    ensures DisksAre(ApplyAllSegs(m, es, t), b)
  {
    if es != [] {
      var n := |es| - 1;
      DisksStayOn(m, t, es[..n], b);
      DisksStay(m, ApplyAllSegs(m, es[..n], t), es[n], b);
    }
  }

  lemma LaterWritesNoDisk(d: Deploy)
    requires DeployOk(d)
    ensures forall i :: 0 <= i < |Later(d)| ==> WritesNoDisk(Later(d)[i])
  {
    forall e | e in Later(d) ensures WritesNoDisk(e) {
    }
    assert forall i :: 0 <= i < |Later(d)| ==> Later(d)[i] in Later(d);
  }

  lemma DeployedDisks(m: Marks, stock: seq<Seg>, d: Deploy)
    requires DeployOk(d) && !HasKind(stock, Disk) && !HasKind(stock, OstCount)
    ensures var u := ApplyAllSegs(m, DeployEdits(d), stock);
            DisksAre(u, EditBlock(m, Disks(d))) && (d.mdts + d.osts > 0 ==> HasKind(u, Disk))
  {
    var b := EditBlock(m, Disks(d));
    KindsByMembership(stock);
    assert DisksAre(stock, b);
    LaterWritesNoDisk(d);
    if d.mdts + d.osts > 0 {
      var first := [Disks(d)];
      OneEdit(m, Disks(d), stock);
      SpliceMembers(stock, b);
      ApplyAllSegsAppend(m, first, Later(d), stock);
      DisksStayOn(m, ApplyAllSegs(m, first, stock), Later(d), b);
      assert DeployEdits(d) + [] == DeployEdits(d);
      assert DeployEdits(d)[..|DeployEdits(d)|] == DeployEdits(d);
      DeploysPutDisksFirst(m, stock, d, [], |DeployEdits(d)|);
    } else {
      assert DeployEdits(d) == Later(d);
      DisksStayOn(m, stock, Later(d), b);
    }
  }

  lemma SameDisksSameFile(t: seq<Seg>, b: Seg)
    requires b.Block? && b.kind == Disk && DisksAre(t, b) && HasKind(t, Disk)
    ensures SpliceSegs(t, b) == t
  {
    assert forall i :: 0 <= i < |t| ==> t[i] in t;
  }

  lemma {:induction false} MountsChangeNothing(m: Marks, t: seq<Seg>, d: Deploy, k: nat)
    requires DisksAre(t, EditBlock(m, Disks(d))) && HasKind(t, Disk)
    ensures ApplyAllSegs(m, Mounts(d, k), t) == t
  {
    if k > 0 {
      MountsChangeNothing(m, t, d, k - 1);
      assert Mounts(d, k)[..k - 1] == Mounts(d, k - 1);
      SameDisksSameFile(t, EditBlock(m, Disks(d)));
    }
  }

  lemma ClientsOnly(bytes: nat, v: string)
    requires v != "CLIENTS" && v != "CLIENTCOUNT"
    ensures LastAssign(DiskLines(0, 0, bytes), v).None?
  {
    EmptyDiskLines(bytes);
    ClientsSetThemselves(v);
  }

  lemma EmptyDiskLines(bytes: nat)
    ensures DiskLines(0, 0, bytes) == ClientLines()
  {
    assert Devices("OSTDEV", 0, OnDisk(0)) == [];
    NothingBefore(ClientLines());
  }

  lemma NothingBefore(f: seq<string>)
    ensures var none: seq<string> := []; none + none + none + none + none + f == f
  {
  }

  lemma ClientsLineSets(v: string)
    requires v != "CLIENTS"
    ensures LastAssign([Set("CLIENTS", "${CLIENTS:-$HOSTNAME}")], v).None?
  {
    AssignsElsewhere("CLIENTS", "${CLIENTS:-$HOSTNAME}", v);
  }

  lemma ClientCountLineSets(v: string)
    requires v != "CLIENTCOUNT"
    ensures LastAssign([Set("CLIENTCOUNT", "${CLIENTCOUNT:-1}")], v).None?
  {
    AssignsElsewhere("CLIENTCOUNT", "${CLIENTCOUNT:-1}", v);
  }

  lemma ClientsSetThemselves(v: string)
    requires v != "CLIENTS" && v != "CLIENTCOUNT"
    ensures LastAssign(ClientLines(), v).None?
  {
    ClientsLineSets(v);
    ClientCountLineSets(v);
    LastAssignAppend([Set("CLIENTS", "${CLIENTS:-$HOSTNAME}")], [Set("CLIENTCOUNT", "${CLIENTCOUNT:-1}")], v);
  }

  /** With no disks the block sets nothing of a target, wherever it lands. */
  lemma EmptyDisksAppended(m: Marks, t: seq<Seg>, bytes: nat, v: string)
    requires Separate(m) && v != "CLIENTS" && v != "CLIENTCOUNT"
    ensures LastAssign(Render(t + [Line(""), EditBlock(m, TestDisks(0, 0, bytes))]), v) == LastAssign(Render(t), v)
  {
    var b := EditBlock(m, TestDisks(0, 0, bytes));
    ClientsOnly(bytes, v);
    BlockAssigns(m, Disk, DiskLines(0, 0, bytes), v);
    RenderAppended(t, b);
    LineSetsNothing(v);
    LastAssignAppend([""], SegLines(b), v);
    LastAssignAppend(Render(t), [""] + SegLines(b), v);
  }

  /** So after every deploy onto a stock file, any number of llmounts with the same disks undoes
      nothing: with disks the file stays the very same, and without them every setting but the
      clients' is made as before. */
  lemma MountsUndoNothing(m: Marks, stock: seq<Seg>, d: Deploy, k: nat, v: string)
    requires Separate(m) && DeployOk(d) && !HasKind(stock, Disk) && !HasKind(stock, OstCount)
    requires v != "CLIENTS" && v != "CLIENTCOUNT"
    ensures var u := ApplyAllSegs(m, DeployEdits(d), stock);
            var u' := ApplyAllSegs(m, DeployEdits(d) + Mounts(d, k), stock);
            (d.mdts + d.osts > 0 ==> u' == u) && LastAssign(Render(u'), v) == LastAssign(Render(u), v)
  {
    var u := ApplyAllSegs(m, DeployEdits(d), stock);
    var b := EditBlock(m, Disks(d));
    DeployedDisks(m, stock, d);
    ApplyAllSegsAppend(m, DeployEdits(d), Mounts(d, k), stock);
    if HasKind(u, Disk) {
      MountsChangeNothing(m, u, d, k);
    } else if k == 0 {
      assert Mounts(d, 0) == [];
    } else {
      var u1 := u + [Line(""), b];
      FirstMount(m, u, d, k);
      assert IsKind(u1[|u| + 1], Disk);
      assert DisksAre(u1, b);
      MountsChangeNothing(m, u1, d, k - 1);
      EmptyDisksAppended(m, u, d.bytes, v);
    }
  }

  lemma FirstMount(m: Marks, t: seq<Seg>, d: Deploy, k: nat)
    requires !HasKind(t, Disk) && k > 0
    ensures ApplyAllSegs(m, Mounts(d, k), t)
            == ApplyAllSegs(m, Mounts(d, k - 1), t + [Line(""), EditBlock(m, Disks(d))])
  {
    assert Mounts(d, k) == [Disks(d)] + Mounts(d, k - 1);
    ApplyAllSegsAppend(m, [Disks(d)], Mounts(d, k - 1), t);
    OneEdit(m, Disks(d), t);
  }

  /** The lines of a stock file after a run that starts with the disk block. */
  lemma FileOfRun(m: Marks, stock: seq<Seg>, d: Deploy, rest: seq<Edit>)
    requires Separate(m) && StockOk(m, stock) && forall i :: 0 <= i < |rest| ==> EditOk(m, rest[i])
    ensures var t := Without(stock, EnvSave); var es := [Disks(d)] + rest;
            ApplyAll(m, es, Render(stock)) == Saved(m, ApplyAllSegs(m, es, t))
  {
    var t, e := Without(stock, EnvSave), Disks(d);
    ApplyOnStock(m, e, stock);
    OneEdit(m, e, t);
    assert [e][..0] == [];
    assert ApplyAll(m, [e], Render(stock)) == Apply(m, e, ApplyAll(m, [], Render(stock)));
    ApplyAllAppend(m, [e], rest, Render(stock));
    ApplyAllSegsAppend(m, [e], rest, t);
    RunOnSaved(m, rest, ApplySegs(m, e, t));
  }

  /** On the lines: with disks, the file that a deploy leaves is the file after every llmount. */
  lemma DeployedFileStays(m: Marks, stock: seq<Seg>, d: Deploy, k: nat)
    requires Separate(m) && StockOk(m, stock) && DeployOk(d) && d.mdts + d.osts > 0
    requires !HasKind(stock, Disk) && !HasKind(stock, OstCount)
    requires forall j :: j in d.kept ==> BlockOk(m, d.kept[j])
    ensures ApplyAll(m, DeployEdits(d) + Mounts(d, k), Render(stock)) == ApplyAll(m, DeployEdits(d), Render(stock))
  {
    WithoutKinds(m, stock, EnvSave);
    LaterIsOk(m, d);
    var later, mounts := Later(d), Mounts(d, k);
    FileOfRun(m, stock, d, later);
    FileOfRun(m, stock, d, later + mounts);
    DisksThenLater(d, mounts);
    MountsUndoNothing(m, Without(stock, EnvSave), d, k, "OSTCOUNT");
  }

  lemma DisksThenLater(d: Deploy, mounts: seq<Edit>)
    requires d.mdts + d.osts > 0
    ensures DeployEdits(d) == [Disks(d)] + Later(d) && DeployEdits(d) + mounts == [Disks(d)] + (Later(d) + mounts)
  {
  }

  lemma LaterIsOk(m: Marks, d: Deploy)
    requires DeployOk(d) && forall j :: j in d.kept ==> BlockOk(m, d.kept[j])
    ensures forall i :: 0 <= i < |Later(d)| ==> EditOk(m, Later(d)[i])
  {
    var skip := (if d.count.Some? || d.ram.Some? then {OstCount} else {}) + (if d.fs.Some? then {Fstype} else {});
    var own := Given(d.count) + Given(d.ram) + (if d.fs.Some? then [FsType(d.fs.value)] else []);
    RestoreEditsOk(m, d.kept, skip);
    assert forall i :: 0 <= i < |own| ==> !own[i].Restore?;
    assert Later(d) == own + RestoreEdits(d.kept, skip);
  }

  lemma RestoreEditsOk(m: Marks, kept: map<Kind, Seg>, skip: set<Kind>)
    requires forall j :: j in kept ==> BlockOk(m, kept[j])
    ensures forall i :: 0 <= i < |RestoreEdits(kept, skip)| ==> EditOk(m, RestoreEdits(kept, skip)[i])
  {
    RestoreEditOk(m, kept, skip, OstCount);
    RestoreEditOk(m, kept, skip, Fstype);
    RestoreEditOk(m, kept, skip, Cluster);
  }

  lemma RestoreEditOk(m: Marks, kept: map<Kind, Seg>, skip: set<Kind>, k: Kind)
    requires forall j :: j in kept ==> BlockOk(m, kept[j])
    ensures forall i :: 0 <= i < |RestoreEdit(kept, skip, k)| ==> EditOk(m, RestoreEdit(kept, skip, k)[i])
  {
  }
}
