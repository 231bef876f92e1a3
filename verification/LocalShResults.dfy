/** What a guest's cfg/local.sh means after any run of ltvm's edits. */
module LocalShResults {
  import opened Text
  import opened LocalSh
  import opened LocalShMeaning
  import opened LocalShEdits
  import opened OstFiles

  // ---- the save block ----------------------------------------------------------------

  lemma SaveLineSaves(env: Env, v: string)
    requires IsName(v)
    ensures Exec(env, SaveLine(v)) == env[EnvName(v) := Value(env, v)]
  {
    NameAppend("_ltvm_env_", v);
    ParseAssign(EnvName(v), "${" + v + "-}");
    ParseKeep(v);
    SaveLineText(v);
  }

  function SaveThree(env: Env, u: string, v: string, w: string): Env {
    env[EnvName(u) := Value(env, u)][EnvName(v) := Value(env, v)][EnvName(w) := Value(env, w)]
  }

  function SavedEnv(env: Env): Env { SaveThree(env, "MDSCOUNT", "OSTCOUNT", "FSTYPE") }

  lemma SourceCons(env: Env, x: string, rest: seq<string>)
    ensures Source(env, [x] + rest) == Source(Exec(env, x), rest)
  {
    assert ([x] + rest)[1..] == rest;
  }

  lemma SourceSaves(env: Env, head: string, u: string, v: string, w: string, foot: string)
    requires IsName(u) && IsName(v) && IsName(w) && v[0] != '_' && w[0] != '_'
    requires Parse(head) == Other && Parse(foot) == Other
    ensures Source(env, [head] + ([SaveLine(u)] + ([SaveLine(v)] + ([SaveLine(w)] + ([foot] + [])))))
            == SaveThree(env, u, v, w)
  {
    var l4 := [foot] + [];
    var l3 := [SaveLine(w)] + l4;
    var l2 := [SaveLine(v)] + l3;
    var l1 := [SaveLine(u)] + l2;
    var e1 := env[EnvName(u) := Value(env, u)];
    var e2 := e1[EnvName(v) := Value(env, v)];
    assert EnvName(u)[0] == '_' && EnvName(v)[0] == '_';
    SaveLineSaves(env, u);
    SaveLineSaves(e1, v);
    SaveLineSaves(e2, w);
    SourceCons(env, head, l1);
    SourceCons(env, SaveLine(u), l2);
    SourceCons(e1, SaveLine(v), l3);
    SourceCons(e2, SaveLine(w), l4);
    SourceCons(SaveThree(env, u, v, w), foot, []);
  }

  lemma SourceSaveBlock(m: Marks, env: Env)
    requires Separate(m)
    ensures Source(env, SegLines(SaveBlock(m))) == SavedEnv(env)
  {
    var h, f := SaveBlock(m).head, SaveBlock(m).foot;
    CommentAssignsNothing(h);
    CommentAssignsNothing(f);
    TrackedNames("MDSCOUNT");
    TrackedNames("OSTCOUNT");
    TrackedNames("FSTYPE");
    SourceSaves(env, h, "MDSCOUNT", "OSTCOUNT", "FSTYPE", f);
    ListShape(h, SaveLine("MDSCOUNT"), SaveLine("OSTCOUNT"), SaveLine("FSTYPE"), f);
  }

  lemma ListShape(a: string, b: string, c: string, d: string, e: string)
    ensures [a] + [b, c, d] + [e] == [a] + ([b] + ([c] + ([d] + ([e] + []))))
  {
  }

  lemma SavedEnvKeeps(env: Env, v: string)
    requires Tracked(v)
    ensures Value(SavedEnv(env), EnvName(v)) == Value(env, v) && Value(SavedEnv(env), v) == Value(env, v)
  {
    TrackedNames(v);
    TrackedNames("MDSCOUNT");
    TrackedNames("OSTCOUNT");
    TrackedNames("FSTYPE");
    assert EnvName("MDSCOUNT")[10..] == "MDSCOUNT" && EnvName("OSTCOUNT")[10..] == "OSTCOUNT"
      && EnvName("FSTYPE")[10..] == "FSTYPE";
  }

  /** In every edited file: a count or file system type set in the environment wins; if the
      environment sets none, the last block to set it decides. */
  lemma SourcingRespectsEnvironment(m: Marks, t: seq<Seg>, env: Env, v: string, n: string)
    requires Separate(m) && TailOk(m, t) && Tracked(v)
    ensures Value(env, v) != "" ==> Value(Source(env, Saved(m, t)), v) == Value(env, v)
    ensures Value(env, v) == "" && LastAssign(Render(t), v) == Some(Default(EnvName(v), n)) ==>
              Value(Source(env, Saved(m, t)), v) == n
  {
    SourceAppend(env, SegLines(SaveBlock(m)), Render(t));
    SourceSaveBlock(m, env);
    SavedEnvKeeps(env, v);
    CleanRender(t);
    CleanSource(SavedEnv(env), Render(t), v, n);
  }

  lemma CleanRender(t: seq<Seg>)
    requires forall s :: s in t ==> Clean(SegLines(s))
    ensures Clean(Render(t))
  {
    forall n | 0 <= n < |Render(t)| ensures CleanLine(Render(t)[n]) {
      var l := Render(t)[n];
      LineOfSeg(t, l);
      var i :| 0 <= i < |t| && l in SegLines(t[i]);
      assert t[i] in t;
      var j :| 0 <= j < |SegLines(t[i])| && SegLines(t[i])[j] == l;
    }
  }

  /** The files edits can lead to: still stock, or with the environment saved on top. */
  ghost predicate Edited(m: Marks, lines: seq<string>) {
    || (exists segs :: StockOk(m, segs) && lines == Render(segs))
    || (exists t :: TailOk(m, t) && lines == Saved(m, t))
  }

  /** Every run of edits from a stock file stays in that form ... */
  lemma {:induction false} EveryRunOfEdits(m: Marks, es: seq<Edit>, segs: seq<Seg>)
    requires Separate(m) && StockOk(m, segs) && forall i :: 0 <= i < |es| ==> EditOk(m, es[i])
    ensures Edited(m, ApplyAll(m, es, Render(segs)))
  {
    if es != [] {
      var before := ApplyAll(m, es[..|es| - 1], Render(segs));
      EveryRunOfEdits(m, es[..|es| - 1], segs);
      var e := es[|es| - 1];
      if s :| StockOk(m, s) && before == Render(s) {
        ApplyOnStock(m, e, s);
      } else {
        var t :| TailOk(m, t) && before == Saved(m, t);
        ApplyOnSaved(m, e, t);
      }
    }
  }

  /** An edit that writes a block. */
  predicate Writes(e: Edit) { !Refused(e) && !(e.OstTotal? && e.count == 0) }

  predicate SomeWrites(es: seq<Edit>) { exists i :: 0 <= i < |es| && Writes(es[i]) }

  /** ... and once a block has been written, the save lines are on top to stay. */
  lemma {:induction false} SavedOnceWritten(m: Marks, es: seq<Edit>, segs: seq<Seg>) returns (t: seq<Seg>)
    requires Separate(m) && StockOk(m, segs) && forall i :: 0 <= i < |es| ==> EditOk(m, es[i])
    requires SomeWrites(es)
    ensures TailOk(m, t) && ApplyAll(m, es, Render(segs)) == Saved(m, t)
  {
    var last, prev := es[|es| - 1], es[..|es| - 1];
    assert es == prev + [last];
    if SomeWrites(prev) {
      var u := SavedOnceWritten(m, prev, segs);
      ApplyOnSaved(m, last, u);
      t := ApplySegs(m, last, u);
    } else {
      LastWrites(prev, last);
      EveryRunOfEdits(m, prev, segs);
      t := WriteSaves(m, last, ApplyAll(m, prev, Render(segs)));
    }
  }

  lemma LastWrites(prev: seq<Edit>, last: Edit)
    requires SomeWrites(prev + [last]) && !SomeWrites(prev)
    ensures Writes(last)
  {
    var es := prev + [last];
    var i :| 0 <= i < |es| && Writes(es[i]);
    assert es[|prev|] == last && forall j :: 0 <= j < |prev| ==> es[j] == prev[j];
  }

  lemma WriteSaves(m: Marks, e: Edit, lines: seq<string>) returns (t: seq<Seg>)
    requires Separate(m) && EditOk(m, e) && Edited(m, lines) && Writes(e)
    ensures TailOk(m, t) && Apply(m, e, lines) == Saved(m, t)
  {
    if s :| StockOk(m, s) && lines == Render(s) {
      ApplyOnStock(m, e, s);
      t := ApplySegs(m, e, Without(s, EnvSave));
    } else {
      var u :| TailOk(m, u) && lines == Saved(m, u);
      ApplyOnSaved(m, e, u);
      t := ApplySegs(m, e, u);
    }
  }

  lemma SaveLineAssigns(u: string, v: string)
    requires Tracked(u) && Tracked(v)
    ensures LastAssign([SaveLine(u)], v).None?
  {
    TrackedNames(u);
    TrackedNames(v);
    SaveLineText(u);
    AssignsElsewhere(EnvName(u), "${" + u + "-}", v);
  }

  lemma SaveLineText(u: string)
    ensures SaveLine(u) == EnvName(u) + "=" + ("${" + u + "-}")
  {
  }

  lemma AssignsElsewhere(e: string, rhs: string, v: string)
    requires IsName(e) && e != v
    ensures LastAssign([e + "=" + rhs], v).None?
  {
    ParseAssign(e, rhs);
  }

  lemma SaveBlockAssigns(m: Marks, v: string)
    requires Separate(m) && Tracked(v)
    ensures LastAssign(SegLines(SaveBlock(m)), v).None?
  {
    var h, f := SaveBlock(m).head, SaveBlock(m).foot;
    CommentAssignsNothing(h);
    CommentAssignsNothing(f);
    SaveLineAssigns("MDSCOUNT", v);
    SaveLineAssigns("OSTCOUNT", v);
    SaveLineAssigns("FSTYPE", v);
    FiveLines(h, SaveLine("MDSCOUNT"), SaveLine("OSTCOUNT"), SaveLine("FSTYPE"), f, v);
  }

  lemma FiveLines(a: string, b: string, c: string, d: string, e: string, v: string)
    requires Parse(a) == Other && Parse(e) == Other
    requires LastAssign([b], v).None? && LastAssign([c], v).None? && LastAssign([d], v).None?
    ensures LastAssign([a] + [b, c, d] + [e], v).None?
  {
    ListShape(a, b, c, d, e);
    LastAssignAppend([d], [e] + [], v);
    LastAssignAppend([c], [d] + ([e] + []), v);
    LastAssignAppend([b], [c] + ([d] + ([e] + [])), v);
    LastAssignAppend([a], [b] + ([c] + ([d] + ([e] + []))), v);
  }

  /** ... so for every run of edits that writes a block and every environment: a setting that
      the environment makes wins, and otherwise the block that assigns it last decides. */
  lemma EveryRunRespectsEnvironment(m: Marks, es: seq<Edit>, segs: seq<Seg>, env: Env, v: string, n: string)
    requires Separate(m) && StockOk(m, segs) && forall i :: 0 <= i < |es| ==> EditOk(m, es[i])
    requires Tracked(v) && SomeWrites(es)
    ensures var file := ApplyAll(m, es, Render(segs));
            && (Value(env, v) != "" ==> Value(Source(env, file), v) == Value(env, v))
            && (Value(env, v) == "" && LastAssign(file, v) == Some(Default(EnvName(v), n)) ==>
              Value(Source(env, file), v) == n)
  {
    var t := SavedOnceWritten(m, es, segs);
    SourcingRespectsEnvironment(m, t, env, v, n);
    SaveBlockAssigns(m, v);
    LastAssignAppend(SegLines(SaveBlock(m)), Render(t), v);
  }

  /** configure_fstype pins the type for every environment that leaves FSTYPE alone. */
  lemma FstypePins(m: Marks, t: seq<Seg>, env: Env, fs: string)
    requires Separate(m) && TailOk(m, t) && fs in {"ldiskfs", "zfs"}
    ensures Value(Source(env, Apply(m, FsType(fs), Saved(m, t))), "FSTYPE")
            == if Value(env, "FSTYPE") != "" then Value(env, "FSTYPE") else fs
  {
    var e := FsType(fs);
    ApplyOnSaved(m, e, t);
    var b := EditBlock(m, e);
    var t' := ApplySegs(m, e, t);
    EnvCountClean("FSTYPE", fs);
    BlockAssigns(m, Fstype, [EnvCount("FSTYPE", fs)], "FSTYPE");
    RenderAppended(Without(t, Fstype), b);
    LastAssignAppend(Render(Without(t, Fstype)), [""] + SegLines(b), "FSTYPE");
    LastAssignAppend([""], SegLines(b), "FSTYPE");
    assert LastAssign(Render(t'), "FSTYPE") == Some(Default(EnvName("FSTYPE"), fs));
    SourcingRespectsEnvironment(m, t', env, "FSTYPE", fs);
  }

  /** Marker lines assign nothing, so a block assigns what its body does. */
  lemma BlockAssigns(m: Marks, k: Kind, lines: seq<string>, v: string)
    requires Separate(m)
    ensures LastAssign(SegLines(Marked(m, k, lines)), v) == LastAssign(lines, v)
  {
    var b := Marked(m, k, lines);
    CommentAssignsNothing(b.head);
    CommentAssignsNothing(b.foot);
    LastAssignAppend([b.head] + lines, [b.foot], v);
    LastAssignAppend([b.head], lines, v);
  }

  // ---- ram devices and disk blocks -------------------------------------------------------

  function OstDev(n: nat): string { "OSTDEV" + Decimal(n) }

  lemma OstDevInjective(i: nat, n: nat)
    requires OstDev(i) == OstDev(n)
    ensures i == n
  {
    assert OstDev(i)[6..] == Decimal(i) && OstDev(n)[6..] == Decimal(n);
    DecimalRoundTrip(i);
    DecimalRoundTrip(n);
  }

  lemma DeviceLine(name: string, i: nat, b: Backing)
    requires name == "OSTDEV" || name == "MDSDEV"
    ensures Parse(Set(name + Decimal(i), Device(b, i))) == Assign(name + Decimal(i), Lit(Device(b, i)))
  {
    DeviceName(name, i);
    SetClean(name + Decimal(i), Device(b, i));
  }

  lemma {:induction false} DevicesAssign(name: string, count: nat, b: Backing, n: nat)
    requires name == "OSTDEV" || name == "MDSDEV"
    ensures LastAssign(Devices(name, count, b), OstDev(n))
            == if name == "OSTDEV" && 1 <= n <= count then Some(Lit(Device(b, n))) else None
  {
    if count > 0 {
      DevicesAssign(name, count - 1, b, n);
      var l := Set(name + Decimal(count), Device(b, count));
      DeviceLine(name, count, b);
      LastAssignAppend(Devices(name, count - 1, b), [l], OstDev(n));
      assert [l][1..] == [];
      if name == "OSTDEV" && OstDev(count) == OstDev(n) {
        OstDevInjective(count, n);
      }
      assert name == "MDSDEV" ==> (name + Decimal(count))[0] != OstDev(n)[0];
    }
  }

  /** Lines that assign no OSTDEV variable. */
  predicate NoDevice(lines: seq<string>, n: nat) { LastAssign(lines, OstDev(n)).None? }

  lemma SettingNoDevice(v: string, text: string, n: nat)
    requires v in {"MDSSIZE", "OSTSIZE", "CLIENTS", "CLIENTCOUNT", "MDSDEV1"}
    ensures NoDevice([Set(v, text)], n)
  {
    SetClean(v, text);
    assert [Set(v, text)][1..] == [];
    assert OstDev(n)[0] == 'O' && OstDev(n)[3] == 'D';
  }

  lemma CounterNoDevice(v: string, value: string, n: nat)
    requires Tracked(v)
    ensures NoDevice([EnvCount(v, value)], n)
  {
    EnvCountClean(v, value);
    assert [EnvCount(v, value)][1..] == [];
    DeviceName("OSTDEV", n);
  }

  lemma NoDeviceAppend(a: seq<string>, b: seq<string>, n: nat)
    ensures NoDevice(b, n) ==> LastAssign(a + b, OstDev(n)) == LastAssign(a, OstDev(n))
    ensures LastAssign(b, OstDev(n)).Some? ==> LastAssign(a + b, OstDev(n)) == LastAssign(b, OstDev(n))
  {
    LastAssignAppend(a, b, OstDev(n));
  }

  lemma RamAssigns(count: nat, gb: nat, ramMdt: bool, n: nat)
    ensures LastAssign(RamLines(count, gb, ramMdt), OstDev(n))
            == if 1 <= n <= count then Some(Lit(RamDevice(n - 1))) else None
  {
    var kb := Decimal(gb * 1024 * 1024);
    var a, b := [EnvCount("OSTCOUNT", Decimal(count))], [Set("OSTSIZE", kb)];
    var d := Devices("OSTDEV", count, OnRam);
    CounterNoDevice("OSTCOUNT", Decimal(count), n);
    SettingNoDevice("OSTSIZE", kb, n);
    NoDeviceAppend(a, b, n);
    DevicesAssign("OSTDEV", count, OnRam, n);
    NoDeviceAppend(a + b, d, n);
    RamMdtNoDevice(kb, count, n);
    NoDeviceAppend(a + b + d, Opt(ramMdt, RamMdtLines(kb, count)), n);
  }

  lemma RamMdtNoDevice(kb: string, count: nat, n: nat)
    ensures NoDevice(RamMdtLines(kb, count), n)
  {
    CounterNoDevice("MDSCOUNT", "1", n);
    SettingNoDevice("MDSSIZE", kb, n);
    SettingNoDevice("MDSDEV1", RamDevice(count), n);
    NoDeviceAppend([EnvCount("MDSCOUNT", "1")], [Set("MDSSIZE", kb)], n);
    NoDeviceAppend([EnvCount("MDSCOUNT", "1")] + [Set("MDSSIZE", kb)], [Set("MDSDEV1", RamDevice(count))], n);
  }

  lemma OptNoDevice(c: bool, lines: seq<string>, n: nat)
    requires NoDevice(lines, n)
    ensures NoDevice(Opt(c, lines), n)
  {
  }

  lemma DiskAssigns(mdts: nat, osts: nat, bytes: nat, n: nat)
    ensures LastAssign(DiskLines(mdts, osts, bytes), OstDev(n))
            == if 1 <= n <= osts then Some(Lit(DiskDevice(mdts + n))) else None
  {
    DiskLinesAssign(mdts, osts, bytes, n);
    OstDisksAssign(mdts, osts, n);
  }

  lemma OstDisksAssign(mdts: nat, osts: nat, n: nat)
    ensures LastAssign(Devices("OSTDEV", osts, OnDisk(mdts)), OstDev(n))
            == if 1 <= n <= osts then Some(Lit(DiskDevice(mdts + n))) else None
  {
    DevicesAssign("OSTDEV", osts, OnDisk(mdts), n);
  }

  lemma DiskLinesAssign(mdts: nat, osts: nat, bytes: nat, n: nat)
    ensures LastAssign(DiskLines(mdts, osts, bytes), OstDev(n))
            == LastAssign(Devices("OSTDEV", osts, OnDisk(mdts)), OstDev(n))
  {
    var kb := Decimal(bytes / 1024);
    SizesNoDevice(kb, n);
    OstCountNoDevice(osts, n);
    MdsNoDevice(mdts, n);
    ClientsNoDevice(n);
    DiskPartsAssign(bytes > 0 && mdts > 0, [Set("MDSSIZE", kb)], bytes > 0 && osts > 0, [Set("OSTSIZE", kb)],
                    mdts > 0, [EnvCount("MDSCOUNT", Decimal(mdts))] + Devices("MDSDEV", mdts, OnDisk(0)),
                    osts > 0, [EnvCount("OSTCOUNT", Decimal(osts))], Devices("OSTDEV", osts, OnDisk(mdts)),
                      ClientLines(), n);
  }

  lemma SizesNoDevice(kb: string, n: nat)
    ensures NoDevice([Set("MDSSIZE", kb)], n) && NoDevice([Set("OSTSIZE", kb)], n)
  {
    SettingNoDevice("MDSSIZE", kb, n);
    SettingNoDevice("OSTSIZE", kb, n);
  }

  lemma OstCountNoDevice(osts: nat, n: nat)
    ensures NoDevice([EnvCount("OSTCOUNT", Decimal(osts))], n)
  {
    CounterNoDevice("OSTCOUNT", Decimal(osts), n);
  }

  lemma DiskPartsAssign(p: bool, a: seq<string>, q: bool, b: seq<string>, r: bool, c: seq<string>, s: bool,
                        d: seq<string>,
                        e: seq<string>, f: seq<string>, n: nat)
    requires NoDevice(a, n) && NoDevice(b, n) && NoDevice(c, n) && NoDevice(d, n) && NoDevice(f, n)
    ensures LastAssign(Opt(p, a) + Opt(q, b) + Opt(r, c) + Opt(s, d) + e + f, OstDev(n)) == LastAssign(e, OstDev(n))
  {
    OptNoDevice(p, a, n);
    OptNoDevice(q, b, n);
    OptNoDevice(r, c, n);
    OptNoDevice(s, d, n);
    OnlyFifthAssigns(Opt(p, a), Opt(q, b), Opt(r, c), Opt(s, d), e, f, n);
  }

  lemma MdsNoDevice(mdts: nat, n: nat)
    ensures NoDevice([EnvCount("MDSCOUNT", Decimal(mdts))] + Devices("MDSDEV", mdts, OnDisk(0)), n)
  {
    CounterNoDevice("MDSCOUNT", Decimal(mdts), n);
    DevicesAssign("MDSDEV", mdts, OnDisk(0), n);
    NoDeviceAppend([EnvCount("MDSCOUNT", Decimal(mdts))], Devices("MDSDEV", mdts, OnDisk(0)), n);
  }

  lemma OnlyFifthAssigns(a: seq<string>, b: seq<string>, c: seq<string>, d: seq<string>, e: seq<string>,
                         f: seq<string>, n: nat)
    requires NoDevice(a, n) && NoDevice(b, n) && NoDevice(c, n) && NoDevice(d, n) && NoDevice(f, n)
    ensures LastAssign(a + b + c + d + e + f, OstDev(n)) == LastAssign(e, OstDev(n))
  {
    NoDeviceAppend(a, b, n);
    NoDeviceAppend(a + b, c, n);
    NoDeviceAppend(a + b + c, d, n);
    LastAssignAppend(a + b + c + d, e, OstDev(n));
    NoDeviceAppend(a + b + c + d + e, f, n);
  }

  function ClientLines(): seq<string> {
    [Set("CLIENTS", "${CLIENTS:-$HOSTNAME}")] + [Set("CLIENTCOUNT", "${CLIENTCOUNT:-1}")]
  }

  lemma ClientsNoDevice(n: nat)
    ensures NoDevice(ClientLines(), n)
  {
    SettingNoDevice("CLIENTS", "${CLIENTS:-$HOSTNAME}", n);
    SettingNoDevice("CLIENTCOUNT", "${CLIENTCOUNT:-1}", n);
    NoDeviceAppend([Set("CLIENTS", "${CLIENTS:-$HOSTNAME}")], [Set("CLIENTCOUNT", "${CLIENTCOUNT:-1}")], n);
  }

  /** OSTDEVn is assigned `dev` by the last segment that assigns it, segment `i`. */
  ghost predicate Decides(t: seq<Seg>, i: nat, n: nat, dev: string) {
    && i < |t| && LastAssign(SegLines(t[i]), OstDev(n)) == Some(Lit(dev))
    && forall j :: i < j < |t| ==> NoDevice(SegLines(t[j]), n)
  }

  lemma {:induction false} DeciderWins(t: seq<Seg>, i: nat, n: nat, dev: string)
    requires Decides(t, i, n, dev)
    ensures LastAssign(Render(t), OstDev(n)) == Some(Lit(dev))
  {
    if i == 0 {
      NoneAfter(t[1..], n);
      NoDeviceAppend(SegLines(t[0]), Render(t[1..]), n);
    } else {
      DeciderWins(t[1..], i - 1, n, dev);
      NoDeviceAppend(SegLines(t[0]), Render(t[1..]), n);
    }
  }

  lemma {:induction false} NoneAfter(t: seq<Seg>, n: nat)
    requires forall j :: 0 <= j < |t| ==> NoDevice(SegLines(t[j]), n)
    ensures NoDevice(Render(t), n)
  {
    if t != [] {
      NoneAfter(t[1..], n);
      NoDeviceAppend(SegLines(t[0]), Render(t[1..]), n);
    }
  }

  lemma DevicesDiffer(a: nat, b: nat)
    ensures RamDevice(a) != DiskDevice(b)
  {
    assert RamDevice(a)[5] == 'r' && DiskDevice(b)[5] == 'v';
  }

  /** Rewriting a block that sits before the deciding segment changes nothing. */
  lemma ReplaceKeepsDecider(t: seq<Seg>, b: Seg, i: nat, n: nat, dev: string)
    requires b.Block? && Decides(t, i, n, dev) && forall j :: i <= j < |t| ==> !IsKind(t[j], b.kind)
    ensures Decides(Replace(t, b), i, n, dev)
  {
  }

  lemma AppendDecider(t: seq<Seg>, b: Seg, i: nat, n: nat, dev: string)
    requires b.Block?
    ensures Decides(t, i, n, dev) && NoDevice(SegLines(b), n) ==> Decides(t + [Line(""), b], i, n, dev)
    ensures LastAssign(SegLines(b), OstDev(n)) == Some(Lit(dev)) ==> Decides(t + [Line(""), b], |t| + 1, n, dev)
  {
    assert [""][1..] == [];
    assert LastAssign([""][1..], OstDev(n)).None? && Parse("") == Other;
    assert NoDevice(SegLines(Line("")), n);
  }

  /** Right after configure_ram_osts the ram devices decide, from the last segment. */
  lemma RamDecides(m: Marks, t: seq<Seg>, count: nat, gb: nat, ramMdt: bool, n: nat)
    requires Separate(m) && 1 <= n <= count
    ensures var t' := ApplySegs(m, RamOsts(count, gb, ramMdt), t);
            Decides(t', |t'| - 1, n, RamDevice(n - 1)) && IsKind(t'[|t'| - 1], Ram)
  {
    BlockAssigns(m, Ram, RamLines(count, gb, ramMdt), OstDev(n));
    RamAssigns(count, gb, ramMdt, n);
  }

  /** A rewrite of the disk block leaves the OST on its ram device exactly when the disk
      block was there before the ram block, or does not reach that OST. */
  lemma DiskRewriteAfterRam(m: Marks, t: seq<Seg>, count: nat, gb: nat, ramMdt: bool, mdts: nat, osts: nat, bytes: nat,
                            n: nat)
    requires Separate(m) && TailOk(m, t) && 1 <= n <= count
    ensures var t' := ApplySegs(m, TestDisks(mdts, osts, bytes), ApplySegs(m, RamOsts(count, gb, ramMdt), t));
            LastAssign(Render(t'), OstDev(n)) == Some(Lit(RamDevice(n - 1))) <==> HasKind(t, Disk) || n > osts
  {
    var ram := RamOsts(count, gb, ramMdt);
    var t1 := ApplySegs(m, ram, t);
    RamDecides(m, t, count, gb, ramMdt, n);
    DiskBlockAssigns(m, mdts, osts, bytes, n);
    WithoutKinds(m, t, Ram);
    DiskAcrossRam(t, EditBlock(m, ram));
    DiskAfterDecider(t1, EditBlock(m, TestDisks(mdts, osts, bytes)), |t1| - 1, n, RamDevice(n - 1), mdts + n, osts);
  }

  lemma DiskBlockAssigns(m: Marks, mdts: nat, osts: nat, bytes: nat, n: nat)
    requires Separate(m)
    ensures LastAssign(SegLines(EditBlock(m, TestDisks(mdts, osts, bytes))), OstDev(n))
            == if 1 <= n <= osts then Some(Lit(DiskDevice(mdts + n))) else None
  {
    BlockAssigns(m, Disk, DiskLines(mdts, osts, bytes), OstDev(n));
    DiskAssigns(mdts, osts, bytes, n);
  }

  /** A disk block spliced in behind the last segment, which decides. */
  lemma DiskAfterDecider(t: seq<Seg>, d: Seg, i: nat, n: nat, ram: string, k: nat, osts: nat)
    requires IsKind(d, Disk) && Decides(t, i, n, ram) && i == |t| - 1 && IsKind(t[i], Ram) && 1 <= n
    requires LastAssign(SegLines(d), OstDev(n)) == if n <= osts then Some(Lit(DiskDevice(k))) else None
    requires exists j :: ram == RamDevice(j)
    ensures LastAssign(Render(SpliceSegs(t, d)), OstDev(n)) == Some(Lit(ram)) <==> HasKind(t, Disk) || n > osts
  {
    var r := SpliceSegs(t, d);
    if HasKind(t, Disk) {
      ReplaceKeepsDecider(t, d, i, n, ram);
      DeciderWins(r, i, n, ram);
    } else if n > osts {
      AppendDecider(t, d, i, n, ram);
      DeciderWins(r, i, n, ram);
    } else {
      AppendDecider(t, d, i, n, DiskDevice(k));
      DeciderWins(r, i + 2, n, DiskDevice(k));
      var j :| ram == RamDevice(j);
      DevicesDiffer(j, k);
    }
  }

  lemma DiskAcrossRam(t: seq<Seg>, ram: Seg)
    requires IsKind(ram, Ram)
    ensures HasKind(Without(t, Ram) + [Line(""), ram], Disk) <==> HasKind(Without(t, Ram), Disk)
  {
    var w := Without(t, Ram);
    var r := w + [Line(""), ram];
    if HasKind(w, Disk) {
      var i :| 0 <= i < |w| && IsKind(w[i], Disk);
      assert IsKind(r[i], Disk);
    }
    if HasKind(r, Disk) {
      var i :| 0 <= i < |r| && IsKind(r[i], Disk);
      assert IsKind(w[i], Disk);
    }
  }

  predicate DiskOnly(es: seq<Edit>) { forall i :: 0 <= i < |es| ==> es[i].TestDisks? }

  /** A ram block is last and decides OSTDEVn; a disk block comes before it. */
  ghost predicate RamLast(t: seq<Seg>, n: nat, dev: string) {
    HasKind(t, Disk) && |t| > 0 && IsKind(t[|t| - 1], Ram) && Decides(t, |t| - 1, n, dev)
  }

  lemma RamBecomesLast(m: Marks, t: seq<Seg>, count: nat, gb: nat, ramMdt: bool, n: nat)
    requires Separate(m) && HasKind(t, Disk) && 1 <= n <= count
    ensures RamLast(ApplySegs(m, RamOsts(count, gb, ramMdt), t), n, RamDevice(n - 1))
  {
    RamDecides(m, t, count, gb, ramMdt, n);
    WithoutKinds(m, t, Ram);
    DiskAcrossRam(t, EditBlock(m, RamOsts(count, gb, ramMdt)));
  }

  lemma SpliceKeepsRamLast(t: seq<Seg>, b: Seg, n: nat, dev: string)
    requires IsKind(b, Disk) && RamLast(t, n, dev)
    ensures RamLast(SpliceSegs(t, b), n, dev)
  {
    ReplaceKeepsKind(t, b);
    LastStays(t, SpliceSegs(t, b), n, dev);
  }

  lemma LastStays(t: seq<Seg>, r: seq<Seg>, n: nat, dev: string)
    requires RamLast(t, n, dev) && |r| == |t| && r[|t| - 1] == t[|t| - 1] && HasKind(r, Disk)
    ensures RamLast(r, n, dev)
  {
  }

  lemma DiskRewriteKeepsRamLast(m: Marks, e: Edit, t: seq<Seg>, n: nat, dev: string)
    requires e.TestDisks? && RamLast(t, n, dev)
    ensures RamLast(ApplySegs(m, e, t), n, dev)
  {
    SpliceKeepsRamLast(t, EditBlock(m, e), n, dev);
  }

  /** Any number of disk rewrites after configure_ram_osts leaves every OST on its ram
      device ... */
  lemma {:induction false} RamSurvivesDiskRewrites(m: Marks, t: seq<Seg>, es: seq<Edit>, n: nat, dev: string)
    requires DiskOnly(es) && RamLast(t, n, dev)
    ensures RamLast(ApplyAllSegs(m, es, t), n, dev)
  {
    if es != [] {
      RamSurvivesDiskRewrites(m, t, es[..|es| - 1], n, dev);
      DiskRewriteKeepsRamLast(m, es[|es| - 1], ApplyAllSegs(m, es[..|es| - 1], t), n, dev);
    }
  }

  lemma ReplaceKeepsKind(t: seq<Seg>, b: Seg)
    requires b.Block? && HasKind(t, b.kind)
    ensures HasKind(Replace(t, b), b.kind)
  {
    var i :| 0 <= i < |t| && IsKind(t[i], b.kind);
    assert IsKind(Replace(t, b)[i], b.kind);
  }

  /** ... when the file is sourced, in every environment. */
  lemma RamSurvivesWhenSourced(m: Marks, t: seq<Seg>, count: nat, gb: nat, ramMdt: bool, es: seq<Edit>, n: nat,
                               env: Env)
    requires Separate(m) && TailOk(m, t) && HasKind(t, Disk) && DiskOnly(es) && 1 <= n <= count
    ensures Value(Source(env, ApplyAll(m, es, Apply(m, RamOsts(count, gb, ramMdt), Saved(m, t)))), OstDev(n))
            == RamDevice(n - 1)
  {
    var ram := RamOsts(count, gb, ramMdt);
    ApplyOnSaved(m, ram, t);
    RunOnSaved(m, es, ApplySegs(m, ram, t));
    RamBecomesLast(m, t, count, gb, ramMdt, n);
    RamSurvivesDiskRewrites(m, ApplySegs(m, ram, t), es, n, RamDevice(n - 1));
    var t' := ApplyAllSegs(m, es, ApplySegs(m, ram, t));
    DecidedIsSourced(m, t', |t'| - 1, n, RamDevice(n - 1), env);
  }

  lemma DecidedIsSourced(m: Marks, t: seq<Seg>, i: nat, n: nat, dev: string, env: Env)
    requires Decides(t, i, n, dev)
    ensures Value(Source(env, Saved(m, t)), OstDev(n)) == dev
  {
    DeciderWins(t, i, n, dev);
    SavedLiteral(m, t, OstDev(n), dev, env);
  }

  /** A positive configure_ost_count ends it: the ram block is gone, whatever else stays. */
  lemma OstCountEndsRam(m: Marks, t: seq<Seg>, e: Edit)
    requires Separate(m) && TailOk(m, t) && e.OstTotal? && e.count > 0 && !Refused(e)
    ensures var t' := ApplySegs(m, e, t);
            && !HasKind(t', Ram) && HasKind(t', OstCount)
            && (forall k :: k != Ram && k != OstCount ==> (HasKind(t', k) <==> HasKind(t, k)))
            && Apply(m, e, Saved(m, t)) == Saved(m, t')
  {
    ApplyOnSaved(m, e, t);
    var w := Without(t, Ram);
    var b := EditBlock(m, e);
    WithoutKinds(m, t, Ram);
    WithoutOneEach(m, t, Ram);
    if HasKind(w, OstCount) {
      ReplaceOneEach(w, b);
    } else {
      AppendOneEach(w, b);
    }
  }

  lemma {:induction false} FileDevicesAssign(first: nat, last: nat, n: nat)
    ensures LastAssign(FileDevices(first, last), OstDev(n)) == if first < n <= last then Some(Lit(OstFile(n))) else None
    decreases last
  {
    if last > first {
      FileDevicesAssign(first, last - 1, n);
      var l := Set(OstDev(last), OstFile(last));
      DeviceName("OSTDEV", last);
      SetClean(OstDev(last), OstFile(last));
      assert OstFile(last)[0] == '/';
      NoDeviceAppend(FileDevices(first, last - 1), [l], n);
      assert [l][1..] == [];
      if OstDev(last) == OstDev(n) {
        OstDevInjective(last, n);
      }
    }
  }

  lemma CountAssigns(count: nat, disks: nat, kb: nat, n: nat)
    ensures LastAssign(CountLines(count, disks, kb), OstDev(n))
            == if disks < n <= count then Some(Lit(OstFile(n))) else None
  {
    var a := [EnvCount("OSTCOUNT", Decimal(count))];
    var b := Opt(count > disks, [Set("OSTSIZE", Decimal(kb))]);
    CounterNoDevice("OSTCOUNT", Decimal(count), n);
    SettingNoDevice("OSTSIZE", Decimal(kb), n);
    NoDeviceAppend(a, b, n);
    FileDevicesAssign(disks, count, n);
    NoDeviceAppend(a + b, FileDevices(disks, count), n);
  }

  /** Only segment `d` of a sound tail assigns OSTDEVn, so it decides. */
  lemma SoleAssignerDecides(t: seq<Seg>, d: Seg, n: nat, dev: string)
    requires OneEach(t) && d in t && d.Block? && LastAssign(SegLines(d), OstDev(n)) == Some(Lit(dev))
    requires forall s :: s in t && !IsKind(s, d.kind) ==> NoDevice(SegLines(s), n)
    ensures LastAssign(Render(t), OstDev(n)) == Some(Lit(dev))
  {
    var i :| 0 <= i < |t| && t[i] == d;
    forall j | i < j < |t| ensures NoDevice(SegLines(t[j]), n) {
      assert t[j] in t;
      OneEachApart(t, i, j);
    }
    DeciderWins(t, i, n, dev);
  }

  lemma {:induction false} OneEachApart(t: seq<Seg>, i: nat, j: nat)
    requires OneEach(t) && i < j < |t| && t[i].Block?
    ensures !IsKind(t[j], t[i].kind)
  {
    if i > 0 {
      OneEachApart(t[1..], i - 1, j - 1);
    } else {
      assert t[1..][j - 1] == t[j];
    }
  }

  /** After a positive configure_ost_count, the OSTs that have a disk are back on it. */
  lemma OstCountPutsDisksBack(m: Marks, t: seq<Seg>, e: Edit, d: Seg, n: nat, dev: string, env: Env)
    requires Separate(m) && TailOk(m, t) && e.OstTotal? && e.count > 0 && !Refused(e) && n <= e.disks
    requires d in t && IsKind(d, Disk) && LastAssign(SegLines(d), OstDev(n)) == Some(Lit(dev))
    requires forall s :: s in t && !IsKind(s, Disk) && !IsKind(s, Ram) && !IsKind(s, OstCount) ==>
             NoDevice(SegLines(s), n)
    ensures LastAssign(Render(ApplySegs(m, e, t)), OstDev(n)) == Some(Lit(dev))
    ensures Value(Source(env, Apply(m, e, Saved(m, t))), OstDev(n)) == dev
  {
    ApplyOnSaved(m, e, t);
    var w := Without(t, Ram);
    WithoutMembers(t, Ram);
    var b := EditBlock(m, e);
    BlockAssigns(m, OstCount, b.body, OstDev(n));
    CountAssigns(e.count, e.disks, CountKb(e), n);
    SplicedMembers(w, b, n);
    SoleAssignerDecides(SpliceSegs(w, b), d, n, dev);
    SavedLiteral(m, ApplySegs(m, e, t), OstDev(n), dev, env);
  }

  /** A literal assigned last is the sourced value. */
  lemma SavedLiteral(m: Marks, t: seq<Seg>, v: string, text: string, env: Env)
    requires LastAssign(Render(t), v) == Some(Lit(text))
    ensures Value(Source(env, Saved(m, t)), v) == text
  {
    LastAssignAppend(SegLines(SaveBlock(m)), Render(t), v);
    LastLiteralWins(env, Saved(m, t), v);
  }

  lemma SplicedMembers(w: seq<Seg>, b: Seg, n: nat)
    requires b.Block? && NoDevice(SegLines(b), n)
    ensures forall s :: s in SpliceSegs(w, b) ==> s == b || (s in w && !IsKind(s, b.kind)) || NoDevice(SegLines(s), n)
    ensures forall s :: s in w && !IsKind(s, b.kind) ==> s in SpliceSegs(w, b)
  {
    var r := SpliceSegs(w, b);
    assert [""][1..] == [] && LastAssign([""][1..], OstDev(n)).None? && Parse("") == Other;
    assert NoDevice(SegLines(Line("")), n);
    forall s | s in w && !IsKind(s, b.kind) ensures s in r {
      var i :| 0 <= i < |w| && w[i] == s;
      assert r[i] == s;
    }
    if HasKind(w, b.kind) {
      forall s | s in r ensures s == b || (s in w && !IsKind(s, b.kind)) {
        var i :| 0 <= i < |r| && r[i] == s;
        assert w[i] in w;
      }
    } else {
      forall s | s in r ensures s == b || s == Line("") || (s in w && !IsKind(s, b.kind)) {
        if s in w {
          var i :| 0 <= i < |w| && w[i] == s;
        }
      }
    }
  }
}
