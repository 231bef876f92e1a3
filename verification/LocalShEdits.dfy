/** The edits ltvm makes to cfg/local.sh, as line edits and as block edits, and what
    sourcing the edited file means. */
module LocalShEdits {
  import opened Text
  import opened LocalSh
  import opened LocalShMeaning
  import opened OstFiles

  // ---- the blocks ----------------------------------------------------------------------

  function EnvCount(v: string, value: string): string { v + "=" + "${" + EnvName(v) + ":-" + value + "}" }

  function Set(v: string, text: string): string { v + "=" + text }

  function RamDevice(n: nat): string { "/dev/ram" + Decimal(n) }

  /** The guest names its virtio disks vda, vdb, ... in the order they are attached. */
  function DiskDevice(n: nat): string { "/dev/vd" + [(if n < 1000 then 'a' as int + n else '?' as int) as char] }

  function OstFile(n: nat): string { "/var/lib/ltvm/ost-files/ost" + Decimal(n) }

  /** Where a target lives: on the disks after `before` others, or on the ram devices. */
  datatype Backing = OnDisk(before: nat) | OnRam

  function Device(b: Backing, n: nat): string {
    match b
    case OnDisk(before) => DiskDevice(before + n)
    case OnRam => if n > 0 then RamDevice(n - 1) else ""
  }

  /** `name`1 to `name`n. */
  function Devices(name: string, n: nat, b: Backing): seq<string> {
    if n == 0 then [] else Devices(name, n - 1, b) + [Set(name + Decimal(n), Device(b, n))]
  }

  /** OSTs `first` + 1 to `last`, in files. */
  function FileDevices(first: nat, last: nat): seq<string>
    decreases last
  {
    if last <= first then [] else FileDevices(first, last - 1) + [Set("OSTDEV" + Decimal(last), OstFile(last))]
  }

  function Opt(c: bool, lines: seq<string>): seq<string> { if c then lines else [] }

  function DiskLines(mdts: nat, osts: nat, bytes: nat): seq<string> {
    Opt(bytes > 0 && mdts > 0, [Set("MDSSIZE", Decimal(bytes / 1024))])
    + Opt(bytes > 0 && osts > 0, [Set("OSTSIZE", Decimal(bytes / 1024))])
    + Opt(mdts > 0, [EnvCount("MDSCOUNT", Decimal(mdts))] + Devices("MDSDEV", mdts, OnDisk(0)))
    + Opt(osts > 0, [EnvCount("OSTCOUNT", Decimal(osts))])
    + Devices("OSTDEV", osts, OnDisk(mdts))
    + ([Set("CLIENTS", "${CLIENTS:-$HOSTNAME}")] + [Set("CLIENTCOUNT", "${CLIENTCOUNT:-1}")])
  }

  function RamLines(count: nat, gb: nat, ramMdt: bool): seq<string> {
    [EnvCount("OSTCOUNT", Decimal(count))] + [Set("OSTSIZE", Decimal(gb * 1024 * 1024))]
    + Devices("OSTDEV", count, OnRam)
    + Opt(ramMdt, RamMdtLines(Decimal(gb * 1024 * 1024), count))
  }

  function RamMdtLines(kb: string, count: nat): seq<string> {
    [EnvCount("MDSCOUNT", "1")] + [Set("MDSSIZE", kb)] + [Set("MDSDEV1", RamDevice(count))]
  }

  function CountLines(count: nat, disks: nat, sizeKb: nat): seq<string> {
    [EnvCount("OSTCOUNT", Decimal(count))]
    + Opt(count > disks, [Set("OSTSIZE", Decimal(sizeKb))])
    + FileDevices(disks, count)
  }

  function Marked(m: Marks, k: Kind, lines: seq<string>): Seg {
    Block(k, m.begin(k) + " (generated by ltvm deploy) ---", lines, m.end(k) + " ---")
  }

  datatype Edit =
    | TestDisks(mdts: nat, osts: nat, bytes: nat)
    | RamOsts(ramCount: nat, gb: nat, ramMdt: bool)
    | OstTotal(count: nat, disks: nat, spaceKb: int, capKb: nat)
    | FsType(fs: string)
    | Restore(block: Seg)

  /** The size of the OST files, 0 when there are none. */
  function CountKb(e: Edit): nat
    requires e.OstTotal?
  {
    if e.count > e.disks && OstFileKb(e.spaceKb, e.count - e.disks, e.capKb) > 0
    then OstFileKb(e.spaceKb, e.count - e.disks, e.capKb) else 0
  }

  /** The block an edit writes. */
  function EditBlock(m: Marks, e: Edit): Seg {
    match e
    case TestDisks(mdts, osts, bytes) => Marked(m, Disk, DiskLines(mdts, osts, bytes))
    case RamOsts(n, gb, mdt) => Marked(m, Ram, RamLines(n, gb, mdt))
    case OstTotal(n, disks, _, _) => Marked(m, OstCount, CountLines(n, disks, CountKb(e)))
    case FsType(fs) => Marked(m, Fstype, [EnvCount("FSTYPE", fs)])
    case Restore(b) => b
  }

  /** Whether the edit raises an error and leaves the file alone. */
  predicate Refused(e: Edit) {
    || (e.OstTotal? && e.count > e.disks && OstFileKb(e.spaceKb, e.count - e.disks, e.capKb) == 0)
    || (e.FsType? && e.fs != "ldiskfs" && e.fs != "zfs")
  }

  /** What the guest's shell does to the lines. */
  function Apply(m: Marks, e: Edit, lines: seq<string>): seq<string> {
    if Refused(e) then lines
    else match e
      case TestDisks(_, _, _) => Splice(m, lines, Disk, SegLines(EditBlock(m, e)))
      case RamOsts(_, _, _) => DeleteBlocks(m, EnsureEnvSave(m, lines), Ram, false) + [""] + SegLines(EditBlock(m, e))
      case OstTotal(n, _, _, _) =>
        if n == 0 then DeleteBlocks(m, lines, OstCount, false)
        else Splice(m, DeleteBlocks(m, lines, Ram, false), OstCount, SegLines(EditBlock(m, e)))
      case FsType(_) => EnsureEnvSave(m, DeleteBlocks(m, lines, Fstype, false)) + [""] + SegLines(EditBlock(m, e))
      case Restore(b) => if b.Block? then Splice(m, lines, b.kind, SegLines(b)) else lines
  }

  /** The same on the blocks behind the save block. */
  function ApplySegs(m: Marks, e: Edit, t: seq<Seg>): seq<Seg> {
    if Refused(e) then t
    else
      var b := EditBlock(m, e);
      match e
      case TestDisks(_, _, _) => SpliceSegs(t, b)
      case RamOsts(_, _, _) => Without(t, Ram) + [Line(""), b]
      case OstTotal(n, _, _, _) => if n == 0 then Without(t, OstCount) else SpliceSegs(Without(t, Ram), b)
      case FsType(_) => Without(t, Fstype) + [Line(""), b]
      case Restore(_) => if b.Block? then SpliceSegs(t, b) else t
  }

  // ---- the form every edited file has -----------------------------------------------------

  /** Sound blocks, none of them a save block. */
  ghost predicate TailSound(m: Marks, t: seq<Seg>) { SegsOk(m, t) && OneEach(t) && !HasKind(t, EnvSave) }

  /** ... and only clean lines. */
  ghost predicate TailOk(m: Marks, t: seq<Seg>) {
    TailSound(m, t) && forall s :: s in t ==> Clean(SegLines(s))
  }

  /** A stock file: sound, not yet saving the environment; an older save block may be there. */
  ghost predicate StockOk(m: Marks, segs: seq<Seg>) {
    && SegsOk(m, segs) && OneEach(segs) && !HasSave(Render(segs))
    && forall s :: s in segs && !IsKind(s, EnvSave) ==> Clean(SegLines(s))
  }

  function Saved(m: Marks, t: seq<Seg>): seq<string> { SegLines(SaveBlock(m)) + Render(t) }

  ghost predicate BlockSound(m: Marks, b: Seg) { b.Block? && SegOk(m, b) && b.kind != EnvSave }

  ghost predicate BlockOk(m: Marks, b: Seg) { BlockSound(m, b) && Clean(SegLines(b)) }

  ghost predicate EditOk(m: Marks, e: Edit) { e.Restore? ==> BlockOk(m, e.block) }

  lemma SaveBlockOk(m: Marks)
    requires Separate(m)
    ensures SegOk(m, SaveBlock(m)) && HasSave(SegLines(SaveBlock(m)))
  {
    var b := SaveBlock(m);
    forall i | 0 <= i < |b.body| ensures Plain(m, b.body[i]) { NoHashIsPlain(m, b.body[i]); }
    assert m.begin(EnvSave) <= b.head && m.end(EnvSave) <= b.foot;
    assert IsSave(b.body[2]);
    assert SegLines(b)[3] == b.body[2];
  }

  lemma EnsureOnSaved(m: Marks, t: seq<Seg>)
    requires Separate(m)
    ensures EnsureEnvSave(m, Saved(m, t)) == Saved(m, t)
  {
    SaveBlockOk(m);
    var i :| 0 <= i < |SegLines(SaveBlock(m))| && IsSave(SegLines(SaveBlock(m))[i]);
    assert Saved(m, t)[i] == SegLines(SaveBlock(m))[i];
  }

  /** The first edit of a stock file puts the save lines ahead of everything else. */
  lemma EnsureOnStock(m: Marks, segs: seq<Seg>)
    requires Separate(m) && StockOk(m, segs)
    ensures EnsureEnvSave(m, Render(segs)) == Saved(m, Without(segs, EnvSave)) && TailOk(m, Without(segs, EnvSave))
  {
    DeleteRender(m, segs, EnvSave);
    WithoutKinds(m, segs, EnvSave);
    WithoutOneEach(m, segs, EnvSave);
    WithoutMembers(segs, EnvSave);
  }

  lemma DeleteOnSaved(m: Marks, t: seq<Seg>, k: Kind)
    requires Separate(m) && TailOk(m, t) && k != EnvSave
    ensures DeleteBlocks(m, Saved(m, t), k, false) == Saved(m, Without(t, k)) && TailOk(m, Without(t, k))
  {
    SaveBlockOk(m);
    SegMarks(m, SaveBlock(m), k);
    DeletePast(m, SegLines(SaveBlock(m)), Render(t), k, false);
    DeleteRender(m, t, k);
    WithoutKinds(m, t, k);
    WithoutOneEach(m, t, k);
    WithoutMembers(t, k);
  }

  lemma DeleteOnStock(m: Marks, segs: seq<Seg>, k: Kind)
    requires Separate(m) && StockOk(m, segs)
    ensures DeleteBlocks(m, Render(segs), k, false) == Render(Without(segs, k)) && StockOk(m, Without(segs, k))
  {
    DeleteRender(m, segs, k);
    WithoutKinds(m, segs, k);
    WithoutOneEach(m, segs, k);
    WithoutMembers(segs, k);
    var w := Render(Without(segs, k));
    if HasSave(w) {
      var n :| 0 <= n < |w| && IsSave(w[n]);
      LineOfSeg(Without(segs, k), w[n]);
      var i :| 0 <= i < |Without(segs, k)| && w[n] in SegLines(Without(segs, k)[i]);
      assert Without(segs, k)[i] in segs;
      LineOfSeg(segs, w[n]);
    }
  }

  lemma RenderAppended(t: seq<Seg>, b: Seg)
    ensures Render(t + [Line(""), b]) == Render(t) + ([""] + SegLines(b))
  {
    RenderAppend(t, [Line(""), b]);
    assert [Line(""), b][1..] == [b] && [b][1..] == [];
    assert Render([b]) == SegLines(b) + [] == SegLines(b);
    assert Render([Line(""), b]) == [""] + Render([b]);
  }

  lemma AppendSound(m: Marks, t: seq<Seg>, b: Seg)
    requires Separate(m) && TailSound(m, t) && BlockSound(m, b) && !HasKind(t, b.kind)
    ensures Saved(m, t) + [""] + SegLines(b) == Saved(m, t + [Line(""), b]) && TailSound(m, t + [Line(""), b])
  {
    RenderAppended(t, b);
    Assoc(SegLines(SaveBlock(m)) + Render(t), [""], SegLines(b));
    Assoc(SegLines(SaveBlock(m)), Render(t), [""] + SegLines(b));
    NoHashIsPlain(m, "");
    AppendOneEach(t, b);
  }

  lemma AppendOnSaved(m: Marks, t: seq<Seg>, b: Seg)
    requires Separate(m) && TailOk(m, t) && BlockOk(m, b) && !HasKind(t, b.kind)
    ensures Saved(m, t) + [""] + SegLines(b) == Saved(m, t + [Line(""), b]) && TailOk(m, t + [Line(""), b])
  {
    AppendSound(m, t, b);
    assert Clean([""]) by { assert Parse("") == Other; }
  }

  /** Splicing text into the file is splicing the block among the blocks. */
  lemma SpliceSound(m: Marks, t: seq<Seg>, b: Seg)
    requires Separate(m) && TailSound(m, t) && BlockSound(m, b)
    ensures Splice(m, Saved(m, t), b.kind, SegLines(b)) == Saved(m, SpliceSegs(t, b)) && TailSound(m, SpliceSegs(t, b))
  {
    EnsureOnSaved(m, t);
    SaveBlockOk(m);
    SegMarks(m, SaveBlock(m), b.kind);
    BeginInSaved(m, t, b.kind);
    if HasKind(t, b.kind) {
      RewritePast(m, SegLines(SaveBlock(m)), Render(t), b.kind, SegLines(b), false);
      RewriteRender(m, t, b);
      ReplaceOneEach(t, b);
    } else {
      AppendSound(m, t, b);
    }
  }

  lemma SpliceOnSaved(m: Marks, t: seq<Seg>, b: Seg)
    requires Separate(m) && TailOk(m, t) && BlockOk(m, b)
    ensures Splice(m, Saved(m, t), b.kind, SegLines(b)) == Saved(m, SpliceSegs(t, b)) && TailOk(m, SpliceSegs(t, b))
  {
    SpliceSound(m, t, b);
    if HasKind(t, b.kind) {
      forall s | s in Replace(t, b) ensures s == b || s in t {
      }
    } else {
      AppendOnSaved(m, t, b);
    }
  }

  /** On the lines of every edited file: a later text of the same block wins, the same text
      twice is the same text once, and two blocks that are there may be spliced in either order. */
  lemma SpliceLawsOnLines(m: Marks, t: seq<Seg>, b: Seg, b': Seg, c: Seg)
    requires Separate(m) && TailSound(m, t) && BlockSound(m, b) && BlockSound(m, b') && BlockSound(m, c)
    requires b'.kind == b.kind && c.kind != b.kind
    ensures var f := Saved(m, t); var x, y, z := SegLines(b), SegLines(b'), SegLines(c);
            && Splice(m, Splice(m, f, b.kind, x), b.kind, y) == Splice(m, f, b.kind, y)
            && (HasBegin(m, f, b.kind) && HasBegin(m, f, c.kind) ==>
                  Splice(m, Splice(m, f, b.kind, x), c.kind, z) == Splice(m, Splice(m, f, c.kind, z), b.kind, x))
  {
    SpliceLaws(t, b, b', c);
    BeginInSaved(m, t, b.kind);
    BeginInSaved(m, t, c.kind);
    SpliceSound(m, t, b);
    SpliceSound(m, t, b');
    SpliceSound(m, t, c);
    SpliceSound(m, SpliceSegs(t, b), b');
    SpliceSound(m, SpliceSegs(t, b), c);
    SpliceSound(m, SpliceSegs(t, c), b);
  }

  lemma BeginInSaved(m: Marks, t: seq<Seg>, k: Kind)
    requires Separate(m) && SegsOk(m, t) && k != EnvSave
    ensures HasBegin(m, Saved(m, t), k) <==> HasKind(t, k)
  {
    SaveBlockOk(m);
    SegMarks(m, SaveBlock(m), k);
    HasBeginRender(m, t, k);
    var a, b := SegLines(SaveBlock(m)), Render(t);
    assert forall i :: 0 <= i < |b| ==> (a + b)[|a| + i] == b[i];
  }

  // ---- what the blocks say ------------------------------------------------------------------

  lemma TrackedNames(v: string)
    requires Tracked(v)
    ensures IsName(v) && IsName(EnvName(v)) && v[0] != '_' && EnvName(v)[0] == '_'
  {
    NameAppend("_ltvm_env_", v);
  }

  lemma SetClean(v: string, text: string)
    requires IsName(v) && v[0] != '_' && !Tracked(v)
    ensures CleanLine(Set(v, text)) && Set(v, text)[0] != '#'
    ensures Parse(Set(v, text)) == Assign(v, ParseRhs(text))
  {
    ParseAssign(v, text);
  }

  lemma EnvCountClean(v: string, value: string)
    requires Tracked(v)
    ensures CleanLine(EnvCount(v, value)) && EnvCount(v, value)[0] != '#'
    ensures Parse(EnvCount(v, value)) == Assign(v, Default(EnvName(v), value))
  {
    TrackedNames(v);
    CounterParses(v, EnvName(v), value);
    CleanFromParse(EnvCount(v, value), v, Default(EnvName(v), value));
  }

  lemma CounterParses(v: string, e: string, value: string)
    requires IsName(v) && IsName(e)
    ensures var l := v + "=" + "${" + e + ":-" + value + "}";
            Parse(l) == Assign(v, Default(e, value)) && l[0] == v[0]
  {
    ParseAssign(v, "${" + e + ":-" + value + "}");
    ParseDefault(e, value);
    Regrouped(v, "=", "${", e, ":-", value, "}");
  }

  lemma Regrouped(a: string, b: string, c: string, d: string, e: string, f: string, g: string)
    ensures a + b + c + d + e + f + g == a + b + (c + d + e + f + g)
  {
  }

  lemma CleanFromParse(l: string, v: string, r: Rhs)
    requires Parse(l) == Assign(v, r) && v != "" && v[0] != '_'
    requires Tracked(v) ==> r.Default? && (r.x == v || r.x == EnvName(v))
    ensures CleanLine(l)
  {
    forall w | Tracked(w) ensures v != EnvName(w) {
      assert EnvName(w)[0] == '_';
    }
  }

  /** Lines that are clean assignments, not comments. */
  ghost predicate BodyLine(l: string) { CleanLine(l) && l != "" && l[0] != '#' }

  ghost predicate Body(lines: seq<string>) { forall i :: 0 <= i < |lines| ==> BodyLine(lines[i]) }

  lemma DeviceBody(v: string, n: nat, text: string)
    requires v == "OSTDEV" || v == "MDSDEV"
    ensures Body([Set(v + Decimal(n), text)])
  {
    DeviceName(v, n);
    SetClean(v + Decimal(n), text);
  }

  lemma {:induction false} DevicesBody(name: string, n: nat, b: Backing)
    requires name == "OSTDEV" || name == "MDSDEV"
    ensures Body(Devices(name, n, b))
  {
    if n > 0 {
      DevicesBody(name, n - 1, b);
      DeviceBody(name, n, Device(b, n));
      BodyAppend(Devices(name, n - 1, b), [Set(name + Decimal(n), Device(b, n))]);
    }
  }

  lemma {:induction false} FileDevicesBody(first: nat, last: nat)
    ensures Body(FileDevices(first, last))
    decreases last
  {
    if last > first {
      FileDevicesBody(first, last - 1);
      DeviceBody("OSTDEV", last, OstFile(last));
      BodyAppend(FileDevices(first, last - 1), [Set("OSTDEV" + Decimal(last), OstFile(last))]);
    }
  }

  lemma DeviceName(name: string, n: nat)
    requires name == "OSTDEV" || name == "MDSDEV"
    ensures IsName(name + Decimal(n)) && (name + Decimal(n))[0] != '_' && !Tracked(name + Decimal(n))
  {
    NameAppend(name, Decimal(n));
    assert (name + Decimal(n))[3] == 'D';
  }

  lemma SettingBody(v: string, text: string)
    requires v in {"MDSSIZE", "OSTSIZE", "CLIENTS", "CLIENTCOUNT", "MDSDEV1"}
    ensures Body([Set(v, text)])
  {
    SetClean(v, text);
  }

  lemma CountersBody(v: string, value: string)
    requires Tracked(v)
    ensures Body([EnvCount(v, value)])
  {
    EnvCountClean(v, value);
  }

  lemma BodyAppend(a: seq<string>, b: seq<string>)
    requires Body(a) && Body(b)
    ensures Body(a + b)
  {
  }

  lemma OptBody(c: bool, a: seq<string>)
    requires Body(a)
    ensures Body(Opt(c, a))
  {
  }

  lemma DiskBody(mdts: nat, osts: nat, bytes: nat)
    ensures Body(DiskLines(mdts, osts, bytes))
  {
    var kb := Decimal(bytes / 1024);
    SettingBody("MDSSIZE", kb);
    SettingBody("OSTSIZE", kb);
    CountersBody("MDSCOUNT", Decimal(mdts));
    CountersBody("OSTCOUNT", Decimal(osts));
    DevicesBody("MDSDEV", mdts, OnDisk(0));
    DevicesBody("OSTDEV", osts, OnDisk(mdts));
    SettingBody("CLIENTS", "${CLIENTS:-$HOSTNAME}");
    SettingBody("CLIENTCOUNT", "${CLIENTCOUNT:-1}");
    var mdt, mds := [EnvCount("MDSCOUNT", Decimal(mdts))], Devices("MDSDEV", mdts, OnDisk(0));
    var ost := [EnvCount("OSTCOUNT", Decimal(osts))];
    var x, y := [Set("CLIENTS", "${CLIENTS:-$HOSTNAME}")], [Set("CLIENTCOUNT", "${CLIENTCOUNT:-1}")];
    BodyAppend(mdt, mds);
    BodyAppend(x, y);
    OptBody(bytes > 0 && mdts > 0, [Set("MDSSIZE", kb)]);
    OptBody(bytes > 0 && osts > 0, [Set("OSTSIZE", kb)]);
    OptBody(mdts > 0, mdt + mds);
    OptBody(osts > 0, ost);
    JoinedBody(Opt(bytes > 0 && mdts > 0, [Set("MDSSIZE", kb)]), Opt(bytes > 0 && osts > 0, [Set("OSTSIZE", kb)]),
               Opt(mdts > 0, mdt + mds), Opt(osts > 0, ost), Devices("OSTDEV", osts, OnDisk(mdts)), x + y);
  }

  lemma JoinedBody(a: seq<string>, b: seq<string>, c: seq<string>, d: seq<string>, e: seq<string>, f: seq<string>)
    requires Body(a) && Body(b) && Body(c) && Body(d) && Body(e) && Body(f)
    ensures Body(a + b + c + d + e + f)
  {
    BodyAppend(a, b);
    BodyAppend(a + b, c);
    BodyAppend(a + b + c, d);
    BodyAppend(a + b + c + d, e);
    BodyAppend(a + b + c + d + e, f);
  }

  lemma RamBody(count: nat, gb: nat, ramMdt: bool)
    ensures Body(RamLines(count, gb, ramMdt))
  {
    var kb := Decimal(gb * 1024 * 1024);
    CountersBody("OSTCOUNT", Decimal(count));
    SettingBody("OSTSIZE", kb);
    DevicesBody("OSTDEV", count, OnRam);
    RamMdtBody(kb, count);
    BodyAppend([EnvCount("OSTCOUNT", Decimal(count))], [Set("OSTSIZE", kb)]);
    BodyAppend([EnvCount("OSTCOUNT", Decimal(count))] + [Set("OSTSIZE", kb)], Devices("OSTDEV", count, OnRam));
    OptBody(ramMdt, RamMdtLines(kb, count));
    BodyAppend([EnvCount("OSTCOUNT", Decimal(count))] + [Set("OSTSIZE", kb)] + Devices("OSTDEV", count, OnRam),
               Opt(ramMdt, RamMdtLines(kb, count)));
  }

  lemma RamMdtBody(kb: string, count: nat)
    ensures Body(RamMdtLines(kb, count))
  {
    CountersBody("MDSCOUNT", "1");
    SettingBody("MDSSIZE", kb);
    SettingBody("MDSDEV1", RamDevice(count));
    BodyAppend([EnvCount("MDSCOUNT", "1")], [Set("MDSSIZE", kb)]);
    BodyAppend([EnvCount("MDSCOUNT", "1")] + [Set("MDSSIZE", kb)], [Set("MDSDEV1", RamDevice(count))]);
  }

  lemma CountBody(count: nat, disks: nat, sizeKb: nat)
    ensures Body(CountLines(count, disks, sizeKb))
  {
    CountersBody("OSTCOUNT", Decimal(count));
    SettingBody("OSTSIZE", Decimal(sizeKb));
    FileDevicesBody(disks, count);
    var a, b := [EnvCount("OSTCOUNT", Decimal(count))], Opt(count > disks, [Set("OSTSIZE", Decimal(sizeKb))]);
    OptBody(count > disks, [Set("OSTSIZE", Decimal(sizeKb))]);
    BodyAppend(a, b);
    BodyAppend(a + b, FileDevices(disks, count));
  }

  lemma MarkedOk(m: Marks, k: Kind, lines: seq<string>)
    requires Separate(m) && Body(lines) && k != EnvSave
    ensures BlockOk(m, Marked(m, k, lines))
  {
    var b := Marked(m, k, lines);
    assert m.begin(k) <= b.head && m.end(k) <= b.foot;
    forall i | 0 <= i < |b.body| ensures Plain(m, b.body[i]) {
      assert BodyLine(lines[i]);
      NoHashIsPlain(m, b.body[i]);
    }
    CommentAssignsNothing(b.head);
    CommentAssignsNothing(b.foot);
    forall i | 0 <= i < |SegLines(b)| ensures CleanLine(SegLines(b)[i]) {
      assert 0 < i < |SegLines(b)| - 1 ==> SegLines(b)[i] == lines[i - 1] && BodyLine(lines[i - 1]);
    }
  }

  lemma DiskBlockOk(m: Marks, mdts: nat, osts: nat, bytes: nat)
    requires Separate(m)
    ensures BlockOk(m, Marked(m, Disk, DiskLines(mdts, osts, bytes)))
  {
    DiskBody(mdts, osts, bytes);
    MarkedOk(m, Disk, DiskLines(mdts, osts, bytes));
  }

  lemma RamBlockOk(m: Marks, count: nat, gb: nat, ramMdt: bool)
    requires Separate(m)
    ensures BlockOk(m, Marked(m, Ram, RamLines(count, gb, ramMdt)))
  {
    RamBody(count, gb, ramMdt);
    MarkedOk(m, Ram, RamLines(count, gb, ramMdt));
  }

  lemma CountBlockOk(m: Marks, count: nat, disks: nat, kb: nat)
    requires Separate(m)
    ensures BlockOk(m, Marked(m, OstCount, CountLines(count, disks, kb)))
  {
    CountBody(count, disks, kb);
    MarkedOk(m, OstCount, CountLines(count, disks, kb));
  }

  lemma FsBlockOk(m: Marks, fs: string)
    requires Separate(m)
    ensures BlockOk(m, Marked(m, Fstype, [EnvCount("FSTYPE", fs)]))
  {
    CountersBody("FSTYPE", fs);
    MarkedOk(m, Fstype, [EnvCount("FSTYPE", fs)]);
  }

  lemma EditBlockOk(m: Marks, e: Edit)
    requires Separate(m) && EditOk(m, e)
    ensures BlockOk(m, EditBlock(m, e))
  {
    BlockOfCases(m, e, EditBlock(m, e));
  }

  /** The block of an edit is one of the blocks above, or the one to restore. */
  lemma BlockOfCases(m: Marks, e: Edit, b: Seg)
    requires Separate(m) && EditOk(m, e) && b == EditBlock(m, e)
    ensures BlockOk(m, b)
  {
    match e
    case TestDisks(mdts, osts, bytes) =>
      assert b == Marked(m, Disk, DiskLines(mdts, osts, bytes));
      DiskBlockOk(m, mdts, osts, bytes);
    case RamOsts(n, gb, mdt) =>
      assert b == Marked(m, Ram, RamLines(n, gb, mdt));
      RamBlockOk(m, n, gb, mdt);
    case OstTotal(n, disks, _, _) =>
      assert b == Marked(m, OstCount, CountLines(n, disks, CountKb(e)));
      CountBlockOk(m, n, disks, CountKb(e));
    case FsType(fs) =>
      assert b == Marked(m, Fstype, [EnvCount("FSTYPE", fs)]);
      FsBlockOk(m, fs);
    case Restore(_) =>
  }

  // ---- every edit, every run of edits ----------------------------------------------------------

  /** On an edited file, a line edit is the block edit. */
  lemma ApplyOnSaved(m: Marks, e: Edit, t: seq<Seg>)
    requires Separate(m) && EditOk(m, e) && TailOk(m, t)
    ensures Apply(m, e, Saved(m, t)) == Saved(m, ApplySegs(m, e, t)) && TailOk(m, ApplySegs(m, e, t))
  {
    if !Refused(e) {
      EditBlockOk(m, e);
      var b := EditBlock(m, e);
      match e
      case TestDisks(_, _, _) => SpliceOnSaved(m, t, b);
      case RamOsts(_, _, _) =>
        EnsureOnSaved(m, t);
        DeleteOnSaved(m, t, Ram);
        WithoutKinds(m, t, Ram);
        AppendOnSaved(m, Without(t, Ram), b);
      case OstTotal(n, _, _, _) =>
        DeleteOnSaved(m, t, OstCount);
        DeleteOnSaved(m, t, Ram);
        SpliceOnSaved(m, Without(t, Ram), b);
      case FsType(_) =>
        DeleteOnSaved(m, t, Fstype);
        EnsureOnSaved(m, Without(t, Fstype));
        WithoutKinds(m, t, Fstype);
        AppendOnSaved(m, Without(t, Fstype), b);
      case Restore(_) => SpliceOnSaved(m, t, b);
    }
  }

  function ApplyAll(m: Marks, es: seq<Edit>, lines: seq<string>): seq<string> {
    if es == [] then lines else Apply(m, es[|es| - 1], ApplyAll(m, es[..|es| - 1], lines))
  }

  function ApplyAllSegs(m: Marks, es: seq<Edit>, t: seq<Seg>): seq<Seg> {
    if es == [] then t else ApplySegs(m, es[|es| - 1], ApplyAllSegs(m, es[..|es| - 1], t))
  }

  /** Any run of edits keeps the save lines ahead of every assignment, and keeps the blocks
      sound. */
  lemma {:induction false} RunOnSaved(m: Marks, es: seq<Edit>, t: seq<Seg>)
    requires Separate(m) && TailOk(m, t) && forall i :: 0 <= i < |es| ==> EditOk(m, es[i])
    ensures ApplyAll(m, es, Saved(m, t)) == Saved(m, ApplyAllSegs(m, es, t)) && TailOk(m, ApplyAllSegs(m, es, t))
  {
    if es != [] {
      RunOnSaved(m, es[..|es| - 1], t);
      ApplyOnSaved(m, es[|es| - 1], ApplyAllSegs(m, es[..|es| - 1], t));
    }
  }

  /** An edit of a stock file either leaves a stock file or gives it the edited form. */
  lemma ApplyOnStock(m: Marks, e: Edit, segs: seq<Seg>)
    requires Separate(m) && EditOk(m, e) && StockOk(m, segs)
    ensures var t := Without(segs, EnvSave);
            if Refused(e) then Apply(m, e, Render(segs)) == Render(segs)
            else if e.OstTotal? && e.count == 0 then
              Apply(m, e, Render(segs)) == Render(Without(segs, OstCount)) && StockOk(m, Without(segs, OstCount))
            else Apply(m, e, Render(segs)) == Saved(m, ApplySegs(m, e, t)) && TailOk(m, ApplySegs(m, e, t))
  {
    var t := Without(segs, EnvSave);
    EnsureOnStock(m, segs);
    EnsureOnSaved(m, t);
    ApplyOnSaved(m, e, t);
    EditBlockOk(m, e);
    if !Refused(e) {
      match e
      case TestDisks(_, _, _) =>
      case RamOsts(_, _, _) =>
      case OstTotal(n, _, _, _) =>
        DeleteOnStock(m, segs, OstCount);
        DeleteOnStock(m, segs, Ram);
        EnsureOnStock(m, Without(segs, Ram));
        DeleteOnSaved(m, t, Ram);
        EnsureOnSaved(m, Without(t, Ram));
        WithoutSwap(segs, Ram, EnvSave);
      case FsType(_) =>
        DeleteOnStock(m, segs, Fstype);
        EnsureOnStock(m, Without(segs, Fstype));
        DeleteOnSaved(m, t, Fstype);
        EnsureOnSaved(m, Without(t, Fstype));
        WithoutSwap(segs, Fstype, EnvSave);
      case Restore(_) =>
    }
  }

  lemma {:induction false} WithoutSwap(segs: seq<Seg>, j: Kind, k: Kind)
    ensures Without(Without(segs, j), k) == Without(Without(segs, k), j)
  {
    if segs != [] {
      WithoutSwap(segs[1..], j, k);
      var s := segs[0];
      if !IsKind(s, j) {
        assert Without(segs, j)[1..] == Without(segs[1..], j);
      } else {
        assert Without(segs, j) == Without(segs[1..], j);
      }
      if !IsKind(s, k) {
        assert Without(segs, k)[1..] == Without(segs[1..], k);
      } else {
        assert Without(segs, k) == Without(segs[1..], k);
      }
    }
  }
}
