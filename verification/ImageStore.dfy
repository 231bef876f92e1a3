/** Versioned base images, the pointer to the current one, and the overlays on them. */
module ImageStore {
  import opened Text
  import Qcow2

  // ---- names ---------------------------------------------------------------------------

  const LEGACY := "base.ext4"

  predicate LowerHex(c: char) { IsDigit(c) || 'a' <= c <= 'f' }

  /** base-<8 digits>T<6 digits>-<6 hex digits>.ext4 */
  predicate IsVersioned(n: string) {
    && |n| == 32 && n[..5] == "base-" && n[13] == 'T' && n[20] == '-' && n[27..] == ".ext4"
    && AllDigits(n[5..13]) && AllDigits(n[14..20]) && forall i :: 21 <= i < 27 ==> LowerHex(n[i])
  }

  /** The pattern that recognises a versioned name lets one newline at its end pass. */
  predicate IsImageName(n: string) {
    n == LEGACY || IsVersioned(n) || (|n| == 33 && n[32] == '\n' && IsVersioned(n[..32]))
  }

  // ---- the host -------------------------------------------------------------------------

  type Dir = string
  type Vm = string

  datatype Path = Path(dir: Dir, name: string)

  /** An image file: its size, and what it holds. */
  datatype Image = Image(size: nat, content: nat)

  /** What an overlay's header tells. */
  datatype Header = Names(path: Path) | NoBacking | Unclear

  /** `base`: the file the overlay is really backed by, if any, and the image that was there
      when the overlay was made. */
  datatype Overlay = Overlay(header: Header, base: Option<Path>, image: Option<Image>)

  /** A VM's .info file: the image it names, or unreadable. */
  datatype Record = Record(image: Option<Path>) | Unreadable

  datatype State = State(
    files: map<Path, Image>, pointers: map<Dir, Path>, overlays: map<Vm, Overlay>, records: map<Vm, Record>)

  /** The header of an overlay file; None when it cannot be read. */
  function ReadHeader(f: Option<seq<Qcow2.Byte>>, resolve: seq<Qcow2.Byte> -> Path): Header {
    if f.None? then Unclear
    else
      var name := Qcow2.BackingName(f.value);
      if name.Some? then Names(resolve(name.value)) else if Qcow2.HasNoBacking(f.value) then NoBacking else Unclear
  }

  /** A new overlay's header names the file it was created on; one that cannot be read tells
      nothing. */
  lemma HeaderNamesBase(version: seq<Qcow2.Byte>, name: seq<Qcow2.Byte>, gap: seq<Qcow2.Byte>, rest: seq<Qcow2.Byte>,
                        resolve: seq<Qcow2.Byte> -> Path)
    requires |version| == 4 && 0 < |name| <= 1023 && Qcow2.HEADER + |gap| < Qcow2.Limit(8) && !(Qcow2.JSON <= name)
    ensures ReadHeader(Some(Qcow2.Overlay(version, Qcow2.HEADER + |gap|, name, gap, rest)), resolve)
            == Names(resolve(name))
    ensures ReadHeader(None, resolve) == Unclear
  {
    Qcow2.BackingNameRoundTrip(version, name, gap, rest);
  }

  function CurrentImage(s: State, d: Dir): Option<Path> {
    if d in s.pointers then (if s.pointers[d] in s.files then Some(s.pointers[d]) else None)
    else if Path(d, LEGACY) in s.files then Some(Path(d, LEGACY))
    else None
  }

  predicate Recorded(s: State, v: Vm) { v in s.records && s.records[v].Record? && s.records[v].image.Some? }

  function Refs(s: State): set<Path> {
    (set v | v in s.records && Recorded(s, v) :: s.records[v].image.value)
    + (set v | v in s.overlays && s.overlays[v].header.Names? :: s.overlays[v].header.path)
  }

  /** The overlays nothing tells the backing file of. */
  function Unknown(s: State): set<Vm> {
    set v | v in s.overlays && s.overlays[v].header == Unclear && !Recorded(s, v)
  }

  predicate Superseded(s: State, d: Dir, p: Path) {
    p.dir == d && IsImageName(p.name) && Some(p) != CurrentImage(s, d) && p !in Refs(s)
  }

  /** What a prune removes, when rm fails on the files in `stuck`. */
  function Removed(s: State, d: Dir, stuck: set<Path>): set<Path> {
    if CurrentImage(s, d).None? || Unknown(s) != {} then {}
    else set p | p in s.files && Superseded(s, d, p) && p !in stuck
  }

  function Pruned(s: State, d: Dir, stuck: set<Path>): State { s.(files := s.files - Removed(s, d, stuck)) }

  // ---- steps -----------------------------------------------------------------------------

  /** The two halves of install_image. */
  function Placed(s: State, p: Path, i: Image): State { s.(files := s.files[p := i]) }
  function Pointed(s: State, p: Path): State { s.(pointers := s.pointers[p.dir := p]) }

  datatype Step =
    | Install(path: Path, image: Image, finished: bool)
    | Create(vm: Vm, dir: Dir, overlaid: bool, recorded: bool)
    | Destroy(vm: Vm, overlayGone: bool, recordGone: bool)
    | Prune(dir: Dir, stuck: set<Path>)
    | LoseRecord(vm: Vm)
    | GarbleHeader(vm: Vm)

  predicate Enabled(s: State, e: Step) {
    match e
    case Install(p, _, _) => p !in s.files && IsVersioned(p.name)
    case Create(v, d, _, _) => v !in s.records && v !in s.overlays && CurrentImage(s, d).Some?
    case Destroy(_, _, _) => true
    case Prune(_, _) => true
    case LoseRecord(v) => v in s.records
    case GarbleHeader(v) => v in s.overlays
  }

  function NewOverlay(s: State, p: Path): Overlay
    requires p in s.files
  {
    Overlay(Names(p), Some(p), Some(s.files[p]))
  }

  function Next(s: State, e: Step): State
    requires Enabled(s, e)
  {
    match e
    case Install(p, i, finished) => if finished then Pointed(Placed(s, p, i), p) else Placed(s, p, i)
    case Create(v, d, overlaid, recorded) =>
      var p := CurrentImage(s, d).value;
      s.(overlays := if overlaid then s.overlays[v := NewOverlay(s, p)] else s.overlays,
         records := if recorded then s.records[v := Record(Some(p))] else s.records)
    case Destroy(v, overlayGone, recordGone) =>
      s.(overlays := if overlayGone then s.overlays - {v} else s.overlays,
         records := if recordGone then s.records - {v} else s.records)
    case Prune(d, stuck) => Pruned(s, d, stuck)
    case LoseRecord(v) => s.(records := s.records[v := Unreadable])
    case GarbleHeader(v) => s.(overlays := s.overlays[v := s.overlays[v].(header := Unclear)])
  }

  // ---- what every step keeps ----------------------------------------------------------------

  predicate OverlayOk(s: State, v: Vm)
    requires v in s.overlays
  {
    var o := s.overlays[v];
    && (o.base.Some? ==> o.base.value in s.files && o.image == Some(s.files[o.base.value]))
    && (o.header.Names? ==> o.base == Some(o.header.path))
    && (o.header == NoBacking ==> o.base == None)
    && (Recorded(s, v) && o.base.Some? ==> s.records[v].image == o.base)
  }

  /** The pointer resolves, and every overlay still has the image it was made on under it. */
  predicate Inv(s: State) {
    && (forall d :: d in s.pointers ==> s.pointers[d].dir == d && s.pointers[d] in s.files)
    && (forall v :: v in s.overlays ==> OverlayOk(s, v))
  }

  lemma BaseIsReferenced(s: State, v: Vm)
    requires Inv(s) && v in s.overlays && Unknown(s) == {} && s.overlays[v].base.Some?
    ensures s.overlays[v].base.value in Refs(s)
  {
    assert OverlayOk(s, v);
    assert v !in Unknown(s);
  }

  lemma PruneKeeps(s: State, d: Dir, stuck: set<Path>)
    requires Inv(s)
    ensures Inv(Pruned(s, d, stuck))
  {
    var t := Pruned(s, d, stuck);
    if Removed(s, d, stuck) != {} {
      forall v | v in t.overlays ensures OverlayOk(t, v) {
        assert OverlayOk(s, v);
        if s.overlays[v].base.Some? {
          BaseIsReferenced(s, v);
        }
      }
    } else {
      assert t.files == s.files;
    }
  }

  lemma StepKeeps(s: State, e: Step)
    requires Inv(s) && Enabled(s, e)
    ensures Inv(Next(s, e))
  {
    var t := Next(s, e);
    if e.Prune? {
      PruneKeeps(s, e.dir, e.stuck);
    } else {
      forall v | v in t.overlays ensures OverlayOk(t, v) {
        assert v in s.overlays ==> OverlayOk(s, v);
      }
    }
  }

  ghost predicate Run(ss: seq<State>, es: seq<Step>) {
    && |ss| == |es| + 1 && Inv(ss[0])
    && forall i :: 0 <= i < |es| ==> Enabled(ss[i], es[i]) && ss[i + 1] == Next(ss[i], es[i])
  }

  /** In every run, the pointers resolve and the overlays are intact in every state. */
  lemma {:induction false} EveryRunIsIntact(ss: seq<State>, es: seq<Step>, i: nat)
    requires Run(ss, es) && i < |ss|
    ensures Inv(ss[i])
  {
    if i > 0 {
      EveryRunIsIntact(ss, es, i - 1);
      StepKeeps(ss[i - 1], es[i - 1]);
    }
  }

  lemma CurrentImageStays(s: State, e: Step, d: Dir)
    requires Inv(s) && Enabled(s, e) && CurrentImage(s, d).Some?
    ensures CurrentImage(Next(s, e), d).Some?
  {
    StepKeeps(s, e);
  }

  /** A directory that has a current image has one ever after. */
  lemma {:induction false} AlwaysAnImage(ss: seq<State>, es: seq<Step>, i: nat, j: nat, d: Dir)
    requires Run(ss, es) && i <= j < |ss| && CurrentImage(ss[i], d).Some?
    ensures CurrentImage(ss[j], d).Some?
  {
    if i < j {
      AlwaysAnImage(ss, es, i, j - 1, d);
      EveryRunIsIntact(ss, es, j - 1);
      CurrentImageStays(ss[j - 1], es[j - 1], d);
    }
  }

  /** The image under a VM's overlay is the one it was created on, bit for bit, for as long
      as the VM is not destroyed. */
  lemma {:induction false} ImageUnderOverlayStays(ss: seq<State>, es: seq<Step>, i: nat, j: nat, v: Vm)
    requires Run(ss, es) && i < j < |ss|
    requires es[i].Create? && es[i].vm == v && es[i].overlaid
    requires forall k :: i < k < j ==> !(es[k].Destroy? && es[k].vm == v)
    ensures CurrentImage(ss[i], es[i].dir).Some?
    ensures var p := CurrentImage(ss[i], es[i].dir).value;
            p in ss[i].files && p in ss[j].files && ss[j].files[p] == ss[i].files[p]
            && v in ss[j].overlays && ss[j].overlays[v].base == Some(p)
              && ss[j].overlays[v].image == Some(ss[i].files[p])
  {
    assert Enabled(ss[i], es[i]);
    if i < j - 1 {
      ImageUnderOverlayStays(ss, es, i, j - 1, v);
      assert Enabled(ss[j - 1], es[j - 1]) && !(es[j - 1].Destroy? && es[j - 1].vm == v);
    }
    EveryRunIsIntact(ss, es, j);
    assert v in ss[j].overlays;
    assert OverlayOk(ss[j], v);
  }

  // ---- installing ---------------------------------------------------------------------------------

  /** At every point of an install the current image is the old one or the new one, and no
      file that was there changes. */
  lemma InstallIsAtomicToReaders(s: State, p: Path, i: Image)
    requires p !in s.files && IsVersioned(p.name) && Inv(s)
    ensures CurrentImage(Placed(s, p, i), p.dir) == CurrentImage(s, p.dir)
    ensures CurrentImage(Pointed(Placed(s, p, i), p), p.dir) == Some(p)
    ensures forall d :: d != p.dir ==> CurrentImage(Pointed(Placed(s, p, i), p), d) == CurrentImage(s, d)
    ensures forall q :: q in s.files ==> q in Placed(s, p, i).files && Placed(s, p, i).files[q] == s.files[q]
  {
    assert |LEGACY| == 9 && |p.name| == 32;
  }

  /** A prune that gets in between the two halves of an install takes the new image away
      again, unless something refers to it already or the prune refuses to remove anything;
      that is why the two must not overlap. */
  lemma PruneInsideInstall(s: State, p: Path, i: Image)
    requires Inv(s) && p !in s.files && IsVersioned(p.name)
    ensures var t := Pointed(Pruned(Placed(s, p, i), p.dir, {}), p);
            CurrentImage(t, p.dir).Some? <==> CurrentImage(s, p.dir).None? || Unknown(s) != {} || p in Refs(s)
  {
    InstallIsAtomicToReaders(s, p, i);
    var m := Placed(s, p, i);
    assert Refs(m) == Refs(s) && Unknown(m) == Unknown(s);
    assert CurrentImage(s, p.dir) != Some(p);
    assert Superseded(m, p.dir, p) <==> p !in Refs(s);
  }

  /** A prune leaves exactly the current image, the referenced ones and what is no image. */
  lemma PruneIsExact(s: State, d: Dir, p: Path)
    requires p in s.files && CurrentImage(s, d).Some? && Unknown(s) == {}
    ensures p in Pruned(s, d, {}).files <==>
            p.dir != d || !IsImageName(p.name) || CurrentImage(s, d) == Some(p) || p in Refs(s)
    ensures Pruned(Pruned(s, d, {}), d, {}) == Pruned(s, d, {})
  {
    var t := Pruned(s, d, {});
    assert CurrentImage(t, d) == CurrentImage(s, d) by {
      assert d in s.pointers ==> s.pointers[d] !in Removed(s, d, {});
    }
    assert Refs(t) == Refs(s);
    assert Removed(t, d, {}) == {};
    assert t.files - {} == t.files;
  }

  /** One overlay that cannot be classified stops every prune. */
  lemma UnknownStopsPrune(s: State, d: Dir, stuck: set<Path>, v: Vm)
    requires v in s.overlays && s.overlays[v].header == Unclear && !Recorded(s, v)
    ensures Pruned(s, d, stuck) == s
  {
    assert v in Unknown(s);
    assert s.files - {} == s.files;
  }
}
