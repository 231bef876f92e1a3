/** The image store as it changes in place, and the check before a VM boots. */
module ImageHost {
  import opened Text
  import opened ImageStore

  // ---- sizes -------------------------------------------------------------------------------

  ghost function TotalSize(m: map<Path, Image>): nat
    decreases |m|
  {
    if m == map[] then 0
    else
      var p :| p in m;
      m[p].size + TotalSize(m - {p})
  }

  lemma {:induction false} TotalWithout(m: map<Path, Image>, q: Path)
    requires q in m
    ensures TotalSize(m) == m[q].size + TotalSize(m - {q})
    decreases |m|
  {
    var p :| p in m && TotalSize(m) == m[p].size + TotalSize(m - {p});
    if p != q {
      TotalWithout(m - {p}, q);
      TotalWithout(m - {q}, p);
      assert m - {p} - {q} == m - {q} - {p};
    }
  }

  // ---- the host -------------------------------------------------------------------------------

  class Host {
    var files: map<Path, Image>
    var pointers: map<Dir, Path>
    var overlays: map<Vm, Overlay>
    var records: map<Vm, Record>

    function Store(): State
      reads this
    {
      State(files, pointers, overlays, records)
    }

    constructor ()
      ensures Store() == State(map[], map[], map[], map[])
    {
      files, pointers, overlays, records := map[], map[], map[], map[];
    }

    /** Move a finished image in under the first name that is free, and make it current. */
    method InstallImage(d: Dir, names: seq<string>, i: Image) returns (dest: Path)
      requires Inv(Store()) && forall k :: 0 <= k < |names| ==> IsVersioned(names[k])
      requires exists k :: 0 <= k < |names| && Path(d, names[k]) !in files
      modifies this
      ensures dest.dir == d && dest.name in names && Enabled(old(Store()), Install(dest, i, true))
      ensures Store() == Next(old(Store()), Install(dest, i, true))
      ensures Inv(Store()) && CurrentImage(Store(), d) == Some(dest)
      ensures forall p :: p in old(files) ==> p in files && files[p] == old(files)[p]
    {
      var k := 0;
      while Path(d, names[k]) in files
        invariant 0 <= k < |names| && Store() == old(Store())
        invariant exists j :: k <= j < |names| && Path(d, names[j]) !in files
        decreases |names| - k
      {
        k := k + 1;
      }
      dest := Path(d, names[k]);
      files := files[dest := i];
      pointers := pointers[d := dest];
      StepKeeps(old(Store()), Install(dest, i, true));
    }

    /** Every image that a record or an overlay names, and the overlays that stay unknown. */
    method ReferencedImages() returns (refs: set<Path>, unknown: set<Vm>)
      ensures refs == Refs(Store()) && unknown == Unknown(Store())
    {
      var named := RecordedImages();
      var backing: set<Path>;
      backing, unknown := OverlayImages();
      refs := named + backing;
    }

    method RecordedImages() returns (refs: set<Path>)
      ensures refs == RecordRefs(Store(), records.Keys)
    {
      refs := {};
      var todo := records.Keys;
      while todo != {}
        invariant todo <= records.Keys && refs == RecordRefs(Store(), records.Keys - todo)
        decreases |todo|
      {
        var v :| v in todo;
        MoreDone(records.Keys, todo, v);
        todo := todo - {v};
        if records[v].Record? && records[v].image.Some? {
          refs := refs + {records[v].image.value};
        }
      }
      assert records.Keys - {} == records.Keys;
    }

    method OverlayImages() returns (refs: set<Path>, unknown: set<Vm>)
      ensures refs == OverlayRefs(Store(), overlays.Keys) && unknown == UnknownOf(Store(), overlays.Keys)
    {
      refs, unknown := {}, {};
      var todo := overlays.Keys;
      while todo != {}
        invariant todo <= overlays.Keys && refs == OverlayRefs(Store(), overlays.Keys - todo)
        invariant unknown == UnknownOf(Store(), overlays.Keys - todo)
        decreases |todo|
      {
        var v :| v in todo;
        MoreDone(overlays.Keys, todo, v);
        todo := todo - {v};
        var h := overlays[v].header;
        if h.Names? {
          refs := refs + {h.path};
        } else if h == Unclear && !(v in records && records[v].Record? && records[v].image.Some?) {
          unknown := unknown + {v};
        }
      }
      assert overlays.Keys - {} == overlays.Keys;
    }

    /** Remove the superseded images of `d`; the bytes freed are the bytes gone. */
    method PruneSuperseded(d: Dir, stuck: set<Path>) returns (freed: nat)
      modifies this
      ensures Store() == Pruned(old(Store()), d, stuck)
      ensures TotalSize(old(files)) == freed + TotalSize(files)
    {
      freed := 0;
      assert files - {} == files;
      var current := CurrentImage(Store(), d);
      if current.None? { return; }
      var refs, unknown := ReferencedImages();
      if unknown != {} { return; }
      var gone := set p | p in files && p.dir == d && IsImageName(p.name) && Some(p) != current && p !in refs
        && p !in stuck;
      assert gone == Removed(Store(), d, stuck);
      freed := Unlink(gone);
    }

    method Unlink(gone: set<Path>) returns (freed: nat)
      requires gone <= files.Keys
      modifies this
      ensures Store() == old(Store()).(files := old(files) - gone)
      ensures TotalSize(old(files)) == freed + TotalSize(files)
    {
      freed := 0;
      var todo := gone;
      assert files - {} == files;
      while todo != {}
        invariant todo <= gone <= old(files).Keys && pointers == old(pointers) && overlays == old(overlays)
                  && records == old(records)
        invariant files == old(files) - (gone - todo)
        invariant TotalSize(old(files)) == freed + TotalSize(files)
        decreases |todo|
      {
        var p :| p in todo;
        TotalWithout(files, p);
        freed := freed + files[p].size;
        files := files - {p};
        todo := todo - {p};
      }
      assert gone - {} == gone;
    }
  }

  ghost function RecordRefs(s: State, vs: set<Vm>): set<Path> {
    set v | v in vs && Recorded(s, v) :: s.records[v].image.value
  }

  ghost function OverlayRefs(s: State, vs: set<Vm>): set<Path> {
    set v | v in vs && v in s.overlays && s.overlays[v].header.Names? :: s.overlays[v].header.path
  }

  ghost function UnknownOf(s: State, vs: set<Vm>): set<Vm> {
    set v | v in vs && v in s.overlays && s.overlays[v].header == Unclear && !Recorded(s, v)
  }

  lemma MoreDone(all: set<Vm>, todo: set<Vm>, v: Vm)
    requires v in todo && todo <= all
    ensures all - (todo - {v}) == (all - todo) + {v}
  {
  }

  // ---- before a boot ------------------------------------------------------------------------------

  /** What stat finds of the backing file: gone, an error, or its identity and last change. */
  datatype Stat = Gone | StatFails | Found(id: string, changed: int)

  /** What is recorded: "" and 0 mean not recorded. */
  datatype BootRecord = BootRecord(imageId: string, created: int)

  datatype Verdict = Boots | Refuses

  /** check_backing: `named` and `recorded` say whether the header or the record names a
      backing file, `saves` whether an adopted identity can be written. */
  function CheckBacking(vm: BootRecord, named: bool, recorded: bool, stat: Stat, saves: bool): (Verdict, BootRecord) {
    if !named && !recorded then (Boots, vm)
    else match stat
      case Gone => (if !named && vm.imageId == "" then Boots else Refuses, vm)
      case StatFails => (Boots, vm)
      case Found(id, changed) =>
        if vm.imageId != "" then (if vm.imageId == id then Boots else Refuses, vm)
        else if vm.created == 0 || changed > vm.created || !saves then (Boots, vm)
        else (Boots, vm.(imageId := id))
  }

  /** One boot attempt. */
  datatype Attempt = Attempt(named: bool, recorded: bool, stat: Stat, saves: bool)

  function AfterChecks(vm: BootRecord, tries: seq<Attempt>): BootRecord
    decreases |tries|
  {
    if tries == [] then vm
    else
      var a := tries[0];
      AfterChecks(CheckBacking(vm, a.named, a.recorded, a.stat, a.saves).1, tries[1..])
  }

  /** An identity, once recorded, stays; and from then on a VM boots on a backing file that
      can be read only while the file still has that identity. */
  lemma {:induction false} RecordedImageIsRequired(vm: BootRecord, tries: seq<Attempt>, a: Attempt)
    requires vm.imageId != "" && (a.named || a.recorded)
    ensures AfterChecks(vm, tries) == vm
    ensures var v := CheckBacking(AfterChecks(vm, tries), a.named, a.recorded, a.stat, a.saves).0;
            (v == Boots <==> a.stat == StatFails || (a.stat.Found? && a.stat.id == vm.imageId))
    decreases |tries|
  {
    if tries != [] {
      RecordedImageIsRequired(vm, tries[1..], a);
    }
  }

  /** A VM without one takes it from an image that is not newer than the VM, and then a
      different image is refused. */
  lemma AdoptedImageIsRequired(vm: BootRecord, first: Attempt, tries: seq<Attempt>, a: Attempt)
    requires vm.imageId == "" && vm.created != 0 && (first.named || first.recorded) && first.saves
    requires first.stat.Found? && first.stat.id != "" && first.stat.changed <= vm.created
    requires (a.named || a.recorded) && a.stat.Found?
    ensures CheckBacking(vm, first.named, first.recorded, first.stat, first.saves).0 == Boots
    ensures CheckBacking(AfterChecks(vm, [first] + tries), a.named, a.recorded, a.stat, a.saves).0 == Boots
        <==> a.stat.id == first.stat.id
  {
    assert ([first] + tries)[1..] == tries;
    RecordedImageIsRequired(vm.(imageId := first.stat.id), tries, a);
  }
}
