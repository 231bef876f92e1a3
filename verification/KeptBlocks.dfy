/** The blocks a deploy reads from the old cfg/local.sh and puts back into the new one. */
module KeptBlocks {
  import opened Text
  import opened LocalSh
  import opened LocalShMeaning
  import opened LocalShEdits

  // ---- reading ------------------------------------------------------------------------

  /** The lines from the first begin marker on. */
  function DropTo(m: Marks, lines: seq<string>, k: Kind): seq<string> {
    if lines == [] || IsBegin(m, lines[0], k) then lines else DropTo(m, lines[1..], k)
  }

  /** The lines up to and with the first end marker. */
  function TakeThrough(m: Marks, lines: seq<string>, k: Kind): Option<seq<string>> {
    if lines == [] then None
    else if IsEnd(m, lines[0], k) then Some([lines[0]])
    else
      var r := TakeThrough(m, lines[1..], k);
      if r.None? then None else Some([lines[0]] + r.value)
  }

  function KeptBlock(m: Marks, lines: seq<string>, k: Kind): Option<seq<string>> {
    var d := DropTo(m, lines, k);
    if d == [] then None
    else
      var r := TakeThrough(m, d[1..], k);
      if r.None? then None else Some([d[0]] + r.value)
  }

  predicate WordChar(c: char) { NameChar(c) }

  /** FSTYPE pinned outright, as an older ltvm did. */
  predicate IsPinned(l: string) {
    |l| > 7 && l[..7] == "FSTYPE=" && forall i :: 7 <= i < |l| ==> WordChar(l[i])
  }

  function UpgradeLine(l: string): string { if IsPinned(l) then EnvCount("FSTYPE", l[7..]) else l }

  function Upgrade(lines: seq<string>): (r: seq<string>)
    ensures |r| == |lines| && forall i :: 0 <= i < |lines| ==> r[i] == UpgradeLine(lines[i])
  {
    seq(|lines|, i requires 0 <= i < |lines| => UpgradeLine(lines[i]))
  }

  const KEPT := [OstCount, Fstype, Cluster]

  predicate IsKept(k: Kind) { k == OstCount || k == Fstype || k == Cluster }

  function Read(m: Marks, lines: seq<string>, k: Kind): Option<seq<string>> {
    var b := KeptBlock(m, lines, k);
    if b.Some? && k == Fstype then Some(Upgrade(b.value)) else b
  }

  function Kept(m: Marks, lines: seq<string>): map<Kind, seq<string>> {
    map k | k in KEPT && Read(m, lines, k).Some? :: Read(m, lines, k).value
  }

  /** The first begin marker. */
  method FindBegin(m: Marks, lines: seq<string>, k: Kind) returns (i: nat)
    ensures i <= |lines| && DropTo(m, lines, k) == lines[i..]
  {
    i := 0;
    while i < |lines| && !IsBegin(m, lines[i], k)
      invariant i <= |lines| && DropTo(m, lines[i..], k) == DropTo(m, lines, k)
    {
      i := i + 1;
    }
  }

  /** The first end marker from `from` on. */
  method FindEnd(m: Marks, lines: seq<string>, from: nat, k: Kind) returns (j: nat)
    requires from <= |lines|
    ensures from <= j <= |lines|
    ensures TakeThrough(m, lines[from..], k) == if j == |lines| then None else Some(lines[from..j + 1])
  {
    j := from;
    ghost var whole := TakeThrough(m, lines[from..], k);
    assert lines[from..from] == [];
    PrefixedNil(whole);
    while j < |lines| && !IsEnd(m, lines[j], k)
      invariant from <= j <= |lines|
      invariant whole == Prefixed(lines[from..j], TakeThrough(m, lines[j..], k))
    {
      PrefixedTwice(lines[from..j], lines[j], TakeThrough(m, lines[j + 1..], k));
      NextLine(lines, from, j);
      j := j + 1;
    }
    if j < |lines| {
      NextLine(lines, from, j);
    }
  }

  lemma NextLine(lines: seq<string>, from: nat, j: nat)
    requires from <= j < |lines|
    ensures lines[j..][1..] == lines[j + 1..] && lines[from..j] + [lines[j]] == lines[from..j + 1]
  {
  }

  /** The first begin marker, then the first end marker after it. */
  method FindBlock(m: Marks, lines: seq<string>, k: Kind) returns (r: Option<seq<string>>)
    ensures r == KeptBlock(m, lines, k)
  {
    var i := FindBegin(m, lines, k);
    if i == |lines| { return None; }
    assert lines[i..][1..] == lines[i + 1..];
    var j := FindEnd(m, lines, i + 1, k);
    if j == |lines| { return None; }
    r := Some(lines[i..j + 1]);
    assert lines[i..j + 1] == [lines[i]] + lines[i + 1..j + 1];
  }

  method ParseKeptBlocks(m: Marks, lines: seq<string>) returns (blocks: map<Kind, seq<string>>)
    ensures blocks == Kept(m, lines)
  {
    blocks := map[];
    for n := 0 to |KEPT|
      invariant blocks == map k | k in KEPT[..n] && Read(m, lines, k).Some? :: Read(m, lines, k).value
    {
      var k := KEPT[n];
      assert KEPT[..n + 1] == KEPT[..n] + [k];
      var b := FindBlock(m, lines, k);
      if b.Some? {
        blocks := blocks[k := if k == Fstype then Upgrade(b.value) else b.value];
      }
    }
  }

  function Prefixed(a: seq<string>, r: Option<seq<string>>): Option<seq<string>> {
    if r.None? then None else Some(a + r.value)
  }

  lemma PrefixedNil(r: Option<seq<string>>)
    ensures Prefixed([], r) == r
  {
    if r.Some? {
      assert [] + r.value == r.value;
    }
  }

  lemma PrefixedTwice(a: seq<string>, x: string, r: Option<seq<string>>)
    ensures Prefixed(a, Prefixed([x], r)) == Prefixed(a + [x], r)
  {
    if r.Some? {
      Assoc(a, [x], r.value);
    }
  }

  /** Upgrading twice is upgrading once, and never touches a marker or an unpinned line. */
  lemma UpgradeIdempotent(lines: seq<string>)
    ensures Upgrade(Upgrade(lines)) == Upgrade(lines)
  {
    forall i | 0 <= i < |lines| ensures UpgradeLine(UpgradeLine(lines[i])) == UpgradeLine(lines[i]) {
      if IsPinned(lines[i]) {
        var l := UpgradeLine(lines[i]);
        assert l[7] == '$';
        assert !IsPinned(l);
      }
    }
  }

  // ---- on sound files -----------------------------------------------------------------

  function Find(segs: seq<Seg>, k: Kind): Option<Seg> {
    if segs == [] then None else if IsKind(segs[0], k) then Some(segs[0]) else Find(segs[1..], k)
  }

  lemma {:induction false} DropPast(m: Marks, a: seq<string>, b: seq<string>, k: Kind)
    requires NoMarks(m, a, k)
    ensures DropTo(m, a + b, k) == DropTo(m, b, k)
  {
    if a == [] {
      assert a + b == b;
    } else {
      DropPast(m, a[1..], b, k);
      assert (a + b)[1..] == a[1..] + b;
    }
  }

  lemma {:induction false} TakePast(m: Marks, a: seq<string>, foot: string, b: seq<string>, k: Kind)
    requires NoMarks(m, a, k) && IsEnd(m, foot, k)
    ensures TakeThrough(m, a + ([foot] + b), k) == Some(a + [foot])
  {
    if a == [] {
      assert a + ([foot] + b) == [foot] + b;
      assert a + [foot] == [foot];
    } else {
      TakePast(m, a[1..], foot, b, k);
      assert (a + ([foot] + b))[1..] == a[1..] + ([foot] + b);
      assert [a[0]] + (a[1..] + [foot]) == a + [foot];
    }
  }

  /** In a sound file, the block found is the block of that kind. */
  lemma {:induction false} KeptOfRender(m: Marks, segs: seq<Seg>, k: Kind)
    requires Separate(m) && SegsOk(m, segs)
    ensures KeptBlock(m, Render(segs), k) == if Find(segs, k).Some? then Some(SegLines(Find(segs, k).value)) else None
  {
    if segs != [] {
      var s, rest := segs[0], Render(segs[1..]);
      SegMarks(m, s, k);
      if IsKind(s, k) {
        KeptHere(m, s, rest, k);
      } else {
        KeptOfRender(m, segs[1..], k);
        DropPast(m, SegLines(s), rest, k);
      }
    }
  }

  lemma KeptHere(m: Marks, s: Seg, rest: seq<string>, k: Kind)
    requires Separate(m) && SegOk(m, s) && IsKind(s, k)
    ensures KeptBlock(m, SegLines(s) + rest, k) == Some(SegLines(s))
  {
    SegMarks(m, s, k);
    var tail := s.body + ([s.foot] + rest);
    assert SegLines(s) + rest == [s.head] + tail;
    assert ([s.head] + tail)[1..] == tail;
    TakePast(m, s.body, s.foot, rest, k);
    assert [s.head] + (s.body + [s.foot]) == SegLines(s);
  }

  lemma {:induction false} FindKind(segs: seq<Seg>, k: Kind)
    ensures Find(segs, k).Some? <==> HasKind(segs, k)
    ensures Find(segs, k).Some? ==> Find(segs, k).value in segs && IsKind(Find(segs, k).value, k)
  {
    if segs != [] {
      FindKind(segs[1..], k);
      KindsCons(segs, k);
    }
  }

  // ---- putting back ---------------------------------------------------------------------

  function Put(m: Marks, lines: seq<string>, blocks: map<Kind, seq<string>>, skip: set<Kind>, k: Kind): seq<string> {
    if k in skip || k !in blocks then lines else Splice(m, lines, k, blocks[k])
  }

  function RestoreAll(m: Marks, lines: seq<string>, blocks: map<Kind, seq<string>>, skip: set<Kind>): seq<string> {
    Put(m, Put(m, Put(m, lines, blocks, skip, OstCount), blocks, skip, Fstype), blocks, skip, Cluster)
  }

  function UpgradeSeg(s: Seg): Seg { if IsKind(s, Fstype) then s.(body := Upgrade(s.body)) else s }

  lemma UpgradeSegLines(m: Marks, s: Seg)
    requires Separate(m) && SegOk(m, s) && s.Block?
    ensures SegOk(m, UpgradeSeg(s)) && UpgradeSeg(s).Block? && UpgradeSeg(s).kind == s.kind
    ensures SegLines(UpgradeSeg(s)) == if s.kind == Fstype then Upgrade(SegLines(s)) else SegLines(s)
  {
    if s.kind == Fstype {
      assert |m.begin(Fstype)| > 0 && |m.end(Fstype)| > 0;
      var u := UpgradeSeg(s);
      UpgradeStaysPlain(m, s.body);
      assert !IsPinned(s.head) && !IsPinned(s.foot);
      forall i | 0 <= i < |SegLines(s)| ensures SegLines(u)[i] == UpgradeLine(SegLines(s)[i]) {
        assert 0 < i < |SegLines(s)| - 1 ==> SegLines(s)[i] == s.body[i - 1] && SegLines(u)[i] == u.body[i - 1];
      }
    }
  }

  lemma UpgradeStaysPlain(m: Marks, body: seq<string>)
    requires Separate(m) && forall i :: 0 <= i < |body| ==> Plain(m, body[i])
    ensures forall i :: 0 <= i < |body| ==> Plain(m, Upgrade(body)[i])
  {
    forall i | 0 <= i < |body| ensures Plain(m, Upgrade(body)[i]) {
      if IsPinned(body[i]) {
        assert UpgradeLine(body[i])[0] == 'F';
        NoHashIsPlain(m, UpgradeLine(body[i]));
      }
    }
  }

  /** Reading a sound file gives the text of its blocks, the FSTYPE one upgraded. */
  lemma ReadOfRender(m: Marks, segs: seq<Seg>, k: Kind)
    requires Separate(m) && SegsOk(m, segs)
    ensures Read(m, Render(segs), k)
            == if Find(segs, k).Some? then Some(SegLines(UpgradeSeg(Find(segs, k).value))) else None
  {
    KeptOfRender(m, segs, k);
    FindKind(segs, k);
    if Find(segs, k).Some? {
      UpgradeSegLines(m, Find(segs, k).value);
    }
  }
}
