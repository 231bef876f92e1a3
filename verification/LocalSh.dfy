/** The marked blocks ltvm keeps in a guest's cfg/local.sh: the line edits that sed and
    awk make, and the block structure they preserve. */
module LocalSh {

  datatype Kind = EnvSave | Disk | Ram | OstCount | Fstype | Cluster

  /** How the marker lines of each block start. */
  datatype Marks = Marks(begin: Kind -> string, end: Kind -> string)

  predicate IsBegin(m: Marks, l: string, k: Kind) { m.begin(k) <= l }
  predicate IsEnd(m: Marks, l: string, k: Kind) { m.end(k) <= l }

  /** Markers are comments, and a line is a marker of one kind at most, begin or end. */
  ghost predicate Separate(m: Marks) {
    && (forall k :: |m.begin(k)| > 0 && m.begin(k)[0] == '#' && |m.end(k)| > 0 && m.end(k)[0] == '#')
    && (forall l, j, k :: IsBegin(m, l, j) ==> !IsEnd(m, l, k))
    && (forall l, j, k :: IsBegin(m, l, j) && IsBegin(m, l, k) ==> j == k)
    && (forall l, j, k :: IsEnd(m, l, j) && IsEnd(m, l, k) ==> j == k)
  }

  ghost predicate Plain(m: Marks, l: string) { forall k :: !IsBegin(m, l, k) && !IsEnd(m, l, k) }

  lemma NoHashIsPlain(m: Marks, l: string)
    requires Separate(m) && (l == "" || l[0] != '#')
    ensures Plain(m, l)
  {
    forall k ensures !IsBegin(m, l, k) && !IsEnd(m, l, k) {
      assert |m.begin(k)| > 0 && |m.end(k)| > 0;
    }
  }

  // ---- the line edits ------------------------------------------------------------

  predicate HasBegin(m: Marks, lines: seq<string>, k: Kind) { exists i :: 0 <= i < |lines| && IsBegin(m, lines[i], k) }

  /** sed '/^BEGIN/,/^END/d'; `inside` a range that has begun. */
  function DeleteBlocks(m: Marks, lines: seq<string>, k: Kind, inside: bool): seq<string> {
    if lines == [] then []
    else if inside then DeleteBlocks(m, lines[1..], k, !IsEnd(m, lines[0], k))
    else if IsBegin(m, lines[0], k) then DeleteBlocks(m, lines[1..], k, true)
    else [lines[0]] + DeleteBlocks(m, lines[1..], k, false)
  }

  /** The awk program that puts `block` where the begin marker is. */
  function Rewrite(m: Marks, lines: seq<string>, k: Kind, block: seq<string>, skip: bool): seq<string> {
    if lines == [] then []
    else if IsBegin(m, lines[0], k) then block + Rewrite(m, lines[1..], k, block, true)
    else if IsEnd(m, lines[0], k) then Rewrite(m, lines[1..], k, block, false)
    else if skip then Rewrite(m, lines[1..], k, block, true)
    else [lines[0]] + Rewrite(m, lines[1..], k, block, false)
  }

  function SaveLine(v: string): string { "_ltvm_env_" + v + "=${" + v + "-}" }

  function SaveBlock(m: Marks): Seg {
    Block(EnvSave, m.begin(EnvSave) + " ---",
          [SaveLine("MDSCOUNT"), SaveLine("OSTCOUNT"), SaveLine("FSTYPE")], m.end(EnvSave) + " ---")
  }

  predicate IsSave(l: string) { "_ltvm_env_FSTYPE=" <= l }

  predicate HasSave(lines: seq<string>) { exists i :: 0 <= i < |lines| && IsSave(lines[i]) }

  function EnsureEnvSave(m: Marks, lines: seq<string>): seq<string> {
    if HasSave(lines) then lines else SegLines(SaveBlock(m)) + DeleteBlocks(m, lines, EnvSave, false)
  }

  function Splice(m: Marks, lines: seq<string>, k: Kind, block: seq<string>): seq<string> {
    var f := EnsureEnvSave(m, lines);
    if HasBegin(m, f, k) then Rewrite(m, f, k, block, false) else f + [""] + block
  }

  // ---- files as segments -----------------------------------------------------------

  datatype Seg = Line(text: string) | Block(kind: Kind, head: string, body: seq<string>, foot: string)

  function SegLines(s: Seg): seq<string> {
    match s
    case Line(t) => [t]
    case Block(_, h, b, f) => [h] + b + [f]
  }

  function Render(segs: seq<Seg>): seq<string> {
    if segs == [] then [] else SegLines(segs[0]) + Render(segs[1..])
  }

  ghost predicate SegOk(m: Marks, s: Seg) {
    match s
    case Line(t) => Plain(m, t)
    case Block(k, h, b, f) => IsBegin(m, h, k) && IsEnd(m, f, k) && forall i :: 0 <= i < |b| ==> Plain(m, b[i])
  }

  ghost predicate SegsOk(m: Marks, segs: seq<Seg>) { forall i :: 0 <= i < |segs| ==> SegOk(m, segs[i]) }

  predicate IsKind(s: Seg, k: Kind) { s.Block? && s.kind == k }

  predicate HasKind(segs: seq<Seg>, k: Kind) { exists i :: 0 <= i < |segs| && IsKind(segs[i], k) }

  /** At most one block of each kind. */
  predicate OneEach(segs: seq<Seg>) {
    segs != [] ==> (segs[0].Block? ==> !HasKind(segs[1..], segs[0].kind)) && OneEach(segs[1..])
  }

  function Without(segs: seq<Seg>, k: Kind): seq<Seg> {
    if segs == [] then []
    else (if IsKind(segs[0], k) then [] else [segs[0]]) + Without(segs[1..], k)
  }

  /** Every other segment, and the order, stay as they are. */
  function Replace(segs: seq<Seg>, b: Seg): (r: seq<Seg>)
    requires b.Block?
    ensures |r| == |segs|
    ensures forall i :: 0 <= i < |segs| ==> r[i] == if IsKind(segs[i], b.kind) then b else segs[i]
  {
    seq(|segs|, i requires 0 <= i < |segs| => if IsKind(segs[i], b.kind) then b else segs[i])
  }

  function SpliceSegs(segs: seq<Seg>, b: Seg): seq<Seg>
    requires b.Block?
  {
    if HasKind(segs, b.kind) then Replace(segs, b) else segs + [Line(""), b]
  }

  // ---- sed and awk on rendered segments -----------------------------------------------

  lemma {:induction false} RenderAppend(s: seq<Seg>, t: seq<Seg>)
    ensures Render(s + t) == Render(s) + Render(t)
  {
    if s == [] {
      assert s + t == t;
    } else {
      var head, rest := s[0], s[1..];
      RenderAppend(rest, t);
      HeadAndRest(s, t);
      RenderCons(head, rest + t);
      Assoc(SegLines(head), Render(rest), Render(t));
    }
  }

  lemma HeadAndRest(s: seq<Seg>, t: seq<Seg>)
    requires s != []
    ensures s + t == [s[0]] + (s[1..] + t)
  {
  }

  lemma RenderCons(s: Seg, t: seq<Seg>)
    ensures Render([s] + t) == SegLines(s) + Render(t)
  {
    assert ([s] + t)[1..] == t;
  }

  lemma Assoc(a: seq<string>, b: seq<string>, c: seq<string>)
    ensures a + b + c == a + (b + c)
  {
  }

  predicate NoMarks(m: Marks, lines: seq<string>, k: Kind) {
    forall i :: 0 <= i < |lines| ==> !IsBegin(m, lines[i], k) && !IsEnd(m, lines[i], k)
  }

  lemma SegMarks(m: Marks, s: Seg, k: Kind)
    requires Separate(m) && SegOk(m, s)
    ensures !IsKind(s, k) ==> NoMarks(m, SegLines(s), k)
    ensures IsKind(s, k) ==> NoMarks(m, s.body, k)
  {
    if s.Block? && s.kind != k {
      forall i | 0 <= i < |SegLines(s)| ensures !IsBegin(m, SegLines(s)[i], k) && !IsEnd(m, SegLines(s)[i], k) {
        assert 0 < i < |SegLines(s)| - 1 ==> SegLines(s)[i] == s.body[i - 1];
      }
    }
  }

  lemma {:induction false} DeletePast(m: Marks, a: seq<string>, b: seq<string>, k: Kind, inside: bool)
    requires NoMarks(m, a, k)
    ensures DeleteBlocks(m, a + b, k, inside) == (if inside then [] else a) + DeleteBlocks(m, b, k, inside)
  {
    if a == [] {
      assert a + b == b;
    } else {
      DeletePast(m, a[1..], b, k, inside);
      assert (a + b)[1..] == a[1..] + b;
    }
  }

  lemma {:induction false} RewritePast(m: Marks, a: seq<string>, b: seq<string>, k: Kind, block: seq<string>,
                                       skip: bool)
    requires NoMarks(m, a, k)
    ensures Rewrite(m, a + b, k, block, skip) == (if skip then [] else a) + Rewrite(m, b, k, block, skip)
  {
    if a == [] {
      assert a + b == b;
    } else {
      RewritePast(m, a[1..], b, k, block, skip);
      assert (a + b)[1..] == a[1..] + b;
    }
  }

  /** Over one block of the edited kind: sed drops it, awk puts the new text there. */
  lemma EditOverBlock(m: Marks, s: Seg, rest: seq<string>, block: seq<string>)
    requires Separate(m) && SegOk(m, s) && s.Block?
    ensures DeleteBlocks(m, SegLines(s) + rest, s.kind, false) == DeleteBlocks(m, rest, s.kind, false)
    ensures Rewrite(m, SegLines(s) + rest, s.kind, block, false) == block + Rewrite(m, rest, s.kind, block, false)
  {
    var k := s.kind;
    var tail := [s.foot] + rest;
    SegMarks(m, s, k);
    assert SegLines(s) + rest == [s.head] + (s.body + tail);
    assert ([s.head] + (s.body + tail))[1..] == s.body + tail;
    assert tail[1..] == rest;
    DeletePast(m, s.body, tail, k, true);
    RewritePast(m, s.body, tail, k, block, true);
  }

  /** sed's range delete removes exactly the blocks of that kind. */
  lemma {:induction false} DeleteRender(m: Marks, segs: seq<Seg>, k: Kind)
    requires Separate(m) && SegsOk(m, segs)
    ensures DeleteBlocks(m, Render(segs), k, false) == Render(Without(segs, k))
  {
    if segs != [] {
      DeleteRender(m, segs[1..], k);
      if IsKind(segs[0], k) {
        EditOverBlock(m, segs[0], Render(segs[1..]), []);
        assert Without(segs, k) == Without(segs[1..], k);
      } else {
        SegMarks(m, segs[0], k);
        DeletePast(m, SegLines(segs[0]), Render(segs[1..]), k, false);
        assert Without(segs, k)[0] == segs[0] && Without(segs, k)[1..] == Without(segs[1..], k);
      }
    }
  }

  /** awk's rewrite replaces exactly the block of that kind, where it sits. */
  lemma {:induction false} RewriteRender(m: Marks, segs: seq<Seg>, b: Seg)
    requires Separate(m) && SegsOk(m, segs) && b.Block?
    ensures Rewrite(m, Render(segs), b.kind, SegLines(b), false) == Render(Replace(segs, b))
  {
    if segs != [] {
      RewriteRender(m, segs[1..], b);
      assert Replace(segs, b)[1..] == Replace(segs[1..], b);
      if IsKind(segs[0], b.kind) {
        EditOverBlock(m, segs[0], Render(segs[1..]), SegLines(b));
      } else {
        SegMarks(m, segs[0], b.kind);
        RewritePast(m, SegLines(segs[0]), Render(segs[1..]), b.kind, SegLines(b), false);
      }
    }
  }

  lemma {:induction false} LineOfSeg(segs: seq<Seg>, l: string)
    ensures l in Render(segs) <==> exists i :: 0 <= i < |segs| && l in SegLines(segs[i])
  {
    if segs != [] {
      LineOfSeg(segs[1..], l);
      assert forall i :: 0 < i < |segs| ==> segs[i] == segs[1..][i - 1];
    }
  }

  lemma HasBeginRender(m: Marks, segs: seq<Seg>, k: Kind)
    requires Separate(m) && SegsOk(m, segs)
    ensures HasBegin(m, Render(segs), k) <==> HasKind(segs, k)
  {
    if HasBegin(m, Render(segs), k) {
      var n :| 0 <= n < |Render(segs)| && IsBegin(m, Render(segs)[n], k);
      var l := Render(segs)[n];
      LineOfSeg(segs, l);
      var i :| 0 <= i < |segs| && l in SegLines(segs[i]);
      SegMarks(m, segs[i], k);
    }
    if HasKind(segs, k) {
      var i :| 0 <= i < |segs| && IsKind(segs[i], k);
      LineOfSeg(segs, segs[i].head);
      assert segs[i].head == SegLines(segs[i])[0];
    }
  }

  // ---- what the structure gives --------------------------------------------------------

  lemma {:induction false} WithoutMembers(segs: seq<Seg>, k: Kind)
    ensures forall s :: s in Without(segs, k) <==> s in segs && !IsKind(s, k)
  {
    if segs != [] {
      WithoutMembers(segs[1..], k);
      assert forall s :: s in segs <==> s == segs[0] || s in segs[1..];
    }
  }

  /** Deleting one kind leaves the others, and leaves the structure sound. */
  lemma WithoutKinds(m: Marks, segs: seq<Seg>, k: Kind)
    ensures !HasKind(Without(segs, k), k)
    ensures forall j :: j != k ==> (HasKind(segs, j) <==> HasKind(Without(segs, k), j))
    ensures SegsOk(m, segs) ==> SegsOk(m, Without(segs, k))
  {
    var w := Without(segs, k);
    WithoutMembers(segs, k);
    KindsByMembership(segs);
    KindsByMembership(w);
    if SegsOk(m, segs) {
      forall i | 0 <= i < |w| ensures SegOk(m, w[i]) { assert w[i] in segs; }
    }
  }

  lemma {:induction false} WithoutOneEach(m: Marks, segs: seq<Seg>, k: Kind)
    requires OneEach(segs)
    ensures OneEach(Without(segs, k))
    ensures !HasKind(segs, k) ==> Without(segs, k) == segs
  {
    if segs != [] {
      WithoutOneEach(m, segs[1..], k);
      WithoutKinds(m, segs[1..], k);
      KindsCons(segs, k);
      var w := Without(segs, k);
      if !IsKind(segs[0], k) {
        assert w[1..] == Without(segs[1..], k);
      } else {
        assert w == Without(segs[1..], k);
      }
    }
  }

  lemma KindsCons(segs: seq<Seg>, k: Kind)
    requires segs != []
    ensures HasKind(segs, k) <==> IsKind(segs[0], k) || HasKind(segs[1..], k)
  {
    if HasKind(segs[1..], k) {
      var i :| 0 <= i < |segs[1..]| && IsKind(segs[1..][i], k);
      assert IsKind(segs[i + 1], k);
    }
    if HasKind(segs, k) && !IsKind(segs[0], k) {
      var i :| 0 <= i < |segs| && IsKind(segs[i], k);
      assert IsKind(segs[1..][i - 1], k);
    }
  }

  lemma {:induction false} ReplaceOneEach(segs: seq<Seg>, b: Seg)
    requires OneEach(segs) && b.Block?
    ensures OneEach(Replace(segs, b))
    ensures forall k :: HasKind(Replace(segs, b), k) <==> HasKind(segs, k)
  {
    if segs != [] {
      ReplaceOneEach(segs[1..], b);
      var r := Replace(segs, b);
      assert r[1..] == Replace(segs[1..], b);
      forall k ensures HasKind(r, k) <==> HasKind(segs, k) {
        KindsCons(segs, k);
        KindsCons(r, k);
      }
    }
  }

  lemma {:induction false} AppendOneEach(segs: seq<Seg>, b: Seg)
    requires OneEach(segs) && b.Block? && !HasKind(segs, b.kind)
    ensures OneEach(segs + [Line(""), b])
    ensures forall k :: HasKind(segs + [Line(""), b], k) <==> HasKind(segs, k) || k == b.kind
  {
    var r := segs + [Line(""), b];
    if segs == [] {
      assert r[1..] == [b] && r[1..][1..] == [];
      forall k ensures HasKind(r, k) <==> k == b.kind {
        KindsCons(r, k);
        KindsCons([b], k);
      }
    } else {
      KindsCons(segs, b.kind);
      AppendOneEach(segs[1..], b);
      assert r[1..] == segs[1..] + [Line(""), b];
      forall k ensures HasKind(r, k) <==> HasKind(segs, k) || k == b.kind {
        KindsCons(segs, k);
        KindsCons(r, k);
      }
    }
  }

  lemma KindsByMembership(segs: seq<Seg>)
    ensures forall k :: HasKind(segs, k) <==> exists s :: s in segs && IsKind(s, k)
  {
    forall k ensures HasKind(segs, k) <==> exists s :: s in segs && IsKind(s, k) {
      if s :| s in segs && IsKind(s, k) {
        var i :| 0 <= i < |segs| && segs[i] == s;
      }
      if HasKind(segs, k) {
        var i :| 0 <= i < |segs| && IsKind(segs[i], k);
        assert segs[i] in segs;
      }
    }
  }

  /** Splicing a present block twice is splicing it once, and two present blocks may be
      spliced in either order. */
  lemma SpliceLaws(segs: seq<Seg>, b: Seg, b': Seg, c: Seg)
    requires b.Block? && b'.Block? && c.Block? && b'.kind == b.kind && c.kind != b.kind
    ensures SpliceSegs(SpliceSegs(segs, b), b') == SpliceSegs(segs, b')
    ensures HasKind(segs, b.kind) && HasKind(segs, c.kind) ==>
              SpliceSegs(SpliceSegs(segs, b), c) == SpliceSegs(SpliceSegs(segs, c), b)
  {
    var once := SpliceSegs(segs, b);
    if HasKind(segs, b.kind) {
      var i :| 0 <= i < |segs| && IsKind(segs[i], b.kind);
      assert IsKind(once[i], b.kind);
      assert Replace(Replace(segs, b), b') == Replace(segs, b');
    } else {
      assert IsKind(once[|segs| + 1], b.kind);
      assert Replace(once, b') == segs + [Line(""), b'];
    }
    if HasKind(segs, b.kind) && HasKind(segs, c.kind) {
      var i :| 0 <= i < |segs| && IsKind(segs[i], b.kind);
      var j :| 0 <= j < |segs| && IsKind(segs[j], c.kind);
      assert IsKind(SpliceSegs(segs, b)[j], c.kind) && IsKind(SpliceSegs(segs, c)[i], b.kind);
      assert Replace(Replace(segs, b), c) == Replace(Replace(segs, c), b);
    }
  }
}
