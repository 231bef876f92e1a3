/** A redeploy: blocks read from any old cfg/local.sh and put back into any new one. */
module Redeploy {
  import opened Text
  import opened LocalSh
  import opened LocalShEdits
  import opened KeptBlocks

  // ---- what is read ----------------------------------------------------------------------

  /** What reading makes of the lines of a block. */
  function View(k: Kind, lines: seq<string>): (r: seq<string>)
    ensures |r| == |lines|
  {
    if k == Fstype then Upgrade(lines) else lines
  }

  /** The text of a block as it is read: from a begin marker through the first end marker. */
  ghost predicate IsBlock(m: Marks, k: Kind, t: seq<string>) {
    && |t| >= 2 && IsBegin(m, t[0], k) && IsEnd(m, t[|t| - 1], k) && View(k, t) == t
    && forall i :: 0 < i < |t| - 1 ==> !IsEnd(m, t[i], k)
  }

  /** Upgrading never makes, drops or changes a marker. */
  lemma UpgradeKeepsMarks(m: Marks, l: string, k: Kind)
    requires Separate(m)
    ensures IsBegin(m, UpgradeLine(l), k) == IsBegin(m, l, k) && IsEnd(m, UpgradeLine(l), k) == IsEnd(m, l, k)
  {
    if IsPinned(l) {
      NoHashIsPlain(m, l);
      NoHashIsPlain(m, UpgradeLine(l));
    }
  }

  lemma ViewKeepsMarks(m: Marks, v: Kind, lines: seq<string>, k: Kind)
    requires Separate(m)
    ensures forall i :: 0 <= i < |lines| ==>
              IsBegin(m, View(v, lines)[i], k) == IsBegin(m, lines[i], k)
                && IsEnd(m, View(v, lines)[i], k) == IsEnd(m, lines[i], k)
  {
    forall i | 0 <= i < |lines|
      ensures IsBegin(m, View(v, lines)[i], k) == IsBegin(m, lines[i], k)
              && IsEnd(m, View(v, lines)[i], k) == IsEnd(m, lines[i], k)
    {
      UpgradeKeepsMarks(m, lines[i], k);
    }
  }

  lemma ViewOfPrefix(v: Kind, a: seq<string>, b: seq<string>)
    ensures View(v, a + b) == View(v, a) + View(v, b)
  {
    if v == Fstype {
      var r := Upgrade(a) + Upgrade(b);
      assert forall i :: 0 <= i < |a + b| ==> Upgrade(a + b)[i] == r[i];
    }
  }

  lemma ViewTwice(v: Kind, a: seq<string>)
    ensures View(v, View(v, a)) == View(v, a)
  {
    UpgradeIdempotent(a);
  }

  /** The lines through the first end marker. */
  predicate Through(m: Marks, t: seq<string>, k: Kind) {
    t != [] && IsEnd(m, t[|t| - 1], k) && forall i :: 0 <= i < |t| - 1 ==> !IsEnd(m, t[i], k)
  }

  lemma {:induction false} TakenIsThrough(m: Marks, lines: seq<string>, k: Kind)
    ensures var r := TakeThrough(m, lines, k); r.Some? ==> r.value <= lines && Through(m, r.value, k)
  {
    if lines != [] && !IsEnd(m, lines[0], k) {
      TakenIsThrough(m, lines[1..], k);
    }
  }

  lemma {:induction false} ThroughIsTaken(m: Marks, lines: seq<string>, k: Kind, t: seq<string>)
    requires t <= lines && Through(m, t, k)
    ensures TakeThrough(m, lines, k) == Some(t)
  {
    if |t| > 1 {
      ThroughIsTaken(m, lines[1..], k, t[1..]);
      assert t == [t[0]] + t[1..];
    } else {
      assert t == [lines[0]];
    }
  }

  lemma {:induction false} DropToBegins(m: Marks, lines: seq<string>, k: Kind)
    ensures var d := DropTo(m, lines, k); d != [] ==> IsBegin(m, d[0], k)
  {
    if lines != [] && !IsBegin(m, lines[0], k) {
      DropToBegins(m, lines[1..], k);
    }
  }

  /** Whatever is read is such a text. */
  lemma ReadIsBlock(m: Marks, lines: seq<string>, k: Kind)
    requires Separate(m) && Read(m, lines, k).Some?
    ensures IsBlock(m, k, Read(m, lines, k).value)
  {
    var d := DropTo(m, lines, k);
    DropToBegins(m, lines, k);
    TakenIsThrough(m, d[1..], k);
    ThroughIsBlock(m, d[0], TakeThrough(m, d[1..], k).value, k);
  }

  lemma ThroughIsBlock(m: Marks, head: string, r: seq<string>, k: Kind)
    requires Separate(m) && IsBegin(m, head, k) && Through(m, r, k)
    ensures IsBlock(m, k, View(k, [head] + r))
  {
    var t := [head] + r;
    ViewKeepsMarks(m, k, t, k);
    ViewTwice(k, t);
    var n := |t| - 1;
    assert t[n] == r[n - 1];
    forall i | 0 < i < n ensures !IsEnd(m, View(k, t)[i], k) {
      assert t[i] == r[i - 1];
    }
  }

  /** A text is read exactly when it follows the first begin marker. */
  lemma ReadIsPrefix(m: Marks, lines: seq<string>, k: Kind, t: seq<string>)
    requires Separate(m) && IsBlock(m, k, t)
    ensures Read(m, lines, k) == Some(t) <==> t <= View(k, DropTo(m, lines, k))
  {
    var d := DropTo(m, lines, k);
    DropToBegins(m, lines, k);
    if Read(m, lines, k) == Some(t) {
      ReadFollows(m, d, k, t);
    }
    if t <= View(k, d) {
      FollowsIsRead(m, d, k, t);
    }
  }

  lemma ReadFollows(m: Marks, d: seq<string>, k: Kind, t: seq<string>)
    requires d != [] && TakeThrough(m, d[1..], k).Some? && t == View(k, [d[0]] + TakeThrough(m, d[1..], k).value)
    ensures t <= View(k, d)
  {
    TakenIsThrough(m, d[1..], k);
    var x := [d[0]] + TakeThrough(m, d[1..], k).value;
    assert d == x + d[|x|..];
    ViewOfPrefix(k, x, d[|x|..]);
  }

  lemma FollowsIsRead(m: Marks, d: seq<string>, k: Kind, t: seq<string>)
    requires Separate(m) && IsBlock(m, k, t) && t <= View(k, d)
    ensures TakeThrough(m, d[1..], k).Some? && t == View(k, [d[0]] + TakeThrough(m, d[1..], k).value)
  {
    StartOfView(k, d, t);
    ViewIsThrough(m, k, d[..|t|], t);
    ThroughAfterHead(m, d, k, |t|);
  }

  lemma StartOfView(k: Kind, d: seq<string>, t: seq<string>)
    requires t <= View(k, d)
    ensures |t| <= |d| && View(k, d[..|t|]) == t
  {
    var x, y := d[..|t|], d[|t|..];
    assert d == x + y;
    ViewOfPrefix(k, x, y);
  }

  lemma ViewIsThrough(m: Marks, k: Kind, x: seq<string>, t: seq<string>)
    requires Separate(m) && IsBlock(m, k, t) && View(k, x) == t
    ensures |x| >= 2 && Through(m, x[1..], k)
  {
    ViewKeepsMarks(m, k, x, k);
    var r := x[1..];
    assert r[|r| - 1] == x[|x| - 1];
    forall i | 0 <= i < |r| - 1 ensures !IsEnd(m, r[i], k) {
      assert r[i] == x[i + 1];
    }
  }

  lemma ThroughAfterHead(m: Marks, d: seq<string>, k: Kind, n: nat)
    requires 2 <= n <= |d| && Through(m, d[..n][1..], k)
    ensures TakeThrough(m, d[1..], k) == Some(d[..n][1..]) && [d[0]] + d[..n][1..] == d[..n]
  {
    assert d[..n][1..] == d[1..][..n - 1];
    ThroughIsTaken(m, d[1..], k, d[..n][1..]);
  }

  // ---- the awk pass over any lines -----------------------------------------------------------

  /** Whether a block of kind `k` is begun and not ended after these lines. */
  function Begun(m: Marks, lines: seq<string>, k: Kind, skip: bool): bool {
    if lines == [] then skip
    else Begun(m, lines[1..], k,
      if IsBegin(m, lines[0], k) then true else if IsEnd(m, lines[0], k) then false else skip)
  }

  lemma {:induction false} RewriteAppend(m: Marks, a: seq<string>, b: seq<string>, k: Kind, block: seq<string>,
                                         skip: bool)
    ensures Rewrite(m, a + b, k, block, skip)
            == Rewrite(m, a, k, block, skip) + Rewrite(m, b, k, block, Begun(m, a, k, skip))
    decreases |a|
  {
    if a == [] {
      assert a + b == b;
    } else {
      var s := if IsBegin(m, a[0], k) then true else if IsEnd(m, a[0], k) then false else skip;
      RewriteAppend(m, a[1..], b, k, block, s);
      assert (a + b)[0] == a[0] && (a + b)[1..] == a[1..] + b;
      Assoc(block, Rewrite(m, a[1..], k, block, s), Rewrite(m, b, k, block, Begun(m, a, k, skip)));
      Assoc([a[0]], Rewrite(m, a[1..], k, block, s), Rewrite(m, b, k, block, Begun(m, a, k, skip)));
    }
  }

  /** The lines of the result are lines of the file or of the block. */
  lemma {:induction false} RewriteLines(m: Marks, a: seq<string>, k: Kind, block: seq<string>, skip: bool)
    ensures forall l :: l in Rewrite(m, a, k, block, skip) ==> l in a || (HasBegin(m, a, k) && l in block)
    decreases |a|
  {
    if a != [] {
      var s := if IsBegin(m, a[0], k) then true else if IsEnd(m, a[0], k) then false else skip;
      RewriteLines(m, a[1..], k, block, s);
      BeginCons(m, a, k);
    }
  }

  lemma BeginCons(m: Marks, a: seq<string>, k: Kind)
    requires a != []
    ensures HasBegin(m, a, k) <==> IsBegin(m, a[0], k) || HasBegin(m, a[1..], k)
  {
    if HasBegin(m, a[1..], k) {
      var i :| 0 <= i < |a[1..]| && IsBegin(m, a[1..][i], k);
      assert IsBegin(m, a[i + 1], k);
    }
    if HasBegin(m, a, k) && !IsBegin(m, a[0], k) {
      var i :| 0 <= i < |a| && IsBegin(m, a[i], k);
      assert IsBegin(m, a[1..][i - 1], k);
    }
  }

  lemma BeginAppend(m: Marks, a: seq<string>, b: seq<string>, k: Kind)
    ensures HasBegin(m, a + b, k) <==> HasBegin(m, a, k) || HasBegin(m, b, k)
  {
    if HasBegin(m, a, k) {
      var i :| 0 <= i < |a| && IsBegin(m, a[i], k);
      assert IsBegin(m, (a + b)[i], k);
    }
    if HasBegin(m, b, k) {
      var i :| 0 <= i < |b| && IsBegin(m, b[i], k);
      assert IsBegin(m, (a + b)[|a| + i], k);
    }
  }

  /** Without begin markers, the pass only drops stray end markers. */
  lemma {:induction false} RewriteOutside(m: Marks, a: seq<string>, k: Kind, block: seq<string>)
    requires Separate(m) && !HasBegin(m, a, k)
    ensures !Begun(m, a, k, false)
    ensures HasSave(a) ==> HasSave(Rewrite(m, a, k, block, false))
  {
    if a != [] {
      BeginCons(m, a, k);
      RewriteOutside(m, a[1..], k, block);
      var r := Rewrite(m, a, k, block, false);
      if HasSave(a) {
        var i :| 0 <= i < |a| && IsSave(a[i]);
        NoHashIsPlain(m, a[i]);
        if i > 0 {
          assert IsSave(a[1..][i - 1]);
          var j :| 0 <= j < |Rewrite(m, a[1..], k, block, false)| && IsSave(Rewrite(m, a[1..], k, block, false)[j]);
          assert IsSave(r[|r| - |Rewrite(m, a[1..], k, block, false)| + j]);
        } else {
          assert IsSave(r[0]);
        }
      }
    }
  }

  lemma {:induction false} DropPastBegins(m: Marks, a: seq<string>, b: seq<string>, k: Kind)
    requires !HasBegin(m, a, k)
    ensures DropTo(m, a + b, k) == DropTo(m, b, k)
  {
    if a == [] {
      assert a + b == b;
    } else {
      BeginCons(m, a, k);
      DropPastBegins(m, a[1..], b, k);
      assert (a + b)[0] == a[0] && (a + b)[1..] == a[1..] + b;
    }
  }

  lemma EmptyLineIsPlain(m: Marks, k: Kind)
    requires Separate(m)
    ensures !IsBegin(m, "", k) && !IsEnd(m, "", k) && !HasBegin(m, [""], k)
  {
    NoHashIsPlain(m, "");
  }

  lemma {:induction false} DeletedLines(m: Marks, a: seq<string>, k: Kind, inside: bool)
    ensures forall l :: l in DeleteBlocks(m, a, k, inside) ==> l in a
    decreases |a|
  {
    if a != [] {
      DeletedLines(m, a[1..], k, true);
      DeletedLines(m, a[1..], k, false);
    }
  }

  lemma EnsureKeepsOut(m: Marks, lines: seq<string>, k: Kind)
    requires Separate(m) && k != EnvSave && !HasBegin(m, lines, k)
    ensures !HasBegin(m, EnsureEnvSave(m, lines), k)
  {
    if !HasSave(lines) {
      SaveBlockOk(m);
      SegMarks(m, SaveBlock(m), k);
      DeletedLines(m, lines, EnvSave, false);
      var d := DeleteBlocks(m, lines, EnvSave, false);
      forall i | 0 <= i < |d| ensures !IsBegin(m, d[i], k) {
        assert d[i] in lines;
      }
      BeginAppend(m, SegLines(SaveBlock(m)), d, k);
    }
  }

  lemma EnsureSaves(m: Marks, lines: seq<string>)
    requires Separate(m)
    ensures HasSave(EnsureEnvSave(m, lines))
  {
    if !HasSave(lines) {
      SaveBlockOk(m);
      var save := SegLines(SaveBlock(m));
      var i :| 0 <= i < |save| && IsSave(save[i]);
      assert EnsureEnvSave(m, lines)[i] == save[i];
    }
  }

  // ---- putting back ------------------------------------------------------------------------------

  type Blocks = map<Kind, seq<string>>

  predicate Restores(b: Blocks, skip: set<Kind>, k: Kind) { IsKept(k) && k in b && k !in skip }

  /** The file has no begin marker of these kinds. */
  predicate Lacks(m: Marks, ks: set<Kind>, lines: seq<string>) { forall k :: k in ks ==> !HasBegin(m, lines, k) }

  /** The kinds about to be restored; those that are skipped, because the deploy wrote them
      itself, may be in the new file. */
  function Restored(b: Blocks, skip: set<Kind>): set<Kind> {
    set k | k in {OstCount, Fstype, Cluster} && Restores(b, skip, k)
  }

  /** One more block among the text `t` of those before it. */
  function Add(m: Marks, t: seq<string>, b: Blocks, skip: set<Kind>, k: Kind): seq<string> {
    if k in skip || k !in b then t
    else if t == [] then b[k]
    else if HasBegin(m, t, k) then Rewrite(m, t, k, b[k], false)
    else t + [""] + b[k]
  }

  /** The text that the restored blocks make together: a function of the dictionary alone. */
  function Together(m: Marks, b: Blocks, skip: set<Kind>): seq<string> {
    Add(m, Add(m, Add(m, [], b, skip, OstCount), b, skip, Fstype), b, skip, Cluster)
  }

  /** The file is what it was, or has the restored text at its end. */
  ghost predicate EndsWith(m: Marks, ks: set<Kind>, lines: seq<string>, file: seq<string>, base: seq<string>,
                           t: seq<string>) {
    if t == [] then file == lines else file == base + ([""] + t) && HasSave(base) && Lacks(m, ks, base)
  }

  ghost predicate BlocksOk(m: Marks, b: Blocks) { forall k :: IsKept(k) && k in b ==> IsBlock(m, k, b[k]) }

  lemma PutFirstBlock(m: Marks, ks: set<Kind>, lines: seq<string>, k: Kind, block: seq<string>)
    returns (base: seq<string>)
    requires Separate(m) && k in ks && EnvSave !in ks && Lacks(m, ks, lines) && block != []
    ensures base == EnsureEnvSave(m, lines) && EndsWith(m, ks, lines, Splice(m, lines, k, block), base, block)
  {
    base := EnsureEnvSave(m, lines);
    EnsureSaves(m, lines);
    forall j | j in ks ensures !HasBegin(m, base, j) {
      EnsureKeepsOut(m, lines, j);
    }
    Assoc(base, [""], block);
  }

  lemma StaysSaved(m: Marks, base: seq<string>, rest: seq<string>)
    requires HasSave(base)
    ensures EnsureEnvSave(m, base + rest) == base + rest
  {
    var i :| 0 <= i < |base| && IsSave(base[i]);
    assert (base + rest)[i] == base[i];
  }

  lemma PutNextBlock(m: Marks, ks: set<Kind>, b: Blocks, skip: set<Kind>, base: seq<string>, t: seq<string>, k: Kind)
    returns (base': seq<string>)
    requires Separate(m) && Restores(b, skip, k) && k in ks && HasSave(base) && Lacks(m, ks, base) && t != []
    ensures HasSave(base') && Lacks(m, ks, base') && (!HasBegin(m, t, k) ==> base' == base)
    ensures Splice(m, base + ([""] + t), k, b[k]) == base' + ([""] + Add(m, t, b, skip, k))
  {
    StaysSaved(m, base, [""] + t);
    EmptyLineIsPlain(m, k);
    BeginAppend(m, base, [""] + t, k);
    BeginAppend(m, [""], t, k);
    if HasBegin(m, t, k) {
      base' := RewriteAtEnd(m, ks, base, t, k, b[k]);
    } else {
      base' := base;
      Append4(base, t, b[k]);
    }
  }

  lemma Append4(a: seq<string>, t: seq<string>, c: seq<string>)
    ensures a + ([""] + t) + [""] + c == a + ([""] + (t + [""] + c))
  {
  }

  lemma RewriteAtEnd(m: Marks, ks: set<Kind>, base: seq<string>, t: seq<string>, k: Kind, block: seq<string>)
    returns (base': seq<string>)
    requires Separate(m) && k in ks && HasSave(base) && Lacks(m, ks, base)
    ensures HasSave(base') && Lacks(m, ks, base')
    ensures Rewrite(m, base + ([""] + t), k, block, false) == base' + ([""] + Rewrite(m, t, k, block, false))
  {
    base' := Rewrite(m, base, k, block, false);
    RewriteOutside(m, base, k, block);
    RewriteAppend(m, base, [""] + t, k, block, false);
    EmptyLineIsPlain(m, k);
    assert ([""] + t)[1..] == t;
    RewriteLines(m, base, k, block, false);
    forall j | j in ks ensures !HasBegin(m, base', j) {
      forall i | 0 <= i < |base'| ensures !IsBegin(m, base'[i], j) {
        assert base'[i] in base;
      }
    }
  }

  lemma {:induction false} RewriteHasBlock(m: Marks, a: seq<string>, k: Kind, block: seq<string>, skip: bool)
    requires HasBegin(m, a, k)
    ensures |Rewrite(m, a, k, block, skip)| >= |block|
    decreases |a|
  {
    BeginCons(m, a, k);
    if !IsBegin(m, a[0], k) {
      RewriteHasBlock(m, a[1..], k, block, if IsEnd(m, a[0], k) then false else skip);
    }
  }

  lemma AddIsSomething(m: Marks, b: Blocks, skip: set<Kind>, t: seq<string>, k: Kind)
    requires BlocksOk(m, b) && IsKept(k) && t != []
    ensures Add(m, t, b, skip, k) != []
  {
    if Restores(b, skip, k) && HasBegin(m, t, k) {
      RewriteHasBlock(m, t, k, b[k], false);
      assert IsBlock(m, k, b[k]);
    }
  }

  lemma PutStep(m: Marks, ks: set<Kind>, b: Blocks, skip: set<Kind>, lines: seq<string>, file: seq<string>,
                base: seq<string>, t: seq<string>, k: Kind)
    returns (base': seq<string>)
    requires Separate(m) && BlocksOk(m, b) && IsKept(k) && Restored(b, skip) <= ks && EnvSave !in ks
    requires Lacks(m, ks, lines) && EndsWith(m, ks, lines, file, base, t)
    ensures EndsWith(m, ks, lines, Put(m, file, b, skip, k), base', Add(m, t, b, skip, k))
    ensures t == [] && Restores(b, skip, k) ==> base' == EnsureEnvSave(m, lines)
    ensures !(Restores(b, skip, k) && (t == [] || HasBegin(m, t, k))) ==> base' == base
  {
    base' := base;
    if Restores(b, skip, k) {
      assert k in ks;
      if t == [] {
        assert IsBlock(m, k, b[k]);
        base' := PutFirstBlock(m, ks, lines, k, b[k]);
      } else {
        base' := PutNextBlock(m, ks, b, skip, base, t, k);
        AddIsSomething(m, b, skip, t, k);
      }
    }
  }

  /** Whatever the new file is, its end is the text the blocks make together. */
  lemma RestoreEndsWith(m: Marks, ks: set<Kind>, b: Blocks, skip: set<Kind>, lines: seq<string>)
    returns (base: seq<string>)
    requires Separate(m) && BlocksOk(m, b) && Restored(b, skip) <= ks && EnvSave !in ks && Lacks(m, ks, lines)
    ensures EndsWith(m, ks, lines, RestoreAll(m, lines, b, skip), base, Together(m, b, skip))
  {
    base := PutStep(m, ks, b, skip, lines, lines, [], [], OstCount);
    var l1, t1 := Put(m, lines, b, skip, OstCount), Add(m, [], b, skip, OstCount);
    base := PutStep(m, ks, b, skip, lines, l1, base, t1, Fstype);
    var l2, t2 := Put(m, l1, b, skip, Fstype), Add(m, t1, b, skip, Fstype);
    base := PutStep(m, ks, b, skip, lines, l2, base, t2, Cluster);
  }

  lemma TogetherIsSomething(m: Marks, b: Blocks, skip: set<Kind>, k: Kind)
    requires BlocksOk(m, b) && Restores(b, skip, k)
    ensures Together(m, b, skip) != []
  {
    assert IsBlock(m, k, b[k]);
    var t1 := Add(m, [], b, skip, OstCount);
    var t2 := Add(m, t1, b, skip, Fstype);
    assert k == OstCount ==> t1 != [];
    if t1 != [] {
      AddIsSomething(m, b, skip, t1, Fstype);
    }
    assert k == Fstype || t1 != [] ==> t2 != [];
    if t2 != [] {
      AddIsSomething(m, b, skip, t2, Cluster);
    }
  }

  /** A restored block is read from the new file as it is from that text alone. */
  lemma ReadAfterRestore(m: Marks, b: Blocks, skip: set<Kind>, lines: seq<string>, k: Kind)
    requires Separate(m) && BlocksOk(m, b) && Lacks(m, Restored(b, skip), lines) && Restores(b, skip, k)
    ensures DropTo(m, RestoreAll(m, lines, b, skip), k) == DropTo(m, Together(m, b, skip), k)
  {
    var base := RestoreEndsWith(m, Restored(b, skip), b, skip, lines);
    TogetherIsSomething(m, b, skip, k);
    EmptyLineIsPlain(m, k);
    DropPastBegins(m, base, [""] + Together(m, b, skip), k);
    DropPastBegins(m, [""], Together(m, b, skip), k);
  }

  /** The block follows the first begin marker of its kind. */
  predicate Whole(m: Marks, t: seq<string>, k: Kind, block: seq<string>) { block <= View(k, DropTo(m, t, k)) }

  /** Every block is whole in the text that the blocks make together. */
  ghost predicate Unbroken(m: Marks, b: Blocks, skip: set<Kind>) {
    forall k :: Restores(b, skip, k) ==> Whole(m, Together(m, b, skip), k, b[k])
  }

  /** For any blocks and any new file without them: every block restored is read back as it
      was exactly when the blocks are unbroken, which depends on their own texts alone. */
  lemma RestoreIsExact(m: Marks, b: Blocks, skip: set<Kind>, lines: seq<string>)
    requires Separate(m) && BlocksOk(m, b) && Lacks(m, Restored(b, skip), lines)
    ensures (forall k :: Restores(b, skip, k) ==> Read(m, RestoreAll(m, lines, b, skip), k) == Some(b[k])) <==>
            Unbroken(m, b, skip)
  {
    forall k | Restores(b, skip, k)
      ensures Read(m, RestoreAll(m, lines, b, skip), k) == Some(b[k]) <==>
              b[k] <= View(k, DropTo(m, Together(m, b, skip), k))
    {
      ReadAfterRestore(m, b, skip, lines, k);
      ReadIsPrefix(m, RestoreAll(m, lines, b, skip), k, b[k]);
    }
  }

  lemma KeptIsOk(m: Marks, was: seq<string>)
    requires Separate(m)
    ensures BlocksOk(m, Kept(m, was))
  {
    forall k | IsKept(k) && k in Kept(m, was) ensures IsBlock(m, k, Kept(m, was)[k]) {
      ReadIsBlock(m, was, k);
    }
  }

  /** So for any old and any new file: a redeploy gives every block back exactly when the
      blocks read from the old file are unbroken. */
  lemma RedeployIsExact(m: Marks, was: seq<string>, lines: seq<string>, skip: set<Kind>)
    requires Separate(m) && Lacks(m, Restored(Kept(m, was), skip), lines)
    ensures var b := Kept(m, was); var now := RestoreAll(m, lines, b, skip);
            (forall k :: IsKept(k) && k !in skip && Read(m, was, k).Some? ==> Read(m, now, k) == Read(m, was, k)) <==>
              Unbroken(m, b, skip)
  {
    var b := Kept(m, was);
    KeptIsOk(m, was);
    RestoreIsExact(m, b, skip, lines);
    forall k | IsKept(k) ensures k in b <==> Read(m, was, k).Some? {
      assert k in KEPT;
    }
  }

  // ---- blocks apart --------------------------------------------------------------------------------

  predicate Earlier(j: Kind, k: Kind) {
    (j == OstCount && (k == Fstype || k == Cluster)) || (j == Fstype && k == Cluster)
  }

  /** No restored block holds the begin marker of one restored later. */
  ghost predicate NoLater(m: Marks, b: Blocks, skip: set<Kind>) {
    forall j, k :: Restores(b, skip, j) && Restores(b, skip, k) && Earlier(j, k) ==> !HasBegin(m, b[j], k)
  }

  /** The texts one after another. */
  function Chain(t: seq<string>, b: Blocks, skip: set<Kind>, k: Kind): seq<string> {
    if k in skip || k !in b then t else if t == [] then b[k] else t + [""] + b[k]
  }

  lemma AddIsChain(m: Marks, t: seq<string>, b: Blocks, skip: set<Kind>, k: Kind)
    requires k in b && k !in skip ==> !HasBegin(m, t, k)
    ensures Add(m, t, b, skip, k) == Chain(t, b, skip, k)
  {
  }

  lemma ChainBegins(m: Marks, t: seq<string>, b: Blocks, skip: set<Kind>, j: Kind, k: Kind)
    requires Separate(m)
    ensures HasBegin(m, Chain(t, b, skip, j), k) <==>
            HasBegin(m, t, k) || (j in b && j !in skip && HasBegin(m, b[j], k))
  {
    EmptyLineIsPlain(m, k);
    if j in b && j !in skip && t != [] {
      BeginAppend(m, t, [""], k);
      BeginAppend(m, t + [""], b[j], k);
    }
  }

  /** Text that comes first in `t`, or first after it, from its begin marker on. */
  lemma ChainKeeps(m: Marks, t: seq<string>, b: Blocks, skip: set<Kind>, j: Kind, k: Kind, x: seq<string>)
    requires Separate(m) && x != [] && x <= View(k, DropTo(m, t, k))
    ensures x <= View(k, DropTo(m, Chain(t, b, skip, j), k))
  {
    if j in b && j !in skip && t != [] {
      DropExtends(m, t, [""] + b[j], k);
      Assoc(t, [""], b[j]);
      ViewOfPrefix(k, DropTo(m, t, k), [""] + b[j]);
    }
  }

  lemma {:induction false} DropExtends(m: Marks, a: seq<string>, c: seq<string>, k: Kind)
    requires DropTo(m, a, k) != []
    ensures DropTo(m, a + c, k) == DropTo(m, a, k) + c
  {
    if !IsBegin(m, a[0], k) {
      DropExtends(m, a[1..], c, k);
      assert (a + c)[1..] == a[1..] + c;
    }
  }

  lemma ChainStarts(m: Marks, t: seq<string>, b: Blocks, skip: set<Kind>, k: Kind)
    requires Separate(m) && BlocksOk(m, b) && Restores(b, skip, k) && !HasBegin(m, t, k)
    ensures b[k] <= View(k, DropTo(m, Chain(t, b, skip, k), k))
  {
    assert IsBlock(m, k, b[k]);
    assert DropTo(m, b[k], k) == b[k];
    if t != [] {
      EmptyLineIsPlain(m, k);
      BeginAppend(m, t, [""], k);
      DropPastBegins(m, t + [""], b[k], k);
    }
  }

  lemma TogetherIsChain(m: Marks, b: Blocks, skip: set<Kind>)
    requires Separate(m) && NoLater(m, b, skip)
    ensures Together(m, b, skip) == Chain(Chain(Chain([], b, skip, OstCount), b, skip, Fstype), b, skip, Cluster)
    ensures var t1 := Chain([], b, skip, OstCount); var t2 := Chain(t1, b, skip, Fstype);
            && (Restores(b, skip, Fstype) ==> !HasBegin(m, t1, Fstype))
              && (Restores(b, skip, Cluster) ==> !HasBegin(m, t2, Cluster))
  {
    var t1 := Chain([], b, skip, OstCount);
    var t2 := Chain(t1, b, skip, Fstype);
    var o, f, c := Restores(b, skip, OstCount), Restores(b, skip, Fstype), Restores(b, skip, Cluster);
    assert (o && f ==> !HasBegin(m, b[OstCount], Fstype)) && (o && c ==> !HasBegin(m, b[OstCount], Cluster));
    assert f && c ==> !HasBegin(m, b[Fstype], Cluster);
    AddIsChain(m, [], b, skip, OstCount);
    ChainBegins(m, [], b, skip, OstCount, Fstype);
    ChainBegins(m, [], b, skip, OstCount, Cluster);
    AddIsChain(m, t1, b, skip, Fstype);
    ChainBegins(m, t1, b, skip, Fstype, Cluster);
    AddIsChain(m, t2, b, skip, Cluster);
  }

  /** Blocks without the begin marker of a later one are unbroken. */
  lemma ApartIsUnbroken(m: Marks, b: Blocks, skip: set<Kind>)
    requires Separate(m) && BlocksOk(m, b) && NoLater(m, b, skip)
    ensures Unbroken(m, b, skip)
  {
    var t1 := Chain([], b, skip, OstCount);
    var t2 := Chain(t1, b, skip, Fstype);
    TogetherIsChain(m, b, skip);
    if Restores(b, skip, OstCount) {
      ChainStarts(m, [], b, skip, OstCount);
      assert IsBlock(m, OstCount, b[OstCount]);
      ChainKeeps(m, t1, b, skip, Fstype, OstCount, b[OstCount]);
      ChainKeeps(m, t2, b, skip, Cluster, OstCount, b[OstCount]);
    }
    if Restores(b, skip, Fstype) {
      ChainStarts(m, t1, b, skip, Fstype);
      assert IsBlock(m, Fstype, b[Fstype]);
      ChainKeeps(m, t2, b, skip, Cluster, Fstype, b[Fstype]);
    }
    if Restores(b, skip, Cluster) {
      ChainStarts(m, t2, b, skip, Cluster);
    }
  }

  // ---- the dictionary as a whole -------------------------------------------------------------------

  /** A file without any of the blocks a deploy keeps. */
  predicate KeepsNone(m: Marks, lines: seq<string>) { Lacks(m, {OstCount, Fstype, Cluster}, lines) }

  /** The texts together do not make up a block that was not restored. */
  ghost predicate NothingNew(m: Marks, b: Blocks, skip: set<Kind>) {
    forall k :: IsKept(k) && !Restores(b, skip, k) ==> Read(m, Together(m, b, skip), k).None?
  }

  lemma ReadOfOther(m: Marks, b: Blocks, skip: set<Kind>, lines: seq<string>, k: Kind)
    requires Separate(m) && BlocksOk(m, b) && KeepsNone(m, lines) && IsKept(k) && !Restores(b, skip, k)
    ensures Read(m, RestoreAll(m, lines, b, skip), k) == Read(m, Together(m, b, skip), k)
  {
    var base := RestoreEndsWith(m, {OstCount, Fstype, Cluster}, b, skip, lines);
    EmptyLineIsPlain(m, k);
    if Together(m, b, skip) == [] {
      DropNone(m, lines, k);
    } else {
      DropPastBegins(m, base, [""] + Together(m, b, skip), k);
      DropPastBegins(m, [""], Together(m, b, skip), k);
    }
  }

  lemma {:induction false} DropNone(m: Marks, lines: seq<string>, k: Kind)
    requires !HasBegin(m, lines, k)
    ensures DropTo(m, lines, k) == []
  {
    DropPastBegins(m, lines, [], k);
    assert lines + [] == lines;
  }

  /** For any old file and any new one without the kept blocks: the dictionary is read back
      exactly when the blocks are unbroken and make up no other one. */
  lemma RedeployKeptExactly(m: Marks, was: seq<string>, lines: seq<string>, skip: set<Kind>)
    requires Separate(m) && KeepsNone(m, lines)
    ensures var b := Kept(m, was);
            Kept(m, RestoreAll(m, lines, b, skip)) == b - skip <==> Unbroken(m, b, skip) && NothingNew(m, b, skip)
  {
    var b := Kept(m, was);
    KeptIsOk(m, was);
    var now := RestoreAll(m, lines, b, skip);
    RestoreIsExact(m, b, skip, lines);
    forall k | IsKept(k) && !Restores(b, skip, k) ensures Read(m, now, k) == Read(m, Together(m, b, skip), k) {
      ReadOfOther(m, b, skip, lines, k);
    }
    SameDictionary(m, now, b, skip);
  }

  lemma SameDictionary(m: Marks, now: seq<string>, b: Blocks, skip: set<Kind>)
    requires forall k :: k in b ==> IsKept(k)
    ensures Kept(m, now) == b - skip <==>
            forall k :: IsKept(k) ==> Read(m, now, k) == if Restores(b, skip, k) then Some(b[k]) else None
  {
    assert forall k :: k in KEPT <==> IsKept(k);
    var d := Kept(m, now);
    assert forall k :: IsKept(k) ==> (Read(m, now, k) == if k in d then Some(d[k]) else None);
    if d == b - skip {
      forall k | IsKept(k) ensures Read(m, now, k) == if Restores(b, skip, k) then Some(b[k]) else None {
        assert k in d <==> k in b && k !in skip;
      }
    }
    if forall k :: IsKept(k) ==> Read(m, now, k) == if Restores(b, skip, k) then Some(b[k]) else None {
      assert d.Keys == (b - skip).Keys;
    }
  }

  /** No restored block holds the begin marker of a kept block that comes later or not at all. */
  ghost predicate Apart(m: Marks, b: Blocks, skip: set<Kind>) {
    forall j, k :: Restores(b, skip, j) && IsKept(k) && (Earlier(j, k) || !Restores(b, skip, k)) ==>
      !HasBegin(m, b[j], k)
  }

  /** A redeploy loses and changes nothing, whatever the two files look like elsewhere, when
      the texts it restores hold no such marker. */
  lemma RedeployKeepsBlocks(m: Marks, was: seq<string>, lines: seq<string>, skip: set<Kind>)
    requires Separate(m) && KeepsNone(m, lines) && Apart(m, Kept(m, was), skip)
    ensures Kept(m, RestoreAll(m, lines, Kept(m, was), skip)) == Kept(m, was) - skip
  {
    var b := Kept(m, was);
    KeptIsOk(m, was);
    ApartIsUnbroken(m, b, skip);
    forall k | IsKept(k) && !Restores(b, skip, k) ensures Read(m, Together(m, b, skip), k).None? {
      ApartMakesNothing(m, b, skip, k);
    }
    RedeployKeptExactly(m, was, lines, skip);
  }

  lemma ApartMakesNothing(m: Marks, b: Blocks, skip: set<Kind>, k: Kind)
    requires Separate(m) && Apart(m, b, skip) && IsKept(k) && !Restores(b, skip, k)
    ensures Read(m, Together(m, b, skip), k).None?
  {
    var t1 := Chain([], b, skip, OstCount);
    var t2 := Chain(t1, b, skip, Fstype);
    TogetherIsChain(m, b, skip);
    ChainBegins(m, [], b, skip, OstCount, k);
    ChainBegins(m, t1, b, skip, Fstype, k);
    ChainBegins(m, t2, b, skip, Cluster, k);
    assert IsKept(OstCount) && IsKept(Fstype) && IsKept(Cluster);
    assert Restores(b, skip, OstCount) ==> !HasBegin(m, b[OstCount], k);
    assert Restores(b, skip, Fstype) ==> !HasBegin(m, b[Fstype], k);
    assert Restores(b, skip, Cluster) ==> !HasBegin(m, b[Cluster], k);
    DropNone(m, Together(m, b, skip), k);
  }

  function RedeployAll(m: Marks, lines: seq<string>, stocks: seq<seq<string>>): seq<string> {
    if stocks == [] then lines
    else RestoreAll(m, stocks[|stocks| - 1], Kept(m, RedeployAll(m, lines, stocks[..|stocks| - 1])), {})
  }

  /** Any number of redeploys, each onto another file, loses and changes nothing. */
  lemma {:induction false} RedeploysKeepBlocks(m: Marks, was: seq<string>, stocks: seq<seq<string>>)
    requires Separate(m) && Apart(m, Kept(m, was), {}) && forall i :: 0 <= i < |stocks| ==> KeepsNone(m, stocks[i])
    ensures Kept(m, RedeployAll(m, was, stocks)) == Kept(m, was)
  {
    if stocks != [] {
      var n := |stocks| - 1;
      RedeploysKeepBlocks(m, was, stocks[..n]);
      RedeployKeepsBlocks(m, RedeployAll(m, was, stocks[..n]), stocks[n], {});
      SkipNone(Kept(m, was));
    }
  }

  lemma SkipNone(b: Blocks)
    ensures b - {} == b
  {
  }

  // ---- the blocks a deploy wrote itself ------------------------------------------------------------------

  /** Under the same condition a block that is not restored is read as the new file has it. */
  lemma OthersStay(m: Marks, was: seq<string>, lines: seq<string>, skip: set<Kind>, k: Kind)
    requires Separate(m) && Lacks(m, Restored(Kept(m, was), skip), lines) && Apart(m, Kept(m, was), skip)
    requires IsKept(k) && !Restores(Kept(m, was), skip, k)
    requires HasSave(lines) && (HasBegin(m, lines, k) ==> Read(m, lines, k).Some?)
    ensures Read(m, RestoreAll(m, lines, Kept(m, was), skip), k) == Read(m, lines, k)
  {
    var b := Kept(m, was);
    KeptIsOk(m, was);
    var t := Together(m, b, skip);
    ApartEnds(m, b, skip, lines);
    if t != [] {
      if HasBegin(m, lines, k) {
        ReadIsBlock(m, lines, k);
        ReadIsPrefix(m, lines, k, Read(m, lines, k).value);
        DropExtends(m, lines, [""] + t, k);
        ViewOfPrefix(k, DropTo(m, lines, k), [""] + t);
        ReadIsPrefix(m, lines + ([""] + t), k, Read(m, lines, k).value);
      } else {
        DropNone(m, lines, k);
        EmptyLineIsPlain(m, k);
        DropPastBegins(m, lines, [""] + t, k);
        DropPastBegins(m, [""], t, k);
        ApartMakesNothing(m, b, skip, k);
      }
    }
  }

  /** Then the new file is followed by the texts, and is itself untouched. */
  lemma ApartEnds(m: Marks, b: Blocks, skip: set<Kind>, lines: seq<string>)
    requires Separate(m) && BlocksOk(m, b) && Lacks(m, Restored(b, skip), lines) && NoLater(m, b, skip)
             && HasSave(lines)
    ensures var t := Together(m, b, skip); RestoreAll(m, lines, b, skip) == if t
            == [] then lines else lines + ([""] + t)
  {
    var ks := Restored(b, skip);
    TogetherIsChain(m, b, skip);
    var t1 := Chain([], b, skip, OstCount);
    var t2 := Chain(t1, b, skip, Fstype);
    AddIsChain(m, [], b, skip, OstCount);
    AddIsChain(m, t1, b, skip, Fstype);
    var base1 := PutStep(m, ks, b, skip, lines, lines, lines, [], OstCount);
    assert base1 == lines;
    var l1 := Put(m, lines, b, skip, OstCount);
    var base2 := PutStep(m, ks, b, skip, lines, l1, base1, t1, Fstype);
    assert base2 == lines;
    var l2 := Put(m, l1, b, skip, Fstype);
    var base3 := PutStep(m, ks, b, skip, lines, l2, base2, t2, Cluster);
    assert base3 == lines;
  }

  // ---- blocks that overlap ---------------------------------------------------------------------------------

  /** A rewrite puts the new text at the first begin marker of its kind. */
  lemma {:induction false} RewriteStartsBlock(m: Marks, a: seq<string>, k: Kind, block: seq<string>, skip: bool)
    requires Separate(m) && IsBlock(m, k, block) && HasBegin(m, a, k)
    ensures block <= View(k, DropTo(m, Rewrite(m, a, k, block, skip), k))
    decreases |a|
  {
    BeginCons(m, a, k);
    if IsBegin(m, a[0], k) {
      var rest := Rewrite(m, a[1..], k, block, true);
      assert DropTo(m, block + rest, k) == block + rest;
      ViewOfPrefix(k, block, rest);
    } else {
      RewriteStartsBlock(m, a[1..], k, block, if IsEnd(m, a[0], k) then false else skip);
      var rest := Rewrite(m, a[1..], k, block, if IsEnd(m, a[0], k) then false else skip);
      assert ([a[0]] + rest)[1..] == rest;
    }
  }

  /** A block's first line stays first when another kind is rewritten in it. */
  lemma RewriteKeepsHead(m: Marks, j: Kind, a: seq<string>, k: Kind, block: seq<string>)
    requires Separate(m) && j != k && a != [] && IsBegin(m, a[0], j)
    ensures var r := Rewrite(m, a, k, block, false); r != [] && r[0] == a[0] && DropTo(m, r, j) == r
  {
  }

  /** The text of block `j` is still what follows its begin marker after `k` went in. */
  ghost predicate Harmless(m: Marks, b: Blocks, j: Kind, k: Kind)
    requires j in b && k in b
  {
    b[j] <= View(j, Rewrite(m, b[j], k, b[k], false))
  }

  /** With two blocks to restore, both come back exactly when the earlier one does not hold
      the begin marker of the later one, or the later one's text fits there. */
  lemma TwoBlocksExact(m: Marks, b: Blocks, skip: set<Kind>, j: Kind, k: Kind)
    requires Separate(m) && BlocksOk(m, b) && Earlier(j, k) && Restored(b, skip) == {j, k}
    ensures j in b && k in b
    ensures Unbroken(m, b, skip) <==> (HasBegin(m, b[j], k) ==> Harmless(m, b, j, k))
  {
    TwoTogether(m, b, skip, j, k);
    UnbrokenTwo(m, b, skip, j, k);
    if HasBegin(m, b[j], k) {
      InPlace(m, j, b[j], k, b[k]);
    } else {
      ApartIsUnbroken(m, b, skip) by {
        TwoApart(m, b, skip, j, k);
      }
    }
  }

  lemma TwoApart(m: Marks, b: Blocks, skip: set<Kind>, j: Kind, k: Kind)
    requires Earlier(j, k) && Restored(b, skip) == {j, k} && j in b && k in b && !HasBegin(m, b[j], k)
    ensures NoLater(m, b, skip)
  {
    assert forall i :: Restores(b, skip, i) <==> i in Restored(b, skip);
  }

  lemma UnbrokenTwo(m: Marks, b: Blocks, skip: set<Kind>, j: Kind, k: Kind)
    requires Restored(b, skip) == {j, k} && j in b && k in b
    ensures Unbroken(m, b, skip) <==> Whole(m, Together(m, b, skip), j, b[j]) && Whole(m, Together(m, b, skip), k, b[k])
  {
    assert forall i :: Restores(b, skip, i) <==> i in Restored(b, skip);
    assert Restores(b, skip, j) && Restores(b, skip, k);
  }

  /** The later block is whole where it went in; so is the earlier one if it still starts there. */
  lemma InPlace(m: Marks, j: Kind, a: seq<string>, k: Kind, block: seq<string>)
    requires Separate(m) && j != k && IsBlock(m, j, a) && IsBlock(m, k, block) && HasBegin(m, a, k)
    ensures var r := Rewrite(m, a, k, block, false); Whole(m, r, k, block) && (Whole(m, r, j, a) <==> a <= View(j, r))
  {
    RewriteStartsBlock(m, a, k, block, false);
    RewriteKeepsHead(m, j, a, k, block);
  }

  lemma TwoTogether(m: Marks, b: Blocks, skip: set<Kind>, j: Kind, k: Kind)
    requires BlocksOk(m, b) && Earlier(j, k) && Restored(b, skip) == {j, k}
    ensures j in b && k in b
            && Together(m, b, skip)
            == if HasBegin(m, b[j], k) then Rewrite(m, b[j], k, b[k], false) else b[j] + [""] + b[k]
  {
    assert forall i :: Restores(b, skip, i) <==> i in Restored(b, skip);
    assert IsBlock(m, j, b[j]) && IsBlock(m, k, b[k]);
    assert Restores(b, skip, OstCount) <==> OstCount in {j, k};
    assert Restores(b, skip, Fstype) <==> Fstype in {j, k};
    assert Restores(b, skip, Cluster) <==> Cluster in {j, k};
  }

  /** A block that lies whole within an earlier one does no harm. */
  lemma NestedIsHarmless(m: Marks, b: Blocks, j: Kind, k: Kind, x: seq<string>, y: seq<string>)
    requires Separate(m) && BlocksOk(m, b) && IsKept(j) && IsKept(k) && j in b && k in b
    requires b[j] == x + (b[k] + y) && NoMarks(m, x, k) && NoMarks(m, y, k) && !HasBegin(m, b[k][1..], k)
    ensures Harmless(m, b, j, k)
  {
    var t := b[k];
    assert IsBlock(m, k, t) && IsBlock(m, j, b[j]);
    RewritePast(m, x, t + y, k, t, false);
    RewriteOverItself(m, k, t, y);
    RewritePast(m, y, [], k, t, false);
    assert y + [] == y;
  }

  /** Nor does one that begins in an earlier block and runs past its end, if only these two are
      restored: what the rewrite swallows comes back with the later block's text. */
  lemma CrossingIsHarmless(m: Marks, b: Blocks, j: Kind, k: Kind, x: seq<string>, y: seq<string>)
    requires Separate(m) && BlocksOk(m, b) && IsKept(j) && IsKept(k) && j in b && k in b
    requires b[j] == x + y && NoMarks(m, x, k) && y != [] && IsBegin(m, y[0], k) && y <= b[k]
    ensures Harmless(m, b, j, k)
  {
    assert IsBlock(m, j, b[j]);
    CrossingText(m, x, y, k, b[k]);
    ViewOfStart(j, b[j], Rewrite(m, b[j], k, b[k], false));
  }

  lemma ViewOfStart(v: Kind, a: seq<string>, b: seq<string>)
    requires a <= b
    ensures View(v, a) <= View(v, b)
  {
    assert b == a + b[|a|..];
    ViewOfPrefix(v, a, b[|a|..]);
  }

  lemma CrossingText(m: Marks, x: seq<string>, y: seq<string>, k: Kind, block: seq<string>)
    requires NoMarks(m, x, k) && y != [] && IsBegin(m, y[0], k) && y <= block
    ensures x + y <= Rewrite(m, x + y, k, block, false)
  {
    RewritePast(m, x, y, k, block, false);
    var rest := Rewrite(m, y[1..], k, block, true);
    assert Rewrite(m, y, k, block, false) == block + rest;
    assert y <= block + rest;
  }

  lemma RewriteOverItself(m: Marks, k: Kind, t: seq<string>, y: seq<string>)
    requires Separate(m) && IsBlock(m, k, t) && !HasBegin(m, t[1..], k)
    ensures Rewrite(m, t + y, k, t, false) == t + Rewrite(m, y, k, t, false)
  {
    var n := |t| - 1;
    var inner, foot := t[1..n], t[n];
    forall i | 0 <= i < |inner| ensures !IsBegin(m, inner[i], k) && !IsEnd(m, inner[i], k) {
      assert inner[i] == t[1..][i] == t[i + 1];
    }
    assert t + y == [t[0]] + (inner + ([foot] + y));
    RewriteOverText(m, k, t[0], inner, foot, y, t);
  }

  lemma RewriteOverText(m: Marks, k: Kind, head: string, inner: seq<string>, foot: string, y: seq<string>,
                        block: seq<string>)
    requires Separate(m) && IsBegin(m, head, k) && NoMarks(m, inner, k) && IsEnd(m, foot, k)
    ensures Rewrite(m, [head] + (inner + ([foot] + y)), k, block, false) == block + Rewrite(m, y, k, block, false)
  {
    assert ([head] + (inner + ([foot] + y)))[1..] == inner + ([foot] + y) && ([foot] + y)[1..] == y;
    RewritePast(m, inner, [foot] + y, k, block, true);
  }

  function Begins(m: Marks, lines: seq<string>, k: Kind): nat {
    if lines == [] then 0 else (if IsBegin(m, lines[0], k) then 1 else 0) + Begins(m, lines[1..], k)
  }

  lemma {:induction false} BeginsAppend(m: Marks, a: seq<string>, b: seq<string>, k: Kind)
    ensures Begins(m, a + b, k) == Begins(m, a, k) + Begins(m, b, k)
  {
    if a == [] {
      assert a + b == b;
    } else {
      BeginsAppend(m, a[1..], b, k);
      assert (a + b)[0] == a[0] && (a + b)[1..] == a[1..] + b;
    }
  }

  lemma {:induction false} NoBegins(m: Marks, a: seq<string>, k: Kind)
    requires !HasBegin(m, a, k)
    ensures Begins(m, a, k) == 0
  {
    if a != [] {
      BeginCons(m, a, k);
      NoBegins(m, a[1..], k);
    }
  }

  /** A rewrite with a text free of `j` adds no begin marker of `j`. */
  lemma {:induction false} RewriteBegins(m: Marks, a: seq<string>, k: Kind, block: seq<string>, skip: bool, j: Kind)
    requires !HasBegin(m, block, j)
    ensures Begins(m, Rewrite(m, a, k, block, skip), j) <= Begins(m, a, j)
    decreases |a|
  {
    if a != [] {
      var s := if IsBegin(m, a[0], k) then true else if IsEnd(m, a[0], k) then false else skip;
      RewriteBegins(m, a[1..], k, block, s, j);
      var rest := Rewrite(m, a[1..], k, block, s);
      NoBegins(m, block, j);
      BeginsAppend(m, block, rest, j);
      assert ([a[0]] + rest)[1..] == rest;
    }
  }

  lemma {:induction false} DropBegins(m: Marks, a: seq<string>, k: Kind)
    ensures Begins(m, DropTo(m, a, k), k) == Begins(m, a, k)
  {
    if a != [] && !IsBegin(m, a[0], k) {
      DropBegins(m, a[1..], k);
    }
  }

  lemma {:induction false} ViewBegins(m: Marks, v: Kind, a: seq<string>, k: Kind)
    requires Separate(m)
    ensures Begins(m, View(v, a), k) == Begins(m, a, k)
  {
    if a != [] {
      ViewBegins(m, v, a[1..], k);
      ViewKeepsMarks(m, v, a, k);
      assert View(v, a)[1..] == View(v, a[1..]);
    }
  }

  lemma PrefixBegins(m: Marks, a: seq<string>, b: seq<string>, k: Kind)
    requires a <= b
    ensures Begins(m, a, k) <= Begins(m, b, k)
  {
    assert b == a + b[|a|..];
    BeginsAppend(m, a, b[|a|..], k);
  }

  /** A text with fewer begin markers than a block does not hold it whole. */
  lemma TooFewBegins(m: Marks, t: seq<string>, k: Kind, block: seq<string>)
    requires Separate(m) && Begins(m, t, k) < Begins(m, block, k)
    ensures !Whole(m, t, k, block)
  {
    DropBegins(m, t, k);
    ViewBegins(m, k, DropTo(m, t, k), k);
    if Whole(m, t, k, block) {
      PrefixBegins(m, block, View(k, DropTo(m, t, k)), k);
    }
  }

  /** After a block that was begun and not ended, the begin line of the next one is lost. */
  lemma SwallowedIsLost(m: Marks, a: seq<string>, f: seq<string>, k: Kind, c: seq<string>, j: Kind)
    requires Separate(m) && j != k && IsBlock(m, j, f) && Begun(m, a, k, false)
    requires !HasBegin(m, a, j) && !HasBegin(m, c, j)
    ensures !Whole(m, Rewrite(m, a + ([""] + f), k, c, false), j, f)
  {
    RewriteAppend(m, a, [""] + f, k, c, false);
    EmptyLineIsPlain(m, k);
    assert ([""] + f)[1..] == f;
    var tail := Rewrite(m, f[1..], k, c, true);
    assert Rewrite(m, [""] + f, k, c, true) == tail;
    RewriteBegins(m, a, k, c, false, j);
    NoBegins(m, a, j);
    RewriteBegins(m, f[1..], k, c, true, j);
    BeginsAppend(m, Rewrite(m, a, k, c, false), tail, j);
    TooFewBegins(m, Rewrite(m, a + ([""] + f), k, c, false), j, f);
  }

  /** Otherwise the two are rewritten each for itself. */
  lemma RewriteEach(m: Marks, a: seq<string>, f: seq<string>, k: Kind, c: seq<string>)
    requires Separate(m) && !Begun(m, a, k, false)
    ensures Rewrite(m, a + ([""] + f), k, c, false) == Rewrite(m, a, k, c, false) + ([""] + Rewrite(m, f, k, c, false))
  {
    RewriteAppend(m, a, [""] + f, k, c, false);
    EmptyLineIsPlain(m, k);
    assert ([""] + f)[1..] == f;
  }

  lemma SecondWhole(m: Marks, a: seq<string>, f: seq<string>, k: Kind, c: seq<string>, j: Kind)
    requires Separate(m) && j != k && IsBlock(m, j, f) && !Begun(m, a, k, false)
    requires !HasBegin(m, a, j) && !HasBegin(m, c, j)
    ensures Whole(m, Rewrite(m, a + ([""] + f), k, c, false), j, f) <==> f <= View(j, Rewrite(m, f, k, c, false))
  {
    RewriteEach(m, a, f, k, c);
    var r1, r2 := Rewrite(m, a, k, c, false), Rewrite(m, f, k, c, false);
    RewriteLines(m, a, k, c, false);
    forall i | 0 <= i < |r1| ensures !IsBegin(m, r1[i], j) {
      assert r1[i] in a || r1[i] in c;
    }
    EmptyLineIsPlain(m, j);
    DropPastBegins(m, r1, [""] + r2, j);
    DropPastBegins(m, [""], r2, j);
    RewriteKeepsHead(m, j, f, k, c);
  }

  lemma EndLineStays(m: Marks, a: seq<string>, l: string, k: Kind, c: seq<string>)
    requires !IsBegin(m, l, k) && !IsEnd(m, l, k) && !Begun(m, a + [l], k, false)
    ensures Rewrite(m, a + [l], k, c, false) == Rewrite(m, a, k, c, false) + [l]
  {
    RewriteAppend(m, a, [l], k, c, false);
    BegunAppend(m, a, [l], k, false);
    assert [l][1..] == [];
  }

  lemma {:induction false} BegunAppend(m: Marks, a: seq<string>, b: seq<string>, k: Kind, skip: bool)
    ensures Begun(m, a + b, k, skip) == Begun(m, b, k, Begun(m, a, k, skip))
    decreases |a|
  {
    if a == [] {
      assert a + b == b;
    } else {
      BegunAppend(m, a[1..], b, k, if IsBegin(m, a[0], k) then true else if IsEnd(m, a[0], k) then false else skip);
      assert (a + b)[0] == a[0] && (a + b)[1..] == a[1..] + b;
    }
  }

  lemma FirstWhole(m: Marks, j: Kind, a: seq<string>, f: seq<string>, k: Kind, c: seq<string>)
    requires Separate(m) && j != k && j != Fstype && IsBlock(m, j, a) && !Begun(m, a, k, false)
    ensures Whole(m, Rewrite(m, a + ([""] + f), k, c, false), j, a) <==> a <= Rewrite(m, a, k, c, false)
  {
    RewriteEach(m, a, f, k, c);
    var r1 := Rewrite(m, a, k, c, false);
    var r := r1 + ([""] + Rewrite(m, f, k, c, false));
    RewriteKeepsHead(m, j, a, k, c);
    assert DropTo(m, r, j) == r;
    if a <= r && |r1| < |a| {
      EndsTooSoon(m, j, a, k, c);
    }
  }

  /** The rewritten block still ends with its end marker, so it is not a shorter start of itself. */
  lemma EndsTooSoon(m: Marks, j: Kind, a: seq<string>, k: Kind, c: seq<string>)
    requires Separate(m) && j != k && IsBlock(m, j, a) && !Begun(m, a, k, false)
    ensures var r := Rewrite(m, a, k, c, false); |r| < |a| ==> !(r <= a)
  {
    var n := |a| - 1;
    var r := Rewrite(m, a, k, c, false);
    assert a == a[..n] + [a[n]];
    EndLineStays(m, a[..n], a[n], k, c);
    assert IsEnd(m, r[|r| - 1], j);
    RewriteKeepsHead(m, j, a, k, c);
    assert IsBegin(m, r[0], j);
  }

  /** With all three to restore, and the FSTYPE marker in neither of the others: they come back
      exactly when no cluster block is begun in them, or it fits in both and is ended in the
      first, for otherwise putting it back swallows the FSTYPE block. */
  lemma ThreeBlocksExact(m: Marks, b: Blocks, skip: set<Kind>)
    requires Separate(m) && BlocksOk(m, b) && Restored(b, skip) == {OstCount, Fstype, Cluster}
    ensures OstCount in b && Fstype in b && Cluster in b
    ensures !HasBegin(m, b[OstCount], Fstype) && !HasBegin(m, b[Cluster], Fstype) ==>
              (Unbroken(m, b, skip) <==>
               (HasBegin(m, b[OstCount], Cluster) || HasBegin(m, b[Fstype], Cluster) ==>
                  && Harmless(m, b, OstCount, Cluster) && Harmless(m, b, Fstype, Cluster)
                  && !Begun(m, b[OstCount], Cluster, false)))
  {
    assert forall i :: Restores(b, skip, i) <==> i in Restored(b, skip);
    assert IsBlock(m, OstCount, b[OstCount]) && IsBlock(m, Fstype, b[Fstype]) && IsBlock(m, Cluster, b[Cluster]);
    var o, f, c := b[OstCount], b[Fstype], b[Cluster];
    if !HasBegin(m, o, Fstype) && !HasBegin(m, c, Fstype) {
      if HasBegin(m, o, Cluster) || HasBegin(m, f, Cluster) {
        ThreeTogether(m, b, skip);
        ThreeWhole(m, o, f, c);
        UnbrokenThree(m, b, skip);
      } else {
        ThreeApart(m, b, skip);
        ApartIsUnbroken(m, b, skip);
      }
    }
  }

  lemma ThreeApart(m: Marks, b: Blocks, skip: set<Kind>)
    requires OstCount in b && Fstype in b && Cluster in b
    requires !HasBegin(m, b[OstCount], Fstype) && !HasBegin(m, b[OstCount], Cluster) && !HasBegin(m, b[Fstype], Cluster)
    ensures NoLater(m, b, skip)
  {
  }

  lemma UnbrokenThree(m: Marks, b: Blocks, skip: set<Kind>)
    requires Restored(b, skip) == {OstCount, Fstype, Cluster}
    ensures OstCount in b && Fstype in b && Cluster in b
    ensures var t := Together(m, b, skip);
            Unbroken(m, b, skip) <==>
              Whole(m, t, OstCount, b[OstCount]) && Whole(m, t, Fstype, b[Fstype]) && Whole(m, t, Cluster, b[Cluster])
  {
    assert forall i :: Restores(b, skip, i) <==> i in Restored(b, skip);
    assert Restores(b, skip, OstCount) && Restores(b, skip, Fstype) && Restores(b, skip, Cluster);
  }

  lemma ThreeTogether(m: Marks, b: Blocks, skip: set<Kind>)
    requires Separate(m) && BlocksOk(m, b) && Restored(b, skip) == {OstCount, Fstype, Cluster}
    ensures OstCount in b && Fstype in b && Cluster in b
    ensures !HasBegin(m, b[OstCount], Fstype)
            && (HasBegin(m, b[OstCount], Cluster) || HasBegin(m, b[Fstype], Cluster)) ==>
              Together(m, b, skip) == Rewrite(m, b[OstCount] + ([""] + b[Fstype]), Cluster, b[Cluster], false)
  {
    assert forall i :: Restores(b, skip, i) <==> i in Restored(b, skip);
    assert Restores(b, skip, OstCount) && Restores(b, skip, Fstype) && Restores(b, skip, Cluster);
    assert IsBlock(m, OstCount, b[OstCount]);
    var o, f := b[OstCount], b[Fstype];
    Assoc(o, [""], f);
    BeginAppend(m, o, [""] + f, Cluster);
    BeginAppend(m, [""], f, Cluster);
  }

  lemma ThreeWhole(m: Marks, o: seq<string>, f: seq<string>, c: seq<string>)
    requires Separate(m) && IsBlock(m, OstCount, o) && IsBlock(m, Fstype, f) && IsBlock(m, Cluster, c)
    requires !HasBegin(m, o, Fstype) && !HasBegin(m, c, Fstype) && (HasBegin(m, o, Cluster) || HasBegin(m, f, Cluster))
    ensures var t := Rewrite(m, o + ([""] + f), Cluster, c, false);
            Whole(m, t, OstCount, o) && Whole(m, t, Fstype, f) && Whole(m, t, Cluster, c) <==>
            && o <= Rewrite(m, o, Cluster, c, false) && f <= View(Fstype, Rewrite(m, f, Cluster, c, false))
            && !Begun(m, o, Cluster, false)
  {
    BeginAppend(m, o, [""] + f, Cluster);
    BeginAppend(m, [""], f, Cluster);
    RewriteStartsBlock(m, o + ([""] + f), Cluster, c, false);
    if Begun(m, o, Cluster, false) {
      SwallowedIsLost(m, o, f, Cluster, c, Fstype);
    } else {
      FirstWhole(m, OstCount, o, f, Cluster, c);
      SecondWhole(m, o, f, Cluster, c, Fstype);
    }
  }

  lemma ReadAt(m: Marks, a: seq<string>, head: string, inner: seq<string>, foot: string, rest: seq<string>, k: Kind)
    requires Separate(m) && NoMarks(m, a, k) && IsBegin(m, head, k) && NoMarks(m, inner, k) && IsEnd(m, foot, k)
    ensures Read(m, a + ([head] + (inner + ([foot] + rest))), k) == Some(View(k, [head] + (inner + [foot])))
  {
    var tail := inner + ([foot] + rest);
    DropPast(m, a, [head] + tail, k);
    TakePast(m, inner, foot, rest, k);
    assert ([head] + tail)[1..] == tail;
  }

  /** An old file in which the cluster block begins inside the OST count block and ends after
      it, with the FSTYPE block further down. */
  datatype Crossing = Crossing(
    ost: string, ostText: seq<string>, cluster: string, shared: seq<string>, ostEnd: string,
    clusterText: seq<string>, clusterEnd: string, between: seq<string>, fs: string, fsText: seq<string>, fsEnd: string)

  function FileText(f: Crossing): seq<string> {
    [f.ost] + (f.ostText + ([f.cluster] + (f.shared + ([f.ostEnd] + (f.clusterText + ([f.clusterEnd] + Below(f)))))))
  }

  function Below(f: Crossing): seq<string> { f.between + ([f.fs] + (f.fsText + [f.fsEnd])) }

  function OstPart(f: Crossing): seq<string> { [f.ost] + (f.ostText + ([f.cluster] + f.shared) + [f.ostEnd]) }

  function ClusterPart(f: Crossing): seq<string> {
    [f.cluster] + (f.shared + ([f.ostEnd] + f.clusterText) + [f.clusterEnd])
  }

  function FsPart(f: Crossing): seq<string> { [f.fs] + (f.fsText + [f.fsEnd]) }

  ghost predicate AllPlain(m: Marks, lines: seq<string>) { forall i :: 0 <= i < |lines| ==> Plain(m, lines[i]) }

  ghost predicate CrossingOk(m: Marks, f: Crossing) {
    && IsBegin(m, f.ost, OstCount) && IsEnd(m, f.ostEnd, OstCount)
    && IsBegin(m, f.cluster, Cluster) && IsEnd(m, f.clusterEnd, Cluster)
    && IsBegin(m, f.fs, Fstype) && IsEnd(m, f.fsEnd, Fstype)
    && AllPlain(m, f.ostText) && AllPlain(m, f.shared) && AllPlain(m, f.clusterText)
    && AllPlain(m, f.between) && AllPlain(m, f.fsText)
  }

  lemma PlainHasNoMarks(m: Marks, lines: seq<string>, k: Kind)
    requires AllPlain(m, lines)
    ensures NoMarks(m, lines, k)
  {
  }

  lemma FillersHaveNoMarks(m: Marks, f: Crossing, k: Kind)
    requires CrossingOk(m, f)
    ensures NoMarks(m, f.ostText, k) && NoMarks(m, f.shared, k) && NoMarks(m, f.clusterText, k)
    ensures NoMarks(m, f.between, k) && NoMarks(m, f.fsText, k)
  {
    PlainHasNoMarks(m, f.ostText, k);
    PlainHasNoMarks(m, f.shared, k);
    PlainHasNoMarks(m, f.clusterText, k);
    PlainHasNoMarks(m, f.between, k);
    PlainHasNoMarks(m, f.fsText, k);
  }

  lemma CrossedOst(m: Marks, f: Crossing)
    requires Separate(m) && CrossingOk(m, f)
    ensures Read(m, FileText(f), OstCount) == Some(OstPart(f))
  {
    FillersHaveNoMarks(m, f, OstCount);
    var inner, rest := f.ostText + ([f.cluster] + f.shared), f.clusterText + ([f.clusterEnd] + Below(f));
    ReadAt(m, [], f.ost, inner, f.ostEnd, rest, OstCount);
    Regroup1(f.ost, f.ostText, f.cluster, f.shared, f.ostEnd, rest);
  }

  lemma Regroup1(o: string, x: seq<string>, c: string, y: seq<string>, o': string, rest: seq<string>)
    ensures [] + ([o] + (x + ([c] + y) + ([o'] + rest))) == [o] + (x + ([c] + (y + ([o'] + rest))))
  {
  }

  lemma CrossedCluster(m: Marks, f: Crossing)
    requires Separate(m) && CrossingOk(m, f)
    ensures Read(m, FileText(f), Cluster) == Some(ClusterPart(f))
  {
    FillersHaveNoMarks(m, f, Cluster);
    ReadAt(m, [f.ost] + f.ostText, f.cluster, f.shared + ([f.ostEnd] + f.clusterText), f.clusterEnd, Below(f), Cluster);
    Regroup2([f.ost] + f.ostText, f.cluster, f.shared, f.ostEnd, f.clusterText, f.clusterEnd, Below(f));
    Assoc([f.ost], f.ostText, [f.cluster] + (f.shared + ([f.ostEnd] + (f.clusterText + ([f.clusterEnd] + Below(f))))));
  }

  lemma Regroup2(a: seq<string>, c: string, y: seq<string>, o': string, z: seq<string>, c': string, rest: seq<string>)
    ensures a + ([c] + (y + ([o'] + z) + ([c'] + rest))) == a + ([c] + (y + ([o'] + (z + ([c'] + rest)))))
  {
  }

  /** The lines above the FSTYPE block. */
  function Above(f: Crossing): seq<string> {
    [f.ost] + f.ostText + [f.cluster] + f.shared + [f.ostEnd] + f.clusterText + [f.clusterEnd] + f.between
  }

  lemma CrossedFstype(m: Marks, f: Crossing)
    requires Separate(m) && CrossingOk(m, f)
    ensures Read(m, FileText(f), Fstype) == Some(View(Fstype, FsPart(f)))
  {
    FillersHaveNoMarks(m, f, Fstype);
    ReadAt(m, Above(f), f.fs, f.fsText, f.fsEnd, [], Fstype);
    AboveThenBelow(f);
    assert [f.fsEnd] + [] == [f.fsEnd];
  }

  lemma AboveThenBelow(f: Crossing)
    ensures Above(f) + FsPart(f) == FileText(f)
  {
    var rest := f.between + FsPart(f);
    Assoc([f.ost] + f.ostText + [f.cluster] + f.shared + [f.ostEnd] + f.clusterText + [f.clusterEnd], f.between,
      FsPart(f));
    SixParts([f.ost], f.ostText, [f.cluster], f.shared, [f.ostEnd], f.clusterText, [f.clusterEnd], rest);
  }

  lemma SixParts(a: seq<string>, b: seq<string>, c: seq<string>, d: seq<string>, e: seq<string>, g: seq<string>,
                 h: seq<string>, rest: seq<string>)
    ensures a + b + c + d + e + g + h + rest == a + (b + (c + (d + (e + (g + (h + rest))))))
  {
  }

  /** From every such file, and onto every new one, the FSTYPE block does not come back. */
  lemma OverlappingBlocksLoseOne(m: Marks, f: Crossing, lines: seq<string>)
    requires Separate(m) && CrossingOk(m, f) && KeepsNone(m, lines)
    ensures var was := FileText(f);
            && Read(m, was, Fstype).Some?
            && Read(m, RestoreAll(m, lines, Kept(m, was), {}), Fstype) != Read(m, was, Fstype)
  {
    CrossedOst(m, f);
    CrossedCluster(m, f);
    CrossedFstype(m, f);
    FillersHaveNoMarks(m, f, Fstype);
    FillersHaveNoMarks(m, f, Cluster);
    CrossedIsBegun(m, f.ost, f.ostText, f.cluster, f.shared, f.ostEnd);
    NoMarksAround(m, f.ost, f.ostText + ([f.cluster] + f.shared), f.ostEnd, Fstype);
    NoMarksAround(m, f.cluster, f.shared + ([f.ostEnd] + f.clusterText), f.clusterEnd, Fstype);
    BegunLosesFstype(m, FileText(f), lines);
  }

  lemma NoMarksAround(m: Marks, head: string, inner: seq<string>, foot: string, k: Kind)
    requires !IsBegin(m, head, k) && !IsBegin(m, foot, k) && NoMarks(m, inner, k)
    ensures !HasBegin(m, [head] + (inner + [foot]), k)
  {
  }

  lemma CrossedIsBegun(m: Marks, o: string, x: seq<string>, c: string, y: seq<string>, o': string)
    requires Separate(m) && IsBegin(m, o, OstCount) && IsEnd(m, o', OstCount) && IsBegin(m, c, Cluster)
             && NoMarks(m, x, Cluster) && NoMarks(m, y, Cluster)
    ensures Begun(m, [o] + (x + ([c] + y) + [o']), Cluster, false) && HasBegin(m, [o] + (x + ([c] + y) + [o']), Cluster)
  {
    var head, tail := [o] + x, y + [o'];
    assert [o] + (x + ([c] + y) + [o']) == head + ([c] + tail);
    BegunAppend(m, head, [c] + tail, Cluster, false);
    assert ([c] + tail)[1..] == tail;
    BegunPast(m, tail, Cluster, true);
    assert (head + ([c] + tail))[|head|] == c;
  }

  lemma {:induction false} BegunPast(m: Marks, a: seq<string>, k: Kind, skip: bool)
    requires NoMarks(m, a, k)
    ensures Begun(m, a, k, skip) == skip
  {
    if a != [] {
      BegunPast(m, a[1..], k, skip);
    }
  }

  /** A cluster block begun and not ended in the OST count block loses the FSTYPE block that
      lies outside of both. */
  lemma BegunLosesFstype(m: Marks, was: seq<string>, lines: seq<string>)
    requires Separate(m) && KeepsNone(m, lines)
    requires Read(m, was, OstCount).Some? && Read(m, was, Fstype).Some? && Read(m, was, Cluster).Some?
    requires var o, c := Read(m, was, OstCount).value, Read(m, was, Cluster).value;
             !HasBegin(m, o, Fstype) && !HasBegin(m, c, Fstype) && Begun(m, o, Cluster, false)
               && HasBegin(m, o, Cluster)
    ensures Read(m, RestoreAll(m, lines, Kept(m, was), {}), Fstype) != Read(m, was, Fstype)
  {
    AllThreeKept(m, was);
    KeptIsOk(m, was);
    LosesFstype(m, Kept(m, was), lines);
  }

  lemma AllThreeKept(m: Marks, was: seq<string>)
    requires Read(m, was, OstCount).Some? && Read(m, was, Fstype).Some? && Read(m, was, Cluster).Some?
    ensures var b := Kept(m, was);
            && Restored(b, {}) == {OstCount, Fstype, Cluster} && OstCount in b && Fstype in b && Cluster in b
            && b[OstCount] == Read(m, was, OstCount).value && b[Fstype] == Read(m, was, Fstype).value
            && b[Cluster] == Read(m, was, Cluster).value
  {
    assert OstCount in KEPT && Fstype in KEPT && Cluster in KEPT;
  }

  lemma LosesFstype(m: Marks, b: Blocks, lines: seq<string>)
    requires Separate(m) && BlocksOk(m, b) && KeepsNone(m, lines) && Restored(b, {}) == {OstCount, Fstype, Cluster}
    requires OstCount in b && Fstype in b && Cluster in b
    requires !HasBegin(m, b[OstCount], Fstype) && !HasBegin(m, b[Cluster], Fstype)
    requires Begun(m, b[OstCount], Cluster, false) && HasBegin(m, b[OstCount], Cluster)
    ensures Read(m, RestoreAll(m, lines, b, {}), Fstype) != Some(b[Fstype])
  {
    assert IsBlock(m, Fstype, b[Fstype]);
    ThreeTogether(m, b, {});
    SwallowedIsLost(m, b[OstCount], b[Fstype], Cluster, b[Cluster], Fstype);
    ReadAfterRestore(m, b, {}, lines, Fstype);
    ReadIsPrefix(m, RestoreAll(m, lines, b, {}), Fstype, b[Fstype]);
  }

  // ---- as edits ---------------------------------------------------------------------------------------------

  function RestoreEdit(segs: map<Kind, Seg>, skip: set<Kind>, k: Kind): seq<Edit> {
    if k in skip || k !in segs then [] else [Restore(segs[k])]
  }

  function RestoreEdits(segs: map<Kind, Seg>, skip: set<Kind>): seq<Edit> {
    RestoreEdit(segs, skip, OstCount) + RestoreEdit(segs, skip, Fstype) + RestoreEdit(segs, skip, Cluster)
  }

  function Texts(segs: map<Kind, Seg>): Blocks { map k | k in segs :: SegLines(segs[k]) }

  lemma {:induction false} ApplyAllAppend(m: Marks, a: seq<Edit>, b: seq<Edit>, lines: seq<string>)
    ensures ApplyAll(m, a + b, lines) == ApplyAll(m, b, ApplyAll(m, a, lines))
    decreases |b|
  {
    if b == [] {
      assert a + b == a;
    } else {
      var n := |b| - 1;
      ApplyAllAppend(m, a, b[..n], lines);
      assert (a + b)[..|a + b| - 1] == a + b[..n];
    }
  }

  lemma RestoreEditPuts(m: Marks, segs: map<Kind, Seg>, skip: set<Kind>, k: Kind, lines: seq<string>)
    requires k in segs ==> IsKind(segs[k], k)
    ensures ApplyAll(m, RestoreEdit(segs, skip, k), lines) == Put(m, lines, Texts(segs), skip, k)
  {
    var es := RestoreEdit(segs, skip, k);
    if es != [] {
      assert es[..0] == [];
    }
  }

  /** Restoring whole blocks is a run of edits, so every result about runs of edits is one about
      redeployed files too. */
  lemma RestoreIsARunOfEdits(m: Marks, segs: map<Kind, Seg>, skip: set<Kind>, lines: seq<string>)
    requires forall k :: k in segs ==> IsKind(segs[k], k)
    ensures RestoreAll(m, lines, Texts(segs), skip) == ApplyAll(m, RestoreEdits(segs, skip), lines)
  {
    var e1, e2, e3 := RestoreEdit(segs, skip, OstCount), RestoreEdit(segs, skip, Fstype),
      RestoreEdit(segs, skip, Cluster);
    ApplyAllAppend(m, e1 + e2, e3, lines);
    ApplyAllAppend(m, e1, e2, lines);
    RestoreEditPuts(m, segs, skip, OstCount, lines);
    RestoreEditPuts(m, segs, skip, Fstype, ApplyAll(m, e1, lines));
    RestoreEditPuts(m, segs, skip, Cluster, ApplyAll(m, e2, ApplyAll(m, e1, lines)));
  }
}
