/** make-install and make-uninstall: a staging tree merged into the root, and taken out again
    by the manifest of what was put there. */
module Install {
  import opened FileTree

  // ---- installing -----------------------------------------------------------------------

  const MARK := ".ltvm-"

  /** Build bookkeeping at the top of the staging tree is not installed. */
  predicate Ships(p: Path) { p != [] && !(MARK <= p[0]) }

  function Shipped(staging: Tree): Tree { map p | p in staging && Ships(p) :: staging[p] }

  function Installed(root: Tree, staging: Tree): Tree { root + Shipped(staging) }

  /** Directories meet directories, and other entries meet other entries. */
  predicate Mergeable(root: Tree, staging: Tree) {
    forall p :: p in root && p in staging && Ships(p) ==> (root[p] == Dir <==> staging[p] == Dir)
  }

  lemma InstalledIsWellFormed(root: Tree, staging: Tree)
    requires WellFormed(root) && WellFormed(staging) && Mergeable(root, staging)
    ensures WellFormed(Installed(root, staging))
  {
    var t := Installed(root, staging);
    forall p | p in t ensures PathOk(p) && ParentOk(t, p) {
      if p in Shipped(staging) {
        assert ParentOk(staging, p);
        assert |p| > 1 ==> p[..|p| - 1][0] == p[0];
      } else {
        assert ParentOk(root, p);
      }
    }
  }

  /** tar's stream: every shipped entry, each after its directory. */
  ghost predicate IsArchive(staging: Tree, archive: seq<Path>) {
    && (forall p :: p in archive <==> p in Shipped(staging))
    && forall i :: 0 <= i < |archive| && |archive[i]| > 1 ==> archive[i][..|archive[i]| - 1] in archive[..i]
  }

  /** The root after the first `n` entries. */
  function Extracted(root: Tree, staging: Tree, archive: seq<Path>, n: nat): Tree
    requires n <= |archive| && forall i :: 0 <= i < |archive| ==> archive[i] in staging
  {
    if n == 0 then root else Extracted(root, staging, archive, n - 1)[archive[n - 1] := staging[archive[n - 1]]]
  }

  lemma {:induction false} ExtractedEntries(root: Tree, staging: Tree, archive: seq<Path>, n: nat, p: Path)
    requires n <= |archive| && forall i :: 0 <= i < |archive| ==> archive[i] in staging
    ensures var t := Extracted(root, staging, archive, n);
            && (p in t <==> p in root || p in archive[..n])
            && (p in archive[..n] ==> p in staging && t[p] == staging[p])
            && (p in root && p !in archive[..n] ==> t[p] == root[p])
  {
    if n > 0 {
      ExtractedEntries(root, staging, archive, n - 1, p);
      assert archive[..n] == archive[..n - 1] + [archive[n - 1]];
    }
  }

  /** At every point of the extraction there is a tree, entries outside the staging tree are
      untouched, and in the end it is the merged tree. */
  lemma ExtractionIsOrderly(root: Tree, staging: Tree, archive: seq<Path>, n: nat)
    requires WellFormed(root) && WellFormed(staging) && Mergeable(root, staging) && IsArchive(staging, archive)
             && n <= |archive|
    ensures forall i :: 0 <= i < |archive| ==> archive[i] in staging
    ensures var t := Extracted(root, staging, archive, n);
            && WellFormed(t)
            && (forall p :: p in root && p !in Shipped(staging) ==> p in t && t[p] == root[p])
            && (forall p :: p in t && p !in root ==> p in Shipped(staging) && t[p] == staging[p])
            && (n == |archive| ==> t == Installed(root, staging))
  {
    ArchiveIsShipped(staging, archive);
    var t := Extracted(root, staging, archive, n);
    forall p | p in t ensures PathOk(p) && ParentOk(t, p) {
      ExtractedParent(root, staging, archive, n, p);
    }
    forall p | p in root && p !in Shipped(staging) ensures p in t && t[p] == root[p] {
      ExtractedEntries(root, staging, archive, n, p);
      PrefixIn(archive, n, p);
    }
    forall p | p in t && p !in root ensures p in Shipped(staging) && t[p] == staging[p] {
      ExtractedEntries(root, staging, archive, n, p);
      PrefixIn(archive, n, p);
    }
    if n == |archive| {
      ExtractedAll(root, staging, archive);
    }
  }

  lemma ArchiveIsShipped(staging: Tree, archive: seq<Path>)
    requires IsArchive(staging, archive)
    ensures forall i :: 0 <= i < |archive| ==> archive[i] in staging
  {
    assert forall i :: 0 <= i < |archive| ==> archive[i] in archive;
  }

  lemma PrefixIn(archive: seq<Path>, n: nat, p: Path)
    requires n <= |archive|
    ensures p in archive[..n] ==> p in archive
  {
  }

  lemma ExtractedAll(root: Tree, staging: Tree, archive: seq<Path>)
    requires IsArchive(staging, archive) && forall i :: 0 <= i < |archive| ==> archive[i] in staging
    ensures Extracted(root, staging, archive, |archive|) == Installed(root, staging)
  {
    var t, u := Extracted(root, staging, archive, |archive|), Installed(root, staging);
    assert archive[..|archive|] == archive;
    forall p ensures (p in t <==> p in u) && (p in t ==> t[p] == u[p]) {
      ExtractedEntries(root, staging, archive, |archive|, p);
    }
  }

  lemma ExtractedParent(root: Tree, staging: Tree, archive: seq<Path>, n: nat, p: Path)
    requires WellFormed(root) && WellFormed(staging) && Mergeable(root, staging) && IsArchive(staging, archive)
             && n <= |archive|
    requires forall i :: 0 <= i < |archive| ==> archive[i] in staging
    requires p in Extracted(root, staging, archive, n)
    ensures PathOk(p) && ParentOk(Extracted(root, staging, archive, n), p)
  {
    ExtractedEntries(root, staging, archive, n, p);
    if |p| > 1 {
      var up := p[..|p| - 1];
      ExtractedEntries(root, staging, archive, n, up);
      if p in archive[..n] {
        var i :| 0 <= i < n && archive[i] == p;
        assert up in archive[..i] && archive[..i] <= archive[..n];
        assert ParentOk(staging, p);
      } else {
        assert ParentOk(root, p);
        assert up in archive[..n] ==> up in Shipped(staging);
      }
    }
  }

  // ---- the manifest -----------------------------------------------------------------------

  function FileNames(staging: Tree): set<string> {
    set p | p in staging && staging[p].File? && !(MARK <= Name(p)) :: Name(p)
  }

  /** Links to directories are walked as directories. */
  function DirNames(staging: Tree): set<string> {
    set p | p in staging && !staging[p].File? :: Name(p)
  }

  predicate DeepestFirst(dirs: seq<string>) {
    forall i, j :: 0 <= i < j < |dirs| ==> |Parts(dirs[i])| >= |Parts(dirs[j])|
  }

  ghost predicate IsManifest(staging: Tree, files: seq<string>, dirs: seq<string>) {
    && (forall n :: n in files <==> n in FileNames(staging))
    && (forall n :: n in dirs <==> n in DirNames(staging))
    && DeepestFirst(dirs)
  }

  // ---- removing files ---------------------------------------------------------------------

  predicate Target(t: Tree, rel: string) { Safe(rel) && Parts(rel) in t && t[Parts(rel)] != Dir }

  /** What rm takes away, when it fails on the paths in `stuck`. */
  function Taken(t: Tree, files: seq<string>, stuck: set<Path>): set<Path> {
    set rel | rel in files && Target(t, rel) && Parts(rel) !in stuck :: Parts(rel)
  }

  function WithoutFiles(t: Tree, files: seq<string>, stuck: set<Path>): Tree { t - Taken(t, files, stuck) }

  predicate Survives(t: Tree, rel: string) { Safe(rel) && Parts(rel) in t }

  // ---- pruning directories -------------------------------------------------------------------

  /** A manifest entry that may be pruned: a safe name that is not protected. */
  predicate Open(never: set<string>, rel: string) { Safe(rel) && rel !in never }

  predicate Prunes(never: set<string>, t: Tree, rel: string) {
    Open(never, rel) && Parts(rel) in t && t[Parts(rel)] == Dir && HoldsNothing(t, Parts(rel))
  }

  function PruneOne(never: set<string>, t: Tree, rel: string): Tree {
    if Prunes(never, t, rel) then t - {Parts(rel)} else t
  }

  function PruneAll(never: set<string>, t: Tree, dirs: seq<string>): Tree {
    if dirs == [] then t else PruneOne(never, PruneAll(never, t, dirs[..|dirs| - 1]), dirs[|dirs| - 1])
  }

  /** A directory the manifest lists and leaves open for pruning. */
  predicate Listed(never: set<string>, dirs: seq<string>, p: Path) {
    exists i :: 0 <= i < |dirs| && Open(never, dirs[i]) && Parts(dirs[i]) == p
  }

  /** Listed, and so is everything below it, with nothing but directories there. */
  predicate Goes(never: set<string>, t: Tree, dirs: seq<string>, p: Path) {
    && p in t && t[p] == Dir && Listed(never, dirs, p)
    && forall q :: q in t && Below(p, q) ==> t[q] == Dir && Listed(never, dirs, q)
  }

  /** A directory goes exactly when it is listed and each entry in it goes. */
  lemma GoesByChildren(never: set<string>, t: Tree, dirs: seq<string>, p: Path)
    requires WellFormed(t) && p in t && t[p] == Dir && Listed(never, dirs, p)
    ensures Goes(never, t, dirs, p) <==> forall q :: q in t && ChildOf(p, q) ==> Goes(never, t, dirs, q)
  {
    if Goes(never, t, dirs, p) {
      forall q | q in t && ChildOf(p, q) ensures Goes(never, t, dirs, q) {
        assert Below(p, q);
        forall r | r in t && Below(q, r) ensures t[r] == Dir && Listed(never, dirs, r) {
          assert r[..|p|] == r[..|q|][..|p|];
          assert Below(p, r);
        }
      }
    }
    if forall q :: q in t && ChildOf(p, q) ==> Goes(never, t, dirs, q) {
      forall q | q in t && Below(p, q) ensures t[q] == Dir && Listed(never, dirs, q) {
        WayDown(t, p, q);
        var c := q[..|p| + 1];
        assert Goes(never, t, dirs, c);
        assert |q| == |p| + 1 ==> c == q;
      }
    }
  }

  /** What is gone after the first `n` entries of a deepest-first manifest. */
  predicate GoneBy(never: set<string>, t: Tree, dirs: seq<string>, n: nat, p: Path)
    requires n <= |dirs|
  {
    Goes(never, t, dirs, p) && Listed(never, dirs[..n], p)
  }

  function PrunedBy(never: set<string>, t: Tree, dirs: seq<string>, n: nat): Tree
    requires n <= |dirs|
  {
    map p | p in t && !GoneBy(never, t, dirs, n, p) :: t[p]
  }

  lemma ListedGrows(never: set<string>, dirs: seq<string>, n: nat, p: Path)
    requires n < |dirs|
    ensures Listed(never, dirs[..n + 1], p) <==>
            Listed(never, dirs[..n], p) || (Open(never, dirs[n]) && Parts(dirs[n]) == p)
  {
    var a, b := dirs[..n], dirs[..n + 1];
    assert b == a + [dirs[n]];
    if Listed(never, a, p) {
      var i :| 0 <= i < |a| && Open(never, a[i]) && Parts(a[i]) == p;
      assert b[i] == a[i];
    }
    if Open(never, dirs[n]) && Parts(dirs[n]) == p {
      assert b[n] == dirs[n];
    }
    if Listed(never, b, p) {
      var i :| 0 <= i < |b| && Open(never, b[i]) && Parts(b[i]) == p;
      if i < n {
        assert a[i] == b[i];
      }
    }
  }

  /** When an entry's turn comes, everything deeper has had its own. */
  lemma DeeperIsDone(never: set<string>, dirs: seq<string>, n: nat, q: Path)
    requires n < |dirs| && DeepestFirst(dirs) && Listed(never, dirs, q) && |q| > |Parts(dirs[n])|
    ensures Listed(never, dirs[..n], q)
  {
    var i :| 0 <= i < |dirs| && Open(never, dirs[i]) && Parts(dirs[i]) == q;
    assert i < n;
    assert dirs[..n][i] == dirs[i];
  }

  lemma EmptyWhenItsTurn(never: set<string>, t: Tree, dirs: seq<string>, n: nat)
    requires WellFormed(t) && n < |dirs| && DeepestFirst(dirs)
    requires var p := Parts(dirs[n]); Open(never, dirs[n]) && p in t && t[p] == Dir
    ensures HoldsNothing(PrunedBy(never, t, dirs, n), Parts(dirs[n])) <==> Goes(never, t, dirs, Parts(dirs[n]))
  {
    var p, now := Parts(dirs[n]), PrunedBy(never, t, dirs, n);
    assert Listed(never, dirs, p);
    GoesByChildren(never, t, dirs, p);
    if Goes(never, t, dirs, p) {
      forall q | q in t && ChildOf(p, q) ensures q !in now {
        assert Goes(never, t, dirs, q);
        DeeperIsDone(never, dirs, n, q);
      }
    }
    if HoldsNothing(now, p) {
      forall q | q in t && ChildOf(p, q) ensures Goes(never, t, dirs, q) {
        assert q !in now;
      }
    }
  }

  lemma GoneGrows(never: set<string>, t: Tree, dirs: seq<string>, n: nat, p: Path)
    requires n < |dirs|
    ensures GoneBy(never, t, dirs, n + 1, p) <==>
            GoneBy(never, t, dirs, n, p) || (Goes(never, t, dirs, p) && Open(never, dirs[n]) && Parts(dirs[n]) == p)
  {
    ListedGrows(never, dirs, n, p);
  }

  lemma NotItsTurn(never: set<string>, t: Tree, dirs: seq<string>, n: nat)
    requires n < |dirs| && !(Open(never, dirs[n]) && Goes(never, t, dirs, Parts(dirs[n])))
    ensures PrunedBy(never, t, dirs, n + 1) == PrunedBy(never, t, dirs, n)
  {
    forall p ensures GoneBy(never, t, dirs, n + 1, p) <==> GoneBy(never, t, dirs, n, p) {
      GoneGrows(never, t, dirs, n, p);
    }
  }

  lemma ItsTurn(never: set<string>, t: Tree, dirs: seq<string>, n: nat)
    requires n < |dirs| && Open(never, dirs[n]) && Goes(never, t, dirs, Parts(dirs[n]))
    ensures PrunedBy(never, t, dirs, n + 1) == PrunedBy(never, t, dirs, n) - {Parts(dirs[n])}
  {
    forall p ensures GoneBy(never, t, dirs, n + 1, p) <==> GoneBy(never, t, dirs, n, p) || p == Parts(dirs[n]) {
      GoneGrows(never, t, dirs, n, p);
    }
  }

  lemma StepIsExact(never: set<string>, t: Tree, dirs: seq<string>, n: nat)
    requires WellFormed(t) && DeepestFirst(dirs) && n < |dirs|
    ensures PruneOne(never, PrunedBy(never, t, dirs, n), dirs[n]) == PrunedBy(never, t, dirs, n + 1)
  {
    var p, now := Parts(dirs[n]), PrunedBy(never, t, dirs, n);
    if Open(never, dirs[n]) && p in t && t[p] == Dir {
      EmptyWhenItsTurn(never, t, dirs, n);
    }
    if Open(never, dirs[n]) && Goes(never, t, dirs, p) {
      ItsTurn(never, t, dirs, n);
      assert p !in now ==> now - {p} == now;
    } else {
      NotItsTurn(never, t, dirs, n);
    }
  }

  /** One deepest-first pass removes exactly the directories that go: what is open for
      pruning and holds, at any depth, nothing that stays. */
  lemma {:induction false} PruneIsExact(never: set<string>, t: Tree, dirs: seq<string>, n: nat)
    requires WellFormed(t) && DeepestFirst(dirs) && n <= |dirs|
    ensures PruneAll(never, t, dirs[..n]) == PrunedBy(never, t, dirs, n)
  {
    if n > 0 {
      PruneIsExact(never, t, dirs, n - 1);
      assert dirs[..n][..n - 1] == dirs[..n - 1] && dirs[..n][n - 1] == dirs[n - 1];
      StepIsExact(never, t, dirs, n - 1);
    } else {
      assert PrunedBy(never, t, dirs, 0) == t;
    }
  }
}
