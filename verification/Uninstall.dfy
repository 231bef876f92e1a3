/** What an uninstall leaves of an install: the round trip through the manifest. */
module Uninstall {
  import opened FileTree
  import opened Install

  /** A file of the staging tree that the uninstall will remove. */
  predicate Removable(staging: Tree, p: Path) {
    p in staging && Ships(p) && staging[p].File? && p[0] != "" && p[0][0] != '-'
  }

  lemma MarkIsPlain()
    ensures '/' !in MARK
  {
  }

  lemma FileListed(staging: Tree, files: seq<string>, dirs: seq<string>, p: Path)
    requires WellFormed(staging) && IsManifest(staging, files, dirs) && PathOk(p)
    ensures Name(p) in files <==> p in staging && Ships(p) && staging[p].File?
  {
    MarkIsPlain();
    PrefixOfName(MARK, p);
    if Name(p) in files {
      var q :| q in staging && staging[q].File? && !(MARK <= Name(q)) && Name(q) == Name(p);
      PartsOfName(p);
      PartsOfName(q);
    }
  }

  /** rm takes exactly the removable files. */
  lemma TakenExactly(staging: Tree, files: seq<string>, dirs: seq<string>, t: Tree, p: Path)
    requires WellFormed(staging) && IsManifest(staging, files, dirs) && WellFormed(t)
    ensures p in Taken(t, files, {}) <==> p in t && t[p] != Dir && Removable(staging, p)
  {
    if p in Taken(t, files, {}) {
      var rel :| rel in files && Target(t, rel) && Parts(rel) == p;
      var q :| q in staging && staging[q].File? && !(MARK <= Name(q)) && Name(q) == rel;
      PartsOfName(q);
      SafeNames(q);
      FileListed(staging, files, dirs, q);
    }
    if p in t && t[p] != Dir && Removable(staging, p) {
      FileListed(staging, files, dirs, p);
      PartsOfName(p);
      SafeNames(p);
      assert Target(t, Name(p));
    }
  }

  function AfterFiles(root: Tree, staging: Tree, files: seq<string>): Tree {
    WithoutFiles(Installed(root, staging), files, {})
  }

  function AfterUninstall(never: set<string>, root: Tree, staging: Tree, files: seq<string>, dirs: seq<string>): Tree {
    PruneAll(never, AfterFiles(root, staging, files), dirs)
  }

  lemma TakingLeavesIsWellFormed(t: Tree, gone: set<Path>)
    requires WellFormed(t) && forall p :: p in gone && p in t ==> t[p] != Dir
    ensures WellFormed(t - gone)
  {
    forall p | p in t - gone ensures PathOk(p) && ParentOk(t - gone, p) {
      assert ParentOk(t, p);
    }
  }

  lemma AfterFilesIs(root: Tree, staging: Tree, files: seq<string>, dirs: seq<string>)
    requires WellFormed(root) && WellFormed(staging) && Mergeable(root, staging) && IsManifest(staging, files, dirs)
    ensures WellFormed(AfterFiles(root, staging, files))
    ensures forall p :: p in AfterFiles(root, staging, files) <==>
            p in Installed(root, staging) && !Removable(staging, p)
  {
    var t := Installed(root, staging);
    InstalledIsWellFormed(root, staging);
    forall p ensures p in Taken(t, files, {}) <==> p in t && Removable(staging, p) {
      TakenExactly(staging, files, dirs, t, p);
    }
    TakingLeavesIsWellFormed(t, Taken(t, files, {}));
  }

  /** Pruning takes directories only. */
  lemma PruneKeepsLeaves(never: set<string>, t: Tree, dirs: seq<string>)
    requires WellFormed(t) && DeepestFirst(dirs)
    ensures Leaves(PruneAll(never, t, dirs)) == Leaves(t)
  {
    PruneIsExact(never, t, dirs, |dirs|);
    assert dirs[..|dirs|] == dirs;
    var u := PrunedBy(never, t, dirs, |dirs|);
    forall p | p in t && t[p] != Dir ensures p in u { }
  }

  // ---- files -----------------------------------------------------------------------------

  /** Nothing is overwritten, except by what stays and was there before, just the same. */
  predicate NothingLost(root: Tree, staging: Tree) {
    forall p :: p in staging && Ships(p) && staging[p] != Dir ==>
      if Removable(staging, p) then p !in root else p in root && root[p] == staging[p]
  }

  lemma LeavesAfterFiles(root: Tree, staging: Tree, files: seq<string>, dirs: seq<string>)
    requires WellFormed(root) && WellFormed(staging) && Mergeable(root, staging) && IsManifest(staging, files, dirs)
    ensures Leaves(AfterFiles(root, staging, files)) == Leaves(root) <==> NothingLost(root, staging)
  {
    AfterFilesIs(root, staging, files, dirs);
    var u := AfterFiles(root, staging, files);
    if Leaves(u) == Leaves(root) {
      forall p | p in staging && Ships(p) && staging[p] != Dir
        ensures if Removable(staging, p) then p !in root else p in root && root[p] == staging[p]
      {
        SameLeaf(u, root, p);
      }
    }
    if NothingLost(root, staging) {
      forall p ensures (p in u && u[p] != Dir <==> p in root && root[p] != Dir)
        && (p in u && u[p] != Dir ==> u[p] == root[p]) {
        assert p in staging && Ships(p) && staging[p] != Dir ==>
          if Removable(staging, p) then p !in root else p in root;
      }
      assert Leaves(u) == Leaves(root);
    }
  }

  lemma SameLeaf(t: Tree, u: Tree, p: Path)
    requires Leaves(t) == Leaves(u)
    ensures p in t && t[p] != Dir <==> p in u && u[p] != Dir
    ensures p in t && t[p] != Dir && p in u ==> t[p] == u[p]
  {
    assert p in Leaves(t) <==> p in Leaves(u);
    assert p in Leaves(t) ==> Leaves(t)[p] == Leaves(u)[p];
  }

  /** For every root and staging tree: the uninstall restores the root's files exactly when
      the install overwrote none of them and shipped nothing that the manifest cannot remove
      (links to directories, names rm would take for options). */
  lemma FilesAreRestored(never: set<string>, root: Tree, staging: Tree, files: seq<string>, dirs: seq<string>)
    requires WellFormed(root) && WellFormed(staging) && Mergeable(root, staging) && IsManifest(staging, files, dirs)
    ensures Leaves(AfterUninstall(never, root, staging, files, dirs)) == Leaves(root) <==> NothingLost(root, staging)
  {
    AfterFilesIs(root, staging, files, dirs);
    PruneKeepsLeaves(never, AfterFiles(root, staging, files), dirs);
    LeavesAfterFiles(root, staging, files, dirs);
  }

  /** In particular for every plain staging tree over fresh names. */
  lemma PlainTreesAreRestored(never: set<string>, root: Tree, staging: Tree, files: seq<string>, dirs: seq<string>)
    requires WellFormed(root) && WellFormed(staging) && Mergeable(root, staging) && IsManifest(staging, files, dirs)
    requires forall p :: p in staging ==> !staging[p].DirLink? && p[0] != "" && p[0][0] != '-'
    requires forall p :: p in staging && Ships(p) && staging[p] != Dir ==> p !in root
    ensures Leaves(AfterUninstall(never, root, staging, files, dirs)) == Leaves(root)
  {
    FilesAreRestored(never, root, staging, files, dirs);
  }

  /** An install that died half way is undone as well: the manifest of the whole staging tree
      takes away what had been extracted. */
  lemma PartialInstallIsUndone(never: set<string>, root: Tree, staging: Tree, archive: seq<Path>, n: nat,
                               files: seq<string>, dirs: seq<string>)
    requires WellFormed(root) && WellFormed(staging) && Mergeable(root, staging) && IsManifest(staging, files, dirs)
    requires IsArchive(staging, archive) && n <= |archive| && NothingLost(root, staging)
    ensures forall i :: 0 <= i < |archive| ==> archive[i] in staging
    ensures Leaves(PruneAll(never, WithoutFiles(Extracted(root, staging, archive, n), files, {}), dirs)) == Leaves(root)
  {
    ExtractionIsOrderly(root, staging, archive, n);
    var t := Extracted(root, staging, archive, n);
    forall p ensures p in Taken(t, files, {}) <==> p in t && t[p] != Dir && Removable(staging, p) {
      TakenExactly(staging, files, dirs, t, p);
    }
    TakingLeavesIsWellFormed(t, Taken(t, files, {}));
    PruneKeepsLeaves(never, WithoutFiles(t, files, {}), dirs);
    forall p ensures LeafAlike(WithoutFiles(t, files, {}), root, p) {
      PartialLeaf(root, staging, archive, n, p);
    }
    AlikeLeaves(WithoutFiles(t, files, {}), root);
  }

  predicate LeafAlike(t: Tree, u: Tree, p: Path) {
    (p in t && t[p] != Dir <==> p in u && u[p] != Dir) && (p in t && t[p] != Dir ==> p in u && t[p] == u[p])
  }

  lemma AlikeLeaves(t: Tree, u: Tree)
    requires forall p :: LeafAlike(t, u, p)
    ensures Leaves(t) == Leaves(u)
  {
    forall p ensures (p in Leaves(t) <==> p in Leaves(u)) && (p in Leaves(t) ==> Leaves(t)[p] == Leaves(u)[p]) {
      assert LeafAlike(t, u, p);
    }
  }

  lemma PartialLeaf(root: Tree, staging: Tree, archive: seq<Path>, n: nat, p: Path)
    requires WellFormed(staging) && Mergeable(root, staging) && NothingLost(root, staging)
             && IsArchive(staging, archive) && n <= |archive|
    requires forall i :: 0 <= i < |archive| ==> archive[i] in staging
    ensures var t := Extracted(root, staging, archive, n);
            (p in t && t[p] != Dir && !Removable(staging, p) <==> p in root && root[p] != Dir)
            && (p in t && t[p] != Dir && !Removable(staging, p) ==> t[p] == root[p])
  {
    ExtractedEntries(root, staging, archive, n, p);
    assert p in archive[..n] ==> p in archive;
    assert p in staging && Ships(p) && staging[p] != Dir ==>
             if Removable(staging, p) then p !in root else p in root && root[p] == staging[p];
  }

  // ---- directories --------------------------------------------------------------------------

  /** Whatever is pruned held nothing that stays, and no directory open for pruning is left
      empty; what is left is a tree. */
  lemma PruneIsClean(never: set<string>, t: Tree, dirs: seq<string>)
    requires WellFormed(t) && DeepestFirst(dirs)
    ensures var u := PruneAll(never, t, dirs);
            && (forall p :: p in u ==> p in t && u[p] == t[p])
            && (forall p, q :: p in t && p !in u && q in t && Below(p, q) ==> t[p] == Dir && q !in u)
            && (forall rel :: rel in dirs && Open(never, rel) && Parts(rel) in u && u[Parts(rel)] == Dir ==>
              !HoldsNothing(u, Parts(rel)))
            && WellFormed(u)
  {
    PruneIsExact(never, t, dirs, |dirs|);
    assert dirs[..|dirs|] == dirs;
    var u := PruneAll(never, t, dirs);
    forall p, q | p in t && p !in u && q in t && Below(p, q) ensures t[p] == Dir && q !in u {
      assert Goes(never, t, dirs, p);
      BelowGoes(never, t, dirs, p, q);
    }
    forall rel | rel in dirs && Open(never, rel) && Parts(rel) in u && u[Parts(rel)] == Dir
      ensures !HoldsNothing(u, Parts(rel))
    {
      var i :| 0 <= i < |dirs| && dirs[i] == rel;
      assert Listed(never, dirs, Parts(rel));
      GoesByChildren(never, t, dirs, Parts(rel));
    }
    forall p | p in u ensures PathOk(p) && ParentOk(u, p) {
      assert ParentOk(t, p);
      if |p| > 1 {
        var up := p[..|p| - 1];
        assert Below(up, p);
      }
    }
  }

  lemma BelowGoes(never: set<string>, t: Tree, dirs: seq<string>, p: Path, q: Path)
    requires Goes(never, t, dirs, p) && q in t && Below(p, q)
    ensures Goes(never, t, dirs, q)
  {
    forall r | r in t && Below(q, r) ensures t[r] == Dir && Listed(never, dirs, r) {
      assert r[..|p|] == r[..|q|][..|p|];
      assert Below(p, r);
    }
  }

  // ---- the whole tree --------------------------------------------------------------------------

  /** The directories the install brought are all open for pruning. */
  predicate NewDirsOpen(never: set<string>, root: Tree, staging: Tree) {
    forall p :: p in staging && Ships(p) && staging[p] == Dir && p !in root ==> Open(never, Name(p))
  }

  lemma DirListed(never: set<string>, staging: Tree, files: seq<string>, dirs: seq<string>, p: Path)
    requires WellFormed(staging) && IsManifest(staging, files, dirs) && PathOk(p)
    ensures Listed(never, dirs, p) <==> p in staging && !staging[p].File? && Open(never, Name(p))
  {
    PartsOfName(p);
    if Listed(never, dirs, p) {
      var i :| 0 <= i < |dirs| && Open(never, dirs[i]) && Parts(dirs[i]) == p;
      assert dirs[i] in DirNames(staging);
      var q :| q in staging && !staging[q].File? && Name(q) == dirs[i];
      PartsOfName(q);
    }
    if p in staging && !staging[p].File? && Open(never, Name(p)) {
      assert Name(p) in dirs;
      var i :| 0 <= i < |dirs| && dirs[i] == Name(p);
    }
  }

  /** What is there before the prune: the root, and the directories that came with the install. */
  lemma BeforePrune(root: Tree, staging: Tree, files: seq<string>, dirs: seq<string>)
    requires WellFormed(root) && WellFormed(staging) && Mergeable(root, staging) && IsManifest(staging, files, dirs)
    requires NothingLost(root, staging)
    ensures var w := AfterFiles(root, staging, files);
            && (forall p :: p in root ==> p in w && w[p] == root[p])
            && (forall p :: p in w && p !in root ==> w[p] == Dir && p in staging && Ships(p) && staging[p] == Dir)
            && (forall p :: p in staging && Ships(p) && staging[p] == Dir ==> p in w)
  {
    AfterFilesIs(root, staging, files, dirs);
    var w := AfterFiles(root, staging, files);
    forall p | p in root ensures p in w && w[p] == root[p] {
      if p in staging && Ships(p) && staging[p] != Dir {
        assert !Removable(staging, p);
      }
    }
  }

  /** A directory of the root goes exactly when it would go without the install. */
  lemma SameGoes(never: set<string>, root: Tree, staging: Tree, files: seq<string>, dirs: seq<string>, p: Path)
    requires WellFormed(root) && WellFormed(staging) && Mergeable(root, staging) && IsManifest(staging, files, dirs)
    requires NothingLost(root, staging) && NewDirsOpen(never, root, staging) && p in root
    ensures Goes(never, AfterFiles(root, staging, files), dirs, p) <==> Goes(never, root, dirs, p)
  {
    var w := AfterFiles(root, staging, files);
    BeforePrune(root, staging, files, dirs);
    if Goes(never, root, dirs, p) {
      forall q | q in w && Below(p, q) ensures w[q] == Dir && Listed(never, dirs, q) {
        if q !in root {
          DirListed(never, staging, files, dirs, q);
        }
      }
    }
  }

  /** A directory that came with the install goes. */
  lemma NewDirGoes(never: set<string>, root: Tree, staging: Tree, files: seq<string>, dirs: seq<string>, p: Path)
    requires WellFormed(root) && WellFormed(staging) && Mergeable(root, staging) && IsManifest(staging, files, dirs)
    requires NothingLost(root, staging) && NewDirsOpen(never, root, staging)
    requires p in staging && Ships(p) && staging[p] == Dir && p !in root
    ensures Goes(never, AfterFiles(root, staging, files), dirs, p)
  {
    var w := AfterFiles(root, staging, files);
    BeforePrune(root, staging, files, dirs);
    DirListed(never, staging, files, dirs, p);
    forall q | q in w && Below(p, q) ensures w[q] == Dir && Listed(never, dirs, q) {
      if q in root {
        Ancestor(root, p, q);
      } else {
        DirListed(never, staging, files, dirs, q);
      }
    }
  }

  lemma {:induction false} Ancestor(t: Tree, p: Path, q: Path)
    requires WellFormed(t) && q in t && Below(p, q) && p != []
    ensures p in t
  {
    var up := q[..|q| - 1];
    assert ParentOk(t, q);
    assert up[..|p|] == p;
    if |up| > |p| {
      Ancestor(t, p, up);
    } else {
      assert up == p;
    }
  }

  /** The uninstall gives back the very same tree exactly when no file is lost, every new
      directory is open for pruning, and the root had no directory of the manifest that a
      prune would have taken before the install. */
  lemma TreeIsRestored(never: set<string>, root: Tree, staging: Tree, files: seq<string>, dirs: seq<string>)
    requires WellFormed(root) && WellFormed(staging) && Mergeable(root, staging) && IsManifest(staging, files, dirs)
    ensures AfterUninstall(never, root, staging, files, dirs) == root <==>
            NothingLost(root, staging) && NewDirsOpen(never, root, staging) && forall p :: p in root ==>
              !Goes(never, root, dirs, p)
  {
    var w, u := AfterFiles(root, staging, files), AfterUninstall(never, root, staging, files, dirs);
    AfterFilesIs(root, staging, files, dirs);
    FilesAreRestored(never, root, staging, files, dirs);
    PruneIsExact(never, w, dirs, |dirs|);
    assert dirs[..|dirs|] == dirs;
    if u == root {
      RestoredNeedsOpen(never, root, staging, files, dirs);
      forall p | p in root ensures !Goes(never, root, dirs, p) {
        SameGoes(never, root, staging, files, dirs, p);
      }
    }
    if NothingLost(root, staging) && NewDirsOpen(never, root, staging) && forall p :: p in root ==>
      !Goes(never, root, dirs, p) {
      BeforePrune(root, staging, files, dirs);
      forall p | p in w ensures p in u <==> p in root {
        if p in root {
          SameGoes(never, root, staging, files, dirs, p);
        } else {
          NewDirGoes(never, root, staging, files, dirs, p);
        }
      }
    }
  }

  lemma RestoredNeedsOpen(never: set<string>, root: Tree, staging: Tree, files: seq<string>, dirs: seq<string>)
    requires WellFormed(root) && WellFormed(staging) && Mergeable(root, staging) && IsManifest(staging, files, dirs)
    requires AfterUninstall(never, root, staging, files, dirs) == root
    ensures NothingLost(root, staging) && NewDirsOpen(never, root, staging)
  {
    var w := AfterFiles(root, staging, files);
    AfterFilesIs(root, staging, files, dirs);
    FilesAreRestored(never, root, staging, files, dirs);
    BeforePrune(root, staging, files, dirs);
    PruneIsExact(never, w, dirs, |dirs|);
    assert dirs[..|dirs|] == dirs;
    forall p | p in staging && Ships(p) && staging[p] == Dir && p !in root ensures Open(never, Name(p)) {
      assert p in w && Goes(never, w, dirs, p);
      DirListed(never, staging, files, dirs, p);
    }
  }

  /** Order matters: taken shallow first, a directory is looked at while its child is still
      there, and stays behind empty. */
  lemma ShallowFirstLeavesEmptyDirs(never: set<string>, a: string, b: string)
    requires NameOk(a) && NameOk(b) && a[0] != '-' && Name([a]) !in never && Name([a, b]) !in never
    ensures var t: Tree := map[[a] := Dir, [a, b] := Dir];
            PruneAll(never, t, [Name([a]), Name([a, b])]) == map[[a] := Dir]
              && PruneAll(never, t, [Name([a, b]), Name([a])]) == map[]
  {
    var t: Tree := map[[a] := Dir, [a, b] := Dir];
    var only: Tree := map[[a] := Dir];
    PartsOfName([a]);
    PartsOfName([a, b]);
    SafeNames([a]);
    SafeNames([a, b]);
    var x, y := Name([a]), Name([a, b]);
    assert ChildOf([a], [a, b]);
    assert HoldsNothing(t, [a, b]) && HoldsNothing(only, [a]);
    assert PruneOne(never, t, x) == t;
    assert PruneOne(never, t, y) == only;
    assert PruneOne(never, only, x) == map[];
    PruneTwo(never, t, x, y);
    PruneTwo(never, t, y, x);
  }

  lemma PruneTwo(never: set<string>, t: Tree, x: string, y: string)
    ensures PruneAll(never, t, [x, y]) == PruneOne(never, PruneOne(never, t, x), y)
  {
    assert [x, y][..1] == [x] && [x][..0] == [];
    assert PruneAll(never, t, [x]) == PruneOne(never, t, x);
  }
}
