/** The root file system as install and uninstall change it in place. */
module InstallRoot {
  import opened FileTree
  import opened Install

  /** Directories that are never removed, even when empty. */
  const NEVER_PRUNE: set<string> :=
    {"", ".", "usr", "etc", "lib", "lib64", "bin", "sbin", "var", "opt", "usr/bin", "usr/sbin", "usr/lib", "usr/lib64",
     "usr/share", "usr/include", "usr/local", "var/lib", "var/run", "etc/init.d", "lib/modules", "usr/lib/modules"}

  const RM_CHUNK := 500

  // ---- the manifest of a staging tree -------------------------------------------------------

  /** Python's order of strings. */
  predicate InOrder(a: string, b: string) {
    a == "" || (b != "" && (a[0] < b[0] || (a[0] == b[0] && InOrder(a[1..], b[1..]))))
  }

  /** Deeper directories first, and those of one depth by name. */
  predicate DeeperFirst(a: string, b: string) {
    |Parts(a)| > |Parts(b)| || (|Parts(a)| == |Parts(b)| && InOrder(a, b))
  }

  lemma {:induction false} InOrderTotal(a: string, b: string)
    ensures InOrder(a, b) || InOrder(b, a)
  {
    if a != "" && b != "" && a[0] == b[0] {
      InOrderTotal(a[1..], b[1..]);
    }
  }

  lemma {:induction false} InOrderTransitive(a: string, b: string, c: string)
    requires InOrder(a, b) && InOrder(b, c)
    ensures InOrder(a, c)
  {
    if a != "" && a[0] == b[0] == c[0] {
      InOrderTransitive(a[1..], b[1..], c[1..]);
    }
  }

  ghost predicate IsOrder(le: (string, string) -> bool) {
    && (forall a, b :: le(a, b) || le(b, a))
    && (forall a, b, c :: le(a, b) && le(b, c) ==> le(a, c))
  }

  lemma NamesAreOrdered()
    ensures IsOrder(InOrder) && IsOrder(DeeperFirst)
  {
    forall a: string, b: string ensures InOrder(a, b) || InOrder(b, a) {
      InOrderTotal(a, b);
    }
    forall a: string, b: string, c: string | InOrder(a, b) && InOrder(b, c) ensures InOrder(a, c) {
      InOrderTransitive(a, b, c);
    }
  }

  ghost predicate Sorted(le: (string, string) -> bool, names: seq<string>) {
    forall i, j :: 0 <= i < j < |names| ==> le(names[i], names[j])
  }

  method Insert(le: (string, string) -> bool, names: seq<string>, d: string) returns (r: seq<string>)
    requires IsOrder(le) && Sorted(le, names)
    ensures Sorted(le, r) && multiset(r) == multiset(names) + multiset{d}
  {
    var k := 0;
    while k < |names| && le(names[k], d)
      invariant k <= |names| && forall i :: 0 <= i < k ==> le(names[i], d)
    {
      k := k + 1;
    }
    r := names[..k] + [d] + names[k..];
    assert names == names[..k] + names[k..];
    assert forall i :: k <= i < |names| ==> le(d, names[i]);
  }

  /** The files by name, and the directories deepest first and then by name. */
  method StagingContents(staging: Tree) returns (files: seq<string>, dirs: seq<string>)
    ensures IsManifest(staging, files, dirs) && Sorted(InOrder, files) && Sorted(DeeperFirst, dirs)
  {
    NamesAreOrdered();
    files, dirs := [], [];
    var todo := staging.Keys;
    while todo != {}
      invariant todo <= staging.Keys && Sorted(InOrder, files) && Sorted(DeeperFirst, dirs)
      invariant forall n :: n in files <==>
                  exists p :: p in staging && p !in todo && staging[p].File? && !(MARK <= Name(p)) && n == Name(p)
      invariant forall n :: n in dirs <==> exists p :: p in staging && p !in todo && !staging[p].File? && n == Name(p)
      decreases |todo|
    {
      var p :| p in todo;
      var name := Name(p);
      if !staging[p].File? {
        var before := dirs;
        dirs := Insert(DeeperFirst, dirs, name);
        InsertedNames(before, dirs, name);
      } else if !(MARK <= name) {
        var before := files;
        files := Insert(InOrder, files, name);
        InsertedNames(before, files, name);
      }
      todo := todo - {p};
    }
  }

  lemma InsertedNames(names: seq<string>, r: seq<string>, d: string)
    requires multiset(r) == multiset(names) + multiset{d}
    ensures forall n :: n in r <==> n in names || n == d
  {
    forall n ensures n in r <==> n in names || n == d {
      assert n in r <==> n in multiset(r);
    }
  }

  // ---- specifications ------------------------------------------------------------------------

  function TargetPaths(t: Tree, files: seq<string>): seq<Path> {
    if files == [] then []
    else
      var rel := files[|files| - 1];
      TargetPaths(t, files[..|files| - 1]) + (if Target(t, rel) then [Parts(rel)] else [])
  }

  function CountIn(t: Tree, ps: seq<Path>): (n: nat)
    ensures n <= |ps|
  {
    if ps == [] then 0 else CountIn(t, ps[..|ps| - 1]) + (if ps[|ps| - 1] in t then 1 else 0)
  }

  function Surviving(t: Tree, files: seq<string>): seq<string> {
    if files == [] then []
    else
      var rel := files[|files| - 1];
      Surviving(t, files[..|files| - 1]) + (if Survives(t, rel) then [rel] else [])
  }

  lemma {:induction false} TargetPathsAre(t: Tree, files: seq<string>, p: Path)
    ensures p in TargetPaths(t, files) <==> exists rel :: rel in files && Target(t, rel) && Parts(rel) == p
  {
    if files != [] {
      var n := |files| - 1;
      TargetPathsAre(t, files[..n], p);
      assert files == files[..n] + [files[n]];
    }
  }

  lemma {:induction false} CountAll(t: Tree, ps: seq<Path>)
    ensures CountIn(t, ps) == 0 <==> forall p :: p in ps ==> p !in t
  {
    if ps != [] {
      var n := |ps| - 1;
      CountAll(t, ps[..n]);
      assert ps == ps[..n] + [ps[n]];
    }
  }

  /** The count that is reported is the number of targets exactly when rm failed on none. */
  lemma CountTellsSuccess(t: Tree, files: seq<string>, stuck: set<Path>)
    ensures CountIn(WithoutFiles(t, files, stuck), TargetPaths(t, files)) == 0
       <==> forall rel :: rel in files && Target(t, rel) ==> Parts(rel) !in stuck
  {
    var u, ps := WithoutFiles(t, files, stuck), TargetPaths(t, files);
    CountAll(u, ps);
    forall p ensures p in ps <==> exists rel :: rel in files && Target(t, rel) && Parts(rel) == p {
      TargetPathsAre(t, files, p);
    }
    if rel :| rel in files && Target(t, rel) && Parts(rel) in stuck {
      assert Parts(rel) in ps && Parts(rel) in u;
    }
  }

  lemma {:induction false} SurvivingAre(t: Tree, files: seq<string>, rel: string)
    ensures rel in Surviving(t, files) <==> rel in files && Survives(t, rel)
  {
    if files != [] {
      var n := |files| - 1;
      SurvivingAre(t, files[..n], rel);
      assert files == files[..n] + [files[n]];
    }
  }

  /** The manifest may be dropped only when no file it could remove is left. */
  lemma NoSurvivorsMeansAllGone(t: Tree, files: seq<string>, stuck: set<Path>)
    requires Surviving(WithoutFiles(t, files, stuck), files) == []
    ensures forall rel :: rel in files && Safe(rel) ==> Parts(rel) !in WithoutFiles(t, files, stuck)
    ensures forall rel :: rel in files && Target(t, rel) ==> Parts(rel) !in stuck
  {
    var u := WithoutFiles(t, files, stuck);
    forall rel | rel in files && Safe(rel) ensures Parts(rel) !in u {
      SurvivingAre(u, files, rel);
    }
  }

  // ---- the root ---------------------------------------------------------------------------------

  class Root {
    var tree: Tree

    constructor (tree: Tree)
      ensures this.tree == tree
    {
      this.tree := tree;
    }

    /** tar extracts the staging tree into the root, entry by entry, and may die after any of
        them; `upTo` says after which. */
    method InstallStaging(staging: Tree, archive: seq<Path>, upTo: nat)
      requires WellFormed(tree) && WellFormed(staging) && Mergeable(tree, staging) && IsArchive(staging, archive)
      modifies this
      ensures WellFormed(tree)
      ensures forall p :: p in old(tree) && p !in Shipped(staging) ==> p in tree && tree[p] == old(tree)[p]
      ensures forall p :: p in tree && p !in old(tree) ==> p in Shipped(staging) && tree[p] == staging[p]
      ensures upTo >= |archive| ==> tree == Installed(old(tree), staging)
    {
      ArchiveIsShipped(staging, archive);
      var n := 0;
      while n < |archive| && n < upTo
        invariant n <= |archive| && tree == Extracted(old(tree), staging, archive, n)
      {
        tree := tree[archive[n] := staging[archive[n]]];
        n := n + 1;
      }
      ExtractionIsOrderly(old(tree), staging, archive, n);
    }

    method Targets(files: seq<string>) returns (targets: seq<Path>)
      ensures targets == TargetPaths(tree, files)
    {
      targets := [];
      for n := 0 to |files|
        invariant targets == TargetPaths(tree, files[..n])
      {
        assert files[..n + 1][..n] == files[..n];
        if Safe(files[n]) && Parts(files[n]) in tree && tree[Parts(files[n])] != Dir {
          targets := targets + [Parts(files[n])];
        }
      }
      assert files[..|files|] == files;
    }

    /** rm -f one chunk of paths. */
    method RemoveChunk(targets: seq<Path>, from: nat, to: nat, stuck: set<Path>)
      requires from <= to <= |targets|
      modifies this
      ensures tree == old(tree) - (set p | p in targets[from..to] && p !in stuck)
    {
      assert old(tree) - {} == old(tree);
      for i := from to to
        invariant tree == old(tree) - (set p | p in targets[from..i] && p !in stuck)
      {
        assert targets[from..i + 1] == targets[from..i] + [targets[i]];
        if targets[i] !in stuck {
          tree := tree - {targets[i]};
        }
      }
    }

    /** Remove the manifest's files, and count those that are really gone. */
    method RemoveInstalledFiles(files: seq<string>, stuck: set<Path>) returns (removed: nat)
      modifies this
      ensures tree == WithoutFiles(old(tree), files, stuck)
      ensures removed == |TargetPaths(old(tree), files)| - CountIn(tree, TargetPaths(old(tree), files))
    {
      var targets := Targets(files);
      var i := 0;
      assert old(tree) - {} == old(tree);
      while i < |targets|
        invariant i <= |targets| && tree == old(tree) - (set p | p in targets[..i] && p !in stuck)
        decreases |targets| - i
      {
        var to := if i + RM_CHUNK < |targets| then i + RM_CHUNK else |targets|;
        RemoveChunk(targets, i, to, stuck);
        assert targets[..to] == targets[..i] + targets[i..to];
        i := to;
      }
      assert targets[..|targets|] == targets;
      TargetsTaken(old(tree), files, stuck);
      removed := |targets|;
      for n := 0 to |targets|
        invariant removed == |targets| - CountIn(tree, targets[..n])
      {
        assert targets[..n + 1][..n] == targets[..n];
        if targets[n] in tree {
          removed := removed - 1;
        }
      }
    }

    method SurvivingInstalledFiles(files: seq<string>) returns (left: seq<string>)
      ensures left == Surviving(tree, files)
    {
      left := [];
      for n := 0 to |files|
        invariant left == Surviving(tree, files[..n])
      {
        assert files[..n + 1][..n] == files[..n];
        if Safe(files[n]) && Parts(files[n]) in tree {
          left := left + [files[n]];
        }
      }
      assert files[..|files|] == files;
    }

    /** rmdir the manifest's directories in its order, and count them. */
    method PruneEmptyDirs(dirs: seq<string>) returns (removed: nat)
      modifies this
      ensures tree == PruneAll(NEVER_PRUNE, old(tree), dirs)
      ensures |tree| + removed == |old(tree)|
    {
      removed := 0;
      for n := 0 to |dirs|
        invariant tree == PruneAll(NEVER_PRUNE, old(tree), dirs[..n])
        invariant |tree| + removed == |old(tree)|
      {
        assert dirs[..n + 1][..n] == dirs[..n];
        var ok := RemoveIfEmpty(dirs[n]);
        if ok {
          removed := removed + 1;
        }
      }
      assert dirs[..|dirs|] == dirs;
    }

    method RemoveIfEmpty(rel: string) returns (ok: bool)
      modifies this
      ensures tree == PruneOne(NEVER_PRUNE, old(tree), rel)
      ensures |tree| + (if ok then 1 else 0) == |old(tree)|
    {
      ok := false;
      if !Safe(rel) || rel in NEVER_PRUNE { return; }
      var p := Parts(rel);
      if p !in tree || tree[p] != Dir { return; }
      if exists q :: q in tree && ChildOf(p, q) { return; }
      OneLess(tree, p);
      tree := tree - {p};
      ok := true;
    }
  }

  lemma OneLess(t: Tree, p: Path)
    requires p in t
    ensures |t - {p}| + 1 == |t|
  {
    assert (t - {p}).Keys == t.Keys - {p};
    assert |t.Keys| == |t|;
  }

  lemma TargetsTaken(t: Tree, files: seq<string>, stuck: set<Path>)
    ensures Taken(t, files, stuck) == set p | p in TargetPaths(t, files) && p !in stuck
  {
    forall p ensures p in TargetPaths(t, files) <==> exists rel :: rel in files && Target(t, rel) && Parts(rel) == p {
      TargetPathsAre(t, files, p);
    }
  }
}
