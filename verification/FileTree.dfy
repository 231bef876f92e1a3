/** A file tree, and the relative paths a manifest names its entries by. */
module FileTree {
  import opened Text

  type Path = seq<string>

  /** Symbolic links to files count as files; those to directories are a kind of their own. */
  datatype Node = Dir | File(content: nat) | DirLink(target: nat)

  type Tree = map<Path, Node>

  predicate NameOk(n: string) { n != "" && '/' !in n && n != "." && n != ".." }

  predicate PathOk(p: Path) { p != [] && forall i :: 0 <= i < |p| ==> NameOk(p[i]) }

  predicate ParentOk(t: Tree, p: Path) { |p| > 1 ==> p[..|p| - 1] in t && t[p[..|p| - 1]] == Dir }

  /** Every entry but those at the top has its directory. */
  predicate WellFormed(t: Tree) { forall p :: p in t ==> PathOk(p) && ParentOk(t, p) }

  predicate Below(p: Path, q: Path) { |p| < |q| && q[..|p|] == p }

  predicate ChildOf(p: Path, q: Path) { |q| == |p| + 1 && q[..|p|] == p }

  predicate HoldsNothing(t: Tree, p: Path) { forall q :: q in t ==> !ChildOf(p, q) }

  function Leaves(t: Tree): Tree { map p | p in t && t[p] != Dir :: t[p] }

  /** The entry right below `p` on the way to `q`. */
  lemma {:induction false} WayDown(t: Tree, p: Path, q: Path)
    requires WellFormed(t) && q in t && Below(p, q)
    ensures q[..|p| + 1] in t && ChildOf(p, q[..|p| + 1])
    ensures |q| > |p| + 1 ==> t[q[..|p| + 1]] == Dir && Below(q[..|p| + 1], q)
    decreases |q|
  {
    var c := q[..|p| + 1];
    assert c[..|p|] == p;
    if |q| == |p| + 1 {
      assert c == q;
    } else {
      var up := q[..|q| - 1];
      assert ParentOk(t, q);
      assert up[..|p|] == p && up[..|p| + 1] == c;
      WayDown(t, p, up);
      assert up == c || |up| > |p| + 1;
    }
  }

  // ---- manifest names --------------------------------------------------------------------

  function Name(p: Path): string { Join(p, '/') }

  function Real(parts: seq<string>): seq<string> {
    if parts == [] then []
    else (if parts[0] == "" || parts[0] == "." then [] else [parts[0]]) + Real(parts[1..])
  }

  /** The components of a relative path: empty and "." ones do not count. */
  function Parts(rel: string): Path { Real(Split(rel, '/')) }

  predicate Safe(rel: string) {
    rel != "" && rel[0] != '/' && rel[0] != '-' && Parts(rel) != [] && ".." !in Parts(rel)
  }

  lemma {:induction false} RealOfNames(p: Path)
    requires forall i :: 0 <= i < |p| ==> NameOk(p[i])
    ensures Real(p) == p
  {
    if p != [] {
      RealOfNames(p[1..]);
    }
  }

  /** A path is read back from its name. */
  lemma PartsOfName(p: Path)
    requires PathOk(p)
    ensures Parts(Name(p)) == p
  {
    SplitJoin(p, '/');
    RealOfNames(p);
  }

  lemma NameStarts(p: Path)
    requires PathOk(p)
    ensures Name(p) != "" && Name(p)[0] == p[0][0] && p[0][0] != '/'
  {
    assert p[0][0] in p[0];
  }

  /** The name of a real path is safe unless rm could take it for an option. */
  lemma SafeNames(p: Path)
    requires PathOk(p)
    ensures Safe(Name(p)) <==> p[0][0] != '-'
  {
    PartsOfName(p);
    NameStarts(p);
  }

  lemma {:induction false} RealHasNoSlash(parts: seq<string>)
    requires forall i :: 0 <= i < |parts| ==> '/' !in parts[i]
    ensures forall i :: 0 <= i < |Real(parts)| ==>
            Real(parts)[i] != "" && Real(parts)[i] != "." && '/' !in Real(parts)[i]
  {
    if parts != [] {
      RealHasNoSlash(parts[1..]);
    }
  }

  /** Whatever a manifest says, a safe entry names a plain path below the root. */
  lemma SafeStaysBelowRoot(rel: string)
    requires Safe(rel)
    ensures PathOk(Parts(rel))
  {
    SplitItemChars(rel, '/');
    RealHasNoSlash(Split(rel, '/'));
  }

  lemma PrefixAt(mark: string, w: string, i: nat)
    requires mark <= w
    ensures i < |mark| ==> mark[i] == w[i] && mark[i] in mark
  {
  }

  lemma PrefixOfName(mark: string, p: Path)
    requires PathOk(p) && '/' !in mark
    ensures mark <= Name(p) <==> mark <= p[0]
  {
    if |p| > 1 {
      assert Name(p) == p[0] + "/" + Join(p[1..], '/');
      if mark <= Name(p) {
        PrefixAt(mark, Name(p), |p[0]|);
      }
    }
  }
}
