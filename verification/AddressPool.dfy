/** Data subnets and the bounded, hash-started, wrapping search of an address pool.
    Addresses are their integer values, networks are integer intervals. */
module AddressPool {
  import opened Text

  datatype Net = Net(version: nat, base: nat, size: nat)

  const MAX_POOL_ADDRESSES := 65534

  predicate In(x: nat, n: Net) { n.base <= x < n.base + n.size }

  predicate Overlaps(a: Net, b: Net) { a.base < b.base + b.size && b.base < a.base + a.size }

  /** Equal, disjoint, or of different families. */
  predicate Compatible(a: Net, b: Net) {
    a.version == b.version && a != b ==> !Overlaps(a, b)
  }

  predicate AllCompatible(s: set<Net>) { forall a, b :: a in s && b in s ==> Compatible(a, b) }

  function Elements(s: seq<Net>): set<Net> { set n | n in s }

  /** Compatible networks share an address only when they are the same network. */
  lemma AtMostOneNetwork(s: set<Net>, a: Net, b: Net, x: nat)
    requires AllCompatible(s) && a in s && b in s && a.version == b.version
    requires In(x, a) && In(x, b)
    ensures a == b
  {
    assert Compatible(a, b);
  }

  /** The first pair of different overlapping networks, duplicates dropped first. */
  method OverlapProblem(nets: seq<Net>) returns (r: Option<(Net, Net)>)
    ensures r.None? <==> AllCompatible(Elements(nets))
    ensures r.Some? ==> r.value.0 in nets && r.value.1 in nets && !Compatible(r.value.0, r.value.1)
  {
    var unique: seq<Net> := [];
    for k := 0 to |nets|
      invariant forall n :: n in unique <==> n in nets[..k]
    {
      if nets[k] !in unique { unique := unique + [nets[k]]; }
      assert nets[..k + 1] == nets[..k] + [nets[k]];
    }
    assert nets[..|nets|] == nets;
    for i := 0 to |unique|
      invariant forall a, b :: 0 <= b < a < i ==> Compatible(unique[a], unique[b])
    {
      for j := 0 to i
        invariant forall b :: 0 <= b < j ==> Compatible(unique[i], unique[b])
      {
        if !Compatible(unique[i], unique[j]) {
          var p := (unique[i], unique[j]);
          assert p.0 in Elements(nets) && p.1 in Elements(nets);
          return Some(p);
        }
      }
    }
    forall a, b | a in Elements(nets) && b in Elements(nets) ensures Compatible(a, b) {
      assert a in unique && b in unique;
      var i :| 0 <= i < |unique| && unique[i] == a;
      var j :| 0 <= j < |unique| && unique[j] == b;
      assert i < j || j < i || a == b;
    }
    r := None;
  }

  // ---- the wrapped search -----------------------------------------------------

  /** The pool address the search tries `offset` steps after its start. */
  function Probe(first: nat, count: nat, start: nat, offset: nat): nat
    requires count > 0
  {
    first + (start + offset) % count
  }

  /** The first unused address from `offset` on. */
  function Search(first: nat, count: nat, start: nat, used: set<nat>, offset: nat): (r: Option<nat>)
    requires offset <= count
    decreases count - offset
  {
    if offset == count then None
    else
      var a := Probe(first, count, start, offset);
      if a !in used then Some(a) else Search(first, count, start, used, offset + 1)
  }

  lemma WrapOnce(a: nat, count: nat)
    requires 0 < count && a < 2 * count
    ensures a % count == if a < count then a else a - count
  {
    var q := a / count;
    assert a == q * count + a % count;
    assert q >= 2 ==> q * count >= 2 * count;
    assert q <= 0 ==> q * count <= 0;
  }

  /** From any start, the probes visit every pool address exactly once. */
  lemma ProbesArePermutation(first: nat, count: nat, start: nat, x: nat)
    requires start < count && first <= x < first + count
    ensures var k := OffsetOf(first, count, start, x); k < count && Probe(first, count, start, k) == x
    ensures forall k :: 0 <= k < count && Probe(first, count, start, k) == x ==> k == OffsetOf(first, count, start, x)
  {
    WrapOnce(start + OffsetOf(first, count, start, x), count);
    forall k | 0 <= k < count && Probe(first, count, start, k) == x ensures k == OffsetOf(first, count, start, x) {
      WrapOnce(start + k, count);
    }
  }

  function OffsetOf(first: nat, count: nat, start: nat, x: nat): nat
    requires start < count && first <= x < first + count
  {
    if x - first >= start then x - first - start else x - first + count - start
  }

  lemma {:induction false} SearchFinds(first: nat, count: nat, start: nat, used: set<nat>, offset: nat)
    requires offset <= count
    ensures var r := Search(first, count, start, used, offset);
            r.Some? ==> first <= r.value < first + count && r.value !in used
    ensures Search(first, count, start, used, offset).None? <==>
              forall k :: offset <= k < count ==> Probe(first, count, start, k) in used
    decreases count - offset
  {
    if offset < count {
      SearchFinds(first, count, start, used, offset + 1);
    }
  }

  /** The search returns an unused pool address, and fails exactly when there is none. */
  lemma SearchIsExact(first: nat, count: nat, start: nat, used: set<nat>)
    requires start < count
    ensures var r := Search(first, count, start, used, 0);
            && (r.Some? ==> first <= r.value < first + count && r.value !in used)
            && (r.None? <==> forall x :: first <= x < first + count ==> x in used)
  {
    SearchFinds(first, count, start, used, 0);
    if Search(first, count, start, used, 0).None? {
      forall x | first <= x < first + count ensures x in used {
        ProbesArePermutation(first, count, start, x);
      }
    } else {
      assert Search(first, count, start, used, 0).value !in used;
    }
  }

  method WrappedSearch(first: nat, count: nat, start: nat, used: set<nat>) returns (r: Option<nat>)
    ensures r == Search(first, count, start, used, 0)
  {
    var offset := 0;
    while offset < count
      invariant offset <= count
      invariant Search(first, count, start, used, 0) == Search(first, count, start, used, offset)
    {
      var a := Probe(first, count, start, offset);
      if a !in used { return Some(a); }
      offset := offset + 1;
    }
    r := None;
  }

  // ---- the two pools ------------------------------------------------------------

  /** IPv4 gives up network and broadcast address, IPv6 the subnet-router anycast. */
  function PoolCount(n: Net): int {
    var count := n.size - (if n.version == 4 then 2 else 1);
    if count < MAX_POOL_ADDRESSES then count else MAX_POOL_ADDRESSES
  }

  function Select(hash: nat, n: Net, used: set<nat>): Option<nat> {
    if PoolCount(n) < 1 then None
    else Search(n.base + 1, PoolCount(n), hash % PoolCount(n), used, 0)
  }

  /** The hosts `select_address` may hand out. */
  predicate InPool(x: nat, n: Net) { n.base + 1 <= x < n.base + 1 + PoolCount(n) }

  predicate IsHost(x: nat, n: Net) {
    In(x, n) && x != n.base && (n.version == 4 ==> x != n.base + n.size - 1)
  }

  method SelectAddress(hash: nat, n: Net, used: set<nat>) returns (r: Option<nat>)
    ensures r == Select(hash, n, used)
    ensures r.Some? ==> IsHost(r.value, n) && InPool(r.value, n) && r.value !in used
    ensures r.None? <==> forall x :: InPool(x, n) ==> x in used
  {
    SelectIsExact(hash, n, used);
    if PoolCount(n) < 1 { return None; }
    r := WrappedSearch(n.base + 1, PoolCount(n), hash % PoolCount(n), used);
  }

  lemma SelectIsExact(hash: nat, n: Net, used: set<nat>)
    ensures var r := Select(hash, n, used);
            && (r.Some? ==> IsHost(r.value, n) && InPool(r.value, n) && r.value !in used)
            && (r.None? <==> forall x :: InPool(x, n) ==> x in used)
  {
    if PoolCount(n) >= 1 {
      SearchIsExact(n.base + 1, PoolCount(n), hash % PoolCount(n), used);
    }
  }

  const DEFAULT_FIRST := 10
  const DEFAULT_COUNT := 244

  /** The default pool of a /24: hosts .10 to .253. */
  function DefaultAddress(hash: nat, n: Net, used: set<nat>): Option<nat> {
    Search(n.base + DEFAULT_FIRST, DEFAULT_COUNT, hash % DEFAULT_COUNT, used, 0)
  }

  lemma DefaultIsExact(hash: nat, n: Net, used: set<nat>)
    ensures var r := DefaultAddress(hash, n, used);
            && (r.Some? ==> n.base + 10 <= r.value <= n.base + 253 && r.value !in used)
            && (r.None? <==> forall x :: n.base + 10 <= x <= n.base + 253 ==> x in used)
  {
    SearchIsExact(n.base + DEFAULT_FIRST, DEFAULT_COUNT, hash % DEFAULT_COUNT, used);
  }
}
