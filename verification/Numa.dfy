/** The NUMA split of a guest's vCPUs and memory. */
module Numa {

  const MIN_NODE_MB := 128

  predicate Accepts(vcpus: nat, mem: nat, nodes: int) {
    && nodes >= 0
    && (nodes > 1 ==> vcpus % nodes == 0 && mem / nodes >= MIN_NODE_MB)
  }

  /** One -numa node: its vCPU range, both ends included, and its memory in MB. */
  datatype Node = Node(first: int, last: int, mem: int)

  function PerCpu(vcpus: nat, nodes: int): int
    requires nodes > 1
  { vcpus / nodes }

  function PerMem(mem: nat, nodes: int): int
    requires nodes > 1
  { mem / nodes / 2 * 2 }

  function MemSum(ns: seq<Node>): int {
    if ns == [] then 0 else MemSum(ns[..|ns| - 1]) + ns[|ns| - 1].mem
  }

  /** vCPUs 0..vcpus-1, cut into equal contiguous ranges in node order. */
  predicate PartitionsCpus(vcpus: nat, ns: seq<Node>, per: int) {
    && per >= 1 && |ns| * per == vcpus
    && (forall i :: 0 <= i < |ns| ==> ns[i].first == i * per && ns[i].last == ns[i].first + per - 1)
  }

  /** Builds the nodes one by one; a layout of at most one node has none. */
  method SmpNodes(vcpus: nat, mem: nat, nodes: int) returns (ns: seq<Node>)
    ensures nodes <= 1 ==> ns == []
    ensures nodes > 1 ==> |ns| == nodes && MemSum(ns) == mem
    ensures nodes > 1 ==> forall i :: 0 <= i < nodes - 1 ==> ns[i].mem == PerMem(mem, nodes)
    ensures nodes > 1 ==> ns[nodes - 1].mem == mem - PerMem(mem, nodes) * (nodes - 1)
    ensures nodes > 1 && Accepts(vcpus, mem, nodes) && vcpus >= 1 ==>
              PartitionsCpus(vcpus, ns, PerCpu(vcpus, nodes))
    ensures nodes > 1 && vcpus == 0 ==> ns[0].last == 0
  {
    if nodes <= 1 { return []; }
    var perCpu := PerCpu(vcpus, nodes);
    var perMem := PerMem(mem, nodes);
    if vcpus % nodes == 0 && vcpus >= 1 { SharesExact(vcpus, nodes); }
    ns := [];
    var i := 0;
    while i < nodes
      invariant 0 <= i <= nodes && |ns| == i
      invariant i < nodes ==> MemSum(ns) == perMem * i
      invariant i == nodes ==> MemSum(ns) == mem && ns[nodes - 1].mem == mem - perMem * (nodes - 1)
      invariant forall j :: 0 <= j < i && j < nodes - 1 ==> ns[j].mem == perMem
      invariant forall j :: 0 <= j < i ==> ns[j].first == j * perCpu
      invariant forall j :: 0 <= j < i ==> ns[j].last == if perCpu > 1 then ns[j].first + perCpu - 1 else ns[j].first
    {
      var size := if i < nodes - 1 then perMem else mem - perMem * (nodes - 1);
      var first := i * perCpu;
      var n := Node(first, if perCpu > 1 then first + perCpu - 1 else first, size);
      assert (ns + [n])[..i] == ns;
      ns := ns + [n];
      i := i + 1;
    }
  }

  lemma SharesExact(vcpus: nat, nodes: int)
    requires nodes > 1 && vcpus % nodes == 0 && vcpus >= 1
    ensures nodes * (vcpus / nodes) == vcpus && vcpus / nodes >= 1
  {
  }

  /** Equal contiguous ranges give every vCPU to exactly one node. */
  lemma EveryCpuInOneNode(vcpus: nat, ns: seq<Node>, per: int, c: nat)
    requires PartitionsCpus(vcpus, ns, per) && c < vcpus
    ensures c / per < |ns| && ns[c / per].first <= c <= ns[c / per].last
    ensures forall i :: 0 <= i < |ns| && ns[i].first <= c <= ns[i].last ==> i == c / per
  {
    var q := c / per;
    assert c == q * per + c % per;
    NextRange(|ns| - 1, q, per);
    forall i | 0 <= i < |ns| && ns[i].first <= c <= ns[i].last ensures i == q {
      NextRange(i, q, per);
      NextRange(q, i, per);
    }
  }

  lemma NextRange(a: int, b: int, per: int)
    requires per >= 1
    ensures a < b ==> a * per + per <= b * per
    ensures a * per + per == (a + 1) * per
  {
    if a < b {
      var d := b - a - 1;
      assert b * per == a * per + per + d * per;
    }
  }

  /** Accepted splits: every node has at least the minimum, all but the last an even size,
      and the last exceeds the others by less than twice the node count. */
  lemma MemoryShares(mem: nat, nodes: int)
    requires nodes > 1 && mem / nodes >= MIN_NODE_MB
    ensures var per := PerMem(mem, nodes); var last := mem - per * (nodes - 1);
            per % 2 == 0 && per >= MIN_NODE_MB && 0 <= last - per < 2 * nodes
  {
    var q := mem / nodes;
    var per := PerMem(mem, nodes);
    var d := q - per;
    assert 0 <= d <= 1;
    assert mem == q * nodes + mem % nodes;
    assert q * nodes == per * nodes + d * nodes;
    assert per * (nodes - 1) == per * nodes - per;
  }
}
