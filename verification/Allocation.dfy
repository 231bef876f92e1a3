/** Address allocation for a VM's NICs under the allocation lock, while other VMs may
    be destroyed at any moment. */
module Allocation {
  import opened Text
  import opened AddressPool

  const IPV4_SPACE := 0x1_0000_0000
  const SLASH64 := 0x1_0000_0000_0000_0000

  /** One extra NIC: whether it names an LNet network, and its explicit subnets. */
  datatype Nic = Nic(named: bool, subnet: Option<Net>, subnet6: Option<Net>)

  /** The host's management /24, default data /24 and default data /64. */
  datatype Config = Config(mgmt: Net, default4: Net, default6: Net)

  predicate IsSlash24(n: Net) {
    n.version == 4 && n.size == 256 && n.base % 256 == 0 && n.base + 256 <= IPV4_SPACE
  }

  predicate ConfigOk(c: Config) {
    && IsSlash24(c.mgmt) && IsSlash24(c.default4) && c.mgmt != c.default4
    && c.default6.version == 6 && c.default6.size == SLASH64
  }

  /** What NicSpec accepts: IPv4 subnets of /30 or shorter, IPv6 of /126 or shorter. */
  predicate NicOk(n: Nic) {
    && (n.subnet.Some? ==> n.subnet.value.version == 4 && n.subnet.value.size >= 4
                           && n.subnet.value.base + n.subnet.value.size <= IPV4_SPACE)
    && (n.subnet6.Some? ==> n.subnet6.value.version == 6 && n.subnet6.value.size >= 4)
  }

  predicate NicsOk(nics: seq<Nic>) { forall i :: 0 <= i < |nics| ==> NicOk(nics[i]) }

  function Net4(c: Config, n: Nic): Net { if n.subnet.Some? then n.subnet.value else c.default4 }
  function Net6(c: Config, n: Nic): Net { if n.subnet6.Some? then n.subnet6.value else c.default6 }

  function Nets4(c: Config, nics: seq<Nic>): set<Net> { set n | n in nics :: Net4(c, n) }
  function Nets6(c: Config, nics: seq<Nic>): set<Net> { set n | n in nics :: Net6(c, n) }

  predicate Explicit(nics: seq<Nic>) {
    exists i :: 0 <= i < |nics| && (nics[i].named || nics[i].subnet.Some? || nics[i].subnet6.Some?)
  }

  /** The checks made before the lock is taken. */
  predicate LayoutOk(c: Config, nics: seq<Nic>) {
    nics == [] ||
    (&& (Explicit(nics) ==> |nics| <= 8)
     && (forall n :: n in Nets4(c, nics) ==> !Overlaps(n, c.mgmt))
     && AllCompatible({c.default4} + Nets4(c, nics))
     && AllCompatible({c.default6} + Nets6(c, nics)))
  }

  // ---- the IPv6 address paired with an IPv4 address ------------------------------

  /** 'f' and the octet in three decimal digits, read as a hexadecimal group. */
  function Hextet(o: nat): nat { 0xf000 + o / 100 % 10 * 256 + o / 10 % 10 * 16 + o % 10 }

  function Groups(g3: nat, g2: nat, g1: nat, g0: nat): nat {
    g3 * 0x1_0000_0000_0000 + g2 * 0x1_0000_0000 + g1 * 0x1_0000 + g0
  }

  function NicIp6(c: Config, a: nat): nat {
    c.default6.base + Groups(Hextet(a / 0x100_0000 % 256), Hextet(a / 0x1_0000 % 256),
                             Hextet(a / 0x100 % 256), Hextet(a % 256))
  }

  lemma HextetInjective(o: nat, p: nat)
    requires o < 256 && p < 256
    ensures 0xf000 <= Hextet(o) < 0x1_0000
    ensures Hextet(o) == Hextet(p) ==> o == p
  {
    DigitsOf(o);
    DigitsOf(p);
    NibblesInjective(o / 100 % 10, o / 10 % 10, o % 10, p / 100 % 10, p / 10 % 10, p % 10);
  }

  lemma DigitsOf(o: nat)
    requires o < 256
    ensures o == o / 100 % 10 * 100 + o / 10 % 10 * 10 + o % 10
  {
    assert o / 100 < 10;
    assert o / 10 == o / 100 * 10 + o / 10 % 10;
  }

  lemma NibblesInjective(a: nat, b: nat, c: nat, x: nat, y: nat, z: nat)
    requires a < 10 && b < 10 && c < 10 && x < 10 && y < 10 && z < 10
    ensures a * 256 + b * 16 + c == x * 256 + y * 16 + z ==> a == x && b == y && c == z
    ensures 0xf000 + a * 256 + b * 16 + c < 0x1_0000
  {
  }

  lemma GroupsInjective(g3: nat, g2: nat, g1: nat, g0: nat, k3: nat, k2: nat, k1: nat, k0: nat)
    requires g2 < 0x1_0000 && g1 < 0x1_0000 && g0 < 0x1_0000 && k2 < 0x1_0000 && k1 < 0x1_0000 && k0 < 0x1_0000
    requires Groups(g3, g2, g1, g0) == Groups(k3, k2, k1, k0)
    ensures g3 == k3 && g2 == k2 && g1 == k1 && g0 == k0
  {
    assert g3 == k3;
    assert g2 == k2;
  }

  lemma OctetsInjective(a: nat, b: nat)
    requires a < IPV4_SPACE && b < IPV4_SPACE
    requires a / 0x100_0000 % 256 == b / 0x100_0000 % 256 && a / 0x1_0000 % 256 == b / 0x1_0000 % 256
    requires a / 0x100 % 256 == b / 0x100 % 256 && a % 256 == b % 256
    ensures a == b
  {
    OctetsRebuild(a);
    OctetsRebuild(b);
  }

  lemma OctetsRebuild(a: nat)
    requires a < IPV4_SPACE
    ensures a == ((a / 0x100_0000 % 256 * 256 + a / 0x1_0000 % 256) * 256 + a / 0x100 % 256) * 256 + a % 256
  {
    assert a / 0x1_0000 == a / 0x100_0000 * 256 + a / 0x1_0000 % 256;
    assert a / 0x100 == a / 0x1_0000 * 256 + a / 0x100 % 256;
  }

  /** Different IPv4 addresses pair with different addresses of the default /64. */
  lemma NicIp6Injective(c: Config, a: nat, b: nat)
    requires a < IPV4_SPACE && b < IPV4_SPACE && NicIp6(c, a) == NicIp6(c, b)
    ensures a == b
  {
    var a3, a2, a1, a0 := a / 0x100_0000 % 256, a / 0x1_0000 % 256, a / 0x100 % 256, a % 256;
    var b3, b2, b1, b0 := b / 0x100_0000 % 256, b / 0x1_0000 % 256, b / 0x100 % 256, b % 256;
    HextetInjective(a3, b3);
    HextetInjective(a2, b2);
    HextetInjective(a1, b1);
    HextetInjective(a0, b0);
    HextetInjective(b2, a2);
    HextetInjective(b1, a1);
    HextetInjective(b0, a0);
    GroupsInjective(Hextet(a3), Hextet(a2), Hextet(a1), Hextet(a0), Hextet(b3), Hextet(b2), Hextet(b1), Hextet(b0));
    OctetsInjective(a, b);
  }

  /** The paired address lies in the default /64, above every address of its pool. */
  lemma NicIp6InDefault(c: Config, a: nat)
    requires ConfigOk(c)
    ensures In(NicIp6(c, a), c.default6) && NicIp6(c, a) > c.default6.base + MAX_POOL_ADDRESSES
  {
    HextetInjective(a / 0x100_0000 % 256, 0);
    HextetInjective(a / 0x1_0000 % 256, 0);
    HextetInjective(a / 0x100 % 256, 0);
    HextetInjective(a % 256, 0);
  }

  // ---- one allocation --------------------------------------------------------------

  datatype Alloc = Alloc(ips: seq<nat>, ip6s: seq<nat>)

  function Pick4(c: Config, h4: nat, h8: nat, n: Nic, used: set<nat>): Option<nat> {
    if n.subnet.Some? then Select(h8, n.subnet.value, used) else DefaultAddress(h4, c.default4, used)
  }

  function Pick6(c: Config, h8: nat, n: Nic, ip: nat, used: set<nat>): Option<nat> {
    if n.subnet6.Some? then Select(h8, n.subnet6.value, used) else Some(NicIp6(c, ip))
  }

  function Prepend(ips: seq<nat>, ip6s: seq<nat>, r: Option<Alloc>): Option<Alloc> {
    if r.None? then None else Some(Alloc(ips + r.value.ips, ip6s + r.value.ip6s))
  }

  /** The NICs in order; `h4` and `h8` are the VM name's hashes. */
  function AllocNics(c: Config, h4: nat, h8: nat, nics: seq<Nic>, used4: set<nat>, used6: set<nat>): Option<Alloc>
    decreases |nics|
  {
    if nics == [] then Some(Alloc([], []))
    else
      var p4 := Pick4(c, h4, h8, nics[0], used4);
      if p4.None? then None
      else
        var p6 := Pick6(c, h8, nics[0], p4.value, used6);
        if p6.None? || p6.value in used6 then None
        else
          Prepend([p4.value], [p6.value],
                  AllocNics(c, h4, h8, nics[1..], used4 + {p4.value}, used6 + {p6.value}))
  }

  predicate ExplicitIpOk(c: Config, ip: nat) { IsHost(ip, c.mgmt) && ip != c.mgmt.base + 1 }

  function Primary(c: Config, h4: nat, wanted: Option<nat>, used4: set<nat>): Option<nat> {
    if wanted.None? then DefaultAddress(h4, c.mgmt, used4)
    else if ExplicitIpOk(c, wanted.value) && wanted.value !in used4 then wanted
    else None
  }

  /** Management address first, then one pair per NIC. */
  function Allocate(c: Config, h4: nat, h8: nat, nics: seq<Nic>, wanted: Option<nat>, used4: set<nat>,
                    used6: set<nat>): Option<Alloc>
  {
    var p := Primary(c, h4, wanted, used4);
    if p.None? then None
    else
      var rest := AllocNics(c, h4, h8, nics, used4 + {p.value}, used6);
      if rest.None? then None else Some(Alloc([p.value] + rest.value.ips, rest.value.ip6s))
  }

  predicate FreshSeq(s: seq<nat>, used: set<nat>) {
    && (forall i :: 0 <= i < |s| ==> s[i] !in used)
    && (forall i, j :: 0 <= i < j < |s| ==> s[i] != s[j])
  }

  predicate Placed(c: Config, n: Nic, ip: nat, ip6: nat) {
    && IsHost(ip, Net4(c, n))
    && (if n.subnet6.Some? then InPool(ip6, n.subnet6.value) else ip6 == NicIp6(c, ip))
  }

  lemma PickPlaces(c: Config, h4: nat, h8: nat, n: Nic, used4: set<nat>, used6: set<nat>)
    requires ConfigOk(c)
    ensures var p4 := Pick4(c, h4, h8, n, used4);
            p4.Some? ==>
              && p4.value !in used4 && IsHost(p4.value, Net4(c, n))
              && (var p6 := Pick6(c, h8, n, p4.value, used6); p6.Some? ==> Placed(c, n, p4.value, p6.value))
  {
    var p4 := Pick4(c, h4, h8, n, used4);
    if n.subnet.Some? { SelectIsExact(h8, n.subnet.value, used4); } else { DefaultIsExact(h4, c.default4, used4); }
    if n.subnet6.Some? { SelectIsExact(h8, n.subnet6.value, used6); }
  }

  /** Allocated addresses are new, pairwise different, and each in its NIC's network. */
  lemma {:induction false} AllocNicsFresh(c: Config, h4: nat, h8: nat, nics: seq<Nic>, used4: set<nat>, used6: set<nat>)
    requires ConfigOk(c)
    ensures var r := AllocNics(c, h4, h8, nics, used4, used6);
            r.Some? ==>
              && |r.value.ips| == |nics| == |r.value.ip6s|
              && FreshSeq(r.value.ips, used4) && FreshSeq(r.value.ip6s, used6)
              && forall i :: 0 <= i < |nics| ==> Placed(c, nics[i], r.value.ips[i], r.value.ip6s[i])
    decreases |nics|
  {
    var r := AllocNics(c, h4, h8, nics, used4, used6);
    if nics != [] && r.Some? {
      PickPlaces(c, h4, h8, nics[0], used4, used6);
      var p4 := Pick4(c, h4, h8, nics[0], used4).value;
      var p6 := Pick6(c, h8, nics[0], p4, used6).value;
      AllocNicsFresh(c, h4, h8, nics[1..], used4 + {p4}, used6 + {p6});
      var rest := AllocNics(c, h4, h8, nics[1..], used4 + {p4}, used6 + {p6}).value;
      FreshCons(p4, rest.ips, used4);
      FreshCons(p6, rest.ip6s, used6);
    }
  }

  lemma FreshCons(x: nat, s: seq<nat>, used: set<nat>)
    requires x !in used && FreshSeq(s, used + {x})
    ensures FreshSeq([x] + s, used)
  {
    forall i | 0 <= i < |[x] + s| ensures ([x] + s)[i] !in used {
      assert i > 0 ==> ([x] + s)[i] == s[i - 1];
    }
  }

  lemma AllocateFresh(c: Config, h4: nat, h8: nat, nics: seq<Nic>, wanted: Option<nat>, used4: set<nat>,
                      used6: set<nat>)
    requires ConfigOk(c)
    ensures var r := Allocate(c, h4, h8, nics, wanted, used4, used6);
            r.Some? ==>
              && |r.value.ips| == |nics| + 1 && |r.value.ip6s| == |nics|
              && FreshSeq(r.value.ips, used4) && FreshSeq(r.value.ip6s, used6)
              && IsHost(r.value.ips[0], c.mgmt)
              && forall i :: 0 <= i < |nics| ==> Placed(c, nics[i], r.value.ips[1..][i], r.value.ip6s[i])
  {
    var p := Primary(c, h4, wanted, used4);
    DefaultIsExact(h4, c.mgmt, used4);
    if p.Some? {
      AllocNicsFresh(c, h4, h8, nics, used4 + {p.value}, used6);
      var rest := AllocNics(c, h4, h8, nics, used4 + {p.value}, used6);
      if rest.Some? {
        FreshCons(p.value, rest.value.ips, used4);
        assert ([p.value] + rest.value.ips)[1..] == rest.value.ips;
      }
    }
  }

  /** The allocation loop, which grows the used sets and both lists NIC by NIC. */
  method AllocLoop(c: Config, h4: nat, h8: nat, nics: seq<Nic>, taken4: set<nat>, taken6: set<nat>)
    returns (r: Option<Alloc>)
    ensures r == AllocNics(c, h4, h8, nics, taken4, taken6)
  {
    var used4, used6 := taken4, taken6;
    var ips, ip6s: seq<nat> := [], [];
    ghost var whole := AllocNics(c, h4, h8, nics, taken4, taken6);
    assert whole.Some? ==> [] + whole.value.ips == whole.value.ips && [] + whole.value.ip6s == whole.value.ip6s;
    var i := 0;
    assert nics[0..] == nics;
    while i < |nics|
      invariant 0 <= i <= |nics|
      invariant whole == Prepend(ips, ip6s, AllocNics(c, h4, h8, nics[i..], used4, used6))
    {
      assert nics[i..][0] == nics[i] && nics[i..][1..] == nics[i + 1..];
      var p4 := Pick4(c, h4, h8, nics[i], used4);
      if p4.None? { return None; }
      var p6 := Pick6(c, h8, nics[i], p4.value, used6);
      if p6.None? || p6.value in used6 { return None; }
      PrependTwice(ips, ip6s, p4.value, p6.value,
                   AllocNics(c, h4, h8, nics[i + 1..], used4 + {p4.value}, used6 + {p6.value}));
      used4, used6 := used4 + {p4.value}, used6 + {p6.value};
      ips, ip6s := ips + [p4.value], ip6s + [p6.value];
      i := i + 1;
    }
    r := Some(Alloc(ips, ip6s));
    assert ips + [] == ips && ip6s + [] == ip6s;
  }

  lemma PrependTwice(ips: seq<nat>, ip6s: seq<nat>, x: nat, y: nat, r: Option<Alloc>)
    ensures Prepend(ips, ip6s, Prepend([x], [y], r)) == Prepend(ips + [x], ip6s + [y], r)
  {
    if r.Some? {
      assert ips + ([x] + r.value.ips) == ips + [x] + r.value.ips;
      assert ip6s + ([y] + r.value.ip6s) == ip6s + [y] + r.value.ip6s;
    }
  }

  /** The management address, then the NICs. */
  method AllocAddresses(c: Config, h4: nat, h8: nat, nics: seq<Nic>, wanted: Option<nat>, used4: set<nat>,
                        used6: set<nat>)
    returns (r: Option<Alloc>)
    requires ConfigOk(c)
    ensures r == Allocate(c, h4, h8, nics, wanted, used4, used6)
    ensures r.Some? ==> |r.value.ips| == |nics| + 1 && |r.value.ip6s| == |nics|
    ensures r.Some? ==> FreshSeq(r.value.ips, used4) && FreshSeq(r.value.ip6s, used6)
  {
    AllocateFresh(c, h4, h8, nics, wanted, used4, used6);
    var p := Primary(c, h4, wanted, used4);
    if p.None? { return None; }
    var rest := AllocLoop(c, h4, h8, nics, used4 + {p.value}, used6);
    r := if rest.None? then None else Some(Alloc([p.value] + rest.value.ips, rest.value.ip6s));
  }

  // ---- the IPv6 refusal cannot happen ------------------------------------------------

  /** Every used address of the default /64 is in its low pool or pairs with a used IPv4 address. */
  ghost predicate Backed(c: Config, used4: set<nat>, used6: set<nat>) {
    forall x :: x in used6 && AbovePool(c, x) ==> Paired(c, used4, x)
  }

  predicate AbovePool(c: Config, x: nat) { In(x, c.default6) && x > c.default6.base + MAX_POOL_ADDRESSES }

  ghost predicate Paired(c: Config, used4: set<nat>, x: nat) {
    exists a :: a in used4 && a < IPV4_SPACE && x == NicIp6(c, a)
  }

  lemma PairedGrows(c: Config, used4: set<nat>, more: set<nat>, x: nat)
    requires Paired(c, used4, x) && used4 <= more
    ensures Paired(c, more, x)
  {
    var a :| a in used4 && a < IPV4_SPACE && x == NicIp6(c, a);
    assert a in more;
  }

  lemma BackedGrows(c: Config, used4: set<nat>, more: set<nat>, used6: set<nat>)
    requires Backed(c, used4, used6) && used4 <= more
    ensures Backed(c, more, used6)
  {
    forall x | x in used6 && AbovePool(c, x) ensures Paired(c, more, x) {
      PairedGrows(c, used4, more, x);
    }
  }

  lemma PickStaysBacked(c: Config, h4: nat, h8: nat, n: Nic, used4: set<nat>, used6: set<nat>)
    requires ConfigOk(c) && NicOk(n) && Compatible(c.default6, Net6(c, n)) && Backed(c, used4, used6)
    requires Pick4(c, h4, h8, n, used4).Some?
    ensures var p4 := Pick4(c, h4, h8, n, used4).value; var p6 := Pick6(c, h8, n, p4, used6);
            p6.Some? ==> p6.value !in used6 && Backed(c, used4 + {p4}, used6 + {p6.value})
  {
    PickPlaces(c, h4, h8, n, used4, used6);
    var p4 := Pick4(c, h4, h8, n, used4).value;
    var p6 := Pick6(c, h8, n, p4, used6);
    if p6.Some? {
      NicIp6InDefault(c, p4);
      if n.subnet6.Some? {
        SelectIsExact(h8, n.subnet6.value, used6);
      } else if p6.value in used6 {
        var a :| a in used4 && a < IPV4_SPACE && p6.value == NicIp6(c, a);
        NicIp6Injective(c, a, p4);
      }
      BackedGrows(c, used4, used4 + {p4}, used6);
      assert p4 in used4 + {p4};
      assert AbovePool(c, p6.value) ==> n.subnet6.None?;
    }
  }

  /** Allocation as it would be without the "IPv6 address already used" refusal. */
  function AllocNicsUnchecked(c: Config, h4: nat, h8: nat, nics: seq<Nic>, used4: set<nat>,
                              used6: set<nat>): Option<Alloc>
    decreases |nics|
  {
    if nics == [] then Some(Alloc([], []))
    else
      var p4 := Pick4(c, h4, h8, nics[0], used4);
      if p4.None? then None
      else
        var p6 := Pick6(c, h8, nics[0], p4.value, used6);
        if p6.None? then None
        else
          Prepend([p4.value], [p6.value],
                  AllocNicsUnchecked(c, h4, h8, nics[1..], used4 + {p4.value}, used6 + {p6.value}))
  }

  /** Uniqueness of the paired IPv6 addresses is inherited from the IPv4 allocator. */
  lemma {:induction false} Ipv6RefusalIsUnreachable(c: Config, h4: nat, h8: nat, nics: seq<Nic>, used4: set<nat>,
                                                    used6: set<nat>)
    requires ConfigOk(c) && NicsOk(nics) && Backed(c, used4, used6)
    requires forall i :: 0 <= i < |nics| ==> Compatible(c.default6, Net6(c, nics[i]))
    ensures AllocNics(c, h4, h8, nics, used4, used6) == AllocNicsUnchecked(c, h4, h8, nics, used4, used6)
    decreases |nics|
  {
    if nics != [] {
      var p4 := Pick4(c, h4, h8, nics[0], used4);
      if p4.Some? {
        PickStaysBacked(c, h4, h8, nics[0], used4, used6);
        var p6 := Pick6(c, h8, nics[0], p4.value, used6);
        if p6.Some? {
          Ipv6RefusalIsUnreachable(c, h4, h8, nics[1..], used4 + {p4.value}, used6 + {p6.value});
        }
      }
    }
  }
}
