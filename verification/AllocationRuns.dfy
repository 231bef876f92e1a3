/** Every interleaving of allocations with destroys: the lock holder reads the other
    VMs one at a time, allocates, and saves its record before it lets the lock go. */
module AllocationRuns {
  import opened Text
  import opened AddressPool
  import opened Allocation

  datatype Record = Record(ip: nat, nicIps: seq<nat>, nicIp6s: seq<nat>, nics: seq<Nic>)

  function Addrs4(r: Record): seq<nat> { [r.ip] + r.nicIps }

  function Stored4(r: Record): set<Net> { set n | n in r.nics && n.subnet.Some? :: n.subnet.value }
  function Stored6(r: Record): set<Net> { set n | n in r.nics && n.subnet6.Some? :: n.subnet6.value }

  datatype Scan = Scan(
    name: string, nics: seq<Nic>, wanted: Option<nat>, todo: set<string>,
    used4: set<nat>, used6: set<nat>, nets4: set<Net>, nets6: set<Net>)

  datatype World = World(vms: map<string, Record>, lock: Option<Scan>)

  datatype Step =
    | Begin(name: string, nics: seq<Nic>, wanted: Option<nat>)
    | Read(peer: string)
    | Commit(h4: nat, h8: nat)
    | Abandon
    | Destroy(name: string)

  /** The overlap check of the new layout against every subnet read. */
  predicate NetsFit(c: Config, l: Scan) {
    && AllCompatible({c.default4} + l.nets4 + Nets4(c, l.nics))
    && AllCompatible({c.default6} + l.nets6 + Nets6(c, l.nics))
  }

  function NewRecord(l: Scan, a: Alloc): Record
    requires a.ips != []
  {
    Record(a.ips[0], a.ips[1..], a.ip6s, l.nics)
  }

  function AllocFor(c: Config, l: Scan, h4: nat, h8: nat): Option<Alloc> {
    if NetsFit(c, l) then Allocate(c, h4, h8, l.nics, l.wanted, l.used4, l.used6) else None
  }

  /** What the scan knows once it has read the record of VM `n`. */
  function ReadInto(l: Scan, n: string, r: Record): Scan {
    l.(todo := l.todo - {n},
       used4 := l.used4 + (set x | x in Addrs4(r)), used6 := l.used6 + (set x | x in r.nicIp6s),
       nets4 := l.nets4 + Stored4(r), nets6 := l.nets6 + Stored6(r))
  }

  /** One step; a step that is not enabled changes nothing, and a refused commit saves nothing. */
  function Do(c: Config, w: World, s: Step): World {
    match s
    case Begin(name, nics, wanted) =>
      if w.lock.None? && LayoutOk(c, nics) && NicsOk(nics)
      then w.(lock := Some(Scan(name, nics, wanted, w.vms.Keys - {name}, {}, {}, {}, {}))) else w
    case Read(n) =>
      if w.lock.None? || n !in w.lock.value.todo then w
      else
        var l := w.lock.value.(todo := w.lock.value.todo - {n});
        if n !in w.vms then w.(lock := Some(l))
        else
          w.(lock := Some(ReadInto(l, n, w.vms[n])))
    case Commit(h4, h8) =>
      if w.lock.None? || w.lock.value.todo != {} then w
      else
        var a := AllocFor(c, w.lock.value, h4, h8);
        if a.None? || a.value.ips == [] then w.(lock := None)
        else World(w.vms[w.lock.value.name := NewRecord(w.lock.value, a.value)], None)
    case Abandon => w.(lock := None)
    case Destroy(n) => w.(vms := w.vms - {n})
  }

  function Run(c: Config, w: World, s: seq<Step>): World {
    if s == [] then w else Do(c, Run(c, w, s[..|s| - 1]), s[|s| - 1])
  }

  /** The scan of one host, peer by peer: what it gathers is exactly what the records hold. */
  method StoredAddressState(vms: map<string, Record>, names: seq<string>, l: Scan) returns (r: Scan)
    requires l.used4 == {} && l.used6 == {} && l.nets4 == {} && l.nets6 == {}
    ensures r.name == l.name && r.nics == l.nics && r.wanted == l.wanted
    ensures forall x :: x in r.used4 <==> exists n :: n in names && n != l.name && n in vms && x in Addrs4(vms[n])
    ensures forall x :: x in r.used6 <==> exists n :: n in names && n != l.name && n in vms && x in vms[n].nicIp6s
    ensures forall x :: x in r.nets4 <==> exists n :: n in names && n != l.name && n in vms && x in Stored4(vms[n])
    ensures forall x :: x in r.nets6 <==> exists n :: n in names && n != l.name && n in vms && x in Stored6(vms[n])
  {
    r := l;
    for i := 0 to |names|
      invariant r.name == l.name && r.nics == l.nics && r.wanted == l.wanted
      invariant forall x :: x in r.used4 <==>
                exists n :: n in names[..i] && n != l.name && n in vms && x in Addrs4(vms[n])
      invariant forall x :: x in r.used6 <==>
                exists n :: n in names[..i] && n != l.name && n in vms && x in vms[n].nicIp6s
      invariant forall x :: x in r.nets4 <==>
                exists n :: n in names[..i] && n != l.name && n in vms && x in Stored4(vms[n])
      invariant forall x :: x in r.nets6 <==>
                exists n :: n in names[..i] && n != l.name && n in vms && x in Stored6(vms[n])
    {
      assert names[..i + 1] == names[..i] + [names[i]];
      if names[i] != l.name && names[i] in vms {
        r := ReadInto(r, names[i], vms[names[i]]);
      }
    }
    assert names[..|names|] == names;
  }

  /** The whole allocation: layout check, scan, overlap check, addresses.  What it grants is
      new to every other VM, and lies in networks compatible with all of theirs. */
  method AllocVmAddresses(c: Config, vms: map<string, Record>, names: seq<string>, name: string,
                          nics: seq<Nic>, wanted: Option<nat>, h4: nat, h8: nat) returns (r: Option<Alloc>, l: Scan)
    requires ConfigOk(c)
    ensures r == if LayoutOk(c, nics) then AllocFor(c, l, h4, h8) else None
    ensures l.name == name && l.nics == nics && l.wanted == wanted
    ensures r.Some? ==> LayoutOk(c, nics) && NetsFit(c, l)
    ensures r.Some? ==> forall n :: n in names && n != name && n in vms ==>
              && (forall x :: x in r.value.ips ==> x !in Addrs4(vms[n]))
                && (forall x :: x in r.value.ip6s ==> x !in vms[n].nicIp6s)
              && Stored4(vms[n]) <= l.nets4 && Stored6(vms[n]) <= l.nets6
  {
    l := Scan(name, nics, wanted, {}, {}, {}, {}, {});
    if !LayoutOk(c, nics) { return None, l; }
    l := StoredAddressState(vms, names, l);
    if !NetsFit(c, l) { return None, l; }
    r := AllocAddresses(c, h4, h8, nics, wanted, l.used4, l.used6);
    if r.Some? {
      forall n | n in names && n != name && n in vms
        ensures (forall x :: x in r.value.ips ==> x !in Addrs4(vms[n]))
                && (forall x :: x in r.value.ip6s ==> x !in vms[n].nicIp6s)
      {
        FreshAvoids(r.value.ips, l.used4, Addrs4(vms[n]));
        FreshAvoids(r.value.ip6s, l.used6, vms[n].nicIp6s);
      }
    }
  }

  lemma FreshAvoids(s: seq<nat>, used: set<nat>, t: seq<nat>)
    requires FreshSeq(s, used) && forall x :: x in t ==> x in used
    ensures forall x :: x in s ==> x !in t
  {
  }

  // ---- the invariant ---------------------------------------------------------------

  predicate Distinct(s: seq<nat>) { forall i, j :: 0 <= i < j < |s| ==> s[i] != s[j] }

  predicate Apart(s: seq<nat>, t: seq<nat>) { forall x :: x in s ==> x !in t }

  predicate ApartRecords(r: Record, s: Record) { Apart(Addrs4(r), Addrs4(s)) && Apart(r.nicIp6s, s.nicIp6s) }

  ghost predicate RecordOk(c: Config, r: Record) {
    && |r.nicIps| == |r.nics| == |r.nicIp6s|
    && IsHost(r.ip, c.mgmt) && NicsOk(r.nics) && LayoutOk(c, r.nics)
    && (forall i :: 0 <= i < |r.nics| ==> Placed(c, r.nics[i], r.nicIps[i], r.nicIp6s[i]))
    && Distinct(Addrs4(r)) && Distinct(r.nicIp6s)
  }

  /** The data subnets in use, the default included. */
  function InUse4(c: Config, vms: map<string, Record>): set<Net> {
    {c.default4} + set n, x | n in vms && x in Stored4(vms[n]) :: x
  }
  function InUse6(c: Config, vms: map<string, Record>): set<Net> {
    {c.default6} + set n, x | n in vms && x in Stored6(vms[n]) :: x
  }

  ghost predicate Good(c: Config, vms: map<string, Record>) {
    && (forall n :: n in vms ==> RecordOk(c, vms[n]))
    && (forall n, m :: n in vms && m in vms && n != m ==> ApartRecords(vms[n], vms[m]))
    && AllCompatible(InUse4(c, vms)) && AllCompatible(InUse6(c, vms))
    && (forall x :: x in InUse4(c, vms) ==> !Overlaps(x, c.mgmt))
  }

  /** What the scan has read of one record. */
  ghost predicate Covered(l: Scan, r: Record) {
    && (forall x :: x in Addrs4(r) ==> x in l.used4) && (forall x :: x in r.nicIp6s ==> x in l.used6)
    && Stored4(r) <= l.nets4 && Stored6(r) <= l.nets6
  }

  ghost predicate ScanOk(c: Config, vms: map<string, Record>, l: Scan) {
    && LayoutOk(c, l.nics) && NicsOk(l.nics) && Backed(c, l.used4, l.used6)
    && (forall n :: n in vms && n != l.name ==> n in l.todo || Covered(l, vms[n]))
  }

  ghost predicate Inv(c: Config, w: World) {
    Good(c, w.vms) && (w.lock.Some? ==> ScanOk(c, w.vms, w.lock.value))
  }

  // ---- every step keeps it ------------------------------------------------------------

  lemma Slash24sDisjoint(c: Config)
    requires ConfigOk(c)
    ensures !Overlaps(c.default4, c.mgmt)
  {
  }

  lemma FewerStaysGood(c: Config, vms: map<string, Record>, keep: map<string, Record>)
    requires Good(c, vms)
    requires forall n :: n in keep ==> n in vms && keep[n] == vms[n]
    ensures Good(c, keep)
  {
    assert InUse4(c, keep) <= InUse4(c, vms);
    assert InUse6(c, keep) <= InUse6(c, vms);
  }

  /** A record read keeps every used IPv6 address accounted for. */
  lemma ReadStaysBacked(c: Config, r: Record, used4: set<nat>, used6: set<nat>)
    requires ConfigOk(c) && RecordOk(c, r) && Backed(c, used4, used6)
    ensures Backed(c, used4 + (set x | x in Addrs4(r)), used6 + (set x | x in r.nicIp6s))
  {
    var u4 := used4 + (set x | x in Addrs4(r));
    BackedGrows(c, used4, u4, used6);
    forall x | x in r.nicIp6s && AbovePool(c, x) ensures Paired(c, u4, x) {
      PairedInRecord(c, r, u4, x);
    }
  }

  lemma PairedInRecord(c: Config, r: Record, used4: set<nat>, x: nat)
    requires ConfigOk(c) && RecordOk(c, r) && x in r.nicIp6s && AbovePool(c, x)
    requires forall a :: a in Addrs4(r) ==> a in used4
    ensures Paired(c, used4, x)
  {
    var i :| 0 <= i < |r.nicIp6s| && r.nicIp6s[i] == x;
    RecordAddressPaired(c, r, i);
    NicAddress(r, i);
    PairedBy(c, used4, r.nicIps[i], x);
  }

  lemma NicAddress(r: Record, i: nat)
    requires i < |r.nicIps|
    ensures r.nicIps[i] in Addrs4(r)
  {
    assert r.nicIps[i] == Addrs4(r)[i + 1];
  }

  lemma PairedBy(c: Config, used4: set<nat>, a: nat, x: nat)
    requires a in used4 && a < IPV4_SPACE && x == NicIp6(c, a)
    ensures Paired(c, used4, x)
  {
  }

  /** An address of the default /64 above its pool pairs with the NIC's IPv4 address. */
  lemma RecordAddressPaired(c: Config, r: Record, i: nat)
    requires ConfigOk(c) && RecordOk(c, r) && i < |r.nics|
    requires AbovePool(c, r.nicIp6s[i])
    ensures r.nicIps[i] < IPV4_SPACE && r.nicIp6s[i] == NicIp6(c, r.nicIps[i])
  {
    var n := r.nics[i];
    assert Placed(c, n, r.nicIps[i], r.nicIp6s[i]) && NicOk(n);
    assert Net6(c, n) in Nets6(c, r.nics);
    assert n.subnet6.Some? ==> Compatible(c.default6, n.subnet6.value);
  }

  lemma ReadKeeps(c: Config, w: World, n: string)
    requires ConfigOk(c) && Inv(c, w)
    ensures Inv(c, Do(c, w, Read(n)))
  {
    if w.lock.Some? && n in w.lock.value.todo {
      ReadCovers(c, w.vms, w.lock.value, n);
    }
  }

  lemma ReadCovers(c: Config, vms: map<string, Record>, l: Scan, n: string)
    requires ConfigOk(c) && ScanOk(c, vms, l) && n in l.todo && (n in vms ==> RecordOk(c, vms[n]))
    ensures ScanOk(c, vms, if n in vms then ReadInto(l, n, vms[n]) else l.(todo := l.todo - {n}))
  {
    if n in vms {
      ReadStaysBacked(c, vms[n], l.used4, l.used6);
      var l' := ReadInto(l, n, vms[n]);
      assert Covered(l', vms[n]);
      forall m | m in vms && m != l'.name ensures m in l'.todo || Covered(l', vms[m]) {
        assert Covered(l, vms[m]) ==> Covered(l', vms[m]);
      }
    }
  }

  /** The record about to be saved meets every condition on records. */
  lemma NewRecordOk(c: Config, l: Scan, h4: nat, h8: nat)
    requires ConfigOk(c) && LayoutOk(c, l.nics) && NicsOk(l.nics)
    requires AllocFor(c, l, h4, h8).Some?
    ensures var a := AllocFor(c, l, h4, h8).value;
            && a.ips != [] && RecordOk(c, NewRecord(l, a))
            && (forall x :: x in Addrs4(NewRecord(l, a)) ==> x !in l.used4)
            && (forall x :: x in a.ip6s ==> x !in l.used6)
  {
    AllocateFresh(c, h4, h8, l.nics, l.wanted, l.used4, l.used6);
    var a := AllocFor(c, l, h4, h8).value;
    assert Addrs4(NewRecord(l, a)) == a.ips;
  }

  /** The networks in use after the save were all in the overlap check. */
  lemma NewNetsChecked4(c: Config, vms: map<string, Record>, l: Scan, r: Record)
    requires ScanOk(c, vms, l) && l.todo == {} && r.nics == l.nics
    ensures Stored4(r) <= Nets4(c, l.nics)
    ensures InUse4(c, vms[l.name := r]) <= {c.default4} + l.nets4 + Nets4(c, l.nics)
  {
    forall x | x in Stored4(r) ensures x in Nets4(c, l.nics) {
      var n :| n in r.nics && n.subnet.Some? && n.subnet.value == x;
      assert Net4(c, n) == x;
    }
    forall n | n in vms && n != l.name ensures Stored4(vms[n]) <= l.nets4 {
      assert Covered(l, vms[n]);
    }
  }

  lemma NewNetsChecked6(c: Config, vms: map<string, Record>, l: Scan, r: Record)
    requires ScanOk(c, vms, l) && l.todo == {} && r.nics == l.nics
    ensures InUse6(c, vms[l.name := r]) <= {c.default6} + l.nets6 + Nets6(c, l.nics)
  {
    forall x | x in Stored6(r) ensures x in Nets6(c, l.nics) {
      var n :| n in r.nics && n.subnet6.Some? && n.subnet6.value == x;
      assert Net6(c, n) == x;
    }
    forall n | n in vms && n != l.name ensures Stored6(vms[n]) <= l.nets6 {
      assert Covered(l, vms[n]);
    }
  }

  lemma ClearOfManagement(c: Config, vms: map<string, Record>, l: Scan, r: Record)
    requires ConfigOk(c) && ScanOk(c, vms, l) && l.todo == {} && r.nics == l.nics
    requires forall x :: x in InUse4(c, vms) ==> !Overlaps(x, c.mgmt)
    ensures forall x :: x in InUse4(c, vms[l.name := r]) ==> !Overlaps(x, c.mgmt)
  {
    NewNetsChecked4(c, vms, l, r);
    forall x | x in InUse4(c, vms[l.name := r]) ensures !Overlaps(x, c.mgmt) {
      assert x in InUse4(c, vms) || x in Stored4(r);
      assert l.nics == [] ==> Stored4(r) == {};
    }
  }

  lemma Fewer(s: set<Net>, t: set<Net>)
    requires s <= t && AllCompatible(t)
    ensures AllCompatible(s)
  {
  }

  lemma NewNetsGood(c: Config, vms: map<string, Record>, l: Scan, r: Record)
    requires ConfigOk(c) && Good(c, vms) && ScanOk(c, vms, l) && l.todo == {} && NetsFit(c, l) && r.nics == l.nics
    ensures var vms' := vms[l.name := r];
            && AllCompatible(InUse4(c, vms')) && AllCompatible(InUse6(c, vms'))
            && forall x :: x in InUse4(c, vms') ==> !Overlaps(x, c.mgmt)
  {
    var vms' := vms[l.name := r];
    NewNetsChecked4(c, vms, l, r);
    NewNetsChecked6(c, vms, l, r);
    Fewer(InUse4(c, vms'), {c.default4} + l.nets4 + Nets4(c, l.nics));
    Fewer(InUse6(c, vms'), {c.default6} + l.nets6 + Nets6(c, l.nics));
    ClearOfManagement(c, vms, l, r);
  }

  lemma CommitKeeps(c: Config, w: World, h4: nat, h8: nat)
    requires ConfigOk(c) && Inv(c, w)
    ensures Inv(c, Do(c, w, Commit(h4, h8)))
  {
    if w.lock.Some? && w.lock.value.todo == {} && AllocFor(c, w.lock.value, h4, h8).Some? {
      var l := w.lock.value;
      NewRecordOk(c, l, h4, h8);
      var r := NewRecord(l, AllocFor(c, l, h4, h8).value);
      CommittedIsGood(c, w.vms, l, r);
    }
  }

  lemma CommittedIsGood(c: Config, vms: map<string, Record>, l: Scan, r: Record)
    requires ConfigOk(c) && Good(c, vms) && ScanOk(c, vms, l) && l.todo == {} && NetsFit(c, l) && r.nics == l.nics
    requires RecordOk(c, r)
    requires forall x :: x in Addrs4(r) ==> x !in l.used4
    requires forall x :: x in r.nicIp6s ==> x !in l.used6
    ensures Good(c, vms[l.name := r])
  {
    NewNetsGood(c, vms, l, r);
    NewStaysApart(c, vms, l, r);
  }

  lemma NewStaysApart(c: Config, vms: map<string, Record>, l: Scan, r: Record)
    requires ScanOk(c, vms, l) && l.todo == {}
    requires forall n, m :: n in vms && m in vms && n != m ==> ApartRecords(vms[n], vms[m])
    requires forall x :: x in Addrs4(r) ==> x !in l.used4
    requires forall x :: x in r.nicIp6s ==> x !in l.used6
    ensures var vms' := vms[l.name := r]; forall n, m :: n in vms' && m in vms' && n != m ==>
            ApartRecords(vms'[n], vms'[m])
  {
    var vms' := vms[l.name := r];
    forall n, m | n in vms' && m in vms' && n != m ensures ApartRecords(vms'[n], vms'[m]) {
      if n == l.name { assert Covered(l, vms'[m]); }
      if m == l.name { assert Covered(l, vms'[n]); }
    }
  }

  lemma StepKeeps(c: Config, w: World, s: Step)
    requires ConfigOk(c) && Inv(c, w)
    ensures Inv(c, Do(c, w, s))
  {
    match s {
      case Read(n) => ReadKeeps(c, w, n);
      case Commit(h4, h8) => CommitKeeps(c, w, h4, h8);
      case Destroy(n) => FewerStaysGood(c, w.vms, w.vms - {n});
      case _ =>
    }
  }

  /** In every run from a host without VMs: saved addresses are pairwise different in both
      families, each lies in its NIC's network, and data subnets in use are equal or
      disjoint and clear of the management subnet. */
  lemma {:induction false} EveryRunIsGood(c: Config, s: seq<Step>)
    requires ConfigOk(c)
    ensures Inv(c, Run(c, World(map[], None), s))
  {
    if s == [] {
      Slash24sDisjoint(c);
      assert InUse4(c, map[]) == {c.default4} && InUse6(c, map[]) == {c.default6};
    } else {
      EveryRunIsGood(c, s[..|s| - 1]);
      StepKeeps(c, Run(c, World(map[], None), s[..|s| - 1]), s[|s| - 1]);
    }
  }

  /** Two saved IPv4 addresses are equal only when they are the same entry of the same VM. */
  lemma SavedAddressesAreUnique(c: Config, s: seq<Step>, n: string, i: nat, m: string, j: nat)
    requires ConfigOk(c)
    requires var vms := Run(c, World(map[], None), s).vms;
             n in vms && m in vms && i < |Addrs4(vms[n])| && j < |Addrs4(vms[m])|
             && Addrs4(vms[n])[i] == Addrs4(vms[m])[j]
    ensures n == m && i == j
  {
    EveryRunIsGood(c, s);
    var vms := Run(c, World(map[], None), s).vms;
    assert n != m ==> ApartRecords(vms[n], vms[m]);
    assert Addrs4(vms[n])[i] in Addrs4(vms[n]);
    assert Distinct(Addrs4(vms[n]));
  }

  /** ... and so are two saved IPv6 addresses, compared as numbers. */
  lemma SavedIpv6AddressesAreUnique(c: Config, s: seq<Step>, n: string, i: nat, m: string, j: nat)
    requires ConfigOk(c)
    requires var vms := Run(c, World(map[], None), s).vms;
             n in vms && m in vms && i < |vms[n].nicIp6s| && j < |vms[m].nicIp6s|
             && vms[n].nicIp6s[i] == vms[m].nicIp6s[j]
    ensures n == m && i == j
  {
    EveryRunIsGood(c, s);
    var vms := Run(c, World(map[], None), s).vms;
    assert n != m ==> ApartRecords(vms[n], vms[m]);
    assert vms[n].nicIp6s[i] in vms[n].nicIp6s;
    assert RecordOk(c, vms[n]);
  }

  /** An IPv4 address lies in at most one network in use, the management subnet included. */
  lemma AddressInOneNetwork(c: Config, s: seq<Step>, a: Net, b: Net, x: nat)
    requires ConfigOk(c)
    requires var nets := InUse4(c, Run(c, World(map[], None), s).vms) + {c.mgmt}; a in nets && b in nets
    requires In(x, a) && In(x, b)
    ensures a == b
  {
    EveryRunIsGood(c, s);
    var vms := Run(c, World(map[], None), s).vms;
    if a != c.mgmt && b != c.mgmt {
      StoredVersions(c, vms);
      AtMostOneNetwork(InUse4(c, vms), a, b, x);
    }
  }

  lemma StoredVersions(c: Config, vms: map<string, Record>)
    requires ConfigOk(c) && Good(c, vms)
    ensures forall n :: n in InUse4(c, vms) ==> n.version == 4
  {
    forall x | x in InUse4(c, vms) ensures x.version == 4 {
      if x != c.default4 {
        var n :| n in vms && x in Stored4(vms[n]);
        var nic :| nic in vms[n].nics && nic.subnet.Some? && nic.subnet.value == x;
        var i :| 0 <= i < |vms[n].nics| && vms[n].nics[i] == nic;
        assert NicOk(vms[n].nics[i]);
      }
    }
  }

  /** In every run, the check for a used IPv6 address never refuses an allocation: only
      a taken --ip, a subnet conflict or a full pool does. */
  lemma Ipv6NeverRefused(c: Config, s: seq<Step>, h4: nat, h8: nat)
    requires ConfigOk(c)
    requires Run(c, World(map[], None), s).lock.Some?
    requires NetsFit(c, Run(c, World(map[], None), s).lock.value)
    ensures var l := Run(c, World(map[], None), s).lock.value; var p := Primary(c, h4, l.wanted, l.used4);
            p.Some? ==>
              AllocNics(c, h4, h8, l.nics, l.used4 + {p.value}, l.used6)
              == AllocNicsUnchecked(c, h4, h8, l.nics, l.used4 + {p.value}, l.used6)
  {
    EveryRunIsGood(c, s);
    var l := Run(c, World(map[], None), s).lock.value;
    var p := Primary(c, h4, l.wanted, l.used4);
    if p.Some? {
      var u4 := l.used4 + {p.value};
      BackedGrows(c, l.used4, u4, l.used6);
      forall i | 0 <= i < |l.nics| ensures Compatible(c.default6, Net6(c, l.nics[i])) {
        assert Net6(c, l.nics[i]) in Nets6(c, l.nics);
      }
      Ipv6RefusalIsUnreachable(c, h4, h8, l.nics, u4, l.used6);
    }
  }

  /** A commit saves exactly one record or none; no other step adds or changes one. */
  lemma OnlyCommitsSave(c: Config, w: World, s: Step, n: string)
    requires n in Do(c, w, s).vms
    ensures (n in w.vms && Do(c, w, s).vms[n] == w.vms[n])
            || (s.Commit? && w.lock.Some? && n == w.lock.value.name && AllocFor(c, w.lock.value, s.h4, s.h8).Some?)
  {
  }
}
