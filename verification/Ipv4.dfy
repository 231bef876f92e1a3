/** IPv4 addresses and networks as Python's ipaddress module reads and writes them. */
module Ipv4 {
  import opened Text

  function Pow2(n: nat): (r: nat)
    ensures r > 0
  {
    if n == 0 then 1 else 2 * Pow2(n - 1)
  }

  const ALL := 0x1_0000_0000

  lemma AllIsPow2()
    ensures Pow2(32) == ALL
  {
    assert Pow2(8) == 256;
    assert Pow2(16) == 65536;
    assert Pow2(24) == 16777216;
  }

  // ---- dotted quads ---------------------------------------------------------------------

  predicate OctetOk(s: string) {
    s != "" && AllDigits(s) && |s| <= 3 && (s[0] == '0' ==> s == "0") && ParseDecimal(s) <= 255
  }

  predicate Four(o: seq<string>) { |o| == 4 && OctetOk(o[0]) && OctetOk(o[1]) && OctetOk(o[2]) && OctetOk(o[3]) }

  function Value4(o: seq<string>): (a: nat)
    requires Four(o)
    ensures a < ALL
  {
    ((ParseDecimal(o[0]) * 256 + ParseDecimal(o[1])) * 256 + ParseDecimal(o[2])) * 256 + ParseDecimal(o[3])
  }

  function ParseQuad(s: string): (r: Option<nat>)
    ensures r.Some? ==> r.value < ALL
  {
    if Four(Split(s, '.')) then Some(Value4(Split(s, '.'))) else None
  }

  function Octets(a: nat): seq<string> {
    [Decimal(a / 16777216), Decimal(a / 65536 % 256), Decimal(a / 256 % 256), Decimal(a % 256)]
  }

  function PrintQuad(a: nat): string { Join(Octets(a), '.') }

  lemma DecimalIsOctet(n: nat)
    requires n <= 255
    ensures OctetOk(Decimal(n)) && ParseDecimal(Decimal(n)) == n && '.' !in Decimal(n)
  {
    DecimalRoundTrip(n);
    DecimalShort(n);
    var s := Decimal(n);
    assert s[0] == '0' && |s| == 1 ==> s == "0";
  }

  lemma Digits256(a: nat)
    requires a < ALL
    ensures a / 16777216 <= 255
    ensures ((a / 16777216 * 256 + a / 65536 % 256) * 256 + a / 256 % 256) * 256 + a % 256 == a
  {
    assert a / 256 / 256 == a / 65536 && a / 65536 / 256 == a / 16777216;
  }

  lemma OctetTexts(a: nat)
    requires a < ALL
    ensures Four(Octets(a)) && Value4(Octets(a)) == a
    ensures forall i :: 0 <= i < 4 ==> '.' !in Octets(a)[i]
  {
    Digits256(a);
    FourDecimals(a / 16777216, a / 65536 % 256, a / 256 % 256, a % 256);
  }

  lemma FourDecimals(w: nat, x: nat, y: nat, z: nat)
    requires w <= 255 && x <= 255 && y <= 255 && z <= 255
    ensures var o := [Decimal(w), Decimal(x), Decimal(y), Decimal(z)];
            && Four(o) && Value4(o) == ((w * 256 + x) * 256 + y) * 256 + z
            && '.' !in o[0] && '.' !in o[1] && '.' !in o[2] && '.' !in o[3]
  {
    DecimalIsOctet(w);
    DecimalIsOctet(x);
    DecimalIsOctet(y);
    DecimalIsOctet(z);
    FourValue([Decimal(w), Decimal(x), Decimal(y), Decimal(z)], w, x, y, z);
  }

  lemma FourValue(o: seq<string>, w: nat, x: nat, y: nat, z: nat)
    requires Four(o) && ParseDecimal(o[0]) == w && ParseDecimal(o[1]) == x && ParseDecimal(o[2]) == y
             && ParseDecimal(o[3]) == z
    ensures Value4(o) == ((w * 256 + x) * 256 + y) * 256 + z
  {
  }

  /** Every address is read back from its text. */
  lemma QuadRoundTrip(a: nat)
    requires a < ALL
    ensures ParseQuad(PrintQuad(a)) == Some(a)
  {
    OctetTexts(a);
    SplitJoin(Octets(a), '.');
  }

  // ---- prefixes and masks ------------------------------------------------------------------

  function LowZeros(m: nat): (z: nat)
    requires m > 0
  {
    if m % 2 == 1 then 0 else 1 + LowZeros(m / 2)
  }

  /** How many low bits are zero, at most 32. */
  function TrailingZeros(m: nat): (z: nat)
    ensures z <= 32
  {
    if m == 0 || LowZeros(m) > 32 then 32 else LowZeros(m)
  }

  lemma {:induction false} LowZerosDivide(m: nat)
    requires m > 0
    ensures var z := LowZeros(m); m == Pow2(z) * (m / Pow2(z)) && m >= Pow2(z)
  {
    if m % 2 == 0 {
      LowZerosDivide(m / 2);
      var p := Pow2(LowZeros(m / 2));
      var q := m / 2 / p;
      assert m == 2 * (p * q) == (2 * p) * q + 0;
      DivUnique(m, 2 * p, q, 0);
    }
  }

  lemma {:induction false} LowZerosOfOdd(z: nat, odd: nat)
    requires odd % 2 == 1
    ensures Pow2(z) * odd > 0 && LowZeros(Pow2(z) * odd) == z
  {
    if z > 0 {
      LowZerosOfOdd(z - 1, odd);
      var a := Pow2(z - 1);
      Doubled(a, odd);
    }
  }

  lemma Doubled(a: nat, b: nat)
    ensures (2 * a) * b == 2 * (a * b) && (2 * (a * b)) % 2 == 0 && (2 * (a * b)) / 2 == a * b
  {
    var h := a * b;
    assert (2 * h) % 2 == 0 && (2 * h) / 2 == h;
  }

  lemma MulMono(d: nat, a: nat, b: nat)
    ensures a < b ==> d * a + d <= d * b
  {
    if a < b {
      var c := b - a - 1;
      assert d * b == d * a + d + d * c;
    }
  }

  lemma DivUnique(n: nat, d: nat, q: nat, r: nat)
    requires d > 0 && r < d && n == d * q + r
    ensures n / d == q && n % d == r
  {
    MulMono(d, n / d, q);
    MulMono(d, q, n / d);
    assert n == d * (n / d) + n % d;
  }

  /** The prefix length a netmask stands for: ones, then zeros. */
  function MaskPrefix(m: nat): Option<nat> {
    var z := TrailingZeros(m);
    if m / Pow2(z) == Pow2(32 - z) - 1 then Some(32 - z) else None
  }

  lemma PowBelowAll(p: nat)
    requires p <= 32
    ensures Pow2(32 - p) <= ALL && (p > 0 ==> Pow2(32 - p) < ALL)
  {
    AllIsPow2();
    PowLess(32 - p, 32);
  }

  function Netmask(p: nat): (m: nat)
    requires p <= 32
    ensures p > 0 ==> m > 0
  {
    PowBelowAll(p);
    ALL - Pow2(32 - p)
  }

  lemma {:induction false} PowLess(a: nat, b: nat)
    requires a <= b
    ensures Pow2(a) <= Pow2(b) && (a < b ==> Pow2(a) < Pow2(b))
  {
    if a < b {
      PowLess(a, b - 1);
    }
  }

  lemma {:induction false} PowAdd(a: nat, b: nat)
    ensures Pow2(a + b) == Pow2(a) * Pow2(b)
  {
    if a > 0 {
      PowAdd(a - 1, b);
      assert Pow2(a) * Pow2(b) == 2 * (Pow2(a - 1) * Pow2(b));
    }
  }

  lemma TimesLess(d: nat, x: nat)
    requires x > 0
    ensures d * (x - 1) == d * x - d && d * x >= d
  {
  }

  lemma NetmaskFactors(p: nat)
    requires p <= 32
    ensures Netmask(p) == Pow2(32 - p) * (Pow2(p) - 1)
  {
    AllIsPow2();
    PowAdd(32 - p, p);
    TimesLess(Pow2(32 - p), Pow2(p));
  }

  lemma PowEven(n: nat)
    requires n > 0
    ensures Pow2(n) % 2 == 0
  {
  }

  lemma NetmaskZeros(p: nat)
    requires p <= 32
    ensures TrailingZeros(Netmask(p)) == 32 - p
  {
    if p == 0 {
      NetmaskOfZero();
    } else {
      NetmaskFactors(p);
      OddBelow(p);
      ProductZeros(Netmask(p), 32 - p, Pow2(p) - 1);
    }
  }

  lemma NetmaskOfZero()
    ensures Netmask(0) == 0
  {
    AllIsPow2();
  }

  lemma OddBelow(p: nat)
    requires p > 0
    ensures (Pow2(p) - 1) % 2 == 1
  {
    PowEven(p);
  }

  lemma ProductZeros(m: nat, z: nat, odd: nat)
    requires m == Pow2(z) * odd && odd % 2 == 1 && z <= 32
    ensures TrailingZeros(m) == z
  {
    LowZerosOfOdd(z, odd);
  }

  lemma MaskZerosFit(m: nat)
    requires 0 < m < ALL
    ensures LowZeros(m) <= 32
  {
    LowZerosDivide(m);
    AllIsPow2();
    if LowZeros(m) > 32 {
      PowLess(32, LowZeros(m));
    }
  }

  /** A number is read as a prefix length exactly when it is that prefix's netmask. */
  lemma MaskPrefixMeans(m: nat, p: nat)
    requires m < ALL && p <= 32
    ensures MaskPrefix(m) == Some(p) <==> m == Netmask(p)
  {
    if m == Netmask(p) {
      NetmaskReads(p);
    }
    if MaskPrefix(m) == Some(p) {
      ReadIsNetmask(m, p);
    }
  }

  lemma NetmaskReads(p: nat)
    requires p <= 32
    ensures MaskPrefix(Netmask(p)) == Some(p)
  {
    NetmaskFactors(p);
    NetmaskZeros(p);
    DivUnique(Netmask(p), Pow2(32 - p), Pow2(p) - 1, 0);
  }

  lemma ReadIsNetmask(m: nat, p: nat)
    requires m < ALL && p <= 32 && MaskPrefix(m) == Some(p)
    ensures m == Netmask(p)
  {
    ZerosDivide(m);
    var d, q := Pow2(TrailingZeros(m)), m / Pow2(TrailingZeros(m));
    assert TrailingZeros(m) == 32 - p;
    SameProduct(m, d, q, p);
  }

  lemma SameProduct(m: nat, d: nat, q: nat, p: nat)
    requires p <= 32 && m == d * q && d == Pow2(32 - p) && q == Pow2(p) - 1
    ensures m == Netmask(p)
  {
    NetmaskFactors(p);
  }

  lemma ZerosDivide(m: nat)
    requires m < ALL
    ensures var d := Pow2(TrailingZeros(m)); m == d * (m / d)
  {
    if m > 0 {
      MaskZerosFit(m);
      LowZerosDivide(m);
    } else {
      DivUnique(0, Pow2(TrailingZeros(m)), 0, 0);
    }
  }

  /** "24", "024", "255.255.255.0" and "0.0.0.255" all name the prefix length 24. */
  function ParsePrefix(s: string): Option<nat> {
    if s != "" && AllDigits(s) && ParseDecimal(s) <= 32 then Some(ParseDecimal(s))
    else
      var q := ParseQuad(s);
      if q.None? then None else ReadMask(q.value)
  }

  /** A netmask, or else a host mask. */
  function ReadMask(m: nat): Option<nat>
    requires m < ALL
  {
    if MaskPrefix(m).Some? then MaskPrefix(m) else MaskPrefix(ALL - 1 - m)
  }

  lemma DotsAreNotDigits(a: nat)
    ensures !AllDigits(PrintQuad(a))
  {
    var o := Octets(a);
    assert PrintQuad(a)[|o[0]|] == '.';
  }

  /** Leading zeros do not change a prefix length, ... */
  lemma PrefixWithZeros(p: nat, zeros: string)
    requires p <= 32 && forall i :: 0 <= i < |zeros| ==> zeros[i] == '0'
    ensures ParsePrefix(zeros + Decimal(p)) == Some(p)
  {
    LeadingZeros(zeros, p);
  }

  lemma MaskText(m: nat)
    requires m < ALL
    ensures ParsePrefix(PrintQuad(m)) == ReadMask(m)
  {
    QuadRoundTrip(m);
    DotsAreNotDigits(m);
  }

  /** ... a netmask stands for it, ... */
  lemma PrefixAsNetmask(p: nat)
    requires p <= 32
    ensures Netmask(p) < ALL && ParsePrefix(PrintQuad(Netmask(p))) == Some(p)
  {
    MaskText(Netmask(p));
    MaskPrefixMeans(Netmask(p), p);
  }

  /** ... and so does a host mask; only those of /0 and /32 are taken for the netmasks that
      they are as well. */
  lemma PrefixAsHostmask(p: nat)
    requires p <= 32
    ensures Pow2(32 - p) <= ALL
    ensures ParsePrefix(PrintQuad(Pow2(32 - p) - 1)) == Some(if p == 0 then 32 else if p == 32 then 0 else p)
  {
    PowBelowAll(p);
    var h := Pow2(32 - p) - 1;
    HostmaskReads(p);
    MaskText(h);
  }

  lemma {:induction false} LeadingZeros(zeros: string, p: nat)
    requires forall i :: 0 <= i < |zeros| ==> zeros[i] == '0'
    ensures AllDigits(zeros + Decimal(p)) && ParseDecimal(zeros + Decimal(p)) == p
  {
    DecimalRoundTrip(p);
    ZerosAddNothing(zeros, Decimal(p));
  }

  lemma {:induction false} ZerosAddNothing(zeros: string, s: string)
    requires AllDigits(s) && forall i :: 0 <= i < |zeros| ==> zeros[i] == '0'
    ensures AllDigits(zeros + s) && ParseDecimal(zeros + s) == ParseDecimal(s)
    decreases |zeros| + |s|
  {
    var t := zeros + s;
    if s != "" {
      ZerosAddNothing(zeros, s[..|s| - 1]);
      assert t[..|t| - 1] == zeros + s[..|s| - 1];
    } else if zeros != "" {
      ZerosAddNothing(zeros[..|zeros| - 1], s);
      assert t[..|t| - 1] == zeros[..|zeros| - 1] + s;
    }
  }

  lemma HostmaskReads(p: nat)
    requires p <= 32 && Pow2(32 - p) <= ALL
    ensures ReadMask(Pow2(32 - p) - 1) == Some(if p == 0 then 32 else if p == 32 then 0 else p)
  {
    if p == 0 {
      AllIsPow2();
      NetmaskEven(32);
      MaskPrefixMeans(ALL - 1, 32);
    } else if p == 32 {
      assert Pow2(0) == 1;
      AllIsPow2();
      MaskPrefixMeans(0, 0);
    } else {
      InnerHostmaskReads(p);
    }
  }

  lemma InnerHostmaskReads(p: nat)
    requires 0 < p < 32 && Pow2(32 - p) <= ALL
    ensures ReadMask(Pow2(32 - p) - 1) == Some(p)
  {
    var h := Pow2(32 - p) - 1;
    PowEven(32 - p);
    PowBelowAll(p);
    OddIsNoMask(h);
    MaskPrefixMeans(ALL - 1 - h, p);
  }

  lemma OddIsNoMask(m: nat)
    requires m % 2 == 1 && m < ALL - 1
    ensures MaskPrefix(m).None?
  {
    if MaskPrefix(m).Some? {
      var q := MaskPrefix(m).value;
      MaskPrefixMeans(m, q);
      NetmaskEven(q);
    }
  }

  lemma EvenDifference(x: nat)
    requires x % 2 == 0 && x <= ALL
    ensures (ALL - x) % 2 == 0
  {
  }

  lemma NetmaskEven(q: nat)
    requires q <= 32
    ensures if q == 32 then Netmask(q) == ALL - 1 else Netmask(q) % 2 == 0
  {
    if q < 32 {
      EvenDifference(Pow2(32 - q)) by {
        PowEven(32 - q);
        PowBelowAll(q);
      }
    } else {
      assert Pow2(0) == 1;
    }
  }

  // ---- networks ---------------------------------------------------------------------------------

  datatype Net4 = Net4(addr: nat, prefix: nat)

  /** No address bit below the prefix. */
  predicate NetOk(n: Net4) { n.addr < ALL && n.prefix <= 32 && n.addr % Pow2(32 - n.prefix) == 0 }

  datatype Read4 = Network(net: Net4) | HostBits | NotV4

  /** IPv4Network(text, strict=True); without "/" the prefix length is 32. */
  function ParseNet4(s: string): (r: Read4)
    ensures r.Network? ==> NetOk(r.net)
  {
    var parts := Split(s, '/');
    if |parts| > 2 then NotV4
    else
      var a := ParseQuad(parts[0]);
      var p := if |parts| == 2 then ParsePrefix(parts[1]) else Some(32);
      if a.None? || p.None? then NotV4
      else
        var n := Net4(a.value, p.value);
        if NetOk(n) then Network(n) else HostBits
  }

  function PrintNet4(n: Net4): string { PrintQuad(n.addr) + "/" + Decimal(n.prefix) }

  lemma QuadChars(a: nat)
    ensures forall i :: 0 <= i < |PrintQuad(a)| ==> IsDigit(PrintQuad(a)[i]) || PrintQuad(a)[i] == '.'
    ensures PrintQuad(a) != "" && IsDigit(PrintQuad(a)[0])
  {
    var o := Octets(a);
    assert Join(o[3..], '.') == o[3];
    assert o[2..][1..] == o[3..] && o[1..][1..] == o[2..];
    assert Join(o[2..], '.') == o[2] + "." + o[3];
    assert Join(o[1..], '.') == o[1] + "." + Join(o[2..], '.');
    assert Join(o, '.') == o[0] + "." + Join(o[1..], '.');
  }

  lemma Net4Chars(n: Net4)
    ensures var t := PrintNet4(n);
            t != "" && IsDigit(t[0]) && IsDigit(t[|t| - 1])
            && forall i :: 0 <= i < |t| ==> IsDigit(t[i]) || t[i] == '.' || t[i] == '/'
  {
    QuadChars(n.addr);
  }

  /** Every network is read back from its canonical text. */
  lemma Net4RoundTrip(n: Net4)
    requires NetOk(n)
    ensures ParseNet4(PrintNet4(n)) == Network(n)
  {
    QuadRoundTrip(n.addr);
    QuadChars(n.addr);
    var q, d := PrintQuad(n.addr), Decimal(n.prefix);
    DecimalRoundTrip(n.prefix);
    assert Join([q, d], '/') == q + "/" + d by {
      assert [q, d][1..] == [d];
    }
    SplitJoin([q, d], '/');
  }

  /** Text with a colon is never an IPv4 network. */
  lemma ColonIsNotV4(s: string)
    requires ':' in s
    ensures ParseNet4(s) == NotV4
  {
    var parts := Split(s, '/');
    if |parts| <= 2 {
      ColonInPart(s, '/');
      var i :| 0 <= i < |parts| && ':' in parts[i];
      ColonNotQuad(parts[i]);
    }
  }

  lemma ColonInPart(s: string, sep: char)
    requires ':' in s && sep != ':'
    ensures exists i :: 0 <= i < |Split(s, sep)| && ':' in Split(s, sep)[i]
  {
    JoinSplit(s, sep);
    if forall i :: 0 <= i < |Split(s, sep)| ==> ':' !in Split(s, sep)[i] {
      JoinChars(Split(s, sep), sep, ':');
    }
  }

  lemma ColonNotQuad(s: string)
    requires ':' in s
    ensures ParseQuad(s) == None && !AllDigits(s)
  {
    ColonInPart(s, '.');
    var i :| 0 <= i < |Split(s, '.')| && ':' in Split(s, '.')[i];
    assert !AllDigits(Split(s, '.')[i]);
  }
}
