/** The canonical text of a spec is no longer than the text it came from, IPv6 subnets aside;
    so the length bound never stands in the way of reading it back. */
module NicSpecLength {
  import opened Text
  import opened Ipv4
  import opened NicSpec

  // ---- lengths of texts ----------------------------------------------------------------------

  function Total(items: seq<string>): nat { if items == [] then 0 else |items[0]| + 1 + Total(items[1..]) }

  lemma {:induction false} JoinLength(items: seq<string>, sep: char)
    requires items != []
    ensures |Join(items, sep)| + 1 == Total(items)
  {
    if |items| > 1 {
      JoinLength(items[1..], sep);
    } else {
      assert items[1..] == [];
    }
  }

  lemma {:induction false} TrimEndLength(s: string)
    ensures |TrimEnd(s)| <= |s|
  {
    TrimEndKeepsStart(s);
  }

  lemma StripLength(s: string)
    ensures |Strip(s)| <= |s|
  {
    TrimStartSuffix(s);
    TrimEndLength(TrimStart(s));
  }

  /** Reading a number and writing it again drops zeros, and nothing is added. */
  lemma {:induction false} DecimalLength(s: string)
    requires s != "" && AllDigits(s)
    ensures |Decimal(ParseDecimal(s))| <= |s|
  {
    var t, d := s[..|s| - 1], s[|s| - 1] as int - '0' as int;
    if t == "" {
      assert ParseDecimal(t) == 0;
    } else {
      DecimalLength(t);
      assert (ParseDecimal(t) * 10 + d) / 10 == ParseDecimal(t);
    }
  }

  lemma OctetsOfValue(o: seq<string>)
    requires Four(o)
    ensures Octets(Value4(o))
            == [Decimal(ParseDecimal(o[0])), Decimal(ParseDecimal(o[1])), Decimal(ParseDecimal(o[2])),
            Decimal(ParseDecimal(o[3]))]
  {
    Base256(ParseDecimal(o[0]), ParseDecimal(o[1]), ParseDecimal(o[2]), ParseDecimal(o[3]));
  }

  lemma Base256(a: nat, b: nat, c: nat, d: nat)
    requires a < 256 && b < 256 && c < 256 && d < 256
    ensures var n := ((a * 256 + b) * 256 + c) * 256 + d;
            n / 16777216 == a && n / 65536 % 256 == b && n / 256 % 256 == c && n % 256 == d
  {
    var n := ((a * 256 + b) * 256 + c) * 256 + d;
    assert n / 256 == (a * 256 + b) * 256 + c;
    assert n / 65536 == a * 256 + b;
  }

  lemma QuadLength(s: string)
    requires ParseQuad(s).Some?
    ensures |PrintQuad(ParseQuad(s).value)| <= |s| && |s| >= 7
  {
    var o := Split(s, '.');
    JoinSplit(s, '.');
    OctetsOfValue(o);
    FourTotal(o);
    FourTotal(Octets(Value4(o)));
    JoinLength(o, '.');
    JoinLength(Octets(Value4(o)), '.');
    DecimalLength(o[0]);
    DecimalLength(o[1]);
    DecimalLength(o[2]);
    DecimalLength(o[3]);
  }

  lemma FourTotal(o: seq<string>)
    requires |o| == 4
    ensures Total(o) == |o[0]| + |o[1]| + |o[2]| + |o[3]| + 4
  {
    assert Total(o[3..]) == |o[3]| + 1 + Total(o[4..]) && o[4..] == [];
    assert o[2..][1..] == o[3..] && o[1..][1..] == o[2..] && o[3..][1..] == o[4..];
    assert Total(o[2..]) == |o[2]| + 1 + Total(o[3..]);
    assert Total(o[1..]) == |o[1]| + 1 + Total(o[2..]);
  }

  lemma PrefixLength(s: string)
    requires ParsePrefix(s).Some? && ParsePrefix(s).value <= 32
    ensures |Decimal(ParsePrefix(s).value)| <= |s|
  {
    if s != "" && AllDigits(s) && ParseDecimal(s) <= 32 {
      DecimalLength(s);
    } else {
      QuadLength(s);
      DecimalShort(ParsePrefix(s).value);
    }
  }

  /** A network's canonical text is no longer than the text it was read from. */
  lemma Net4Length(s: string)
    requires ParseNet4(s).Network? && ParseNet4(s).net.prefix <= 30
    ensures |PrintNet4(ParseNet4(s).net)| <= |s|
  {
    var parts := Split(s, '/');
    JoinSplit(s, '/');
    assert |parts| == 2;
    assert parts[1..] == [parts[1]];
    assert s == parts[0] + "/" + parts[1];
    QuadLength(parts[0]);
    PrefixLength(parts[1]);
  }

  // ---- items and values --------------------------------------------------------------------------

  lemma ValueLength(v6: V6, k: Key, s: string)
    requires k != Subnet6 && Convert(v6, k, s).Some?
    ensures |ShowValue(Convert(v6, k, s).value)| <= |s|
  {
    if k == Node {
      DecimalLength(s);
    }
    if k == Subnet {
      Net4Length(s);
    }
  }

  /** What a key adds to the canonical text, its separator included. */
  function Cost(t: Type, values: Values, k: Key): nat {
    if k in values then |ShowItem(t, k, values[k])| + 1 else 0
  }

  function Weight(t: Type, values: Values): nat {
    Cost(t, values, Bdf) + Cost(t, values, Node) + Cost(t, values, Net) + Cost(t, values, Subnet)
      + Cost(t, values, Subnet6)
  }

  lemma WeightAdds(t: Type, values: Values, k: Key, v: Value)
    requires k !in values
    ensures Weight(t, values[k := v]) == Weight(t, values) + |ShowItem(t, k, v)| + 1
  {
    forall j | j != k ensures Cost(t, values[k := v], j) == Cost(t, values, j) {
    }
  }

  lemma FoundKeyLength(name: string)
    requires FindKey(name).Some?
    ensures KeyName(FindKey(name).value) == name
  {
  }

  lemma FoundTypeLength(name: string)
    requires FindType(name).Some?
    ensures TypeName(FindType(name).value) == name
  {
  }

  lemma ItemLength(v6: V6, t: Type, first: bool, item: string, values: Values)
    requires ParseItem(v6, t, first, item, values).Ok? && Subnet6 !in ParseItem(v6, t, first, item, values).value
    ensures Weight(t, ParseItem(v6, t, first, item, values).value) <= Weight(t, values) + |item| + 1
  {
    var e := IndexOf(item, '=');
    var name := if e == |item| then "bdf" else item[..e];
    var text := if e == |item| then item else item[e + 1..];
    var k := FindKey(Lower(Strip(name))).value;
    var v := Convert(v6, k, Strip(text)).value;
    ValueLength(v6, k, Strip(text));
    StripLength(text);
    StripLength(name);
    FoundKeyLength(Lower(Strip(name)));
    WeightAdds(t, values, k, v);
  }

  lemma {:induction false} ItemsLength(v6: V6, t: Type, first: bool, items: seq<string>, values: Values)
    requires ParseItems(v6, t, first, items, values).Ok? && Subnet6 !in ParseItems(v6, t, first, items, values).value
    ensures Weight(t, ParseItems(v6, t, first, items, values).value) <= Weight(t, values) + Total(items)
    ensures Subnet6 !in values
    decreases |items|
  {
    if items != [] {
      var r := ParseItem(v6, t, first, items[0], values);
      ItemsLength(v6, t, false, items[1..], r.value);
      ItemLength(v6, t, first, items[0], values);
    }
  }

  // ---- the canonical text -----------------------------------------------------------------------------

  lemma {:induction false} TotalAppend(a: seq<string>, b: seq<string>)
    ensures Total(a + b) == Total(a) + Total(b)
  {
    if a == [] {
      assert a + b == b;
    } else {
      TotalAppend(a[1..], b);
      assert (a + b)[1..] == a[1..] + b;
    }
  }

  function CostOf(s: NicSpec, k: Key): nat {
    if Field(s, k).Some? then |ShowItem(s.nic, k, Field(s, k).value)| + 1 else 0
  }

  lemma ItemTotal(s: NicSpec, k: Key)
    ensures Total(Item(s, k)) == CostOf(s, k)
  {
    if Field(s, k).Some? {
      assert Item(s, k)[1..] == [];
    }
  }

  function Sum(f: Key -> nat, ks: seq<Key>): nat { if ks == [] then 0 else f(ks[0]) + Sum(f, ks[1..]) }

  lemma {:induction false} ItemsSum(s: NicSpec, ks: seq<Key>)
    ensures Total(Items(s, ks)) == Sum(k => CostOf(s, k), ks)
  {
    if ks != [] {
      ItemsSum(s, ks[1..]);
      TotalAppend(Item(s, ks[0]), Items(s, ks[1..]));
      ItemTotal(s, ks[0]);
    }
  }

  lemma SumOfKeys(f: Key -> nat)
    ensures Sum(f, KEYS) == f(Bdf) + f(Node) + f(Net) + f(Subnet) + f(Subnet6)
  {
    assert KEYS[4..] == [Subnet6] && KEYS[4..][1..] == [];
    assert KEYS[3..][1..] == KEYS[4..] && KEYS[2..][1..] == KEYS[3..] && KEYS[1..][1..] == KEYS[2..];
    assert Sum(f, KEYS[4..]) == f(Subnet6);
    assert Sum(f, KEYS[3..]) == f(Subnet) + Sum(f, KEYS[4..]);
    assert Sum(f, KEYS[2..]) == f(Net) + Sum(f, KEYS[3..]);
    assert Sum(f, KEYS[1..]) == f(Node) + Sum(f, KEYS[2..]);
  }

  lemma ItemsTotal(s: NicSpec)
    ensures Total(Items(s, KEYS))
            == CostOf(s, Bdf) + CostOf(s, Node) + CostOf(s, Net) + CostOf(s, Subnet) + CostOf(s, Subnet6)
  {
    ItemsSum(s, KEYS);
    SumOfKeys(k => CostOf(s, k));
  }

  lemma PrintLength(s: NicSpec)
    ensures |Print(s)| == |TypeName(s.nic)| + Total(Items(s, KEYS))
  {
    if Items(s, KEYS) != [] {
      JoinLength(Items(s, KEYS), ',');
    }
  }

  lemma SpecWeight(v6: V6, t: Type, values: Values)
    requires ValuesOk(v6, t, values)
    ensures Total(Items(SpecOf(t, values), KEYS)) == Weight(t, values)
  {
    var s := SpecOf(t, values);
    ItemsTotal(s);
    SameCost(v6, t, values, Bdf);
    SameCost(v6, t, values, Node);
    SameCost(v6, t, values, Net);
    SameCost(v6, t, values, Subnet);
    SameCost(v6, t, values, Subnet6);
  }

  lemma SameCost(v6: V6, t: Type, values: Values, k: Key)
    requires ValuesOk(v6, t, values)
    ensures CostOf(SpecOf(t, values), k) == Cost(t, values, k)
  {
    FieldsOfValues(v6, t, values, k);
  }

  /** What an accepted text was read as, and how long the canonical text of it is. */
  lemma ParsedWeight(v6: V6, raw: string) returns (t: Type, values: Values)
    requires Sound(v6) && Parse(v6, raw).Ok?
    ensures ValuesOk(v6, t, values) && Parse(v6, raw).value == SpecOf(t, values)
    ensures SpecOf(t, values).subnet6 == "" ==> |TypeName(t)| + Weight(t, values) <= |raw|
  {
    var c := IndexOf(raw, ':');
    t, values := ParsedFrom(v6, raw);
    TypeLength(raw[..c], t);
    if c < |raw| {
      RestLength(v6, t, raw[c + 1..], values);
    } else {
      NothingWeighs(v6, t, values);
    }
  }

  lemma NothingWeighs(v6: V6, t: Type, values: Values)
    requires values == map[]
    ensures ValuesOk(v6, t, values) && Weight(t, values) == 0
  {
  }

  lemma ParsedFrom(v6: V6, raw: string) returns (t: Type, values: Values)
    requires Parse(v6, raw).Ok?
    ensures Parse(v6, raw) == Finish(t, values) && Parse(v6, raw).value == SpecOf(t, values)
    ensures var c := IndexOf(raw, ':');
            && FindType(Lower(Strip(raw[..c]))) == Some(t)
            && (c == |raw| ==> values == map[])
            && (c < |raw| ==> ParseItems(v6, t, true, Split(raw[c + 1..], ','), map[]) == Ok(values))
  {
    var c := IndexOf(raw, ':');
    t := FindType(Lower(Strip(raw[..c]))).value;
    values := if c == |raw| then map[] else ParseItems(v6, t, true, Split(raw[c + 1..], ','), map[]).value;
    FinishValue(t, values);
  }

  lemma FinishValue(t: Type, values: Values)
    ensures Finish(t, values).Ok? ==> Finish(t, values).value == SpecOf(t, values)
  {
  }

  /** Without an IPv6 subnet the canonical text never grows, so it is always read back. */
  lemma CanonicalTextIsShort(v6: V6, raw: string)
    requires Sound(v6) && Parse(v6, raw).Ok? && Parse(v6, raw).value.subnet6 == ""
    ensures var s := Parse(v6, raw).value; |Print(s)| <= |raw| && Parse(v6, Print(s)) == Ok(s)
  {
    var s := Parse(v6, raw).value;
    var t, values := ParsedWeight(v6, raw);
    SpecWeight(v6, t, values);
    PrintLength(s);
    AcceptedIsShort(v6, raw);
    CanonicalTextRoundTrip(v6, raw);
  }

  lemma AcceptedIsShort(v6: V6, raw: string)
    requires Parse(v6, raw).Ok?
    ensures |raw| <= 512
  {
  }

  lemma TypeLength(text: string, t: Type)
    requires FindType(Lower(Strip(text))) == Some(t)
    ensures |TypeName(t)| <= |text|
  {
    StripLength(text);
    FoundTypeLength(Lower(Strip(text)));
  }

  lemma RestLength(v6: V6, t: Type, rest: string, values: Values)
    requires Sound(v6) && ParseItems(v6, t, true, Split(rest, ','), map[]) == Ok(values)
    ensures ValuesOk(v6, t, values) && (SpecOf(t, values).subnet6 == "" ==> Weight(t, values) <= |rest| + 1)
  {
    ItemsGiveOkValues(v6, t, true, Split(rest, ','), map[]);
    if SpecOf(t, values).subnet6 == "" {
      NoSubnet6(v6, t, values);
      RestWeight(v6, t, rest, values);
    }
  }

  lemma NoSubnet6(v6: V6, t: Type, values: Values)
    requires ValuesOk(v6, t, values) && SpecOf(t, values).subnet6 == ""
    ensures Subnet6 !in values
  {
    FieldsOfValues(v6, t, values, Subnet6);
  }

  lemma RestWeight(v6: V6, t: Type, rest: string, values: Values)
    requires ParseItems(v6, t, true, Split(rest, ','), map[]) == Ok(values) && Subnet6 !in values
    ensures Weight(t, values) <= |rest| + 1
  {
    ItemsLength(v6, t, true, Split(rest, ','), map[]);
    NothingWeighs(v6, t, map[]);
    JoinSplit(rest, ',');
    JoinLength(Split(rest, ','), ',');
  }

  // ---- when it does grow --------------------------------------------------------------------------

  function Ten(k: nat): nat { if k <= 1 then 1 else 10 * Ten(k - 1) }

  lemma {:induction false} TenDigits(k: nat)
    requires k >= 1
    ensures Ten(k) >= 1 && |Decimal(Ten(k))| == k
  {
    if k > 1 {
      TenDigits(k - 1);
    }
  }

  lemma TwoItemsParse(v6: V6, n: nat, x: string, v: Value)
    requires Stripped(x) && Convert(v6, Subnet6, x) == Some(v)
    ensures ParseItems(v6, Tcp, true, [KeyName(Node) + "=" + Decimal(n), KeyName(Subnet6) + "=" + x], map[])
         == Ok(map[Node := Number(n), Subnet6 := v])
  {
    var a, b := KeyName(Node) + "=" + Decimal(n), KeyName(Subnet6) + "=" + x;
    NodeCanonical(v6, n);
    ItemParses(v6, Tcp, true, Node, Number(n), map[]);
    KeyNames(Subnet6);
    NameReads(KeyName(Subnet6), '=');
    StripFixed(x);
    KeyedItemParses(v6, Tcp, false, KeyName(Subnet6), Subnet6, x, v, map[Node := Number(n)]);
    TwoSteps(v6, a, b, map[Node := Number(n)], map[Node := Number(n)][Subnet6 := v]);
    assert map[Node := Number(n)][Subnet6 := v] == map[Node := Number(n), Subnet6 := v];
  }

  lemma TwoSteps(v6: V6, a: string, b: string, mid: Values, end: Values)
    requires ParseItem(v6, Tcp, true, a, map[]) == Ok(mid) && ParseItem(v6, Tcp, false, b, mid) == Ok(end)
    ensures ParseItems(v6, Tcp, true, [a, b], map[]) == Ok(end)
  {
    assert [a, b][1..] == [b] && [b][1..] == [];
    assert ParseItems(v6, Tcp, false, [b], mid) == Ok(end);
  }

  lemma TwoValuesOk(v6: V6, n: nat, x: string, v: Value)
    requires Sound(v6) && Convert(v6, Subnet6, x) == Some(v)
    ensures ValuesOk(v6, Tcp, map[Node := Number(n), Subnet6 := v])
  {
    NodeCanonical(v6, n);
    ConvertIsCanonical(v6, Subnet6, x);
  }

  lemma TwoItemsText(a: string, b: string)
    requires ItemText(a) && ItemText(b)
    ensures Strip(Join([a, b], ',')) != "" && Split(Join([a, b], ','), ',') == [a, b]
    ensures |Join([a, b], ',')| == |a| + 1 + |b|
  {
    ItemsJoin([a, b]);
    assert [a, b][1..] == [b];
  }

  lemma KeyedItemText(k: Key, text: string)
    requires ',' !in text
    ensures ItemText(KeyName(k) + "=" + text)
    ensures |KeyName(k) + "=" + text|
            == (if k == Node then 5 else if k == Subnet6 then 8 else |KeyName(k)| + 1) + |text|
  {
    KeyNames(k);
  }

  lemma TwoItems(v6: V6, n: nat, x: string, v: Value) returns (a: string, b: string)
    requires Stripped(x) && ',' !in x && Convert(v6, Subnet6, x) == Some(v)
    ensures ItemText(a) && ItemText(b) && |a| + |b| == 13 + |Decimal(n)| + |x|
    ensures ParseItems(v6, Tcp, true, [a, b], map[]) == Ok(map[Node := Number(n), Subnet6 := v])
  {
    a := KeyName(Node) + "=" + Decimal(n);
    KeyedItemText(Node, Decimal(n));
    b := KeyName(Subnet6) + "=" + x;
    KeyedItemText(Subnet6, x);
    assert |a| + |b| == 13 + |Decimal(n)| + |x|;
    TwoItemsParse(v6, n, x, v);
  }

  lemma TypedTwo(v6: V6, name: string, a: string, b: string, values: Values) returns (raw: string)
    requires ItemText(a) && ItemText(b) && ParseItems(v6, Tcp, true, [a, b], map[]) == Ok(values) && Net !in values
    requires NameText(name, ':') && FindType(name) == Some(Tcp)
    ensures |raw| == |name| + 2 + |a| + |b|
    ensures Parse(v6, raw) == if |raw| > 512 then Err(TooLong) else Ok(SpecOf(Tcp, values))
  {
    TwoItemsText(a, b);
    ParseTyped(v6, name, Tcp, [a, b], values);
    FinishTwo(values);
    raw := name + ":" + Join([a, b], ',');
  }

  /** A text of two items is accepted. */
  lemma TwoItemsAccepted(v6: V6, n: nat, x: string, v: Value) returns (raw: string)
    requires Stripped(x) && ',' !in x && Convert(v6, Subnet6, x) == Some(v)
    ensures |raw| == 18 + |Decimal(n)| + |x|
    ensures Parse(v6, raw)
            == if |raw| > 512 then Err(TooLong) else Ok(SpecOf(Tcp, map[Node := Number(n), Subnet6 := v]))
  {
    var a, b := TwoItems(v6, n, x, v);
    TypeNames(Tcp);
    raw := TypedTwo(v6, TypeName(Tcp), a, b, map[Node := Number(n), Subnet6 := v]);
  }

  lemma TwoValuesLength(v6: V6, n: nat, v: Value)
    requires ValuesOk(v6, Tcp, map[Node := Number(n), Subnet6 := v])
    ensures |Print(SpecOf(Tcp, map[Node := Number(n), Subnet6 := v]))| == 18 + |Decimal(n)| + |ShowValue(v)|
  {
    var values := map[Node := Number(n), Subnet6 := v];
    SpecWeight(v6, Tcp, values);
    PrintLength(SpecOf(Tcp, values));
    assert Cost(Tcp, values, Node) == 6 + |Decimal(n)| && Cost(Tcp, values, Subnet6) == 9 + |ShowValue(v)|;
  }

  /** Wherever IPv6 text grows when it is made canonical, a spec at the length bound is
      accepted whose canonical text is over it.  Python's text grows where "::" stands for one
      zero group: 1:2:3::5:6:7:8/126 becomes 1:2:3:0:5:6:7:8/126. */
  lemma CanonicalTextCanBeTooLong(v6: V6, x: string) returns (raw: string)
    requires Sound(v6) && Stripped(x) && ',' !in x && |x| < 100
    requires Convert(v6, Subnet6, x).Some? && |ShowValue(Convert(v6, Subnet6, x).value)| > |x|
    ensures |raw| == 512 && Parse(v6, raw).Ok? && Parse(v6, Print(Parse(v6, raw).value)) == Err(TooLong)
  {
    var v := Convert(v6, Subnet6, x).value;
    var n := NumberOfDigits(494 - |x|);
    raw := TwoItemsAccepted(v6, n, x, v);
    TwoValuesOk(v6, n, x, v);
    TwoValuesLength(v6, n, v);
    RefusedForLength(v6, raw, SpecOf(Tcp, map[Node := Number(n), Subnet6 := v]));
  }

  lemma NumberOfDigits(k: nat) returns (n: nat)
    requires k >= 1
    ensures |Decimal(n)| == k
  {
    n := Ten(k);
    TenDigits(k);
  }

  lemma RefusedForLength(v6: V6, raw: string, s: NicSpec)
    requires Sound(v6) && Parse(v6, raw) == Ok(s) && |Print(s)| > 512
    ensures Parse(v6, Print(s)) == Err(TooLong)
  {
    ParsedIsOk(v6, raw);
    PrintedReadsBack(v6, s);
  }

  lemma FinishTwo(values: Values)
    requires Net !in values
    ensures Finish(Tcp, values) == Ok(SpecOf(Tcp, values))
  {
  }
}
