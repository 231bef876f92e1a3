/** The --nic TYPE[:key=value,...] spec: its parser, and the canonical text that is stored. */
module NicSpec {
  import opened Text
  import opened Ipv4

  datatype Type = Tcp | Softroce | Passthrough

  datatype Key = Bdf | Node | Net | Subnet | Subnet6

  /** The keys in the order the canonical text writes them. */
  const KEYS := [Bdf, Node, Net, Subnet, Subnet6]

  /** A field that was not given keeps its default: "" or None. */
  datatype NicSpec = NicSpec(nic: Type, bdf: string, node: Option<nat>, net: string, subnet: string, subnet6: string)

  datatype Error =
    | EmptyText | TooLong | UnknownType | NothingAfterColon | NotKeyValue | UnknownKey
    | GivenTwice | BadValue(key: Key) | MissingBdf | WrongNetwork

  datatype Result<+T> = Ok(value: T) | Err(error: Error)

  function TypeName(t: Type): string {
    match t case Tcp => "tcp" case Softroce => "softroce" case Passthrough => "passthrough"
  }

  function FindType(s: string): Option<Type> {
    if s == "tcp" then Some(Tcp) else if s == "softroce" then Some(Softroce)
    else if s == "passthrough" then Some(Passthrough) else None
  }

  function KeyName(k: Key): string {
    match k
    case Bdf => "bdf" case Node => "node" case Net => "net" case Subnet => "subnet" case Subnet6 => "subnet6"
  }

  function FindKey(s: string): Option<Key> {
    if s == "bdf" then Some(Bdf) else if s == "node" then Some(Node) else if s == "net" then Some(Net)
    else if s == "subnet" then Some(Subnet) else if s == "subnet6" then Some(Subnet6) else None
  }

  predicate Takes(t: Type, k: Key) { t == Passthrough <==> k == Bdf }

  // ---- values -----------------------------------------------------------------------------

  datatype Value = Words(text: string) | Number(n: nat)

  predicate IsHex(c: char) { IsDigit(c) || 'a' <= c <= 'f' || 'A' <= c <= 'F' }

  /** dddd:bb:dd.f */
  predicate BdfOk(s: string) {
    && |s| == 12 && s[4] == ':' && s[7] == ':' && s[10] == '.'
    && forall i :: 0 <= i < 12 && i != 4 && i != 7 && i != 10 ==> IsHex(s[i])
  }

  predicate IdOk(s: string) {
    s != "" && AllDigits(s) && |s| <= 5 && (s[0] == '0' ==> s == "0") && ParseDecimal(s) <= 65535
  }

  predicate NetOk(s: string) { ("tcp" <= s && IdOk(s[3..])) || ("o2ib" <= s && IdOk(s[4..])) }

  datatype Net6 = Net6(addr: nat, prefix: nat)

  /** How IPv6 networks are read, strictly, and written. */
  datatype V6 = V6(parse: string -> Option<Net6>, show: Net6 -> string)

  /** Text that can stand for a value in a stored spec. */
  predicate ValueText(s: string) { s != "" && ',' !in s && Stripped(s) }

  /** What is relied on of IPv6 text: canonical text is read back, and looks like it. */
  ghost predicate Sound(v6: V6) {
    forall s :: '%' !in s && v6.parse(s).Some? ==> Canonical6(v6, v6.parse(s).value)
  }

  ghost predicate Canonical6(v6: V6, n: Net6) {
    var t := v6.show(n);
    v6.parse(t) == Some(n) && ':' in t && '%' !in t && ValueText(t)
  }

  /** Two blocks of addresses, as first address and size, share one. */
  predicate Overlap(a: nat, m: nat, b: nat, n: nat) { a < b + n && b < a + m }

  predicate Forbidden4(n: Net4)
    requires n.prefix <= 32
  {
    var m := Pow2(32 - n.prefix);
    || Overlap(n.addr, m, 0, Pow2(24)) || Overlap(n.addr, m, 127 * Pow2(24), Pow2(24))
    || Overlap(n.addr, m, 169 * Pow2(24) + 254 * Pow2(16), Pow2(16))
    || Overlap(n.addr, m, 224 * Pow2(24), Pow2(28)) || Overlap(n.addr, m, 240 * Pow2(24), Pow2(28))
  }

  predicate Forbidden6(n: Net6)
    requires n.prefix <= 128
  {
    var m := Pow2(128 - n.prefix);
    || Overlap(n.addr, m, 0, 1) || Overlap(n.addr, m, 1, 1)
    || Overlap(n.addr, m, 0xfe80 * Pow2(112), Pow2(118)) || Overlap(n.addr, m, 0xff00 * Pow2(112), Pow2(120))
  }

  function ConvertSubnet4(s: string): Option<Value> {
    var r := ParseNet4(s);
    if '%' in s || !r.Network? || r.net.prefix > 30 || Forbidden4(r.net) then None else Some(Words(PrintNet4(r.net)))
  }

  /** IPv4 is tried first; only text that is no IPv4 network at all is read as IPv6. */
  function ConvertSubnet6(v6: V6, s: string): Option<Value> {
    if '%' in s || !ParseNet4(s).NotV4? then None
    else
      var r := v6.parse(s);
      if r.None? || r.value.prefix > 126 || Forbidden6(r.value) then None else Some(Words(v6.show(r.value)))
  }

  function Convert(v6: V6, k: Key, s: string): Option<Value> {
    match k
    case Bdf => if BdfOk(s) then Some(Words(s)) else None
    case Node => if s != "" && AllDigits(s) then Some(Number(ParseDecimal(s))) else None
    case Net => if NetOk(s) then Some(Words(s)) else None
    case Subnet => ConvertSubnet4(s)
    case Subnet6 => ConvertSubnet6(v6, s)
  }

  function ShowValue(v: Value): string { match v case Words(s) => s case Number(n) => Decimal(n) }

  // ---- parsing ------------------------------------------------------------------------------

  type Values = map<Key, Value>

  /** One item: key=value, or as the first item of a passthrough spec its BDF alone. */
  function ParseItem(v6: V6, t: Type, first: bool, item: string, values: Values): Result<Values> {
    var e := IndexOf(item, '=');
    if e == |item| && !(first && t == Passthrough) then Err(NotKeyValue)
    else
      var name := if e == |item| then "bdf" else item[..e];
      var text := if e == |item| then item else item[e + 1..];
      var k := FindKey(Lower(Strip(name)));
      if k.None? || !Takes(t, k.value) then Err(UnknownKey)
      else if k.value in values then Err(GivenTwice)
      else
        var v := Convert(v6, k.value, Strip(text));
        if v.None? then Err(BadValue(k.value)) else Ok(values[k.value := v.value])
  }

  function ParseItems(v6: V6, t: Type, first: bool, items: seq<string>, values: Values): Result<Values>
    decreases |items|
  {
    if items == [] then Ok(values)
    else
      var r := ParseItem(v6, t, first, items[0], values);
      if r.Err? then r else ParseItems(v6, t, false, items[1..], r.value)
  }

  function TextOf(values: Values, k: Key): string {
    if k in values && values[k].Words? then values[k].text else ""
  }

  function NodeOf(values: Values): Option<nat> {
    if Node in values && values[Node].Number? then Some(values[Node].n) else None
  }

  function SpecOf(t: Type, values: Values): NicSpec {
    NicSpec(t, TextOf(values, Bdf), NodeOf(values), TextOf(values, Net), TextOf(values, Subnet),
      TextOf(values, Subnet6))
  }

  function Lnd(t: Type): string { if t == Tcp then "tcp" else "o2ib" }

  function Finish(t: Type, values: Values): Result<NicSpec> {
    var s := SpecOf(t, values);
    if t == Passthrough && Bdf !in values then Err(MissingBdf)
    else if s.net != "" && !(Lnd(t) <= s.net) then Err(WrongNetwork)
    else Ok(s)
  }

  function Parse(v6: V6, raw: string): Result<NicSpec> {
    if Strip(raw) == "" then Err(EmptyText)
    else if |raw| > 512 then Err(TooLong)
    else
      var c := IndexOf(raw, ':');
      var t := FindType(Lower(Strip(raw[..c])));
      if t.None? then Err(UnknownType)
      else if c == |raw| then Finish(t.value, map[])
      else if Strip(raw[c + 1..]) == "" then Err(NothingAfterColon)
      else
        var r := ParseItems(v6, t.value, true, Split(raw[c + 1..], ','), map[]);
        if r.Err? then Err(r.error) else Finish(t.value, r.value)
  }

  /** Older ltvm stored anything after the type; such junk reads as the plain type. */
  function LoadStored(v6: V6, raw: string): Result<NicSpec> {
    var r := Parse(v6, raw);
    if r.Ok? then r
    else
      var t := FindType(Lower(Strip(raw[..IndexOf(raw, ':')])));
      if t.Some? && t.value != Passthrough && '=' !in raw then Ok(SpecOf(t.value, map[])) else r
  }

  /** The parser as it runs: one pass over the items that fills `values`. */
  method ParseSpec(v6: V6, raw: string) returns (r: Result<NicSpec>)
    ensures r == Parse(v6, raw)
  {
    if Strip(raw) == "" { return Err(EmptyText); }
    if |raw| > 512 { return Err(TooLong); }
    var c := IndexOf(raw, ':');
    var t := FindType(Lower(Strip(raw[..c])));
    if t.None? { return Err(UnknownType); }
    var values: Values := map[];
    if c < |raw| {
      if Strip(raw[c + 1..]) == "" { return Err(NothingAfterColon); }
      var items := ParseAll(v6, t.value, Split(raw[c + 1..], ','));
      if items.Err? { return Err(items.error); }
      values := items.value;
    }
    r := Finish(t.value, values);
  }

  method ParseAll(v6: V6, t: Type, items: seq<string>) returns (r: Result<Values>)
    ensures r == ParseItems(v6, t, true, items, map[])
  {
    var values: Values := map[];
    var pos := 0;
    while pos < |items|
      invariant pos <= |items|
      invariant ParseItems(v6, t, pos == 0, items[pos..], values) == ParseItems(v6, t, true, items, map[])
    {
      var item := ParseItem(v6, t, pos == 0, items[pos], values);
      assert items[pos..][1..] == items[pos + 1..];
      if item.Err? { return item; }
      values, pos := item.value, pos + 1;
    }
    r := Ok(values);
  }

  // ---- printing ---------------------------------------------------------------------------------

  function Field(s: NicSpec, k: Key): Option<Value> {
    match k
    case Bdf => if s.bdf == "" then None else Some(Words(s.bdf))
    case Node => if s.node.None? then None else Some(Number(s.node.value))
    case Net => if s.net == "" then None else Some(Words(s.net))
    case Subnet => if s.subnet == "" then None else Some(Words(s.subnet))
    case Subnet6 => if s.subnet6 == "" then None else Some(Words(s.subnet6))
  }

  function ShowItem(t: Type, k: Key, v: Value): string {
    if t == Passthrough && k == Bdf then ShowValue(v) else KeyName(k) + "=" + ShowValue(v)
  }

  /** The items of the keys from `ks` that are set. */
  function Items(s: NicSpec, ks: seq<Key>): seq<string> {
    if ks == [] then [] else Item(s, ks[0]) + Items(s, ks[1..])
  }

  function Item(s: NicSpec, k: Key): seq<string> {
    var v := Field(s, k);
    if v.None? then [] else [ShowItem(s.nic, k, v.value)]
  }

  function Print(s: NicSpec): string {
    var items := Items(s, KEYS);
    if items == [] then TypeName(s.nic) else TypeName(s.nic) + ":" + Join(items, ',')
  }

  method Show(s: NicSpec) returns (text: string)
    ensures text == Print(s)
  {
    var items := ShowItems(s, KEYS);
    text := if items == [] then TypeName(s.nic) else TypeName(s.nic) + ":" + Join(items, ',');
  }

  method ShowItems(s: NicSpec, ks: seq<Key>) returns (items: seq<string>)
    ensures items == Items(s, ks)
  {
    items := [];
    for i := 0 to |ks|
      invariant items + Items(s, ks[i..]) == Items(s, ks)
    {
      ItemsFrom(s, ks, i);
      Regroup(items, Item(s, ks[i]), Items(s, ks[i + 1..]));
      items := items + Item(s, ks[i]);
    }
  }

  lemma ItemsFrom(s: NicSpec, ks: seq<Key>, i: nat)
    requires i < |ks|
    ensures Items(s, ks[i..]) == Item(s, ks[i]) + Items(s, ks[i + 1..])
  {
    assert ks[i..][1..] == ks[i + 1..];
  }

  lemma Regroup(a: seq<string>, b: seq<string>, c: seq<string>)
    ensures a + (b + c) == a + b + c
  {
  }

  // ---- what every parsed spec looks like ------------------------------------------------------

  /** A value the converter would leave as it is. */
  ghost predicate Canonical(v6: V6, k: Key, v: Value) {
    && (k == Node <==> v.Number?)
    && ValueText(ShowValue(v))
    && (k == Bdf ==> '=' !in v.text)
    && Convert(v6, k, ShowValue(v)) == Some(v)
  }

  lemma PlainText(s: string)
    requires s != "" && forall i :: 0 <= i < |s| ==> !IsSpace(s[i]) && s[i] != ','
    ensures ValueText(s)
  {
  }

  lemma NodeCanonical(v6: V6, n: nat)
    ensures Canonical(v6, Node, Number(n))
  {
    DecimalRoundTrip(n);
    PlainText(Decimal(n));
  }

  lemma BdfCanonical(v6: V6, s: string)
    requires BdfOk(s)
    ensures Canonical(v6, Bdf, Words(s))
  {
    assert forall i :: 0 <= i < |s| ==> IsHex(s[i]) || s[i] == ':' || s[i] == '.';
    PlainText(s);
  }

  lemma NetCanonical(v6: V6, s: string)
    requires NetOk(s)
    ensures Canonical(v6, Net, Words(s))
  {
    var n := if "tcp" <= s && IdOk(s[3..]) then 3 else 4;
    forall i | 0 <= i < |s| ensures !IsSpace(s[i]) && s[i] != ',' {
      if i >= n {
        assert s[i] == s[n..][i - n];
      } else {
        assert s[i] == (if n == 3 then "tcp" else "o2ib")[i];
      }
    }
    PlainText(s);
  }

  lemma Subnet4Canonical(v6: V6, s: string)
    requires ConvertSubnet4(s).Some?
    ensures Canonical(v6, Subnet, ConvertSubnet4(s).value)
  {
    var n := ParseNet4(s).net;
    PrintedNet4(n);
    Net4RoundTrip(n);
  }

  lemma PrintedNet4(n: Net4)
    ensures ValueText(PrintNet4(n)) && '%' !in PrintNet4(n)
  {
    Net4Chars(n);
    PlainText(PrintNet4(n));
  }

  lemma Subnet6Canonical(v6: V6, s: string)
    requires Sound(v6) && ConvertSubnet6(v6, s).Some?
    ensures Canonical(v6, Subnet6, ConvertSubnet6(v6, s).value)
  {
    var n := v6.parse(s).value;
    assert Canonical6(v6, n);
    ColonIsNotV4(v6.show(n));
  }

  /** Converting normalises once: converting the converted text changes nothing. */
  lemma ConvertIsCanonical(v6: V6, k: Key, s: string)
    requires Sound(v6) && Convert(v6, k, s).Some?
    ensures Canonical(v6, k, Convert(v6, k, s).value)
  {
    match k {
      case Bdf => BdfCanonical(v6, s);
      case Node => NodeCanonical(v6, ParseDecimal(s));
      case Net => NetCanonical(v6, s);
      case Subnet => Subnet4Canonical(v6, s);
      case Subnet6 => Subnet6Canonical(v6, s);
    }
  }

  ghost predicate ValuesOk(v6: V6, t: Type, values: Values) {
    forall k :: k in values ==> Takes(t, k) && Canonical(v6, k, values[k])
  }

  lemma {:induction false} ItemsGiveOkValues(v6: V6, t: Type, first: bool, items: seq<string>, values: Values)
    requires Sound(v6) && ValuesOk(v6, t, values) && ParseItems(v6, t, first, items, values).Ok?
    ensures ValuesOk(v6, t, ParseItems(v6, t, first, items, values).value)
    decreases |items|
  {
    if items != [] {
      var r := ParseItem(v6, t, first, items[0], values);
      ItemGivesOkValues(v6, t, first, items[0], values);
      ItemsGiveOkValues(v6, t, false, items[1..], r.value);
    }
  }

  lemma ItemGivesOkValues(v6: V6, t: Type, first: bool, item: string, values: Values)
    requires Sound(v6) && ValuesOk(v6, t, values) && ParseItem(v6, t, first, item, values).Ok?
    ensures ValuesOk(v6, t, ParseItem(v6, t, first, item, values).value)
  {
    var e := IndexOf(item, '=');
    var name := if e == |item| then "bdf" else item[..e];
    var text := if e == |item| then item else item[e + 1..];
    var k := FindKey(Lower(Strip(name))).value;
    ConvertIsCanonical(v6, k, Strip(text));
  }

  /** A spec whose every field is canonical, with the fields its type takes and needs. */
  ghost predicate SpecOk(v6: V6, s: NicSpec) {
    && (forall k :: Field(s, k).Some? ==> Takes(s.nic, k) && Canonical(v6, k, Field(s, k).value))
    && (s.nic == Passthrough ==> s.bdf != "")
    && (s.net != "" ==> Lnd(s.nic) <= s.net)
  }

  lemma FieldsOfValues(v6: V6, t: Type, values: Values, k: Key)
    requires ValuesOk(v6, t, values)
    ensures Field(SpecOf(t, values), k) == if k in values then Some(values[k]) else None
  {
    forall j | j in values ensures (j == Node <==> values[j].Number?) && (values[j].Words? ==> values[j].text != "") {
      assert Canonical(v6, j, values[j]);
    }
    FieldsOfKinds(t, values, k);
  }

  lemma FieldsOfKinds(t: Type, values: Values, k: Key)
    requires forall j :: j in values ==>
             (j == Node <==> values[j].Number?) && (values[j].Words? ==> values[j].text != "")
    ensures Field(SpecOf(t, values), k) == if k in values then Some(values[k]) else None
  {
  }

  /** Whatever is accepted is a sound spec. */
  lemma ParsedIsOk(v6: V6, raw: string)
    requires Sound(v6) && Parse(v6, raw).Ok?
    ensures SpecOk(v6, Parse(v6, raw).value)
  {
    var c := IndexOf(raw, ':');
    var t := FindType(Lower(Strip(raw[..c]))).value;
    var values := map[];
    if c < |raw| {
      ItemsGiveOkValues(v6, t, true, Split(raw[c + 1..], ','), map[]);
      values := ParseItems(v6, t, true, Split(raw[c + 1..], ','), map[]).value;
    }
    FinishedIsOk(v6, t, values);
  }

  lemma FinishedIsOk(v6: V6, t: Type, values: Values)
    requires ValuesOk(v6, t, values) && Finish(t, values).Ok?
    ensures SpecOk(v6, Finish(t, values).value)
  {
    forall k ensures Field(SpecOf(t, values), k) == if k in values then Some(values[k]) else None {
      FieldsOfValues(v6, t, values, k);
    }
    assert Field(SpecOf(t, values), Bdf) == if Bdf in values then Some(values[Bdf]) else None;
  }

  // ---- reading the canonical text back ------------------------------------------------------------

  predicate NameText(s: string, c: char) {
    s != "" && NoUpper(s) && c !in s && ',' !in s && forall i :: 0 <= i < |s| ==> !IsSpace(s[i])
  }

  lemma KeyNames(k: Key)
    ensures FindKey(KeyName(k)) == Some(k) && NameText(KeyName(k), '=')
  {
  }

  lemma TypeNames(t: Type)
    ensures FindType(TypeName(t)) == Some(t) && NameText(TypeName(t), ':')
  {
  }

  lemma NameReads(name: string, c: char)
    requires NameText(name, c)
    ensures Lower(Strip(name)) == name
  {
    StripFixed(name);
    LowerFixed(name);
  }

  lemma KeyedParts(name: string, text: string)
    requires NameText(name, '=')
    ensures var item := name + "=" + text;
            var e := IndexOf(item, '=');
            e < |item| && item[..e] == name && item[e + 1..] == text
  {
    IndexOfFirst(name, '=', text);
  }

  lemma ItemParses(v6: V6, t: Type, first: bool, k: Key, v: Value, values: Values)
    requires Takes(t, k) && Canonical(v6, k, v) && k !in values && (t == Passthrough ==> first)
    ensures ParseItem(v6, t, first, ShowItem(t, k, v), values) == Ok(values[k := v])
  {
    KeyNames(k);
    NameReads(KeyName(k), '=');
    StripFixed(ShowValue(v));
    if t == Passthrough {
      IndexOfFirst(v.text, '=', "");
    } else {
      KeyedItemParses(v6, t, first, KeyName(k), k, ShowValue(v), v, values);
    }
  }

  lemma KeyedItemParses(v6: V6, t: Type, first: bool, name: string, k: Key, text: string, v: Value, values: Values)
    requires NameText(name, '=') && Lower(Strip(name)) == name && FindKey(name) == Some(k)
    requires Takes(t, k) && k !in values && Strip(text) == text && Convert(v6, k, text) == Some(v)
    ensures ParseItem(v6, t, first, name + "=" + text, values) == Ok(values[k := v])
  {
    KeyedParts(name, text);
  }

  predicate Distinct(ks: seq<Key>) { forall i, j :: 0 <= i < j < |ks| ==> ks[i] != ks[j] }

  function Fields(s: NicSpec, ks: seq<Key>): Values {
    map k | k in ks && Field(s, k).Some? :: Field(s, k).value
  }

  lemma FieldsCons(s: NicSpec, ks: seq<Key>, values: Values)
    requires ks != []
    ensures values + Fields(s, ks)
         == (if Field(s, ks[0]).Some? && ks[0] !in ks[1..] then values[ks[0] := Field(s, ks[0]).value] else values)
           + Fields(s, ks[1..])
  {
    assert forall k :: k in ks <==> k == ks[0] || k in ks[1..];
  }

  lemma {:induction false} ItemsParse(v6: V6, s: NicSpec, ks: seq<Key>, first: bool, values: Values)
    requires SpecOk(v6, s) && Distinct(ks) && (forall k :: k in ks ==> k !in values)
    requires s.nic == Passthrough ==> first || Bdf !in ks
    ensures ParseItems(v6, s.nic, first, Items(s, ks), values) == Ok(values + Fields(s, ks))
    decreases |ks|
  {
    if ks == [] {
      assert values + Fields(s, ks) == values;
    } else {
      var k, rest, v := ks[0], ks[1..], Field(s, ks[0]);
      assert k !in rest;
      FieldsCons(s, ks, values);
      if v.None? {
        assert Item(s, k) + Items(s, rest) == Items(s, rest);
        ItemsParse(v6, s, rest, first, values);
      } else {
        ItemParses(v6, s.nic, first, k, v.value, values);
        ItemsParse(v6, s, rest, false, values[k := v.value]);
        var items := Items(s, ks);
        assert items[0] == ShowItem(s.nic, k, v.value) && items[1..] == Items(s, rest);
      }
    }
  }

  predicate ItemText(s: string) { s != "" && !IsSpace(s[0]) && ',' !in s }

  lemma ShownIsItemText(v6: V6, t: Type, k: Key, v: Value)
    requires Canonical(v6, k, v)
    ensures ItemText(ShowItem(t, k, v))
  {
    KeyNames(k);
  }

  lemma {:induction false} ItemsAreItemTexts(v6: V6, s: NicSpec, ks: seq<Key>)
    requires SpecOk(v6, s)
    ensures forall i :: 0 <= i < |Items(s, ks)| ==> ItemText(Items(s, ks)[i])
  {
    if ks != [] {
      ItemsAreItemTexts(v6, s, ks[1..]);
      if Field(s, ks[0]).Some? {
        ShownIsItemText(v6, s.nic, ks[0], Field(s, ks[0]).value);
      }
    }
  }

  lemma JoinStarts(items: seq<string>)
    requires items != [] && ItemText(items[0])
    ensures Strip(Join(items, ',')) != ""
  {
    NotBlank(Join(items, ','), 0);
  }

  lemma TypedText(name: string, rest: string)
    requires NameText(name, ':')
    ensures var raw := name + ":" + rest;
            Strip(raw) != "" && IndexOf(raw, ':') == |name| && raw[..|name|] == name && raw[|name| + 1..] == rest
  {
    var raw := name + ":" + rest;
    assert raw[0] == name[0];
    NotBlank(raw, 0);
    IndexOfFirst(name, ':', rest);
  }

  lemma BareText(name: string)
    requires NameText(name, ':')
    ensures Strip(name) != "" && IndexOf(name, ':') == |name| && name[..|name|] == name
  {
    NotBlank(name, 0);
    IndexOfFirst(name, ':', "");
  }

  lemma FieldsAt(s: NicSpec, k: Key)
    ensures if Field(s, k).Some? then k in Fields(s, KEYS)
            && Fields(s, KEYS)[k] == Field(s, k).value else k !in Fields(s, KEYS)
  {
    assert KEYS[0] == Bdf && KEYS[1] == Node && KEYS[2] == Net && KEYS[3] == Subnet && KEYS[4] == Subnet6;
    assert k in KEYS;
  }

  lemma SpecOfFields(s: NicSpec)
    ensures SpecOf(s.nic, Fields(s, KEYS)) == s
    ensures Bdf in Fields(s, KEYS) <==> s.bdf != ""
  {
    FieldsAt(s, Bdf);
    FieldsAt(s, Node);
    FieldsAt(s, Net);
    FieldsAt(s, Subnet);
    FieldsAt(s, Subnet6);
  }

  lemma ParseTyped(v6: V6, name: string, t: Type, items: seq<string>, values: Values)
    requires NameText(name, ':') && FindType(name) == Some(t)
    requires ParseItems(v6, t, true, items, map[]) == Ok(values)
    requires items != [] ==> Strip(Join(items, ',')) != "" && Split(Join(items, ','), ',') == items
    ensures var raw := if items == [] then name else name + ":" + Join(items, ',');
            Parse(v6, raw) == (if |raw| > 512 then Err(TooLong) else Finish(t, values))
  {
    NameReads(name, ':');
    if items == [] {
      BareText(name);
    } else {
      TypedText(name, Join(items, ','));
    }
  }

  lemma CanonicalItems(v6: V6, s: NicSpec)
    requires SpecOk(v6, s)
    ensures var items := Items(s, KEYS);
            && ParseItems(v6, s.nic, true, items, map[]) == Ok(Fields(s, KEYS))
            && (items != [] ==> Strip(Join(items, ',')) != "" && Split(Join(items, ','), ',') == items)
  {
    KeysDistinct();
    ItemsParse(v6, s, KEYS, true, map[]);
    assert map[] + Fields(s, KEYS) == Fields(s, KEYS);
    ItemsAreItemTexts(v6, s, KEYS);
    ItemsJoin(Items(s, KEYS));
  }

  lemma ItemsJoin(items: seq<string>)
    requires forall i :: 0 <= i < |items| ==> ItemText(items[i])
    ensures items != [] ==> Strip(Join(items, ',')) != "" && Split(Join(items, ','), ',') == items
  {
    if items != [] {
      JoinStarts(items);
      SplitJoin(items, ',');
    }
  }

  /** The canonical text of a sound spec is read back as that spec when it is not too long. */
  lemma PrintedReadsBack(v6: V6, s: NicSpec)
    requires SpecOk(v6, s)
    ensures Parse(v6, Print(s)) == if |Print(s)| > 512 then Err(TooLong) else Ok(s)
  {
    TypeNames(s.nic);
    CanonicalItems(v6, s);
    SpecOfFields(s);
    ParseTyped(v6, TypeName(s.nic), s.nic, Items(s, KEYS), Fields(s, KEYS));
    FinishFields(s, Fields(s, KEYS));
  }

  lemma FinishFields(s: NicSpec, values: Values)
    requires SpecOf(s.nic, values) == s && (Bdf in values <==> s.bdf != "")
    requires s.nic == Passthrough ==> s.bdf != ""
    requires s.net != "" ==> Lnd(s.nic) <= s.net
    ensures Finish(s.nic, values) == Ok(s)
  {
  }

  lemma KeysDistinct()
    ensures Distinct(KEYS)
  {
  }

  lemma JoinHas(items: seq<string>, c: char)
    requires items != [] && c in items[0]
    ensures c in Join(items, ',')
  {
    var i :| 0 <= i < |items[0]| && items[0][i] == c;
    assert Join(items, ',')[i] == c;
  }

  lemma {:induction false} ItemsHaveKeys(s: NicSpec, ks: seq<Key>)
    requires s.nic != Passthrough
    ensures forall i :: 0 <= i < |Items(s, ks)| ==> '=' in Items(s, ks)[i]
  {
    if ks != [] {
      ItemsHaveKeys(s, ks[1..]);
      if Field(s, ks[0]).Some? {
        var name, text := KeyName(ks[0]), ShowValue(Field(s, ks[0]).value);
        assert (name + "=" + text)[|name|] == '=';
      }
    }
  }

  /** Text that is too long is never taken for the junk of older versions. */
  lemma LongTextHasKeys(s: NicSpec)
    requires |Print(s)| > 512 && s.nic != Passthrough
    ensures '=' in Print(s)
  {
    ItemsHaveKeys(s, KEYS);
    JoinHas(Items(s, KEYS), '=');
  }

  lemma PrintedType(s: NicSpec)
    ensures FindType(Lower(Strip(Print(s)[..IndexOf(Print(s), ':')]))) == Some(s.nic)
  {
    TypeNames(s.nic);
    NameReads(TypeName(s.nic), ':');
    BareText(TypeName(s.nic));
    TypedText(TypeName(s.nic), Join(Items(s, KEYS), ','));
  }

  /** For every text that is accepted, the canonical text of the result gives the same spec
      back exactly when it is within the length bound, and stored specs load the same way. */
  lemma CanonicalTextRoundTrip(v6: V6, raw: string)
    requires Sound(v6) && Parse(v6, raw).Ok?
    ensures var s := Parse(v6, raw).value;
            && (Parse(v6, Print(s)) == Ok(s) <==> |Print(s)| <= 512)
            && (LoadStored(v6, Print(s)) == Ok(s) <==> |Print(s)| <= 512)
            && LoadStored(v6, raw) == Ok(s)
  {
    var s := Parse(v6, raw).value;
    ParsedIsOk(v6, raw);
    PrintedReadsBack(v6, s);
    if |Print(s)| > 512 && s.nic != Passthrough {
      LongTextHasKeys(s);
    }
    PrintedType(s);
  }
}
