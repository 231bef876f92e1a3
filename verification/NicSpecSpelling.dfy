/** Spellings of a --nic spec that mean the same. */
module NicSpecSpelling {
  import opened Text
  import opened Ipv4
  import opened NicSpec
  import opened NicSpecLength

  // ---- the order of keys ------------------------------------------------------------------

  lemma KeyedIgnoresPosition(v6: V6, t: Type, item: string, values: Values)
    requires '=' in item
    ensures ParseItem(v6, t, true, item, values) == ParseItem(v6, t, false, item, values)
  {
    var e := IndexOf(item, '=');
    assert item[..|item|] == item;
  }

  /** The key an item names and the value it gives; both do not depend on what came before. */
  lemma ItemAdds(v6: V6, t: Type, first: bool, item: string, values: Values) returns (k: Key, v: Value)
    requires ParseItem(v6, t, first, item, values).Ok?
    ensures k !in values && ParseItem(v6, t, first, item, values) == Ok(values[k := v])
    ensures forall w: Values :: k !in w ==> ParseItem(v6, t, first, item, w) == Ok(w[k := v])
  {
    var e := IndexOf(item, '=');
    var name := if e == |item| then "bdf" else item[..e];
    var text := if e == |item| then item else item[e + 1..];
    k := FindKey(Lower(Strip(name))).value;
    v := Convert(v6, k, Strip(text)).value;
  }

  /** `f` puts one key, whatever else is there. */
  ghost predicate Puts(f: Values -> Result<Values>, k: Key, v: Value) {
    forall w: Values :: k !in w ==> f(w) == Ok(w[k := v])
  }

  lemma PutsCommute(f: Values -> Result<Values>, j: Key, x: Value, g: Values -> Result<Values>, k: Key, y: Value,
                    values: Values)
    requires Puts(f, j, x) && Puts(g, k, y) && j !in values && k !in values && j != k
    ensures f(values).Ok? && g(values).Ok? && f(g(values).value) == g(f(values).value)
  {
    assert values[j := x][k := y] == values[k := y][j := x];
  }

  function Step(v6: V6, t: Type, item: string): Values -> Result<Values> { w => ParseItem(v6, t, false, item, w) }

  lemma StepPuts(v6: V6, t: Type, item: string, values: Values) returns (k: Key, v: Value)
    requires Step(v6, t, item)(values).Ok?
    ensures Puts(Step(v6, t, item), k, v) && k !in values && Step(v6, t, item)(values) == Ok(values[k := v])
  {
    k, v := ItemAdds(v6, t, false, item, values);
  }

  lemma TwoKeysSwap(v6: V6, t: Type, a: string, b: string, values: Values)
    requires Step(v6, t, a)(values).Ok? && Step(v6, t, b)(Step(v6, t, a)(values).value).Ok?
    ensures Step(v6, t, b)(values).Ok?
    ensures Step(v6, t, a)(Step(v6, t, b)(values).value) == Step(v6, t, b)(Step(v6, t, a)(values).value)
  {
    var j, x := StepPuts(v6, t, a, values);
    var k, y := StepPuts(v6, t, b, values[j := x]);
    PutsCommute(Step(v6, t, a), j, x, Step(v6, t, b), k, y, values);
  }

  lemma AnyPosition(v6: V6, t: Type, first: bool, item: string, values: Values)
    requires '=' in item
    ensures ParseItem(v6, t, first, item, values) == ParseItem(v6, t, false, item, values)
  {
    if first {
      KeyedIgnoresPosition(v6, t, item, values);
    }
  }

  /** Two neighbouring key=value items may trade places. */
  lemma {:induction false} KeyOrderDoesNotMatter(v6: V6, t: Type, first: bool, pre: seq<string>, a: string, b: string,
                                                 post: seq<string>, values: Values)
    requires '=' in a && '=' in b && ParseItems(v6, t, first, pre + ([a, b] + post), values).Ok?
    ensures ParseItems(v6, t, first, pre + ([b, a] + post), values)
            == ParseItems(v6, t, first, pre + ([a, b] + post), values)
    decreases |pre|
  {
    if pre == [] {
      FromFront(pre, [a, b] + post);
      FromFront(pre, [b, a] + post);
      SwapInFront(v6, t, first, a, b, post, values);
    } else {
      FromFront(pre, [a, b] + post);
      FromFront(pre, [b, a] + post);
      var next := ParseConsOk(v6, t, first, pre[0], pre[1..] + ([a, b] + post), values);
      KeyOrderDoesNotMatter(v6, t, false, pre[1..], a, b, post, next);
      SameTail(v6, t, first, pre[0], pre[1..] + ([a, b] + post), pre[1..] + ([b, a] + post), values, next);
    }
  }

  lemma FromFront(pre: seq<string>, l: seq<string>)
    ensures pre + l == if pre == [] then l else [pre[0]] + (pre[1..] + l)
  {
  }

  lemma SameTail(v6: V6, t: Type, first: bool, x: string, l: seq<string>, r: seq<string>, values: Values, next: Values)
    requires ParseItem(v6, t, first, x, values) == Ok(next)
    requires ParseItems(v6, t, false, l, next) == ParseItems(v6, t, false, r, next)
    ensures ParseItems(v6, t, first, [x] + l, values) == ParseItems(v6, t, first, [x] + r, values)
  {
    ParseCons(v6, t, first, x, l, values);
    ParseCons(v6, t, first, x, r, values);
  }

  lemma ParseConsOk(v6: V6, t: Type, first: bool, x: string, rest: seq<string>, values: Values) returns (next: Values)
    requires ParseItems(v6, t, first, [x] + rest, values).Ok?
    ensures ParseItem(v6, t, first, x, values) == Ok(next)
    ensures ParseItems(v6, t, first, [x] + rest, values) == ParseItems(v6, t, false, rest, next)
  {
    ParseCons(v6, t, first, x, rest, values);
    next := ParseItem(v6, t, first, x, values).value;
  }

  lemma ParseCons(v6: V6, t: Type, first: bool, x: string, rest: seq<string>, values: Values)
    ensures var r := ParseItem(v6, t, first, x, values);
            ParseItems(v6, t, first, [x] + rest, values)
              == (if r.Err? then r else ParseItems(v6, t, false, rest, r.value))
  {
    assert ([x] + rest)[1..] == rest;
  }

  /** Parsing from a key=value item on, by steps. */
  lemma ParseTwo(v6: V6, t: Type, first: bool, a: string, b: string, post: seq<string>, values: Values)
    requires '=' in a
    ensures var r := Step(v6, t, a)(values);
            && (r.Err? ==> ParseItems(v6, t, first, [a, b] + post, values) == r)
            && (r.Ok? ==> var s := Step(v6, t, b)(r.value);
                          ParseItems(v6, t, first, [a, b] + post, values)
                            == (if s.Err? then s else ParseItems(v6, t, false, post, s.value)))
  {
    AnyPosition(v6, t, first, a, values);
    ParseCons(v6, t, first, a, [b] + post, values);
    assert [a, b] + post == [a] + ([b] + post);
    if Step(v6, t, a)(values).Ok? {
      ParseCons(v6, t, false, b, post, Step(v6, t, a)(values).value);
    }
  }

  lemma SwapInFront(v6: V6, t: Type, first: bool, a: string, b: string, post: seq<string>, values: Values)
    requires '=' in a && '=' in b && ParseItems(v6, t, first, [a, b] + post, values).Ok?
    ensures ParseItems(v6, t, first, [b, a] + post, values) == ParseItems(v6, t, first, [a, b] + post, values)
  {
    ParseTwo(v6, t, first, a, b, post, values);
    TwoKeysSwap(v6, t, a, b, values);
    ParseTwo(v6, t, first, b, a, post, values);
  }

  predicate Keyed(items: seq<string>) { forall i :: 0 <= i < |items| ==> '=' in items[i] }

  lemma {:induction false} MoveToFront(v6: V6, t: Type, first: bool, pre: seq<string>, x: string, post: seq<string>,
                                       values: Values)
    requires Keyed(pre) && '=' in x && ParseItems(v6, t, first, pre + ([x] + post), values).Ok?
    ensures ParseItems(v6, t, first, [x] + (pre + post), values) == ParseItems(v6, t, first, pre + ([x] + post), values)
    decreases |pre|
  {
    if pre == [] {
      assert pre + ([x] + post) == [x] + (pre + post);
    } else {
      var n := |pre| - 1;
      MoveOne(v6, t, first, pre, x, post, values);
      MoveToFront(v6, t, first, pre[..n], x, [pre[n]] + post, values);
      Rotate(pre, x, post);
    }
  }

  lemma MoveOne(v6: V6, t: Type, first: bool, pre: seq<string>, x: string, post: seq<string>, values: Values)
    requires pre != [] && Keyed(pre) && '=' in x && ParseItems(v6, t, first, pre + ([x] + post), values).Ok?
    ensures var n := |pre| - 1;
            ParseItems(v6, t, first, pre[..n] + ([x] + ([pre[n]] + post)), values)
            == ParseItems(v6, t, first, pre + ([x] + post), values)
  {
    var n := |pre| - 1;
    Rotate(pre, x, post);
    KeyOrderDoesNotMatter(v6, t, first, pre[..n], pre[n], x, post, values);
  }

  lemma Rotate(pre: seq<string>, x: string, post: seq<string>)
    requires pre != []
    ensures var n := |pre| - 1;
            && pre + ([x] + post) == pre[..n] + ([pre[n], x] + post)
            && pre[..n] + ([x, pre[n]] + post) == pre[..n] + ([x] + ([pre[n]] + post))
            && [x] + (pre[..n] + ([pre[n]] + post)) == [x] + (pre + post)
  {
  }

  lemma SplitAt(items: seq<string>, x: string) returns (pre: seq<string>, post: seq<string>)
    requires x in items
    ensures items == pre + ([x] + post) && multiset(pre + post) == multiset(items) - multiset{x}
  {
    var i :| 0 <= i < |items| && items[i] == x;
    pre, post := items[..i], items[i + 1..];
    assert items == pre + ([x] + post);
  }

  /** The key=value items of an accepted list may come in any order. */
  lemma {:induction false} AnyOrderReadsTheSame(v6: V6, t: Type, first: bool, items: seq<string>, other: seq<string>,
                                                values: Values)
    requires Keyed(items) && multiset(items) == multiset(other) && ParseItems(v6, t, first, items, values).Ok?
    ensures ParseItems(v6, t, first, other, values) == ParseItems(v6, t, first, items, values)
    decreases |other|
  {
    if other == [] {
      assert |multiset(items)| == 0;
      assert items == [];
    } else {
      var x, rest := other[0], other[1..];
      assert other == [x] + rest;
      assert x in multiset(items);
      var pre, post := SplitAt(items, x);
      KeyedParts2(items, pre, x, post);
      MoveToFront(v6, t, first, pre, x, post, values);
      var next := ParseConsOk(v6, t, first, x, pre + post, values);
      AnyOrderReadsTheSame(v6, t, false, pre + post, rest, next);
      SameTail(v6, t, first, x, pre + post, rest, values, next);
    }
  }

  lemma KeyedParts2(items: seq<string>, pre: seq<string>, x: string, post: seq<string>)
    requires Keyed(items) && items == pre + ([x] + post)
    ensures Keyed(pre) && '=' in x && Keyed(pre + post)
  {
    assert items[|pre|] == x;
    assert forall i :: 0 <= i < |post| ==> post[i] == items[|pre| + 1 + i];
    assert forall i :: 0 <= i < |pre| ==> pre[i] == items[i];
  }

  lemma {:induction false} TotalPermuted(items: seq<string>, other: seq<string>)
    requires multiset(items) == multiset(other)
    ensures Total(items) == Total(other)
    decreases |other|
  {
    if other == [] {
      assert |multiset(items)| == 0;
    } else {
      var x, rest := other[0], other[1..];
      assert other == [x] + rest;
      assert x in multiset(items);
      var pre, post := SplitAt(items, x);
      TotalPermuted(pre + post, rest);
      TotalAppend(pre, [x] + post);
      TotalAppend(pre, post);
      assert ([x] + post)[1..] == post;
    }
  }

  /** What is read of a type and a list of key=value items. */
  function ReadSpec(v6: V6, name: string, items: seq<string>): Result<NicSpec> {
    var t := FindType(Lower(Strip(name)));
    if |name| + Total(items) > 512 then Err(TooLong)
    else if t.None? then Err(UnknownType)
    else
      var r := ParseItems(v6, t.value, true, items, map[]);
      if r.Err? then Err(r.error) else Finish(t.value, r.value)
  }

  lemma ParseIsReadSpec(v6: V6, name: string, items: seq<string>)
    requires ':' !in name && items != [] && Keyed(items) && forall i :: 0 <= i < |items| ==> ',' !in items[i]
    ensures Parse(v6, name + ":" + Join(items, ',')) == ReadSpec(v6, name, items)
  {
    RawParts(name, Join(items, ','));
    ItemParts(items);
    ParseOfParts(v6, name + ":" + Join(items, ','), name, Join(items, ','), items);
  }

  lemma ParseOfParts(v6: V6, raw: string, name: string, rest: string, items: seq<string>)
    requires Strip(raw) != "" && |raw| == |name| + Total(items)
    requires IndexOf(raw, ':') == |name| < |raw| && raw[..|name|] == name && raw[|name| + 1..] == rest
    requires Strip(rest) != "" && Split(rest, ',') == items
    ensures Parse(v6, raw) == ReadSpec(v6, name, items)
  {
  }

  lemma RawParts(name: string, rest: string)
    requires ':' !in name
    ensures var raw := name + ":" + rest;
            && Strip(raw) != "" && |raw| == |name| + 1 + |rest|
            && IndexOf(raw, ':') == |name| && raw[..|name|] == name && raw[|name| + 1..] == rest
  {
    var raw := name + ":" + rest;
    IndexOfFirst(name, ':', rest);
    assert raw[|name|] == ':';
    NotBlank(raw, |name|);
  }

  lemma ItemParts(items: seq<string>)
    requires items != [] && Keyed(items) && forall i :: 0 <= i < |items| ==> ',' !in items[i]
    ensures var rest := Join(items, ',');
            Strip(rest) != "" && Split(rest, ',') == items && |rest| + 1 == Total(items)
  {
    var rest := Join(items, ',');
    SplitJoin(items, ',');
    JoinLength(items, ',');
    JoinHas(items, '=');
    var i :| 0 <= i < |rest| && rest[i] == '=';
    NotBlank(rest, i);
  }

  /** So a whole spec is read the same, whatever the order of its keys. */
  lemma SpecInAnyOrder(v6: V6, name: string, items: seq<string>, other: seq<string>)
    requires ':' !in name && items != [] && Keyed(items) && forall i :: 0 <= i < |items| ==> ',' !in items[i]
    requires multiset(items) == multiset(other) && Parse(v6, name + ":" + Join(items, ',')).Ok?
    ensures Parse(v6, name + ":" + Join(other, ',')) == Parse(v6, name + ":" + Join(items, ','))
  {
    ParseIsReadSpec(v6, name, items);
    PermutedItems(items, other);
    ParseIsReadSpec(v6, name, other);
    TotalPermuted(items, other);
    AnyOrderReadsTheSame(v6, FindType(Lower(Strip(name))).value, true, items, other, map[]);
  }

  lemma PermutedItems(items: seq<string>, other: seq<string>)
    requires multiset(items) == multiset(other) && items != [] && Keyed(items)
    requires forall i :: 0 <= i < |items| ==> ',' !in items[i]
    ensures other != [] && Keyed(other) && forall i :: 0 <= i < |other| ==> ',' !in other[i]
  {
    assert items[0] in multiset(other);
    forall i | 0 <= i < |other| ensures '=' in other[i] && ',' !in other[i] {
      assert other[i] in multiset(items);
      var j :| 0 <= j < |items| && items[j] == other[i];
    }
  }

  // ---- the positional BDF --------------------------------------------------------------------

  /** A passthrough NIC's BDF may leave out its key. */
  lemma PositionalIsBdf(v6: V6, x: string, values: Values)
    requires '=' !in x
    ensures ParseItem(v6, Passthrough, true, x, values)
            == ParseItem(v6, Passthrough, true, KeyName(Bdf) + "=" + x, values)
  {
    IndexOfFirst(x, '=', "");
    KeyNames(Bdf);
    KeyedParts(KeyName(Bdf), x);
  }

  // ---- the spelling of an IPv4 subnet ------------------------------------------------------------

  lemma SlashParts(a: nat, p: string)
    requires '/' !in p
    ensures Split(PrintQuad(a) + "/" + p, '/') == [PrintQuad(a), p]
  {
    QuadChars(a);
    SplitCons(PrintQuad(a), '/', p);
    IndexOfFirst(p, '/', "");
  }

  lemma SamePrefixSameNetwork(a: nat, p: string, q: string)
    requires '/' !in p && '/' !in q && ParsePrefix(p) == ParsePrefix(q)
    ensures ParseNet4(PrintQuad(a) + "/" + p) == ParseNet4(PrintQuad(a) + "/" + q)
  {
    SlashParts(a, p);
    SlashParts(a, q);
  }

  /** Leading zeros, ... */
  lemma ZerosSpellSubnet(a: nat, p: nat, zeros: string)
    requires p <= 32 && forall i :: 0 <= i < |zeros| ==> zeros[i] == '0'
    ensures ParseNet4(PrintQuad(a) + "/" + (zeros + Decimal(p))) == ParseNet4(PrintQuad(a) + "/" + Decimal(p))
  {
    PrefixDigits(p);
    PrefixWithZeros(p, zeros);
    SamePrefixSameNetwork(a, zeros + Decimal(p), Decimal(p));
  }

  lemma PrefixDigits(p: nat)
    requires p <= 32
    ensures ParsePrefix(Decimal(p)) == Some(p) && '/' !in Decimal(p)
  {
    PrefixWithZeros(p, "");
    assert "" + Decimal(p) == Decimal(p);
  }

  /** ... a netmask ... */
  lemma NetmaskSpellsSubnet(a: nat, p: nat)
    requires p <= 32
    ensures ParseNet4(PrintQuad(a) + "/" + PrintQuad(Netmask(p))) == ParseNet4(PrintQuad(a) + "/" + Decimal(p))
  {
    PrefixAsNetmask(p);
    MaskSpells(a, p, Netmask(p));
  }

  /** ... and a host mask name the subnet that the prefix length names. */
  lemma HostmaskSpellsSubnet(a: nat, p: nat, m: nat)
    requires 0 < p < 32 && m == Pow2(32 - p) - 1
    ensures ParseNet4(PrintQuad(a) + "/" + PrintQuad(m)) == ParseNet4(PrintQuad(a) + "/" + Decimal(p))
  {
    HostmaskReadsAs(p, m);
    MaskSpells(a, p, m);
  }

  lemma HostmaskReadsAs(p: nat, m: nat)
    requires 0 < p < 32 && m == Pow2(32 - p) - 1
    ensures ParsePrefix(PrintQuad(m)) == Some(p)
  {
    PrefixAsHostmask(p);
  }

  lemma MaskSpells(a: nat, p: nat, m: nat)
    requires p <= 32 && ParsePrefix(PrintQuad(m)) == Some(p)
    ensures ParseNet4(PrintQuad(a) + "/" + PrintQuad(m)) == ParseNet4(PrintQuad(a) + "/" + Decimal(p))
  {
    PrefixDigits(p);
    QuadChars(m);
    SamePrefixSameNetwork(a, PrintQuad(m), Decimal(p));
  }
}
