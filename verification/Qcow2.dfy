/** The few bytes of a qcow2 header that say what an overlay is backed by. */
module Qcow2 {
  import opened Text

  type Byte = b: int | 0 <= b < 256

  const MAGIC: seq<Byte> := [0x51, 0x46, 0x49, 0xfb]

  /** "json:" */
  const JSON: seq<Byte> := [0x6a, 0x73, 0x6f, 0x6e, 0x3a]

  const HEADER := 20

  function BigEndian(bs: seq<Byte>): nat {
    if bs == [] then 0 else BigEndian(bs[..|bs| - 1]) * 256 + bs[|bs| - 1]
  }

  function Bytes(n: nat, width: nat): (bs: seq<Byte>)
    ensures |bs| == width
  {
    if width == 0 then [] else Bytes(n / 256, width - 1) + [n % 256]
  }

  function Limit(width: nat): nat { if width == 0 then 1 else 256 * Limit(width - 1) }

  lemma {:induction false} BigEndianReadsBytes(n: nat, width: nat)
    requires n < Limit(width)
    ensures BigEndian(Bytes(n, width)) == n
  {
    if width > 0 {
      BigEndianReadsBytes(n / 256, width - 1);
      var bs := Bytes(n, width);
      assert bs[..|bs| - 1] == Bytes(n / 256, width - 1);
    }
  }

  predicate IsQcow2(f: seq<Byte>) { |f| >= HEADER && f[..4] == MAGIC }

  function Offset(f: seq<Byte>): nat
    requires |f| >= HEADER
  {
    BigEndian(f[8..16])
  }

  function Size(f: seq<Byte>): nat
    requires |f| >= HEADER
  {
    BigEndian(f[16..20])
  }

  /** Reading from an offset: short at the end of the file. */
  function ReadAt(f: seq<Byte>, offset: nat, size: nat): seq<Byte> {
    if offset >= |f| then [] else if offset + size > |f| then f[offset..] else f[offset..offset + size]
  }

  /** The name an overlay gives its backing file, if it can be told. */
  function BackingName(f: seq<Byte>): Option<seq<Byte>> {
    if !IsQcow2(f) || Offset(f) == 0 || Size(f) == 0 || Size(f) > 1023 then None
    else
      var name := ReadAt(f, Offset(f), Size(f));
      if JSON <= name then None else Some(name)
  }

  predicate HasNoBacking(f: seq<Byte>) { IsQcow2(f) && Offset(f) == 0 }

  /** An overlay with its backing file's name at `offset`; `version` and `gap` are what else
      the header and the space before the name hold. */
  function Overlay(version: seq<Byte>, offset: nat, name: seq<Byte>, gap: seq<Byte>, rest: seq<Byte>): seq<Byte> {
    MAGIC + version + Bytes(offset, 8) + Bytes(|name|, 4) + gap + name + rest
  }

  lemma OverlayParts(version: seq<Byte>, offset: nat, name: seq<Byte>, gap: seq<Byte>, rest: seq<Byte>)
    requires |version| == 4
    ensures var f := Overlay(version, offset, name, gap, rest);
            && IsQcow2(f) && f[8..16] == Bytes(offset, 8) && f[16..20] == Bytes(|name|, 4)
            && f[HEADER + |gap|..HEADER + |gap| + |name|] == name && |f| >= HEADER + |gap| + |name|
  {
    var head := MAGIC + version + Bytes(offset, 8) + Bytes(|name|, 4);
    var f := Overlay(version, offset, name, gap, rest);
    assert f == head + (gap + name + rest) && |head| == HEADER;
    assert head[8..16] == Bytes(offset, 8) && head[16..20] == Bytes(|name|, 4);
    assert f[..HEADER] == head && f[..4] == head[..4] == MAGIC;
    assert f[8..16] == head[8..16] && f[16..20] == head[16..20];
  }

  lemma Limits()
    ensures Limit(4) == 0x1_0000_0000 && Limit(8) == Limit(4) * 0x1_0000_0000
  {
    assert Limit(1) == 256 && Limit(2) == 65536 && Limit(3) == 16777216;
    assert Limit(4) == 256 * Limit(3);
    assert Limit(5) == 256 * Limit(4) && Limit(6) == 256 * Limit(5) && Limit(7) == 256 * Limit(6);
  }

  /** Every backing name that fits a header is read back from it, but for json: ones. */
  lemma BackingNameRoundTrip(version: seq<Byte>, name: seq<Byte>, gap: seq<Byte>, rest: seq<Byte>)
    requires |version| == 4 && 0 < |name| <= 1023 && HEADER + |gap| < Limit(8)
    ensures BackingName(Overlay(version, HEADER + |gap|, name, gap, rest)) == if JSON <= name then None else Some(name)
  {
    var offset := HEADER + |gap|;
    OverlayParts(version, offset, name, gap, rest);
    Limits();
    BigEndianReadsBytes(offset, 8);
    BigEndianReadsBytes(|name|, 4);
    var f := Overlay(version, offset, name, gap, rest);
    assert Offset(f) == offset && Size(f) == |name|;
    assert ReadAt(f, offset, |name|) == name;
  }

  /** A file never both names a backing file and has none; what is neither is no qcow2, or
      has a name that is empty, too long, or json:. */
  lemma BackingIsClassified(f: seq<Byte>)
    ensures !(BackingName(f).Some? && HasNoBacking(f))
    ensures BackingName(f).None? && !HasNoBacking(f) <==>
            || !IsQcow2(f)
            || (Offset(f) != 0 && (Size(f) == 0 || Size(f) > 1023 || JSON <= ReadAt(f, Offset(f), Size(f))))
  {
  }
}
