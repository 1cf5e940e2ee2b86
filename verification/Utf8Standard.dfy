/** The decoder measured against the standards: UTF-8 as in section 3 of RFC 3629 and UTF-16 as in
    section 2.1 of RFC 2781. */
module Utf8Standard {
  import opened Utf8to16

  /** Unicode scalar values other than NUL, which would end a C string. */
  predicate Scalar(v: bv32) {
    1 <= v <= 0x10ffff && !(0xd800 <= v <= 0xdfff)
  }

  /** The octets of section 3 of RFC 3629 that carry the bits `x`. */
  function Octet10(x: bv32): Byte requires x < 0x40 { (0x80 + x) as Byte }
  function Octet110(x: bv32): Byte requires x < 0x20 { (0xc0 + x) as Byte }
  function Octet1110(x: bv32): Byte requires x < 0x10 { (0xe0 + x) as Byte }
  function Octet11110(x: bv32): Byte requires x < 0x8 { (0xf0 + x) as Byte }

  /** The bits of `v` above the lowest `6 * n`, for the lead octet of a sequence of `n + 1`. */
  function High(v: bv32, n: nat): bv32 {
    if n == 0 then v else if n == 1 then v / 0x40 else if n == 2 then v / 0x1000 else v / 0x40000
  }

  /** The `n`-th group of six bits from the right. */
  function Six(v: bv32, n: nat): (r: bv32)
    ensures r < 0x40
  {
    High(v, n) % 0x40
  }

  /** Section 3 of RFC 3629: one to four octets, by the size of the value. */
  function Utf8Of(v: bv32): (r: seq<Byte>)
    requires Scalar(v)
    ensures 1 <= |r| <= 4
  {
    if v < 0x80 then [v as Byte]
    else if v < 0x800 then [Octet110(High(v, 1)), Octet10(Six(v, 0))]
    else if v < 0x10000 then [Octet1110(High(v, 2)), Octet10(Six(v, 1)), Octet10(Six(v, 0))]
    else [Octet11110(High(v, 3)), Octet10(Six(v, 2)), Octet10(Six(v, 1)), Octet10(Six(v, 0))]
  }

  /** Section 2.1 of RFC 2781: one unit, or two carrying ten bits each of v - 0x10000. */
  function Utf16Of(v: bv32): (r: seq<Unit>)
    requires Scalar(v)
  {
    if v < 0x10000 then [v as Unit]
    else [(0xd800 + (v - 0x10000) / 0x400) as Unit, (0xdc00 + (v - 0x10000) % 0x400) as Unit]
  }

  predicate Scalars(vs: seq<bv32>) {
    forall i :: 0 <= i < |vs| ==> Scalar(vs[i])
  }

  function Utf8(vs: seq<bv32>): seq<Byte>
    requires Scalars(vs)
  {
    if vs == [] then [] else Utf8Of(vs[0]) + Utf8(vs[1..])
  }

  function Utf16(vs: seq<bv32>): seq<Unit>
    requires Scalars(vs)
  {
    if vs == [] then [] else Utf16Of(vs[0]) + Utf16(vs[1..])
  }

  // ---------- the bits of each row ----------

  function Append6(ret: bv32, x: bv32): bv32 {
    (ret << 6) | x
  }

  lemma ExtensionOctet(x: bv32, ret: bv32)
    requires x < 0x40
    ensures Extension(Octet10(x)) && ShiftAndMask(ret, Octet10(x)) == Append6(ret, x)
  {
  }

  lemma LeadOctets(x: bv32)
    ensures x < 0x20 ==> var b := Octet110(x); !Extension(b) && SeqLength(b) == 2 && LeadBits(b) == x
    ensures x < 0x10 ==> var b := Octet1110(x); !Extension(b) && SeqLength(b) == 3 && LeadBits(b) == x
    ensures x < 0x8 ==> var b := Octet11110(x); !Extension(b) && SeqLength(b) == 4 && LeadBits(b) == x
  {
    hide SeqLength;
    if x < 0x20 { SeqLengthTable(Octet110(x)); }
    if x < 0x10 { SeqLengthTable(Octet1110(x)); }
    if x < 0x8 { SeqLengthTable(Octet11110(x)); }
  }

  lemma TwoFields(v: bv32)
    requires v < 0x800
    ensures High(v, 1) < 0x20 && Append6(High(v, 1), Six(v, 0)) == v
  {
    assert v / 0x40 < 0x20 && ((v / 0x40) << 6) | (v % 0x40) == v;
  }

  lemma ThreeFields(v: bv32)
    requires v < 0x10000
    ensures High(v, 2) < 0x10 && Append6(Append6(High(v, 2), Six(v, 1)), Six(v, 0)) == v
  {
    assert v / 0x1000 < 0x10;
    assert ((((v / 0x1000) << 6) | (v / 0x40 % 0x40)) << 6) | (v % 0x40) == v;
  }

  lemma FourFields(v: bv32)
    requires v < 0x200000
    ensures High(v, 3) < 0x8
    ensures Append6(Append6(Append6(High(v, 3), Six(v, 2)), Six(v, 1)), Six(v, 0)) == v
  {
    assert v / 0x40000 < 0x8;
    assert ((((((v / 0x40000) << 6) | (v / 0x1000 % 0x40)) << 6) | (v / 0x40 % 0x40)) << 6) | (v % 0x40) == v;
  }

  lemma OneByteRow(v: bv32)
    requires Scalar(v) && v < 0x80
    ensures var b := Utf8Of(v); |b| == 1 && !Extension(b[0]) && SeqLength(b[0]) == 1 && LeadBits(b[0]) == v
  {
    hide SeqLength;
    SeqLengthTable(v as Byte);
  }

  lemma TwoByteRow(v: bv32)
    requires Scalar(v) && 0x80 <= v < 0x800
    ensures var b := Utf8Of(v);
            |b| == 2 && !Extension(b[0]) && SeqLength(b[0]) == 2 && Extension(b[1]) &&
            ShiftAndMask(LeadBits(b[0]), b[1]) == v
  {
    hide Octet10, Octet110, High, Six, Append6, Extension, SeqLength, LeadBits, ShiftAndMask;
    TwoFields(v);
    LeadOctets(High(v, 1));
    ExtensionOctet(Six(v, 0), High(v, 1));
  }

  lemma ThreeByteRow(v: bv32)
    requires Scalar(v) && 0x800 <= v < 0x10000
    ensures var b := Utf8Of(v);
            |b| == 3 && !Extension(b[0]) && SeqLength(b[0]) == 3 && Extension(b[1]) && Extension(b[2]) &&
            ShiftAndMask(ShiftAndMask(LeadBits(b[0]), b[1]), b[2]) == v
  {
    hide Octet10, Octet1110, High, Six, Append6, Extension, SeqLength, LeadBits, ShiftAndMask;
    ThreeFields(v);
    LeadOctets(High(v, 2));
    ExtensionOctet(Six(v, 1), High(v, 2));
    ExtensionOctet(Six(v, 0), Append6(High(v, 2), Six(v, 1)));
  }

  lemma FourByteRow(v: bv32)
    requires Scalar(v) && 0x10000 <= v
    ensures var b := Utf8Of(v);
            |b| == 4 && !Extension(b[0]) && SeqLength(b[0]) == 4 &&
            Extension(b[1]) && Extension(b[2]) && Extension(b[3]) &&
            ShiftAndMask(ShiftAndMask(ShiftAndMask(LeadBits(b[0]), b[1]), b[2]), b[3]) == v
  {
    hide Octet10, Octet11110, High, Six, Append6, Extension, SeqLength, LeadBits, ShiftAndMask;
    FourFields(v);
    LeadOctets(High(v, 3));
    ExtensionOctet(Six(v, 2), High(v, 3));
    ExtensionOctet(Six(v, 1), Append6(High(v, 3), Six(v, 2)));
    ExtensionOctet(Six(v, 0), Append6(Append6(High(v, 3), Six(v, 2)), Six(v, 1)));
  }

  /** Every scalar value is read back from its UTF-8 row. */
  lemma ScalarReadsBack(v: bv32, rest: seq<Byte>)
    requires Scalar(v)
    ensures NextUtf32(Utf8Of(v) + rest) == (v, |Utf8Of(v)|)
  {
    hide Utf8Of, LeadBits, ShiftAndMask, SeqLength, Extension, NextUtf32;
    var b := Utf8Of(v);
    if v < 0x80 {
      OneByteRow(v);
      NextOfWhole(b[0], [], rest);
      assert [b[0]] + [] == b;
    } else if v < 0x800 {
      TwoByteRow(v);
      NextOfWhole(b[0], [b[1]], rest);
      FoldOne(b[1], LeadBits(b[0]));
      assert [b[0]] + [b[1]] == b;
    } else if v < 0x10000 {
      ThreeByteRow(v);
      NextOfWhole(b[0], [b[1], b[2]], rest);
      FoldTwo(b[1], b[2], LeadBits(b[0]));
      assert [b[0]] + [b[1], b[2]] == b;
    } else {
      FourByteRow(v);
      NextOfWhole(b[0], [b[1], b[2], b[3]], rest);
      FoldThree(b[1], b[2], b[3], LeadBits(b[0]));
      assert [b[0]] + [b[1], b[2], b[3]] == b;
    }
  }

  /** The units written for a scalar value are the standard's unless it is one of the last two code
      points, which become a single replacement character. */
  lemma UnitsAreStandard(v: bv32)
    requires Scalar(v)
    ensures v <= UNICODE_UPPER_LIMIT ==> Units(v) == Utf16Of(v)
    ensures v > UNICODE_UPPER_LIMIT ==> |Units(v)| == 1 && |Utf16Of(v)| == 2
  {
  }

  lemma DecodeFirst(vs: seq<bv32>)
    requires vs != [] && Scalars(vs)
    ensures Decode(Utf8(vs)) == Units(vs[0]) + Decode(Utf8(vs[1..]))
  {
    hide Utf8Of, NextUtf32, Units, Decode;
    var first, rest := Utf8Of(vs[0]), Utf8(vs[1..]);
    ScalarReadsBack(vs[0], rest);
    DecodeStep(first + rest);
    assert (first + rest)[|first|..] == rest;
  }

  lemma {:induction false} DecodeIsShorter(vs: seq<bv32>)
    requires Scalars(vs)
    ensures |Decode(Utf8(vs))| <= |Utf16(vs)|
    ensures |Decode(Utf8(vs))| == |Utf16(vs)| <==> forall i :: 0 <= i < |vs| ==> vs[i] <= UNICODE_UPPER_LIMIT
  {
    hide Decode, Units, Utf8, Utf16Of, Scalar;
    if vs == [] {
      NothingLeft();
      EmptyIsEmpty();
    } else {
      DecodeFirst(vs);
      UnitsAreStandard(vs[0]);
      DecodeIsShorter(vs[1..]);
      assert vs == [vs[0]] + vs[1..];
    }
  }

  lemma EmptyIsEmpty()
    ensures Utf8([]) == []
  {
  }

  lemma {:induction false} DecodesStandardBelowLimit(vs: seq<bv32>)
    requires Scalars(vs) && forall i :: 0 <= i < |vs| ==> vs[i] <= UNICODE_UPPER_LIMIT
    ensures Decode(Utf8(vs)) == Utf16(vs)
  {
    hide Decode, Units, Utf8, Utf16Of, Scalar;
    if vs == [] {
      NothingLeft();
      EmptyIsEmpty();
    } else {
      DecodeFirst(vs);
      UnitsAreStandard(vs[0]);
      DecodesStandardBelowLimit(vs[1..]);
    }
  }

  /** Standard UTF-8 decodes to standard UTF-16 exactly when no scalar value is above the limit. */
  lemma DecodesStandardIff(vs: seq<bv32>)
    requires Scalars(vs)
    ensures Decode(Utf8(vs)) == Utf16(vs) <==>
            forall i :: 0 <= i < |vs| ==> vs[i] <= UNICODE_UPPER_LIMIT
  {
    hide Decode, Utf8, Utf16;
    DecodeIsShorter(vs);
    if forall i :: 0 <= i < |vs| ==> vs[i] <= UNICODE_UPPER_LIMIT { DecodesStandardBelowLimit(vs); }
  }
}
