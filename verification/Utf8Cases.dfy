/** The decoder and the encoder case by case, in numbers: what every byte sequence at the front of a
    string decodes to, well formed or not, and what every unit is encoded as. */
module Utf8Cases {
  import opened Utf8to16
  import opened Utf16to8
  import opened Utf8Standard

  // ---------- decoding ----------

  predicate IsExtension(b: Byte) {
    0x80 <= b < 0xc0
  }

  /** How many extension bytes a lead calls for. */
  function Due(lead: Byte): nat {
    if lead < 0xc0 then 0 else if lead < 0xe0 then 1 else if lead < 0xf0 then 2 else 3
  }

  lemma SameExtension(b: Byte)
    ensures Extension(b) <==> IsExtension(b)
  {
  }

  lemma DueIs(lead: Byte)
    requires !IsExtension(lead)
    ensures !Extension(lead) && SeqLength(lead) == 1 + Due(lead)
  {
    SeqLengthTable(lead);
  }

  /** A stray extension byte is replaced, and only it. */
  lemma DecodeStray(b: Byte, rest: seq<Byte>)
    requires IsExtension(b)
    ensures Decode([b] + rest) == [0xfffd] + Decode(rest)
  {
    hide Decode, Units, SingleUnitLeads;
    SameExtension(b);
    var bytes := [b] + rest;
    StrayIs(bytes);
    DecodeStep(bytes);
    ReplacementUnit();
    assert bytes[1..] == rest;
  }

  lemma StrayIs(bytes: seq<Byte>)
    requires bytes != [] && Extension(bytes[0])
    ensures NextUtf32(bytes) == (0xfffd, 1)
  {
  }

  lemma ReplacementUnit()
    ensures Units(0xfffd) == [0xfffd]
  {
  }

  /** A lead with fewer extension bytes after it than it calls for is replaced together with those it has,
      at the end of the string as before a byte that starts something new. */
  lemma DecodeCutShort(lead: Byte, extensions: seq<Byte>, rest: seq<Byte>)
    requires !IsExtension(lead) && |extensions| < Due(lead)
    requires forall i :: 0 <= i < |extensions| ==> IsExtension(extensions[i])
    requires rest == [] || !IsExtension(rest[0])
    ensures Decode([lead] + extensions + rest) == [0xfffd] + Decode(rest)
  {
    hide Decode, Units, SingleUnitLeads, IsExtension, Extension, SeqLength, Due;
    var bytes := [lead] + extensions + rest;
    DueIs(lead);
    forall i | 0 <= i < |extensions| ensures Extension(extensions[i]) { SameExtension(extensions[i]); }
    if rest != [] { SameExtension(rest[0]); }
    FollowTooFew(extensions, rest, LeadBits(lead), Due(lead));
    assert bytes[1..] == extensions + rest;
    DecodeStep(bytes);
    ReplacementUnit();
    assert bytes[1 + |extensions|..] == rest;
  }

  lemma {:induction false} FollowTooFew(extensions: seq<Byte>, rest: seq<Byte>, ret: bv32, due: nat)
    requires |extensions| < due && (rest == [] || !Extension(rest[0]))
    requires forall i :: 0 <= i < |extensions| ==> Extension(extensions[i])
    ensures Follow(extensions + rest, ret, due) == (0xfffd, |extensions|)
  {
    hide Extension, ShiftAndMask;
    var bytes := extensions + rest;
    if extensions == [] {
      assert bytes == rest;
    } else {
      assert bytes[0] == extensions[0] && bytes[1..] == extensions[1..] + rest;
      forall i | 0 <= i < |extensions| - 1 ensures Extension(extensions[1..][i]) {
        assert extensions[1..][i] == extensions[i + 1];
      }
      FollowTooFew(extensions[1..], rest, ShiftAndMask(ret, extensions[0]), due - 1);
    }
  }

  /** The bits of a byte below its marker. */
  function Low(b: Byte, mask: Byte): bv32 {
    (b & mask) as bv32
  }

  /** A whole sequence decodes to the units of the code point put together from its bits. */
  lemma DecodeWhole(lead: Byte, extensions: seq<Byte>, rest: seq<Byte>)
    requires !IsExtension(lead) && |extensions| == Due(lead)
    requires forall i :: 0 <= i < |extensions| ==> IsExtension(extensions[i])
    ensures Decode([lead] + extensions + rest) == Units(Fold(extensions, LeadBits(lead))) + Decode(rest)
  {
    hide Decode, Units, SingleUnitLeads, IsExtension, Extension, SeqLength, Due, NextUtf32;
    var bytes := [lead] + extensions + rest;
    DueIs(lead);
    forall i | 0 <= i < |extensions| ensures Extension(extensions[i]) { SameExtension(extensions[i]); }
    NextOfWhole(lead, extensions, rest);
    DecodeStep(bytes);
    assert bytes[1 + |extensions|..] == rest;
  }

  lemma DecodeOne(a: Byte, rest: seq<Byte>)
    requires a < 0x80
    ensures Decode([a] + rest) == [a as Unit] + Decode(rest)
  {
    hide Decode;
    DecodeWhole(a, [], rest);
    assert [a] + [] + rest == [a] + rest;
    OneBits(a);
  }

  lemma OneBits(a: Byte)
    requires a < 0x80
    ensures Units(Fold([], LeadBits(a))) == [a as Unit]
  {
    hide SeqLength;
    SeqLengthTable(a);
  }

  lemma DecodeTwo(a: Byte, b: Byte, rest: seq<Byte>)
    requires 0xc0 <= a < 0xe0 && IsExtension(b)
    ensures Decode([a, b] + rest) == [((Low(a, 0x1f) << 6) | Low(b, 0x3f)) as Unit] + Decode(rest)
  {
    hide Decode;
    DecodeWhole(a, [b], rest);
    assert [a] + [b] + rest == [a, b] + rest;
    TwoBits(a, b);
  }

  lemma TwoBits(a: Byte, b: Byte)
    requires 0xc0 <= a < 0xe0
    ensures (Low(a, 0x1f) << 6) | Low(b, 0x3f) <= 0xffff
    ensures Units(Fold([b], LeadBits(a))) == [((Low(a, 0x1f) << 6) | Low(b, 0x3f)) as Unit]
  {
    hide SeqLength, Fold;
    SeqLengthTable(a);
    FoldOne(b, LeadBits(a));
  }

  lemma DecodeThree(a: Byte, b: Byte, c: Byte, rest: seq<Byte>)
    requires 0xe0 <= a < 0xf0 && IsExtension(b) && IsExtension(c)
    ensures var cp := (Low(a, 0x0f) << 12) | (Low(b, 0x3f) << 6) | Low(c, 0x3f);
            cp <= 0xffff && Decode([a, b, c] + rest) == [cp as Unit] + Decode(rest)
  {
    hide Decode;
    DecodeWhole(a, [b, c], rest);
    assert [a] + [b, c] + rest == [a, b, c] + rest;
    ThreeBits(a, b, c);
  }

  lemma ThreeBits(a: Byte, b: Byte, c: Byte)
    requires 0xe0 <= a < 0xf0
    ensures var cp := (Low(a, 0x0f) << 12) | (Low(b, 0x3f) << 6) | Low(c, 0x3f);
            cp <= 0xffff && Units(Fold([b, c], LeadBits(a))) == [cp as Unit]
  {
    hide SeqLength, Fold;
    SeqLengthTable(a);
    FoldTwo(b, c, LeadBits(a));
  }

  function FourByteNumber(a: Byte, b: Byte, c: Byte, d: Byte): bv32 {
    (Low(a, 0x07) << 18) | (Low(b, 0x3f) << 12) | (Low(c, 0x3f) << 6) | Low(d, 0x3f)
  }

  /** Four bytes: one unit for a code point that needs no more, the standard's surrogate pair up to
      0x10fffd, and the replacement character above. */
  lemma DecodeFour(a: Byte, b: Byte, c: Byte, d: Byte, rest: seq<Byte>)
    requires 0xf0 <= a && IsExtension(b) && IsExtension(c) && IsExtension(d)
    ensures var cp := FourByteNumber(a, b, c, d);
            && (cp <= 0xffff ==> Decode([a, b, c, d] + rest) == [cp as Unit] + Decode(rest))
            && (0xffff < cp <= 0x10fffd ==> Decode([a, b, c, d] + rest) == Utf16Of(cp) + Decode(rest))
            && (0x10fffd < cp ==> Decode([a, b, c, d] + rest) == [0xfffd] + Decode(rest))
  {
    hide Decode, Units, LeadBits, Fold, FourByteNumber, Utf16Of, IsExtension, Due;
    var cp := FourByteNumber(a, b, c, d);
    FourAreDue(a);
    DecodeWhole(a, [b, c, d], rest);
    assert [a] + [b, c, d] + rest == [a, b, c, d] + rest;
    FourBits(a, b, c, d);
    UnitsInNumbers(cp);
    if 0xffff < cp <= 0x10fffd { UnitsAreStandard(cp); }
  }

  lemma FourAreDue(a: Byte)
    requires 0xf0 <= a
    ensures Due(a) == 3 && !IsExtension(a)
  {
  }

  lemma FourBits(a: Byte, b: Byte, c: Byte, d: Byte)
    requires 0xf0 <= a
    ensures Fold([b, c, d], LeadBits(a)) == FourByteNumber(a, b, c, d)
  {
    hide SeqLength, Fold;
    SeqLengthTable(a);
    FoldThree(b, c, d, LeadBits(a));
  }

  lemma UnitsInNumbers(cp: bv32)
    ensures cp <= 0xffff ==> Units(cp) == [cp as Unit]
    ensures 0x10fffd < cp ==> Units(cp) == [0xfffd]
  {
  }

  // ---------- encoding ----------

  /** A unit that is a scalar value is encoded as the standard has it. */
  lemma EncodesStandard(u: Unit)
    requires Scalar(u as bv32)
    ensures EncodeUnit(u) == Utf8Of(u as bv32)
  {
    hide EncodeUnit, High, Six, Octet10, Octet110, Octet1110;
    EncodeUnitIs(u);
    if 0x80 <= u < 0x800 {
      TwoOctets(u);
    } else if 0x800 <= u {
      ThreeOctets(u);
    }
  }

  lemma TwoOctets(u: Unit)
    requires 0x80 <= u < 0x800
    ensures High(u as bv32, 1) < 0x20
    ensures ((u >> 6) | 0xc0) as Byte == Octet110(High(u as bv32, 1))
    ensures ((u & 0x3f) | 0x80) as Byte == Octet10(Six(u as bv32, 0))
  {
  }

  lemma ThreeOctets(u: Unit)
    requires 0x800 <= u
    ensures High(u as bv32, 2) < 0x10
    ensures ((u >> 12) | 0xe0) as Byte == Octet1110(High(u as bv32, 2))
    ensures (((u >> 6) & 0x3f) | 0x80) as Byte == Octet10(Six(u as bv32, 1))
    ensures ((u & 0x3f) | 0x80) as Byte == Octet10(Six(u as bv32, 0))
  {
  }

  /** The two deviations: zero takes two bytes, and a surrogate is encoded on its own in the three bytes of
      its number. */
  lemma EncodesOthers(u: Unit)
    requires !Scalar(u as bv32)
    ensures u == 0 ==> EncodeUnit(u) == [0xc0, 0x80]
    ensures u != 0 ==>
              && 0xd800 <= u <= 0xdfff
              && EncodeUnit(u) ==
                 [0xe0 + (u / 0x1000) as Byte, 0x80 + (u / 0x40 % 0x40) as Byte, 0x80 + (u % 0x40) as Byte]
  {
  }
}
