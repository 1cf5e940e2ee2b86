/** Encoding UTF-16 units into Java's modified UTF-8: length with overflow detection, the encoder,
    and what `Utf8to16` makes of its output. */
module Utf16to8 {
  import opened Utf8to16

  // ---------- the encoding ----------

  /** A zero unit takes two bytes, so the encoding has no inner NUL; surrogates are encoded one by
      one, in three bytes each. */
  function EncodeUnit(u: Unit): (r: seq<Byte>)
    ensures 1 <= |r| <= 3
  {
    if u > 0x07ff then
      [((u >> 12) | 0xe0) as Byte, (((u >> 6) & 0x3f) | 0x80) as Byte, ((u & 0x3f) | 0x80) as Byte]
    else if u > 0x7f || u == 0 then
      [((u >> 6) | 0xc0) as Byte, ((u & 0x3f) | 0x80) as Byte]
    else [u as Byte]
  }

  function Encode(units: seq<Unit>): seq<Byte> {
    if units == [] then [] else EncodeUnit(units[0]) + Encode(units[1..])
  }

  function Min(a: nat, b: nat): nat {
    if a < b then a else b
  }

  // ---------- round trip ----------

  lemma NoZeroByte(u: Unit)
    ensures forall i :: 0 <= i < |EncodeUnit(u)| ==> EncodeUnit(u)[i] != 0
  {
  }

  /** The encoded bytes contain no NUL, so they are a C string of exactly that length. */
  lemma {:induction false} EncodeHasNoNul(units: seq<Unit>)
    ensures forall i :: 0 <= i < |Encode(units)| ==> Encode(units)[i] != 0
  {
    if units != [] {
      NoZeroByte(units[0]);
      EncodeHasNoNul(units[1..]);
    }
  }

  lemma ThreeByteBits(u: Unit)
    requires u > 0x07ff
    ensures var b := EncodeUnit(u);
            |b| == 3 && !Extension(b[0]) && SeqLength(b[0]) == 3 && Extension(b[1]) && Extension(b[2]) &&
            ShiftAndMask(ShiftAndMask(LeadBits(b[0]), b[1]), b[2]) == u as bv32
  {
    hide SeqLength;
    SeqLengthTable(((u >> 12) | 0xe0) as Byte);
  }

  lemma TwoByteBits(u: Unit)
    requires u <= 0x07ff && (u > 0x7f || u == 0)
    ensures var b := EncodeUnit(u);
            |b| == 2 && !Extension(b[0]) && SeqLength(b[0]) == 2 && Extension(b[1]) &&
            ShiftAndMask(LeadBits(b[0]), b[1]) == u as bv32
  {
    hide SeqLength;
    SeqLengthTable(((u >> 6) | 0xc0) as Byte);
  }

  lemma OneByteBits(u: Unit)
    requires 0 < u <= 0x7f
    ensures var b := EncodeUnit(u);
            |b| == 1 && !Extension(b[0]) && SeqLength(b[0]) == 1 && LeadBits(b[0]) == u as bv32
  {
  }

  /** One encoded unit, followed by anything, is read back as that unit. */
  lemma UnitReadsBack(u: Unit, rest: seq<Byte>)
    ensures NextUtf32(EncodeUnit(u) + rest) == (u as bv32, |EncodeUnit(u)|)
    ensures SeqLength(EncodeUnit(u)[0]) < 4
  {
    hide EncodeUnit, LeadBits, ShiftAndMask, SeqLength, Extension, NextUtf32, Follow;
    var b := EncodeUnit(u);
    if u > 0x07ff {
      ThreeByteBits(u);
      NextOfWhole(b[0], [b[1], b[2]], rest);
      FoldTwo(b[1], b[2], LeadBits(b[0]));
      assert [b[0]] + [b[1], b[2]] == b;
    } else if u > 0x7f || u == 0 {
      TwoByteBits(u);
      NextOfWhole(b[0], [b[1]], rest);
      FoldOne(b[1], LeadBits(b[0]));
      assert [b[0]] + [b[1]] == b;
    } else {
      OneByteBits(u);
      NextOfWhole(b[0], [], rest);
      assert [b[0]] + [] == b;
    }
  }

  /** Decoding an encoding gives back the units, every one of the 65536 values included. */
  lemma {:induction false} DecodeEncode(units: seq<Unit>)
    ensures Decode(Encode(units)) == units
    ensures SingleUnitLeads(Encode(units)) == 0
  {
    hide EncodeUnit, Decode, SingleUnitLeads;
    if units == [] {
      NothingLeft();
    } else {
      DecodeEncode(units[1..]);
      DecodeUnitFirst(units[0], Encode(units[1..]));
    }
  }

  lemma DecodeUnitFirst(u: Unit, rest: seq<Byte>)
    ensures Decode(EncodeUnit(u) + rest) == [u] + Decode(rest)
    ensures SingleUnitLeads(EncodeUnit(u) + rest) == SingleUnitLeads(rest)
  {
    hide *;
    var bytes := EncodeUnit(u) + rest;
    UnitReadsBack(u, rest);
    UnitStaysUnit(u);
    DecodeStep(bytes);
    assert bytes[|EncodeUnit(u)|..] == rest;
    assert bytes[0] == EncodeUnit(u)[0];
  }

  lemma UnitStaysUnit(u: Unit)
    ensures Units(u as bv32) == [u]
  {
    UnitsOf(u as bv32);
  }

  /** The round trip, and the length counter agrees with it. */
  lemma RoundTrip(units: seq<Unit>)
    ensures Decode(Encode(units)) == units
    ensures Length(Encode(units), 0) == |units|
  {
    DecodeEncode(units);
    LengthCovers(Encode(units), 0);
  }

  // ---------- the methods ----------

  /** `size_t` addition of a small `k`. */
  function AddSize(a: nat, k: nat, sizeMax: nat): (r: nat)
    requires a <= sizeMax && k <= sizeMax
    ensures r <= sizeMax
  {
    if a + k > sizeMax then a + k - (sizeMax + 1) else a + k
  }

  function UnitLength(u: Unit): nat {
    if u > 0x07ff then 3 else if u > 0x7f || u == 0 then 2 else 1
  }

  lemma UnitLengthIsEncoded(u: Unit)
    ensures |EncodeUnit(u)| == UnitLength(u)
  {
  }

  lemma EncodeUnitIs(u: Unit)
    ensures u > 0x07ff ==>
              EncodeUnit(u) == [((u >> 12) | 0xe0) as Byte, (((u >> 6) & 0x3f) | 0x80) as Byte,
                                ((u & 0x3f) | 0x80) as Byte]
    ensures u <= 0x07ff && (u > 0x7f || u == 0) ==>
              EncodeUnit(u) == [((u >> 6) | 0xc0) as Byte, ((u & 0x3f) | 0x80) as Byte]
    ensures 0 < u <= 0x7f ==> EncodeUnit(u) == [u as Byte]
  {
  }

  lemma EncodeStep(units: seq<Unit>)
    requires units != []
    ensures Encode(units) == EncodeUnit(units[0]) + Encode(units[1..])
  {
  }

  lemma {:induction false} EncodeAtMostThrice(units: seq<Unit>)
    ensures |Encode(units)| <= 3 * |units|
  {
    if units != [] { EncodeAtMostThrice(units[1..]); }
  }

  /** The encoded length, capped at SIZE_MAX - 1, for every `len`: the fast path cannot overflow and
      the slow one detects it. */
  method StrNLen16to8(utf16Str: array<Unit>, len: nat, sizeMax: nat) returns (utf8Len: nat)
    requires len <= utf16Str.Length && len <= sizeMax && 0xffff <= sizeMax
    ensures utf8Len == Min(|Encode(utf16Str[..len])|, sizeMax - 1)
  {
    hide Encode, EncodeUnit;
    ghost var units, total := utf16Str[..len], |Encode(utf16Str[..len])|;
    EncodeAtMostThrice(units);
    assert units[0..] == units;
    NothingToEncode();
    utf8Len := 0;
    var i := 0;
    if len < (sizeMax - 1) / 3 {
      while i < len
        invariant 0 <= i <= len
        invariant utf8Len + |Encode(units[i..])| == total
      {
        EncodeStep(units[i..]);
        UnitLengthIsEncoded(units[i]);
        var uic := utf16Str[i];
        i := i + 1;
        if uic > 0x07ff {
          utf8Len := AddSize(utf8Len, 3, sizeMax);
        } else if uic > 0x7f || uic == 0 {
          utf8Len := AddSize(utf8Len, 2, sizeMax);
        } else {
          utf8Len := AddSize(utf8Len, 1, sizeMax);
        }
      }
      assert units[i..] == [];
      return;
    }
    while i < len
      invariant 0 <= i <= len && utf8Len <= sizeMax
      invariant utf8Len + |Encode(units[i..])| == total
    {
      EncodeStep(units[i..]);
      UnitLengthIsEncoded(units[i]);
      var uic := utf16Str[i];
      i := i + 1;
      var utf8Cur := utf8Len;
      if uic > 0x07ff {
        utf8Len := AddSize(utf8Len, 3, sizeMax);
      } else if uic > 0x7f || uic == 0 {
        utf8Len := AddSize(utf8Len, 2, sizeMax);
      } else {
        utf8Len := AddSize(utf8Len, 1, sizeMax);
      }
      if utf8Len < utf8Cur {
        return sizeMax - 1;
      }
    }
    assert units[i..] == [];
    if utf8Len == sizeMax {
      utf8Len := sizeMax - 1;
    }
  }

  lemma NothingToEncode()
    ensures Encode([]) == []
  {
  }

  /** Writes the encoding and a terminating NUL, and nothing else. */
  method StrNCpy16to8(utf8Str: array<Byte>, utf16Str: array<Unit>, len: nat)
    requires len <= utf16Str.Length
    requires utf8Str.Length > |Encode(utf16Str[..len])|
    modifies utf8Str
    ensures var end := |Encode(utf16Str[..len])|;
            utf8Str[..end] == Encode(utf16Str[..len]) && utf8Str[end] == 0 &&
            utf8Str[end + 1..] == old(utf8Str[end + 1..])
  {
    hide Encode, EncodeUnit;
    ghost var units, before := utf16Str[..len], utf8Str[..];
    assert units[0..] == units;
    var cur, i := 0, 0;
    while i < len
      invariant 0 <= i <= len && cur + |Encode(units[i..])| == |Encode(units)|
      invariant utf8Str[..cur] + Encode(units[i..]) == Encode(units)
      invariant forall k :: cur <= k < utf8Str.Length ==> utf8Str[k] == before[k]
    {
      ghost var written := utf8Str[..cur];
      EncodeStep(units[i..]);
      var uic := utf16Str[i];
      EncodeUnitIs(uic);
      i := i + 1;
      if uic > 0x07ff {
        utf8Str[cur] := ((uic >> 12) | 0xe0) as Byte;
        utf8Str[cur + 1] := (((uic >> 6) & 0x3f) | 0x80) as Byte;
        utf8Str[cur + 2] := ((uic & 0x3f) | 0x80) as Byte;
        cur := cur + 3;
      } else if uic > 0x7f || uic == 0 {
        utf8Str[cur] := ((uic >> 6) | 0xc0) as Byte;
        utf8Str[cur + 1] := ((uic & 0x3f) | 0x80) as Byte;
        cur := cur + 2;
      } else {
        utf8Str[cur] := uic as Byte;
        cur := cur + 1;
      }
      assert utf8Str[..cur] == written + EncodeUnit(uic);
    }
    NothingToEncode();
    assert units[i..] == [];
    assert utf8Str[..cur] == Encode(units);
    utf8Str[cur] := 0;
  }

  /** NULL for a NULL input, an encoding of SIZE_MAX - 1 bytes or more, or a failed allocation;
      otherwise a buffer exactly filled by the encoding and its NUL. */
  method StrNDup16to8(s: array?<Unit>, n: nat, sizeMax: nat, allocates: bool) returns (ret: array?<Byte>)
    requires s != null ==> n <= s.Length && n <= sizeMax
    requires 0xffff <= sizeMax
    ensures ret == null <==> s == null || |Encode(s[..n])| >= sizeMax - 1 || !allocates
    ensures ret != null ==> fresh(ret) && ret[..] == Encode(s[..n]) + [0] && CString(ret, |Encode(s[..n])|)
  {
    if s == null {
      return null;
    }
    var len := StrNLen16to8(s, n, sizeMax);
    if len >= sizeMax - 1 {
      return null;
    }
    if !allocates {
      return null;
    }
    ret := new Byte[len + 1];
    StrNCpy16to8(ret, s, n);
    EncodeHasNoNul(s[..n]);
    assert ret[..] == ret[..len] + [0];
  }
}
