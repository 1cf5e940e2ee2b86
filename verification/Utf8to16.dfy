/** Decoding Java's modified UTF-8 into UTF-16: a length counter that looks at one byte at a time,
    and a decoder that looks at one sequence at a time.  Strings are NUL-terminated byte arrays;
    the functions speak of the bytes before the terminator. */
module Utf8to16 {

  type Byte = bv8
  type Unit = bv16

  const UTF16_REPLACEMENT_CHAR: bv32 := 0xfffd
  const UNICODE_UPPER_LIMIT: bv32 := 0x10fffd

  /** `s` holds a C string of length `n` and nothing more: any read past the terminator would be
      out of bounds. */
  ghost predicate CString(s: array<Byte>, n: nat)
    reads s
  {
    s.Length == n + 1 && s[n] == 0 && forall i :: 0 <= i < n ==> s[i] != 0
  }

  lemma CStringBytes(s: array<Byte>, n: nat)
    requires CString(s, n)
    ensures s.Length == n + 1 && s[n] == 0
    ensures forall i :: 0 <= i <= n ==> (s[i] == 0 <==> i == n)
  {
  }

  // ---------- single bytes ----------

  predicate Extension(b: Byte) {
    b & 0xc0 == 0x80
  }

  /** UTF8_SEQ_LENGTH: a 2-bit table indexed by the byte's high four bits, plus one. */
  function SeqLength(b: Byte): (r: nat)
    ensures 1 <= r <= 4
  {
    var entry := (0xe500_0000 as bv32 >> (((b >> 3) & 0x1e) as bv32 as nat)) & 3;
    if entry == 0 then 1 else if entry == 1 then 2 else if entry == 2 then 3 else 4
  }

  lemma SeqLengthTable(b: Byte)
    ensures SeqLength(b) == if b < 0xc0 then 1 else if b < 0xe0 then 2 else if b < 0xf0 then 3 else 4
  {
  }

  lemma ExtensionLength(b: Byte)
    requires Extension(b)
    ensures SeqLength(b) == 1
  {
  }

  /** What the lead byte contributes to the code point. */
  function LeadBits(b: Byte): bv32 {
    var n := SeqLength(b);
    (b & (if n == 1 then 0xff else if n == 2 then 0x1f else if n == 3 then 0x0f else 0x07)) as bv32
  }

  function ShiftAndMask(ret: bv32, b: Byte): bv32 {
    (ret << 6) | (b & 0x3f) as bv32
  }

  // ---------- the length counter ----------

  /** UTF-16 units counted for `bytes` when `expected` extension bytes are still due. */
  function Length(bytes: seq<Byte>, expected: int): nat {
    if bytes == [] then 0
    else if Extension(bytes[0]) then
      (if expected - 1 < 0 then 1 else 0) + Length(bytes[1..], expected - 1)
    else
      (if SeqLength(bytes[0]) == 4 then 2 else 1) + Length(bytes[1..], SeqLength(bytes[0]) - 1)
  }

  method StrLen8to16(s: array<Byte>, ghost n: nat) returns (len: nat)
    requires CString(s, n)
    ensures len == Length(s[..n], 0)
  {
    len := 0;
    var expected := 0;
    var i := 0;
    while s[i] != 0
      invariant 0 <= i <= n
      invariant len + Length(s[i..n], expected) == Length(s[..n], 0)
      decreases n - i
    {
      var ic := s[i];
      assert s[i..n] == [ic] + s[i + 1..n];
      i := i + 1;
      if Extension(ic) {
        expected := expected - 1;
        if expected < 0 {
          len := len + 1;
        }
      } else {
        len := len + 1;
        expected := SeqLength(ic) - 1;
        if expected == 3 {
          len := len + 1;
        }
      }
    }
  }

  // ---------- the decoder ----------

  /** Reading up to `due` extension bytes: the code point, and how many bytes were read. */
  function Follow(bytes: seq<Byte>, ret: bv32, due: nat): (r: (bv32, nat))
    ensures r.1 <= due && r.1 <= |bytes|
    decreases due
  {
    if due == 0 then (ret, 0)
    else if bytes == [] || !Extension(bytes[0]) then (UTF16_REPLACEMENT_CHAR, 0)
    else
      var rest := Follow(bytes[1..], ShiftAndMask(ret, bytes[0]), due - 1);
      (rest.0, rest.1 + 1)
  }

  /** The next code point of a non-empty string, and the length of the sequence it was read from. */
  function NextUtf32(bytes: seq<Byte>): (r: (bv32, nat))
    requires bytes != []
    ensures 1 <= r.1 <= |bytes|
  {
    if Extension(bytes[0]) then (UTF16_REPLACEMENT_CHAR, 1)
    else
      var rest := Follow(bytes[1..], LeadBits(bytes[0]), SeqLength(bytes[0]) - 1);
      (rest.0, rest.1 + 1)
  }

  function Units(cp: bv32): (r: seq<Unit>)
    ensures 1 <= |r| <= 2
  {
    if cp <= 0xffff then [cp as Unit]
    else if cp <= UNICODE_UPPER_LIMIT then
      [(0xd800 | ((cp - 0x10000) >> 10)) as Unit, (0xdc00 | ((cp - 0x10000) & 0x3ff)) as Unit]
    else [UTF16_REPLACEMENT_CHAR as Unit]
  }

  function Decode(bytes: seq<Byte>): seq<Unit>
    decreases |bytes|
  {
    if bytes == [] then [] else
      var next := NextUtf32(bytes);
      Units(next.0) + Decode(bytes[next.1..])
  }

  /** A 4-byte lead whose sequence is cut short, overlong (it would fit in 16 bits) or above the limit. */
  predicate BadFourByteLead(bytes: seq<Byte>)
    requires bytes != []
  {
    SeqLength(bytes[0]) == 4 &&
    if |bytes| >= 4 && Extension(bytes[1]) && Extension(bytes[2]) && Extension(bytes[3]) then
      var cp := Fold(bytes[1..4], LeadBits(bytes[0]));
      cp <= 0xffff || cp > UNICODE_UPPER_LIMIT
    else true
  }

  /** How many of the leads at which sequences of the string start are such 4-byte leads. */
  function SingleUnitLeads(bytes: seq<Byte>): nat
    decreases |bytes|
  {
    if bytes == [] then 0 else
      var next := NextUtf32(bytes);
      (if BadFourByteLead(bytes) then 1 else 0) +
      SingleUnitLeads(bytes[next.1..])
  }

  lemma TerminatorBits()
    ensures !Extension(0) && LeadBits(0) == 0
  {
  }

  /** Reads one code point and advances past its sequence, but never past the terminator. */
  method GetUtf32FromUtf8(s: array<Byte>, ghost n: nat, p: nat) returns (ret: bv32, next: nat)
    requires CString(s, n) && p <= n
    ensures p < n ==> (ret, next - p) == NextUtf32(s[p..n])
    ensures p == n ==> ret == 0 && next == p
    ensures p <= next <= n
  {
    hide LeadBits, ShiftAndMask, SeqLength, Extension, CString, Follow;
    CStringBytes(s, n);
    TerminatorBits();
    if Extension(s[p]) {
      return UTF16_REPLACEMENT_CHAR, p + 1;
    }
    var seqLen := SeqLength(s[p]);
    ret := LeadBits(s[p]);
    next := p;
    if s[p] == 0 {
      return;
    }
    ghost var all := s[p..n];
    assert all[1..] == s[p + 1..n];
    next := p + 1;
    ghost var first := ret;
    var i := 1;
    while i < seqLen
      invariant 1 <= i <= seqLen && next == p + i <= n
      invariant Follow(all[1..], first, seqLen - 1) ==
                (var rest := Follow(s[next..n], ret, seqLen - i); (rest.0, rest.1 + (i - 1)))
    {
      FollowStep(s[next..n], ret, seqLen - i);
      if s[next] == 0 {
        return UTF16_REPLACEMENT_CHAR, next;
      }
      if !Extension(s[next]) {
        return UTF16_REPLACEMENT_CHAR, next;
      }
      assert s[next..n] == [s[next]] + s[next + 1..n];
      ret := ShiftAndMask(ret, s[next]);
      i, next := i + 1, next + 1;
    }
    FollowNoMore(s[next..n], ret);
  }

  lemma FollowStep(bytes: seq<Byte>, ret: bv32, due: nat)
    requires due > 0
    ensures Follow(bytes, ret, due) ==
            if bytes == [] || !Extension(bytes[0]) then (UTF16_REPLACEMENT_CHAR, 0)
            else
              var rest := Follow(bytes[1..], ShiftAndMask(ret, bytes[0]), due - 1);
              (rest.0, rest.1 + 1)
  {
  }

  lemma FollowNoMore(bytes: seq<Byte>, ret: bv32)
    ensures Follow(bytes, ret, 0) == (ret, 0)
  {
  }

  /** The code point built from extension bytes alone. */
  function Fold(extensions: seq<Byte>, ret: bv32): bv32 {
    if extensions == [] then ret else Fold(extensions[1..], ShiftAndMask(ret, extensions[0]))
  }

  lemma {:induction false} FollowWhole(extensions: seq<Byte>, rest: seq<Byte>, ret: bv32)
    requires forall i :: 0 <= i < |extensions| ==> Extension(extensions[i])
    ensures Follow(extensions + rest, ret, |extensions|) == (Fold(extensions, ret), |extensions|)
  {
    hide Extension, ShiftAndMask;
    if extensions != [] {
      FollowWhole(extensions[1..], rest, ShiftAndMask(ret, extensions[0]));
      assert (extensions + rest)[1..] == extensions[1..] + rest;
    }
  }

  /** A lead followed by all its extension bytes is read as one whole sequence. */
  lemma NextOfWhole(lead: Byte, extensions: seq<Byte>, rest: seq<Byte>)
    requires !Extension(lead) && SeqLength(lead) == 1 + |extensions|
    requires forall i :: 0 <= i < |extensions| ==> Extension(extensions[i])
    ensures NextUtf32([lead] + extensions + rest) == (Fold(extensions, LeadBits(lead)), 1 + |extensions|)
  {
    hide Extension, ShiftAndMask, LeadBits, SeqLength, Follow;
    FollowWhole(extensions, rest, LeadBits(lead));
    assert ([lead] + extensions + rest)[1..] == extensions + rest;
  }

  lemma FoldOne(a: Byte, ret: bv32)
    ensures Fold([a], ret) == ShiftAndMask(ret, a)
  {
  }

  lemma FoldTwo(a: Byte, b: Byte, ret: bv32)
    ensures Fold([a, b], ret) == ShiftAndMask(ShiftAndMask(ret, a), b)
  {
    hide ShiftAndMask;
    assert [a, b][1..] == [b];
    FoldOne(b, ShiftAndMask(ret, a));
  }

  lemma FoldThree(a: Byte, b: Byte, c: Byte, ret: bv32)
    ensures Fold([a, b, c], ret) == ShiftAndMask(ShiftAndMask(ShiftAndMask(ret, a), b), c)
  {
    hide ShiftAndMask;
    assert [a, b, c][1..] == [b, c];
    FoldTwo(b, c, ShiftAndMask(ret, a));
  }

  /** The difference between what is counted and what is decoded is exactly the 4-byte leads that
      yield one unit; `expected` is whatever the counter holds between two sequences. */
  lemma {:induction false} LengthCovers(bytes: seq<Byte>, expected: int)
    requires expected <= 0 || bytes == [] || !Extension(bytes[0])
    ensures Length(bytes, expected) == |Decode(bytes)| + SingleUnitLeads(bytes)
    decreases |bytes|
  {
    hide LeadBits, ShiftAndMask, SeqLength, Extension, Follow, Decode, SingleUnitLeads, Units;
    if bytes == [] {
      NothingLeft();
    } else {
      var next := NextUtf32(bytes);
      DecodeStep(bytes);
      UnitsOf(UTF16_REPLACEMENT_CHAR);
      if Extension(bytes[0]) {
        ExtensionLength(bytes[0]);
        LengthCovers(bytes[1..], expected - 1);
      } else {
        var due := SeqLength(bytes[0]) - 1;
        FollowIsExpected(bytes[1..], LeadBits(bytes[0]), due);
        assert bytes[1..][next.1 - 1..] == bytes[next.1..];
        if due < 3 { SingleBelowFour(bytes); }
        LengthCovers(bytes[next.1..], due - (next.1 - 1));
      }
    }
  }

  lemma {:induction false} FollowIsExpected(bytes: seq<Byte>, ret: bv32, due: nat)
    ensures var read := Follow(bytes, ret, due).1;
            Length(bytes, due) == Length(bytes[read..], due - read) &&
            (due == read || bytes[read..] == [] || !Extension(bytes[read]))
    decreases due
  {
    if due > 0 && bytes != [] && Extension(bytes[0]) {
      var read := Follow(bytes[1..], ShiftAndMask(ret, bytes[0]), due - 1).1;
      FollowIsExpected(bytes[1..], ShiftAndMask(ret, bytes[0]), due - 1);
      assert bytes[1..][read..] == bytes[read + 1..];
    }
  }

  /** Sequences of one to three bytes stay within 16 bits. */
  lemma SingleBelowFour(bytes: seq<Byte>)
    requires bytes != [] && SeqLength(bytes[0]) < 4
    ensures |Units(NextUtf32(bytes).0)| == 1
  {
  }

  /** Of the 4-byte leads exactly the bad ones decode to a single unit. */
  lemma BadFourByteLeadIff(bytes: seq<Byte>)
    requires bytes != [] && SeqLength(bytes[0]) == 4
    ensures |Units(NextUtf32(bytes).0)| == 1 <==> BadFourByteLead(bytes)
  {
    hide LeadBits, ShiftAndMask, SeqLength, Extension, Units, Fold, Follow;
    LeadIsNoExtension(bytes[0]);
    UnitsSize(NextUtf32(bytes).0);
    if |bytes| >= 4 && Extension(bytes[1]) && Extension(bytes[2]) && Extension(bytes[3]) {
      FollowWhole(bytes[1..4], bytes[4..], LeadBits(bytes[0]));
      assert bytes[1..4] + bytes[4..] == bytes[1..];
    } else {
      FollowCutShort(bytes[1..], LeadBits(bytes[0]));
    }
  }

  lemma UnitsSize(cp: bv32)
    ensures |Units(cp)| == 1 <==> cp <= 0xffff || cp > UNICODE_UPPER_LIMIT
  {
  }

  lemma LeadIsNoExtension(b: Byte)
    requires SeqLength(b) == 4
    ensures !Extension(b)
  {
    SeqLengthTable(b);
  }

  lemma FollowCutShort(bytes: seq<Byte>, ret: bv32)
    requires !(|bytes| >= 3 && Extension(bytes[0]) && Extension(bytes[1]) && Extension(bytes[2]))
    ensures Follow(bytes, ret, 3).0 == UTF16_REPLACEMENT_CHAR
  {
    hide ShiftAndMask, Extension;
  }

  lemma DecodeStep(bytes: seq<Byte>)
    requires bytes != []
    ensures var next := NextUtf32(bytes);
            Decode(bytes) == Units(next.0) + Decode(bytes[next.1..]) &&
            SingleUnitLeads(bytes) == (if SeqLength(bytes[0]) == 4 && |Units(next.0)| == 1 then 1 else 0) +
                                      SingleUnitLeads(bytes[next.1..])
  {
    hide NextUtf32, Units, SeqLength, BadFourByteLead;
    if SeqLength(bytes[0]) == 4 {
      BadFourByteLeadIff(bytes);
    } else {
      OthersAreGood(bytes);
    }
  }

  lemma OthersAreGood(bytes: seq<Byte>)
    requires bytes != [] && SeqLength(bytes[0]) != 4
    ensures !BadFourByteLead(bytes)
  {
  }

  /** Writes one code point at `dest` and returns the place after it. */
  method PutUnits(utf16Str: array<Unit>, dest: nat, ret: bv32) returns (next: nat)
    requires dest + |Units(ret)| <= utf16Str.Length
    modifies utf16Str
    ensures next == dest + |Units(ret)| && utf16Str[dest..next] == Units(ret)
    ensures utf16Str[..dest] == old(utf16Str[..dest])
    ensures forall k :: next <= k < utf16Str.Length ==> utf16Str[k] == old(utf16Str[k])
  {
    hide Units;
    UnitsOf(ret);
    if ret <= 0xffff {
      utf16Str[dest] := ret as Unit;
      next := dest + 1;
    } else if ret <= UNICODE_UPPER_LIMIT {
      utf16Str[dest] := (0xd800 | ((ret - 0x10000) >> 10)) as Unit;
      utf16Str[dest + 1] := (0xdc00 | ((ret - 0x10000) & 0x3ff)) as Unit;
      next := dest + 2;
    } else {
      utf16Str[dest] := UTF16_REPLACEMENT_CHAR as Unit;
      next := dest + 1;
    }
  }

  /** Writes the decoded string; a destination of the counted length always suffices. */
  method StrCpy8to16(utf16Str: array<Unit>, utf8Str: array<Byte>, ghost n: nat) returns (outLen: nat)
    requires CString(utf8Str, n)
    requires utf16Str.Length >= Length(utf8Str[..n], 0)
    modifies utf16Str
    ensures outLen <= utf16Str.Length && utf16Str[..outLen] == Decode(utf8Str[..n])
    ensures utf16Str[outLen..] == old(utf16Str[outLen..])
  {
    hide Decode, Length, NextUtf32, SingleUnitLeads, Units, CString;
    CStringBytes(utf8Str, n);
    ghost var all, before := utf8Str[..n], utf16Str[..];
    LengthCovers(all, 0);
    var dest, p := 0, 0;
    assert all[0..] == all;
    while utf8Str[p] != 0
      invariant 0 <= p <= n && 0 <= dest <= utf16Str.Length
      invariant utf16Str[..dest] + Decode(all[p..]) == Decode(all)
      invariant forall k :: dest <= k < utf16Str.Length ==> utf16Str[k] == before[k]
      decreases n - p
    {
      ghost var written := utf16Str[..dest];
      assert utf8Str[p..n] == all[p..];
      DecodeStep(all[p..]);
      var ret;
      ret, p := GetUtf32FromUtf8(utf8Str, n, p);
      assert |Decode(all)| == dest + |Units(ret)| + |Decode(all[p..])|;
      dest := PutUnits(utf16Str, dest, ret);
      assert utf16Str[..dest] == written + Units(ret);
    }
    NothingLeft();
    return dest;
  }

  lemma NothingLeft()
    ensures Decode([]) == [] && SingleUnitLeads([]) == 0
  {
  }

  lemma UnitsOf(cp: bv32)
    ensures cp <= 0xffff ==> Units(cp) == [cp as Unit]
    ensures 0xffff < cp <= UNICODE_UPPER_LIMIT ==>
              Units(cp) == [(0xd800 | ((cp - 0x10000) >> 10)) as Unit,
                            (0xdc00 | ((cp - 0x10000) & 0x3ff)) as Unit]
    ensures UNICODE_UPPER_LIMIT < cp ==> Units(cp) == [UTF16_REPLACEMENT_CHAR as Unit]
  {
  }

  /** Allocates the counted length, unless its size in bytes overflows `size_t`, and decodes. */
  method StrDup8to16(s: array?<Byte>, ghost n: nat, sizeMax: nat) returns (ret: array?<Unit>, outLen: nat)
    requires s != null ==> CString(s, n)
    ensures ret == null <==> s == null || 2 * Length(s[..n], 0) > sizeMax
    ensures ret != null ==> fresh(ret) && ret.Length == Length(s[..n], 0)
    ensures ret != null ==> outLen <= ret.Length && ret[..outLen] == Decode(s[..n])
  {
    hide Length, Decode;
    if s == null {
      return null, 0;
    }
    var len := StrLen8to16(s, n);
    if len != 0 && sizeMax / len < 2 {
      return null, 0;
    }
    ret := new Unit[len];
    outLen := StrCpy8to16(ret, s, n);
  }
}
