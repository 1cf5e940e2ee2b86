/** The Boyer-Moore substring search that the recovery updater runs over the modem
    partition: two skip tables and the skip loop.  The tables and the loop are methods over
    arrays, proved against the functions `Delta1`, `Delta2` and `Search`; what the search
    finds, and for exactly which patterns, is proved about `Search`. */
module BoyerMoore {
  import opened Options

  type byte = b: int | 0 <= b < 256

  const ALPHABET_LEN := 256
  const INT_MAX := 0x7FFF_FFFF

  /** The pattern searched for: `Time_Stamp": "`. */
  const MODEM_VER_STR: seq<byte> :=
    [0x54, 0x69, 0x6D, 0x65, 0x5F, 0x53, 0x74, 0x61, 0x6D, 0x70, 0x22, 0x3A, 0x20, 0x22]

  // ---------- what a search should return ----------

  ghost predicate OccursAt(text: seq<byte>, pat: seq<byte>, k: int) {
    0 <= k && k + |pat| <= |text| && forall t :: 0 <= t < |pat| ==> text[k + t] == pat[t]
  }

  /** `r` is the leftmost occurrence, or None when there is no occurrence at all. */
  ghost predicate IsFirst(text: seq<byte>, pat: seq<byte>, r: Option<int>) {
    match r
    case None => forall k :: !OccursAt(text, pat, k)
    case Some(s) => OccursAt(text, pat, s) && forall k :: k < s ==> !OccursAt(text, pat, k)
  }

  /** `pat[q..]` is a prefix of `pat`. */
  ghost predicate PrefixAt(pat: seq<byte>, q: int) {
    0 <= q <= |pat| && pat[q..] == pat[..|pat| - q]
  }

  /** Some proper non-empty suffix of the pattern is also a prefix of it. */
  ghost predicate Bordered(pat: seq<byte>) {
    exists q :: 1 <= q < |pat| && PrefixAt(pat, q)
  }

  ghost predicate Constant(pat: seq<byte>) {
    forall i :: 0 <= i < |pat| ==> pat[i] == pat[0]
  }

  /** The pattern is a C string: `strncmp` would stop at an inner NUL. */
  ghost predicate CPattern(pat: seq<byte>) {
    |pat| >= 1 && forall i :: 0 <= i < |pat| ==> pat[i] != 0
  }

  // ---------- the two tables as functions ----------

  /** Rightmost index of `c` in `pat[..n]`, or -1. */
  ghost function LastIndex(pat: seq<byte>, c: byte, n: nat): (r: int)
    requires n <= |pat|
    ensures -1 <= r < n
  {
    if n == 0 then -1 else if pat[n - 1] == c then n - 1 else LastIndex(pat, c, n - 1)
  }

  lemma {:induction false} LastIndexIsLast(pat: seq<byte>, c: byte, n: nat, k: int)
    requires 0 <= k < n <= |pat| && pat[k] == c
    ensures k <= LastIndex(pat, c, n)
  {
    if pat[n - 1] != c { LastIndexIsLast(pat, c, n - 1, k); }
  }

  ghost function Delta1(pat: seq<byte>, c: byte): int
    requires |pat| >= 1
    ensures Delta1(pat, c) <= |pat|
  {
    |pat| - 1 - LastIndex(pat, c, |pat| - 1)
  }

  /** Sliding the pattern right by `d` keeps the matched suffix `pat[j+1..]` matched and puts a
      different character under the mismatched position `j`. */
  ghost predicate Refits(pat: seq<byte>, j: int, d: int) {
    0 <= j < |pat| && 1 <= d <= j && pat[j - d] != pat[j] &&
    pat[j + 1 - d..|pat| - d] == pat[j + 1..]
  }

  /** Least refit in `from..j`, or 0 when there is none. */
  ghost function LeastRefit(pat: seq<byte>, j: nat, from: nat): (d: int)
    requires j < |pat| && 1 <= from
    ensures d == 0 || (from <= d <= j && Refits(pat, j, d))
    decreases j + 1 - from
  {
    if from > j then 0 else if Refits(pat, j, from) then from else LeastRefit(pat, j, from + 1)
  }

  /** The value of `last_prefix` once the first loop has handled index `p`: one past the least
      `q >= p` at which the pattern's own suffix is a prefix, `|pat| - 1` if there is none. */
  ghost function LastPrefix(pat: seq<byte>, p: nat): (r: int)
    requires p <= |pat|
    ensures r <= |pat| && (p < |pat| ==> 1 <= r)
    decreases |pat| - p
  {
    if p == |pat| then |pat| - 1 else if PrefixAt(pat, p) then p + 1 else LastPrefix(pat, p + 1)
  }

  lemma {:induction false} LeastRefitIsLeast(pat: seq<byte>, j: nat, from: nat, e: int)
    requires j < |pat| && 1 <= from <= e && Refits(pat, j, e)
    ensures 0 < LeastRefit(pat, j, from) <= e
    decreases j + 1 - from
  {
    if !Refits(pat, j, from) { LeastRefitIsLeast(pat, j, from + 1, e); }
  }

  lemma {:induction false} LastPrefixIsLeast(pat: seq<byte>, p: nat, q: int)
    requires p <= q < |pat| && PrefixAt(pat, q)
    ensures LastPrefix(pat, p) <= q + 1
    decreases |pat| - p
  {
    if !PrefixAt(pat, p) { LastPrefixIsLeast(pat, p + 1, q); }
  }

  /** The good-suffix move for `j` when only refits by at least `from` have been recorded over
      what the first loop left. */
  ghost function PartialShift(pat: seq<byte>, j: nat, from: nat): (d: int)
    requires j < |pat| && 1 <= from
    ensures 1 <= d <= |pat|
  {
    var d := LeastRefit(pat, j, from);
    if d > 0 then d else LastPrefix(pat, j)
  }

  /** By how much the good-suffix table moves the alignment after a mismatch at `j`. */
  ghost function SuffixShift(pat: seq<byte>, j: nat): int
    requires j < |pat|
  {
    PartialShift(pat, j, 1)
  }

  ghost function Delta2(pat: seq<byte>, j: nat): int
    requires j < |pat|
  {
    SuffixShift(pat, j) + (|pat| - 1 - j)
  }

  // ---------- the search as a function ----------

  /** The rightmost mismatching pattern index at alignment `s` below `n`, or -1. */
  ghost function Mismatch(text: seq<byte>, pat: seq<byte>, s: nat, n: nat): (j: int)
    requires n <= |pat| && s + |pat| <= |text|
    ensures -1 <= j < n
    ensures j >= 0 ==> text[s + j] != pat[j]
  {
    if n == 0 then -1
    else if text[s + (n - 1)] != pat[n - 1] then n - 1
    else Mismatch(text, pat, s, n - 1)
  }

  lemma {:induction false} MismatchIsLast(text: seq<byte>, pat: seq<byte>, s: nat, n: nat)
    requires n <= |pat| && s + |pat| <= |text|
    ensures forall k :: Mismatch(text, pat, s, n) < k < n ==> text[s + k] == pat[k]
  {
    if n > 0 && text[s + (n - 1)] == pat[n - 1] { MismatchIsLast(text, pat, s, n - 1); }
  }

  lemma {:induction false} MismatchAt(text: seq<byte>, pat: seq<byte>, s: nat, n: nat, j: nat)
    requires j < n <= |pat| && s + |pat| <= |text| && text[s + j] != pat[j]
    requires forall k :: j < k < n ==> text[s + k] == pat[k]
    ensures Mismatch(text, pat, s, n) == j
  {
    if j < n - 1 { MismatchAt(text, pat, s, n - 1, j); }
  }

  ghost function Max(a: int, b: int): int { if a > b then a else b }

  /** How far the alignment moves when text byte `c` mismatches at `j`. */
  ghost function Shift(pat: seq<byte>, j: nat, c: byte): (d: int)
    requires j < |pat|
    ensures 1 <= d
  {
    Max(Delta1(pat, c), Delta2(pat, j)) - (|pat| - 1 - j)
  }

  ghost function Search(text: seq<byte>, pat: seq<byte>, s: nat): (r: Option<int>)
    requires |pat| >= 1
    decreases |text| - s
  {
    if s + |pat| > |text| then None
    else
      var j := Mismatch(text, pat, s, |pat|);
      if j < 0 then Some(s) else Search(text, pat, s + Shift(pat, j, text[s + j]))
  }

  /** `k` is the rightmost place of `c` in the pattern short of its last character, -1 if it has none. */
  ghost predicate IsRightmost(pat: seq<byte>, c: byte, k: int) {
    -1 <= k < |pat| - 1 && (k >= 0 ==> pat[k] == c) && forall i :: k < i < |pat| - 1 ==> pat[i] != c
  }

  /** `d` is the move that the good-suffix table makes for `j`: the least refit; if there is none, one past
      the least border from `j` on; if there is none either, one less than the pattern's length. */
  ghost predicate IsSuffixMove(pat: seq<byte>, j: nat, d: int) {
    if exists e :: Refits(pat, j, e) then Refits(pat, j, d) && forall e :: Refits(pat, j, e) ==> d <= e
    else if exists q :: j <= q < |pat| && PrefixAt(pat, q) then
      j <= d - 1 < |pat| && PrefixAt(pat, d - 1) && forall q :: j <= q < |pat| && PrefixAt(pat, q) ==> d - 1 <= q
    else d == |pat| - 1
  }

  lemma Delta1Moves(pat: seq<byte>, c: byte, k: int)
    requires IsRightmost(pat, c, k)
    ensures Delta1(pat, c) == |pat| - 1 - k
  {
    var r := LastIndex(pat, c, |pat| - 1);
    LastIndexHolds(pat, c, |pat| - 1);
    if k >= 0 { LastIndexIsLast(pat, c, |pat| - 1, k); }
  }

  lemma {:induction false} LastIndexHolds(pat: seq<byte>, c: byte, n: nat)
    requires n <= |pat|
    ensures var r := LastIndex(pat, c, n); r >= 0 ==> pat[r] == c
  {
    if n > 0 && pat[n - 1] != c { LastIndexHolds(pat, c, n - 1); }
  }

  lemma SuffixMoves(pat: seq<byte>, j: nat, d: int)
    requires j < |pat| && IsSuffixMove(pat, j, d)
    ensures SuffixShift(pat, j) == d
  {
    if e :| Refits(pat, j, e) {
      LeastRefitIsLeast(pat, j, 1, d);
    } else if q :| j <= q < |pat| && PrefixAt(pat, q) {
      LastPrefixIsLeast(pat, j, d - 1);
      LastPrefixHolds(pat, j, q);
    } else {
      LastPrefixNone(pat, j);
    }
  }

  lemma {:induction false} LastPrefixHolds(pat: seq<byte>, p: nat, q: int)
    requires p <= q < |pat| && PrefixAt(pat, q)
    ensures p <= LastPrefix(pat, p) - 1 < |pat| && PrefixAt(pat, LastPrefix(pat, p) - 1)
    decreases |pat| - p
  {
    if !PrefixAt(pat, p) { LastPrefixHolds(pat, p + 1, q); }
  }

  lemma {:induction false} LastPrefixNone(pat: seq<byte>, p: nat)
    requires p <= |pat| && forall q :: p <= q < |pat| ==> !PrefixAt(pat, q)
    ensures LastPrefix(pat, p) == |pat| - 1
    decreases |pat| - p
  {
    if p < |pat| { LastPrefixNone(pat, p + 1); }
  }

  /** After a mismatch the search goes on by the larger of the two moves: the one that brings the rightmost
      such character of the pattern under the text's, and the good-suffix move. */
  lemma SearchMoves(text: seq<byte>, pat: seq<byte>, s: nat, j: nat, k: int, d: int)
    requires j < |pat| && s + |pat| <= |text| && text[s + j] != pat[j]
    requires forall i :: j < i < |pat| ==> text[s + i] == pat[i]
    requires IsRightmost(pat, text[s + j], k) && IsSuffixMove(pat, j, d)
    ensures var move := if j - k > d then j - k else d;
            1 <= move && Search(text, pat, s) == Search(text, pat, s + move)
  {
    hide IsRightmost, IsSuffixMove, Mismatch, Search, SuffixShift, Delta1;
    MismatchAt(text, pat, s, |pat|, j);
    Delta1Moves(pat, text[s + j], k);
    SuffixMoves(pat, j, d);
    SearchStep(text, pat, s, j, |pat| - 1 - k, d + |pat| - 1 - j);
  }

  // ---------- the methods ----------

  method MaxSuffixLen(str: seq<byte>, p: nat) returns (i: nat)
    requires p < |str|
    ensures i <= p
    ensures str[p + 1 - i..p + 1] == str[|str| - i..]
    ensures i < p ==> str[p - i] != str[|str| - 1 - i]
  {
    i := 0;
    while str[p - i] == str[|str| - 1 - i] && i < p
      invariant i <= p
      invariant str[p + 1 - i..p + 1] == str[|str| - i..]
    {
      assert str[p - i..p + 1] == [str[p - i]] + str[p + 1 - i..p + 1];
      assert str[|str| - 1 - i..] == [str[|str| - 1 - i]] + str[|str| - i..];
      i := i + 1;
    }
  }

  method MakeDelta1(delta1: array<int>, pat: seq<byte>)
    requires |pat| >= 1 && delta1.Length == ALPHABET_LEN
    modifies delta1
    ensures forall c: byte :: delta1[c] == Delta1(pat, c)
  {
    var i := 0;
    while i < ALPHABET_LEN
      invariant 0 <= i <= ALPHABET_LEN
      invariant forall c :: 0 <= c < i ==> delta1[c] == |pat|
    {
      delta1[i] := |pat|;
      i := i + 1;
    }
    i := 0;
    while i < |pat| - 1
      invariant 0 <= i <= |pat| - 1
      invariant forall c: byte :: delta1[c] == |pat| - 1 - LastIndex(pat, c, i)
    {
      delta1[pat[i]] := |pat| - 1 - i;
      i := i + 1;
    }
  }

  /** `strncmp(a, b, n) == 0`, which stops at a NUL. */
  predicate StrNEqual(a: seq<byte>, b: seq<byte>, n: nat)
    requires n <= |a| && n <= |b|
    decreases n
  {
    n == 0 || (a[0] == b[0] && (a[0] == 0 || StrNEqual(a[1..], b[1..], n - 1)))
  }

  lemma {:induction false} StrNEqualIsEquality(a: seq<byte>, b: seq<byte>, n: nat)
    requires n <= |a| && n <= |b|
    requires forall t :: 0 <= t < n ==> a[t] != 0
    ensures StrNEqual(a, b, n) <==> forall t :: 0 <= t < n ==> a[t] == b[t]
    decreases n
  {
    if n > 0 {
      StrNEqualIsEquality(a[1..], b[1..], n - 1);
      if StrNEqual(a, b, n) {
        forall t | 0 <= t < n ensures a[t] == b[t] {
          if t > 0 { assert a[1..][t - 1] == b[1..][t - 1]; }
        }
      }
    }
  }

  lemma PrefixTest(pat: seq<byte>, p: nat)
    requires CPattern(pat) && p < |pat|
    ensures StrNEqual(pat[p..], pat, |pat| - p) <==> PrefixAt(pat, p)
  {
    hide StrNEqual;
    var suffix, n := pat[p..], |pat| - p;
    forall t | 0 <= t < n ensures suffix[t] != 0 { assert suffix[t] == pat[p + t]; }
    StrNEqualIsEquality(suffix, pat, n);
    PointwiseEqual(suffix, pat, n);
  }

  lemma PointwiseEqual(a: seq<byte>, b: seq<byte>, n: nat)
    requires |a| == n <= |b|
    ensures (forall t :: 0 <= t < n ==> a[t] == b[t]) <==> a == b[..n]
  {
    if a == b[..n] {
      forall t | 0 <= t < n ensures a[t] == b[t] { assert b[..n][t] == b[t]; }
    }
  }

  /** The suffix length measured at `p` tells which entry, if any, refits by `|pat| - 1 - p`. */
  lemma RefitStep(pat: seq<byte>, p: nat, suf: nat, j: nat)
    requires suf <= p < |pat| - 1 && j < |pat|
    requires pat[p + 1 - suf..p + 1] == pat[|pat| - suf..]
    requires suf < p ==> pat[p - suf] != pat[|pat| - 1 - suf]
    ensures PartialShift(pat, j, |pat| - (p + 1)) ==
            if j == |pat| - 1 - suf && pat[p - suf] != pat[|pat| - 1 - suf] then |pat| - 1 - p
            else PartialShift(pat, j, |pat| - p)
  {
    hide Refits;
    RefitsAtMeasured(pat, p, suf, j);
  }

  lemma RefitsAtMeasured(pat: seq<byte>, p: nat, suf: nat, j: nat)
    requires suf <= p < |pat| - 1 && j < |pat|
    requires pat[p + 1 - suf..p + 1] == pat[|pat| - suf..]
    requires suf < p ==> pat[p - suf] != pat[|pat| - 1 - suf]
    ensures Refits(pat, j, |pat| - 1 - p) <==> j == |pat| - 1 - suf && pat[p - suf] != pat[|pat| - 1 - suf]
  {
    var m, d := |pat|, |pat| - 1 - p;
    if d <= j && j < m - 1 - suf {
      var k := m - 1 - suf;
      assert pat[j + 1 - d..m - d][k - j - 1] == pat[k - d];
      assert pat[j + 1..][k - j - 1] == pat[k];
    } else if j > m - 1 - suf {
      var k := j - (m - suf);
      assert pat[p + 1 - suf..p + 1][k] == pat[j - d];
      assert pat[m - suf..][k] == pat[j];
    }
  }

  /** The table once refits by at least `from` have been recorded over the first loop's values. */
  ghost predicate Records(pat: seq<byte>, table: seq<int>, from: nat)
    requires 1 <= from
  {
    |table| == |pat| &&
    forall j :: 0 <= j < |table| ==> table[j] == PartialShift(pat, j, from) + (|pat| - 1 - j)
  }

  lemma RecordsAll(pat: seq<byte>, table: seq<int>)
    requires Records(pat, table, 1)
    ensures |table| == |pat| && forall j :: 0 <= j < |table| ==> table[j] == Delta2(pat, j)
  {
  }

  lemma RecordsNoneYet(pat: seq<byte>, table: seq<int>)
    requires |table| == |pat| >= 1
    requires forall j :: 0 <= j < |pat| ==> table[j] == LastPrefix(pat, j) + (|pat| - 1 - j)
    ensures Records(pat, table, |pat|)
  {
  }

  lemma RecordStep(pat: seq<byte>, p: nat, suf: nat, before: seq<int>, after: seq<int>)
    requires suf <= p < |pat| - 1
    requires pat[p + 1 - suf..p + 1] == pat[|pat| - suf..]
    requires suf < p ==> pat[p - suf] != pat[|pat| - 1 - suf]
    requires Records(pat, before, |pat| - p)
    requires |after| == |pat|
    requires forall j :: 0 <= j < |pat| ==>
      after[j] == if j == |pat| - 1 - suf && pat[p - suf] != pat[|pat| - 1 - suf]
                  then |pat| - 1 - p + suf else before[j]
    ensures Records(pat, after, |pat| - (p + 1))
  {
    forall j | 0 <= j < |pat|
      ensures after[j] == PartialShift(pat, j, |pat| - (p + 1)) + (|pat| - 1 - j)
    {
      RefitStep(pat, p, suf, j);
    }
  }

  /** The first loop: the entries as far as borders determine them. */
  method FillPrefixShifts(delta2: array<int>, pat: seq<byte>)
    requires CPattern(pat) && delta2.Length == |pat|
    modifies delta2
    ensures Records(pat, delta2[..], |pat|)
  {
    hide PrefixAt, Records;
    var lastPrefix := |pat| - 1;
    var p := |pat| - 1;
    while p >= 0
      invariant -1 <= p < |pat|
      invariant lastPrefix == LastPrefix(pat, p + 1)
      invariant forall j :: p < j < |pat| ==> delta2[j] == LastPrefix(pat, j) + (|pat| - 1 - j)
    {
      PrefixTest(pat, p);
      if StrNEqual(pat[p..], pat, |pat| - p) {
        lastPrefix := p + 1;
      }
      delta2[p] := lastPrefix + (|pat| - 1 - p);
      p := p - 1;
    }
    RecordsNoneYet(pat, delta2[..]);
  }

  /** The second loop: later, that is smaller, refits overwrite earlier ones. */
  method RecordRefits(delta2: array<int>, pat: seq<byte>)
    requires |pat| >= 1 && delta2.Length == |pat|
    requires Records(pat, delta2[..], |pat|)
    modifies delta2
    ensures Records(pat, delta2[..], 1)
  {
    hide PartialShift, Records;
    var p := 0;
    ghost var from := |pat|;
    while p < |pat| - 1
      invariant 0 <= p < |pat| && from == |pat| - p
      invariant Records(pat, delta2[..], from)
    {
      ghost var before := delta2[..];
      var sufLen := MaxSuffixLen(pat, p);
      if pat[p - sufLen] != pat[|pat| - 1 - sufLen] {
        delta2[|pat| - 1 - sufLen] := |pat| - 1 - p + sufLen;
      }
      RecordStep(pat, p, sufLen, before, delta2[..]);
      p, from := p + 1, from - 1;
    }
  }

  method MakeDelta2(delta2: array<int>, pat: seq<byte>)
    requires CPattern(pat) && delta2.Length == |pat|
    modifies delta2
    ensures forall j :: 0 <= j < |pat| ==> delta2[j] == Delta2(pat, j)
  {
    FillPrefixShifts(delta2, pat);
    RecordRefits(delta2, pat);
    RecordsAll(pat, delta2[..]);
    assert forall j :: 0 <= j < |pat| ==> delta2[..][j] == delta2[j];
  }

  lemma SearchStep(text: seq<byte>, pat: seq<byte>, s: nat, j: nat, d1: int, d2: int)
    requires j < |pat| && s + |pat| <= |text|
    requires Mismatch(text, pat, s, |pat|) == j
    requires d1 == Delta1(pat, text[s + j]) && d2 == Delta2(pat, j)
    ensures var next := s + j + (if d1 > d2 then d1 else d2) - (|pat| - 1);
            s < next <= |text| + |pat| && Search(text, pat, s) == Search(text, pat, next)
  {
    hide LastIndex, PartialShift;
  }

  lemma SearchHit(text: seq<byte>, pat: seq<byte>, s: nat)
    requires |pat| >= 1 && s + |pat| <= |text| && Mismatch(text, pat, s, |pat|) < 0
    ensures Search(text, pat, s) == Some(s)
  {
  }

  lemma SearchEnd(text: seq<byte>, pat: seq<byte>, s: nat)
    requires |pat| >= 1 && s + |pat| > |text|
    ensures Search(text, pat, s) == None
  {
  }

  /** The inner loop of the search: compares from the pattern's end while characters agree. */
  method MatchBackward(str: array<byte>, pat: seq<byte>, end: int) returns (i: int, j: int)
    requires |pat| >= 1 && |pat| - 1 <= end < str.Length
    ensures j == Mismatch(str[..], pat, end - (|pat| - 1), |pat|)
    ensures i == end - (|pat| - 1) + j
  {
    i, j := end, |pat| - 1;
    ghost var s: nat := end - j;
    while j >= 0 && str[i] == pat[j]
      invariant -1 <= j < |pat| && i == s + j
      invariant Mismatch(str[..], pat, s, |pat|) == Mismatch(str[..], pat, s, j + 1)
    {
      i, j := i - 1, j - 1;
    }
  }

  /** Terminates, stays in bounds and within `int`, and computes `Search`.  The sum of the
      lengths is bounded because `i` is an `int` and overruns the text by at most two patterns. */
  method BmSearch(str: array<byte>, pat: seq<byte>) returns (r: Option<int>)
    requires CPattern(pat)
    requires str.Length + 2 * |pat| <= INT_MAX
    ensures r == Search(str[..], pat, 0)
  {
    hide Search, Delta1, Delta2;
    var delta1 := new int[ALPHABET_LEN];
    var delta2 := new int[|pat|];
    MakeDelta1(delta1, pat);
    MakeDelta2(delta2, pat);
    var i := |pat| - 1;
    ghost var text := str[..];
    while i < str.Length
      invariant |pat| - 1 <= i <= INT_MAX
      invariant Search(text, pat, 0) == Search(text, pat, i - (|pat| - 1))
      decreases str.Length - i
      modifies {}
    {
      ghost var s := i - (|pat| - 1);
      assert text == str[..];
      var j;
      i, j := MatchBackward(str, pat, i);
      if j < 0 {
        SearchHit(text, pat, s);
        return Some(i + 1);
      }
      var d1, d2 := delta1[str[i]], delta2[j];
      assert str[i] == text[s + j];
      SearchStep(text, pat, s, j, d1, d2);
      i := i + (if d1 > d2 then d1 else d2);
    }
    SearchEnd(text, pat, i - (|pat| - 1));
    return None;
  }

  // ---------- what the search finds ----------

  /** Whatever the pattern, a reported position is an occurrence. */
  lemma {:induction false} SearchSound(text: seq<byte>, pat: seq<byte>, s: nat)
    requires |pat| >= 1
    ensures var r := Search(text, pat, s); r.Some? ==> r.value >= s && OccursAt(text, pat, r.value)
    decreases |text| - s
  {
    hide Delta1, Delta2;
    if s + |pat| <= |text| {
      MismatchIsLast(text, pat, s, |pat|);
      var j := Mismatch(text, pat, s, |pat|);
      if j >= 0 { SearchSound(text, pat, s + Shift(pat, j, text[s + j])); }
    }
  }

  /** The bad-character table never moves past an occurrence. */
  lemma Delta1Safe(text: seq<byte>, pat: seq<byte>, s: nat, j: nat, k: int)
    requires |pat| >= 1 && j < |pat| && s + |pat| <= |text|
    requires text[s + j] != pat[j]
    requires s < k && OccursAt(text, pat, k)
    ensures s + Delta1(pat, text[s + j]) - (|pat| - 1 - j) <= k
  {
    var c, d := text[s + j], k - s;
    if d <= j {
      assert text[k + (j - d)] == pat[j - d];
      LastIndexIsLast(pat, c, |pat| - 1, j - d);
    }
  }

  /** For unbordered and for constant patterns neither does the good-suffix table. */
  lemma SuffixShiftSafe(text: seq<byte>, pat: seq<byte>, s: nat, j: nat, k: int)
    requires !Bordered(pat) || Constant(pat)
    requires j < |pat| && s + |pat| <= |text|
    requires text[s + j] != pat[j]
    requires forall t :: j < t < |pat| ==> text[s + t] == pat[t]
    requires s < k && OccursAt(text, pat, k)
    ensures s + SuffixShift(pat, j) <= k
  {
    var m, d := |pat|, k - s;
    if d <= j {
      assert text[k + (j - d)] == pat[j - d];
      forall t | j < t < m ensures pat[t - d] == pat[t] {
        assert text[k + (t - d)] == pat[t - d];
      }
      assert pat[j + 1 - d..m - d] == pat[j + 1..];
      LeastRefitIsLeast(pat, j, 1, d);
    } else if d < m {
      forall t | 0 <= t < m - d ensures pat[d + t] == pat[t] {
        assert text[k + t] == pat[t];
        assert text[s + (d + t)] == pat[d + t];
      }
      assert PrefixAt(pat, d);
      ConstantShift(pat, j);
    } else {
      assert SuffixShift(pat, j) <= m;
    }
  }

  lemma ConstantShift(pat: seq<byte>, j: nat)
    requires Constant(pat) && j < |pat|
    ensures SuffixShift(pat, j) == j + 1
  {
    assert PrefixAt(pat, j);
  }

  lemma MismatchExcludes(text: seq<byte>, pat: seq<byte>, s: nat, j: nat)
    requires j < |pat| && s + |pat| <= |text| && text[s + j] != pat[j]
    ensures !OccursAt(text, pat, s)
  {
  }

  /** No alignment that a mismatch at `j` makes the search step over is an occurrence. */
  lemma NothingSkipped(text: seq<byte>, pat: seq<byte>, s: nat, j: nat, k: int)
    requires !Bordered(pat) || Constant(pat)
    requires s + |pat| <= |text| && Mismatch(text, pat, s, |pat|) == j
    requires s <= k < s + Shift(pat, j, text[s + j])
    ensures !OccursAt(text, pat, k)
  {
    MismatchIsLast(text, pat, s, |pat|);
    MismatchExcludes(text, pat, s, j);
    if s < k && OccursAt(text, pat, k) {
      Delta1Safe(text, pat, s, j, k);
      SuffixShiftSafe(text, pat, s, j, k);
    }
  }

  /** The search returns the leftmost occurrence at or after the alignment it starts from. */
  lemma {:induction false} SearchFindsFirst(text: seq<byte>, pat: seq<byte>, s: nat)
    requires |pat| >= 1
    requires !Bordered(pat) || Constant(pat)
    requires forall k :: k < s ==> !OccursAt(text, pat, k)
    ensures IsFirst(text, pat, Search(text, pat, s))
    decreases |text| - s
  {
    hide Bordered, Constant, Delta1, Delta2;
    if s + |pat| <= |text| {
      var j := Mismatch(text, pat, s, |pat|);
      if j >= 0 {
        var next := s + Shift(pat, j, text[s + j]);
        forall k | k < next ensures !OccursAt(text, pat, k) {
          if s <= k { NothingSkipped(text, pat, s, j, k); }
        }
        SearchFindsFirst(text, pat, next);
      } else {
        MismatchIsLast(text, pat, s, |pat|);
      }
    }
  }

  /** If every character from `from + 1` on equals its predecessor, all of them are equal. */
  lemma {:induction false} ChainConstant(pat: seq<byte>, from: nat, i: nat)
    requires from <= i < |pat|
    requires pat[from..|pat| - 1] == pat[from + 1..]
    ensures pat[i] == pat[from]
  {
    if i > from {
      ChainConstant(pat, from, i - 1);
      assert pat[from..|pat| - 1][i - 1 - from] == pat[i - 1];
      assert pat[from + 1..][i - 1 - from] == pat[i];
    }
  }

  lemma BorderAtOneIsConstant(pat: seq<byte>)
    requires 1 < |pat| && PrefixAt(pat, 1)
    ensures Constant(pat)
  {
    assert pat[0..|pat| - 1] == pat[..|pat| - 1];
    forall i | 0 <= i < |pat| ensures pat[i] == pat[0] { ChainConstant(pat, 0, i); }
  }

  /** A refit at index 1 makes all characters but the first equal, so there is no border. */
  lemma RefitAtOneExcludesBorder(pat: seq<byte>, q: int)
    requires 1 <= q < |pat| && Refits(pat, 1, 1)
    ensures !PrefixAt(pat, q)
  {
    ChainConstant(pat, 1, q);
    assert pat[q..][0] != pat[..|pat| - q][0];
  }

  /** For a bordered, non-constant pattern entry 1 of the good-suffix table overshoots the least
      border `q0` by one. */
  lemma OvershootAtOne(pat: seq<byte>, q: int) returns (q0: int)
    requires 1 <= q < |pat| && PrefixAt(pat, q) && !Constant(pat)
    ensures 1 < q0 < |pat| && PrefixAt(pat, q0) && SuffixShift(pat, 1) == q0 + 1
    ensures forall p :: 1 <= p < |pat| && PrefixAt(pat, p) ==> q0 <= p
  {
    if PrefixAt(pat, 1) { BorderAtOneIsConstant(pat); }
    if Refits(pat, 1, 1) { RefitAtOneExcludesBorder(pat, q); }
    assert LeastRefit(pat, 1, 1) == 0;
    q0 := LeastBorder(pat, 1);
    forall p | 1 <= p < |pat| && PrefixAt(pat, p) ensures q0 <= p { LastPrefixIsLeast(pat, 1, p); }
  }

  lemma {:induction false} LeastBorder(pat: seq<byte>, p: nat) returns (q0: int)
    requires p < |pat| && exists q :: p <= q < |pat| && PrefixAt(pat, q)
    ensures p <= q0 < |pat| && PrefixAt(pat, q0) && LastPrefix(pat, p) == q0 + 1
    decreases |pat| - p
  {
    if PrefixAt(pat, p) { q0 := p; } else { q0 := LeastBorder(pat, p + 1); }
  }

  /** The alignment at 0 of this text matches the pattern's end and mismatches at index 1, and the
      pattern occurs at its border `q`. */
  ghost function MissedText(pat: seq<byte>, q: int): seq<byte>
    requires 1 < q < |pat|
  {
    [pat[0], if pat[1] == 1 then 2 else 1] + pat[2..q] + pat
  }

  lemma MissedTextFacts(pat: seq<byte>, q: int) returns (text: seq<byte>)
    requires 1 < q < |pat| && PrefixAt(pat, q)
    ensures |text| == q + |pat| && OccursAt(text, pat, q) && Mismatch(text, pat, 0, |pat|) == 1
  {
    text := MissedText(pat, q);
    forall t | 1 < t < |pat| ensures text[0 + t] == pat[t] {
      if t >= q { assert pat[q..][t - q] == pat[..|pat| - q][t - q]; }
    }
    MismatchAt(text, pat, 0, |pat|, 1);
  }

  lemma StartsTooLate(text: seq<byte>, pat: seq<byte>, k: int, s: nat)
    requires |pat| >= 1 && k < s && OccursAt(text, pat, k)
    ensures !IsFirst(text, pat, Search(text, pat, s))
  {
    SearchSound(text, pat, s);
  }

  /** The search steps over the occurrence at the border. */
  lemma SearchMisses(pat: seq<byte>, q: int) returns (text: seq<byte>)
    requires 1 <= q < |pat| && PrefixAt(pat, q) && !Constant(pat)
    ensures exists k :: OccursAt(text, pat, k)
    ensures !IsFirst(text, pat, Search(text, pat, 0))
  {
    var q0 := OvershootAtOne(pat, q);
    text := MissedTextFacts(pat, q0);
    SearchStep(text, pat, 0, 1, Delta1(pat, text[1]), Delta2(pat, 1));
    StartsTooLate(text, pat, q0, Shift(pat, 1, text[1]));
  }

  /** A concrete miss: "aba" occurs in "acaba" at 2, and the search reports nothing. */
  lemma AbaMissedInAcaba()
    ensures OccursAt([97, 99, 97, 98, 97], [97, 98, 97], 2)
    ensures Search([97, 99, 97, 98, 97], [97, 98, 97], 0) == None
  {
    var text, pat: seq<byte> := [97, 99, 97, 98, 97], [97, 98, 97];
    MismatchAt(text, pat, 0, 3, 1);
    assert pat[1 + 1 - 1..3 - 1] == [98] && pat[1 + 1..] == [97];
    assert !Refits(pat, 1, 1);
    assert pat[1..] == [98, 97] && pat[..2] == [97, 98] && pat[2..] == [97] == pat[..1];
    assert LastPrefix(pat, 2) == 3;
    assert SuffixShift(pat, 1) == 3;
    SearchEnd(text, pat, 0 + Shift(pat, 1, text[1]));
  }

  /** The search returns the leftmost occurrence in every text if and only if the pattern has no
      proper border or repeats a single character. */
  lemma SearchCorrectIff(pat: seq<byte>)
    requires |pat| >= 1
    ensures (forall text: seq<byte> :: IsFirst(text, pat, Search(text, pat, 0)))
            <==> !Bordered(pat) || Constant(pat)
  {
    if !Bordered(pat) || Constant(pat) {
      forall text: seq<byte> ensures IsFirst(text, pat, Search(text, pat, 0)) {
        SearchFindsFirst(text, pat, 0);
      }
    } else {
      var q :| 1 <= q < |pat| && PrefixAt(pat, q);
      var text := SearchMisses(pat, q);
    }
  }

  /** The one pattern the updater searches for is within the condition. */
  lemma ModemVersionSearchCorrect(text: seq<byte>)
    ensures CPattern(MODEM_VER_STR)
    ensures IsFirst(text, MODEM_VER_STR, Search(text, MODEM_VER_STR, 0))
  {
    forall q | 1 <= q < |MODEM_VER_STR| ensures !PrefixAt(MODEM_VER_STR, q) {
      assert MODEM_VER_STR[q..][0] != MODEM_VER_STR[0];
    }
    SearchFindsFirst(text, MODEM_VER_STR, 0);
  }
}
