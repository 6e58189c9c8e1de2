/** Canonical Huffman codes: the encoder's code numbers, the decoder's limit/base/perm tables, and why the
    two fit together. */
module Canonical {
  import opened Counting
  import opened Bits

  const MAX_ALPHA_SIZE := 258
  const MAX_CODE_LEN := 23

  /** Every symbol has a length that both sides can handle. */
  ghost predicate IsLengths(len: seq<int>) {
    0 < |len| <= MAX_ALPHA_SIZE && forall i :: 0 <= i < |len| ==> 1 <= len[i] <= 20
  }

  /** The first code number of length n: numbers are handed out in order of length. */
  function First(len: seq<int>, n: nat): nat {
    if n == 0 then 0 else 2 * (First(len, n - 1) + Count(len, n - 1))
  }

  /** The code number of symbol s. */
  function Code(len: seq<int>, s: nat): nat
    requires s < |len| && 0 <= len[s]
  {
    First(len, len[s]) + Count(len[..s], len[s])
  }

  // ---------- the Kraft sum ----------

  /** Sum of 2^(n - len[i]) over the symbols of length at most n: what the codes up to length n use up of
      the 2^n strings of that length. */
  function Kraft(len: seq<int>, n: nat): nat {
    if len == [] then 0
    else Kraft(len[..|len|-1], n) + (if 0 <= len[|len|-1] <= n then Pow2(n - len[|len|-1]) else 0)
  }

  lemma {:induction false} KraftStep(len: seq<int>, n: nat)
    ensures Kraft(len, n + 1) == 2 * Kraft(len, n) + Count(len, n + 1)
  {
    if len != [] {
      KraftStep(len[..|len|-1], n);
    }
  }

  lemma {:induction false} KraftZero(len: seq<int>)
    requires forall i :: 0 <= i < |len| ==> 1 <= len[i]
    ensures Kraft(len, 0) == 0 && Count(len, 0) == 0
  {
    if len != [] {
      KraftZero(len[..|len|-1]);
    }
  }

  /** The codes up to length n are exactly the first Kraft(n) strings of that length. */
  lemma {:induction false} FirstIsKraft(len: seq<int>, n: nat)
    requires forall i :: 0 <= i < |len| ==> 1 <= len[i]
    ensures First(len, n) + Count(len, n) == Kraft(len, n)
  {
    if n == 0 {
      KraftZero(len);
    } else {
      FirstIsKraft(len, n - 1);
      KraftStep(len, n - 1);
    }
  }

  lemma {:induction false} KraftScales(len: seq<int>, n: nat, k: nat)
    requires n <= k
    ensures Kraft(len, n) * Pow2(k - n) <= Kraft(len, k)
    decreases k - n
  {
    if n < k {
      KraftScales(len, n, k - 1);
      KraftStep(len, k - 1);
      ScaleArith(Kraft(len, n), Pow2(k - 1 - n), Kraft(len, k - 1));
    }
  }

  lemma ScaleArith(x: nat, p: nat, y: nat)
    requires x * p <= y
    ensures x * (2 * p) <= 2 * y
  {
  }

  /** When the lengths do not oversubscribe, no level does. */
  lemma KraftLevel(len: seq<int>, n: nat, k: nat)
    requires n <= k && Kraft(len, k) <= Pow2(k)
    ensures Kraft(len, n) <= Pow2(n)
  {
    hide Kraft, Pow2;
    KraftScales(len, n, k);
    Pow2Sum(n, k - n);
    assert n + (k - n) == k;
    CancelPow(Kraft(len, n), Pow2(n), Pow2(k - n));
  }

  lemma CancelPow(x: nat, y: nat, p: nat)
    requires p >= 1 && x * p <= y * p
    ensures x <= y
  {
    if x > y {
      MulGap(p, y, x);
    }
  }

  /** Code numbers fit their lengths. */
  lemma CodeFits(len: seq<int>, s: nat)
    requires IsLengths(len) && s < |len| && Kraft(len, 20) <= Pow2(20)
    ensures Code(len, s) < Pow2(len[s])
  {
    CountWhole(len, len[s], s);
    FirstIsKraft(len, len[s]);
    KraftLevel(len, len[s], 20);
  }

  /** Longer codes start behind all shorter ones. */
  lemma {:induction false} FirstScales(len: seq<int>, n: nat, k: nat)
    requires n < k
    ensures (First(len, n) + Count(len, n)) * Pow2(k - n) <= First(len, k)
    decreases k - n
  {
    if n + 1 == k {
      assert Pow2(1) == 2;
    } else {
      FirstScales(len, n, k - 1);
      ScaleArith(First(len, n) + Count(len, n), Pow2(k - 1 - n), First(len, k - 1));
    }
  }

  // ---------- the encoder's codes ----------

  method AssignCodes(code: array<int>, length: array<int>, minLen: int, maxLen: int, alphaSize: nat)
    requires code != length && alphaSize <= code.Length && alphaSize <= length.Length
    requires 1 <= minLen && forall i :: 0 <= i < alphaSize ==> minLen <= length[i] <= maxLen
    modifies code
    ensures forall i :: 0 <= i < alphaSize ==> code[i] == Code(length[..alphaSize], i)
  {
    ghost var len := length[..alphaSize];
    var vec := 0;
    var n := minLen;
    NoneShorter(len, minLen);
    while n <= maxLen
      invariant minLen <= n && (n <= maxLen + 1 || n == minLen)
      invariant vec == First(len, n)
      invariant forall i :: 0 <= i < alphaSize && length[i] < n ==> code[i] == Code(len, i)
      decreases maxLen + 1 - n
    {
      vec := AssignLevel(code, length, n, alphaSize, vec);
      vec := vec * 2;
      n := n + 1;
    }
  }

  method AssignLevel(code: array<int>, length: array<int>, n: int, alphaSize: nat, vec0: int) returns (vec: int)
    requires code != length && alphaSize <= code.Length && alphaSize <= length.Length && 1 <= n
    requires vec0 == First(length[..alphaSize], n)
    requires forall i :: 0 <= i < alphaSize && length[i] < n ==>
        0 <= length[i] && code[i] == Code(length[..alphaSize], i)
    modifies code
    ensures vec == First(length[..alphaSize], n) + Count(length[..alphaSize], n)
    ensures forall i :: 0 <= i < alphaSize && length[i] <= n ==>
        0 <= length[i] && code[i] == Code(length[..alphaSize], i)
  {
    ghost var len := length[..alphaSize];
    vec := vec0;
    var i := 0;
    while i < alphaSize
      invariant 0 <= i <= alphaSize && vec == First(len, n) + Count(len[..i], n)
      invariant forall k :: 0 <= k < alphaSize && len[k] < n ==> code[k] == Code(len, k)
      invariant forall k :: 0 <= k < i && len[k] == n ==> code[k] == Code(len, k)
    {
      CountAppend(len, i, n);
      if length[i] == n {
        code[i] := vec;
        vec := vec + 1;
      }
      i := i + 1;
    }
    assert len[..alphaSize] == len;
  }

  lemma {:induction false} NoneShorter(len: seq<int>, m: nat)
    requires forall i :: 0 <= i < |len| ==> m <= len[i]
    ensures First(len, m) == 0
    decreases m
  {
    if m > 0 {
      NoneShorter(len, m - 1);
      NoCount(len, m - 1);
    }
  }

  lemma {:induction false} NoCount(len: seq<int>, c: int)
    requires forall i :: 0 <= i < |len| ==> len[i] != c
    ensures Count(len, c) == 0
  {
    if len != [] {
      NoCount(len[..|len|-1], c);
    }
  }

  // ---------- the decoder's tables ----------

  /** limit, base and perm as the decoder needs them: level by level the last code, the offset of the first
      code against the sorted symbols, and the symbols sorted by length. */
  ghost predicate Tables(len: seq<int>, minLen: int, maxLen: int, limit: seq<int>, base: seq<int>, perm: seq<int>) {
    && |limit| == |base| == |perm| == MAX_ALPHA_SIZE && |len| <= MAX_ALPHA_SIZE
    && 1 <= minLen <= maxLen <= 20
    && (forall i :: 0 <= i < |len| ==> minLen <= len[i] <= maxLen)
    && (forall n :: minLen <= n <= maxLen ==> limit[n] == First(len, n) + Count(len, n) - 1)
    && (forall n :: minLen <= n <= maxLen ==> base[n] == First(len, n) - Below(len, n))
    && Unplaces(len, perm[..|len|])
  }

  /** Symbols shorter than n, and those of length n below j, stand in their sorted places. */
  ghost predicate Sorted(len: seq<int>, perm: seq<int>, n: int, j: nat) {
    |len| <= |perm| && forall s :: 0 <= s < |len| && (len[s] < n || (len[s] == n && s < j)) ==>
      Place(len, s) < |len| && perm[Place(len, s)] == s
  }

  lemma SortedStep(len: seq<int>, perm: seq<int>, n: int, j: nat)
    requires Sorted(len, perm, n, j) && j < |len|
    ensures len[j] != n ==> Sorted(len, perm, n, j + 1)
    ensures Place(len, j) < |len| <= |perm|
    ensures len[j] == n ==> Sorted(len, perm[Place(len, j) := j], n, j + 1)
  {
    hide Place;
    PlaceAt(len, j);
    PlacesApart(len, j);
  }

  lemma SortedNext(len: seq<int>, perm: seq<int>, n: int)
    requires Sorted(len, perm, n, |len|)
    ensures Sorted(len, perm, n + 1, 0)
  {
  }

  method BuildPerm(perm: array<int>, length: array<int>, minLen: int, maxLen: int, alphaSize: nat)
    requires perm != length && alphaSize <= length.Length && alphaSize <= perm.Length == MAX_ALPHA_SIZE
    requires forall i :: 0 <= i < alphaSize ==> minLen <= length[i] <= maxLen
    modifies perm
    ensures Unplaces(length[..alphaSize], perm[..alphaSize])
  {
    ghost var len := length[..alphaSize];
    var pp, i := 0, minLen;
    BelowNone(len, minLen);
    while i <= maxLen
      invariant minLen <= i && pp == Below(len, i) && length[..alphaSize] == len
      invariant Sorted(len, perm[..], i, 0)
      decreases maxLen + 1 - i
    {
      pp := PermLevel(perm, length, i, alphaSize, pp);
      i := i + 1;
    }
  }

  method PermLevel(perm: array<int>, length: array<int>, n: int, alphaSize: nat, pp0: int) returns (pp: int)
    requires perm != length && alphaSize <= length.Length && alphaSize <= perm.Length
    requires pp0 == Below(length[..alphaSize], n) && Sorted(length[..alphaSize], perm[..], n, 0)
    modifies perm
    ensures pp == Below(length[..alphaSize], n + 1) && Sorted(length[..alphaSize], perm[..], n + 1, 0)
  {
    hide Place, Below, Count, Sorted;
    ghost var len := length[..alphaSize];
    pp := pp0;
    var j := 0;
    CountNone(len, n);
    while j < alphaSize
      invariant 0 <= j <= alphaSize && pp == Below(len, n) + Count(len[..j], n)
      invariant Sorted(len, perm[..], n, j)
    {
      ghost var p: seq<int> := perm[..];
      CountAppend(len, j, n);
      PlaceAt(len, j);
      SortedStep(len, p, n, j);
      if length[j] == n {
        perm[pp] := j;
        assert perm[..] == p[pp := j];
        pp := pp + 1;
      }
      j := j + 1;
    }
    assert len[..alphaSize] == len;
    BelowStep(len, n);
    SortedNext(len, perm[..], n);
  }

  lemma CountNone(l: seq<int>, c: int)
    ensures Count(l[..0], c) == 0
  {
  }

  lemma PlaceAt(l: seq<int>, j: nat)
    requires j < |l|
    ensures Place(l, j) == Below(l, l[j]) + Count(l[..j], l[j]) < |l|
  {
    PlaceBound(l, j);
  }

  lemma PlacesApart(l: seq<int>, j: nat)
    requires j < |l|
    ensures forall s :: 0 <= s < |l| && s != j ==> Place(l, s) != Place(l, j)
  {
    PlacesPerm(l);
    forall s | 0 <= s < |l| && s != j
      ensures Place(l, s) != Place(l, j)
    {
      assert Places(l)[s] == Place(l, s) && Places(l)[j] == Place(l, j);
    }
  }

  /** The number of symbols shorter than i, for every level i. */
  method BuildBase(base: array<int>, length: array<int>, alphaSize: nat)
    requires base != length && base.Length == MAX_ALPHA_SIZE && alphaSize <= length.Length
    requires forall i :: 0 <= i < alphaSize ==> 1 <= length[i] <= 20
    modifies base
    ensures forall n :: 0 <= n < MAX_CODE_LEN ==> base[n] == Below(length[..alphaSize], n)
  {
    ghost var len := length[..alphaSize];
    var i := 0;
    while i < MAX_CODE_LEN
      invariant 0 <= i <= MAX_CODE_LEN
      invariant forall n :: 0 <= n < i ==> base[n] == 0
    {
      base[i] := 0;
      i := i + 1;
    }
    i := 0;
    while i < alphaSize
      invariant 0 <= i <= alphaSize && base[0] == 0
      invariant forall n :: 1 <= n < MAX_CODE_LEN ==> base[n] == Count(len[..i], n - 1)
    {
      forall c | 0 <= c < MAX_CODE_LEN
        ensures Count(len[..i+1], c) == Count(len[..i], c) + (if len[i] == c then 1 else 0)
      {
        CountAppend(len, i, c);
      }
      base[length[i] + 1] := base[length[i] + 1] + 1;
      i := i + 1;
    }
    assert len[..i] == len;
    BelowNone(len, 0);
    i := 1;
    while i < MAX_CODE_LEN
      invariant 1 <= i <= MAX_CODE_LEN
      invariant forall n :: 0 <= n < i ==> base[n] == Below(len, n)
      invariant forall n :: i <= n < MAX_CODE_LEN ==> base[n] == Count(len, n - 1)
    {
      BelowStep(len, i - 1);
      base[i] := base[i] + base[i - 1];
      i := i + 1;
    }
  }

  method CreateDecodeTables(limit: array<int>, base: array<int>, perm: array<int>, length: array<int>,
                            minLen: int, maxLen: int, alphaSize: nat)
    requires limit != base && limit != perm && limit != length && base != perm && base != length && perm != length
    requires limit.Length == base.Length == perm.Length == MAX_ALPHA_SIZE && alphaSize <= MAX_ALPHA_SIZE
    requires alphaSize <= length.Length && 1 <= minLen <= maxLen <= 20
    requires forall i :: 0 <= i < alphaSize ==> minLen <= length[i] <= maxLen
    modifies limit, base, perm
    ensures Tables(length[..alphaSize], minLen, maxLen, limit[..], base[..], perm[..])
    ensures forall n :: maxLen < n < MAX_CODE_LEN ==> limit[n] == 0 && base[n] == alphaSize
  {
    hide Unplaces, First, Below, Count;
    ghost var len := length[..alphaSize];
    BuildPerm(perm, length, minLen, maxLen, alphaSize);
    BuildBase(base, length, alphaSize);
    BuildLimit(limit, base, minLen, maxLen, len);
    OffsetBase(limit, base, minLen, maxLen, len);
    assert perm[..][..alphaSize] == perm[..alphaSize];
  }

  method OffsetBase(limit: array<int>, base: array<int>, minLen: int, maxLen: int, ghost len: seq<int>)
    requires limit != base && limit.Length == base.Length == MAX_ALPHA_SIZE
    requires 1 <= minLen <= maxLen <= 20 && forall i :: 0 <= i < |len| ==> minLen <= len[i] <= maxLen
    requires forall n :: 0 <= n < MAX_CODE_LEN ==> base[n] == Below(len, n)
    requires forall n :: minLen <= n <= maxLen ==> limit[n] == First(len, n) + Count(len, n) - 1
    modifies base
    ensures forall n :: minLen <= n <= maxLen ==> base[n] == First(len, n) - Below(len, n)
    ensures forall n :: maxLen < n < MAX_CODE_LEN ==> base[n] == |len|
  {
    hide First, Below, Count;
    BelowNone(len, minLen);
    NoneShorter(len, minLen);
    var i := minLen + 1;
    while i <= maxLen
      invariant minLen + 1 <= i <= maxLen + 1
      invariant forall n :: minLen <= n < i ==> base[n] == First(len, n) - Below(len, n)
      invariant forall n :: i <= n < MAX_CODE_LEN ==> base[n] == Below(len, n)
    {
      FirstStep(len, i);
      base[i] := (limit[i - 1] + 1) * 2 - base[i];
      i := i + 1;
    }
    forall n | maxLen < n < MAX_CODE_LEN
      ensures Below(len, n) == |len|
    {
      BelowAll(len, n);
    }
  }

  lemma FirstStep(len: seq<int>, n: nat)
    requires n > 0
    ensures First(len, n) == 2 * (First(len, n - 1) + Count(len, n - 1))
  {
  }

  method BuildLimit(limit: array<int>, base: array<int>, minLen: int, maxLen: int, ghost len: seq<int>)
    requires limit != base && limit.Length == base.Length == MAX_ALPHA_SIZE
    requires 1 <= minLen <= maxLen <= 20 && forall i :: 0 <= i < |len| ==> minLen <= len[i]
    requires forall n :: 0 <= n < MAX_CODE_LEN ==> base[n] == Below(len, n)
    modifies limit
    ensures forall n :: minLen <= n <= maxLen ==> limit[n] == First(len, n) + Count(len, n) - 1
    ensures forall n :: maxLen < n < MAX_CODE_LEN ==> limit[n] == 0
  {
    var i := 0;
    while i < MAX_CODE_LEN
      invariant 0 <= i <= MAX_CODE_LEN
      invariant forall n :: 0 <= n < i ==> limit[n] == 0
    {
      limit[i] := 0;
      i := i + 1;
    }
    LimitLevels(limit, base, minLen, maxLen, len);
  }

  method LimitLevels(limit: array<int>, base: array<int>, minLen: int, maxLen: int, ghost len: seq<int>)
    requires limit != base && limit.Length == base.Length == MAX_ALPHA_SIZE
    requires 1 <= minLen <= maxLen <= 20 && forall i :: 0 <= i < |len| ==> minLen <= len[i]
    requires forall n :: 0 <= n < MAX_CODE_LEN ==> base[n] == Below(len, n) && limit[n] == 0
    modifies limit
    ensures forall n :: minLen <= n <= maxLen ==> limit[n] == First(len, n) + Count(len, n) - 1
    ensures forall n :: maxLen < n < MAX_CODE_LEN ==> limit[n] == 0
  {
    hide First, Below, Count;
    var vec := 0;
    NoneShorter(len, minLen);
    var i := minLen;
    while i <= maxLen
      invariant minLen <= i <= maxLen + 1 && vec == First(len, i)
      invariant forall n :: minLen <= n < i ==> limit[n] == First(len, n) + Count(len, n) - 1
      invariant forall n :: maxLen < n < MAX_CODE_LEN ==> limit[n] == 0
    {
      BelowStep(len, i);
      FirstStep(len, i + 1);
      vec := vec + (base[i + 1] - base[i]);
      limit[i] := vec - 1;
      vec := vec * 2;
      i := i + 1;
    }
  }
}
