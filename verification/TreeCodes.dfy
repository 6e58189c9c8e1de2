/** gen_codes: the code numbers that belong to the lengths, bit-reversed as they are sent. */
module TreeCodes {
  import opened Counting
  import opened Bits
  import opened BitIO
  import opened SortedCodes
  import opened DeflateCodes
  import Canonical

  /** An unsigned 16-bit field. */
  function Ush(v: nat): nat { v % 0x1_0000 }

  lemma UshFits(v: nat)
    requires v < 0x1_0000
    ensures Ush(v) == v
  {
  }

  lemma ValuePrepend(b: bool, s: seq<bool>)
    ensures Value([b] + s) == (if b then 1 else 0) + 2 * Value(s)
  {
    assert ([b] + s)[1..] == s;
  }

  lemma ToBitsLast(v: nat, n: nat)
    requires n >= 1
    ensures ToBits(v, n) == ToBits(v / 2, n - 1) + [v % 2 == 1]
  {
  }

  /** The low len bits of a code in reverse order. */
  method BiReverse(code0: nat, len0: nat) returns (r: nat)
    requires len0 >= 1
    ensures r == Value(ToBits(code0, len0))
  {
    hide Value, ToBits;
    var code, len, res := code0, len0, 0;
    ghost var done: seq<bool> := [];
    while true
      invariant 1 <= len <= len0 && res == 2 * Value(done) && ToBits(code0, len0) == ToBits(code, len) + done
      decreases len
    {
      ToBitsLast(code, len);
      ValuePrepend(code % 2 == 1, done);
      done := [code % 2 == 1] + done;
      res := res + code % 2;
      code, res := code / 2, res * 2;
      len := len - 1;
      assert ToBits(code0, len0) == ToBits(code, len) + done;
      if len <= 0 {
        break;
      }
    }
    ToBitsNone(code);
    assert ToBits(code, len) + done == done;
    return res / 2;
  }

  lemma ToBitsNone(v: nat)
    ensures ToBits(v, 0) == []
  {
  }

  /** Up to length n the codewords take up what the code numbers say. */
  lemma {:induction false} NextIsKraft(lens: seq<int>, n: nat)
    ensures NextCode(lens, n) + (if n == 0 then 0 else Count(lens, n)) == UsedKraft(lens, n)
  {
    hide Count, UsedKraft;
    if n == 0 {
      UsedKraftStep(lens, 0);
    } else {
      NextIsKraft(lens, n - 1);
      UsedKraftStep(lens, n - 1);
    }
  }

  lemma NextFits(lens: seq<int>, n: nat)
    requires IsLens(lens) && UsedKraft(lens, MAXBITS) <= Pow2(MAXBITS) && n <= MAXBITS
    ensures NextCode(lens, n) + (if n == 0 then 0 else Count(lens, n)) <= Pow2(n) <= 0x8000
  {
    hide Count, UsedKraft, NextCode, Pow2;
    NextIsKraft(lens, n);
    KraftAtLevel(lens, n);
    Pow2Monotone(n, MAXBITS);
    assert Pow2(MAXBITS) == 0x8000 by {
      Powers();
      PowHalf();
    }
  }

  lemma PowHalf()
    ensures Pow2(MAXBITS) == 0x8000
  {
    assert Pow2(5) == 32;
    assert Pow2(10) == 1024;
  }

  lemma KraftAtLevel(lens: seq<int>, n: nat)
    requires IsLens(lens) && UsedKraft(lens, MAXBITS) <= Pow2(MAXBITS) && n <= MAXBITS
    ensures UsedKraft(lens, n) <= Pow2(n)
  {
    hide UsedKraft, Pow2, Along;
    AlongKraft(lens, n);
    AlongKraft(lens, MAXBITS);
    Canonical.KraftLevel(Along(lens), n, MAXBITS);
  }

  lemma NextStep(lens: seq<int>, n: nat)
    requires n >= 1
    ensures NextCode(lens, n) == 2 * (NextCode(lens, n - 1) + (if n == 1 then 0 else Count(lens, n - 1)))
    ensures NextCode(lens, 0) == 0
  {
  }

  /** Where the numbers of every length have got to before symbol n. */
  ghost predicate Numbering(next: seq<int>, lens: seq<int>, n: nat) {
    |next| == MAXBITS + 1 && n <= |lens| &&
    forall b :: 1 <= b <= MAXBITS ==> next[b] == NextCode(lens, b) + Count(lens[..n], b)
  }

  lemma NumberingStep(next: seq<int>, lens: seq<int>, n: nat)
    requires Numbering(next, lens, n) && n < |lens| && IsLens(lens) && UsedKraft(lens, MAXBITS) <= Pow2(MAXBITS)
    ensures lens[n] == 0 ==> Numbering(next, lens, n + 1)
    ensures lens[n] != 0 ==>
        next[lens[n]] == DeflateCode(lens, n) && Numbering(next[lens[n] := next[lens[n]] + 1], lens, n + 1)
    ensures lens[n] != 0 ==> next[lens[n]] + 1 < 0x1_0000
  {
    hide Count, UsedKraft, NextCode, Pow2;
    forall b | 1 <= b <= MAXBITS
      ensures Count(lens[..n + 1], b) == Count(lens[..n], b) + (if lens[n] == b then 1 else 0)
    {
      CountAppend(lens, n, b);
    }
    if lens[n] != 0 {
      NextFits(lens, lens[n]);
      CountWhole(lens, lens[n], n);
    }
  }

  /** Hands out the code numbers. The check that they come out even holds exactly for complete codes. */
  method GenCodes(fc: array<int>, dl: array<int>, maxCode: nat, blCount: array<int>) returns (consistent: bool)
    requires fc != dl && fc != blCount && blCount.Length == MAXBITS + 1 && maxCode < dl.Length && maxCode < fc.Length
    requires IsLens(dl[..maxCode + 1]) && UsedKraft(dl[..maxCode + 1], MAXBITS) <= Pow2(MAXBITS)
    requires blCount[0] == 0 && forall b :: 1 <= b <= MAXBITS ==> blCount[b] == Count(dl[..maxCode + 1], b)
    modifies fc
    ensures forall n :: 0 <= n <= maxCode && dl[n] != 0 ==> fc[n] == Value(Codeword(dl[..maxCode + 1], n))
    ensures forall n :: 0 <= n < fc.Length && (n > maxCode || dl[n] == 0) ==> fc[n] == old(fc[n])
    ensures consistent <==> UsedKraft(dl[..maxCode + 1], MAXBITS) == Pow2(MAXBITS)
  {
    hide Count, UsedKraft, NextCode, Pow2, Numbering, DeflateCode, IsLens, Value, ToBits, Ush;
    ghost var lens: seq<int> := dl[..maxCode + 1];
    var nextCode, code := NextCodes(blCount, lens);
    consistent := code + blCount[MAXBITS] - 1 == Pow2(MAXBITS) - 1;
    NextIsKraft(lens, MAXBITS);
    StartNumbering(nextCode[..], lens);
    var n := 0;
    while n <= maxCode
      invariant 0 <= n <= maxCode + 1 && nextCode.Length == MAXBITS + 1 && Numbering(nextCode[..], lens, n)
      invariant forall k :: 0 <= k < n && dl[k] != 0 ==> 0 <= lens[k] && fc[k] == Value(Codeword(lens, k))
      invariant forall k :: 0 <= k < fc.Length && (k >= n || dl[k] == 0) ==> fc[k] == old(fc[k])
      modifies fc, nextCode
    {
      var len := dl[n];
      ghost var next: seq<int> := nextCode[..];
      LensIn(lens, n);
      NumberingStep(next, lens, n);
      if len != 0 {
        fc[n] := BiReverse(nextCode[len], len);
        UshFits(nextCode[len] + 1);
        nextCode[len] := Ush(nextCode[len] + 1);
        assert nextCode[..] == next[len := next[len] + 1];
        CodewordIs(lens, n);
      }
      n := n + 1;
    }
  }

  lemma LensIn(lens: seq<int>, n: nat)
    requires IsLens(lens) && n < |lens|
    ensures 0 <= lens[n] <= MAXBITS
  {
  }

  lemma CodewordIs(lens: seq<int>, n: nat)
    requires n < |lens| && 0 <= lens[n]
    ensures Codeword(lens, n) == ToBits(DeflateCode(lens, n), lens[n])
  {
  }

  lemma StartNumbering(next: seq<int>, lens: seq<int>)
    requires |next| == MAXBITS + 1 && forall b :: 1 <= b <= MAXBITS ==> next[b] == NextCode(lens, b)
    ensures Numbering(next, lens, 0)
  {
    hide NextCode;
  }

  /** The first code number of every length. */
  method NextCodes(blCount: array<int>, ghost lens: seq<int>) returns (nextCode: array<int>, code: nat)
    requires blCount.Length == MAXBITS + 1 && IsLens(lens) && UsedKraft(lens, MAXBITS) <= Pow2(MAXBITS)
    requires blCount[0] == 0 && forall b :: 1 <= b <= MAXBITS ==> blCount[b] == Count(lens, b)
    ensures fresh(nextCode) && nextCode.Length == MAXBITS + 1 && code == NextCode(lens, MAXBITS)
    ensures forall b :: 1 <= b <= MAXBITS ==> nextCode[b] == NextCode(lens, b) && 0 <= nextCode[b]
  {
    hide Count, UsedKraft, NextCode, Pow2, IsLens, Ush;
    nextCode := new int[MAXBITS + 1](i => 0);
    code := 0;
    NextStep(lens, 1);
    var bits := 1;
    while bits <= MAXBITS
      invariant 1 <= bits <= MAXBITS + 1 && code == NextCode(lens, bits - 1)
      invariant forall b :: 1 <= b < bits ==> nextCode[b] == NextCode(lens, b) && 0 <= nextCode[b]
      modifies nextCode
    {
      NextStep(lens, bits);
      NextFits(lens, bits);
      UshFits((code + blCount[bits - 1]) * 2);
      code := Ush((code + blCount[bits - 1]) * 2);
      nextCode[bits] := code;
      bits := bits + 1;
    }
  }
}
