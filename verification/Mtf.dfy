/** Move-to-front with run coding: the plain list form that encoder and decoder both refine. */
module Mtf {
  import opened RunLength

  const RUNA := 0
  const RUNB := 1

  /** 0, 1, ..., k-1. */
  function Identity(k: nat): (s: seq<int>)
    ensures |s| == k && forall i :: 0 <= i < k ==> s[i] == i
  {
    seq(k, i => i)
  }

  /** The list after the entry at j has moved to the front. */
  function MoveFront(yy: seq<int>, j: nat): (r: seq<int>)
    requires j < |yy|
    ensures |r| == |yy| && r[0] == yy[j]
    ensures forall c :: c in yy ==> c in r
  {
    var r := [yy[j]] + yy[..j] + yy[j+1..];
    assert forall k :: 0 <= k < |yy| ==> yy[k] == r[if k < j then k + 1 else if k == j then 0 else k];
    r
  }

  /** The run length r in bijective base two, least significant digit first: RUNA is one, RUNB is two. */
  function RunDigits(r: nat): (d: seq<int>)
    ensures |d| <= r && forall i :: 0 <= i < |d| ==> d[i] == RUNA || d[i] == RUNB
  {
    if r == 0 then [] else [(r - 1) % 2] + RunDigits((r - 1) / 2)
  }

  /** Where c stands in the list. */
  function IndexOf(yy: seq<int>, c: int): (j: nat)
    requires c in yy
    ensures j < |yy| && yy[j] == c && c !in yy[..j]
  {
    if yy[0] == c then 0 else 1 + IndexOf(yy[1..], c)
  }

  predicate Covers(yy: seq<int>, col: seq<int>) {
    forall i :: 0 <= i < |col| ==> col[i] in yy
  }

  /** Symbols that refer to a list of k entries. */
  predicate Symbols(s: seq<int>, k: nat) {
    forall i :: 0 <= i < |s| ==> 0 <= s[i] <= k
  }

  /** The symbols for the rest of a column, with pend copies of the front entry not yet coded. */
  function Encode(yy: seq<int>, col: seq<int>, pend: nat): seq<int>
    requires Covers(yy, col)
    decreases |col|
  {
    if col == [] then RunDigits(pend)
    else if yy[0] == col[0] then Encode(yy, col[1..], pend + 1)
    else
      var j := IndexOf(yy, col[0]);
      RunDigits(pend) + ([j + 1] + Encode(MoveFront(yy, j), col[1..], 0))
  }

  lemma SymbolsJoin(r: nat, j: nat, rest: seq<int>, k: nat)
    requires 1 <= k && j < k && Symbols(rest, k)
    ensures Symbols(RunDigits(r), k) && Symbols(RunDigits(r) + ([j + 1] + rest), k)
  {
  }

  lemma {:induction false} EncodeSymbols(yy: seq<int>, col: seq<int>, pend: nat)
    requires Covers(yy, col) && |yy| >= 1
    ensures Symbols(Encode(yy, col, pend), |yy|)
    ensures |Encode(yy, col, pend)| <= pend + |col|
    decreases |col|
  {
    hide Symbols;
    if col == [] {
      SymbolsDigits(pend, |yy|);
    } else if yy[0] == col[0] {
      EncodeSymbols(yy, col[1..], pend + 1);
    } else {
      var j := IndexOf(yy, col[0]);
      EncodeSymbols(MoveFront(yy, j), col[1..], 0);
      SymbolsJoin(pend, j, Encode(MoveFront(yy, j), col[1..], 0), |yy|);
    }
  }

  lemma SymbolsDigits(r: nat, k: nat)
    requires 1 <= k
    ensures Symbols(RunDigits(r), k)
  {
  }

  /** What a list of symbols stands for, with a run of length run open whose next digit weighs n. */
  function Decode(yy: seq<int>, syms: seq<int>, run: nat, n: nat): (col: seq<int>)
    requires yy != [] && Symbols(syms, |yy|)
    decreases |syms|
  {
    if syms == [] then Rep(yy[0], run)
    else if syms[0] <= RUNB then Decode(yy, syms[1..], run + (syms[0] + 1) * n, 2 * n)
    else Rep(yy[0], run) + ([yy[syms[0] - 1]] + Decode(MoveFront(yy, syms[0] - 1), syms[1..], 0, 1))
  }

  lemma SymbolsConcat(a: seq<int>, b: seq<int>, k: nat)
    requires Symbols(a, k) && Symbols(b, k)
    ensures Symbols(a + b, k)
  {
  }

  lemma DecodeDigit(yy: seq<int>, d: nat, rest: seq<int>, run: nat, n: nat)
    requires yy != [] && Symbols([d] + rest, |yy|) && d <= RUNB
    ensures Symbols(rest, |yy|)
    ensures Decode(yy, [d] + rest, run, n) == Decode(yy, rest, run + (d + 1) * n, 2 * n)
  {
    assert ([d] + rest)[1..] == rest;
  }

  lemma DecodeWeight(yy: seq<int>, syms: seq<int>, run: nat, n: nat, n': nat)
    requires yy != [] && Symbols(syms, |yy|) && (syms == [] || syms[0] > RUNB)
    ensures Decode(yy, syms, run, n) == Decode(yy, syms, run, n')
  {
  }

  /** Digits read back give the run they were written for; the weight reached no longer matters. */
  lemma {:induction false} DecodeDigits(yy: seq<int>, r: nat, rest: seq<int>, run: nat, n: nat)
    requires yy != [] && Symbols(rest, |yy|) && (rest == [] || rest[0] > RUNB)
    ensures Symbols(RunDigits(r) + rest, |yy|)
    ensures Decode(yy, RunDigits(r) + rest, run, n) == Decode(yy, rest, run + r * n, 1)
    decreases r
  {
    hide Symbols, Decode;
    SymbolsDigits(r, |yy|);
    SymbolsConcat(RunDigits(r), rest, |yy|);
    if r == 0 {
      assert RunDigits(0) + rest == rest;
      DecodeWeight(yy, rest, run, n, 1);
    } else {
      var d, q := (r - 1) % 2, (r - 1) / 2;
      var more := RunDigits(q) + rest;
      assert RunDigits(r) + rest == [d] + more;
      DecodeDigits(yy, q, rest, run + (d + 1) * n, 2 * n);
      DecodeDigit(yy, d, more, run, n);
      DigitSum(r, d, q, run, n);
    }
  }

  lemma DigitSum(r: nat, d: nat, q: nat, run: nat, n: nat)
    requires r == d + 1 + 2 * q
    ensures run + (d + 1) * n + q * (2 * n) == run + r * n
  {
  }

  /** Move-to-front and run coding round trip: every column decodes from its symbols. */
  lemma {:induction false} MtfRoundTrip(yy: seq<int>, col: seq<int>, pend: nat)
    requires yy != [] && Covers(yy, col)
    ensures Symbols(Encode(yy, col, pend), |yy|)
    ensures Decode(yy, Encode(yy, col, pend), 0, 1) == Rep(yy[0], pend) + col
    decreases |col|
  {
    hide Symbols, Decode, RunDigits;
    EncodeSymbols(yy, col, pend);
    if col == [] {
      DigitsAlone(yy, pend);
      assert Rep(yy[0], pend) + col == Rep(yy[0], pend);
    } else if yy[0] == col[0] {
      MtfRoundTrip(yy, col[1..], pend + 1);
      assert Rep(yy[0], pend + 1) + col[1..] == Rep(yy[0], pend) + col;
    } else {
      var j := IndexOf(yy, col[0]);
      MtfRoundTrip(MoveFront(yy, j), col[1..], 0);
      MtfStep(yy, j, Encode(MoveFront(yy, j), col[1..], 0), col[1..], pend);
      assert Rep(yy[0], pend) + ([yy[j]] + col[1..]) == Rep(yy[0], pend) + col;
    }
  }

  lemma DigitsAlone(yy: seq<int>, pend: nat)
    requires yy != []
    ensures Symbols(RunDigits(pend), |yy|) && Decode(yy, RunDigits(pend), 0, 1) == Rep(yy[0], pend)
  {
    DecodeDigits(yy, pend, [], 0, 1);
    assert RunDigits(pend) + [] == RunDigits(pend);
  }

  lemma MtfStep(yy: seq<int>, j: nat, rest: seq<int>, col: seq<int>, pend: nat)
    requires 0 < j < |yy| && Symbols(rest, |yy|)
    requires Decode(MoveFront(yy, j), rest, 0, 1) == Rep(yy[j], 0) + col
    ensures Symbols(RunDigits(pend) + ([j + 1] + rest), |yy|)
    ensures Decode(yy, RunDigits(pend) + ([j + 1] + rest), 0, 1) == Rep(yy[0], pend) + ([yy[j]] + col)
  {
    hide RunDigits;
    var syms := [j + 1] + rest;
    assert syms[1..] == rest;
    DecodeDigits(yy, pend, syms, 0, 1);
    assert Rep(yy[j], 0) + col == col;
  }
}
