/** Length and distance codes (section 3.2.5 of RFC 1951): which symbol a match length or distance belongs to, and
    what its extra bits add. */
module LengthCodes {
  import opened Bits
  import opened TableBuilder

  const LENGTH_CODES := 29
  const D_CODES := 30
  const LITERALS := 256
  const L_CODES := 286

  /** extra_lbits: extra bits of the length codes. */
  function ExtraL(i: nat): nat
    requires i < 29
  {
    if i <= 7 then 0 else if i <= 11 then 1 else if i <= 15 then 2 else if i <= 19 then 3 else if i <= 23 then 4
    else if i <= 27 then 5 else 0
  }

  /** extra_dbits: extra bits of the distance codes. */
  function ExtraD(i: nat): nat
    requires i < 30
  {
    if i <= 3 then 0 else if i <= 5 then 1 else if i <= 7 then 2 else if i <= 9 then 3 else if i <= 11 then 4
    else if i <= 13 then 5 else if i <= 15 then 6 else if i <= 17 then 7 else if i <= 19 then 8
    else if i <= 21 then 9 else if i <= 23 then 10 else if i <= 25 then 11 else if i <= 27 then 12 else 13
  }

  /** Lengths have 28 codes that follow one pattern, distances 30. */
  datatype Family = Lengths | Distances

  function Codes(f: Family): nat {
    if f == Lengths then LENGTH_CODES - 1 else D_CODES
  }

  function Extra(f: Family, c: nat): nat
    requires c < Codes(f)
  {
    if f == Lengths then ExtraL(c) else ExtraD(c)
  }

  /** The first value of a code: each code covers as many values as its extra bits can tell apart. */
  function FirstOf(f: Family, code: nat): (r: nat)
    requires code <= Codes(f)
  {
    if code == 0 then 0 else FirstOf(f, code - 1) + Pow2(Extra(f, code - 1))
  }

  /** The code whose values include v, among those below n. */
  function CodeBelow(f: Family, v: nat, n: nat): (c: nat)
    requires n <= Codes(f) && v < FirstOf(f, n)
    ensures c < n && Covers(f, c, v)
  {
    if v >= FirstOf(f, n - 1) then n - 1 else CodeBelow(f, v, n - 1)
  }

  lemma {:induction false} FirstRises(f: Family, a: nat, b: nat)
    requires a <= b <= Codes(f)
    ensures FirstOf(f, a) <= FirstOf(f, b)
    decreases b
  {
    if a < b {
      FirstRises(f, a, b - 1);
    }
  }

  /** Only one code covers a value. */
  lemma CodeUnique(f: Family, v: nat, c: nat, d: nat)
    requires Covers(f, c, v) && Covers(f, d, v)
    ensures c == d
  {
    hide FirstOf;
    if c < d {
      FirstRises(f, c + 1, d);
    } else if d < c {
      FirstRises(f, d + 1, c);
    }
  }

  ghost predicate Covers(f: Family, code: int, v: int) {
    0 <= code < Codes(f) && FirstOf(f, code) <= v < FirstOf(f, code + 1)
  }

  lemma FirstNext(f: Family, c: nat)
    requires c < Codes(f)
    ensures FirstOf(f, c + 1) == FirstOf(f, c) + Pow2(Extra(f, c)) && FirstOf(f, 0) == 0
  {
  }

  /** The decoder's base for a code, by the encoder's numbering. */
  function FirstIs(f: Family, c: nat): int
    requires c <= Codes(f)
  {
    if f == Lengths then (if c == 28 then 256 else LBase(c) - 3) else (if c == 30 then 32768 else DBase(c) - 1)
  }

  lemma FirstIsNext(f: Family, c: nat)
    requires c < Codes(f)
    ensures FirstIs(f, c + 1) == FirstIs(f, c) + Pow2(Extra(f, c)) && FirstIs(f, 0) == 0
  {
    hide Pow2;
    SmallPowers();
  }

  /** The decoder's bases are the first values of the encoder's codes. */
  lemma {:induction false} Firsts(f: Family, c: nat)
    requires c <= Codes(f)
    ensures FirstOf(f, c) == FirstIs(f, c)
  {
    hide Pow2, FirstIs, Extra;
    if c > 0 {
      Firsts(f, c - 1);
      FirstIsNext(f, c - 1);
    } else {
      FirstIsNext(f, 0);
    }
  }

  lemma Operations(f: Family, c: nat)
    requires c < Codes(f)
    ensures (if f == Lengths then LExt(c) else DExt(c)) == 16 + Extra(f, c)
  {
  }

  lemma Ends()
    ensures FirstOf(Lengths, 28) == 256 && FirstOf(Distances, 30) == 32768 && FirstOf(Distances, 16) == 256
  {
    hide FirstOf;
    Firsts(Lengths, 28);
    Firsts(Distances, 16);
    Firsts(Distances, 30);
  }

  // ---------- the codes ----------

  function Limit(f: Family): nat {
    if f == Lengths then 256 else 32768
  }

  lemma LimitIs(f: Family)
    ensures FirstOf(f, Codes(f)) == Limit(f)
  {
    hide FirstOf;
    Ends();
  }

  /** The code of a value, if any code covers it. */
  function CodeIn(f: Family, v: nat): (c: nat)
    ensures c < Codes(f)
  {
    if v < FirstOf(f, Codes(f)) then CodeBelow(f, v, Codes(f)) else 0
  }

  lemma CodeCovers(f: Family, v: nat)
    requires v < Limit(f)
    ensures Covers(f, CodeIn(f, v), v)
  {
    hide FirstOf, Codes;
    LimitIs(f);
  }

  /** The code of a match length, given as length - 3. The greatest length has a code of its own. */
  function LengthCode(lc: nat): (c: nat)
    requires lc < 256
    ensures c < LENGTH_CODES
  {
    if lc == 255 then 28 else CodeIn(Lengths, lc)
  }

  /** base_length: the entry for the last code stays zero. */
  function BaseLength(code: nat): nat
    requires code < LENGTH_CODES
  {
    if code == 28 then 0 else FirstOf(Lengths, code)
  }

  /** The code of a distance, given as distance - 1. */
  function DistCode(d: nat): (c: nat)
    requires d < 32768
    ensures c < D_CODES
  {
    CodeIn(Distances, d)
  }

  function BaseDist(code: nat): nat
    requires code < D_CODES
  {
    FirstOf(Distances, code)
  }

  /** The greatest length, whose code has no extra bits. */
  lemma GreatestLength()
    ensures LengthCode(255) == 28 && ExtraL(28) == 0 && LExt(28) == 16 && LBase(28) == 258
  {
  }

  /** Code and extra bits of a length say what it is: the decoder's base plus the extra value gives it back. */
  lemma LengthBack(lc: nat)
    requires lc < 255
    ensures LengthCode(lc) < 28 && BaseLength(LengthCode(lc)) <= lc
    ensures lc - BaseLength(LengthCode(lc)) < Pow2(ExtraL(LengthCode(lc)))
    ensures LExt(LengthCode(lc)) == 16 + ExtraL(LengthCode(lc))
    ensures LBase(LengthCode(lc)) + (lc - BaseLength(LengthCode(lc))) == lc + 3
  {
    hide Pow2, FirstOf, CodeIn, ExtraL, LBase, LExt;
    CodeCovers(Lengths, lc);
    var c := CodeIn(Lengths, lc);
    FirstNext(Lengths, c);
    Firsts(Lengths, c);
    Operations(Lengths, c);
  }

  lemma DistBack(d: nat)
    requires d < 32768
    ensures BaseDist(DistCode(d)) <= d && d - BaseDist(DistCode(d)) < Pow2(ExtraD(DistCode(d)))
    ensures DExt(DistCode(d)) == 16 + ExtraD(DistCode(d)) && DBase(DistCode(d)) + (d - BaseDist(DistCode(d))) == d + 1
  {
    hide Pow2, FirstOf, CodeIn, ExtraD, DBase, DExt;
    CodeCovers(Distances, d);
    var c := CodeIn(Distances, d);
    FirstNext(Distances, c);
    Firsts(Distances, c);
    Operations(Distances, c);
  }

  // ---------- the tables ----------

  /** Enters one code for the 2^bits entries from at on. */
  method FillCode(table: array<int>, at: nat, code: nat, bits: nat) returns (next: nat)
    requires at + Pow2(bits) <= table.Length
    modifies table
    ensures next == at + Pow2(bits)
    ensures forall e :: at <= e < next ==> table[e] == code
    ensures forall e :: 0 <= e < table.Length && !(at <= e < next) ==> table[e] == old(table[e])
  {
    hide Pow2;
    next := at;
    var n := 0;
    while n < Pow2(bits)
      invariant 0 <= n <= Pow2(bits) && next == at + n
      invariant forall e :: at <= e < next ==> table[e] == code
      invariant forall e :: 0 <= e < table.Length && !(at <= e < next) ==> table[e] == old(table[e])
    {
      table[next] := code;
      next := next + 1;
      n := n + 1;
    }
  }

  /** tr_static_init for lengths: the code of every length, and the first length of every code. */
  method InitLengths() returns (lengthCode: array<int>, baseLength: array<int>)
    ensures fresh(lengthCode) && fresh(baseLength) && lengthCode.Length == 256 && baseLength.Length == LENGTH_CODES
    ensures forall lc :: 0 <= lc < 256 ==> lengthCode[lc] == LengthCode(lc)
    ensures forall c :: 0 <= c < LENGTH_CODES ==> baseLength[c] == BaseLength(c)
  {
    hide FirstOf, Pow2, LengthCode, CodeIn, ExtraL, FirstIs;
    lengthCode := new int[256](i => 0);
    baseLength := new int[LENGTH_CODES](i => 0);
    Ends();
    var length, code := 0, 0;
    FirstNext(Lengths, 0);
    while code < LENGTH_CODES - 1
      invariant 0 <= code <= LENGTH_CODES - 1 && length == FirstOf(Lengths, code) && baseLength[28] == 0
      invariant forall lc :: 0 <= lc < length && lc < 256 ==> Covers(Lengths, lengthCode[lc], lc)
      invariant forall c :: 0 <= c < code ==> baseLength[c] == FirstOf(Lengths, c)
    {
      baseLength[code] := length;
      FirstNext(Lengths, code);
      FirstRises(Lengths, code + 1, 28);
      length := FillCode(lengthCode, length, code, ExtraL(code));
      code := code + 1;
    }
    lengthCode[length - 1] := code;
    forall lc | 0 <= lc < 255
      ensures lengthCode[lc] == LengthCode(lc)
    {
      LengthCodeIs(lc, lengthCode[lc]);
    }
    GreatestLength();
  }

  lemma LengthCodeIs(lc: nat, code: int)
    requires lc < 255 && Covers(Lengths, code, lc)
    ensures code == LengthCode(lc)
  {
    hide FirstOf;
    CodeCovers(Lengths, lc);
    CodeUnique(Lengths, lc, code, LengthCode(lc));
  }

  /** tr_static_init for distances: up to 256 one entry for every distance, from there on one for every 128. */
  method InitDists() returns (distCode: array<int>, baseDist: array<int>)
    ensures fresh(distCode) && fresh(baseDist) && distCode.Length == 512 && baseDist.Length == D_CODES
    ensures forall d :: 0 <= d < 32768 ==> DCode(distCode[..], d) == DistCode(d)
    ensures forall c :: 0 <= c < D_CODES ==> baseDist[c] == BaseDist(c)
  {
    hide FirstOf, Pow2, DistCode, CodeIn, ExtraD, FirstIs;
    distCode := new int[512](i => 0);
    baseDist := new int[D_CODES](i => 0);
    FirstNext(Distances, 0);
    Ends();
    var dist, code := 0, 0;
    while code < 16
      invariant 0 <= code <= 16 && dist == FirstOf(Distances, code)
      invariant forall d :: 0 <= d < dist && d < 256 ==> Covers(Distances, distCode[d], d)
      invariant forall c :: 0 <= c < code ==> baseDist[c] == FirstOf(Distances, c)
    {
      baseDist[code] := dist;
      FirstNext(Distances, code);
      FirstRises(Distances, code + 1, 16);
      dist := FillCode(distCode, dist, code, ExtraD(code));
      code := code + 1;
    }
    dist := dist / 128;
    while code < D_CODES
      invariant 16 <= code <= D_CODES && 128 * dist == FirstOf(Distances, code)
      invariant forall d :: 0 <= d < 256 ==> Covers(Distances, distCode[d], d)
      invariant forall k :: 258 <= k < 256 + dist && k < 512 ==> CoversAll(distCode[k], k - 256)
      invariant forall c :: 0 <= c < code ==> baseDist[c] == FirstOf(Distances, c)
    {
      baseDist[code] := dist * 128;
      FirstNext(Distances, code);
      FirstRises(Distances, code + 1, 30);
      WideCode(code);
      var next := FillCode(distCode, 256 + dist, code, ExtraD(code) - 7);
      dist := next - 256;
      code := code + 1;
    }
    forall d | 0 <= d < 32768
      ensures DCode(distCode[..], d) == DistCode(d)
    {
      DistCodeIs(distCode[..], d);
    }
  }

  /** d_code: how a distance less one is looked up. */
  function DCode(table: seq<int>, d: nat): int
    requires |table| == 512 && d < 32768
  {
    if d < 256 then table[d] else table[256 + d / 128]
  }

  /** A code that covers the 128 distances of an entry. */
  ghost predicate CoversAll(code: int, e: nat) {
    0 <= code < D_CODES && FirstOf(Distances, code) <= 128 * e && 128 * e + 128 <= FirstOf(Distances, code + 1)
  }

  lemma WideCode(code: nat)
    requires 16 <= code < D_CODES
    ensures ExtraD(code) >= 7 && Pow2(ExtraD(code)) == 128 * Pow2(ExtraD(code) - 7)
  {
    hide Pow2;
    SmallPowers();
    Pow2Sum(7, ExtraD(code) - 7);
  }

  lemma DistCodeIs(table: seq<int>, d: nat)
    requires |table| == 512 && d < 32768
    requires forall d :: 0 <= d < 256 ==> Covers(Distances, table[d], d)
    requires forall k :: 258 <= k < 512 ==> CoversAll(table[k], k - 256)
    ensures DCode(table, d) == DistCode(d)
  {
    hide FirstOf;
    CodeCovers(Distances, d);
    if d >= 256 {
      var k := 256 + d / 128;
      assert CoversAll(table[k], k - 256);
    }
    CodeUnique(Distances, d, DCode(table, d), DistCode(d));
  }
}
