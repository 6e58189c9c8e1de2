/** The CRC of two strings together, from their CRCs and the length of the second: zero bytes applied by
    matrices over GF(2), squared from one bit of the length to the next. */
module CrcCombine {
  import opened Bytes
  import opened Bits
  import opened Word32
  import opened Crc32

  // ---------- matrices ----------

  /** gf2_matrix_times from column i on. */
  function Times(mat: seq<Word>, vec: Word, i: nat): Word
    requires |mat| == 32 && i <= 32
    decreases 32 - i
  {
    if i == 32 then Zero() else Xor(if Odd(vec) then mat[i] else Zero(), Times(mat, Half(vec), i + 1))
  }

  /** Column i of the matrix for n zero bits: what becomes of the i-th unit vector. */
  ghost predicate IsOperator(mat: seq<Word>, n: nat) {
    |mat| == 32 && forall i :: 0 <= i < 32 ==> mat[i] == Steps(n, Up(One(), i))
  }

  lemma UpOne(v: Word, i: nat)
    ensures Up(v, i) == Xor(Up(if Odd(v) then One() else Zero(), i), Up(Half(v), i + 1))
    ensures i >= 32 ==> Up(v, i) == Zero()
    ensures Up(Zero(), i) == Zero() && Up(v, 0) == v
  {
  }

  lemma StepZero()
    ensures Step(Zero()) == Zero()
  {
    assert Half(Zero()) == Zero();
  }

  lemma {:induction false} StepsZero(n: nat)
    ensures Steps(n, Zero()) == Zero()
  {
    hide Step;
    if n > 0 {
      StepZero();
      StepsZero(n - 1);
    }
  }

  /** A matrix with the right columns does to every vector what the register does. */
  lemma {:induction false} TimesIsSteps(mat: seq<Word>, n: nat, vec: Word, i: nat)
    requires IsOperator(mat, n) && i <= 32
    ensures Times(mat, vec, i) == Steps(n, Up(vec, i))
    decreases 32 - i
  {
    hide Steps, Xor, Half, Odd, Up;
    UpOne(vec, i);
    StepsZero(n);
    if i < 32 {
      TimesIsSteps(mat, n, Half(vec), i + 1);
      UpOne(One(), i);
      StepsLinear(n, Up(if Odd(vec) then One() else Zero(), i), Up(Half(vec), i + 1));
      UpOne(Zero(), i);
    }
  }

  /** The method's loop stops when no bits are left: the rest adds nothing. */
  lemma {:induction false} NothingLeft(mat: seq<Word>, i: nat)
    requires |mat| == 32 && i <= 32
    ensures Times(mat, Zero(), i) == Zero()
    decreases 32 - i
  {
    hide Xor;
    if i < 32 {
      assert Half(Zero()) == Zero();
      NothingLeft(mat, i + 1);
      XorZero(Zero());
    }
  }

  /** Bits i.. of a word shifted down i times are what is left. */
  ghost predicate Short(vec: Word, i: nat) {
    forall k :: 0 <= k < 32 && 32 - i <= k ==> !vec[k]
  }

  lemma ShortHalf(vec: Word, i: nat)
    requires Short(vec, i)
    ensures Short(Half(vec), i + 1)
    ensures i >= 32 ==> vec == Zero()
  {
  }

  method MatrixTimes(mat: seq<Word>, vec0: Word) returns (sum: Word)
    requires |mat| == 32
    ensures sum == Times(mat, vec0, 0)
  {
    hide Xor, Half, Odd, Short;
    sum := Zero();
    var vec, i := vec0, 0;
    XorZero(Times(mat, vec0, 0));
    AllShort(vec0);
    while vec != Zero()
      invariant 0 <= i <= 32 && Short(vec, i)
      invariant Xor(sum, Times(mat, vec, i)) == Times(mat, vec0, 0)
      decreases 32 - i
    {
      ShortHalf(vec, i);
      var column := if Odd(vec) then mat[i] else Zero();
      XorAssoc(sum, column, Times(mat, Half(vec), i + 1));
      XorZero(sum);
      if Odd(vec) {
        sum := Xor(sum, mat[i]);
      }
      vec := Half(vec);
      i := i + 1;
    }
    NothingLeft(mat, i);
    XorZero(sum);
  }

  lemma AllShort(vec: Word)
    ensures Short(vec, 0)
  {
  }

  method MatrixSquare(mat: seq<Word>, ghost n: nat) returns (square: seq<Word>)
    requires IsOperator(mat, n)
    ensures IsOperator(square, 2 * n)
  {
    hide Steps, Times, Up;
    square := [];
    var k := 0;
    while k < 32
      invariant 0 <= k <= 32 && |square| == k
      invariant forall i :: 0 <= i < k ==> square[i] == Steps(2 * n, Up(One(), i))
    {
      TimesIsSteps(mat, n, mat[k], 0);
      UpOne(mat[k], 0);
      StepsAdd(n, n, Up(One(), k));
      var column := MatrixTimes(mat, mat[k]);
      square := square + [column];
      k := k + 1;
    }
  }

  /** The operator for one zero bit: the polynomial, then the unit vectors. */
  method OneBitOperator() returns (odd: seq<Word>)
    ensures IsOperator(odd, 1)
  {
    hide Poly, BitsOf, Xor;
    odd := [Poly()];
    var row := One();
    FirstColumn();
    var n := 1;
    while n < 32
      invariant 1 <= n <= 32 && |odd| == n && row == Up(One(), n - 1)
      invariant forall i :: 0 <= i < n ==> odd[i] == Steps(1, Up(One(), i))
    {
      UnitColumn(n);
      odd := odd + [row];
      row := Twice(row);
      n := n + 1;
    }
  }

  lemma FirstColumn()
    ensures Steps(1, Up(One(), 0)) == Poly() && Up(One(), 0) == One()
  {
    hide Poly, BitsOf;
    OneStep(One());
    assert Half(One()) == Zero();
    assert Up(One(), 0) == One();
    XorZero(Poly());
  }

  lemma UnitColumn(n: nat)
    requires 1 <= n < 32
    ensures Steps(1, Up(One(), n)) == Up(One(), n - 1) && Twice(Up(One(), n - 1)) == Up(One(), n)
  {
    hide Poly, BitsOf, Xor;
    OneStep(Up(One(), n));
    assert Half(Up(One(), n)) == Up(One(), n - 1);
    assert Twice(Up(One(), n - 1)) == Up(One(), n);
  }

  // ---------- combination ----------

  /** The register is affine in its start: a difference at the start comes out after 8 steps a byte. */
  lemma {:induction false} RegisterAffine(c: Word, d: Word, s: seq<int>)
    requires IsBytes(s)
    ensures Register(Xor(c, d), s) == Xor(Register(c, s), Steps(8 * |s|, d))
    decreases |s|
  {
    hide Register, EnterByte, Steps, Xor;
    if s == [] {
      RegisterNone(c);
      RegisterNone(Xor(c, d));
      NoSteps(d);
    } else {
      var u, b := s[..|s|-1], s[|s|-1];
      assert s == u + [b];
      RegisterAffine(c, d, u);
      RegisterNext(c, u, b);
      RegisterNext(Xor(c, d), u, b);
      ByteAffine(Register(c, u), Steps(8 * |u|, d), b);
      StepsAdd(8 * |u|, 8, d);
    }
  }

  lemma ByteAffine(c: Word, d: Word, b: int)
    requires 0 <= b < 256
    ensures EnterByte(Xor(c, d), b) == Xor(EnterByte(c, b), Steps(8, d))
  {
    hide Steps, Xor, OfByte;
    var w := OfByte(b);
    XorAssoc(c, d, w);
    XorComm(d, w);
    XorAssoc(c, w, d);
    StepsLinear(8, Xor(c, w), d);
  }

  /** The CRC of a concatenation: the first CRC carried past the second string, plus the second CRC. */
  lemma CombineIsConcat(s: seq<int>, t: seq<int>)
    requires IsBytes(s) && IsBytes(t)
    ensures IsBytes(s + t)
    ensures Crc(Zero(), s + t) == Xor(Steps(8 * |t|, Crc(Zero(), s)), Crc(Zero(), t))
  {
    hide Register, Steps, Xor, Not;
    CrcConcat(Zero(), s, t);
    var ones, a := Not(Zero()), Crc(Zero(), s);
    XorZero(a);
    NotXor(Zero(), a);
    assert Not(a) == Xor(ones, a);
    RegisterAffine(ones, a, t);
    var rt, d := Register(ones, t), Steps(8 * |t|, a);
    NotXor(rt, d);
    XorComm(Not(rt), d);
  }

  /** The zero bits that len2 times unit bytes make. */
  function Span(unit: nat, len2: nat): nat {
    8 * unit * len2
  }

  lemma SpanEven(unit: nat, q: nat)
    ensures Span(unit, 2 * q) == Span(2 * unit, q)
  {
  }

  lemma SpanOdd(unit: nat, q: nat)
    ensures Span(unit, 2 * q + 1) == 8 * unit + Span(2 * unit, q)
  {
  }

  lemma SpanEnds(unit: nat, len2: nat)
    ensures Span(unit, 0) == 0 && Span(1, len2) == 8 * len2
  {
  }

  lemma Halve(len2: nat, unit: nat, crc: Word)
    ensures len2 % 2 == 0 ==> Steps(Span(unit, len2), crc) == Steps(Span(2 * unit, len2 / 2), crc)
    ensures len2 % 2 == 1 ==> Steps(Span(unit, len2), crc) == Steps(Span(2 * unit, len2 / 2), Steps(8 * unit, crc))
  {
    hide Steps, Span;
    var q := len2 / 2;
    if len2 % 2 == 1 {
      SpanOdd(unit, q);
      StepsAdd(8 * unit, Span(2 * unit, q), crc);
    } else {
      SpanEven(unit, q);
    }
  }

  /** One bit of the length: the operator for unit bytes, from the one for half as many bits. */
  method ApplyBit(mat: seq<Word>, crc0: Word, len2: nat, ghost unit: nat)
    returns (square: seq<Word>, crc: Word, rest: nat)
    requires IsOperator(mat, 4 * unit)
    ensures IsOperator(square, 4 * (2 * unit)) && rest == len2 / 2
    ensures Steps(Span(2 * unit, rest), crc) == Steps(Span(unit, len2), crc0)
  {
    hide Steps, Times, Xor, IsOperator, Up, Span;
    square := MatrixSquare(mat, 4 * unit);
    crc := crc0;
    Halve(len2, unit, crc0);
    TimesIsSteps(square, 8 * unit, crc0, 0);
    UpOne(crc0, 0);
    OperatorSize(square, 8 * unit);
    if len2 % 2 == 1 {
      crc := MatrixTimes(square, crc0);
    }
    rest := len2 / 2;
  }

  lemma OperatorSize(mat: seq<Word>, n: nat)
    requires IsOperator(mat, n)
    ensures |mat| == 32
  {
  }

  /** crc32_combine_: applies len2 zero bytes to the first CRC and adds the second. */
  method Combine(crc1: Word, crc2: Word, len2: int) returns (crc: Word)
    ensures len2 <= 0 ==> crc == crc1
    ensures len2 > 0 ==> crc == Xor(Steps(8 * len2, crc1), crc2)
    ensures forall s: seq<int>, t: seq<int> ::
              IsBytes(s) && IsBytes(t) && |t| == len2 && crc1 == Crc(Zero(), s) && crc2 == Crc(Zero(), t) ==>
              IsBytes(s + t) && crc == Crc(Zero(), s + t)
  {
    hide Steps, Times, Xor, IsOperator, Up, Crc, Span;
    SpanEnds(1, if len2 < 0 then 0 else len2);
    crc := crc1;
    if len2 <= 0 {
      assert forall s: seq<int>, t: seq<int> :: |t| == 0 ==> s + t == s;
      return;
    }
    var odd := OneBitOperator();
    var even := MatrixSquare(odd, 1);
    odd := MatrixSquare(even, 2);
    ghost var unit: nat := 1;
    var rest: nat := len2;
    while true
      invariant rest > 0 && IsOperator(odd, 4 * unit)
      invariant Steps(Span(unit, rest), crc) == Steps(8 * len2, crc1)
      decreases rest
    {
      even, crc, rest := ApplyBit(odd, crc, rest, unit);
      unit := 2 * unit;
      if rest == 0 {
        break;
      }
      odd, crc, rest := ApplyBit(even, crc, rest, unit);
      unit := 2 * unit;
      if rest == 0 {
        break;
      }
    }
    SpanEnds(unit, 0);
    NoSteps(crc);
    crc := Xor(crc, crc2);
    forall s: seq<int>, t: seq<int> | IsBytes(s) && IsBytes(t) && |t| == len2 && crc1 == Crc(Zero(), s) &&
        crc2 == Crc(Zero(), t)
      ensures IsBytes(s + t) && crc == Crc(Zero(), s + t)
    {
      CombineIsConcat(s, t);
    }
  }
}
