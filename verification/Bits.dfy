/** Bit strings, most significant bit first, and the numbers they spell. */
module Bits {

  function Pow2(k: nat): (r: nat)
    ensures r >= 1
  {
    if k == 0 then 1 else 2 * Pow2(k - 1)
  }

  lemma SmallPowers()
    ensures Pow2(0) == 1 && Pow2(1) == 2 && Pow2(2) == 4 && Pow2(3) == 8 && Pow2(4) == 16 && Pow2(5) == 32
    ensures Pow2(6) == 64 && Pow2(7) == 128 && Pow2(8) == 256 && Pow2(9) == 512 && Pow2(10) == 1024
    ensures Pow2(11) == 2048 && Pow2(12) == 4096 && Pow2(13) == 8192 && Pow2(14) == 16384 && Pow2(15) == 32768
  {
    assert Pow2(5) == 32;
    assert Pow2(10) == 1024;
  }

  lemma {:induction false} Pow2Sum(a: nat, b: nat)
    ensures Pow2(a + b) == Pow2(a) * Pow2(b)
    decreases b
  {
    if b > 0 {
      Pow2Sum(a, b - 1);
      calc {
        Pow2(a + b);
        2 * Pow2(a + (b - 1));
        2 * (Pow2(a) * Pow2(b - 1));
        Pow2(a) * (2 * Pow2(b - 1));
        Pow2(a) * Pow2(b);
      }
    }
  }

  lemma {:induction false} Pow2Monotone(a: nat, b: nat)
    requires a <= b
    ensures Pow2(a) <= Pow2(b)
    decreases b - a
  {
    if a < b {
      Pow2Monotone(a, b - 1);
    }
  }

  /** The low n bits of v. */
  function ToBits(v: nat, n: nat): (s: seq<bool>)
    ensures |s| == n
  {
    if n == 0 then [] else ToBits(v / 2, n - 1) + [v % 2 == 1]
  }

  function Bit(b: bool): nat {
    if b then 1 else 0
  }

  /** The number a bit string spells. */
  function FromBits(s: seq<bool>): nat {
    if s == [] then 0 else 2 * FromBits(s[..|s|-1]) + Bit(s[|s|-1])
  }

  lemma {:induction false} FromBitsBound(s: seq<bool>)
    ensures FromBits(s) < Pow2(|s|)
  {
    if s != [] {
      FromBitsBound(s[..|s|-1]);
    }
  }

  lemma FromBitsAppend(s: seq<bool>, b: bool)
    ensures FromBits(s + [b]) == 2 * FromBits(s) + Bit(b)
  {
    assert (s + [b])[..|s|] == s;
  }

  lemma {:induction false} FromBitsConcat(s: seq<bool>, t: seq<bool>)
    ensures FromBits(s + t) == FromBits(s) * Pow2(|t|) + FromBits(t)
    decreases |t|
  {
    if t == [] {
      assert s + t == s;
    } else {
      var u, b := t[..|t|-1], t[|t|-1];
      FromBitsConcat(s, u);
      assert s + t == (s + u) + [b];
      FromBitsAppend(s + u, b);
      ConcatArith(FromBits(s), Pow2(|u|), FromBits(u), Bit(b));
    }
  }

  lemma ConcatArith(x: nat, p: nat, y: nat, b: nat)
    ensures 2 * (x * p + y) + b == x * (2 * p) + (2 * y + b)
  {
  }

  /** Numbers that fit come back from their bits. */
  lemma {:induction false} BitsRoundTrip(v: nat, n: nat)
    requires v < Pow2(n)
    ensures FromBits(ToBits(v, n)) == v
    decreases n
  {
    if n > 0 {
      BitsRoundTrip(v / 2, n - 1);
      FromBitsAppend(ToBits(v / 2, n - 1), v % 2 == 1);
    }
  }

  /** Bit strings come back from their numbers. */
  lemma {:induction false} NumberRoundTrip(s: seq<bool>)
    ensures ToBits(FromBits(s), |s|) == s
  {
    if s != [] {
      NumberRoundTrip(s[..|s|-1]);
    }
  }

  /** A prefix of a number's bits spells the number without its low bits. */
  lemma {:induction false} ToBitsPrefix(v: nat, n: nat, k: nat)
    requires v < Pow2(n) && k <= n
    ensures FromBits(ToBits(v, n)[..k]) == v / Pow2(n - k)
    decreases n
  {
    if k == n {
      BitsRoundTrip(v, n);
      assert ToBits(v, n)[..n] == ToBits(v, n);
    } else {
      ToBitsPrefix(v / 2, n - 1, k);
      assert ToBits(v, n)[..k] == ToBits(v / 2, n - 1)[..k];
      DivTwice(v, Pow2(n - 1 - k));
    }
  }

  lemma DivTwice(v: nat, p: nat)
    requires p >= 1
    ensures v / 2 / p == v / (2 * p)
  {
    var q := v / (2 * p);
    var r := v % (2 * p);
    assert v == (2 * p) * q + r;
    assert v / 2 == p * q + r / 2;
    assert 0 <= r / 2 < p;
    DivUnique(v / 2, p, q, r / 2);
  }

  lemma DivUnique(a: nat, p: nat, q: nat, r: nat)
    requires p >= 1 && a == p * q + r && r < p
    ensures a / p == q && a % p == r
  {
    DivMod(a, p);
    SameQuotient(p, a / p, q, a % p, r);
  }

  lemma DivMod(a: nat, p: nat)
    requires p >= 1
    ensures a == p * (a / p) + a % p && 0 <= a % p < p
  {
  }

  lemma SameQuotient(p: nat, x: int, y: int, r: nat, t: nat)
    requires p * x + r == p * y + t && r < p && t < p
    ensures x == y && r == t
  {
    if x < y {
      MulGap(p, x, y);
    } else if y < x {
      MulGap(p, y, x);
    }
  }

  lemma {:induction false} MulGap(p: nat, x: int, y: int)
    requires x < y
    ensures p * x + p <= p * y
    decreases y - x
  {
    assert p * y == p * (y - 1) + p;
    if x < y - 1 {
      MulGap(p, x, y - 1);
    }
  }

  /** All bits of a byte string. */
  function BytesToBits(s: seq<int>): (b: seq<bool>)
    requires forall i :: 0 <= i < |s| ==> 0 <= s[i] < 256
    ensures |b| == 8 * |s|
  {
    if s == [] then [] else BytesToBits(s[..|s|-1]) + ToBits(s[|s|-1], 8)
  }

  // ---------- lowest bit first ----------

  /** The number whose bits these are, lowest first. */
  function Value(s: seq<bool>): (v: nat)
    ensures s == [] ==> v == 0
  {
    if s == [] then 0 else (if s[0] then 1 else 0) + 2 * Value(s[1..])
  }

  /** The low n bits of v, lowest first. */
  function BitsOf(v: nat, n: nat): (s: seq<bool>)
    ensures |s| == n
  {
    if n == 0 then [] else [v % 2 == 1] + BitsOf(v / 2, n - 1)
  }

  lemma {:induction false} ValueBits(s: seq<bool>)
    ensures BitsOf(Value(s), |s|) == s
  {
    if s != [] {
      ValueBits(s[1..]);
    }
  }

  lemma {:induction false} ValueBound(s: seq<bool>)
    ensures Value(s) < Pow2(|s|)
  {
    if s != [] {
      ValueBound(s[1..]);
    }
  }

  lemma {:induction false} BitsOfValue(v: nat, n: nat)
    requires v < Pow2(n)
    ensures Value(BitsOf(v, n)) == v
    decreases n
  {
    if n > 0 {
      BitsOfValue(v / 2, n - 1);
      assert BitsOf(v, n)[1..] == BitsOf(v / 2, n - 1);
    }
  }

  lemma {:induction false} ValueConcat(s: seq<bool>, t: seq<bool>)
    ensures Value(s + t) == Value(s) + Pow2(|s|) * Value(t)
    decreases |s|
  {
    if s == [] {
      assert s + t == t;
    } else {
      ValueConcat(s[1..], t);
      assert (s + t)[1..] == s[1..] + t;
      JoinArith(Value(s[1..]), Pow2(|s| - 1), Value(t));
    }
  }

  lemma JoinArith(x: nat, p: nat, y: nat)
    ensures 2 * (x + p * y) == 2 * x + 2 * p * y
  {
  }

  /** Equal numbers of equal width are equal strings. */
  lemma ValueInjective(s: seq<bool>, t: seq<bool>)
    requires |s| == |t| && Value(s) == Value(t)
    ensures s == t
  {
    ValueBits(s);
    ValueBits(t);
  }

  lemma {:induction false} ValueZeros(n: nat)
    ensures Value(seq(n, i => false)) == 0
  {
    if n > 0 {
      ValueZeros(n - 1);
      assert seq(n, i => false)[1..] == seq(n - 1, i => false);
    }
  }

  /** A number held lowest bit first, cut in two. */
  lemma ValueCut(c: seq<bool>, n: nat)
    requires n <= |c|
    ensures Value(c) / Pow2(n) == Value(c[n..]) && Value(c) % Pow2(n) == Value(c[..n])
  {
    hide Value, Pow2;
    assert c == c[..n] + c[n..];
    ValueConcat(c[..n], c[n..]);
    ValueBound(c[..n]);
    DivUnique(Value(c), Pow2(n), Value(c[n..]), Value(c[..n]));
  }

  /** The bits of a byte string, every byte lowest bit first. */
  function LowBits(s: seq<int>): (b: seq<bool>)
    requires forall i :: 0 <= i < |s| ==> 0 <= s[i] < 256
    ensures |b| == 8 * |s|
  {
    if s == [] then [] else LowBits(s[..|s|-1]) + BitsOf(s[|s|-1], 8)
  }

  lemma LowBitsAppend(s: seq<int>, c: int)
    requires (forall i :: 0 <= i < |s| ==> 0 <= s[i] < 256) && 0 <= c < 256
    ensures LowBits(s + [c]) == LowBits(s) + BitsOf(c, 8)
  {
    assert (s + [c])[..|s|] == s;
  }

  lemma {:induction false} LowBitsPrepend(c: int, s: seq<int>)
    requires (forall i :: 0 <= i < |s| ==> 0 <= s[i] < 256) && 0 <= c < 256
    ensures LowBits([c] + s) == BitsOf(c, 8) + LowBits(s)
    decreases |s|
  {
    if s == [] {
      assert [c] + s == [] + [c];
      LowBitsAppend([], c);
    } else {
      var n := |s| - 1;
      LowBitsPrepend(c, s[..n]);
      assert [c] + s == ([c] + s[..n]) + [s[n]];
      LowBitsAppend([c] + s[..n], s[n]);
    }
  }
}
