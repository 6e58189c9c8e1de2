/** Stepping from one codeword to the next while holding the codeword backwards in an integer. */
module HuffStep {
  import opened Bits
  import opened BitIO
  import opened Canonical
  import opened SortedCodes

  function Zeros(n: nat): (s: seq<bool>)
    ensures |s| == n
  {
    seq(n, i => false)
  }

  predicate AllTrue(c: seq<bool>) {
    forall i :: 0 <= i < |c| ==> c[i]
  }

  /** The next string of the same length; all ones start over. */
  function Succ(c: seq<bool>): (r: seq<bool>)
    ensures |r| == |c|
  {
    if c == [] then []
    else if !c[|c|-1] then c[..|c|-1] + [true]
    else Succ(c[..|c|-1]) + [false]
  }

  lemma SuccAppend(u: seq<bool>, b: bool)
    ensures Succ(u + [b]) == (if b then Succ(u) + [false] else u + [true])
    ensures AllTrue(u + [b]) == (AllTrue(u) && b)
  {
    var c := u + [b];
    assert c[..|c|-1] == u && c[|u|] == b;
    if AllTrue(c) {
      forall i | 0 <= i < |u|
        ensures u[i]
      {
        assert c[i];
      }
    }
  }

  lemma Pow2Of(n: nat)
    ensures n > 0 ==> Pow2(n) == 2 * Pow2(n - 1)
    ensures Pow2(0) == 1 && FromBits([]) == 0 && AllTrue([])
  {
  }

  lemma {:induction false} SuccNumber(c: seq<bool>)
    ensures AllTrue(c) ==> FromBits(c) + 1 == Pow2(|c|)
    ensures !AllTrue(c) ==> FromBits(Succ(c)) == FromBits(c) + 1 && FromBits(c) + 1 < Pow2(|c|)
  {
    hide Succ, FromBits, Pow2, AllTrue;
    Pow2Of(|c|);
    if c != [] {
      var u, b := c[..|c|-1], c[|c|-1];
      assert c == u + [b];
      SuccNumber(u);
      SuccAppend(u, b);
      FromBitsBound(u);
      FromBitsAppend(u, b);
      FromBitsAppend(u, true);
      FromBitsAppend(Succ(u), false);
    }
  }

  /** Behind the last zero there are only ones: it becomes a one and they become zeros. */
  lemma {:induction false} SuccAt(c: seq<bool>, j: nat)
    requires j < |c| && !c[j] && AllTrue(c[j + 1..])
    ensures Succ(c) == c[..j] + [true] + Zeros(|c| - 1 - j)
    decreases |c|
  {
    var n := |c| - 1;
    if j == n {
      assert Zeros(0) == [];
    } else {
      assert c[j + 1..][n - j - 1] == c[n];
      assert c[..n][j + 1..] == c[j + 1..][..n - j - 1];
      SuccAt(c[..n], j);
      assert c[..n][..j] == c[..j];
      assert Zeros(n - 1 - j) + [false] == Zeros(n - j);
    }
  }

  lemma {:induction false} SuccOnes(c: seq<bool>)
    requires AllTrue(c)
    ensures Succ(c) == Zeros(|c|)
  {
    if c != [] {
      SuccOnes(c[..|c|-1]);
      assert Zeros(|c| - 1) + [false] == Zeros(|c|);
    }
  }

  /** One bit of a number held lowest first, and what lies below it. */
  lemma ValueAt(c: seq<bool>, j: nat)
    requires j < |c|
    ensures (Value(c) / Pow2(j) % 2 == 1) == c[j]
    ensures Value(c) % Pow2(j) == Value(c[..j])
  {
    hide Value, Pow2;
    assert c == c[..j] + c[j..];
    ValueConcat(c[..j], c[j..]);
    ValueBound(c[..j]);
    ValueFirst(c[j..]);
    DivUnique(Value(c), Pow2(j), Value(c[j..]), Value(c[..j]));
  }

  lemma ValueFirst(c: seq<bool>)
    requires c != []
    ensures Value(c) % 2 == if c[0] then 1 else 0
  {
  }

  /** Trailing zeros do not change the number. */
  lemma ValueExtended(c: seq<bool>, n: nat)
    ensures Value(c + Zeros(n)) == Value(c)
  {
    hide Value, Pow2;
    ValueConcat(c, Zeros(n));
    ValueZeros(n);
    assert Zeros(n) == seq(n, i => false);
    assert Pow2(|c|) * 0 == 0;
  }

  lemma ValueStopped(c: seq<bool>, j: nat)
    requires j < |c| && !c[j] && AllTrue(c[j + 1..])
    ensures Value(Succ(c)) == Value(c[..j]) + Pow2(j)
  {
    hide Value, Pow2;
    SuccAt(c, j);
    ValueExtended(c[..j] + [true], |c| - 1 - j);
    ValueConcat(c[..j], [true]);
    ValueOne();
    assert Pow2(j) * 1 == Pow2(j);
  }

  lemma ValueOne()
    ensures Value([true]) == 1 && Value([]) == 0
  {
    assert [true][1..] == [];
  }

  lemma HalvePow(j: nat)
    ensures j > 0 ==> Pow2(j) / 2 == Pow2(j - 1)
    ensures Pow2(0) / 2 == 0
  {
  }

  /** Backwards increment of a codeword of len bits. */
  method Increment(huff: nat, len: nat, ghost c: seq<bool>) returns (r: nat)
    requires len >= 1 && |c| == len && huff == Value(c)
    ensures r == Value(Succ(c))
  {
    hide Value, Pow2, Succ;
    var incr := Pow2(len - 1);
    ghost var j := len - 1;
    while incr != 0 && huff / incr % 2 == 1
      invariant -1 <= j < len && incr == (if j < 0 then 0 else Pow2(j)) && AllTrue(c[j + 1..])
      decreases incr
    {
      ValueAt(c, j);
      assert c[j..] == [c[j]] + c[j + 1..];
      HalvePow(j);
      incr := incr / 2;
      j := j - 1;
    }
    if incr != 0 {
      ValueAt(c, j);
      ValueStopped(c, j);
      r := huff % incr;
      r := r + incr;
    } else {
      assert c[0..] == c;
      SuccOnes(c);
      ValueZeros(len);
      assert Zeros(len) == seq(len, i => false);
      r := 0;
    }
  }

  // ---------- from codeword to codeword ----------

  /** The next codeword is the successor followed by zeros. */
  lemma WordNext(l: seq<int>, k: nat)
    requires Subscribed(l) && k + 1 < |l|
    ensures l[k] <= l[k + 1] && Word(l, k + 1) == Succ(Word(l, k)) + Zeros(l[k + 1] - l[k])
    ensures !AllTrue(Word(l, k))
  {
    hide Kraft, Pow2, Number, ToBits, FromBits, Succ, Value;
    var w, d := Word(l, k), l[k + 1] - l[k];
    NumberNext(l, k);
    NumberFits(l, k);
    NumberFits(l, k + 1);
    BitsRoundTrip(Number(l, k), l[k]);
    SuccNumber(w);
    Pow2Sum(l[k], d);
    assert l[k] + d == l[k + 1];
    FromBitsConcat(Succ(w), Zeros(d));
    NoNumber(d);
    if !AllTrue(w) {
      NumberRoundTrip(Succ(w) + Zeros(d));
    }
  }

  lemma {:induction false} NoNumber(n: nat)
    ensures FromBits(Zeros(n)) == 0
  {
    if n > 0 {
      NoNumber(n - 1);
      assert Zeros(n)[..n-1] == Zeros(n - 1);
    }
  }

  /** Held backwards, the next codeword is just the increment. */
  lemma ValueNext(l: seq<int>, k: nat)
    requires Subscribed(l) && k + 1 < |l|
    ensures Value(Word(l, k + 1)) == Value(Succ(Word(l, k)))
  {
    hide Kraft, Pow2, Number, ToBits, Succ, Value;
    WordNext(l, k);
    ValueExtended(Succ(Word(l, k)), l[k + 1] - l[k]);
  }

  /** The last codeword of a complete code is all ones, and only then. */
  lemma LastWord(l: seq<int>)
    requires Subscribed(l) && l != []
    ensures AllTrue(Word(l, |l| - 1)) == (Kraft(l, MAXBITS) == Pow2(MAXBITS))
  {
    hide Kraft, Pow2, ToBits, FromBits, Succ, Value;
    var k := |l| - 1;
    var w := Word(l, k);
    assert l[..k + 1] == l;
    KraftAppend(l, k, l[k]);
    Pow2Step(0);
    KraftExact(l, l[k], MAXBITS);
    Pow2Sum(l[k], MAXBITS - l[k]);
    assert l[k] + (MAXBITS - l[k]) == MAXBITS;
    NumberFits(l, k);
    BitsRoundTrip(Number(l, k), l[k]);
    SuccNumber(w);
    CancelEqual(Kraft(l, l[k]), Pow2(l[k]), Pow2(MAXBITS - l[k]));
  }

  lemma CancelEqual(x: nat, y: nat, p: nat)
    requires p >= 1
    ensures x * p == y * p <==> x == y
  {
    if x < y {
      MulGap(p, x, y);
      MulSwap(p, x);
      MulSwap(p, y);
    } else if y < x {
      MulGap(p, y, x);
      MulSwap(p, x);
      MulSwap(p, y);
    }
  }
}
