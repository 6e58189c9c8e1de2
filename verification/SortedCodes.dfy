/** The canonical code in the order of its codewords: symbols sorted by length, each codeword the successor of
    the one before it. */
module SortedCodes {
  import opened Bits
  import opened BitIO
  import opened Canonical

  const MAXBITS := 15

  /** Lengths in rising order. */
  ghost predicate Rising(l: seq<int>) {
    && (forall i :: 0 <= i < |l| ==> 1 <= l[i] <= MAXBITS)
    && forall i, j :: 0 <= i <= j < |l| ==> l[i] <= l[j]
  }

  /** Not more codewords than there is room for. */
  ghost predicate Subscribed(l: seq<int>) {
    Rising(l) && Kraft(l, MAXBITS) <= Pow2(MAXBITS)
  }

  /** The k-th codeword's number: what the codewords before it use up. */
  function Number(l: seq<int>, k: nat): nat
    requires k < |l| && 0 <= l[k]
  {
    Kraft(l[..k], l[k])
  }

  lemma NumberIs(l: seq<int>, k: nat)
    requires k < |l| && 0 <= l[k]
    ensures Number(l, k) == Kraft(l[..k], l[k])
  {
  }

  function Word(l: seq<int>, k: nat): (c: seq<bool>)
    requires k < |l| && 0 <= l[k]
    ensures |c| == l[k]
  {
    ToBits(Number(l, k), l[k])
  }

  lemma {:induction false} KraftAppend(l: seq<int>, k: nat, n: nat)
    requires k < |l|
    ensures Kraft(l[..k + 1], n) == Kraft(l[..k], n) + (if 0 <= l[k] <= n then Pow2(n - l[k]) else 0)
  {
    assert l[..k + 1][..k] == l[..k];
  }

  lemma {:induction false} KraftPrefix(l: seq<int>, k: nat, n: nat)
    requires k <= |l|
    ensures Kraft(l[..k], n) <= Kraft(l, n)
    decreases |l| - k
  {
    if k == |l| {
      assert l[..k] == l;
    } else {
      KraftPrefix(l, k + 1, n);
      KraftAppend(l, k, n);
    }
  }

  /** When no length exceeds n, longer strings only scale the sum. */
  lemma {:induction false} KraftExact(l: seq<int>, n: nat, m: nat)
    requires n <= m && forall i :: 0 <= i < |l| ==> 0 <= l[i] <= n
    ensures Kraft(l, m) == Kraft(l, n) * Pow2(m - n)
  {
    hide Pow2;
    if l != [] {
      var k := |l| - 1;
      KraftExact(l[..k], n, m);
      Pow2Sum(n - l[k], m - n);
      assert n - l[k] + (m - n) == m - l[k];
      Spread(Kraft(l[..k], n), Pow2(n - l[k]), Pow2(m - n));
    } else {
      assert 0 * Pow2(m - n) == 0;
    }
  }

  lemma NumberFits(l: seq<int>, k: nat)
    requires Subscribed(l) && k < |l|
    ensures Number(l, k) < Pow2(l[k])
  {
    hide Kraft, Pow2;
    KraftAppend(l, k, l[k]);
    KraftPrefix(l, k + 1, MAXBITS);
    KraftLevel(l[..k + 1], l[k], MAXBITS);
    Pow2Step(0);
  }

  /** The next codeword's number is the successor, extended by zeros. */
  lemma NumberNext(l: seq<int>, k: nat)
    requires Rising(l) && k + 1 < |l|
    ensures Number(l, k + 1) == (Number(l, k) + 1) * Pow2(l[k + 1] - l[k])
  {
    hide Kraft, Pow2;
    KraftAppend(l, k, l[k]);
    Pow2Step(0);
    KraftExact(l[..k + 1], l[k], l[k + 1]);
  }

  /** Cut to the length of an earlier codeword, a later one lies above it. */
  lemma NumberAbove(l: seq<int>, j: nat, k: nat)
    requires Rising(l) && j < k < |l|
    ensures (Number(l, j) + 1) * Pow2(l[k] - l[j]) <= Number(l, k)
  {
    hide Kraft, Pow2;
    KraftAppend(l, j, l[j]);
    Pow2Step(0);
    KraftExact(l[..j + 1], l[j], l[k]);
    assert l[..k][..j + 1] == l[..j + 1];
    KraftPrefix(l[..k], j + 1, l[k]);
  }

  /** A codeword cut to n bits. */
  lemma WordPrefix(l: seq<int>, k: nat, n: nat)
    requires Subscribed(l) && k < |l| && n <= l[k]
    ensures FromBits(Word(l, k)[..n]) == Number(l, k) / Pow2(l[k] - n)
  {
    hide Kraft, Pow2, Number, ToBits, FromBits;
    NumberFits(l, k);
    ToBitsPrefix(Number(l, k), l[k], n);
  }

  /** No codeword begins a later one. */
  lemma WordsApart(l: seq<int>, j: nat, k: nat)
    requires Subscribed(l) && j < k < |l|
    ensures l[j] <= l[k] && Word(l, k)[..l[j]] != Word(l, j)
  {
    hide Kraft, Pow2, Number, ToBits, FromBits;
    NumberAbove(l, j, k);
    WordPrefix(l, k, l[j]);
    WordPrefix(l, j, l[j]);
    Pow2Step(0);
    QuotAtLeast(Number(l, k), Pow2(l[k] - l[j]), Number(l, j) + 1);
    assert Word(l, j)[..l[j]] == Word(l, j);
    OverOne(Number(l, j));
  }

  lemma OverOne(v: nat)
    ensures v / 1 == v
  {
  }

  lemma QuotAtLeast(a: nat, p: nat, q: nat)
    requires p >= 1 && q * p <= a
    ensures a / p >= q
  {
    DivMod(a, p);
    if a / p < q {
      MulGap(p, a / p, q);
    }
  }

  /** The first n bits of the codewords never fall. */
  lemma PrefixRises(l: seq<int>, j: nat, k: nat, n: nat)
    requires Subscribed(l) && j <= k < |l| && n <= l[j]
    ensures n <= l[k] && FromBits(Word(l, j)[..n]) <= FromBits(Word(l, k)[..n])
  {
    hide Kraft, Pow2, Number, ToBits, FromBits;
    WordPrefix(l, j, n);
    WordPrefix(l, k, n);
    if j < k {
      NumberAbove(l, j, k);
      var p, q := Pow2(l[j] - n), Pow2(l[k] - l[j]);
      Pow2Sum(l[j] - n, l[k] - l[j]);
      assert l[j] - n + (l[k] - l[j]) == l[k] - n;
      var a := Number(l, j) / p;
      DivMod(Number(l, j), p);
      ScaledQuot(Number(l, j), Number(l, k), p, q, a);
    }
  }

  lemma ScaledQuot(x: nat, y: nat, p: nat, q: nat, a: nat)
    requires p >= 1 && q >= 1 && p * a <= x && (x + 1) * q <= y
    ensures p * q >= 1 && a <= y / (p * q)
  {
    MulMono(p * a, x + 1, q);
    MulSwap(p, a);
    MulAssoc(a, p, q);
    MulMono(1, p, q);
    QuotAtLeast(y, p * q, a);
  }
}
