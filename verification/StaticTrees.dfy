/** The trees of blocks without trees of their own (section 3.2.6 of RFC 1951). */
module StaticTrees {
  import opened Bits
  import opened BlockCost
  import opened Canonical
  import opened Counting
  import opened DeflateCodes
  import opened LengthCodes
  import opened SortedCodes
  import opened TableBuilder
  import opened TreeCodes
  import opened TreeTransmission

  // ---------- the lengths make complete codes ----------

  /** inflate's fixed distance code has two more symbols, which never occur. */
  function FixedDists(): (s: seq<int>)
    ensures |s| == D_CODES + 2 && forall n :: 0 <= n < |s| ==> s[n] == 5
  {
    seq(D_CODES + 2, n => 5)
  }

  /** A stretch of equal lengths. */
  lemma {:induction false} KraftRun(l: seq<int>, a: nat, b: nat, v: nat, m: nat)
    requires a <= b <= |l| && 0 < v <= m && forall i :: a <= i < b ==> l[i] == v
    ensures UsedKraft(l[..b], m) == UsedKraft(l[..a], m) + (b - a) * Pow2(m - v)
    decreases b
  {
    hide Pow2;
    if a < b {
      KraftRun(l, a, b - 1, v, m);
      assert l[..b][..b - 1] == l[..b - 1];
      OneMore(b - 1 - a, Pow2(m - v));
    }
  }

  lemma OneMore(n: nat, p: nat)
    ensures n * p + p == (n + 1) * p
  {
  }

  lemma {:induction false} StaticLitsComplete()
    ensures IsLens(StaticLits()) && Complete(StaticLits())
  {
    hide UsedKraft, Pow2, StaticLits;
    var l := StaticLits();
    KraftRun(l, 0, 144, 8, MAXBITS);
    KraftRun(l, 144, 256, 9, MAXBITS);
    KraftRun(l, 256, 280, 7, MAXBITS);
    KraftRun(l, 280, 288, 8, MAXBITS);
    NoKraftYet(l);
    assert l[..288] == l;
    SmallPowers();
    Pow2Sum(7, 8);
  }

  lemma NoKraftYet(l: seq<int>)
    ensures UsedKraft(l[..0], MAXBITS) == 0
  {
  }

  lemma {:induction false} FixedDistsComplete()
    ensures IsLens(FixedDists()) && Complete(FixedDists())
  {
    hide UsedKraft, Pow2, FixedDists;
    var l := FixedDists();
    KraftRun(l, 0, 32, 5, MAXBITS);
    NoKraftYet(l);
    assert l[..32] == l;
    SmallPowers();
    Pow2Sum(5, 10);
  }

  // ---------- codewords of equal lengths ----------

  lemma {:induction false} NoneShorter(l: seq<int>, v: nat, k: nat)
    requires k <= v && forall i :: 0 <= i < |l| ==> l[i] == v
    ensures NextCode(l, k) == 0
  {
    hide Count;
    if k > 0 {
      NoneShorter(l, v, k - 1);
      NoCount(l, k - 1);
    }
  }

  lemma {:induction false} CountAll(l: seq<int>, v: int)
    requires forall i :: 0 <= i < |l| ==> l[i] == v
    ensures Count(l, v) == |l|
  {
    if l != [] {
      CountAll(l[..|l|-1], v);
    }
  }

  /** Symbols of one length only have their own numbers as codes. */
  lemma EvenWord(l: seq<int>, v: nat, s: nat)
    requires s < |l| && forall i :: 0 <= i < |l| ==> l[i] == v
    ensures Codeword(l, s) == ToBits(s, v)
  {
    hide Count, NextCode, ToBits;
    NoneShorter(l, v, v);
    CountAll(l[..s], v);
  }

  /** deflate's and inflate's static distance codes agree. */
  lemma SameDistWord(s: nat)
    requires s < D_CODES
    ensures Codeword(StaticDists(), s) == Codeword(FixedDists(), s)
  {
    hide Codeword, StaticDists, FixedDists;
    EvenWord(StaticDists(), 5, s);
    EvenWord(FixedDists(), 5, s);
  }

  // ---------- tr_static_init ----------

  ghost predicate Counted(len: seq<int>, blCount: seq<int>, n: nat) {
    n <= L_CODES + 2 <= |len| && |blCount| == MAXBITS + 1 && (forall i :: 0 <= i < n ==> len[i] == StaticLit(i))
    && forall b :: 0 <= b <= MAXBITS ==> blCount[b] == Count(len[..n], b)
  }

  lemma CountedNext(len: seq<int>, blCount: seq<int>, n: nat, v: nat)
    requires Counted(len, blCount, n) && n < L_CODES + 2 && v == StaticLit(n)
    ensures 0 <= v <= MAXBITS && Counted(len[n := v], blCount[v := blCount[v] + 1], n + 1)
  {
    hide Count;
    forall b | 0 <= b <= MAXBITS
      ensures Count(len[n := v][..n + 1], b) == Count(len[..n], b) + (if b == v then 1 else 0)
    {
      CountAppend(len[n := v], n, b);
      assert len[n := v][..n] == len[..n];
    }
  }

  /** Equal lengths for the symbols up to last. */
  method SetLens(len: array<int>, blCount: array<int>, first: nat, last: nat, v: nat) returns (n: nat)
    requires len != blCount && first <= last < L_CODES + 2 && Counted(len[..], blCount[..], first)
    requires forall i :: first <= i <= last ==> StaticLit(i) == v
    modifies len, blCount
    ensures n == last + 1 && Counted(len[..], blCount[..], n)
  {
    hide Counted, StaticLit;
    n := first;
    while n <= last
      invariant first <= n <= last + 1 && Counted(len[..], blCount[..], n)
      modifies len, blCount
    {
      CountedSize(len[..], blCount[..], n);
      ghost var l: seq<int>, b: seq<int> := len[..], blCount[..];
      CountedNext(l, b, n, v);
      len[n] := v;
      blCount[v] := blCount[v] + 1;
      assert len[..] == l[n := v] && blCount[..] == b[v := b[v] + 1];
      n := n + 1;
    }
  }

  lemma CountedSize(len: seq<int>, blCount: seq<int>, n: nat)
    requires Counted(len, blCount, n)
    ensures n <= L_CODES + 2 <= |len| && |blCount| == MAXBITS + 1
  {
  }

  lemma CountedAll(len: seq<int>, blCount: seq<int>)
    requires Counted(len, blCount, L_CODES + 2) && |len| == L_CODES + 2
    ensures len == StaticLits() && len[..L_CODES + 1 + 1] == len && IsLens(len)
    ensures UsedKraft(len, MAXBITS) == Pow2(MAXBITS)
    ensures blCount[0] == 0 && forall b :: 1 <= b <= MAXBITS ==> blCount[b] == Count(len, b)
  {
    hide Count, UsedKraft, Pow2, StaticLits;
    StaticLitsComplete();
    assert len == StaticLits();
    assert len[..L_CODES + 2] == len;
    NoCount(len, 0);
  }

  method StaticLitTree() returns (code: array<int>, len: array<int>)
    ensures fresh(code) && fresh(len) && CodesFor(code[..], len[..], StaticLits())
  {
    hide Counted, Value, Codeword, UsedKraft, Pow2, Count, StaticLits;
    len := new int[L_CODES + 2](i => 0);
    code := new int[L_CODES + 2](i => 0);
    var blCount := new int[MAXBITS + 1](i => 0);
    NoneCounted(len[..], blCount[..]);
    var n := 0;
    n := SetLens(len, blCount, n, 143, 8);
    n := SetLens(len, blCount, n, 255, 9);
    n := SetLens(len, blCount, n, 279, 7);
    n := SetLens(len, blCount, n, 287, 8);
    CountedAll(len[..], blCount[..]);
    assert len[..] == len[..L_CODES + 1 + 1];
    var _ := GenCodes(code, len, L_CODES + 1, blCount);
  }

  lemma NoneCounted(len: seq<int>, blCount: seq<int>)
    requires |len| == L_CODES + 2 && |blCount| == MAXBITS + 1 && forall b :: 0 <= b <= MAXBITS ==> blCount[b] == 0
    ensures Counted(len, blCount, 0)
  {
  }

  method StaticDistTree() returns (code: array<int>, len: array<int>)
    ensures fresh(code) && fresh(len) && CodesFor(code[..], len[..], StaticDists())
  {
    hide Value, Codeword, Pow2, ToBits, StaticDists;
    len := new int[D_CODES](i => 0);
    code := new int[D_CODES](i => 0);
    var n := 0;
    while n < D_CODES
      invariant 0 <= n <= D_CODES
      invariant forall i :: 0 <= i < n ==> len[i] == 5 && code[i] == Value(Codeword(StaticDists(), i))
      modifies len, code
    {
      len[n] := 5;
      EvenWord(StaticDists(), 5, n);
      code[n] := BiReverse(n, 5);
      n := n + 1;
    }
  }
}
