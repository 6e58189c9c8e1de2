/** What a block costs: the number of bits that its tokens and its trees take is what the symbol frequencies say. */
module BlockCost {
  import opened Bits
  import opened CodeLengthCode
  import opened DeflateCodes
  import opened InflateTable
  import opened LengthCodes
  import opened Lz77
  import opened SortedCodes
  import opened TokenCode
  import opened TreeLengths
  import opened TreeTransmission

  // ---------- the three kinds of trees ----------

  const MAX_BL_BITS := 7

  /** Lengths of the static literal/length tree. */
  function StaticLit(n: nat): int {
    if n <= 143 then 8 else if n <= 255 then 9 else if n <= 279 then 7 else 8
  }

  function StaticLits(): (s: seq<int>)
    ensures |s| == L_CODES + 2 && forall n :: 0 <= n < |s| ==> s[n] == StaticLit(n)
  {
    seq(L_CODES + 2, n requires 0 <= n < L_CODES + 2 => StaticLit(n))
  }

  function StaticDists(): (s: seq<int>)
    ensures |s| == D_CODES && forall n :: 0 <= n < |s| ==> s[n] == 5
  {
    seq(D_CODES, n => 5)
  }

  function ExtraLs(): (s: seq<int>)
    ensures |s| == LENGTH_CODES && forall n :: 0 <= n < |s| ==> s[n] == ExtraL(n)
  {
    seq(LENGTH_CODES, n requires 0 <= n < LENGTH_CODES => ExtraL(n))
  }

  function ExtraDs(): (s: seq<int>)
    ensures |s| == D_CODES && forall n :: 0 <= n < |s| ==> s[n] == ExtraD(n)
  {
    seq(D_CODES, n requires 0 <= n < D_CODES => ExtraD(n))
  }

  function ExtraBls(): (s: seq<int>)
    ensures |s| == BL_CODES && forall n :: 0 <= n < |s| ==> s[n] == ExtraBits(n)
  {
    seq(BL_CODES, n requires 0 <= n < BL_CODES => ExtraBits(n))
  }

  /** static_l_desc, static_d_desc and static_bl_desc. */
  function LDesc(): StaticDesc {
    StaticDesc(StaticLits(), ExtraLs(), LITERALS + 1, L_CODES, MAXBITS)
  }

  function DDesc(): StaticDesc {
    StaticDesc(StaticDists(), ExtraDs(), 0, D_CODES, MAXBITS)
  }

  function BlDesc(): StaticDesc {
    StaticDesc([], ExtraBls(), 0, BL_CODES, MAX_BL_BITS)
  }

  /** All three are such as tree construction needs them. */
  lemma DescsFit()
    ensures IsDesc(LDesc()) && IsDesc(DDesc()) && IsDesc(BlDesc())
  {
    hide Pow2, StaticLits, StaticDists, ExtraLs, ExtraDs, ExtraBls;
    SmallPowers();
    assert Pow2(13) <= Pow2(MAXBITS) by { Pow2Monotone(13, MAXBITS); }
  }

  // ---------- frequencies ----------

  predicate AllCodable(tokens: seq<Token>) {
    forall i :: 0 <= i < |tokens| ==> Codable(tokens[i])
  }

  function OneIf(b: bool): nat {
    if b then 1 else 0
  }

  function LitCount(tokens: seq<Token>, n: int): nat
    requires AllCodable(tokens)
  {
    if tokens == [] then 0 else OneIf(LitSym(tokens[0]) == n) + LitCount(tokens[1..], n)
  }

  function DistCount(tokens: seq<Token>, n: int): nat
    requires AllCodable(tokens)
  {
    if tokens == [] then 0 else OneIf(tokens[0].Match? && DistSym(tokens[0]) == n) + DistCount(tokens[1..], n)
  }

  /** How often each symbol occurs in a block, the one that ends it included. */
  ghost predicate LitFreqs(freq: seq<int>, tokens: seq<Token>) {
    AllCodable(tokens) && |freq| >= L_CODES &&
    forall n :: 0 <= n < L_CODES ==> freq[n] == LitCount(tokens, n) + OneIf(n == END_BLOCK)
  }

  ghost predicate DistFreqs(freq: seq<int>, tokens: seq<Token>) {
    AllCodable(tokens) && |freq| >= D_CODES && forall n :: 0 <= n < D_CODES ==> freq[n] == DistCount(tokens, n)
  }

  lemma {:induction false} TallyAppend(tokens: seq<Token>, t: Token, n: int)
    requires AllCodable(tokens) && Codable(t)
    ensures AllCodable(tokens + [t])
    ensures LitCount(tokens + [t], n) == LitCount(tokens, n) + OneIf(LitSym(t) == n)
    ensures DistCount(tokens + [t], n) == DistCount(tokens, n) + OneIf(t.Match? && DistSym(t) == n)
    decreases |tokens|
  {
    hide LitSym, DistSym, Codable;
    if tokens == [] {
      assert ([] + [t])[1..] == [];
    } else {
      assert (tokens + [t])[0] == tokens[0] && (tokens + [t])[1..] == tokens[1..] + [t];
      TallyAppend(tokens[1..], t, n);
    }
  }

  // ---------- the tokens' bits ----------

  lemma {:induction false} CostOfNone(f: seq<int>, lens: seq<int>, desc: StaticDesc, m: nat)
    requires m <= |f| && m <= |lens| && m <= desc.elems <= desc.extraBase + |desc.extraBits|
    requires forall n :: 0 <= n < m ==> f[n] == 0
    ensures Cost(f, lens, desc, m) == 0
  {
    if m > 0 {
      CostOfNone(f, lens, desc, m - 1);
    }
  }

  /** Taking away one occurrence. */
  lemma CostFalls(f: seq<int>, g: seq<int>, lens: seq<int>, desc: StaticDesc, m: nat, n: nat)
    requires n < m <= |f| && |g| == |f| && m <= |lens| && m <= desc.elems <= desc.extraBase + |desc.extraBits|
    requires g == f[n := f[n] - 1]
    ensures Cost(f, lens, desc, m) == Cost(g, lens, desc, m) + lens[n] + ExtraOf(desc, n)
  {
    assert f == g[n := g[n] + 1];
    CostRises(g, lens, desc, m, n);
  }

  /** The lengths of a tree: those that are transmitted, and zeros up to the number of symbols. */
  ghost predicate Extends(lens: seq<int>, ll: seq<int>, m: nat) {
    |ll| <= |lens| && m <= |lens| && forall n :: 0 <= n < |ll| ==> lens[n] == ll[n]
  }

  lemma TokenSize(ll: seq<int>, dl: seq<int>, t: Token, ls: seq<int>, ds: seq<int>)
    requires Coded(ll, dl, t) && Extends(ls, ll, L_CODES) && Extends(ds, dl, D_CODES)
    ensures |TokenBits(ll, dl, t)| == ls[LitSym(t)] + ExtraOf(LDesc(), LitSym(t))
      + (if t.Match? then ds[DistSym(t)] + ExtraOf(DDesc(), DistSym(t)) else 0)
  {
    hide Codeword, BitsOf, Pow2, ExtraL, ExtraD, LengthCode, DistCode, StaticLits, StaticDists, LenExtra, DistExtra;
  }

  /** The tokens of a block and its end take as many bits as their frequencies cost. */
  lemma {:induction false} TokensCost(ll: seq<int>, dl: seq<int>, tokens: seq<Token>, ls: seq<int>, ds: seq<int>,
                                      lf: seq<int>, df: seq<int>)
    requires AllCoded(ll, dl, tokens) && Extends(ls, ll, L_CODES) && Extends(ds, dl, D_CODES)
    requires LitFreqs(lf, tokens) && DistFreqs(df, tokens)
    ensures |TokensBits(ll, dl, tokens)| == Cost(lf, ls, LDesc(), L_CODES) + Cost(df, ds, DDesc(), D_CODES)
    decreases |tokens|
  {
    hide Codeword, Cost, LitSym, DistSym, TokenBits, Coded, Codable, StaticLits, StaticDists, ExtraLs, ExtraDs;
    if tokens == [] {
      EmptyCost(ll, dl, ls, ds, lf, df);
    } else {
      var t := tokens[0];
      var s := LitSym(t);
      var lf1 := lf[s := lf[s] - 1];
      var df1 := if t.Match? then df[DistSym(t) := df[DistSym(t)] - 1] else df;
      TokenSize(ll, dl, t, ls, ds);
      CostFalls(lf, lf1, ls, LDesc(), L_CODES, s);
      if t.Match? {
        CostFalls(df, df1, ds, DDesc(), D_CODES, DistSym(t));
      }
      TokensCost(ll, dl, tokens[1..], ls, ds, lf1, df1);
    }
  }

  lemma EmptyCost(ll: seq<int>, dl: seq<int>, ls: seq<int>, ds: seq<int>, lf: seq<int>, df: seq<int>)
    requires AllCoded(ll, dl, []) && Extends(ls, ll, L_CODES) && Extends(ds, dl, D_CODES)
    requires LitFreqs(lf, []) && DistFreqs(df, [])
    ensures |TokensBits(ll, dl, [])| == Cost(lf, ls, LDesc(), L_CODES) + Cost(df, ds, DDesc(), D_CODES)
  {
    hide Codeword, Cost, StaticLits, StaticDists;
    var g := lf[END_BLOCK := 0];
    CostFalls(lf, g, ls, LDesc(), L_CODES, END_BLOCK);
    CostOfNone(g, ls, LDesc(), L_CODES);
    CostOfNone(df, ds, DDesc(), D_CODES);
  }

  // ---------- the trees' bits ----------

  ghost predicate ItemFreqs(freq: seq<int>, items: seq<Item>) {
    |freq| >= BL_CODES && forall n :: 0 <= n < BL_CODES ==> freq[n] == Occurrences(items, n)
  }

  /** The transmitted lengths take as many bits as the frequencies of the bit length code cost. */
  lemma {:induction false} ItemsCost(bl: seq<int>, items: seq<Item>, f: seq<int>)
    requires Sendable(bl, items) && |bl| >= BL_CODES && ItemFreqs(f, items)
    ensures |ItemsBits(bl, items)| == Cost(f, bl, BlDesc(), BL_CODES)
    decreases |items|
  {
    hide Codeword, Cost, LegalItem, ItemBits, SymOf, ExtraBls, ExtraBits, ExtraValue;
    if items == [] {
      CostOfNone(f, bl, BlDesc(), BL_CODES);
    } else {
      var it := items[0];
      assert LegalItem(it) && Uses(bl, SymOf(it));
      ItemSize(bl, it);
      var g := f[SymOf(it) := f[SymOf(it)] - 1];
      CostFalls(f, g, bl, BlDesc(), BL_CODES, SymOf(it));
      Tail(bl, items);
      ItemsCost(bl, items[1..], g);
    }
  }

  lemma ItemSize(bl: seq<int>, it: Item)
    requires LegalItem(it) && Uses(bl, SymOf(it))
    ensures 0 <= SymOf(it) < BL_CODES && ExtraValue(it) >= 0
    ensures |ItemBits(bl, it)| == bl[SymOf(it)] + ExtraOf(BlDesc(), SymOf(it))
  {
    hide Codeword, BitsOf;
  }
}
