/** The state in which deflate collects a block's tokens and their frequencies, and from which it writes the block. */
module BlockCoder {
  import opened Bits
  import opened BlockCost
  import opened BlockTiming
  import opened Bytes
  import opened CodeLengthCode
  import opened DeflateBlock
  import opened DeflateCodes
  import opened DynamicHeader
  import opened InflateTable
  import opened LengthCodes
  import opened Lz77
  import opened Overlay
  import opened StaticTrees
  import opened TableBuilder
  import opened TokenCode
  import opened TreeLengths
  import opened TreeTransmission
  import opened Trees
  import opened ZBits
  import DeflateHeap

  /** The largest symbol buffer, which keeps frequencies within 16 bits. */
  const MAX_LIT_BUFSIZE := 0x8000

  /** The arrays of a tree. */
  method NewTree(size: nat) returns (fc: array<int>, dl: array<int>)
    ensures fresh(fc) && fresh(dl) && fc != dl && fc.Length == dl.Length == size
  {
    fc := new int[size](i => 0);
    dl := new int[size](i => 0);
  }

  method Clear(a: array<int>, m: nat)
    requires m <= a.Length
    modifies a
    ensures forall i :: 0 <= i < m ==> a[i] == 0
  {
    var n := 0;
    while n < m
      invariant 0 <= n <= m && forall i :: 0 <= i < n ==> a[i] == 0
    {
      a[n] := 0;
      n := n + 1;
    }
  }

  class Coder {
    const lfc: array<int>
    const ldl: array<int>
    const dfc: array<int>
    const ddl: array<int>
    const bfc: array<int>
    const bdl: array<int>
    const slc: array<int>
    const sll: array<int>
    const sdc: array<int>
    const sdl: array<int>
    const trees: Trees.Builder
    const sink: BitSink
    /** Whether the strategy is Z_FIXED. */
    const fixed: bool
    /** The memory of pending_buf, d_buf and l_buf, for so many tokens. */
    const overlay: array<int>
    const litBufsize: nat
    var lastLit: nat
    /** The tokens in the buffer. */
    ghost var tokens: seq<Token>

    /** All arrays are different ones. */
    ghost predicate Shape() {
      && trees.Valid()
      && trees.Fits(lfc, ldl, L_CODES) && trees.Fits(dfc, ddl, D_CODES) && trees.Fits(bfc, bdl, BL_CODES)
      && lfc != dfc && lfc != ddl && lfc != bfc && lfc != bdl && ldl != dfc && ldl != ddl && ldl != bfc && ldl != bdl
      && dfc != bfc && dfc != bdl && ddl != bfc && ddl != bdl
      && Aside(slc) && Aside(sll) && Aside(sdc) && Aside(sdl)
      && Aside(overlay) && overlay != slc && overlay != sll && overlay != sdc && overlay != sdl
      && overlay.Length == 4 * litBufsize && 3 <= litBufsize <= MAX_LIT_BUFSIZE
    }

    /** An array that holds no tree under construction. */
    ghost predicate Aside(a: array<int>) {
      && a != lfc && a != ldl && a != dfc && a != ddl && a != bfc && a != bdl
      && a != trees.heap && a != trees.depth && a != trees.blCount
    }

    ghost predicate Static()
      reads slc, sll, sdc, sdl
    {
      CodesFor(slc[..], sll[..], StaticLits()) && CodesFor(sdc[..], sdl[..], StaticDists())
    }

    /** Between two tokens: the frequencies are those of the tokens so far, and all output has left. */
    ghost predicate Tallied()
      reads `tokens, `lastLit, overlay, lfc, dfc, bfc, trees, trees.depth, sink
    {
      && LitFreqs(lfc[..], tokens) && DistFreqs(dfc[..], tokens) && ItemFreqs(bfc[..], [])
      && trees.optLen == trees.staticLen == 0 && DeflateHeap.Depths(trees.depth[..])
      && sink.Resting() && Buffered()
    }

    /** The shared buffer holds the tokens. */
    ghost predicate Buffered()
      reads `tokens, `lastLit, overlay
    {
      lastLit == |tokens| && Laid(overlay[..], litBufsize, tokens, 0)
    }

    constructor (sink: BitSink, fixed: bool, litBufsize: nat)
      requires sink.Resting() && 3 <= litBufsize <= MAX_LIT_BUFSIZE
      ensures Shape() && Static() && Tallied() && tokens == [] && this.sink == sink && this.fixed == fixed
      ensures fresh(overlay) && this.litBufsize == litBufsize
      ensures fresh(lfc) && fresh(ldl) && fresh(dfc) && fresh(ddl) && fresh(bfc) && fresh(bdl)
      ensures fresh(slc) && fresh(sll) && fresh(sdc) && fresh(sdl)
      ensures fresh(trees) && fresh(trees.heap) && fresh(trees.depth) && fresh(trees.blCount)
      ensures sink.Written() == old(sink.Written())
    {
      hide CodesFor, StaticLits, StaticDists, LitFreqs, DistFreqs, ItemFreqs;
      this.sink, this.fixed, this.litBufsize, lastLit, tokens := sink, fixed, litBufsize, 0, [];
      overlay := new int[4 * litBufsize](i => 0);
      var fc, dl := NewTree(HEAP_SIZE);
      lfc, ldl := fc, dl;
      fc, dl := NewTree(2 * D_CODES + 1);
      dfc, ddl := fc, dl;
      fc, dl := NewTree(2 * BL_CODES + 1);
      bfc, bdl := fc, dl;
      var t := new Trees.Builder();
      trees := t;
      fc, dl := StaticLitTree();
      slc, sll := fc, dl;
      fc, dl := StaticDistTree();
      sdc, sdl := fc, dl;
      new;
      InitBlock();
    }

    lemma NoFreqs(lf: seq<int>, df: seq<int>, bf: seq<int>)
      requires |lf| >= L_CODES && |df| >= D_CODES && |bf| >= BL_CODES
      requires forall n :: 0 <= n < L_CODES ==> lf[n] == if n == END_BLOCK then 1 else 0
      requires forall n :: 0 <= n < D_CODES ==> df[n] == 0
      requires forall n :: 0 <= n < BL_CODES ==> bf[n] == 0
      ensures LitFreqs(lf, []) && DistFreqs(df, []) && ItemFreqs(bf, [])
    {
    }

    /** init_block. */
    method InitBlock()
      requires Shape() && DeflateHeap.Depths(trees.depth[..]) && sink.Resting()
      modifies `tokens, `lastLit, lfc, dfc, bfc, trees
      ensures Tallied() && tokens == []
    {
      hide LitFreqs, DistFreqs, ItemFreqs;
      Clear(lfc, L_CODES);
      Clear(dfc, D_CODES);
      Clear(bfc, BL_CODES);
      lfc[END_BLOCK] := 1;
      trees.optLen, trees.staticLen := 0, 0;
      lastLit, tokens := 0, [];
      NoFreqs(lfc[..], dfc[..], bfc[..]);
    }

    lemma SinkValid()
      requires Tallied()
      ensures sink.Resting() && Buffered()
    {
      hide LitFreqs, DistFreqs, ItemFreqs;
    }

    lemma FreqsRise(lf: seq<int>, df: seq<int>, t: Token)
      requires LitFreqs(lf, tokens) && DistFreqs(df, tokens) && Codable(t)
      ensures LitFreqs(lf[LitSym(t) := lf[LitSym(t)] + 1], tokens + [t])
      ensures DistFreqs(if t.Match? then df[DistSym(t) := df[DistSym(t)] + 1] else df, tokens + [t])
    {
      hide LitSym, DistSym, Codable;
      forall n | true
        ensures LitCount(tokens + [t], n) == LitCount(tokens, n) + OneIf(LitSym(t) == n)
        ensures DistCount(tokens + [t], n) == DistCount(tokens, n) + OneIf(t.Match? && DistSym(t) == n)
      {
        TallyAppend(tokens, t, n);
      }
    }

    /** _tr_tally: one more token, in the buffer and in the frequencies. */
    method Tally(t: Token)
      requires Shape() && Tallied() && Codable(t) && lastLit + 1 < litBufsize
      modifies `tokens, `lastLit, overlay, lfc, dfc
      ensures Tallied() && tokens == old(tokens) + [t]
    {
      hide LitFreqs, DistFreqs, ItemFreqs, LengthCode, DistCode, Laid, BitSink.Resting;
      PutEntry(t);
      Count(t);
      tokens := tokens + [t];
    }

    /** The token's entry. */
    method PutEntry(t: Token)
      requires Shape() && Codable(t) && Buffered() && lastLit + 1 < litBufsize
      modifies `lastLit, overlay
      ensures lastLit == old(lastLit) + 1 && Laid(overlay[..], litBufsize, tokens + [t], 0)
    {
      hide Entry;
      ghost var b: seq<int> := overlay[..];
      LaidNext(b, litBufsize, tokens, t);
      overlay[litBufsize + 2 * lastLit] := DistOf(t) % 256;
      overlay[litBufsize + 2 * lastLit + 1] := DistOf(t) / 256;
      overlay[3 * litBufsize + lastLit] := LcOf(t);
      lastLit := lastLit + 1;
    }

    /** The token in the frequencies. */
    method Count(t: Token)
      requires Shape() && Codable(t) && LitFreqs(lfc[..], tokens) && DistFreqs(dfc[..], tokens)
      modifies lfc, dfc
      ensures LitFreqs(lfc[..], tokens + [t]) && DistFreqs(dfc[..], tokens + [t])
    {
      hide LitFreqs, DistFreqs, LengthCode, DistCode;
      ghost var lf: seq<int>, df: seq<int> := lfc[..], dfc[..];
      FreqsRise(lf, df, t);
      match t {
        case Lit(c) =>
          lfc[c] := lfc[c] + 1;
        case Match(dist, len) =>
          var d := dist - 1;
          lfc[LengthCode(len - MIN_MATCH) + LITERALS + 1] := lfc[LengthCode(len - MIN_MATCH) + LITERALS + 1] + 1;
          dfc[DistCode(d)] := dfc[DistCode(d)] + 1;
          assert dfc[..] == df[DistSym(t) := df[DistSym(t)] + 1];
      }
      assert lfc[..] == lf[LitSym(t) := lf[LitSym(t)] + 1];
    }

    // ---------- the bit length tree ----------

    /** Scans both trees. */
    method ScanBoth(lMax: nat, dMax: nat, ghost lf: seq<int>, ghost df: seq<int>) returns (ghost c: Codes)
      requires Shape() && HasCode(lf, lfc[..], ldl[..], LDesc(), lMax) && HasCode(df, dfc[..], ddl[..], DDesc(), dMax)
      requires ItemFreqs(bfc[..], [])
      modifies bfc, ldl, ddl
      ensures |c.ll| == lMax + 1 && |c.dl| == dMax + 1 && c.ll <= old(ldl[..]) && c.dl <= old(ddl[..])
      ensures TreeOf(lf, lfc[..], ldl[..], c.ll, L_CODES) && TreeOf(df, dfc[..], ddl[..], c.dl, D_CODES)
      ensures ItemFreqs(bfc[..], TreeItems(c.ll) + TreeItems(c.dl))
    {
      hide HasCode, TreeOf, TreeItems, Occurrences;
      HasCodeSize(lf, lfc[..], ldl[..], LDesc(), lMax);
      HasCodeSize(df, dfc[..], ddl[..], DDesc(), dMax);
      c := Codes(ldl[..lMax + 1], ddl[..dMax + 1]);
      NoItemFreqs();
      ScanFinished(bfc, lfc, ldl, lMax, lf, LDesc());
      ScanFinished(bfc, dfc, ddl, dMax, df, DDesc());
      BothOccur(TreeItems(c.ll), TreeItems(c.dl));
    }

    lemma NoItemFreqs()
      ensures forall n :: Occurrences([], n) == 0
    {
    }

    lemma BothOccur(a: seq<Item>, b: seq<Item>)
      ensures forall n :: Occurrences(a + b, n) == Occurrences(a, n) + Occurrences(b, n)
    {
      hide Occurrences;
      forall n | true
        ensures Occurrences(a + b, n) == Occurrences(a, n) + Occurrences(b, n)
      {
        OccurConcat(a, b, n);
      }
    }

    lemma {:induction false} Occurs(items: seq<Item>, i: nat)
      requires i < |items|
      ensures Occurrences(items, SymOf(items[i])) > 0
      decreases |items|
    {
      hide SymOf;
      if i > 0 {
        Occurs(items[1..], i - 1);
      }
    }

    /** The bit length code that the tree gives has a codeword for every item. */
    lemma BlCode(f0: seq<int>, fc: seq<int>, dl: seq<int>, maxCode: int, items: seq<Item>)
      requires HasCode(f0, fc, dl, BlDesc(), maxCode) && ItemFreqs(f0, items) && LegalItems(items)
      ensures BL_CODES <= |dl| && (forall s :: 0 <= s < BL_CODES ==> 0 <= dl[..BL_CODES][s] <= 7)
      ensures Complete(dl[..BL_CODES]) && CodesFor(fc, dl, dl[..BL_CODES]) && Sendable(dl[..BL_CODES], items)
    {
      hide UsedKraft, Pow2, Value, Codeword, LegalItem, Occurrences, SymOf;
      CodeFromTree(f0, fc, dl, BlDesc(), maxCode, BL_CODES, CODES);
      forall i | 0 <= i < |items|
        ensures LegalItem(items[i]) && Uses(dl[..BL_CODES], SymOf(items[i]))
      {
        Occurs(items, i);
        SymInRange(items[i]);
      }
    }

    lemma SymInRange(it: Item)
      requires LegalItem(it)
      ensures 0 <= SymOf(it) < BL_CODES
    {
    }

    /** The tree for the bit lengths. */
    method BlTree(ghost items: seq<Item>) returns (ghost bl: seq<int>)
      requires Shape() && DeflateHeap.Depths(trees.depth[..]) && ItemFreqs(bfc[..], items) && LegalItems(items)
      modifies trees, trees.heap, trees.depth, trees.blCount, bfc, bdl
      ensures DeflateHeap.Depths(trees.depth[..]) && trees.staticLen == old(trees.staticLen)
      ensures |bl| == BL_CODES && bl == bdl[..BL_CODES] && (forall s :: 0 <= s < BL_CODES ==> 0 <= bl[s] <= 7)
      ensures Complete(bl) && CodesFor(bfc[..], bdl[..], bl) && Sendable(bl, items)
      ensures trees.optLen == old(trees.optLen) + |ItemsBits(bl, items)|
    {
      hide HasCode, Cost, LegalItems, Occurrences, Complete, CodesFor, Sendable, IsDesc, ExtraBls, ItemsBits,
           RarerLonger, Total;
      DescsFit();
      ghost var f: seq<int> := bfc[..];
      var maxCode := trees.BuildTree(bfc, bdl, BlDesc());
      bl := bdl[..BL_CODES];
      BlCode(f, bfc[..], bdl[..], maxCode, items);
      ItemsCost(bl, items, f);
    }

    // ---------- all trees ----------

    /** Everything is there for sending the block with its own trees; n lengths of the bit length code will be sent. */
    ghost predicate Planned(c: Codes, bl: seq<int>, n: nat)
      reads `tokens, lfc, ldl, dfc, ddl, bfc, bdl
    {
      && Usable(c) && IsBl(bl, n) && Complete(bl) && Sendable(bl, TreeItems(c.ll) + TreeItems(c.dl))
      && Scanned(ldl[..], c.ll) && Scanned(ddl[..], c.dl) && CodesFor(bfc[..], bdl[..], bl)
      && CodesFor(lfc[..], ldl[..], c.ll) && CodesFor(dfc[..], ddl[..], c.dl) && AllCoded(c.ll, c.dl, tokens)
    }

    /** The bits of the block with its own trees, behind its three first ones. */
    ghost function DynamicBits(c: Codes, bl: seq<int>, n: nat): seq<bool>
      requires Planned(c, bl, n)
      reads `tokens, lfc, ldl, dfc, ddl, bfc, bdl
    {
      HeaderBits(c, bl, n) + TokensBits(c.ll, c.dl, tokens)
    }

    /** Symbols that occur have codes, so all tokens have. */
    lemma Coding(lf: seq<int>, df: seq<int>, c: Codes)
      requires LitFreqs(lf, tokens) && DistFreqs(df, tokens)
      requires forall s :: 0 <= s < L_CODES && lf[s] > 0 ==> Uses(c.ll, s)
      requires forall s :: 0 <= s < D_CODES && df[s] > 0 ==> Uses(c.dl, s)
      ensures AllCoded(c.ll, c.dl, tokens)
    {
      hide LengthCode, DistCode, LitCount, DistCount;
      assert lf[END_BLOCK] > 0;
      forall i | 0 <= i < |tokens|
        ensures Coded(c.ll, c.dl, tokens[i])
      {
        TokenOccurs(tokens, i);
        var t := tokens[i];
        assert lf[LitSym(t)] > 0 && (t.Match? ==> df[DistSym(t)] > 0);
      }
    }

    lemma {:induction false} TokenOccurs(tokens: seq<Token>, i: nat)
      requires AllCodable(tokens) && i < |tokens|
      ensures Codable(tokens[i]) && LitCount(tokens, LitSym(tokens[i])) > 0
      ensures tokens[i].Match? ==> DistCount(tokens, DistSym(tokens[i])) > 0
      decreases |tokens|
    {
      hide LitSym, DistSym, Codable;
      if i > 0 {
        TokenOccurs(tokens[1..], i - 1);
      }
    }

    /** The parts of two finished trees. */
    lemma TreesFit(lf: seq<int>, df: seq<int>, c: Codes)
      requires LitFreqs(lf, tokens) && DistFreqs(df, tokens) && |c.dl| >= 1
      requires TreeOf(lf, lfc[..], ldl[..], c.ll, L_CODES) && TreeOf(df, dfc[..], ddl[..], c.dl, D_CODES)
      ensures Usable(c) && Scanned(ldl[..], c.ll) && Scanned(ddl[..], c.dl) && AllCoded(c.ll, c.dl, tokens)
      ensures CodesFor(lfc[..], ldl[..], c.ll) && CodesFor(dfc[..], ddl[..], c.dl)
    {
      hide CodesFor, Complete, LitCount, DistCount, Rejected;
      Coding(lf, df, c);
      CompleteAccepted(LENS, c.ll);
      CompleteAccepted(DISTS, c.dl);
      assert lf[END_BLOCK] > 0;
      assert Uses(c.ll, END_BLOCK);
    }

    /** Some length of the literal tree is sent as it is. */
    lemma LengthSent(c: Codes, bl: seq<int>) returns (s: nat)
      requires Usable(c) && Sendable(bl, TreeItems(c.ll) + TreeItems(c.dl))
      ensures s < 16 && Uses(bl, s)
    {
      hide TreeItems, TakeAll, CodeLengthCode.Fits;
      BothTrees(c);
      var items := TreeItems(c.ll) + TreeItems(c.dl);
      var i := SomeOne(items, c.ll + c.dl, 256);
      s := SymOf(items[i]);
      assert LegalItem(items[i]) && Uses(bl, SymOf(items[i]));
    }

    /** build_bl_tree. */
    method BuildBlTree(lMax: nat, dMax: nat, ghost lf: seq<int>, ghost df: seq<int>)
      returns (maxBlindex: nat, ghost c: Codes, ghost bl: seq<int>)
      requires Shape() && HasCode(lf, lfc[..], ldl[..], LDesc(), lMax) && HasCode(df, dfc[..], ddl[..], DDesc(), dMax)
      requires LitFreqs(lf, tokens) && DistFreqs(df, tokens) && ItemFreqs(bfc[..], [])
      requires DeflateHeap.Depths(trees.depth[..])
      modifies trees, trees.heap, trees.depth, trees.blCount, ldl, ddl, bfc, bdl
      ensures DeflateHeap.Depths(trees.depth[..]) && trees.staticLen == old(trees.staticLen)
      ensures Planned(c, bl, maxBlindex + 1) && |c.ll| == lMax + 1 && |c.dl| == dMax + 1
      ensures c.ll <= old(ldl[..]) && c.dl <= old(ddl[..])
      ensures trees.optLen == old(trees.optLen) + |HeaderBits(c, bl, maxBlindex + 1)|
    {
      hide HasCode, TreeOf, TreeItems, Occurrences, LitFreqs, DistFreqs, ItemFreqs, CodesFor, Complete, Sendable,
           ItemsBits, Usable, Scanned, AllCoded, LegalItems, IsBl, OrderBits;
      c := ScanBoth(lMax, dMax, lf, df);
      TreesFit(lf, df, c);
      UsableParts(c);
      BothTrees(c);
      bl := BlTree(TreeItems(c.ll) + TreeItems(c.dl));
      ghost var s := LengthSent(c, bl);
      maxBlindex := MaxBlindex(bdl, bl, s);
      HeaderSize(c, bl, maxBlindex + 1);
      trees.optLen := trees.optLen + 3 * (maxBlindex + 1) + 5 + 5 + 4;
    }

    lemma HeaderSize(c: Codes, bl: seq<int>, n: nat)
      requires 257 <= |c.ll| && 1 <= |c.dl| && IsBl(bl, n) && Sendable(bl, TreeItems(c.ll) + TreeItems(c.dl))
      ensures |HeaderBits(c, bl, n)| == 14 + 3 * n + |ItemsBits(bl, TreeItems(c.ll) + TreeItems(c.dl))|
    {
      hide ItemsBits, TreeItems;
    }

    /** The literal and the distance tree. */
    method BuildTwo() returns (lMax: nat, dMax: nat)
      requires Shape() && Tallied()
      modifies trees, trees.heap, trees.depth, trees.blCount, lfc, ldl, dfc, ddl
      ensures DeflateHeap.Depths(trees.depth[..])
      ensures HasCode(old(lfc[..]), lfc[..], ldl[..], LDesc(), lMax)
      ensures HasCode(old(dfc[..]), dfc[..], ddl[..], DDesc(), dMax)
      ensures trees.optLen == Cost(old(lfc[..]), ldl[..L_CODES], LDesc(), L_CODES) +
          Cost(old(dfc[..]), ddl[..D_CODES], DDesc(), D_CODES)
      ensures trees.staticLen == StaticCost(old(lfc[..]), LDesc()) + StaticCost(old(dfc[..]), DDesc())
    {
      hide HasCode, LitFreqs, DistFreqs, ItemFreqs, IsDesc, Cost, RarerLonger, Total, StaticCost;
      DescsFit();
      FreqsFit(lfc[..], dfc[..]);
      var max := trees.BuildTree(lfc, ldl, LDesc());
      HasCodeSize(old(lfc[..]), lfc[..], ldl[..], LDesc(), max);
      lMax := max;
      max := trees.BuildTree(dfc, ddl, DDesc());
      HasCodeSize(old(dfc[..]), dfc[..], ddl[..], DDesc(), max);
      dMax := max;
    }

    /** All three trees, and with them the sizes of the block in both forms that use trees. */
    method BuildTrees() returns (lMax: nat, dMax: nat, maxBlindex: nat, ghost c: Codes, ghost bl: seq<int>)
      requires Shape() && Tallied()
      modifies trees, trees.heap, trees.depth, trees.blCount, lfc, ldl, dfc, ddl, bfc, bdl
      ensures DeflateHeap.Depths(trees.depth[..])
      ensures Planned(c, bl, maxBlindex + 1) && |c.ll| == lMax + 1 && |c.dl| == dMax + 1
      ensures trees.optLen == |DynamicBits(c, bl, maxBlindex + 1)|
      ensures AllCoded(StaticLits(), StaticDists(), tokens)
      ensures trees.staticLen == |TokensBits(StaticLits(), StaticDists(), tokens)|
    {
      hide HasCode, LitFreqs, DistFreqs, ItemFreqs, Cost, Planned, TokensBits, AllCoded, StaticCost;
      ghost var lf: seq<int>, df: seq<int> := lfc[..], dfc[..];
      FreqsFit(lf, df);
      lMax, dMax := BuildTwo();
      ghost var l0: seq<int>, d0: seq<int> := ldl[..], ddl[..];
      maxBlindex, c, bl := BuildBlTree(lMax, dMax, lf, df);
      PlannedCodes(c, bl, maxBlindex + 1);
      DynamicCost(c, l0, d0, lf, df);
      StaticCosts(lf, df);
    }

    lemma DynamicCost(c: Codes, l0: seq<int>, d0: seq<int>, lf: seq<int>, df: seq<int>)
      requires LitFreqs(lf, tokens) && DistFreqs(df, tokens) && AllCoded(c.ll, c.dl, tokens)
      requires c.ll <= l0 && |c.ll| <= L_CODES <= |l0| && c.dl <= d0 && |c.dl| <= D_CODES <= |d0|
      ensures |TokensBits(c.ll, c.dl, tokens)| ==
          Cost(lf, l0[..L_CODES], LDesc(), L_CODES) + Cost(df, d0[..D_CODES], DDesc(), D_CODES)
    {
      hide LitCount, DistCount, TokensBits, Cost, Coded, Codable, Extends;
      Prefixes(l0, c.ll, L_CODES);
      Prefixes(d0, c.dl, D_CODES);
      TokensCost(c.ll, c.dl, tokens, l0[..L_CODES], d0[..D_CODES], lf, df);
    }

    lemma Prefixes(d: seq<int>, l: seq<int>, m: nat)
      requires l <= d && |l| <= m <= |d|
      ensures Extends(d[..m], l, m)
    {
    }

    lemma PlannedCodes(c: Codes, bl: seq<int>, n: nat)
      requires Planned(c, bl, n)
      ensures AllCoded(c.ll, c.dl, tokens) && |c.ll| <= L_CODES && |c.dl| <= D_CODES
    {
    }

    lemma FreqsFit(lf: seq<int>, df: seq<int>)
      requires LitFreqs(lf, tokens) && DistFreqs(df, tokens)
      ensures L_CODES <= |lf| && D_CODES <= |df| && AllCodable(tokens)
      ensures forall n :: 0 <= n < L_CODES ==> lf[n] >= 0
      ensures forall n :: 0 <= n < D_CODES ==> df[n] >= 0
    {
      hide LitCount, DistCount;
    }

    /** With the static trees every token can be sent. */
    lemma StaticCosts(lf: seq<int>, df: seq<int>)
      requires LitFreqs(lf, tokens) && DistFreqs(df, tokens)
      ensures AllCoded(StaticLits(), StaticDists(), tokens)
      ensures |TokensBits(StaticLits(), StaticDists(), tokens)| == StaticCost(lf, LDesc()) + StaticCost(df, DDesc())
    {
      hide LitCount, DistCount, TokensBits, Cost, LengthCode, DistCode;
      TokensCost(StaticLits(), StaticDists(), tokens, StaticLits(), StaticDists(), lf, df);
    }

    // ---------- _tr_flush_block ----------

    /** The type of the block and its trees. */
    method SendHeader(last: bool, lMax: nat, dMax: nat, maxBlindex: nat, ghost c: Codes, ghost bl: seq<int>)
      requires Shape() && sink.Valid() && Planned(c, bl, maxBlindex + 1) && |c.ll| == lMax + 1 && |c.dl| == dMax + 1
      modifies sink`pending, sink`biBuf, sink`biValid
      ensures sink.Valid() && 257 <= |c.ll| && 1 <= |c.dl|
      ensures sink.Written() == old(sink.Written()) + TypeBits(DYN_TREES, last) + HeaderBits(c, bl, maxBlindex + 1)
    {
      hide CodesFor, Usable, IsBl, Complete, Sendable, Scanned, AllCoded, TreeItems, HeaderBits, TypeBits;
      UsableParts(c);
      SendType(sink, DYN_TREES, last);
      SendAllTrees(sink, ldl, ddl, bfc, bdl, maxBlindex + 1, c, bl, lMax + 1, dMax + 1);
    }

    /** Sends the block with its own trees; false if a token is not read in time. */
    method SendDynamic(last: bool, lMax: nat, dMax: nat, maxBlindex: nat, ghost c: Codes, ghost bl: seq<int>)
      returns (inTime: bool)
      requires Shape() && sink.Resting() && Buffered()
      requires Planned(c, bl, maxBlindex + 1) && |c.ll| == lMax + 1 && |c.dl| == dMax + 1
      modifies sink`pending, sink`biBuf, sink`biValid, overlay
      ensures sink.Valid() && IsPlan(DynamicPlan(tokens, c, bl, maxBlindex + 1))
      ensures inTime <==> PlanInTime(DynamicPlan(tokens, c, bl, maxBlindex + 1), litBufsize, |old(sink.Written())| % 8)
      ensures inTime ==>
          sink.Written() == old(sink.Written()) + PlanBits(DynamicPlan(tokens, c, bl, maxBlindex + 1), last,
                                                           |old(sink.Written())|)
    {
      hide CodesFor, Usable, IsBl, Complete, Sendable, Scanned, AllCoded, TreeItems, HeaderBits, TokensBits, TypeBits,
           InTime, Laid;
      ghost var w := sink.Written();
      SendHeader(last, lMax, dMax, maxBlindex, c, bl);
      inTime := CompressBlock(sink, overlay, litBufsize, lastLit, lfc, ldl, dfc, ddl, c.ll, c.dl, tokens);
      Three(w, TypeBits(DYN_TREES, last), HeaderBits(c, bl, maxBlindex + 1), TokensBits(c.ll, c.dl, tokens));
    }

    lemma Three(w: seq<bool>, a: seq<bool>, b: seq<bool>, c: seq<bool>)
      ensures w + a + b + c == w + (a + (b + c))
    {
    }

    /** Sends the block with the static trees; false if a token is not read in time. */
    method SendStatic(last: bool) returns (inTime: bool)
      requires Shape() && Static() && sink.Resting() && Buffered() && AllCoded(StaticLits(), StaticDists(), tokens)
      modifies sink`pending, sink`biBuf, sink`biValid, overlay
      ensures sink.Valid() && IsPlan(StaticPlan(tokens))
      ensures inTime <==> PlanInTime(StaticPlan(tokens), litBufsize, |old(sink.Written())| % 8)
      ensures inTime ==>
          sink.Written() == old(sink.Written()) + PlanBits(StaticPlan(tokens), last, |old(sink.Written())|)
    {
      hide CodesFor, AllCoded, TokensBits, TypeBits, InTime, Laid, StaticLits, StaticDists, LowBits, BitsOf, Pow2;
      ghost var w := sink.Written();
      SendType(sink, STATIC_TREES, last);
      inTime := CompressBlock(sink, overlay, litBufsize, lastLit, slc, sll, sdc, sdl, StaticLits(), StaticDists(),
                              tokens);
      AppendBits(w, TypeBits(STATIC_TREES, last), TokensBits(StaticLits(), StaticDists(), tokens));
    }

    /** The sizes that the trees lead to are those of the block in its two forms. */
    lemma Sizes(c: Codes, bl: seq<int>, n: nat, last: bool)
      requires Planned(c, bl, n) && AllCoded(StaticLits(), StaticDists(), tokens)
      ensures IsPlan(DynamicPlan(tokens, c, bl, n)) && IsPlan(StaticPlan(tokens))
      ensures |PlanBits(DynamicPlan(tokens, c, bl, n), last, 0)| == |DynamicBits(c, bl, n)| + 3
      ensures |PlanBits(StaticPlan(tokens), last, 0)| == |TokensBits(StaticLits(), StaticDists(), tokens)| + 3
    {
      hide CodesFor, Usable, IsBl, Complete, Sendable, Scanned, AllCoded, TreeItems, HeaderBits, TokensBits, TypeBits;
    }

    method SendBest(text: Text, last: bool, lMax: nat, dMax: nat, maxBlindex: nat, ghost c: Codes, ghost bl: seq<int>)
      returns (inTime: bool, ghost p: Plan)
      requires Shape() && Static() && sink.Resting() && Buffered()
      requires text.Kept? ==> IsBytes(text.bytes) && |text.bytes| < 0x1_0000
      requires Planned(c, bl, maxBlindex + 1) && |c.ll| == lMax + 1 && |c.dl| == dMax + 1
      requires AllCoded(StaticLits(), StaticDists(), tokens)
      modifies sink`pending, sink`biBuf, sink`biValid, sink`shorts, overlay
      ensures sink.Valid() && IsPlan(p) && (!p.StoredPlan? ==> p.tokens == tokens)
      ensures inTime <==> PlanInTime(p, litBufsize, |old(sink.Written())| % 8)
      ensures inTime ==> sink.Written() == old(sink.Written()) + PlanBits(p, last, |old(sink.Written())|)
      ensures Chosen(p, DynamicPlan(tokens, c, bl, maxBlindex + 1), text, fixed, trees.optLen, trees.staticLen)
    {
      hide Planned, AllCoded, Static, PlanBits, Laid, InTime;
      var optLenb, staticLenb := InBytes(trees.optLen), InBytes(trees.staticLen);
      if staticLenb <= optLenb {
        optLenb := staticLenb;
      }
      if text.Kept? && |text.bytes| + 4 <= optLenb {
        p := StoredPlan(text.bytes);
        StoredBlock(sink, text.bytes, last);
        inTime := true;
      } else if fixed || staticLenb == optLenb {
        p := StaticPlan(tokens);
        inTime := SendStatic(last);
      } else {
        p := DynamicPlan(tokens, c, bl, maxBlindex + 1);
        inTime := SendDynamic(last, lMax, dMax, maxBlindex, c, bl);
      }
    }

    lemma ItIsBest(p: Plan, c: Codes, bl: seq<int>, n: nat, text: Text, last: bool)
      requires Planned(c, bl, n) && AllCoded(StaticLits(), StaticDists(), tokens)
      requires IsPlan(p) && (!p.StoredPlan? ==> p.tokens == tokens)
      requires trees.optLen == |DynamicBits(c, bl, n)|
      requires trees.staticLen == |TokensBits(StaticLits(), StaticDists(), tokens)|
      requires Chosen(p, DynamicPlan(tokens, c, bl, n), text, fixed, trees.optLen, trees.staticLen)
      ensures Best(p, DynamicPlan(tokens, c, bl, n), tokens, text, fixed, last, trees.optLen, trees.staticLen)
    {
      hide Planned, AllCoded, PlanBits, IsPlan, Chosen;
      Sizes(c, bl, n, last);
    }

    /** Builds the trees and sends the block in its shortest form. */
    method PlanAndSend(text: Text, last: bool)
      returns (inTime: bool, ghost p: Plan, ghost dynamic: Plan, optLen: int, staticLen: int)
      requires Shape() && Static() && Tallied() && (text.Kept? ==> IsBytes(text.bytes) && |text.bytes| < 0x1_0000)
      modifies sink`pending, sink`biBuf, sink`biValid, sink`shorts, overlay
      modifies trees, trees.heap, trees.depth, trees.blCount, lfc, ldl, dfc, ddl, bfc, bdl
      ensures DeflateHeap.Depths(trees.depth[..]) && sink.Valid()
      ensures Best(p, dynamic, tokens, text, fixed, last, optLen, staticLen) && IsPlan(p)
      ensures inTime <==> PlanInTime(p, litBufsize, |old(sink.Written())| % 8)
      ensures inTime ==> sink.Written() == old(sink.Written()) + PlanBits(p, last, |old(sink.Written())|)
    {
      hide Planned, AllCoded, CodesFor, PlanBits, LitFreqs, DistFreqs, ItemFreqs, IsPlan, Chosen, Best, DynamicBits,
           TokensBits, PlanInTime, Laid;
      var lMax, dMax, maxBlindex;
      ghost var c, bl;
      lMax, dMax, maxBlindex, c, bl := BuildTrees();
      optLen, staticLen := trees.optLen, trees.staticLen;
      dynamic := DynamicPlan(tokens, c, bl, maxBlindex + 1);
      inTime, p := SendBest(text, last, lMax, dMax, maxBlindex, c, bl);
      ItIsBest(p, c, bl, maxBlindex + 1, text, last);
    }

    /** Sends the block in its shortest form, starts a new one, and lets the output go. What the tallied frequencies
        say about the sizes is what is sent, if and only if the output does not reach a token before it is read. */
    method FlushBlock(text: Text, last: bool)
      returns (inTime: bool, ghost p: Plan, ghost dynamic: Plan, optLen: int, staticLen: int)
      requires Shape() && Static() && Tallied() && (text.Kept? ==> IsBytes(text.bytes) && |text.bytes| < 0x1_0000)
      modifies this`tokens, this`lastLit, sink, overlay
      modifies trees, trees.heap, trees.depth, trees.blCount, lfc, ldl, dfc, ddl, bfc, bdl
      ensures Best(p, dynamic, old(tokens), text, fixed, last, optLen, staticLen) && IsPlan(p)
      ensures inTime <==> PlanInTime(p, litBufsize, |old(sink.Written())| % 8)
      ensures Safe(old(tokens), litBufsize, fixed) ==> inTime
      ensures inTime ==> Static() && Tallied() && tokens == []
      ensures inTime ==>
          sink.Written() == Closed(old(sink.Written()) + PlanBits(p, last, |old(sink.Written())|), last)
      ensures inTime && last ==> sink.biValid == 0
    {
      hide CodesFor, PlanBits, LitFreqs, DistFreqs, ItemFreqs, IsPlan, Best, PlanInTime, Laid, Safe;
      ghost var at := |sink.Written()| % 8;
      inTime, p, dynamic, optLen, staticLen := PlanAndSend(text, last);
      if Safe(tokens, litBufsize, fixed) {
        SafeInTime(p, dynamic, tokens, text, fixed, last, optLen, staticLen, litBufsize, at);
      }
      if !inTime {
        return;
      }
      if last {
        Align(sink);
      }
      sink.FlushPending();
      InitBlock();
    }

    /** The final block is followed by zeros up to a byte boundary. */
    static function Closed(w: seq<bool>, last: bool): seq<bool> {
      if last then w + Pad(|w|) else w
    }
  }
}
