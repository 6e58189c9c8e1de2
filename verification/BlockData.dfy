/** The block data: symbols in groups of fifty, each group coded with the table its selector names, and what
    the decoder makes of them. */
module BlockData {
  import opened Bits
  import opened BitIO
  import opened Canonical
  import opened SymbolFetch
  import opened RunLength
  import opened Mtf
  import opened BlockFormat

  // ---------- writing ----------

  /** There is a selector for every group and a code for every symbol. */
  ghost predicate Codable(lens: seq<seq<int>>, sel: seq<int>, syms: seq<int>, alphaSize: nat) {
    && AllLengths(lens, alphaSize)
    && (forall g :: 0 <= g < |sel| ==> 0 <= sel[g] < |lens|)
    && |syms| <= GROUP_SIZE * |sel|
    && (forall i :: 0 <= i < |syms| ==> 0 <= syms[i] < alphaSize)
  }

  ghost function SymBits(lens: seq<seq<int>>, sel: seq<int>, syms: seq<int>, alphaSize: nat, i: nat): seq<bool>
    requires Codable(lens, sel, syms, alphaSize) && i < |syms|
  {
    Codeword(lens[sel[i / GROUP_SIZE]], syms[i])
  }

  /** The bits of the symbols from i on. */
  ghost function DataBits(lens: seq<seq<int>>, sel: seq<int>, syms: seq<int>, alphaSize: nat, i: nat): seq<bool>
    requires Codable(lens, sel, syms, alphaSize) && i <= |syms|
    decreases |syms| - i
  {
    if i == |syms| then []
    else SymBits(lens, sel, syms, alphaSize, i) + DataBits(lens, sel, syms, alphaSize, i + 1)
  }

  // ---------- reading ----------

  function MaxLength(len: seq<int>): (m: int)
    ensures forall i :: 0 <= i < |len| ==> len[i] <= m
    ensures m == 0 || m in len
  {
    if len == [] then 0
    else
      var m := MaxLength(len[..|len|-1]);
      if len[|len|-1] > m then len[|len|-1] else m
  }

  function MinLength(len: seq<int>): (m: int)
    ensures forall i :: 0 <= i < |len| ==> m <= len[i]
    ensures m == 32 || m in len
  {
    if len == [] then 32
    else
      var m := MinLength(len[..|len|-1]);
      if len[|len|-1] < m then len[|len|-1] else m
  }

  /** The shortest and the longest code of a table. */
  method LengthRange(len: seq<int>) returns (minLen: int, maxLen: int)
    ensures minLen == MinLength(len) && maxLen == MaxLength(len)
  {
    minLen, maxLen := 32, 0;
    var i := 0;
    while i < |len|
      invariant 0 <= i <= |len| && minLen == MinLength(len[..i]) && maxLen == MaxLength(len[..i])
    {
      assert len[..i + 1][..i] == len[..i];
      if len[i] > maxLen {
        maxLen := len[i];
      }
      if len[i] < minLen {
        minLen := len[i];
      }
      i := i + 1;
    }
    assert len[..i] == len;
  }

  /** What the decoder holds when the block data begins: decoding tables and the lengths they were made for,
      selectors, and the size a block may have. */
  datatype Coding = Coding(ts: seq<CodeTable>, lens: seq<seq<int>>, sel: seq<int>, alphaSize: nat, max: nat)

  /** The decoding tables fit the lengths, and selectors name tables. */
  ghost predicate Ready(c: Coding) {
    && AllLengths(c.lens, c.alphaSize) && |c.ts| == |c.lens|
    && (forall t :: 0 <= t < |c.ts| ==> TableFor(c.ts[t], c.lens[t], MaxLength(c.lens[t])))
    && (forall g :: 0 <= g < |c.sel| ==> 0 <= c.sel[g] < |c.ts|)
  }

  /** GET_MTF_VAL for the k-th symbol of the block. */
  ghost function NthSym(c: Coding, bits: seq<bool>, pos: nat, k: nat): Fetch
    requires Ready(c)
  {
    if k / GROUP_SIZE >= |c.sel| then Bad else FetchSym(c.ts[c.sel[k / GROUP_SIZE]], bits, pos)
  }

  lemma {:induction false} FetchForward(t: CodeTable, bits: seq<bool>, pos: nat, zn: nat, zvec: nat)
    requires TableShape(t) && pos <= |bits|
    ensures var r := FetchFrom(t, bits, pos, zn, zvec); r.Sym? ==> pos <= r.pos <= |bits|
    decreases 21 - zn
  {
    if zn <= 20 && zvec > t.limit[zn] && pos < |bits| {
      FetchForward(t, bits, pos + 1, zn + 1, 2 * zvec + Bit(bits[pos]));
    }
  }

  /** Whatever the lengths, a symbol read is one of the alphabet, and bits have been used up. */
  lemma SymInRange(c: Coding, bits: seq<bool>, pos: nat, k: nat)
    requires Ready(c)
    ensures var r := NthSym(c, bits, pos, k); r.Sym? ==> 0 <= r.s < c.alphaSize && pos < r.pos <= |bits|
  {
    hide FetchFrom, Tables;
    if k / GROUP_SIZE < |c.sel| {
      var u := c.sel[k / GROUP_SIZE];
      var t := c.ts[u];
      if pos + t.minLen <= |bits| {
        FetchForward(t, bits, pos + t.minLen, t.minLen, FromBits(bits[pos..pos + t.minLen]));
        FirstAtMin(t, c.lens[u], MaxLength(c.lens[u]));
        FetchSoundFrom(t, c.lens[u], MaxLength(c.lens[u]), bits, pos, t.minLen);
      }
    }
  }

  lemma FirstAtMin(t: CodeTable, len: seq<int>, maxLen: int)
    requires TableFor(t, len, maxLen)
    ensures First(len, t.minLen) == 0
  {
    NoneShorter(len, t.minLen);
  }

  const RUN_LIMIT := 0x20_0000

  /** The column the decoder makes of the symbols from the k-th on: yy is its move-to-front list, col what it
      has so far and run the length so far of the run being read, whose next digit weighs n. */
  ghost function Unpack(c: Coding, bits: seq<bool>, pos: nat, k: nat, yy: seq<int>, col: seq<int>, run: nat,
                        n: nat): Got<seq<int>>
    requires Ready(c) && 1 <= |yy| == c.alphaSize - 2 && pos <= |bits|
    decreases |bits| - pos, 0
  {
    SymInRange(c, bits, pos, k);
    match NthSym(c, bits, pos, k)
    case Short => Starved
    case Bad => Corrupt
    case Sym(s, p) => UnpackWith(c, bits, p, s, k + 1, yy, col, run, n)
  }

  /** The same once the next symbol s has been read. */
  ghost function UnpackWith(c: Coding, bits: seq<bool>, pos: nat, s: nat, k: nat, yy: seq<int>, col: seq<int>, run: nat,
                            n: nat): Got<seq<int>>
    requires Ready(c) && 1 <= |yy| == c.alphaSize - 2 && pos <= |bits| && s < c.alphaSize
    decreases |bits| - pos, 1
  {
    if s <= RUNB then
      if n >= RUN_LIMIT then Corrupt else Unpack(c, bits, pos, k, yy, col, run + (s + 1) * n, 2 * n)
    else if |col| + run > c.max then Corrupt
    else
      var done := col + Rep(yy[0], run);
      if s == |yy| + 1 then Got(done, pos)
      else if |done| >= c.max then Corrupt
      else Unpack(c, bits, pos, k, MoveFront(yy, s - 1), done + [yy[s - 1]], 0, 1)
  }

  // ---------- round trip ----------

  lemma {:induction false} KraftUp(len: seq<int>, l: nat, e: nat)
    requires l <= e && (forall i :: 0 <= i < |len| ==> 0 <= len[i] <= l) && Kraft(len, l) <= Pow2(l)
    ensures Kraft(len, e) <= Pow2(e)
    decreases e
  {
    if l < e {
      KraftUp(len, l, e - 1);
      KraftStep(len, e - 1);
      NoCount(len, e);
    }
  }

  /** A written symbol is read back. */
  lemma SymRoundTrip(c: Coding, syms: seq<int>, bits: seq<bool>, pos: nat, k: nat)
    requires Ready(c) && Codable(c.lens, c.sel, syms, c.alphaSize) && k < |syms|
    requires forall t :: 0 <= t < |c.lens| ==> Kraft(c.lens[t], 20) <= Pow2(20)
    requires Has(bits, pos, SymBits(c.lens, c.sel, syms, c.alphaSize, k))
    ensures NthSym(c, bits, pos, k) == Sym(syms[k], pos + |SymBits(c.lens, c.sel, syms, c.alphaSize, k)|)
  {
    hide Kraft, Pow2, FetchSym, Tables, Codeword;
    var u := c.sel[k / GROUP_SIZE];
    FetchCodeword(c.ts[u], c.lens[u], MaxLength(c.lens[u]), bits, pos, syms[k]);
  }

  lemma {:induction false} DecodeAtLeast(yy: seq<int>, syms: seq<int>, run: nat, n: nat)
    requires yy != [] && Symbols(syms, |yy|)
    ensures |Decode(yy, syms, run, n)| >= run
    decreases |syms|
  {
    if syms != [] && syms[0] <= RUNB {
      DecodeAtLeast(yy, syms[1..], run + (syms[0] + 1) * n, 2 * n);
    }
  }

  /** The open run is at least as long as the digits read make it. */
  lemma WeightBound(s: nat, run: nat, n: nat, total: nat)
    requires n <= run + 1 && run + (s + 1) * n <= total
    ensures 2 * n <= total + 1 && 2 * n <= run + (s + 1) * n + 1
  {
    assert (s + 1) * n == s * n + n;
  }

  /** Everything a symbol list stands for comes out of its bits: the end mark, coming last, stops the decoder
      right behind them. */
  lemma {:induction false} UnpackData(c: Coding, bits: seq<bool>, pos: nat, k: nat, yy: seq<int>, col: seq<int>,
                                      run: nat, n: nat, syms: seq<int>)
    requires Ready(c) && 1 <= |yy| == c.alphaSize - 2 && pos <= |bits| && k <= |syms|
    requires Codable(c.lens, c.sel, syms + [|yy| + 1], c.alphaSize) && Symbols(syms[k..], |yy|)
    requires forall t :: 0 <= t < |c.lens| ==> Kraft(c.lens[t], 20) <= Pow2(20)
    requires Has(bits, pos, DataBits(c.lens, c.sel, syms + [|yy| + 1], c.alphaSize, k))
    requires |col| + |Decode(yy, syms[k..], run, n)| <= c.max < RUN_LIMIT && 1 <= n <= run + 1
    ensures Unpack(c, bits, pos, k, yy, col, run, n) ==
            Got(col + Decode(yy, syms[k..], run, n), pos + |DataBits(c.lens, c.sel, syms + [|yy| + 1], c.alphaSize, k)|)
    decreases |syms| - k
  {
    hide Kraft, Pow2, Ready, Codable, SymBits, NthSym, Symbols, Rep, MoveFront;
    var all := syms + [|yy| + 1];
    SymInRange(c, bits, pos, k);
    HasSplit(bits, pos, SymBits(c.lens, c.sel, all, c.alphaSize, k), DataBits(c.lens, c.sel, all, c.alphaSize, k + 1));
    SymRoundTrip(c, all, bits, pos, k);
    var p := pos + |SymBits(c.lens, c.sel, all, c.alphaSize, k)|;
    DecodeAtLeast(yy, syms[k..], run, n);
    DecodeNext(yy, syms, k, run, n);
    if k < |syms| {
      var s := syms[k];
      assert all[k] == s;
      if s <= RUNB {
        DecodeAtLeast(yy, syms[k + 1..], run + (s + 1) * n, 2 * n);
        WeightBound(s, run, n, c.max);
        UnpackData(c, bits, p, k + 1, yy, col, run + (s + 1) * n, 2 * n, syms);
      } else {
        var done := col + Rep(yy[0], run);
        var next := MoveFront(yy, s - 1);
        UnpackData(c, bits, p, k + 1, next, done + [yy[s - 1]], 0, 1, syms);
        JoinColumn(col, Rep(yy[0], run), yy[s - 1], Decode(next, syms[k + 1..], 0, 1));
      }
    } else {
      assert all[k] == |yy| + 1;
    }
  }

  lemma JoinColumn(a: seq<int>, b: seq<int>, c: int, d: seq<int>)
    ensures a + b + [c] + d == a + (b + ([c] + d))
  {
  }

  /** One step of Decode at position k. */
  lemma DecodeNext(yy: seq<int>, syms: seq<int>, k: nat, run: nat, n: nat)
    requires yy != [] && k <= |syms| && Symbols(syms[k..], |yy|)
    ensures k == |syms| ==> Decode(yy, syms[k..], run, n) == Rep(yy[0], run) && |Rep(yy[0], run)| == run
    ensures k < |syms| ==> 0 <= syms[k] <= |yy| && Symbols(syms[k + 1..], |yy|)
    ensures k < |syms| && syms[k] <= RUNB ==>
      Decode(yy, syms[k..], run, n) == Decode(yy, syms[k + 1..], run + (syms[k] + 1) * n, 2 * n)
    ensures k < |syms| && syms[k] > RUNB ==>
      Decode(yy, syms[k..], run, n) ==
        Rep(yy[0], run) + ([yy[syms[k] - 1]] + Decode(MoveFront(yy, syms[k] - 1), syms[k + 1..], 0, 1))
  {
    if k < |syms| {
      assert syms[k..][1..] == syms[k + 1..];
      assert syms[k..][0] == syms[k];
    }
  }
}
