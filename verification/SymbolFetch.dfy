/** Reading one Huffman-coded symbol bit by bit against the decoder's tables. */
module SymbolFetch {
  import opened Counting
  import opened Bits
  import opened Canonical

  datatype CodeTable = CodeTable(minLen: int, limit: seq<int>, base: seq<int>, perm: seq<int>)

  /** A symbol and the position behind it, or too few bits, or no such code. */
  datatype Fetch = Sym(s: int, pos: nat) | Short | Bad

  predicate TableShape(t: CodeTable) {
    1 <= t.minLen <= 20 && |t.limit| == |t.base| == |t.perm| == MAX_ALPHA_SIZE
  }

  /** t was made for the lengths len. */
  ghost predicate TableFor(t: CodeTable, len: seq<int>, maxLen: int) {
    && TableShape(t) && IsLengths(len) && Tables(len, t.minLen, maxLen, t.limit, t.base, t.perm)
    && (forall n :: maxLen < n < MAX_CODE_LEN ==> t.limit[n] == 0 && t.base[n] == |len|)
  }

  /** zn bits spelling zvec have been read up to pos. */
  function FetchFrom(t: CodeTable, bits: seq<bool>, pos: nat, zn: nat, zvec: nat): Fetch
    requires TableShape(t)
    decreases 21 - zn
  {
    if zn > 20 then Bad
    else if zvec <= t.limit[zn] then
      var k := zvec - t.base[zn];
      if k < 0 || k >= MAX_ALPHA_SIZE then Bad else Sym(t.perm[k], pos)
    else if pos >= |bits| then Short
    else FetchFrom(t, bits, pos + 1, zn + 1, 2 * zvec + Bit(bits[pos]))
  }

  function FetchSym(t: CodeTable, bits: seq<bool>, pos: nat): Fetch
    requires TableShape(t)
  {
    if pos + t.minLen > |bits| then Short
    else FetchFrom(t, bits, pos + t.minLen, t.minLen, FromBits(bits[pos..pos + t.minLen]))
  }

  /** The bits of symbol s. */
  function Codeword(len: seq<int>, s: nat): (c: seq<bool>)
    requires s < |len| && 0 <= len[s]
    ensures |c| == len[s]
  {
    ToBits(Code(len, s), len[s])
  }

  /** The prefix of a longer code lies above everything its level accepts. */
  lemma CodeAbove(t: CodeTable, len: seq<int>, maxLen: int, s: nat, n: nat)
    requires TableFor(t, len, maxLen) && s < |len| && t.minLen <= n < len[s]
    ensures n <= 20 && Code(len, s) / Pow2(len[s] - n) > t.limit[n]
  {
    hide First, Count, Pow2;
    FirstScales(len, n, len[s]);
    DivAtLeast(Code(len, s), Pow2(len[s] - n), First(len, n) + Count(len, n));
  }

  lemma DivAtLeast(a: nat, p: nat, q: nat)
    requires p >= 1 && q * p <= a
    ensures a / p >= q
  {
    DivMod(a, p);
    if a / p < q {
      MulGap(p, a / p, q);
    }
  }

  /** The first zn bits of a codeword spell its number without the rest. */
  lemma CodePrefix(len: seq<int>, s: nat, bits: seq<bool>, pos: nat, zn: nat)
    requires IsLengths(len) && s < |len| && Kraft(len, 20) <= Pow2(20) && zn <= len[s]
    requires pos + len[s] <= |bits| && bits[pos..pos + len[s]] == Codeword(len, s)
    ensures FromBits(bits[pos..pos + zn]) == Code(len, s) / Pow2(len[s] - zn)
  {
    hide First, Count, Pow2, ToBits, FromBits, Kraft;
    CodeFits(len, s);
    ToBitsPrefix(Code(len, s), len[s], zn);
    assert Codeword(len, s)[..zn] == bits[pos..pos + zn];
  }

  /** Its own level finds the symbol. */
  lemma FoundAtLast(t: CodeTable, len: seq<int>, maxLen: int, s: nat)
    requires TableFor(t, len, maxLen) && s < |len|
    ensures t.minLen <= len[s] <= 20 && Code(len, s) <= t.limit[len[s]]
    ensures 0 <= Code(len, s) - t.base[len[s]] < |len| && t.perm[Code(len, s) - t.base[len[s]]] == s
  {
    hide First, Count, Below, Place;
    CountWhole(len, len[s], s);
    PlaceAt(len, s);
    assert t.perm[..|len|][Place(len, s)] == s;
  }

  /** The levels before a symbol's own are passed over; its own level finds it. */
  lemma {:induction false} FetchLevels(t: CodeTable, len: seq<int>, maxLen: int, bits: seq<bool>, pos: nat, s: nat,
                                       zn: nat)
    requires TableFor(t, len, maxLen) && s < |len| && Kraft(len, 20) <= Pow2(20)
    requires pos + len[s] <= |bits| && bits[pos..pos + len[s]] == Codeword(len, s)
    requires t.minLen <= zn <= len[s]
    ensures FetchFrom(t, bits, pos + zn, zn, FromBits(bits[pos..pos + zn])) == Sym(s, pos + len[s])
    decreases len[s] - zn
  {
    hide First, Count, Pow2, Kraft, Code, Codeword, Unplaces, FromBits, Below, Tables;
    CodePrefix(len, s, bits, pos, zn);
    FoundAtLast(t, len, maxLen, s);
    if zn < len[s] {
      CodeAbove(t, len, maxLen, s, zn);
      FromBitsAppend(bits[pos..pos + zn], bits[pos + zn]);
      assert bits[pos..pos + zn] + [bits[pos + zn]] == bits[pos..pos + (zn + 1)];
      FetchLevels(t, len, maxLen, bits, pos, s, zn + 1);
    } else {
      DivByOne(Code(len, s));
    }
  }

  lemma DivByOne(v: nat)
    ensures v / Pow2(0) == v
  {
  }

  /** Every codeword followed by anything is read back as its symbol, bit for bit. */
  lemma FetchCodeword(t: CodeTable, len: seq<int>, maxLen: int, bits: seq<bool>, pos: nat, s: nat)
    requires TableFor(t, len, maxLen) && s < |len| && Kraft(len, 20) <= Pow2(20)
    requires pos + len[s] <= |bits| && bits[pos..pos + len[s]] == Codeword(len, s)
    ensures FetchSym(t, bits, pos) == Sym(s, pos + len[s])
  {
    hide Kraft, Pow2, Codeword, FetchFrom, Unplaces, FromBits, First, Count, Below;
    FoundAtLast(t, len, maxLen, s);
    FetchLevels(t, len, maxLen, bits, pos, s, t.minLen);
  }

  /** No codeword begins another. */
  lemma PrefixCode(t: CodeTable, len: seq<int>, maxLen: int, s: nat, u: nat)
    requires TableFor(t, len, maxLen) && s < |len| && u < |len| && Kraft(len, 20) <= Pow2(20)
    requires Codeword(len, s) <= Codeword(len, u)
    ensures s == u
  {
    hide Kraft, Pow2, FetchSym, Tables;
    var bits := Codeword(len, u);
    assert bits[0..0 + len[u]] == bits;
    assert bits[0..0 + len[s]] == Codeword(len, s);
    FetchCodeword(t, len, maxLen, bits, 0, s);
    FetchCodeword(t, len, maxLen, bits, 0, u);
  }

  lemma {:induction false} FetchSoundFrom(t: CodeTable, len: seq<int>, maxLen: int, bits: seq<bool>, pos: nat, zn: nat)
    requires TableFor(t, len, maxLen) && t.minLen <= zn && pos + zn <= |bits|
    requires zn <= 21 && FromBits(bits[pos..pos + zn]) >= First(len, zn)
    requires zn <= maxLen || FromBits(bits[pos..pos + zn]) >= 0
    ensures var r := FetchFrom(t, bits, pos + zn, zn, FromBits(bits[pos..pos + zn]));
            r.Sym? ==> 0 <= r.s < |len| && r.pos == pos + len[r.s] <= |bits| && bits[pos..r.pos] == Codeword(len, r.s)
    decreases 21 - zn
  {
    hide First, Count, Pow2, ToBits, Kraft, Below, FromBits;
    var zvec := FromBits(bits[pos..pos + zn]);
    if zn <= 20 && zvec <= t.limit[zn] {
      if zn <= maxLen {
        FoundAtLevel(t, len, maxLen, zn, zvec);
        NumberRoundTrip(bits[pos..pos + zn]);
      }
    } else if zn <= 20 && pos + zn < |bits| {
      FromBitsAppend(bits[pos..pos + zn], bits[pos + zn]);
      assert bits[pos..pos + zn] + [bits[pos + zn]] == bits[pos..pos + (zn + 1)];
      NextLevel(t, len, maxLen, zn, zvec);
      FetchSoundFrom(t, len, maxLen, bits, pos, zn + 1);
    }
  }

  lemma NextLevel(t: CodeTable, len: seq<int>, maxLen: int, zn: nat, zvec: nat)
    requires TableFor(t, len, maxLen) && t.minLen <= zn <= 20
    requires zvec >= First(len, zn) && zvec > t.limit[zn]
    ensures 2 * zvec >= First(len, zn + 1)
  {
    if zn > maxLen {
      NoCount(len, zn);
    }
  }

  /** An accepted number is the code of the symbol the tables name. */
  lemma FoundAtLevel(t: CodeTable, len: seq<int>, maxLen: int, zn: nat, zvec: nat)
    requires TableFor(t, len, maxLen) && t.minLen <= zn <= maxLen
    requires First(len, zn) <= zvec <= t.limit[zn]
    ensures 0 <= zvec - t.base[zn] < |len|
    ensures var s := t.perm[zvec - t.base[zn]]; 0 <= s < |len| && len[s] == zn && Code(len, s) == zvec
  {
    hide First, Count, Below, Place, Unplaces;
    var k := zvec - t.base[zn];
    BelowGap(len, zn, zn + 1);
    UnplacesInverse(len, t.perm[..|len|], k);
    var s := t.perm[..|len|][k];
    PlaceAt(len, s);
    PlaceInLevel(len, s, zn);
  }

  lemma PlaceInLevel(len: seq<int>, s: nat, zn: nat)
    requires s < |len| && Below(len, zn) <= Place(len, s) < Below(len, zn) + Count(len, zn)
    ensures len[s] == zn
  {
    hide First, Count, Below, Place;
    PlaceAt(len, s);
    CountWhole(len, len[s], s);
    BelowStep(len, len[s]);
    BelowStep(len, zn);
    if len[s] < zn {
      BelowMonotone(len, len[s] + 1, zn);
    } else if len[s] > zn {
      BelowMonotone(len, zn + 1, len[s]);
    }
  }

  /** Only codewords are ever read: a symbol comes out exactly when its bits stand there. */
  lemma FetchOnlyCodewords(t: CodeTable, len: seq<int>, maxLen: int, bits: seq<bool>, pos: nat, s: int, end: nat)
    requires TableFor(t, len, maxLen) && Kraft(len, 20) <= Pow2(20)
    ensures FetchSym(t, bits, pos) == Sym(s, end) <==>
      0 <= s < |len| && end == pos + len[s] <= |bits| && bits[pos..end] == Codeword(len, s)
  {
    hide Kraft, Pow2, Codeword, FetchFrom, Unplaces, FromBits, First, Count, Below;
    if pos + t.minLen <= |bits| {
      NoneShorter(len, t.minLen);
      FetchSoundFrom(t, len, maxLen, bits, pos, t.minLen);
    }
    if 0 <= s < |len| && end == pos + len[s] <= |bits| && bits[pos..end] == Codeword(len, s) {
      FetchCodeword(t, len, maxLen, bits, pos, s);
    }
  }
}
