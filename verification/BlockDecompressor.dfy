/** The decompressor's front end for one block: header fields, tables, column. */
module BlockDecompressor {
  import opened Bytes
  import opened Bits
  import opened BitIO
  import opened Counting
  import opened Canonical
  import opened SymbolFetch
  import opened ByteMap
  import opened BlockFormat
  import opened BlockData
  import opened BlockReader
  import opened ColumnReader
  import opened BlockHeader
  import opened BlockCodec

  method ReadNumbers(r: BitReader, max: nat) returns (st: Status, n: Numbers)
    requires r.Valid()
    modifies r
    ensures r.Valid() && Reports(st, ParseNumbers(r.Bits(), old(r.Pos()), max))
    ensures st.Ok? ==> ParseNumbers(r.Bits(), old(r.Pos()), max) == Got(n, r.Pos()) && 0 <= n.origPtr
  {
    hide FromBits, ToBits, Pow2;
    n := Numbers(0, 0, 0);
    var crc, randomised, origPtr;
    st, crc := ReadBig(r, 4);
    if !st.Ok? {
      return;
    }
    randomised := r.GetBits(1);
    if !randomised.Got? {
      st := Starving;
      return;
    }
    st, origPtr := ReadBig(r, 3);
    if !st.Ok? {
      return;
    }
    if origPtr > 10 + max {
      st := DataError;
      return;
    }
    n := Numbers(crc, randomised.value, origPtr);
  }

  method ReadCoding(r: BitReader, alphaSize: nat) returns (st: Status, t: Tabled)
    requires r.Valid() && 0 < alphaSize <= MAX_ALPHA_SIZE
    modifies r
    ensures r.Valid() && Reports(st, ParseCoding(r.Bits(), old(r.Pos()), alphaSize))
    ensures st.Ok? ==> ParseCoding(r.Bits(), old(r.Pos()), alphaSize) == Got(t, r.Pos())
    ensures st.Ok? ==> AllLengths(t.lens, alphaSize) && forall g :: 0 <= g < |t.sel| ==> 0 <= t.sel[g] < |t.lens|
  {
    hide ParseSelectors, ParseTables, AllLengths, PlacedSelectors, ToBits, Pow2;
    t := Tabled([], []);
    var selectorMtf, selector := new int[MAX_SELECTORS], new int[MAX_SELECTORS];
    var nGroups, nSelectors, lens;
    st, nGroups, nSelectors := ReadSelectors(r, selectorMtf);
    if !st.Ok? {
      return;
    }
    UndoSelectors(selectorMtf, selector, nGroups, nSelectors);
    var sel := selector[..nSelectors];
    st, lens := ReadTables(r, alphaSize, nGroups);
    if !st.Ok? {
      return;
    }
    t := Tabled(sel, lens);
  }

  method ReadFront(r: BitReader, max: nat) returns (st: Status, h: Front, used: seq<int>)
    requires r.Valid()
    modifies r
    ensures r.Valid() && Reports(st, ParseFront(r.Bits(), old(r.Pos()), max))
    ensures st.Ok? ==> ParseFront(r.Bits(), old(r.Pos()), max) == Got(h, r.Pos()) && 0 <= h.numbers.origPtr
    ensures st.Ok? ==>
        used == Used(h.inUse) && 1 <= |used| <= 256 && IsBytes(used) && AllLengths(h.tabled.lens, |used| + 2)
    ensures st.Ok? ==> forall g :: 0 <= g < |h.tabled.sel| ==> 0 <= h.tabled.sel[g] < |h.tabled.lens|
  {
    hide ParseNumbers, ParseMap, ParseCoding, AllLengths, UsedUpTo, ToBits, Pow2;
    h, used := Front(Numbers(0, 0, 0), [], Tabled([], [])), [];
    var n, t;
    st, n := ReadNumbers(r, max);
    if !st.Ok? {
      return;
    }
    var inUse := new bool[256];
    st := ReadMap(r, inUse);
    if !st.Ok? {
      return;
    }
    var nInUse, seqToUnseq := MakeMapsDecode(inUse);
    used := seqToUnseq[..nInUse];
    UsedAreBytes(inUse[..]);
    if nInUse == 0 {
      st := DataError;
      return;
    }
    st, t := ReadCoding(r, nInUse + 2);
    if !st.Ok? {
      return;
    }
    h := Front(n, inUse[..], t);
  }

  lemma UsedAreBytes(inUse: seq<bool>)
    requires |inUse| == 256
    ensures IsBytes(Used(inUse))
  {
  }

  /** The block behind its mark, up to the primary index check. The tables made on the way are returned as
      ts, so that the outcome is a function of the bits. */
  method ReadBlock(r: BitReader, max: nat, tt: array<int>)
    returns (st: Status, n: Numbers, nblock: nat, unzftab: array<int>, ghost ts: seq<CodeTable>)
    requires r.Valid() && max <= tt.Length
    modifies r, tt
    ensures r.Valid() && MadeFor(ts, r.Bits(), old(r.Pos()), max)
    ensures Reports(st, ParseBlock(r.Bits(), old(r.Pos()), max, ts))
    ensures st.Ok? ==> nblock <= max && 0 <= n.origPtr < nblock && IsBytes(tt[..nblock])
    ensures st.Ok? ==> ParseBlock(r.Bits(), old(r.Pos()), max, ts) == Got(Parsed(n, tt[..nblock]), r.Pos())
    ensures st.Ok? ==>
        fresh(unzftab) && unzftab.Length == 256 && forall c :: 0 <= c < 256 ==> unzftab[c] == Count(tt[..nblock], c)
  {
    hide ParseFront, ParseData, AllLengths, UsedUpTo, Used, Made, ToBits, Pow2, Count;
    ts, nblock, n := [], 0, Numbers(0, 0, 0);
    unzftab := new int[256];
    var h, used;
    st, h, used := ReadFront(r, max);
    if !st.Ok? {
      return;
    }
    n := h.numbers;
    var tables := MakeTables(h.tabled.lens, |used| + 2);
    ts := tables;
    MadeIs(ts, h.tabled.lens);
    st, nblock, unzftab := ReadData(r, max, tt, used, h.tabled, tables, n);
  }

  lemma MadeIs(ts: seq<CodeTable>, lens: seq<seq<int>>)
    requires |ts| == |lens|
    requires forall t :: 0 <= t < |ts| ==>
        TableFor(ts[t], lens[t], MaxLength(lens[t])) && ts[t].minLen == MinLength(lens[t])
    ensures Made(ts, lens)
  {
  }

  /** The block data, and whether the primary index lies inside the block. */
  method ReadData(r: BitReader, max: nat, tt: array<int>, used: seq<int>, t: Tabled, ts: seq<CodeTable>, n: Numbers)
    returns (st: Status, nblock: nat, unzftab: array<int>)
    requires r.Valid() && max <= tt.Length && 1 <= |used| <= 256 && IsBytes(used) && Made(ts, t.lens)
    requires AllLengths(t.lens, |used| + 2) && 0 <= n.origPtr
    requires forall g :: 0 <= g < |t.sel| ==> 0 <= t.sel[g] < |t.lens|
    modifies r, tt
    ensures r.Valid() && Reports(st, ParseData(r.Bits(), old(r.Pos()), used, t, ts, n, max))
    ensures st.Ok? ==> nblock <= max && 0 <= n.origPtr < nblock && IsBytes(tt[..nblock])
    ensures st.Ok? ==> ParseData(r.Bits(), old(r.Pos()), used, t, ts, n, max) == Got(Parsed(n, tt[..nblock]), r.Pos())
    ensures fresh(unzftab) && unzftab.Length == 256
    ensures st.Ok? ==> forall c :: 0 <= c < 256 ==> unzftab[c] == Count(tt[..nblock], c)
  {
    hide AllLengths, TableFor, Unpack, ToBits, Pow2, Count, UnrankedColumn;
    ghost var bits, p := r.Bits(), r.Pos();
    var c := Coding(ts, t.lens, t.sel, |used| + 2, max);
    var u := new Unpacker(r, c, used, tt);
    nblock, unzftab := 0, u.unzftab;
    st := u.ReadColumn();
    if !st.Ok? {
      return;
    }
    nblock := u.nblock;
    HeldColumn(used, u.col, tt[..], unzftab[..]);
    if n.origPtr >= nblock {
      st := DataError;
      return;
    }
  }

  /** A filled column as bytes. */
  lemma HeldColumn(used: seq<int>, col: seq<int>, tt: seq<int>, unzftab: seq<int>)
    requires IsBytes(used) && AllBelow(col, |used|) && Holding(tt, unzftab, Unranks(used, col))
    ensures |col| <= |tt| && tt[..|col|] == UnrankedColumn(used, col) && IsBytes(tt[..|col|])
    ensures |unzftab| == 256 && forall c :: 0 <= c < 256 ==> unzftab[c] == Count(tt[..|col|], c)
  {
  }
}
