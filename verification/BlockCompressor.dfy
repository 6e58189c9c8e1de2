/** The compressor's back end for one block: sort, code, write. */
module BlockCompressor {
  import opened Permutations
  import opened Bytes
  import opened Bits
  import opened BitIO
  import opened Canonical
  import opened Bwt
  import opened ByteMap
  import opened Mtf
  import opened FallbackSort
  import opened BlockFormat
  import opened BlockData
  import opened BlockHeader
  import opened BlockWriter
  import opened TableChoice
  import opened BlockCodec
  import MtfEncoder

  /** BZ2_blockSort, fallback sorter only: the sorted order and the primary index. */
  method BlockSort(bytes: seq<int>) returns (ptr: array<int>, block: array<int>, origPtr: int)
    requires 0 < |bytes| <= 900000 && IsBytes(bytes)
    ensures fresh(ptr) && fresh(block) && block[..] == bytes && ptr.Length == |bytes|
    ensures SortedRotations(bytes, ptr[..]) && 0 <= origPtr < |bytes| && ptr[origPtr] == 0
  {
    hide SortedRotations;
    var n := |bytes|;
    ptr := new int[n];
    block := new int[n](i requires 0 <= i < n => bytes[i]);
    assert block[..] == bytes;
    var eclass := new int[n];
    var bh := new bool[32 * (n / 32 + 3)];
    FallbackSort.FallbackSort(ptr, eclass, block, bh, n);
    SortedIsPerm(bytes, ptr[..]);
    origPtr := FindOrigPtr(ptr, n);
  }

  lemma SortedIsPerm(b: seq<int>, f: seq<int>)
    requires SortedRotations(b, f)
    ensures IsPerm(f, |b|)
  {
  }

  /** What sendMTFValues writes. */
  ghost function SentBits(inUse: seq<bool>, lens: seq<seq<int>>, sel: seq<int>, syms: seq<int>,
                          alphaSize: nat): seq<bool>
    requires |inUse| == 256 && AllIn(sel, 0, Identity(|lens|)) && Codable(lens, sel, syms, alphaSize)
  {
    MapBits(inUse) + (SelectorBits(|lens|, SelectorPlaces(Identity(|lens|), sel, 0)) + TablesBits(lens, 0)) +
    DataBits(lens, sel, syms, alphaSize, 0)
  }

  lemma ChosenCodable(lens: seq<seq<int>>, sel: seq<int>, syms: seq<int>, alphaSize: nat)
    requires Complete(lens, alphaSize) && 0 < alphaSize <= MAX_ALPHA_SIZE && InAlphabet(syms, alphaSize)
    requires |sel| == Groups(|syms|) && 0 < |syms| <= 900001 && forall g :: 0 <= g < |sel| ==> 0 <= sel[g] < |lens|
    ensures Codable(lens, sel, syms, alphaSize) && 1 <= |sel| <= 2 + 900000 / GROUP_SIZE
  {
    hide Complete;
    CompleteLengths(lens, alphaSize);
  }

  /** sendMTFValues: chooses tables and writes map, selectors, tables and data. The number of selectors
      stays within the room that its assertion gives it. */
  method SendMTFValues(w: BitWriter, mtfFreq: array<int>, syms: seq<int>, inUse: array<bool>, alphaSize: nat)
    returns (lens: seq<seq<int>>, sel: seq<int>)
    requires w.Valid() && inUse.Length == 256 && 2 <= alphaSize <= MAX_ALPHA_SIZE && alphaSize <= mtfFreq.Length
    requires InAlphabet(syms, alphaSize) && 0 < |syms| <= 900001
    modifies w
    ensures 2 <= |lens| <= MAX_GROUPS && Complete(lens, alphaSize) && 1 <= |sel| <= 2 + 900000 / GROUP_SIZE
    ensures Codable(lens, sel, syms, alphaSize) && AllIn(sel, 0, Identity(|lens|))
    ensures w.Valid() && w.Written() == old(w.Written()) + SentBits(inUse[..], lens, sel, syms, alphaSize)
  {
    hide Complete, Codable, CodesFor, Kraft, Pow2, ToBits, MapBits, SelectorBits, TablesBits, DataBits, SelectorPlaces,
         AllLengths;
    ghost var before, flags := w.Written(), inUse[..];
    lens, sel := ChooseTables(mtfFreq, syms, alphaSize);
    ChosenCodable(lens, sel, syms, alphaSize);
    CompleteLengths(lens, alphaSize);
    var m := MoveSelectors(sel, |lens|);
    var codes := MakeAllCodes(lens, alphaSize);
    WriteMap(w, inUse);
    WriteSelectors(w, |lens|, m);
    WriteTables(w, lens, alphaSize);
    WriteData(w, lens, codes, sel, syms, alphaSize);
    FirstLengths(lens, alphaSize);
    Group4(before, MapBits(flags), SelectorBits(|lens|, m), TablesBits(lens, 0),
        DataBits(lens, sel, syms, alphaSize, 0));
  }

  lemma FirstLengths(lens: seq<seq<int>>, alphaSize: nat)
    requires AllLengths(lens, alphaSize)
    ensures forall k :: 0 <= k < |lens| ==> 0 < |lens[k]| && 0 <= lens[k][0]
  {
  }

  lemma Group4(s: seq<bool>, a: seq<bool>, b: seq<bool>, c: seq<bool>, d: seq<bool>)
    ensures s + a + b + c + d == s + (a + (b + c) + d)
  {
  }

  lemma SymbolRange(ch: Choice, b: Block, syms: seq<int>)
    requires Sorts(ch, b) && syms == AllSymbols(ch, b)
    ensures InAlphabet(syms, Alphabet(b)) && 3 <= Alphabet(b) <= MAX_ALPHA_SIZE
  {
    hide BlockSymbols, Decode;
    UsedBytes(b);
    SymbolsDecode(ch, b);
  }

  /** generateMTFValues for a sorted block, with the symbols as a list. */
  method CodeBlock(b: Block, ptr: array<int>, block: array<int>, inUse: array<bool>, origPtr: int)
    returns (syms: seq<int>, mtfFreq: array<int>, nInUse: nat)
    requires Codes(b) && block[..] == b.bytes && inUse[..] == b.inUse && ptr.Length == |b.bytes|
    requires SortedRotations(b.bytes, ptr[..]) && 0 <= origPtr < |b.bytes| && ptr[origPtr] == 0
    ensures fresh(mtfFreq) && mtfFreq.Length == MAX_ALPHA_SIZE && nInUse == |Used(b.inUse)|
    ensures Sorts(Choice(ptr[..], origPtr, [], []), b)
    ensures syms == AllSymbols(Choice(ptr[..], origPtr, [], []), b) && 0 < |syms| <= |b.bytes| + 1
    ensures InAlphabet(syms, nInUse + 2) && 3 <= nInUse + 2 <= MAX_ALPHA_SIZE
  {
    hide SortedRotations, Encode, UsedUpTo, Used, Rank, MtfEncoder.RankedColumn;
    ghost var ch := Choice(ptr[..], origPtr, [], []);
    UsedBytes(b);
    SortedIsPerm(b.bytes, ptr[..]);
    assert block[..|b.bytes|] == b.bytes;
    var sw;
    sw, nInUse := MtfEncoder.GenerateMTFValues(ptr, block, inUse, |b.bytes|);
    syms, mtfFreq := sw.mtfv[..sw.wr], sw.mtfFreq;
    assert syms == AllSymbols(ch, b);
    SymbolRange(ch, b, syms);
  }

  function BlockMark(): (s: seq<int>)
    ensures IsBytes(s) && |s| == 6
  {
    [0x31, 0x41, 0x59, 0x26, 0x53, 0x59]
  }

  /** The choices made for a block and the bits written for it. */
  lemma Sealed(ch0: Choice, ch: Choice, b: Block, before: seq<bool>, mark: seq<bool>, crc: seq<bool>)
    requires Sorts(ch0, b) && ch0.f == ch.f && ch0.o == ch.o
    requires 2 <= |ch.lens| <= MAX_GROUPS && Complete(ch.lens, Alphabet(b)) && 1 <= |ch.sel| <= 2 + 900000 / GROUP_SIZE
    requires Codable(ch.lens, ch.sel, AllSymbols(ch0, b), Alphabet(b)) && AllIn(ch.sel, 0, Identity(|ch.lens|))
    requires crc == ToBits(CrcNumber(Finalise(b.crc)), 32)
    ensures Fits(ch, b) && AllSymbols(ch, b) == AllSymbols(ch0, b)
    ensures before + mark + crc + ToBits(0, 1) + ToBits(ch.o, 24) +
        SentBits(b.inUse, ch.lens, ch.sel, AllSymbols(ch, b), Alphabet(b)) ==
            before + mark + CodeBits(ch, b)
  {
    hide ToBits, MapBits, SelectorBits, TablesBits, DataBits, SelectorPlaces, Complete, Codable, SortedRotations,
         CrcNumber;
    UsedBytes(b);
    CompleteLengths(ch.lens, Alphabet(b));
    FirstLengths(ch.lens, Alphabet(b));
    var places := SelectorPlaces(Identity(|ch.lens|), ch.sel, 0);
    var sel, tab := SelectorBits(|ch.lens|, places), TablesBits(ch.lens, 0);
    var used, data := MapBits(b.inUse), DataBits(ch.lens, ch.sel, AllSymbols(ch, b), Alphabet(b), 0);
    Nest(before + mark, crc, ToBits(0, 1), ToBits(ch.o, 24), used, sel + tab, data);
  }

  lemma Nest(s: seq<bool>, a: seq<bool>, b: seq<bool>, c: seq<bool>, d: seq<bool>, e: seq<bool>, f: seq<bool>)
    ensures s + a + b + c + (d + e + f) == s + (a + (b + (c + (d + e))) + f)
  {
  }

  /** BZ2_compressBlock for a block with something in it. */
  method CompressBlock(w: BitWriter, b: Block) returns (ghost ch: Choice)
    requires w.Valid() && Codes(b)
    modifies w
    ensures w.Valid() && Fits(ch, b)
    ensures w.Written() == old(w.Written()) + MarkBits(BlockMark(), 0) + CodeBits(ch, b)
  {
    hide ToBits, Pow2, CodeBits, SentBits, CrcNumber, AllSymbols, Complete, Codable, SortedRotations, MarkBits,
         SelectorPlaces, Used, UsedUpTo, InAlphabet;
    ghost var before := w.Written();
    var ptr, block, origPtr := BlockSort(b.bytes);
    var inUse := new bool[256](i requires 0 <= i < 256 => b.inUse[i]);
    assert inUse[..] == b.inUse;
    WriteMark(w, BlockMark());
    PutUInt32(w, CrcNumber(Finalise(b.crc)));
    BytePowers();
    OneBit();
    w.Put(1, 0);
    w.Put(24, origPtr);
    var syms, mtfFreq, nInUse := CodeBlock(b, ptr, block, inUse, origPtr);
    var lens, sel := SendMTFValues(w, mtfFreq, syms, inUse, nInUse + 2);
    ch := Choice(ptr[..], origPtr, lens, sel);
    Sealed(Choice(ptr[..], origPtr, [], []), ch, b, before, MarkBits(BlockMark(), 0),
        ToBits(CrcNumber(Finalise(b.crc)), 32));
  }
}
