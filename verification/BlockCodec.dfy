/** One compressed block from end to end: what the compressor may write for a block, and that the decompressor
    reads it back. */
module BlockCodec {
  import opened Bytes
  import opened Bits
  import opened BitIO
  import opened Canonical
  import opened SymbolFetch
  import opened Bwt
  import opened RunLength
  import opened ByteMap
  import opened Mtf
  import opened BlockFormat
  import opened BlockData
  import opened BlockHeader
  import opened TableChoice
  import RunEncoder
  import MtfEncoder

  type Block = RunEncoder.Block

  // ---------- what is written ----------

  /** What the compressor is free to choose: the order of equal rotations, the tables and who uses them. */
  datatype Choice = Choice(f: seq<int>, o: int, lens: seq<seq<int>>, sel: seq<int>)

  ghost predicate Codes(b: Block) {
    0 < |b.bytes| <= 900000 && IsBytes(b.bytes) && RunEncoder.MarksBytes(b.inUse, b.bytes)
  }

  ghost predicate Sorts(ch: Choice, b: Block) {
    Codes(b) && SortedRotations(b.bytes, ch.f) && 0 <= ch.o < |b.bytes| && ch.f[ch.o] == 0
  }

  ghost function Alphabet(b: Block): nat {
    |Used(b.inUse)| + 2
  }

  /** The symbols of the block, without the end mark. */
  ghost function BlockSymbols(ch: Choice, b: Block): seq<int>
    requires Sorts(ch, b)
  {
    MtfEncoder.RankedInRange(b.bytes, ch.f, b.inUse);
    Encode(Identity(|Used(b.inUse)|), MtfEncoder.RankedColumn(b.bytes, ch.f, b.inUse), 0)
  }

  /** All symbols. */
  ghost function AllSymbols(ch: Choice, b: Block): seq<int>
    requires Sorts(ch, b)
  {
    BlockSymbols(ch, b) + [|Used(b.inUse)| + 1]
  }

  ghost predicate Fits(ch: Choice, b: Block) {
    && Sorts(ch, b)
    && 2 <= |ch.lens| <= MAX_GROUPS && Complete(ch.lens, Alphabet(b))
    && Codable(ch.lens, ch.sel, AllSymbols(ch, b), Alphabet(b))
    && 1 <= |ch.sel| <= MAX_SELECTORS
  }

  /** Everything in front of the block data, behind the block's mark. */
  ghost function FrontBits(ch: Choice, b: Block): seq<bool>
    requires Fits(ch, b)
  {
    SelectorsInList(ch.sel, |ch.lens|);
    ToBits(CrcNumber(Finalise(b.crc)), 32) + (ToBits(0, 1) + (ToBits(ch.o, 24) + (MapBits(b.inUse) +
      (SelectorBits(|ch.lens|, SelectorPlaces(Identity(|ch.lens|), ch.sel, 0)) + TablesBits(ch.lens, 0)))))
  }

  ghost function CodeBits(ch: Choice, b: Block): seq<bool>
    requires Fits(ch, b)
  {
    FrontBits(ch, b) + DataBits(ch.lens, ch.sel, AllSymbols(ch, b), Alphabet(b), 0)
  }

  lemma SelectorsInList(sel: seq<int>, n: nat)
    ensures (forall g :: 0 <= g < |sel| ==> 0 <= sel[g] < n) ==> AllIn(sel, 0, Identity(n))
  {
    if forall g :: 0 <= g < |sel| ==> 0 <= sel[g] < n {
      forall k | 0 <= k < |sel|
        ensures sel[k] in Identity(n)
      {
        assert Identity(n)[sel[k]] == sel[k];
      }
    }
  }

  // ---------- what is read ----------

  datatype Numbers = Numbers(crc: int, randomised: int, origPtr: int)

  function ParseNumbers(bits: seq<bool>, pos: nat, max: nat): Got<Numbers> {
    match Take(bits, pos, 32)
    case Starved => Starved
    case Corrupt => Corrupt
    case Overrun => Overrun
    case Got(crc, p) =>
      match Take(bits, p, 1)
      case Starved => Starved
      case Corrupt => Corrupt
      case Overrun => Overrun
      case Got(randomised, q) =>
        match Take(bits, q, 24)
        case Starved => Starved
        case Corrupt => Corrupt
        case Overrun => Overrun
        case Got(origPtr, e) => if origPtr > 10 + max then Corrupt else Got(Numbers(crc, randomised, origPtr), e)
  }

  datatype Tabled = Tabled(sel: seq<int>, lens: seq<seq<int>>)

  lemma ParsedPlaces(bits: seq<bool>, pos: nat)
    ensures ParseSelectors(bits, pos).Got? ==>
      2 <= ParseSelectors(bits, pos).value.0 <= 6 &&
          AllPlaces(ParseSelectors(bits, pos).value.1, 0, ParseSelectors(bits, pos).value.0)
  {
    hide ParsePlaces;
    match Take(bits, pos, 3)
    case Starved =>
    case Corrupt =>
    case Overrun =>
    case Got(nGroups, p) =>
      if 2 <= nGroups <= 6 {
        match Take(bits, p, 15)
        case Starved =>
        case Corrupt =>
        case Overrun =>
        case Got(n, q) =>
          if n >= 1 {
            PlacesInRange(bits, q, nGroups, n, []);
          }
      }
  }

  lemma {:induction false} PlacesInRange(bits: seq<bool>, pos: nat, nGroups: nat, n: nat, done: seq<int>)
    requires 1 <= nGroups && AllPlaces(done, 0, nGroups)
    ensures var r := ParsePlaces(bits, pos, nGroups, n, done); r.Got? ==> AllPlaces(r.value, 0, nGroups)
    decreases n - |done|
  {
    hide ParseUnary;
    if |done| < n {
      ParsedUnary(bits, pos, 0, nGroups);
      match ParseUnary(bits, pos, 0, nGroups)
      case Starved =>
      case Corrupt =>
      case Overrun =>
      case Got(j, p) => PlacesInRange(bits, p, nGroups, n, done + [j]);
    }
  }

  function ParseCoding(bits: seq<bool>, pos: nat, alphaSize: nat): Got<Tabled> {
    ParsedPlaces(bits, pos);
    match ParseSelectors(bits, pos)
    case Starved => Starved
    case Corrupt => Corrupt
    case Overrun => Overrun
    case Got(s, p) =>
      match ParseTables(bits, p, alphaSize, s.0, [])
      case Starved => Starved
      case Corrupt => Corrupt
      case Overrun => Overrun
      case Got(lens, e) => Got(Tabled(PlacedSelectors(Identity(s.0), s.1, 0), lens), e)
  }

  datatype Parsed = Parsed(numbers: Numbers, column: seq<int>)

  /** The column as bytes, once the coding is known. */
  ghost function ParseData(bits: seq<bool>, pos: nat, used: seq<int>, t: Tabled, ts: seq<CodeTable>, n: Numbers,
                           max: nat): Got<Parsed> {
    var c := Coding(ts, t.lens, t.sel, |used| + 2, max);
    if !Ready(c) || used == [] || pos > |bits| then Corrupt
    else
      match Unpack(c, bits, pos, 0, Identity(|used|), [], 0, 1)
      case Starved => Starved
      case Corrupt => Corrupt
      case Overrun => Overrun
      case Got(col, e) =>
        if n.origPtr >= |col| then Corrupt
        else Got(Parsed(n, UnrankedColumn(used, col)), e)
  }

  /** Ranks looked up, as far as they are ranks. */
  ghost function UnrankedColumn(used: seq<int>, col: seq<int>): seq<int> {
    if forall i :: 0 <= i < |col| ==> 0 <= col[i] < |used| then Unranks(used, col) else []
  }

  /** Decoding tables made for these lengths. */
  ghost predicate Made(ts: seq<CodeTable>, lens: seq<seq<int>>) {
    |ts| == |lens| && forall t :: 0 <= t < |ts| ==> TableOf(ts[t], lens[t])
  }

  /** The decoding table for some lengths. */
  ghost predicate TableOf(t: CodeTable, len: seq<int>) {
    TableFor(t, len, MaxLength(len)) && t.minLen == MinLength(len)
  }

  /** Everything in front of the block data. */
  datatype Front = Front(numbers: Numbers, inUse: seq<bool>, tabled: Tabled)

  function ParseFront(bits: seq<bool>, pos: nat, max: nat): Got<Front> {
    match ParseNumbers(bits, pos, max)
    case Starved => Starved
    case Corrupt => Corrupt
    case Overrun => Overrun
    case Got(n, p) =>
      match ParseMap(bits, p)
      case Starved => Starved
      case Corrupt => Corrupt
      case Overrun => Overrun
      case Got(inUse, q) =>
        if Used(inUse) == [] then Corrupt
        else
          match ParseCoding(bits, q, |Used(inUse)| + 2)
          case Starved => Starved
          case Corrupt => Corrupt
          case Overrun => Overrun
          case Got(t, e) => Got(Front(n, inUse, t), e)
  }

  /** The whole block behind its mark, given the decoding tables that were made for its lengths. */
  ghost function ParseBlock(bits: seq<bool>, pos: nat, max: nat, ts: seq<CodeTable>): Got<Parsed> {
    match ParseFront(bits, pos, max)
    case Starved => Starved
    case Corrupt => Corrupt
    case Overrun => Overrun
    case Got(h, p) => ParseData(bits, p, Used(h.inUse), h.tabled, ts, h.numbers, max)
  }

  /** ts are tables for the lengths that stand in the block. */
  ghost predicate MadeFor(ts: seq<CodeTable>, bits: seq<bool>, pos: nat, max: nat) {
    var h := ParseFront(bits, pos, max);
    h.Got? ==> Made(ts, h.value.tabled.lens)
  }

  // ---------- round trip ----------

  lemma NumbersRoundTrip(bits: seq<bool>, pos: nat, crc: nat, o: nat, max: nat, rest: seq<bool>)
    requires crc < WORD && o < max <= 900000
    requires Has(bits, pos, ToBits(crc, 32) + (ToBits(0, 1) + (ToBits(o, 24) + rest)))
    ensures ParseNumbers(bits, pos, max) == Got(Numbers(crc, 0, o), pos + 57) && Has(bits, pos + 57, rest)
  {
    hide ToBits, FromBits, Pow2;
    BytePowers();
    OneBit();
    HasSplit(bits, pos, ToBits(crc, 32), ToBits(0, 1) + (ToBits(o, 24) + rest));
    HasSplit(bits, pos + 32, ToBits(0, 1), ToBits(o, 24) + rest);
    HasSplit(bits, pos + 33, ToBits(o, 24), rest);
    TakeWritten(bits, pos, crc, 32);
    TakeWritten(bits, pos + 32, 0, 1);
    TakeWritten(bits, pos + 33, o, 24);
  }

  lemma OneBit()
    ensures Pow2(1) == 2
  {
  }

  lemma CodingRoundTrip(bits: seq<bool>, pos: nat, sel: seq<int>, lens: seq<seq<int>>, alphaSize: nat)
    requires 2 <= |lens| <= MAX_GROUPS && AllLengths(lens, alphaSize) && 1 <= |sel| <= MAX_SELECTORS
    requires AllIn(sel, 0, Identity(|lens|))
    requires Has(bits, pos, SelectorBits(|lens|, SelectorPlaces(Identity(|lens|), sel, 0)) + TablesBits(lens, 0))
    ensures ParseCoding(bits, pos, alphaSize) ==
            Got(Tabled(sel, lens),
                pos + |SelectorBits(|lens|, SelectorPlaces(Identity(|lens|), sel, 0)) + TablesBits(lens, 0)|)
  {
    hide SelectorBits, TablesBits, ParseSelectors, ParseTables, SelectorPlaces, PlacedSelectors;
    var m := SelectorPlaces(Identity(|lens|), sel, 0);
    HasSplit(bits, pos, SelectorBits(|lens|, m), TablesBits(lens, 0));
    SelectorListRoundTrip(bits, pos, |lens|, m);
    TablesRoundTrip(bits, pos + |SelectorBits(|lens|, m)|, lens, alphaSize, 0);
    PlacesRoundTrip(Identity(|lens|), sel, 0);
    assert lens[..0] == [] && sel[0..] == sel;
  }

  lemma CompleteLengths(lens: seq<seq<int>>, alphaSize: nat)
    requires Complete(lens, alphaSize) && 0 < alphaSize <= MAX_ALPHA_SIZE
    ensures AllLengths(lens, alphaSize)
    ensures forall t :: 0 <= t < |lens| ==> Kraft(lens[t], 20) <= Pow2(20)
  {
    hide Kraft, Pow2;
    forall t | 0 <= t < |lens|
      ensures IsLengths(lens[t]) && |lens[t]| == alphaSize && Kraft(lens[t], 20) <= Pow2(20)
    {
      assert CompleteCode(lens[t]);
      KraftUp(lens[t], 17, 20);
    }
  }

  lemma UsedBytes(b: Block)
    requires Codes(b)
    ensures 1 <= |Used(b.inUse)| <= 256
    ensures forall i :: 0 <= i < |b.bytes| ==> b.inUse[b.bytes[i]]
  {
    forall i | 0 <= i < |b.bytes|
      ensures b.inUse[b.bytes[i]]
    {
      assert b.bytes[i] in b.bytes;
    }
    RankFinds(b.inUse, b.bytes[0], 256);
  }

  lemma MtfBack(yy: seq<int>, col: seq<int>)
    requires yy != [] && Covers(yy, col)
    ensures Mtf.Symbols(Encode(yy, col, 0), |yy|) && Decode(yy, Encode(yy, col, 0), 0, 1) == col
  {
    hide Encode, Decode, Mtf.Symbols;
    MtfRoundTrip(yy, col, 0);
    assert Rep(yy[0], 0) + col == col;
  }

  lemma ColumnBack(inUse: seq<bool>, l: seq<int>)
    requires forall i :: 0 <= i < |l| ==> 0 <= l[i] < |inUse| && inUse[l[i]]
    ensures UnrankedColumn(Used(inUse), Ranks(inUse, l)) == l
  {
    hide Used, UsedUpTo, Rank;
    RanksRoundTrip(inUse, l);
  }

  /** The symbols of a block decode to its column. */
  lemma SymbolsDecode(ch: Choice, b: Block)
    requires Sorts(ch, b)
    ensures 1 <= |Used(b.inUse)| && Mtf.Symbols(BlockSymbols(ch, b), |Used(b.inUse)|)
    ensures Decode(Identity(|Used(b.inUse)|), BlockSymbols(ch, b), 0, 1) ==
        MtfEncoder.RankedColumn(b.bytes, ch.f, b.inUse)
    ensures UnrankedColumn(Used(b.inUse), MtfEncoder.RankedColumn(b.bytes, ch.f, b.inUse)) == LastColumn(b.bytes, ch.f)
  {
    hide Encode, Decode, Mtf.Symbols, Used, UsedUpTo, Rank, Covers, UnrankedColumn;
    UsedBytes(b);
    MtfEncoder.RankedInRange(b.bytes, ch.f, b.inUse);
    MtfBack(Identity(|Used(b.inUse)|), MtfEncoder.RankedColumn(b.bytes, ch.f, b.inUse));
    var l := LastColumn(b.bytes, ch.f);
    forall i | 0 <= i < |l|
      ensures 0 <= l[i] < |b.inUse| && b.inUse[l[i]]
    {
      assert l[i] in b.bytes;
    }
    ColumnBack(b.inUse, l);
  }

  /** The data of a block is read back as its column. */
  lemma DataRoundTrip(bits: seq<bool>, pos: nat, max: nat, ts: seq<CodeTable>, ch: Choice, b: Block, n: Numbers)
    requires Fits(ch, b) && |b.bytes| <= max <= 900000 && n.origPtr == ch.o && Made(ts, ch.lens)
    requires Has(bits, pos, DataBits(ch.lens, ch.sel, AllSymbols(ch, b), Alphabet(b), 0))
    ensures ParseData(bits, pos, Used(b.inUse), Tabled(ch.sel, ch.lens), ts, n, max) ==
            Got(Parsed(n, LastColumn(b.bytes, ch.f)),
                pos + |DataBits(ch.lens, ch.sel, AllSymbols(ch, b), Alphabet(b), 0)|)
  {
    hide Kraft, Pow2, DataBits, Unpack, BlockSymbols, Decode, Used, UsedUpTo, Mtf.Symbols, Complete, TableFor,
         UnrankedColumn, LastColumn, SortedRotations;
    UsedBytes(b);
    SymbolsDecode(ch, b);
    CompleteLengths(ch.lens, Alphabet(b));
    var used := Used(b.inUse);
    var c := Coding(ts, ch.lens, ch.sel, |used| + 2, max);
    var syms := BlockSymbols(ch, b);
    assert syms[0..] == syms;
    UnpackData(c, bits, pos, 0, Identity(|used|), [], 0, 1, syms);
    assert [] + Decode(Identity(|used|), syms, 0, 1) == Decode(Identity(|used|), syms, 0, 1);
  }

  lemma FrontRoundTrip(bits: seq<bool>, pos: nat, max: nat, ch: Choice, b: Block)
    requires Fits(ch, b) && |b.bytes| <= max <= 900000 && Has(bits, pos, FrontBits(ch, b))
    ensures ParseFront(bits, pos, max) ==
            Got(Front(Numbers(CrcNumber(Finalise(b.crc)), 0, ch.o), b.inUse, Tabled(ch.sel, ch.lens)),
                pos + |FrontBits(ch, b)|)
  {
    hide CrcNumber, ToBits, MapBits, SelectorBits, TablesBits, SelectorPlaces, Complete, ParseNumbers, ParseMap,
         ParseCoding, Used, UsedUpTo, SortedRotations, AllSymbols;
    UsedBytes(b);
    CompleteLengths(ch.lens, Alphabet(b));
    SelectorsInList(ch.sel, |ch.lens|);
    var places := SelectorPlaces(Identity(|ch.lens|), ch.sel, 0);
    var coding := SelectorBits(|ch.lens|, places) + TablesBits(ch.lens, 0);
    NumbersRoundTrip(bits, pos, CrcNumber(Finalise(b.crc)), ch.o, max, MapBits(b.inUse) + coding);
    var p := pos + 57;
    HasSplit(bits, p, MapBits(b.inUse), coding);
    MapRoundTrip(bits, p, b.inUse);
    CodingRoundTrip(bits, p + |MapBits(b.inUse)|, ch.sel, ch.lens, Alphabet(b));
  }

  /** Whatever the compressor writes for a block, the decompressor reads back: the same column, primary index
      and CRC, and not a bit more or less. */
  lemma BlockRoundTrip(bits: seq<bool>, pos: nat, max: nat, ts: seq<CodeTable>, ch: Choice, b: Block)
    requires Fits(ch, b) && |b.bytes| <= max <= 900000 && MadeFor(ts, bits, pos, max)
    requires Has(bits, pos, CodeBits(ch, b))
    ensures ParseBlock(bits, pos, max, ts) ==
            Got(Parsed(Numbers(CrcNumber(Finalise(b.crc)), 0, ch.o), LastColumn(b.bytes, ch.f)),
                pos + |CodeBits(ch, b)|)
  {
    hide FrontBits, DataBits, AllSymbols, LastColumn, Made, ParseFront, ParseData, CrcNumber, Fits, Used, UsedUpTo;
    FitsSorts(ch, b);
    var data := DataBits(ch.lens, ch.sel, AllSymbols(ch, b), Alphabet(b), 0);
    HasSplit(bits, pos, FrontBits(ch, b), data);
    FrontRoundTrip(bits, pos, max, ch, b);
    DataRoundTrip(bits, pos + |FrontBits(ch, b)|, max, ts, ch, b, Numbers(CrcNumber(Finalise(b.crc)), 0, ch.o));
  }

  lemma FitsSorts(ch: Choice, b: Block)
    requires Fits(ch, b)
    ensures Sorts(ch, b) && Codable(ch.lens, ch.sel, AllSymbols(ch, b), Alphabet(b))
  {
  }
}
