/** The decompressor's outer loop: marks, blocks, output in pieces of any size, and the CRC checks. */
module StreamDecompressor {
  import opened Bytes
  import opened Bits
  import opened BitIO
  import opened Counting
  import opened RunLength
  import opened SymbolFetch
  import opened Bwt
  import opened BlockCrc
  import opened InverseBwt
  import opened Output
  import opened BlockReader
  import opened BlockHeader
  import opened BlockCodec
  import opened BlockCompressor
  import opened BlockDecompressor
  import RunEncoder

  /** How it ends. With ArrayOverrun the library has stored past the end of an array: what it does from there on is
      undefined. */
  datatype Result = BlockOk | StreamEnd | NeedInput | BadData | BadMagic | RandomisedBlock | ArrayOverrun

  // ---------- one block written out ----------

  /** Everything a block stands for has been written and its CRC is c. */
  ghost predicate Drained(table: seq<bv32>, column: seq<int>, origPtr: nat, out: seq<int>, c: bv32) {
    && |table| == 256 && IsBytes(column) && origPtr < |column| && IsBytes(out)
    && Expand(Stream(column, origPtr), |column|, 0) == Decoded(out, false)
    && c == CrcBytes(table, RunEncoder.START_CRC, out)
  }

  /** The output space of a call; calls without any change nothing. */
  type Space = n: nat | n >= 1 witness 1

  /** Of len bytes in front of corrupt runs, how many fast mode has counted when it finds out in block j: those of all
      calls but the last one. The i-th call offers room(j, i). */
  function Kept(len: nat, room: (nat, nat) -> Space, j: nat, i: nat): (k: nat)
    ensures if len == 0 then k == 0 else k < len
    decreases len
  {
    if room(j, i) >= len then 0 else room(j, i) + Kept(len - room(j, i), room, j, i + 1)
  }

  /** What the caller sees of the bytes a block stands for. */
  function Seen(d: Decoded, small: bool, room: (nat, nat) -> Space, j: nat): seq<int> {
    if small || !d.corrupt then d.out else d.out[..Kept(|d.out|, room, j, 0)]
  }

  lemma NothingSeen(small: bool, room: (nat, nat) -> Space, j: nat)
    ensures Seen(Decoded([], false), small, room, j) == []
  {
  }

  /** Corrupt runs come behind four bytes at least. */
  lemma {:induction false} CorruptIsLong(s: seq<int>, n: nat, m: nat)
    requires n + 2 <= |s| && IsBytes(s) && m <= n && Expand(s, n, m).corrupt
    ensures |Expand(s, n, m).out| >= 4
    decreases n - m
  {
    var r := RunAt(s, n, m);
    if r < 4 {
      CorruptIsLong(s, n, m + r);
    }
  }

  /** Whatever the slices of output space, the two modes show the same of a block if and only if its runs are not
      corrupt. */
  lemma SeenAlike(s: seq<int>, n: nat, room: (nat, nat) -> Space, j: nat, room': (nat, nat) -> Space, j': nat)
    requires n + 2 <= |s| && IsBytes(s)
    ensures Seen(Expand(s, n, 0), false, room, j) == Seen(Expand(s, n, 0), true, room', j')
            <==> !Expand(s, n, 0).corrupt
  {
    hide Expand;
    if Expand(s, n, 0).corrupt {
      CorruptIsLong(s, n, 0);
    }
  }

  /** Four equal bytes and no count: with much space fast mode shows nothing, with pieces of 50 bytes all but the last
      byte; small mode shows all. */
  lemma CorruptSlices()
    ensures var d := Expand([97, 97, 97, 97, 97, 97], 4, 0);
      && d == Decoded(Rep(97, 101), true)
      && |Seen(d, true, (j, i) => 1000, 0)| == 101 && |Seen(d, false, (j, i) => 1000, 0)| == 0
      && |Seen(d, false, (j, i) => 50, 0)| == 100
  {
    var s := [97, 97, 97, 97, 97, 97];
    assert RunAt(s, 4, 0) == 4 && Expand(s, 4, 5) == Decoded([], true);
    assert Expand(s, 4, 0) == Decoded(Rep(97, 101), true);
    assert Kept(101, (j, i) => 50, 0, 0) == 50 + Kept(51, (j, i) => 50, 0, 1);
  }

  /** Writes a whole block out, fast mode, into buffers of arbitrary sizes. */
  method DrainFast(d: DState, room: (nat, nat) -> Space, j: nat) returns (corrupt: bool, out: seq<int>)
    requires d.FastReady() && d.InStep() && d.calculatedBlockCRC == RunEncoder.START_CRC
    requires d.Pending() == Expand(Stream(d.column, d.origPtr), |d.column|, 0)
    modifies d
    ensures !corrupt ==> Drained(d.crcTable, d.column, d.origPtr, out, d.calculatedBlockCRC)
    ensures corrupt <==> old(d.Pending()).corrupt
    ensures out == Seen(old(d.Pending()), false, room, j)
  {
    hide Expand, Stream, Progress, FastOn;
    ghost var d0, crc0 := d.Pending(), d.calculatedBlockCRC;
    ProgressStart(d.crcTable, crc0, d0);
    out := [];
    var i := 0;
    while true
      invariant d.FastReady() && d.InStep() && Progress(d.crcTable, crc0, d.calculatedBlockCRC, d0, out, d.Pending())
      invariant d0.corrupt ==> Kept(|d0.out|, room, j, 0) == |out| + Kept(|d.Pending().out|, room, j, i)
      decreases |d.Pending().out|
    {
      ghost var d1, crc1 := d.Pending(), d.calculatedBlockCRC;
      ProgressLength(d.crcTable, crc0, crc1, d0, out, d1);
      var piece;
      corrupt, piece := d.UnRleFast(room(j, i));
      ProgressLength(d.crcTable, crc1, d.calculatedBlockCRC, d1, piece, d.Pending());
      ProgressChain(d.crcTable, crc0, crc1, d.calculatedBlockCRC, d0, d1, d.Pending(), out, piece);
      out := out + piece;
      if corrupt {
        ProgressPrefix(d.crcTable, crc0, d.calculatedBlockCRC, d0, out, d.Pending());
        return;
      }
      if d.BlockDone() {
        d.DoneIsEmpty();
        break;
      }
      i := i + 1;
    }
    AllWritten(d.crcTable, crc0, d.calculatedBlockCRC, d0, out);
  }

  /** The same in small mode. */
  method DrainSmall(d: DState, room: (nat, nat) -> Space, j: nat) returns (corrupt: bool, out: seq<int>)
    requires d.SmallReady() && d.InStep() && d.calculatedBlockCRC == RunEncoder.START_CRC
    requires d.Pending() == Expand(Stream(d.column, d.origPtr), |d.column|, 0)
    modifies d
    ensures !corrupt ==> Drained(d.crcTable, d.column, d.origPtr, out, d.calculatedBlockCRC)
    ensures corrupt <==> old(d.Pending()).corrupt
    ensures out == Seen(old(d.Pending()), true, room, j)
    ensures d.SmallReady()
  {
    hide Expand, Stream, Progress, SmallOn;
    ghost var d0, crc0 := d.Pending(), d.calculatedBlockCRC;
    ProgressStart(d.crcTable, crc0, d0);
    out := [];
    var i := 0;
    while true
      invariant d.SmallReady() && d.InStep() && Progress(d.crcTable, crc0, d.calculatedBlockCRC, d0, out, d.Pending())
      decreases |d.Pending().out|
    {
      ghost var d1, crc1 := d.Pending(), d.calculatedBlockCRC;
      ProgressLength(d.crcTable, crc0, crc1, d0, out, d1);
      var piece;
      corrupt, piece := d.UnRleSmall(room(j, i));
      ProgressLength(d.crcTable, crc1, d.calculatedBlockCRC, d1, piece, d.Pending());
      ProgressChain(d.crcTable, crc0, crc1, d.calculatedBlockCRC, d0, d1, d.Pending(), out, piece);
      out := out + piece;
      if corrupt {
        ProgressPrefix(d.crcTable, crc0, d.calculatedBlockCRC, d0, out, d.Pending());
        return;
      }
      if d.BlockDone() {
        d.DoneIsEmpty();
        break;
      }
      i := i + 1;
    }
    AllWritten(d.crcTable, crc0, d.calculatedBlockCRC, d0, out);
  }

  lemma ProgressPrefix(table: seq<bv32>, crc0: bv32, crc: bv32, d0: Decoded, out: seq<int>, rest: Decoded)
    requires Progress(table, crc0, crc, d0, out, rest)
    ensures out <= d0.out && (rest.out == [] ==> out == d0.out)
  {
  }

  lemma AllWritten(table: seq<bv32>, crc0: bv32, crc: bv32, d0: Decoded, out: seq<int>)
    requires Progress(table, crc0, crc, d0, out, Decoded([], false))
    ensures d0 == Decoded(out, false) && crc == CrcBytes(table, crc0, out) && IsBytes(out) && |table| == 256
  {
    assert out + [] == out;
  }

  // ---------- one block read and written out ----------

  /** What the decompressor makes of a block it has read. */
  ghost predicate Readable(p: Parsed) {
    IsBytes(p.column) && 0 <= p.numbers.origPtr < |p.column|
  }

  ghost function Shown(p: Parsed): Decoded
    requires Readable(p)
  {
    Expand(Stream(p.column, p.numbers.origPtr), |p.column|, 0)
  }

  /** What becomes of a block: an error when its bits, its runs or its CRC are wrong. */
  ghost function Verdict(table: seq<bv32>, res: Got<Parsed>): (v: Result)
    requires |table| == 256 && (res.Got? ==> Readable(res.value))
    ensures v != StreamEnd && v != BadMagic
  {
    match res
    case Starved => NeedInput
    case Corrupt => BadData
    case Overrun => ArrayOverrun
    case Got(p, e) =>
      if p.numbers.randomised != 0 then RandomisedBlock
      else if Shown(p).corrupt || !IsBytes(Shown(p).out) then BadData
      else if CrcNumber(Finalise(CrcBytes(table, RunEncoder.START_CRC, Shown(p).out))) != p.numbers.crc then BadData
      else BlockOk
  }

  /** What is written of a block that was read: a randomised one is not expanded here. */
  ghost function Written(res: Got<Parsed>): Decoded
    requires res.Got? ==> Readable(res.value)
  {
    if res.Got? && res.value.numbers.randomised == 0 then Shown(res.value) else Decoded([], false)
  }

  /** Reads one block behind its mark, writes it out and checks its CRC. The output is what the caller sees of it. */
  method DecodeBlock(r: BitReader, max: nat, small: bool, tt: array<int>, ll4: array<int>, crcTable: seq<bv32>,
                     room: (nat, nat) -> Space, j: nat)
    returns (res: Result, out: seq<int>, crc: bv32, ghost parsed: Got<Parsed>, ghost ts: seq<CodeTable>)
    requires r.Valid() && max <= tt.Length && max <= 900000 && |crcTable| == 256
    requires small ==> tt != ll4 && LinkShape(tt[..], ll4[..])
    modifies r, tt, ll4
    ensures r.Valid() && (small && res.BlockOk? ==> LinkShape(tt[..], ll4[..]))
    ensures MadeFor(ts, r.Bits(), old(r.Pos()), max) && parsed == ParseBlock(r.Bits(), old(r.Pos()), max, ts)
    ensures parsed.Got? ==> Readable(parsed.value)
    ensures res == Verdict(crcTable, parsed) && out == Seen(Written(parsed), small, room, j)
    ensures res.BlockOk? ==> parsed.Got? && r.Pos() == parsed.pos && Shown(parsed.value) == Decoded(out, false)
    ensures res.BlockOk? ==> IsBytes(out) && crc == Finalise(CrcBytes(crcTable, RunEncoder.START_CRC, out))
  {
    hide ParseBlock, MadeFor, LinkShape, Expand, Stream, Seen, CrcBytes, ToBits, Pow2, Count, CrcNumber, Finalise;
    out, crc := [], 0;
    NothingSeen(small, room, j);
    var st, n, nblock, unzftab;
    ghost var tt0, low := tt[..], ll4[..];
    st, n, nblock, unzftab, ts := ReadBlock(r, max, tt);
    if small {
      ShapeKept(tt0, tt[..], low);
    }
    parsed := ParseBlock(r.Bits(), old(r.Pos()), max, ts);
    if st.Starving? {
      res := NeedInput;
      return;
    }
    if st.DataError? {
      res := BadData;
      return;
    }
    if st.Overrunning? {
      res := ArrayOverrun;
      return;
    }
    if n.randomised != 0 {
      res := RandomisedBlock;
      return;
    }
    ghost var column := tt[..nblock];
    var corrupt, calculated;
    if small {
      corrupt, out, calculated := OutputSmall(tt, ll4, unzftab, nblock, n.origPtr, max, crcTable, column, room, j);
    } else {
      corrupt, out, calculated := OutputFast(tt, unzftab, nblock, n.origPtr, max, crcTable, column, room, j);
    }
    if corrupt {
      res := BadData;
      return;
    }
    crc := Finalise(calculated);
    res := if CrcNumber(crc) != n.crc then BadData else BlockOk;
  }

  lemma ShapeKept(ll16: seq<int>, next: seq<int>, ll4: seq<int>)
    requires LinkShape(ll16, ll4) && |next| == |ll16|
    ensures LinkShape(next, ll4)
  {
  }

  method OutputFast(tt: array<int>, unzftab: array<int>, nblock: nat, origPtr: nat, max: nat, crcTable: seq<bv32>,
                    ghost column: seq<int>, room: (nat, nat) -> Space, j: nat)
    returns (corrupt: bool, out: seq<int>, crc: bv32)
    requires nblock <= max <= tt.Length && IsBytes(column) && origPtr < nblock == |column| && |crcTable| == 256
    requires tt[..nblock] == column && tt != unzftab && unzftab.Length == 256
    requires forall c :: 0 <= c < 256 ==> unzftab[c] == Count(column, c)
    modifies tt
    ensures corrupt == Expand(Stream(column, origPtr), |column|, 0).corrupt
    ensures out == Seen(Expand(Stream(column, origPtr), |column|, 0), false, room, j)
    ensures !corrupt ==> Drained(crcTable, column, origPtr, out, crc)
  {
    hide Expand, Stream, Seen, CrcBytes, Count, FastOn;
    var d := new DState.Fast(tt, unzftab, nblock, origPtr, max, crcTable, column);
    corrupt, out := DrainFast(d, room, j);
    crc := d.calculatedBlockCRC;
  }

  method OutputSmall(ll16: array<int>, ll4: array<int>, unzftab: array<int>, nblock: nat, origPtr: nat, max: nat,
                     crcTable: seq<bv32>, ghost column: seq<int>, room: (nat, nat) -> Space, j: nat)
    returns (corrupt: bool, out: seq<int>, crc: bv32)
    requires nblock <= max <= ll16.Length && max <= 900000 && IsBytes(column) && origPtr < nblock == |column|
    requires |crcTable| == 256
    requires ll16[..nblock] == column && ll16 != ll4 && ll16 != unzftab && ll4 != unzftab && unzftab.Length == 256
    requires LinkShape(ll16[..], ll4[..])
    requires forall c :: 0 <= c < 256 ==> unzftab[c] == Count(column, c)
    modifies ll16, ll4
    ensures corrupt == Expand(Stream(column, origPtr), |column|, 0).corrupt
    ensures out == Seen(Expand(Stream(column, origPtr), |column|, 0), true, room, j)
    ensures !corrupt ==> Drained(crcTable, column, origPtr, out, crc)
    ensures LinkShape(ll16[..], ll4[..])
  {
    hide Expand, Stream, Seen, CrcBytes, Count, SmallOn, LinkShape;
    var d := new DState.Small(ll16, ll4, unzftab, nblock, origPtr, max, crcTable, column);
    corrupt, out := DrainSmall(d, room, j);
    crc := d.calculatedBlockCRC;
    StillLinked(d);
  }

  lemma StillLinked(d: DState)
    requires d.SmallReady()
    ensures LinkShape(d.ll16[..], d.ll4[..])
  {
  }

  /** A block of runs shows exactly what its runs stand for. */
  lemma BlockShown(ch: Choice, b: Block, ps: seq<Run>, table: seq<bv32>, max: nat)
    requires Sorts(ch, b) && RunEncoder.BlockOf(b, ps, table, max)
    ensures IsBytes(LastColumn(b.bytes, ch.f))
    ensures Expand(Stream(LastColumn(b.bytes, ch.f), ch.o), |b.bytes|, 0) == Decoded(Plain(ps), false)
  {
    hide Expand, Stream, SortedRotations, Maximal, Flatten, Plain;
    SortedIsPerm(b.bytes, ch.f);
    var l := LastColumn(b.bytes, ch.f);
    forall i | 0 <= i < |l|
      ensures 0 <= l[i] < 256
    {
      assert l[i] in b.bytes;
    }
    BwtRoundTrip(b.bytes, ch.f, ch.o);
    StreamIsBlock(l, ch.o);
    assert Stream(l, ch.o)[0..|b.bytes|] == Stream(l, ch.o)[..|b.bytes|];
    RunsRoundTrip(Stream(l, ch.o), |b.bytes|, 0, ps);
  }
}
