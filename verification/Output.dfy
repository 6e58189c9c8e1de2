/** The output side of the decoder: bytes drawn from the inverse transform, runs expanded into however
    much output space each call offers, in both memory modes. */
module Output {
  import opened Counting
  import opened Bwt
  import opened Bytes
  import opened InverseBwt
  import opened BlockCrc
  import opened RunLength

  /** The bytes the decoder can draw for a column and primary index: the block, and two beyond it. */
  ghost function Stream(l: seq<int>, o: nat): (s: seq<int>)
    requires o < |l|
    ensures |s| == |l| + 2
    ensures IsBytes(l) ==> IsBytes(s)
  {
    seq(|l| + 2, k requires 0 <= k < |l| + 2 => l[Row(l, o, k + 1)])
  }

  lemma StreamIsBlock(l: seq<int>, o: nat)
    requires o < |l|
    ensures Stream(l, o)[..|l|] == Unbwt(l, o)
  {
  }

  lemma StreamAt(l: seq<int>, o: nat, k: nat)
    requires o < |l| && k <= |l| + 1
    ensures Stream(l, o)[k] == Drawn(l, o, k)
  {
  }

  class DState {
    const blockLimit: nat
    const saveNblock: nat
    const crcTable: seq<bv32>
    const tt: array<int>
    const ll16: array<int>
    const ll4: array<int>
    const cftab: array<int>
    var tPos: int
    var k0: int
    var nblockUsed: nat
    var stateOutLen: nat
    var stateOutCh: int
    var calculatedBlockCRC: bv32
    ghost const column: seq<int>
    ghost const origPtr: nat
    ghost const cycle: set<int>

    /** Sets up the output of a block in fast mode: builds the table and draws the first byte. */
    constructor Fast(tt: array<int>, unzftab: array<int>, nblock: nat, origPtr: nat, blockLimit: nat,
                     crcTable: seq<bv32>, ghost l: seq<int>)
      requires IsBytes(l) && origPtr < nblock == |l| <= tt.Length && nblock <= blockLimit && |crcTable| == 256
      requires tt[..nblock] == l && unzftab.Length == 256 && tt != unzftab
      requires forall c :: 0 <= c < 256 ==> unzftab[c] == Count(l, c)
      modifies tt
      ensures FastReady() && InStep() && column == l && this.origPtr == origPtr
      ensures Pending() == Expand(Stream(l, origPtr), |l|, 0)
      ensures calculatedBlockCRC == 0xffff_ffff && this.crcTable == crcTable
      ensures fresh(this) && this.tt == tt
    {
      hide FastOn, FastAt, FastPacked, Expand, Prepend, Rep, Stream, LowByte, HighBits;
      var cftab := Cumulate(unzftab, l);
      BuildFast(tt, cftab, nblock, l);
      FastFirst(tt, l, origPtr);
      var first := HighBits(tt[origPtr]);
      var c, next := DrawFast(tt, first, blockLimit, l, origPtr, 0);
      this.blockLimit, this.saveNblock, this.crcTable := blockLimit, nblock, crcTable;
      this.tt, this.ll16, this.ll4, this.cftab := tt, tt, tt, cftab;
      this.column, this.origPtr, this.cycle := l, origPtr, {};
      tPos, k0, nblockUsed := next, c, 1;
      stateOutLen, stateOutCh, calculatedBlockCRC := 0, 0, 0xffff_ffff;
      StreamAt(l, origPtr, 0);
      NothingHeld(0, Expand(Stream(l, origPtr), nblock, 0));
    }

    /** Sets up the output of a block in small mode: links the places, reverses the cycle of the primary
        index and draws the first byte. */
    constructor Small(ll16: array<int>, ll4: array<int>, unzftab: array<int>, nblock: nat, origPtr: nat,
                      blockLimit: nat, crcTable: seq<bv32>, ghost l: seq<int>)
      requires IsBytes(l) && origPtr < nblock == |l| <= ll16.Length && nblock <= blockLimit && |crcTable| == 256
      requires nblock < 0x10_0000 && ll16 != ll4 && ll16 != unzftab && ll4 != unzftab
      requires ll16[..nblock] == l && LinkShape(ll16[..], ll4[..]) && unzftab.Length == 256
      requires forall c :: 0 <= c < 256 ==> unzftab[c] == Count(l, c)
      modifies ll16, ll4
      ensures SmallReady() && InStep() && column == l && this.origPtr == origPtr
      ensures Pending() == Expand(Stream(l, origPtr), |l|, 0)
      ensures calculatedBlockCRC == 0xffff_ffff && this.crcTable == crcTable
      ensures fresh(this) && this.ll16 == ll16 && this.ll4 == ll4
    {
      hide SmallOn, LinkShape, Expand, Prepend, Rep, Stream, Drawn, Count;
      var cftab, c, next;
      ghost var loop;
      cftab, c, next, loop := PrepareSmall(ll16, ll4, unzftab, nblock, origPtr, blockLimit, l);
      this.blockLimit, this.saveNblock, this.crcTable := blockLimit, nblock, crcTable;
      this.tt, this.ll16, this.ll4, this.cftab := ll16, ll16, ll4, cftab;
      this.column, this.origPtr, this.cycle := l, origPtr, loop;
      tPos, k0, nblockUsed := next, c, 1;
      stateOutLen, stateOutCh, calculatedBlockCRC := 0, 0, 0xffff_ffff;
      StreamAt(l, origPtr, 0);
      NothingHeld(0, Expand(Stream(l, origPtr), nblock, 0));
    }

    ghost predicate Block() {
      && IsBytes(column) && origPtr < |column| == saveNblock <= blockLimit
      && |crcTable| == 256
    }

    /** The fast table is built and the cursor stands one row past the last byte drawn. */
    ghost predicate FastReady()
      reads this, tt
    {
      && Block()
      && FastOn(tt, column, origPtr, nblockUsed, tPos)
    }

    /** The links are reversed along the cycle and the cursor stands on the row of the next byte. */
    ghost predicate SmallReady()
      reads this, ll16, ll4, cftab
    {
      && Block()
      && SmallOn(ll16, ll4, cftab, column, origPtr, nblockUsed, tPos, cycle)
    }

    /** The run being written, and the byte held back, belong to the stream. */
    ghost predicate InStep()
      reads this
    {
      && Block()
      && 1 <= nblockUsed <= saveNblock + 2 && 0 <= stateOutCh < 256
      && (nblockUsed <= saveNblock ==> k0 == Stream(column, origPtr)[nblockUsed - 1])
    }

    /** Everything still to be written. */
    ghost function Pending(): Decoded
      requires InStep()
      reads this
    {
      Prepend(Rep(stateOutCh, stateOutLen), Expand(Stream(column, origPtr), saveNblock, nblockUsed - 1))
    }

    /** The test by which the library sees that a block has been written out. */
    predicate BlockDone()
      reads this
    {
      nblockUsed == saveNblock + 1 && stateOutLen == 0
    }

    /** A block that is done has nothing pending. */
    lemma DoneIsEmpty()
      requires InStep() && BlockDone()
      ensures Pending() == Decoded([], false)
    {
      hide Expand, Stream, Rep;
      StreamEnd(column, origPtr);
      NothingHeld(stateOutCh, Expand(Stream(column, origPtr), saveNblock, nblockUsed - 1));
    }

    method NextFast() returns (c: int)
      requires FastReady() && nblockUsed <= saveNblock + 1
      modifies this`tPos, this`nblockUsed
      ensures FastReady() && nblockUsed == old(nblockUsed) + 1
      ensures c == Stream(column, origPtr)[old(nblockUsed)] && 0 <= c < 256
    {
      hide FastOn, Drawn, Stream, IsBytes;
      StreamAt(column, origPtr, nblockUsed);
      c, tPos := DrawFast(tt, tPos, blockLimit, column, origPtr, nblockUsed);
      nblockUsed := nblockUsed + 1;
    }

    method NextSmall() returns (c: int)
      requires SmallReady() && nblockUsed <= saveNblock + 1
      modifies this`tPos, this`nblockUsed
      ensures SmallReady() && nblockUsed == old(nblockUsed) + 1
      ensures c == Stream(column, origPtr)[old(nblockUsed)] && 0 <= c < 256
    {
      hide SmallOn, Drawn, Stream, IsBytes;
      StreamAt(column, origPtr, nblockUsed);
      c, tPos := DrawSmall(ll16, ll4, cftab, tPos, blockLimit, column, origPtr, nblockUsed, cycle);
      nblockUsed := nblockUsed + 1;
    }

    /** Reads the next run from the stream, small mode. */
    method ReadRunSmall() returns (len: nat, next: int)
      requires SmallReady() && 1 <= nblockUsed <= saveNblock && k0 == Stream(column, origPtr)[nblockUsed - 1]
      modifies this`tPos, this`nblockUsed
      ensures SmallReady()
      ensures RunRead(Stream(column, origPtr), saveNblock, old(nblockUsed) - 1, len, next, nblockUsed)
    {
      hide SmallOn, Stream, RunRead;
      ghost var s, m := Stream(column, origPtr), nblockUsed - 1;
      len, next := 1, k0;
      var k1 := NextSmall();
      if nblockUsed == saveNblock + 1 {
        ShortRun(s, saveNblock, m, 1, next);
        return;
      }
      if k1 != k0 {
        ShortRun(s, saveNblock, m, 1, k1);
        return len, k1;
      }
      len := 2;
      k1 := NextSmall();
      if nblockUsed == saveNblock + 1 {
        ShortRun(s, saveNblock, m, 2, next);
        return;
      }
      if k1 != k0 {
        ShortRun(s, saveNblock, m, 2, k1);
        return len, k1;
      }
      len := 3;
      k1 := NextSmall();
      if nblockUsed == saveNblock + 1 {
        ShortRun(s, saveNblock, m, 3, next);
        return;
      }
      if k1 != k0 {
        ShortRun(s, saveNblock, m, 3, k1);
        return len, k1;
      }
      k1 := NextSmall();
      len := k1 + 4;
      next := NextSmall();
      LongRun(s, saveNblock, m, next);
    }

    /** Reads the next run from the stream, fast mode; single says the byte is written at once, without
        setting the run length. */
    method ReadRunFast() returns (len: nat, next: int, single: bool)
      requires FastReady() && 1 <= nblockUsed <= saveNblock && k0 == Stream(column, origPtr)[nblockUsed - 1]
      modifies this`tPos, this`nblockUsed
      ensures FastReady()
      ensures RunRead(Stream(column, origPtr), saveNblock, old(nblockUsed) - 1, len, next, nblockUsed)
      ensures single ==> len == 1
    {
      hide FastOn, Stream, RunRead;
      ghost var s, m := Stream(column, origPtr), nblockUsed - 1;
      len, next, single := 1, k0, true;
      var k1 := NextFast();
      if k1 != k0 {
        ShortRun(s, saveNblock, m, 1, k1);
        return len, k1, single;
      }
      if nblockUsed == saveNblock + 1 {
        ShortRun(s, saveNblock, m, 1, next);
        return;
      }
      len, single := 2, false;
      k1 := NextFast();
      if nblockUsed == saveNblock + 1 {
        ShortRun(s, saveNblock, m, 2, next);
        return;
      }
      if k1 != k0 {
        ShortRun(s, saveNblock, m, 2, k1);
        return len, k1, single;
      }
      len := 3;
      k1 := NextFast();
      if nblockUsed == saveNblock + 1 {
        ShortRun(s, saveNblock, m, 3, next);
        return;
      }
      if k1 != k0 {
        ShortRun(s, saveNblock, m, 3, k1);
        return len, k1, single;
      }
      k1 := NextFast();
      len := k1 + 4;
      next := NextFast();
      LongRun(s, saveNblock, m, next);
    }

    /** Finishes the current run as far as space allows, small mode. */
    method WriteRunSmall(avail0: nat, out0: seq<int>, ghost d0: Decoded, ghost crc0: bv32)
      returns (avail: nat, out: seq<int>)
      requires InStep() && Progress(crcTable, crc0, calculatedBlockCRC, d0, out0, Pending())
      modifies this`stateOutLen, this`calculatedBlockCRC
      ensures InStep() && Progress(crcTable, crc0, calculatedBlockCRC, d0, out, Pending())
      ensures avail + |out| == avail0 + |out0| && (avail == 0 || stateOutLen == 0)
    {
      hide Expand, Stream, Prepend, Rep, Progress, UpdateCrc;
      avail, out := avail0, out0;
      ghost var rest := Expand(Stream(column, origPtr), saveNblock, nblockUsed - 1);
      while true
        invariant InStep() && rest == Expand(Stream(column, origPtr), saveNblock, nblockUsed - 1)
        invariant Progress(crcTable, crc0, calculatedBlockCRC, d0, out, Prepend(Rep(stateOutCh, stateOutLen), rest))
        invariant avail + |out| == avail0 + |out0|
        decreases avail
      {
        if avail == 0 {
          return;
        }
        if stateOutLen == 0 {
          break;
        }
        ProgressByte(crcTable, crc0, calculatedBlockCRC, d0, out, stateOutCh, stateOutLen, rest);
        out := out + [stateOutCh];
        calculatedBlockCRC := UpdateCrc(crcTable, calculatedBlockCRC, stateOutCh);
        stateOutLen := stateOutLen - 1;
        avail := avail - 1;
      }
    }

    /** Expands runs into the space offered, small mode. */
    method UnRleSmall(availOut: nat) returns (corrupt: bool, out: seq<int>)
      requires SmallReady() && InStep()
      modifies this`tPos, this`nblockUsed, this`k0, this`stateOutLen, this`stateOutCh, this`calculatedBlockCRC
      ensures SmallReady() && InStep()
      ensures Progress(crcTable, old(calculatedBlockCRC), calculatedBlockCRC, old(Pending()), out, Pending())
      ensures |out| == Min(availOut, |old(Pending()).out|)
      ensures corrupt <==> old(Pending()).corrupt && availOut > |old(Pending()).out|
      ensures !corrupt && |out| < availOut ==> BlockDone()
    {
      hide SmallOn, Stream, Expand, Prepend, Rep, Progress, RunRead;
      ghost var d0, crc0 := Pending(), calculatedBlockCRC;
      ProgressStart(crcTable, crc0, d0);
      var avail: nat := availOut;
      out, corrupt := [], false;
      while true
        invariant SmallReady() && InStep() && Progress(crcTable, crc0, calculatedBlockCRC, d0, out, Pending())
        invariant avail + |out| == availOut && !corrupt
        decreases saveNblock + 2 - nblockUsed
      {
        avail, out := WriteRunSmall(avail, out, d0, crc0);
        ProgressLength(crcTable, crc0, calculatedBlockCRC, d0, out, Pending());
        if avail == 0 {
          return;
        }
        NothingHeld(stateOutCh, Expand(Stream(column, origPtr), saveNblock, nblockUsed - 1));
        if nblockUsed == saveNblock + 1 {
          StreamEnd(column, origPtr);
          return;
        }
        if nblockUsed > saveNblock + 1 {
          StreamEnd(column, origPtr);
          corrupt := true;
          return;
        }
        ghost var m := nblockUsed - 1;
        var len, next := ReadRunSmall();
        RunReadFacts(Stream(column, origPtr), saveNblock, m, len, next, nblockUsed);
        stateOutCh, stateOutLen, k0 := k0, len, next;
      }
    }

    /** Everything the stream still yields after the run being written. */
    ghost function Rest(): Decoded
      requires InStep()
      reads this
    {
      Expand(Stream(column, origPtr), saveNblock, nblockUsed - 1)
    }

    /** Finishes the current run as far as space allows, fast mode: the last byte is written without
        counting the run down, and a single byte enters there directly. */
    method WriteRunFast(single: bool, len0: nat, avail0: nat, out0: seq<int>, ghost d0: Decoded, ghost crc0: bv32)
      returns (stop: bool, len: nat, avail: nat, out: seq<int>)
      requires InStep() && (single || len0 > 0)
      requires Progress(crcTable, crc0, calculatedBlockCRC, d0, out0,
          Prepend(Rep(stateOutCh, if single then 1 else len0), Rest()))
      modifies this`calculatedBlockCRC
      ensures avail + |out| == avail0 + |out0|
      ensures stop ==> avail == 0 && len > 0
      ensures stop ==> Progress(crcTable, crc0, calculatedBlockCRC, d0, out, Prepend(Rep(stateOutCh, len), Rest()))
      ensures !stop ==> Progress(crcTable, crc0, calculatedBlockCRC, d0, out, Rest())
    {
      hide Expand, Stream, Prepend, Rep, Progress, UpdateCrc;
      stop, len, avail, out := false, len0, avail0, out0;
      ghost var rest := Rest();
      if !single {
        while true
          invariant len > 0 && rest == Rest() && avail + |out| == avail0 + |out0|
          invariant Progress(crcTable, crc0, calculatedBlockCRC, d0, out, Prepend(Rep(stateOutCh, len), rest))
          decreases avail
        {
          if avail == 0 {
            stop := true;
            return;
          }
          if len == 1 {
            break;
          }
          ProgressByte(crcTable, crc0, calculatedBlockCRC, d0, out, stateOutCh, len, rest);
          out := out + [stateOutCh];
          calculatedBlockCRC := UpdateCrc(crcTable, calculatedBlockCRC, stateOutCh);
          len := len - 1;
          avail := avail - 1;
        }
      }
      if avail == 0 {
        len, stop := 1, true;
        return;
      }
      ProgressByte(crcTable, crc0, calculatedBlockCRC, d0, out, stateOutCh, 1, rest);
      NothingHeld(stateOutCh, rest);
      out := out + [stateOutCh];
      calculatedBlockCRC := UpdateCrc(crcTable, calculatedBlockCRC, stateOutCh);
      avail := avail - 1;
    }

    /** Expands runs into the space offered, fast mode. The library works on copies of these fields and of the output
        position, and saves them at the end; when it finds the data corrupt it returns before that, so that nothing of
        what it has written in this call counts. */
    method UnRleFast(availOut: nat) returns (corrupt: bool, out: seq<int>)
      requires FastReady() && InStep()
      modifies this`tPos, this`nblockUsed, this`k0, this`stateOutLen, this`stateOutCh, this`calculatedBlockCRC
      ensures FastReady() && InStep()
      ensures Progress(crcTable, old(calculatedBlockCRC), calculatedBlockCRC, old(Pending()), out, Pending())
      ensures corrupt <==> old(Pending()).corrupt && availOut >= |old(Pending()).out|
      ensures corrupt ==> out == [] && unchanged(this)
      ensures !corrupt ==> |out| == Min(availOut, |old(Pending()).out|)
      ensures !corrupt && |out| < availOut ==> BlockDone()
    {
      hide FastOn, Stream, Expand, Prepend, Rep, Progress;
      var saved := (tPos, nblockUsed, k0, stateOutLen, stateOutCh, calculatedBlockCRC);
      corrupt, out := ExpandFast(availOut);
      if corrupt {
        tPos, nblockUsed, k0, stateOutLen, stateOutCh, calculatedBlockCRC :=
          saved.0, saved.1, saved.2, saved.3, saved.4, saved.5;
        out := [];
        ProgressStart(crcTable, calculatedBlockCRC, Pending());
      }
    }

    method ExpandFast(availOut: nat) returns (corrupt: bool, out: seq<int>)
      requires FastReady() && InStep()
      modifies this`tPos, this`nblockUsed, this`k0, this`stateOutLen, this`stateOutCh, this`calculatedBlockCRC
      ensures !corrupt ==> FastReady() && InStep()
      ensures !corrupt ==>
                Progress(crcTable, old(calculatedBlockCRC), calculatedBlockCRC, old(Pending()), out, Pending())
      ensures |out| == Min(availOut, |old(Pending()).out|)
      ensures corrupt <==> old(Pending()).corrupt && availOut >= |old(Pending()).out|
      ensures !corrupt && |out| < availOut ==> BlockDone()
    {
      hide FastOn, Stream, Expand, Prepend, Rep, Progress, RunRead;
      ghost var d0, crc0 := Pending(), calculatedBlockCRC;
      ProgressStart(crcTable, crc0, d0);
      var len, single := stateOutLen, false;
      var avail: nat := availOut;
      out, corrupt := [], false;
      while true
        invariant FastReady() && InStep() && avail + |out| == availOut && !corrupt
        invariant Progress(crcTable, crc0, calculatedBlockCRC, d0, out,
            Prepend(Rep(stateOutCh, if single then 1 else len), Rest()))
        decreases saveNblock + 2 - nblockUsed
      {
        if len > 0 || single {
          var stop;
          stop, len, avail, out := WriteRunFast(single, len, avail, out, d0, crc0);
          if stop {
            PrependLength(stateOutCh, len, Rest());
            ProgressLength(crcTable, crc0, calculatedBlockCRC, d0, out, Prepend(Rep(stateOutCh, len), Rest()));
            stateOutLen := len;
            return;
          }
        }
        NothingHeld(stateOutCh, Rest());
        ProgressLength(crcTable, crc0, calculatedBlockCRC, d0, out, Rest());
        StreamEnd(column, origPtr);
        if nblockUsed > saveNblock + 1 {
          corrupt := true;
          return;
        }
        if nblockUsed == saveNblock + 1 {
          stateOutLen := 0;
          return;
        }
        ghost var m := nblockUsed - 1;
        stateOutCh := k0;
        var run, next;
        run, next, single := ReadRunFast();
        RunReadFacts(Stream(column, origPtr), saveNblock, m, run, next, nblockUsed);
        k0 := next;
        if !single {
          len := run;
        }
      }
    }
  }

  lemma PrependLength(c: int, len: nat, rest: Decoded)
    ensures |Prepend(Rep(c, len), rest).out| == len + |rest.out|
    ensures Prepend(Rep(c, len), rest).corrupt == rest.corrupt
  {
  }

  /** Where a call stands: what it has written so far, the rest and the running CRC. */
  ghost predicate Progress(table: seq<bv32>, crc0: bv32, crc: bv32, d0: Decoded, out: seq<int>, rest: Decoded) {
    && |table| == 256 && Wrote(d0, out, rest) && IsBytes(out)
    && crc == CrcBytes(table, crc0, out)
  }

  lemma ProgressStart(table: seq<bv32>, crc: bv32, d: Decoded)
    requires |table| == 256
    ensures Progress(table, crc, crc, d, [], d)
  {
  }

  lemma ProgressByte(table: seq<bv32>, crc0: bv32, crc: bv32, d0: Decoded, out: seq<int>, c: int, len: nat,
                     rest: Decoded)
    requires 0 <= c < 256 && len > 0 && Progress(table, crc0, crc, d0, out, Prepend(Rep(c, len), rest))
    ensures |table| == 256
    ensures Progress(table, crc0, UpdateCrc(table, crc, c), d0, out + [c], Prepend(Rep(c, len - 1), rest))
  {
    WroteOne(d0, out, c, len, rest);
    CrcAppend(table, crc0, out, c);
  }

  lemma ProgressLength(table: seq<bv32>, crc0: bv32, crc: bv32, d0: Decoded, out: seq<int>, rest: Decoded)
    requires Progress(table, crc0, crc, d0, out, rest)
    ensures |d0.out| == |out| + |rest.out| && d0.corrupt == rest.corrupt
  {
  }

  lemma StreamEnd(l: seq<int>, o: nat)
    requires IsBytes(l) && o < |l|
    ensures Expand(Stream(l, o), |l|, |l|) == Decoded([], false)
    ensures Expand(Stream(l, o), |l|, |l| + 1) == Decoded([], true)
  {
  }

  /** Calls one after another add up. */
  lemma ProgressChain(table: seq<bv32>, crc0: bv32, crc1: bv32, crc2: bv32, d0: Decoded, d1: Decoded, d2: Decoded,
                      a: seq<int>, b: seq<int>)
    requires Progress(table, crc0, crc1, d0, a, d1) && Progress(table, crc1, crc2, d1, b, d2)
    ensures Progress(table, crc0, crc2, d0, a + b, d2)
  {
    CrcConcat(table, crc0, a, b);
    assert a + (b + d2.out) == a + b + d2.out;
  }
}
