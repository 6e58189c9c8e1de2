/** The input side of the encoder: bytes gathered into runs, runs packed into blocks. */
module RunEncoder {
  import opened Bytes
  import opened RunLength
  import opened BlockCrc

  const NONE := 256

  /** A block handed to the compressor: its bytes, the byte values in it, and the CRC of what it stands for. */
  datatype Block = Block(bytes: seq<int>, inUse: seq<bool>, crc: bv32)

  datatype Action = Run | Flush | Finish
  datatype Mode = Idle | Running | Flushing | Finishing
  datatype Status = RunOk | ParamError | SequenceError | StreamEnd

  const START_CRC: bv32 := 0xffff_ffff

  ghost predicate MarksBytes(inUse: seq<bool>, bytes: seq<int>) {
    |inUse| == 256 && forall c :: 0 <= c < 256 ==> (inUse[c] <==> c in bytes)
  }

  /** b is the block of the runs ps. */
  ghost predicate BlockOf(b: Block, ps: seq<RunLength.Run>, table: seq<bv32>, nblockMAX: nat) {
    && |table| == 256 && Maximal(ps)
    && b.bytes == Flatten(ps) && 0 < |b.bytes| <= nblockMAX + 9
    && MarksBytes(b.inUse, b.bytes)
    && b.crc == CrcBytes(table, START_CRC, Plain(ps))
  }

  /** All runs of a list of blocks in order. */
  ghost function Joined(done: seq<seq<RunLength.Run>>): seq<RunLength.Run> {
    if done == [] then [] else Joined(done[..|done|-1]) + done[|done|-1]
  }

  lemma {:induction false} PlainConcat(ps: seq<RunLength.Run>, qs: seq<RunLength.Run>)
    ensures Plain(ps + qs) == Plain(ps) + Plain(qs)
    decreases |qs|
  {
    if qs == [] {
      assert ps + qs == ps;
    } else {
      PlainConcat(ps, qs[..|qs|-1]);
      assert (ps + qs)[..|ps + qs|-1] == ps + qs[..|qs|-1];
    }
  }

  lemma FlattenAppend(ps: seq<RunLength.Run>, p: RunLength.Run)
    ensures Flatten(ps + [p]) == Flatten(ps) + Coded(p)
    ensures Plain(ps + [p]) == Plain(ps) + Rep(p.ch, p.len)
  {
    assert (ps + [p])[..|ps|] == ps;
  }

  lemma {:induction false} JoinedAppend(done: seq<seq<RunLength.Run>>, ps: seq<RunLength.Run>)
    ensures Joined(done + [ps]) == Joined(done) + ps
  {
    assert (done + [ps])[..|done|] == done;
  }

  lemma CrcOfRun(table: seq<bv32>, crc: bv32, c: int, k: nat)
    requires |table| == 256 && 0 <= c < 256
    ensures CrcBytes(table, crc, Rep(c, k + 1)) == UpdateCrc(table, CrcBytes(table, crc, Rep(c, k)), c)
  {
    assert Rep(c, k + 1) == Rep(c, k) + [c];
    CrcAppend(table, crc, Rep(c, k), c);
  }

  class EState {
    const nblockMAX: nat
    const crcTable: seq<bv32>
    const block: array<int>
    const inUse: array<bool>
    var mode: Mode
    var stateInCh: nat
    var stateInLen: nat
    var nblock: nat
    var blockCRC: bv32
    var blocks: seq<Block>
    ghost var runs: seq<RunLength.Run>
    ghost var done: seq<seq<RunLength.Run>>
    ghost var flushedAt: nat

    /** The run being counted, if any. */
    ghost function Open(): seq<RunLength.Run>
      requires stateInCh < NONE ==> 1 <= stateInLen <= 255
      reads this
    {
      if stateInCh < NONE then [Pair(stateInCh, stateInLen)] else []
    }

    ghost predicate RunValid()
      reads this
    {
      if stateInCh < NONE then 1 <= stateInLen <= 255 else stateInCh == NONE && stateInLen == 0
    }

    /** The block under construction is the coding of its runs, with room for two more runs. */
    ghost predicate BlockValid()
      reads this, block, inUse
    {
      && block.Length >= nblockMAX + 9 && inUse.Length == 256 && |crcTable| == 256
      && nblock <= nblockMAX + 9 && block[..nblock] == Flatten(runs)
      && MarksBytes(inUse[..], Flatten(runs))
      && blockCRC == CrcBytes(crcTable, START_CRC, Plain(runs))
    }

    /** Every finished block codes its runs, and between flushes no run was cut. */
    ghost predicate HistoryValid()
      requires RunValid()
      reads this
    {
      && |done| == |blocks| && flushedAt <= |done|
      && (forall i :: 0 <= i < |done| ==> BlockOf(blocks[i], done[i], crcTable, nblockMAX))
      && Maximal(Joined(done[flushedAt..]) + runs + Open())
      && (stateInCh == NONE ==> runs == [] && Joined(done[flushedAt..]) == [])
    }

    /** All bytes taken in so far, in order. */
    ghost function Taken(): seq<int>
      requires RunValid()
      reads this
    {
      Plain(Joined(done)) + Plain(runs) + Plain(Open())
    }

    ghost predicate Valid()
      reads this, block, inUse
    {
      RunValid() && BlockValid() && HistoryValid()
    }

    /** The CRC takes in every byte of the run. */
    method CrcRun(c: int, n: nat)
      requires |crcTable| == 256 && 0 <= c < 256
      modifies this`blockCRC
      ensures blockCRC == CrcBytes(crcTable, old(blockCRC), Rep(c, n))
    {
      hide Rep, UpdateCrc;
      ghost var crc0 := blockCRC;
      CrcOfNone(crcTable, crc0, c);
      var i := 0;
      while i < n
        invariant 0 <= i <= n && blockCRC == CrcBytes(crcTable, crc0, Rep(c, i))
      {
        CrcOfRun(crcTable, crc0, c, i);
        blockCRC := UpdateCrc(crcTable, blockCRC, c);
        i := i + 1;
      }
    }

    method PutByte(c: int)
      requires nblock < block.Length
      modifies this`nblock, block
      ensures nblock == old(nblock) + 1 <= block.Length
      ensures block[..nblock] == old(block[..nblock]) + [c]
    {
      block[nblock] := c;
      nblock := nblock + 1;
    }

    /** The block bytes of one run. */
    method PutRun(p: RunLength.Run)
      requires nblock + 5 <= block.Length
      modifies this`nblock, block
      ensures nblock <= old(nblock) + 5 && nblock <= block.Length
      ensures block[..nblock] == old(block[..nblock]) + Coded(p)
    {
      hide Coded;
      CodedForms(p);
      PutByte(p.ch);
      if p.len > 1 {
        PutByte(p.ch);
      }
      if p.len > 2 {
        PutByte(p.ch);
      }
      if p.len > 3 {
        PutByte(p.ch);
        PutByte(p.len - 4);
      }
    }

    method AddPairToBlock()
      requires RunValid() && BlockValid() && stateInCh < NONE && nblock + 5 <= nblockMAX + 9
      modifies this`nblock, this`blockCRC, this`runs, block, inUse
      ensures BlockValid() && runs == old(runs) + [Pair(stateInCh, stateInLen)]
      ensures nblock <= old(nblock) + 5
    {
      hide Flatten, Plain, Coded, Rep, MarksBytes, CrcBytes;
      ghost var p: RunLength.Run := Pair(stateInCh, stateInLen);
      RunAdded(crcTable, runs, p, inUse[..]);
      CrcRun(stateInCh, stateInLen);
      ghost var marks: seq<bool> := inUse[..];
      inUse[stateInCh] := true;
      assert inUse[..] == marks[stateInCh := true];
      if stateInLen > 3 {
        inUse[stateInLen - 4] := true;
        assert inUse[..] == marks[stateInCh := true][stateInLen - 4 := true];
      }
      PutRun(Pair(stateInCh, stateInLen));
      runs := runs + [p];
    }

    /** The fast track for a run of one: add_pair_to_block's work without its loop and cases. */
    method AddSingleToBlock()
      requires RunValid() && BlockValid() && stateInCh < NONE && stateInLen == 1 && nblock + 5 <= nblockMAX + 9
      modifies this`nblock, this`blockCRC, this`runs, block, inUse
      ensures BlockValid() && runs == old(runs) + [Pair(stateInCh, 1)]
      ensures nblock <= old(nblock) + 5
    {
      hide Flatten, Plain, Coded, Rep, MarksBytes, CrcBytes, UpdateCrc;
      ghost var p: RunLength.Run := Pair(stateInCh, 1);
      RunAdded(crcTable, runs, p, inUse[..]);
      CodedForms(p);
      CrcOfNone(crcTable, blockCRC, stateInCh);
      CrcOfRun(crcTable, blockCRC, stateInCh, 0);
      blockCRC := UpdateCrc(crcTable, blockCRC, stateInCh);
      ghost var marks: seq<bool> := inUse[..];
      inUse[stateInCh] := true;
      assert inUse[..] == marks[stateInCh := true];
      PutByte(stateInCh);
      runs := runs + [p];
    }

    /** ADD_CHAR_TO_BLOCK: one more input byte. */
    method AddChar(c: int)
      requires Valid() && 0 <= c < 256 && nblock < nblockMAX
      modifies this`stateInCh, this`stateInLen, this`nblock, this`blockCRC, this`runs, block, inUse
      ensures Valid() && Taken() == old(Taken()) + [c]
      ensures nblock <= nblockMAX + 4 && stateInCh < NONE
    {
      hide Flatten, Plain, Coded, Rep, MarksBytes, CrcBytes, Maximal, Joined, BlockOf;
      RunsGoOn(Joined(done[flushedAt..]), runs, Open(), c);
      BytesGoOn(Plain(Joined(done)), runs, Open(), c);
      if c != stateInCh && stateInLen == 1 {
        AddSingleToBlock();
        stateInCh := c;
      } else if c != stateInCh || stateInLen == 255 {
        if stateInCh < NONE {
          AddPairToBlock();
        }
        stateInCh := c;
        stateInLen := 1;
      } else {
        stateInLen := stateInLen + 1;
      }
    }

    /** The bytes of the block so far, as the record handed to the compressor. */
    method CompressBlock()
      requires RunValid() && BlockValid()
      requires |done| == |blocks| && flushedAt <= |done| && Maximal(Joined(done[flushedAt..]) + runs + Open())
      requires forall i :: 0 <= i < |done| ==> BlockOf(blocks[i], done[i], crcTable, nblockMAX)
      modifies this`nblock, this`blockCRC, this`runs, this`blocks, this`done, inUse
      ensures RunValid() && BlockValid() && nblock == 0 && runs == [] && Taken() == old(Taken())
      ensures |done| == |blocks| && flushedAt <= |done| && Maximal(Joined(done[flushedAt..]) + runs + Open())
      ensures forall i :: 0 <= i < |done| ==> BlockOf(blocks[i], done[i], crcTable, nblockMAX)
      ensures blocks == old(blocks) || (|blocks| == |old(blocks)| + 1 && old(blocks) <= blocks)
    {
      hide Flatten, Plain, Coded, CrcBytes, Joined, MarksBytes;
      if nblock > 0 {
        SealBlock(done, flushedAt, runs, Open());
        blocks := blocks + [Block(block[..nblock], inUse[..], blockCRC)];
        done := done + [runs];
      } else {
        EmptyRuns(runs);
      }
      runs := [];
      FreshBlock(crcTable);
      nblock, blockCRC := 0, START_CRC;
      ClearMarks();
    }

    method ClearMarks()
      requires inUse.Length == 256
      modifies inUse
      ensures MarksBytes(inUse[..], [])
    {
      var i := 0;
      while i < 256
        invariant 0 <= i <= 256
        invariant forall c :: 0 <= c < i ==> !inUse[c]
      {
        inUse[i] := false;
        i := i + 1;
      }
    }

    constructor (blockSize100k: nat, crcTable: seq<bv32>)
      requires 1 <= blockSize100k <= 9 && |crcTable| == 256
      ensures Valid() && fresh(block) && fresh(inUse) && Taken() == [] && blocks == []
      ensures nblock < nblockMAX == 100000 * blockSize100k - 19 && mode == Running
      ensures this.crcTable == crcTable
    {
      nblockMAX := 100000 * blockSize100k - 19;
      this.crcTable := crcTable;
      block := new int[100000 * blockSize100k];
      inUse := new bool[256](_ => false);
      mode, stateInCh, stateInLen, nblock, blockCRC, blocks := Running, NONE, 0, 0, START_CRC, [];
      runs, done, flushedAt := [], [], 0;
      FreshBlock(crcTable);
    }

    /** Ends the open run, hands the block over and starts a new one. */
    method FlushBlock()
      requires Valid() && nblock <= nblockMAX + 4
      modifies this`stateInCh, this`stateInLen, this`nblock, this`blockCRC, this`runs, this`blocks, this`done,
               this`flushedAt
      modifies block, inUse
      ensures Valid() && stateInCh == NONE && nblock == 0 && Taken() == old(Taken())
      ensures old(blocks) <= blocks
    {
      hide Flatten, Plain, Coded, CrcBytes, Joined, MarksBytes, Maximal, BlockOf, Rep;
      FlushedRuns(Joined(done[flushedAt..]), Plain(Joined(done)), runs, Open());
      if stateInCh < NONE {
        AddPairToBlock();
      }
      stateInCh, stateInLen := NONE, 0;
      CompressBlock();
      flushedAt := |done|;
      NoRuns();
      assert done[flushedAt..] == [];
    }

    /** Runs the input through the block builder; every block that fills, or is flushed, is handed over. */
    method HandleCompress(input: seq<int>)
      requires Valid() && mode != Idle && IsBytes(input) && nblock < nblockMAX
      modifies this`stateInCh, this`stateInLen, this`nblock, this`blockCRC, this`runs, this`blocks, this`done,
               this`flushedAt
      modifies block, inUse
      ensures Valid() && nblock < nblockMAX && Taken() == old(Taken()) + input
      ensures mode != Running ==> stateInCh == NONE && nblock == 0
      ensures old(blocks) <= blocks
    {
      hide BlockValid, HistoryValid, Taken;
      ghost var taken0 := Taken();
      var pos := 0;
      while true
        invariant Valid() && 0 <= pos <= |input| && nblock <= nblockMAX + 4
        invariant Taken() == taken0 + input[..pos] && old(blocks) <= blocks
        decreases |input| - pos, nblock
      {
        ghost var pos0, n0 := pos, nblock;
        while nblock < nblockMAX && pos < |input|
          invariant Valid() && pos <= |input| && nblock <= nblockMAX + 4
          invariant Taken() == taken0 + input[..pos] && old(blocks) <= blocks
          invariant pos0 < pos || (pos == pos0 && nblock == n0)
          decreases |input| - pos
        {
          AddChar(input[pos]);
          pos := pos + 1;
        }
        if mode != Running && pos == |input| {
          FlushBlock();
          break;
        } else if nblock >= nblockMAX {
          HandOver();
        } else if pos == |input| {
          break;
        }
      }
      assert input[..pos] == input;
    }

    /** Hands over a full block; the open run goes on in the next one. */
    method HandOver()
      requires Valid() && nblock > 0
      modifies this`nblock, this`blockCRC, this`runs, this`blocks, this`done, inUse
      ensures Valid() && nblock == 0 && Taken() == old(Taken()) && old(blocks) <= blocks
    {
      hide Flatten, Plain, Coded, CrcBytes, Joined, MarksBytes, Maximal, BlockOf, Rep;
      FreshBlock(crcTable);
      CompressBlock();
    }

    /** One call of the library with its input, output space permitting. */
    method Compress(action: Action, input: seq<int>) returns (status: Status)
      requires Valid() && IsBytes(input) && nblock < nblockMAX && (mode == Running || mode == Idle)
      modifies this`mode, this`stateInCh, this`stateInLen, this`nblock, this`blockCRC, this`runs, this`blocks
      modifies this`done, this`flushedAt, block, inUse
      ensures Valid() && nblock < nblockMAX && old(blocks) <= blocks
      ensures old(mode) == Idle ==>
          status == SequenceError && mode == Idle && Taken() == old(Taken()) && blocks == old(blocks)
      ensures old(mode) == Running ==> Taken() == old(Taken()) + input
      ensures old(mode) == Running && action == Run ==> mode == Running && (status == RunOk <==> input != [])
      ensures old(mode) == Running && action == Flush ==>
          mode == Running && status == RunOk && stateInCh == NONE && nblock == 0
      ensures old(mode) == Running && action == Finish ==>
          mode == Idle && status == StreamEnd && stateInCh == NONE && nblock == 0
    {
      hide Flatten, Plain, Coded, CrcBytes, Joined, MarksBytes, Maximal, BlockOf, Rep;
      if mode == Idle {
        return SequenceError;
      }
      match action
      case Run =>
        HandleCompress(input);
        status := if input != [] then RunOk else ParamError;
      case Flush =>
        mode := Flushing;
        HandleCompress(input);
        mode, status := Running, RunOk;
      case Finish =>
        mode := Finishing;
        HandleCompress(input);
        mode, status := Idle, StreamEnd;
    }
  }

  lemma CodedForms(p: RunLength.Run)
    ensures Coded(p) == if p.len == 1 then [p.ch] else if p.len == 2 then [p.ch, p.ch]
                        else if p.len == 3 then [p.ch, p.ch, p.ch]
                        else [p.ch, p.ch, p.ch, p.ch, p.len - 4]
  {
    CodedShape(p);
  }

  lemma CrcOfNone(table: seq<bv32>, crc: bv32, c: int)
    requires |table| == 256 && 0 <= c < 256
    ensures CrcBytes(table, crc, Rep(c, 0)) == crc
  {
  }

  lemma CodedMembers(p: RunLength.Run, c: int)
    ensures c in Coded(p) <==> c == p.ch || (p.len > 3 && c == p.len - 4)
  {
    CodedForms(p);
  }

  lemma MarksAdded(marks: seq<bool>, bytes: seq<int>, p: RunLength.Run)
    requires MarksBytes(marks, bytes)
    ensures |marks| == 256
    ensures MarksBytes(if p.len > 3 then marks[p.ch := true][p.len - 4 := true] else marks[p.ch := true],
                       bytes + Coded(p))
  {
    hide Coded;
    var m := marks[p.ch := true];
    var marked := if p.len > 3 then m[p.len - 4 := true] else m;
    forall c | 0 <= c < 256
      ensures marked[c] <==> c in bytes + Coded(p)
    {
      CodedMembers(p, c);
    }
  }

  /** What adding one run does to the block bytes, the marks and the CRC. */
  lemma RunAdded(table: seq<bv32>, ps: seq<RunLength.Run>, p: RunLength.Run, marks: seq<bool>)
    requires |table| == 256 && MarksBytes(marks, Flatten(ps))
    ensures Flatten(ps + [p]) == Flatten(ps) + Coded(p)
    ensures CrcBytes(table, CrcBytes(table, START_CRC, Plain(ps)), Rep(p.ch, p.len))
         == CrcBytes(table, START_CRC, Plain(ps + [p]))
    ensures |marks| == 256
    ensures MarksBytes(if p.len > 3 then marks[p.ch := true][p.len - 4 := true] else marks[p.ch := true],
                       Flatten(ps + [p]))
  {
    hide Coded, Flatten, Plain, MarksBytes, CrcBytes;
    FlattenAppend(ps, p);
    CrcConcat(table, START_CRC, Plain(ps), Rep(p.ch, p.len));
    MarksAdded(marks, Flatten(ps), p);
  }

  lemma {:induction false} MaximalAppend(ps: seq<RunLength.Run>, p: RunLength.Run)
    ensures Maximal(ps + [p]) <==> Maximal(ps) && (ps == [] || ps[|ps|-1].ch != p.ch || ps[|ps|-1].len == 255)
  {
    var q := ps + [p];
    if Maximal(q) && ps != [] {
      assert q[|ps|-1].ch != q[|ps|].ch || q[|ps|-1].len == 255;
      forall i | 0 < i < |ps|
        ensures ps[i-1].ch != ps[i].ch || ps[i-1].len == 255
      {
        assert q[i-1] == ps[i-1] && q[i] == ps[i];
      }
    }
  }

  /** The run order stays free of cut runs, whichever way the next byte goes. */
  lemma RunsGoOn(earlier: seq<RunLength.Run>, ps: seq<RunLength.Run>, open: seq<RunLength.Run>, c: int)
    requires 0 <= c < 256 && |open| <= 1 && Maximal(earlier + ps + open)
    ensures open == [] && earlier == [] && ps == [] ==> Maximal(earlier + ps + [Pair(c, 1)])
    ensures open != [] && (c != open[0].ch || open[0].len == 255) ==>
      Maximal(earlier + (ps + open) + [Pair(c, 1)])
    ensures open != [] && c == open[0].ch && open[0].len < 255 ==>
      Maximal(earlier + ps + [Pair(c, open[0].len + 1)])
  {
    hide Maximal;
    var base := earlier + ps;
    if open != [] {
      var q := base + [open[0]];
      assert base + open == q && earlier + (ps + open) == q && q[|q|-1] == open[0];
      MaximalAppend(base, open[0]);
      MaximalAppend(q, Pair(c, 1));
      if open[0].len < 255 {
        MaximalAppend(base, Pair(c, open[0].len + 1));
      }
    } else if base == [] {
      assert base + open == [] && base + [Pair(c, 1)] == [] + [Pair(c, 1)];
      MaximalAppend([], Pair(c, 1));
    }
  }

  lemma PlainOne(p: RunLength.Run)
    ensures Plain([p]) == Rep(p.ch, p.len) && Plain([]) == []
  {
    FlattenAppend([], p);
    assert [] + [p] == [p];
    assert [] + Rep(p.ch, p.len) == Rep(p.ch, p.len);
  }

  lemma BytesGoOn(before: seq<int>, ps: seq<RunLength.Run>, open: seq<RunLength.Run>, c: int)
    requires 0 <= c < 256 && |open| <= 1
    ensures open == [] ==> before + Plain(ps) + Plain([Pair(c, 1)]) == before + Plain(ps) + Plain(open) + [c]
    ensures open != [] ==>
      before + Plain(ps + open) + Plain([Pair(c, 1)]) == before + Plain(ps) + Plain(open) + [c]
    ensures open != [] && c == open[0].ch && open[0].len < 255 ==>
      before + Plain(ps) + Plain([Pair(c, open[0].len + 1)]) == before + Plain(ps) + Plain(open) + [c]
  {
    hide Plain, Rep;
    var w := before + Plain(ps);
    PlainOne(Pair(c, 1));
    RepNext(c, 0);
    if open == [] {
      Regroup(w, [], [c]);
    } else {
      PlainOne(open[0]);
      assert open == [open[0]];
      FlattenAppend(ps, open[0]);
      Regroup(before, Plain(ps), Plain(open));
      if open[0].len < 255 {
        PlainOne(Pair(c, open[0].len + 1));
        RepNext(c, open[0].len);
        Regroup(w, Plain(open), [c]);
      }
    }
  }

  lemma Regroup(a: seq<int>, b: seq<int>, c: seq<int>)
    ensures a + (b + c) == a + b + c
    ensures b == [] ==> a + b == a
  {
  }

  lemma RepNext(c: int, k: nat)
    ensures Rep(c, k + 1) == Rep(c, k) + [c] && Rep(c, 0) == []
    ensures k == 0 ==> Rep(c, k + 1) == [c]
  {
  }

  lemma EmptyRuns(ps: seq<RunLength.Run>)
    requires Flatten(ps) == []
    ensures ps == []
  {
  }

  lemma FreshBlock(table: seq<bv32>)
    requires |table| == 256
    ensures Flatten([]) == [] && Plain([]) == [] && CrcBytes(table, START_CRC, Plain([])) == START_CRC
  {
  }

  lemma SealBlock(done: seq<seq<RunLength.Run>>, flushedAt: nat, ps: seq<RunLength.Run>, open: seq<RunLength.Run>)
    requires flushedAt <= |done| && Maximal(Joined(done[flushedAt..]) + ps + open)
    ensures Maximal(Joined((done + [ps])[flushedAt..]) + [] + open)
    ensures Maximal(ps)
    ensures Plain(Joined(done + [ps])) + Plain([]) + Plain(open) == Plain(Joined(done)) + Plain(ps) + Plain(open)
  {
    assert (done + [ps])[flushedAt..] == done[flushedAt..] + [ps];
    JoinedAppend(done[flushedAt..], ps);
    JoinedAppend(done, ps);
    PlainConcat(Joined(done), ps);
    var earlier := Joined(done[flushedAt..]);
    assert earlier + ps + [] + open == earlier + ps + open;
    forall i | 0 < i < |ps|
      ensures ps[i-1].ch != ps[i].ch || ps[i-1].len == 255
    {
      var whole := earlier + ps + open;
      assert whole[|earlier| + i - 1] == ps[i-1] && whole[|earlier| + i] == ps[i];
    }
  }

  lemma NoRuns()
    ensures Joined([]) == [] && Maximal([] + [] + [])
  {
  }

  /** Closing the open run changes neither the order of runs nor what they stand for. */
  lemma FlushedRuns(earlier: seq<RunLength.Run>, before: seq<int>, ps: seq<RunLength.Run>, open: seq<RunLength.Run>)
    requires |open| <= 1 && Maximal(earlier + ps + open)
    ensures Maximal(earlier + (ps + open) + [])
    ensures before + Plain(ps + open) + Plain([]) == before + Plain(ps) + Plain(open)
    ensures open != [] ==> ps + open == ps + [open[0]]
    ensures open == [] ==> ps + open == ps
  {
    hide Maximal, Plain;
    assert earlier + (ps + open) + [] == earlier + ps + open;
    PlainConcat(ps, open);
    PlainOne(Pair(0, 1));
    Regroup(before, Plain(ps), Plain(open));
    Regroup(before + Plain(ps + open), [], []);
  }
}
