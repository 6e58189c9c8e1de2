/** inflate's states LEN to LIT, one symbol and one byte at a time, and inflate_fast, which decodes the same without
    checks while there is plenty of input and room. */
module InflateLoop {
  import opened Bits
  import opened BitIO
  import opened BitSource
  import opened Bytes
  import opened EntryCode
  import opened InflateSpec
  import opened Lz77
  import opened SlidingWindow
  import opened TableBuilder
  import opened TableSlots
  import opened ZBits

  /** What each mode says about the values it uses, and about how many bits can be in the accumulator. */
  ghost predicate ModeFits(c: Coding, mode: Mode, length: int, offset: int, extra: nat, acc: seq<bool>)
    requires |c.ll| <= Symbols(LENS) && |c.dl| <= Symbols(DISTS)
  {
    match mode
    case LEN => Settled(c.ll, LENS, acc)
    case LENEXT => extra <= 5 && 3 <= length && length + Pow2(extra) <= 259 && |acc| < 8
    case DIST => 3 <= length <= 258 && Settled(c.dl, DISTS, acc)
    case DISTEXT => 3 <= length <= 258 && extra <= 13 && 1 <= offset && offset + Pow2(extra) <= MAX_DIST + 1 &&
        (|acc| < 8 || |acc| < extra)
    case MATCH => 1 <= length <= 258 && 1 <= offset <= MAX_DIST && |acc| < 8
    case LIT => 0 <= length < 256 && |acc| < 8
    case _ => |acc| < 8
  }

  /** A code and its place in the tables. */
  datatype Tables = Tables(codes: seq<Entry>, lenCode: nat, lenBits: nat, distCode: nat, distBits: nat)

  ghost predicate Serve(t: Tables, c: Coding) {
    && IsCoding(c)
    && Decodes(t.codes, t.lenCode, t.lenBits, c.ll, LENS)
    && Decodes(t.codes, t.distCode, t.distBits, c.dl, DISTS)
  }

  /** For distances up to far the check against the window refuses what cannot be reached. */
  predicate SameReach(have: nat, whave: nat, lost: nat, far: nat) {
    have - whave == lost || (whave >= far && have - lost >= far)
  }

  predicate TooFar(dist: nat, put: nat, whave: nat) {
    dist - put > whave
  }

  predicate OutOfReach(dist: nat, put: nat, have: nat, lost: nat) {
    have + put - dist < lost
  }

  /** No other windows do: with them the check refuses a distance that can be reached, or the other way round. */
  lemma ReachIsChecked(have: nat, whave: nat, lost: nat, far: nat)
    requires whave <= have && lost <= have
    ensures SameReach(have, whave, lost, far) <==>
      forall dist: nat, put: nat :: 1 <= dist <= far ==>
          (TooFar(dist, put, whave) <==> OutOfReach(dist, put, have, lost))
  {
    var dist := if whave < have - lost then whave + 1 else have - lost + 1;
    assert SameReach(have, whave, lost, far) || dist > far || TooFar(dist, 0, whave) != OutOfReach(dist, 0, have, lost);
  }

  lemma CodingSizes(c: Coding)
    requires IsCoding(c)
    ensures |c.ll| <= Symbols(LENS) && |c.dl| <= Symbols(DISTS)
  {
  }

  predicate AllBytes(s: seq<seq<int>>) {
    forall i :: 0 <= i < |s| ==> IsBytes(s[i])
  }

  /** The bits of all inputs. */
  function AllBits(s: seq<seq<int>>): seq<bool>
    requires AllBytes(s)
  {
    if s == [] then [] else LowBits(s[0]) + AllBits(s[1..])
  }

  function Sum(s: seq<nat>): nat {
    if s == [] then 0 else s[0] + Sum(s[1..])
  }

  // ---------- what one symbol leads to ----------

  lemma AfterLenIs(c: Coding, bits: seq<bool>, out: seq<int>, e: Entry, rest: seq<bool>)
    requires |c.ll| <= Symbols(LENS) && |c.dl| <= Symbols(DISTS)
    requires EntryRead(c.ll, LENS, bits) == Val(e, rest) && Shape(LENS, e)
    ensures AtLen(c, bits, out) ==
      if e.op == 0 then AtLit(c, e.val, rest, out)
      else if Flag(e.op, 32) then Ended(rest, out)
      else if Flag(e.op, 64) then Broken(rest, out)
      else AtLenExt(c, e.val, e.op % 16, rest, out)
    ensures e.op == 0 ==> 0 <= e.val < 256
    ensures e.op != 0 && !Flag(e.op, 64) ==>
        e.op % 16 <= 5 && 3 <= e.val && e.val + Pow2(e.op % 16) <= 259 && !Flag(e.op, 32)
    ensures e.op != 0 ==> (Flag(e.op, 16) <==> !Flag(e.op, 64))
  {
    hide EntryRead, Pow2, AtLit, AtLenExt;
    assert AtLen(c, bits, out) == AfterLen(c, e, rest, out);
  }

  lemma AfterDistIs(c: Coding, length: int, bits: seq<bool>, out: seq<int>, e: Entry, rest: seq<bool>)
    requires |c.ll| <= Symbols(LENS) && |c.dl| <= Symbols(DISTS)
    requires EntryRead(c.dl, DISTS, bits) == Val(e, rest) && Shape(DISTS, e)
    ensures AtDist(c, length, bits, out) ==
      if Flag(e.op, 64) then Broken(rest, out) else AtDistExt(c, length, e.val, e.op % 16, rest, out)
    ensures !Flag(e.op, 64) ==> e.op % 16 <= 13 && 1 <= e.val && e.val + Pow2(e.op % 16) <= 32769
    ensures Flag(e.op, 16) <==> !Flag(e.op, 64)
  {
    hide EntryRead, Pow2, AtDistExt;
    assert AtDist(c, length, bits, out) == AfterDist(c, length, e, rest, out);
  }

  lemma ExtraIs(c: Coding, length: int, offset: int, extra: nat, bits: seq<bool>, out: seq<int>, v: nat,
                rest: seq<bool>)
    requires |c.ll| <= Symbols(LENS) && |c.dl| <= Symbols(DISTS) && TakeLow(bits, extra) == Val(v, rest)
    ensures AtLenExt(c, length, extra, bits, out) == AtDist(c, length + v, rest, out)
    ensures AtDistExt(c, length, offset, extra, bits, out) == AtMatch(c, length, offset + v, rest, out)
    ensures v < Pow2(extra)
  {
    hide AtDist, AtMatch, Pow2;
    ValueBound(bits[..extra]);
  }

  lemma NoExtra(c: Coding, length: int, offset: int, bits: seq<bool>, out: seq<int>)
    requires |c.ll| <= Symbols(LENS) && |c.dl| <= Symbols(DISTS)
    ensures AtLenExt(c, length, 0, bits, out) == AtDist(c, length, bits, out)
    ensures AtDistExt(c, length, offset, 0, bits, out) == AtMatch(c, length, offset, bits, out)
    ensures Pow2(0) == 1
  {
    hide AtDist, AtMatch;
    assert TakeLow(bits, 0) == Val(0, bits);
    ExtraIs(c, length, offset, 0, bits, out, 0, bits);
  }

  lemma LitIs(c: Coding, b: int, bits: seq<bool>, out: seq<int>)
    requires |c.ll| <= Symbols(LENS) && |c.dl| <= Symbols(DISTS)
    ensures |out| < c.cap ==> AtLit(c, b, bits, out) == AtLen(c, bits, out + [b])
  {
  }

  lemma NearEnough(c: Coding, len: int, dist: int, bits: seq<bool>, out: seq<int>)
    requires |c.ll| <= Symbols(LENS) && |c.dl| <= Symbols(DISTS)
    requires |out| < c.cap && !AtMatch(c, len, dist, bits, out).Strayed?
    ensures dist <= c.far
  {
  }

  /** Copying a piece of a match, and the whole of it. */
  lemma MatchIs(c: Coding, len: nat, dist: nat, n: nat, bits: seq<bool>, out: seq<int>)
    requires |c.ll| <= Symbols(LENS) && |c.dl| <= Symbols(DISTS)
    requires 1 <= dist <= c.far && 1 <= n <= len && |out| + n <= c.cap
    ensures |out| - dist < c.lost ==> AtMatch(c, len, dist, bits, out) == Broken(bits, out)
    ensures |out| - dist >= c.lost && n < len ==>
      AtMatch(c, len, dist, bits, out) == AtMatch(c, len - n, dist, bits, Repeat(out, dist, n))
    ensures |out| - dist >= c.lost && n == len ==>
        AtMatch(c, len, dist, bits, out) == AtLen(c, bits, Repeat(out, dist, n))
  {
    hide AtLen, Repeat;
    if |out| - dist >= c.lost && n < len {
      RepeatSplit(out, dist, n, len - n);
      if |out| + len > c.cap && |out| + n < c.cap {
        RepeatSplit(out, dist, n, c.cap - |out| - n);
      }
    }
  }

  // ---------- a window that is too small ----------

  /** A distance beyond what the window holds is refused at the beginning of a buffer, although the output goes back
      that far and the match stands for something. */
  lemma RefusedInReach(s: Sink, c: Coding, len: nat, dist: nat, bits: seq<bool>)
    requires s.Valid() && s.put == 0 && c.lost == 0 && 1 <= len && |s.hist| + len <= c.cap
    requires |c.ll| <= Symbols(LENS) && |c.dl| <= Symbols(DISTS)
    requires s.whave < dist <= |s.hist| && dist <= c.far
    ensures TooFar(dist, s.put, s.whave) && !SameReach(|s.hist|, s.whave, c.lost, c.far)
    ensures AtMatch(c, len, dist, bits, s.Full()) == AtLen(c, bits, Repeat(s.Full(), dist, len))
  {
    hide AtLen, Holds, Repeat;
    MatchIs(c, len, dist, len, bits, s.Full());
  }

  // ---------- no distance goes beyond 32768 ----------

  lemma {:induction false} NeverStrays(c: Coding, bits: seq<bool>, out: seq<int>)
    requires |c.ll| <= Symbols(LENS) && |c.dl| <= Symbols(DISTS) && c.far >= MAX_DIST
    ensures !AtLen(c, bits, out).Strayed?
    decreases |bits|, 4
  {
    hide EntryRead, Repeat, Flag, Value, Shape;
    EntryShrinks(c.ll, LENS, bits);
    match EntryRead(c.ll, LENS, bits)
    case Short =>
    case Bad =>
    case Val(e, rest) =>
      assert AtLen(c, bits, out) == AfterLen(c, e, rest, out);
      if e.op == 0 {
        if |out| < c.cap {
          NeverStrays(c, rest, out + [e.val]);
        }
      } else if !Flag(e.op, 32) && !Flag(e.op, 64) {
        match TakeLow(rest, e.op % 16)
        case Short =>
        case Bad =>
        case Val(v, more) => NoDistStrays(c, e.val + v, more, out);
      }
  }

  lemma NoDistStrays(c: Coding, len: int, bits: seq<bool>, out: seq<int>)
    requires |c.ll| <= Symbols(LENS) && |c.dl| <= Symbols(DISTS) && c.far >= MAX_DIST
    ensures !AtDist(c, len, bits, out).Strayed?
    decreases |bits|, 8
  {
    hide EntryRead, Repeat, Flag, Value, Shape, Pow2;
    EntryShrinks(c.dl, DISTS, bits);
    match EntryRead(c.dl, DISTS, bits)
    case Short =>
    case Bad =>
    case Val(e, rest) =>
      EntryShape(c.dl, DISTS, bits);
      AfterDistIs(c, len, bits, out, e, rest);
      if !Flag(e.op, 64) {
        NoExtStrays(c, len, e.val, e.op % 16, rest, out);
      }
  }

  lemma NoExtStrays(c: Coding, len: int, dist: int, extra: nat, bits: seq<bool>, out: seq<int>)
    requires |c.ll| <= Symbols(LENS) && |c.dl| <= Symbols(DISTS) && c.far >= MAX_DIST && dist + Pow2(extra) <= 32769
    ensures !AtDistExt(c, len, dist, extra, bits, out).Strayed?
    decreases |bits|, 6
  {
    hide EntryRead, Flag, Value, Pow2;
    match TakeLow(bits, extra)
    case Short =>
    case Bad =>
    case Val(v, rest) =>
      ExtraIs(c, len, dist, extra, bits, out, v, rest);
      if |out| < c.cap && dist + v >= 1 && len >= 0 && |out| - (dist + v) >= c.lost && |out| + len <= c.cap {
        NeverStrays(c, rest, Repeat(out, dist + v, len));
      }
  }

  class Inflater {
    const src: Source
    const sink: Sink
    var tables: Tables
    var mode: Mode
    var length: int
    var offset: int
    var extra: nat
    ghost var c: Coding

    ghost predicate Valid()
      reads this, src, sink, sink.out, sink.window
    {
      src.Valid() && sink.Valid() && Serve(tables, c) && CodingFits()
      && ModeFits(c, mode, length, offset, extra, src.Acc())
    }

    /** The coding's limits: room at least for this call's buffer, and the bytes in reach those in the window, unless
        no distance goes beyond the window. */
    ghost predicate CodingFits()
      reads `c, sink, sink.out
    {
      |c.ll| <= Symbols(LENS) && |c.dl| <= Symbols(DISTS)
      && c.cap >= |sink.hist| + sink.out.Length && SameReach(|sink.hist|, sink.whave, c.lost, c.far)
    }

    /** The room is that of this call's buffer, and no more input is to come. */
    ghost predicate LastCall()
      reads this, src, sink, sink.out
    {
      c.cap == |sink.hist| + sink.out.Length && src.later == []
    }

    /** What decoding leads to from here on. */
    ghost function Goal(): Outcome
      requires Valid()
      reads this, src, sink, sink.out, sink.window
    {
      Meant(c, mode, length, offset, extra, src.Ahead(), sink.Full())
    }

    /** How many bits are left to decode. */
    ghost function Left(): nat
      requires Valid()
      reads this, src, sink, sink.out, sink.window
    {
      |src.Ahead()|
    }

    constructor (src: Source, sink: Sink, tables: Tables, ghost c: Coding)
      requires src.Valid() && sink.Valid() && Serve(tables, c) && src.bits < 8
      requires c.cap >= |sink.hist| + sink.out.Length && SameReach(|sink.hist|, sink.whave, c.lost, c.far)
      ensures Valid() && mode == LEN && this.src == src && this.sink == sink && this.c == c
    {
      this.src, this.sink, this.tables, this.c := src, sink, tables, c;
      mode, length, offset, extra := LEN, 0, 0, 0;
      new;
      hide Settled, Decodes, Holds, Readable;
      CodingSizes(c);
    }

    // ---------- the states ----------

    /** Nothing can be decoded with the bits that have arrived, or nothing be written for lack of room. */
    ghost predicate Stuck()
      requires Valid()
      reads this, src, sink, sink.out, sink.window
    {
      match mode
      case LEN => src.next == |src.inp| && EntryRead(c.ll, LENS, src.Acc()).Short?
      case LENEXT => src.next == |src.inp| && src.bits < extra
      case DIST => src.next == |src.inp| && EntryRead(c.dl, DISTS, src.Acc()).Short?
      case DISTEXT => src.next == |src.inp| && src.bits < extra
      case MATCH => sink.put == sink.out.Length
      case LIT => sink.put == sink.out.Length
      case _ => true
    }

    /** State LEN. */
    method StepLen() returns (ok: bool)
      requires Valid() && mode == LEN
      modifies `mode, `length, `extra, src`next, src`hold, src`bits
      ensures Valid() && Goal() == old(Goal())
      ensures if ok then Left() < old(Left()) else Stuck() && mode == LEN
    {
      hide EntryRead, Pow2, AtLit, AtLenExt, AtLen, Settled, Shape, Flag, Decodes, BitsOf, LowBits, Holds, IsCoding;
      ghost var bits, out := src.Ahead(), sink.Full();
      EntryShrinks(c.ll, LENS, bits);
      ghost var e: Entry;
      var here: Entry;
      ok, here, e := src.NextEntry(tables.codes, tables.lenCode, tables.lenBits, c.ll, LENS);
      if ok {
        AfterLenIs(c, bits, out, e, src.Ahead());
        length := here.val;
        if here.op == 0 {
          mode := LIT;
        } else if Flag(here.op, 32) {
          mode := TYPE;
        } else if Flag(here.op, 64) {
          mode := BAD;
        } else {
          extra := here.op % 16;
          mode := LENEXT;
        }
      }
    }

    /** State LENEXT. */
    method StepLenExt() returns (ok: bool)
      requires Valid() && mode == LENEXT
      modifies `mode, `length, src`next, src`hold, src`bits
      ensures Valid() && Goal() == old(Goal())
      ensures if ok then mode == DIST && Left() <= old(Left()) else Stuck() && mode == LENEXT
    {
      hide EntryRead, Pow2, AtDist, AtLenExt, TakeLow, Decodes, BitsOf, LowBits, Holds, IsCoding;
      ghost var bits, out := src.Ahead(), sink.Full();
      if extra > 0 {
        ok := src.NeedBits(extra);
        if !ok {
          return;
        }
        src.LowIs(extra);
        ExtraIs(c, length, offset, extra, bits, out, src.Low(extra), src.Ahead()[extra..]);
        length := length + src.Low(extra);
        src.DropBits(extra);
      } else {
        NoExtra(c, length, offset, bits, out);
      }
      ok, mode := true, DIST;
    }

    /** State DIST. */
    method StepDist() returns (ok: bool)
      requires Valid() && mode == DIST
      modifies `mode, `offset, `extra, src`next, src`hold, src`bits
      ensures Valid() && Goal() == old(Goal())
      ensures if ok then Left() < old(Left()) else Stuck() && mode == DIST
    {
      hide EntryRead, Pow2, AtDist, AtDistExt, Settled, Shape, Flag, Decodes, BitsOf, LowBits, Holds, IsCoding;
      ghost var bits, out := src.Ahead(), sink.Full();
      EntryShrinks(c.dl, DISTS, bits);
      ghost var e: Entry;
      var here: Entry;
      ok, here, e := src.NextEntry(tables.codes, tables.distCode, tables.distBits, c.dl, DISTS);
      if ok {
        AfterDistIs(c, length, bits, out, e, src.Ahead());
        if Flag(here.op, 64) {
          mode := BAD;
        } else {
          offset := here.val;
          extra := here.op % 16;
          mode := DISTEXT;
        }
      }
    }

    /** State DISTEXT. */
    method StepDistExt() returns (ok: bool)
      requires Valid() && mode == DISTEXT
      modifies `mode, `offset, src`next, src`hold, src`bits
      ensures Valid() && Goal() == old(Goal())
      ensures if ok then mode == MATCH && Left() <= old(Left()) else Stuck() && mode == DISTEXT
    {
      hide EntryRead, Pow2, AtMatch, AtDistExt, TakeLow, Decodes, BitsOf, LowBits, Holds, IsCoding;
      ghost var bits, out := src.Ahead(), sink.Full();
      if extra > 0 {
        ok := src.NeedBits(extra);
        if !ok {
          return;
        }
        src.LowIs(extra);
        ExtraIs(c, length, offset, extra, bits, out, src.Low(extra), src.Ahead()[extra..]);
        offset := offset + src.Low(extra);
        src.DropBits(extra);
      } else {
        NoExtra(c, length, offset, bits, out);
      }
      ok, mode := true, MATCH;
    }

    /** State MATCH: one piece of the match. */
    method StepMatch() returns (ok: bool)
      requires Valid() && mode == MATCH && !Goal().Strayed?
      modifies `mode, `length, sink`put, sink.out
      ensures Valid() && Goal() == old(Goal())
      ensures Left() == old(Left())
      ensures if ok then mode == LEN || mode == BAD || (mode == MATCH && 0 < length < old(length))
          else Stuck() && mode == MATCH
    {
      hide EntryRead, Pow2, AtMatch, AtLen, Decodes, BitsOf, LowBits, Holds, IsCoding, Repeat;
      if sink.put == sink.out.Length {
        return false;
      }
      ghost var bits, out := src.Ahead(), sink.Full();
      var copied;
      ok, copied := sink.CopyPiece(offset, length);
      NearEnough(c, length, offset, bits, out);
      MatchIs(c, length, offset, if ok then copied else 1, bits, out);
      if ok {
        length := length - copied;
        if length == 0 {
          mode := LEN;
        }
      } else {
        ok, mode := true, BAD;
      }
    }

    /** State LIT. */
    method StepLit() returns (ok: bool)
      requires Valid() && mode == LIT
      modifies `mode, sink`put, sink.out
      ensures Valid() && Goal() == old(Goal())
      ensures Left() == old(Left())
      ensures if ok then mode == LEN else Stuck() && mode == LIT
    {
      hide EntryRead, Pow2, AtLit, AtLen, Decodes, BitsOf, LowBits, Holds, IsCoding;
      if sink.put == sink.out.Length {
        return false;
      }
      LitIs(c, length, src.Ahead(), sink.Full());
      sink.PutByte(length);
      ok, mode := true, LEN;
    }

    // ---------- all states ----------

    /** What comes later in the decoding of one symbol. */
    ghost function Rank(): nat
      reads `mode
    {
      match mode
      case LENEXT => 5
      case DIST => 4
      case DISTEXT => 3
      case MATCH => 2
      case LIT => 1
      case _ => 0
    }

    ghost function Remaining(): nat
      reads `mode, `length
    {
      if mode == MATCH && length > 0 then length else 0
    }

    /** One turn of the switch. */
    method Step() returns (ok: bool)
      requires Valid() && mode != TYPE && mode != BAD && !Goal().Strayed?
      modifies `mode, `length, `offset, `extra, src`next, src`hold, src`bits, sink`put, sink.out
      ensures Valid() && Goal() == old(Goal())
      ensures if ok then
          Left() < old(Left())
          || (Left() == old(Left()) && Rank() < old(Rank()))
          || (Left() == old(Left()) && Rank() == old(Rank()) && Remaining() < old(Remaining()))
        else Stuck() && mode == old(mode)
    {
      hide Valid, Goal, Stuck, Left;
      match mode
      case LEN => ok := StepLen();
      case LENEXT => ok := StepLenExt();
      case DIST => ok := StepDist();
      case DISTEXT => ok := StepDistExt();
      case MATCH => ok := StepMatch();
      case LIT => ok := StepLit();
    }

    /** inflate without inflate_fast: until the block ends, an error is found, or nothing more can be done. */
    method Slow()
      requires Valid() && !Goal().Strayed?
      modifies `mode, `length, `offset, `extra, src`next, src`hold, src`bits, sink`put, sink.out
      ensures Valid() && Goal() == old(Goal()) && Stuck()
    {
      hide Valid, Goal, Stuck, Left;
      while mode != TYPE && mode != BAD
        invariant Valid() && Goal() == old(Goal())
        decreases Left(), Rank(), Remaining()
      {
        var ok := Step();
        if !ok {
          return;
        }
      }
      DoneIsStuck();
    }

    lemma DoneIsStuck()
      requires Valid() && (mode == TYPE || mode == BAD)
      ensures Stuck()
    {
    }

    // ---------- inflate_fast ----------

    /** What holds while inflate_fast runs: bytes may have been pulled ahead. */
    ghost predicate Running()
      reads this, src, sink, sink.out, sink.window
    {
      src.Valid() && sink.Valid() && Serve(tables, c) && CodingFits()
    }

    ghost function Onward(m: Mode): Outcome
      requires Running()
      reads this, src, sink, sink.out, sink.window
    {
      Meant(c, m, 0, 0, 0, src.Ahead(), sink.Full())
    }

    /** One turn of the loop: a literal, a whole match, the end of the block or an error. */
    method Turn() returns (m: Mode)
      requires Running() && |src.inp| - src.next >= 6 && sink.out.Length - sink.put >= 258 && !Onward(LEN).Strayed?
      modifies src`next, src`hold, src`bits, sink`put, sink.out
      ensures Running() && (m == LEN || m == TYPE || m == BAD) && Onward(m) == old(Onward(LEN))
      ensures Suffix(src.Ahead(), old(src.Ahead())) && src.Supply() < old(src.Supply())
      ensures EntryRead(c.ll, LENS, old(src.Ahead())).Val?
      ensures |src.Ahead()| <= |EntryRead(c.ll, LENS, old(src.Ahead())).rest|
    {
      hide EntryRead, Pow2, AtLit, AtLenExt, AtLen, Shape, Flag, Decodes, BitsOf, LowBits, Holds, IsCoding, Suffix;
      ghost var bits, out := src.Ahead(), sink.Full();
      ghost var e: Entry;
      var here: Entry;
      here, e := src.FastEntry(tables.codes, tables.lenCode, tables.lenBits, c.ll, LENS);
      AfterLenIs(c, bits, out, e, src.Ahead());
      if here.op == 0 {
        LitIs(c, here.val, src.Ahead(), out);
        sink.PutByte(here.val);
        m := LEN;
      } else if Flag(here.op, 16) {
        ghost var bits1 := src.Ahead();
        m := TurnMatch(here.val, here.op % 16);
        SuffixOf(src.Ahead(), bits1, bits);
      } else if Flag(here.op, 32) {
        m := TYPE;
      } else {
        m := BAD;
      }
    }

    /** The rest of a match behind its length code. */
    method TurnMatch(base: nat, extra: nat) returns (m: Mode)
      requires Running() && src.Supply() >= 33 && sink.out.Length - sink.put >= 258
      requires 3 <= base && extra <= 5 && base + Pow2(extra) <= 259
      requires !AtLenExt(c, base, extra, src.Ahead(), sink.Full()).Strayed?
      modifies src`next, src`hold, src`bits, sink`put, sink.out
      ensures Running() && (m == LEN || m == BAD)
      ensures Onward(m) == AtLenExt(c, base, extra, old(src.Ahead()), old(sink.Full()))
      ensures Suffix(src.Ahead(), old(src.Ahead())) && src.Supply() < old(src.Supply())
    {
      hide EntryRead, Pow2, AtLenExt, AtLen, AtDist, AtDistExt, AtMatch, Shape, Flag, Decodes, BitsOf, LowBits, Holds,
           IsCoding, Suffix, TakeLow, Repeat;
      ghost var bits, out := src.Ahead(), sink.Full();
      var v := src.FastExtra(extra);
      ExtraIs(c, base, 0, extra, bits, out, v, src.Ahead());
      var len := base + v;
      ghost var bits1 := src.Ahead();
      ghost var e: Entry;
      var here: Entry;
      here, e := src.FastEntry(tables.codes, tables.distCode, tables.distBits, c.dl, DISTS);
      AfterDistIs(c, len, bits1, out, e, src.Ahead());
      SuffixOf(src.Ahead(), bits1, bits);
      if Flag(here.op, 16) {
        ghost var bits2 := src.Ahead();
        m := TurnCopy(len, here.val, here.op % 16);
        SuffixOf(src.Ahead(), bits2, bits);
      } else {
        m := BAD;
      }
    }

    /** The extra bits of the distance, and the copying. */
    method TurnCopy(len: nat, base: nat, extra: nat) returns (m: Mode)
      requires Running() && src.Supply() >= 13 && sink.out.Length - sink.put >= 258 && 1 <= len <= 258
      requires 1 <= base && extra <= 13 && base + Pow2(extra) <= 32769
      requires !AtDistExt(c, len, base, extra, src.Ahead(), sink.Full()).Strayed?
      modifies src`next, src`hold, src`bits, sink`put, sink.out
      ensures Running() && (m == LEN || m == BAD)
      ensures Onward(m) == AtDistExt(c, len, base, extra, old(src.Ahead()), old(sink.Full()))
      ensures Suffix(src.Ahead(), old(src.Ahead())) && src.Supply() <= old(src.Supply())
    {
      hide EntryRead, Pow2, AtLenExt, AtLen, AtDist, AtDistExt, AtMatch, Decodes, BitsOf, LowBits, Holds, IsCoding,
           Suffix, TakeLow, Repeat;
      ghost var bits, out := src.Ahead(), sink.Full();
      var v := src.FastExtra(extra);
      ExtraIs(c, len, base, extra, bits, out, v, src.Ahead());
      NearEnough(c, len, base + v, src.Ahead(), out);
      MatchIs(c, len, base + v, len, src.Ahead(), out);
      var ok := sink.CopyMatch(base + v, len);
      m := if ok then LEN else BAD;
    }

    /** Turns until input or room may not do for another one. */
    method Turns(ghost bits: seq<bool>, ghost most: int) returns (m: Mode)
      requires Running() && |src.inp| - src.next >= 6 && sink.out.Length - sink.put >= 258
      requires bits == src.Ahead() && !Onward(LEN).Strayed?
      requires EntryRead(c.ll, LENS, bits).Val? ==> |EntryRead(c.ll, LENS, bits).rest| < most + |src.later|
      modifies src`next, src`hold, src`bits, sink`put, sink.out
      ensures Running() && (m == LEN || m == TYPE || m == BAD) && Onward(m) == old(Onward(LEN))
      ensures Suffix(src.Ahead(), bits) && src.Supply() < most && src.Supply() < old(src.Supply())
    {
      hide EntryRead, Pow2, AtLen, Decodes, BitsOf, LowBits, Holds, IsCoding, Suffix, Onward, Serve;
      src.AheadSize();
      m := Turn();
      src.AheadSize();
      while m == LEN && |src.inp| - src.next >= 6 && sink.out.Length - sink.put >= 258
        invariant Running() && (m == LEN || m == TYPE || m == BAD) && Onward(m) == old(Onward(LEN))
        invariant Suffix(src.Ahead(), bits) && src.Supply() < most && src.Supply() < old(src.Supply())
        decreases src.Supply()
        modifies src`next, src`hold, src`bits, sink`put, sink.out
      {
        ghost var bits1 := src.Ahead();
        m := Turn();
        SuffixOf(src.Ahead(), bits1, bits);
      }
    }

    /** inflate_fast: as long as there is enough input and room for any match, without checking either. */
    method Fast()
      requires Valid() && mode == LEN && |src.inp| - src.next >= 6 && sink.out.Length - sink.put >= 258
      requires !Goal().Strayed?
      modifies `mode, src`next, src`hold, src`bits, sink`put, sink.out
      ensures Valid() && Goal() == old(Goal()) && (mode == LEN || mode == TYPE || mode == BAD)
      ensures src.bits < 8 && Left() < old(Left())
    {
      hide EntryRead, Pow2, AtLen, Decodes, BitsOf, LowBits, Holds, IsCoding, Suffix;
      ghost var a, start := src.Acc(), src.next;
      ghost var more := LowBits(src.inp[start..]) + src.later;
      src.AheadSize();
      LeavesUnder(c.ll, a, more);
      var m := Turns(a + more, 8 * (|src.inp| - start) + 8);
      src.AheadSize();
      src.GiveBack(a, start);
      mode := m;
    }

    // ---------- inflate ----------

    /** inflate inside a block: with inflate_fast wherever there is enough input and room for it. */
    method Run()
      requires Valid() && !Goal().Strayed?
      modifies `mode, `length, `offset, `extra, src`next, src`hold, src`bits, sink`put, sink.out
      ensures Valid() && Goal() == old(Goal()) && Stuck()
    {
      hide Valid, Goal, Stuck, Left;
      while mode != TYPE && mode != BAD
        invariant Valid() && Goal() == old(Goal())
        decreases Left(), Rank(), Remaining()
      {
        if mode == LEN && |src.inp| - src.next >= 6 && sink.out.Length - sink.put >= 258 {
          Fast();
        } else {
          var ok := Step();
          if !ok {
            return;
          }
        }
      }
      DoneIsStuck();
    }

    // ---------- over several calls ----------

    /** Between two calls: the window takes over the output, and the next call brings input and a buffer. */
    method NextCall(data: seq<int>, ghost after: seq<bool>, buffer: array<int>)
      requires Valid() && IsBytes(data) && src.later == LowBits(data) + after
      requires buffer != sink.window && c.cap >= |sink.hist| + sink.put + buffer.Length
      requires sink.window.Length >= c.far && sink.window.Length > 0
      modifies src`inp, src`next, src`later, sink`out, sink`put, sink`hist, sink`wsize, sink`whave, sink`wnext,
               sink.window
      ensures Valid() && Goal() == old(Goal()) && src.later == after
      ensures sink.out == buffer && sink.put == 0 && sink.hist == old(sink.Full())
    {
      hide Settled, Decodes, BitsOf, LowBits, Holds, IsCoding, Pow2, Meant;
      src.Feed(data, after);
      sink.UpdateWindow();
      sink.Renew(buffer);
    }

    /** A block decoded in any number of calls, with inputs and buffers of any size, when no distance exceeds what the
        window holds. */
    method Calls(inputs: seq<seq<int>>, rooms: seq<nat>)
      requires Valid() && |rooms| == |inputs| && AllBytes(inputs) && src.later == AllBits(inputs)
      requires c.cap >= |sink.hist| + sink.put + Sum(rooms)
      requires sink.window.Length >= c.far && sink.window.Length > 0 && !Goal().Strayed?
      modifies this, src, sink, sink.out, sink.window
      ensures Valid() && Goal() == old(Goal()) && (inputs != [] ==> Stuck())
      ensures src.later == []
    {
      hide Goal, Valid, Stuck, LowBits;
      var i := 0;
      while i < |inputs|
        invariant i <= |inputs| && Valid() && c == old(c) && Goal() == old(Goal()) && (i > 0 ==> Stuck())
        invariant src.later == AllBits(inputs[i..]) && c.cap >= |sink.hist| + sink.put + Sum(rooms[i..])
        invariant sink.out == old(sink.out) || fresh(sink.out)
        modifies this, src, sink, sink.out, sink.window
      {
        assert inputs[i..][0] == inputs[i] && inputs[i..][1..] == inputs[i + 1..];
        assert rooms[i..][0] == rooms[i] && rooms[i..][1..] == rooms[i + 1..];
        var buffer := new int[rooms[i]];
        NextCall(inputs[i], AllBits(inputs[i + 1..]), buffer);
        Run();
        Parts();
        i := i + 1;
      }
    }

    lemma Parts()
      requires Valid()
      ensures src.Valid() && sink.Valid()
    {
    }

    /** Where nothing more can be done, and no more input is to come, everything is as the bits say. */
    lemma StuckIsGoal()
      requires Valid() && Stuck() && LastCall()
      ensures Goal() == At(mode, length, offset, extra, src.Ahead(), sink.Full())
      ensures if mode == LEN || mode == LENEXT || mode == DIST || mode == DISTEXT then src.next == |src.inp|
          else src.bits < 8
    {
      hide EntryRead, Decodes, BitsOf, LowBits, Holds, IsCoding, Pow2, Settled;
      if src.next == |src.inp| {
        NothingAhead();
      }
    }

    lemma NothingAhead()
      requires src.Valid() && src.next == |src.inp| && src.later == []
      ensures src.Ahead() == src.Acc()
    {
      hide BitsOf;
    }
  }

  /** The outcome of a state in which nothing more can be done. */
  function At(mode: Mode, length: int, offset: int, extra: nat, bits: seq<bool>, out: seq<int>): Outcome {
    match mode
    case TYPE => Ended(bits, out)
    case LEN => Paused(LEN, 0, 0, 0, bits, out)
    case LENEXT => Paused(LENEXT, length, 0, extra, bits, out)
    case DIST => Paused(DIST, length, 0, 0, bits, out)
    case DISTEXT => Paused(DISTEXT, length, offset, extra, bits, out)
    case MATCH => Paused(MATCH, length, offset, 0, bits, out)
    case LIT => Paused(LIT, length, 0, 0, bits, out)
    case BAD => Broken(bits, out)
  }

  /** A source's position is told by the bits ahead. */
  lemma SamePosition(a: Source, b: Source)
    requires a.Valid() && b.Valid() && a.inp == b.inp && a.later == b.later && a.Ahead() == b.Ahead()
    requires (a.bits < 8 && b.bits < 8) || (a.next == |a.inp| && b.next == |b.inp|)
    ensures a.next == b.next && a.bits == b.bits && a.hold == b.hold
  {
    hide BitsOf, LowBits, Pow2, Value;
    a.AheadSize();
    b.AheadSize();
    assert a.Acc() == a.Ahead()[..a.bits];
    BitsOfValue(a.hold, a.bits);
    BitsOfValue(b.hold, b.bits);
  }

  /** States from which nothing more can be done, and that mean the same, are the same: mode, output, what is still
      to be decoded, and the position in the input down to the bits in the accumulator. */
  lemma SameState(a: Inflater, b: Inflater)
    requires a.Valid() && b.Valid() && a.Stuck() && b.Stuck() && a.Goal() == b.Goal()
    requires a.src.inp == b.src.inp && a.LastCall() && b.LastCall()
    ensures a.mode == b.mode && a.sink.Full() == b.sink.Full()
    ensures a.src.next == b.src.next && a.src.bits == b.src.bits && a.src.hold == b.src.hold
    ensures a.mode == LENEXT || a.mode == DIST || a.mode == DISTEXT || a.mode == MATCH || a.mode == LIT ==>
        a.length == b.length
    ensures a.mode == DISTEXT || a.mode == MATCH ==> a.offset == b.offset
    ensures a.mode == LENEXT || a.mode == DISTEXT ==> a.extra == b.extra
  {
    hide Inflater.Stuck, Inflater.Goal, Inflater.Valid;
    a.StuckIsGoal();
    b.StuckIsGoal();
    a.Parts();
    b.Parts();
    SamePosition(a.src, b.src);
  }

  /** inflate with and without inflate_fast: from the same bits and history, whatever the layout of tables and
      windows, both stop with the same output in the same state at the same bit. */
  method Compare(a: Inflater, b: Inflater)
    requires a.Valid() && b.Valid() && a != b && a.src != b.src && a.sink != b.sink
    requires a.sink.out != b.sink.out && a.sink.out != b.sink.window && b.sink.out != a.sink.window
    requires a.src.inp == b.src.inp && a.LastCall() && b.LastCall() && a.Goal() == b.Goal() && !a.Goal().Strayed?
    modifies a, a.src, a.sink, a.sink.out, b, b.src, b.sink, b.sink.out
    ensures a.mode == b.mode && a.sink.put <= a.sink.out.Length && b.sink.put <= b.sink.out.Length
    ensures a.sink.Full() == b.sink.Full()
    ensures a.src.next == b.src.next && a.src.bits == b.src.bits && a.src.hold == b.src.hold
  {
    hide Inflater.Stuck, Inflater.Goal, Inflater.Valid;
    a.Slow();
    b.Run();
    SameState(a, b);
    a.Parts();
    b.Parts();
  }

  lemma LeavesUnder(ll: seq<int>, a: seq<bool>, more: seq<bool>)
    requires |ll| <= Symbols(LENS) && Settled(ll, LENS, a)
    ensures EntryRead(ll, LENS, a + more).Val? ==> |EntryRead(ll, LENS, a + more).rest| < |more| + 8
  {
    hide EntryRead, Settled;
    if EntryRead(ll, LENS, a + more).Val? {
      SettledLeaves(ll, LENS, a, more);
    }
  }
}
