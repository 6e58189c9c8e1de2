/** inflate's output side: bytes go into the caller's buffer, and a circular window keeps the last ones of earlier
    calls for matches that reach further back than the buffer. */
module SlidingWindow {
  import opened Lz77

  // ---------- repeating ----------

  lemma {:induction false} RepeatSplit(out: seq<int>, dist: nat, a: nat, b: nat)
    requires 1 <= dist <= |out|
    ensures Repeat(out, dist, a + b) == Repeat(Repeat(out, dist, a), dist, b)
    decreases a
  {
    if a > 0 {
      RepeatSplit(out + [out[|out| - dist]], dist, a - 1, b);
    }
  }

  lemma RepeatNone(out: seq<int>, dist: nat)
    requires 1 <= dist <= |out|
    ensures Repeat(out, dist, 0) == out
  {
  }

  lemma RepeatOne(out: seq<int>, dist: nat)
    requires 1 <= dist <= |out|
    ensures Repeat(out, dist, 1) == out + [out[|out| - dist]]
  {
    assert Repeat(out + [out[|out| - dist]], dist, 0) == out + [out[|out| - dist]];
  }

  // ---------- the circular window ----------

  /** The index of the byte k back from the write index. */
  function Spot(size: nat, next: nat, k: nat): int {
    if k <= next then next - k else size + next - k
  }

  /** The window holds the last bytes of the history, have of them. */
  ghost predicate Holds(w: seq<int>, size: nat, have: nat, next: nat, hist: seq<int>) {
    && have <= size <= |w| && have <= |hist| && next <= size
    && (size > 0 ==> next < size)
    && (have < size ==> next == have)
    && forall k :: 1 <= k <= have ==> w[Spot(size, next, k)] == hist[|hist| - k]
  }

  /** A stretch of the window that does not wrap around is a stretch of the history. */
  lemma Stretch(w: seq<int>, size: nat, have: nat, next: nat, hist: seq<int>, k: nat, n: nat)
    requires Holds(w, size, have, next, hist) && n <= k <= have
    requires k <= next || next <= k - n
    ensures 0 <= Spot(size, next, k) && Spot(size, next, k) + n <= |w|
    ensures w[Spot(size, next, k)..Spot(size, next, k) + n] == hist[|hist| - k..|hist| - k + n]
  {
    var s := Spot(size, next, k);
    var a, b := w[s..s + n], hist[|hist| - k..|hist| - k + n];
    forall i | 0 <= i < n
      ensures a[i] == b[i]
    {
      assert w[Spot(size, next, k - i)] == hist[|hist| - (k - i)];
    }
  }

  // ---------- update of the window ----------

  /** The window with new bytes from an index on. */
  function Overlay(w: seq<int>, at: nat, more: seq<int>): (r: seq<int>)
    requires at + |more| <= |w|
    ensures |r| == |w|
  {
    w[..at] + more + w[at + |more|..]
  }

  /** Everything is replaced: at least a window full of new bytes. */
  lemma HoldsAll(w: seq<int>, size: nat, hist: seq<int>, more: seq<int>)
    requires 0 < size == |w| <= |more|
    ensures Holds(Overlay(w, 0, more[|more| - size..]), size, size, 0, hist + more)
  {
    assert Overlay(w, 0, more[|more| - size..]) == more[|more| - size..];
  }

  /** New bytes behind the old ones, up to the end of the window. */
  lemma HoldsMore(w: seq<int>, size: nat, have: nat, next: nat, hist: seq<int>, more: seq<int>)
    requires Holds(w, size, have, next, hist) && next + |more| <= size == |w| && size > 0
    ensures Holds(Overlay(w, next, more), size, if have < size then have + |more| else have,
                  if next + |more| == size then 0 else next + |more|, hist + more)
  {
    var m := |more|;
    var w', h := Overlay(w, next, more), hist + more;
    var have' := if have < size then have + m else have;
    var next' := if next + m == size then 0 else next + m;
    forall k | 1 <= k <= have'
      ensures w'[Spot(size, next', k)] == h[|h| - k]
    {
      if k > m {
        assert w[Spot(size, next, k - m)] == hist[|hist| - (k - m)];
      }
    }
  }

  // ---------- reading the window ----------

  /** From the write index on come the older bytes, before it the newer ones. */
  lemma InOrder(w: seq<int>, size: nat, have: nat, next: nat, hist: seq<int>)
    requires Holds(w, size, have, next, hist) && have > 0
    ensures next <= have <= |hist| && w[next..have] + w[..next] == hist[|hist| - have..]
  {
    var a, b := w[next..have] + w[..next], hist[|hist| - have..];
    forall i | 0 <= i < have
      ensures a[i] == b[i]
    {
      assert w[Spot(size, next, have - i)] == hist[|hist| - (have - i)];
    }
  }

  lemma OverlayTwice(d: seq<int>, a: seq<int>, b: seq<int>)
    requires |a| + |b| <= |d|
    ensures Overlay(Overlay(d, 0, a), |a|, b) == Overlay(d, 0, a + b)
  {
  }

  lemma OverlayNone(d: seq<int>)
    ensures Overlay(d, 0, []) == d
  {
  }

  class Sink {
    var out: array<int>
    var put: nat
    const window: array<int>
    var wsize: nat
    var whave: nat
    var wnext: nat
    /** The output of earlier calls. */
    ghost var hist: seq<int>

    ghost predicate Valid()
      reads this, out, window
    {
      out != window && put <= out.Length && (wsize == 0 || wsize == window.Length)
      && Holds(window[..], wsize, whave, wnext, hist)
    }

    /** All output so far. */
    ghost function Full(): (s: seq<int>)
      requires put <= out.Length
      reads `hist, `put, `out, out
      ensures |s| == |hist| + put
    {
      hist + out[..put]
    }

    constructor (window: array<int>, out: array<int>)
      requires out != window
      ensures Valid() && Full() == [] && put == 0 && whave == 0 && this.window == window && this.out == out
    {
      this.window, this.out, put := window, out, 0;
      wsize, whave, wnext, hist := 0, 0, 0, [];
    }

    method PutByte(b: int)
      requires Valid() && put < out.Length
      modifies `put, out
      ensures Valid() && put == old(put) + 1 && Full() == old(Full()) + [b]
      ensures window[..] == old(window[..])
    {
      hide Holds;
      out[put] := b;
      put := put + 1;
      assert out[..put] == old(out[..put]) + [b];
    }

    // ---------- copying ----------

    /** The next n bytes to copy stand at from, in the window or in the output: those dist bytes back. */
    ghost predicate Source(inWindow: bool, from: nat, n: nat, dist: nat)
      requires put <= out.Length
      reads this, out, window
    {
      1 <= dist <= |Full()| && put + n <= out.Length
      && if inWindow then
           from + n <= window.Length && |Full()| - dist + n <= |hist|
           && window[from..from + n] == hist[|Full()| - dist..|Full()| - dist + n]
         else from + dist == put
    }

    method CopyByte(inWindow: bool, from: nat, ghost n: nat, ghost dist: nat)
      requires Valid() && n > 0 && Source(inWindow, from, n, dist)
      modifies `put, out
      ensures Valid() && put == old(put) + 1 && Source(inWindow, from + 1, n - 1, dist)
      ensures Full() == Repeat(old(Full()), dist, 1)
    {
      hide Holds;
      RepeatOne(Full(), dist);
      if inWindow {
        ghost var w := window[from..from + n];
        assert w[0] == Full()[|Full()| - dist];
        PutByte(window[from]);
        assert window[from + 1..from + n] == w[1..];
      } else {
        PutByte(out[from]);
      }
    }

    /** Copies n bytes, one by one. */
    method CopySome(inWindow: bool, from: nat, n: nat, ghost dist: nat)
      requires Valid() && 1 <= dist <= |Full()| && Source(inWindow, from, n, dist)
      modifies `put, out
      ensures Valid() && put == old(put) + n && Full() == Repeat(old(Full()), dist, n)
    {
      hide Holds, Source, Full, Repeat;
      var f: nat, left: nat := from, n;
      ghost var s := Full();
      RepeatNone(s, dist);
      while left > 0
        invariant left <= n && Valid() && put == old(put) + n - left && Source(inWindow, f, left, dist)
        invariant Full() == Repeat(s, dist, n - left)
        modifies `put, out
      {
        CopyByte(inWindow, f, left, dist);
        RepeatSplit(s, dist, n - left, 1);
        f, left := f + 1, left - 1;
      }
    }

    /** Copies three bytes at a time, and then what is left. */
    method CopyTriples(inWindow: bool, from: nat, n: nat, ghost dist: nat)
      requires Valid() && 1 <= dist <= |Full()| && Source(inWindow, from, n, dist)
      modifies `put, out
      ensures Valid() && put == old(put) + n && Full() == Repeat(old(Full()), dist, n)
    {
      hide Holds, Source, Full, Repeat;
      var f: nat, len: nat := from, n;
      ghost var s := Full();
      RepeatNone(s, dist);
      while len > 2
        invariant len <= n && Valid() && put == old(put) + n - len && Source(inWindow, f, len, dist)
        invariant Full() == Repeat(s, dist, n - len)
        modifies `put, out
      {
        CopyByte(inWindow, f, len, dist);
        CopyByte(inWindow, f + 1, len - 1, dist);
        CopyByte(inWindow, f + 2, len - 2, dist);
        RepeatSplit(s, dist, n - len, 1);
        RepeatSplit(s, dist, n - len + 1, 1);
        RepeatSplit(s, dist, n - len + 2, 1);
        f, len := f + 3, len - 3;
      }
      if len > 0 {
        CopyByte(inWindow, f, len, dist);
        RepeatSplit(s, dist, n - len, 1);
        if len > 1 {
          CopyByte(inWindow, f + 1, len - 1, dist);
          RepeatSplit(s, dist, n - len + 1, 1);
        }
      }
    }

    /** A stretch of the window that reaches dist bytes back. */
    lemma FromWindow(dist: nat, k: nat, n: nat)
      requires Valid() && k == dist - put && 1 <= n <= k <= whave && put + n <= out.Length
      requires k <= wnext || n <= k - wnext
      ensures dist <= |Full()| && 0 <= Spot(wsize, wnext, k) && Source(true, Spot(wsize, wnext, k), n, dist)
    {
      hide Holds;
      HaveEnough(window[..], wsize, whave, wnext, hist);
      Stretch(window[..], wsize, whave, wnext, hist, k, n);
      var s := Spot(wsize, wnext, k);
      assert window[..][s..s + n] == window[s..s + n];
    }

    lemma HaveEnough(w: seq<int>, size: nat, have: nat, next: nat, hist: seq<int>)
      requires Holds(w, size, have, next, hist)
      ensures have <= size <= |w| && have <= |hist| && next <= size && (next == 0 && have > 0 ==> have == size)
      ensures have == next || have == size
    {
    }

    // ---------- inflate_fast: copying a match ----------

    /** Copies a match for which there is room; false if it reaches too far back. */
    method CopyMatch(dist: nat, len: nat) returns (ok: bool)
      requires Valid() && dist >= 1 && len >= 1 && len <= out.Length - put
      modifies `put, out
      ensures Valid() && (ok <==> dist - old(put) <= whave)
      ensures if ok then dist <= |old(Full())| && put == old(put) + len && Full() == Repeat(old(Full()), dist, len)
        else put == old(put) && Full() == old(Full())
    {
      hide Holds, Repeat, Full, Source;
      HaveEnough(window[..], wsize, whave, wnext, hist);
      if dist > put {
        var op := dist - put;
        if op > whave {
          return false;
        }
        if wnext == 0 {
          CopyPart(wsize - op, op, dist, len);
        } else if wnext < op {
          CopyWrapped(op, dist, len);
        } else {
          CopyPart(wnext - op, op, dist, len);
        }
      } else {
        FromOutput(dist, len);
        CopyTriples(false, put - dist, len, dist);
      }
      ok := true;
    }

    lemma FromOutput(dist: nat, n: nat)
      requires put <= out.Length && 1 <= dist <= put && put + n <= out.Length
      ensures dist <= |Full()| && Source(false, put - dist, n, dist)
    {
    }

    /** A match that begins op bytes before the end of a stretch of the window, and goes on in the output. */
    method CopyPart(from: nat, op: nat, dist: nat, n: nat)
      requires Valid() && op == dist - put && 1 <= op <= whave && 1 <= n <= out.Length - put
      requires from == Spot(wsize, wnext, op) && (op <= wnext || wnext == 0)
      modifies `put, out
      ensures Valid() && dist <= |old(Full())| && put == old(put) + n && Full() == Repeat(old(Full()), dist, n)
    {
      hide Holds, Repeat, Full, Source;
      var len := n;
      if op < len {
        FromWindow(dist, op, op);
        RepeatSplit(Full(), dist, op, len - op);
        len := len - op;
        CopySome(true, from, op, dist);
        FromOutput(dist, len);
        CopyTriples(false, put - dist, len, dist);
      } else {
        FromWindow(dist, op, len);
        CopyTriples(true, from, len, dist);
      }
    }

    /** A match that wraps around the end of the window. */
    method CopyWrapped(op: nat, dist: nat, n: nat)
      requires Valid() && op == dist - put && 0 < wnext < op <= whave && 1 <= n <= out.Length - put
      modifies `put, out
      ensures Valid() && dist <= |old(Full())| && put == old(put) + n && Full() == Repeat(old(Full()), dist, n)
    {
      hide Holds, Repeat, Full, Source;
      HaveEnough(window[..], wsize, whave, wnext, hist);
      var from := wsize + wnext - op;
      var end := op - wnext;
      var len := n;
      if end < len {
        FromWindow(dist, op, end);
        RepeatSplit(Full(), dist, end, len - end);
        len := len - end;
        CopySome(true, from, end, dist);
        CopyPart(0, wnext, dist, len);
      } else {
        FromWindow(dist, op, len);
        CopyTriples(true, from, len, dist);
      }
    }

    // ---------- inflate, state MATCH: copying as much of a match as one piece allows ----------

    /** Copies a first piece of a match: as much as there is room for, and no further than the piece of the window
        that it begins in; false if it reaches too far back. */
    method CopyPiece(offset: nat, length: nat) returns (ok: bool, copied: nat)
      requires Valid() && offset >= 1 && length >= 1 && put < out.Length
      modifies `put, out
      ensures Valid() && (ok <==> offset - old(put) <= whave)
      ensures if ok then
          offset <= |old(Full())| && 1 <= copied <= length && put == old(put) + copied
          && Full() == Repeat(old(Full()), offset, copied)
        else copied == 0 && put == old(put) && Full() == old(Full())
    {
      hide Holds, Repeat, Full, Source;
      HaveEnough(window[..], wsize, whave, wnext, hist);
      var left := out.Length - put;
      var copy := put;
      var from: nat;
      if offset > copy {
        copy := offset - copy;
        if copy > whave {
          return false, 0;
        }
        ghost var k := copy;
        if copy > wnext {
          copy := copy - wnext;
          from := wsize - copy;
        } else {
          from := wnext - copy;
        }
        if copy > length {
          copy := length;
        }
        if copy > left {
          copy := left;
        }
        FromWindow(offset, k, copy);
        CopySome(true, from, copy, offset);
      } else {
        from := put - offset;
        copy := length;
        if copy > left {
          copy := left;
        }
        FromOutput(offset, copy);
        CopySome(false, from, copy, offset);
      }
      return true, copy;
    }

    // ---------- updatewindow ----------

    /** Copies output into the window. */
    method CopyIn(at: nat, from: nat, n: nat)
      requires out != window && from + n <= out.Length && at + n <= window.Length
      modifies window
      ensures window[..] == Overlay(old(window[..]), at, out[from..from + n])
    {
      var i := 0;
      while i < n
        invariant i <= n && window[..at] == old(window[..at]) && window[at + n..] == old(window[at + n..])
        invariant window[at..at + i] == out[from..from + i]
        modifies window
      {
        window[at + i] := out[from + i];
        assert window[at..at + i + 1] == window[at..at + i] + [out[from + i]];
        i := i + 1;
      }
      assert window[..] == window[..at] + window[at..at + n] + window[at + n..];
    }

    /** At the end of a call the window takes over what the call has put out, or as much of it as fits. */
    method UpdateWindow()
      requires Valid() && window.Length > 0
      modifies `wsize, `whave, `wnext, window
      ensures wsize == window.Length && Holds(window[..], wsize, whave, wnext, Full())
      ensures Full() == old(Full()) && out[..] == old(out[..])
      ensures whave == if old(whave) + put < wsize then old(whave) + put else wsize
    {
      hide Holds, Full;
      HaveEnough(window[..], wsize, whave, wnext, hist);
      if wsize == 0 {
        wsize, wnext, whave := window.Length, 0, 0;
        HoldsNone(window[..], wsize, hist);
      }
      if put >= wsize {
        CopyAll();
      } else {
        CopyAround();
      }
    }

    lemma HoldsNone(w: seq<int>, size: nat, hist: seq<int>)
      requires 0 < size <= |w|
      ensures Holds(w, size, 0, 0, hist)
    {
    }

    /** A whole window of new bytes. */
    method CopyAll()
      requires Valid() && 0 < wsize == window.Length <= put
      modifies `whave, `wnext, window
      ensures Holds(window[..], wsize, whave, wnext, Full()) && whave == wsize
      ensures Full() == old(Full()) && out[..] == old(out[..])
    {
      hide Holds, Overlay;
      ghost var o: seq<int> := out[..put];
      HoldsAll(window[..], wsize, hist, o);
      assert out[put - wsize..put - wsize + wsize] == o[put - wsize..];
      CopyIn(0, put - wsize, wsize);
      wnext := 0;
      whave := wsize;
    }

    /** Fewer new bytes: up to the end of the window, and the rest from its start on. */
    method CopyAround()
      requires Valid() && put < wsize == window.Length
      modifies `whave, `wnext, window
      ensures Holds(window[..], wsize, whave, wnext, Full())
      ensures Full() == old(Full()) && out[..] == old(out[..])
      ensures whave == if old(whave) + put < wsize then old(whave) + put else wsize
    {
      hide Holds, Overlay;
      HaveEnough(window[..], wsize, whave, wnext, hist);
      var copy := put;
      var dist := wsize - wnext;
      if dist > copy {
        dist := copy;
      }
      ghost var o: seq<int> := out[..put];
      HoldsMore(window[..], wsize, whave, wnext, hist, o[..dist]);
      assert out[put - copy..put - copy + dist] == o[..dist];
      CopyIn(wnext, put - copy, dist);
      copy := copy - dist;
      assert hist + o[..dist] + o[dist..] == hist + o;
      if copy > 0 {
        HoldsMore(window[..], wsize, wsize, 0, hist + o[..dist], o[dist..]);
        assert out[put - copy..put - copy + copy] == o[dist..];
        CopyIn(0, put - copy, copy);
        wnext := copy;
        whave := wsize;
      } else {
        assert o[..dist] == o;
        wnext := wnext + dist;
        if wnext == wsize {
          wnext := 0;
        }
        if whave < wsize {
          whave := whave + dist;
        }
      }
    }

    // ---------- inflateGetDictionary ----------

    /** Copies a stretch of the window. */
    method CopyOut(dictionary: array<int>, at: nat, from: nat, n: nat)
      requires dictionary != window && from + n <= window.Length && at + n <= dictionary.Length
      modifies dictionary
      ensures dictionary[..] == Overlay(old(dictionary[..]), at, window[from..from + n])
    {
      var i := 0;
      while i < n
        invariant i <= n && dictionary[..at] == old(dictionary[..at])
        invariant dictionary[at + n..] == old(dictionary[at + n..])
        invariant dictionary[at..at + i] == window[from..from + i]
        modifies dictionary
      {
        dictionary[at + i] := window[from + i];
        assert dictionary[at..at + i + 1] == dictionary[at..at + i] + [window[from + i]];
        i := i + 1;
      }
      assert dictionary[..] == dictionary[..at] + dictionary[at..at + n] + dictionary[at + n..];
    }

    /** The window's bytes in the order in which they were put out. */
    method GetDictionary(dictionary: array<int>) returns (dictLength: nat)
      requires Valid() && dictionary != window && dictionary != out && whave <= dictionary.Length
      modifies dictionary
      ensures Valid() && dictLength == whave <= |hist|
      ensures dictionary[..] == Overlay(old(dictionary[..]), 0, hist[|hist| - whave..])
    {
      hide Overlay;
      dictLength := whave;
      ghost var d0: seq<int> := dictionary[..];
      ghost var w: seq<int> := window[..];
      if whave > 0 {
        InOrder(w, wsize, whave, wnext, hist);
        assert window[wnext..wnext + (whave - wnext)] == w[wnext..whave] && window[0..0 + wnext] == w[..wnext];
        CopyOut(dictionary, 0, wnext, whave - wnext);
        assert dictionary[..] == Overlay(d0, 0, w[wnext..whave]);
        CopyOut(dictionary, whave - wnext, 0, wnext);
        OverlayTwice(d0, w[wnext..whave], w[..wnext]);
      } else {
        OverlayNone(d0);
        assert hist[|hist| - whave..] == [];
      }
    }

    /** The next call's buffer. */
    method Renew(buffer: array<int>)
      requires put <= out.Length && buffer != window && Holds(window[..], wsize, whave, wnext, Full())
      requires wsize == 0 || wsize == window.Length
      modifies `out, `put, `hist
      ensures Valid() && Full() == old(Full()) == hist && out == buffer && put == 0
    {
      hide Holds;
      hist := Full();
      out, put := buffer, 0;
      assert Full() == hist;
    }
  }
}
