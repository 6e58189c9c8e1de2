/** The initial run-length coding: what the pairs of a block stand for, and what the decoder makes of a block. */
module RunLength {
  import opened Bytes

  /** A run of 1 to 255 equal bytes. */
  datatype Pair = Pair(ch: int, len: int)

  type Run = p: Pair | 0 <= p.ch < 256 && 1 <= p.len <= 255 witness Pair(0, 1)

  function Rep(c: int, n: nat): (s: seq<int>)
    ensures |s| == n && forall i :: 0 <= i < n ==> s[i] == c
  {
    seq(n, _ => c)
  }

  /** The block bytes of one run: itself below four, else four copies and a count byte. */
  function Coded(p: Run): (s: seq<int>)
    ensures |s| >= 1 && IsBytes(s)
  {
    if p.len < 4 then Rep(p.ch, p.len) else Rep(p.ch, 4) + [p.len - 4]
  }

  /** Runs as the encoder emits them: a byte follows itself only after a full run. */
  ghost predicate Maximal(ps: seq<Run>) {
    forall i :: 0 < i < |ps| ==> ps[i-1].ch != ps[i].ch || ps[i-1].len == 255
  }

  /** The block bytes of a list of runs. */
  function Flatten(ps: seq<Run>): (s: seq<int>)
    ensures IsBytes(s)
  {
    if ps == [] then [] else Flatten(ps[..|ps|-1]) + Coded(ps[|ps|-1])
  }

  /** The bytes a list of runs stands for. */
  function Plain(ps: seq<Run>): (s: seq<int>)
    ensures IsBytes(s)
  {
    if ps == [] then [] else Plain(ps[..|ps|-1]) + Rep(ps[|ps|-1].ch, ps[|ps|-1].len)
  }

  /** What the decoder makes of the n bytes at the front of the stream, from byte m on. The stream holds
      two more bytes, which the look-ahead may read; corrupt says it had to use one of them. */
  datatype Decoded = Decoded(out: seq<int>, corrupt: bool)

  function RunAt(s: seq<int>, n: nat, m: nat): (r: nat)
    requires m < n && n + 2 <= |s|
    ensures 1 <= r <= 4 && m + r <= n
  {
    if m + 1 == n || s[m+1] != s[m] then 1
    else if m + 2 == n || s[m+2] != s[m] then 2
    else if m + 3 == n || s[m+3] != s[m] then 3
    else 4
  }

  function Expand(s: seq<int>, n: nat, m: nat): (d: Decoded)
    requires n + 2 <= |s| && IsBytes(s)
    decreases n - m
  {
    if m == n then Decoded([], false)
    else if m > n then Decoded([], true)
    else
      var r := RunAt(s, n, m);
      if r < 4 then Prepend(Rep(s[m], r), Expand(s, n, m + r))
      else Prepend(Rep(s[m], 4 + s[m+4]), Expand(s, n, m + 5))
  }

  function Prepend(a: seq<int>, d: Decoded): Decoded {
    Decoded(a + d.out, d.corrupt)
  }

  lemma {:induction false} FlattenFront(ps: seq<Run>)
    requires ps != []
    ensures Flatten(ps) == Coded(ps[0]) + Flatten(ps[1..])
    decreases |ps|
  {
    var k := |ps| - 1;
    if k > 0 {
      FlattenFront(ps[..k]);
      assert ps[..k][1..] == ps[1..][..k-1];
    }
  }

  lemma {:induction false} PlainFront(ps: seq<Run>)
    requires ps != []
    ensures Plain(ps) == Rep(ps[0].ch, ps[0].len) + Plain(ps[1..])
    decreases |ps|
  {
    var k := |ps| - 1;
    if k > 0 {
      PlainFront(ps[..k]);
      assert ps[..k][1..] == ps[1..][..k-1];
    }
  }

  lemma CodedShape(p: Run)
    ensures |Coded(p)| >= 1 && Coded(p)[0] == p.ch
    ensures p.len < 4 ==> |Coded(p)| == p.len && forall i :: 0 <= i < p.len ==> Coded(p)[i] == p.ch
    ensures p.len >= 4 ==> |Coded(p)| == 5 && Coded(p)[4] == p.len - 4 && forall i :: 0 <= i < 4 ==> Coded(p)[i] == p.ch
  {
  }

  /** The decoder's reading of one coded run. */
  lemma ExpandOne(s: seq<int>, n: nat, m: nat, p: Run)
    requires n + 2 <= |s| && IsBytes(s)
    requires m + |Coded(p)| <= n && s[m..m + |Coded(p)|] == Coded(p)
    requires m + |Coded(p)| == n || s[m + |Coded(p)|] != p.ch || p.len == 255
    ensures Expand(s, n, m) == Prepend(Rep(p.ch, p.len), Expand(s, n, m + |Coded(p)|))
  {
    CodedShape(p);
    var k := |Coded(p)|;
    forall i | 0 <= i < k
      ensures s[m + i] == Coded(p)[i]
    {
      assert s[m..m + k][i] == s[m + i];
    }
    assert s[m + 0] == p.ch;
    if p.len >= 4 {
      assert s[m + 1] == p.ch && s[m + 2] == p.ch && s[m + 3] == p.ch && s[m + 4] == p.len - 4;
      assert RunAt(s, n, m) == 4;
    } else {
      assert p.len >= 2 ==> s[m + 1] == p.ch;
      assert p.len >= 3 ==> s[m + 2] == p.ch;
      assert RunAt(s, n, m) == p.len;
    }
  }

  /** Run coding round trip: a block made of runs expands to what the runs stand for. */
  lemma {:induction false} RunsRoundTrip(s: seq<int>, n: nat, m: nat, ps: seq<Run>)
    requires n + 2 <= |s| && IsBytes(s)
    requires Maximal(ps) && m <= n && s[m..n] == Flatten(ps)
    ensures Expand(s, n, m) == Decoded(Plain(ps), false)
    decreases |ps|
  {
    hide Maximal, Flatten, Coded, RunAt;
    if ps == [] {
      FlattenNil();
      assert m == n;
    } else {
      PlainFront(ps);
      var k := FirstRun(s, n, m, ps);
      ExpandOne(s, n, m, ps[0]);
      RunsRoundTrip(s, n, m + k, ps[1..]);
    }
  }

  lemma FlattenNil()
    ensures Flatten([]) == []
  {
  }

  lemma FirstRun(s: seq<int>, n: nat, m: nat, ps: seq<Run>) returns (k: nat)
    requires n < |s| && Maximal(ps) && ps != [] && m <= n && s[m..n] == Flatten(ps)
    ensures k == |Coded(ps[0])| && m + k <= n && s[m..m + k] == Coded(ps[0])
    ensures s[m + k..n] == Flatten(ps[1..]) && 0 < k
    ensures m + k == n || s[m + k] != ps[0].ch || ps[0].len == 255
    ensures Maximal(ps[1..])
  {
    hide Flatten, Coded;
    FlattenFront(ps);
    k := |Coded(ps[0])|;
    CodedShape(ps[0]);
    assert s[m..n][..k] == s[m..m+k];
    assert s[m..n][k..] == s[m+k..n];
    if |ps| > 1 {
      FlattenFront(ps[1..]);
      CodedShape(ps[1]);
      assert s[m+k..n][0] == s[m+k];
      assert ps[0].ch != ps[1].ch || ps[0].len == 255;
    } else {
      FlattenNil();
    }
  }

  /** The decoder has read one run from byte m: it writes len copies, holds back k0 and has drawn used bytes. */
  ghost predicate RunRead(s: seq<int>, n: nat, m: nat, len: nat, k0: int, used: nat)
    requires m < n && n + 2 <= |s| && IsBytes(s)
  {
    && m + 1 < used <= n + 2 && len >= 1
    && (used <= n ==> k0 == s[used - 1])
    && Expand(s, n, m) == Prepend(Rep(s[m], len), Expand(s, n, used - 1))
  }

  lemma RunReadFacts(s: seq<int>, n: nat, m: nat, len: nat, k0: int, used: nat)
    requires m < n && n + 2 <= |s| && IsBytes(s)
    requires RunRead(s, n, m, len, k0, used)
    ensures m + 1 < used <= n + 2 && len >= 1 && (used <= n ==> k0 == s[used - 1])
    ensures Expand(s, n, m) == Prepend(Rep(s[m], len), Expand(s, n, used - 1))
  {
  }

  /** A run of one, two or three, cut off by another byte or by the end of the block. */
  lemma ShortRun(s: seq<int>, n: nat, m: nat, r: nat, k0: int)
    requires m < n && n + 2 <= |s| && IsBytes(s)
    requires 1 <= r <= 3 && m + r <= n
    requires (r >= 2 ==> s[m + 1] == s[m]) && (r >= 3 ==> s[m + 2] == s[m])
    requires m + r == n || (s[m + r] != s[m] && k0 == s[m + r])
    ensures RunRead(s, n, m, r, k0, m + r + 1)
  {
    assert RunAt(s, n, m) == r;
  }

  /** Four equal bytes: the next one counts the rest. */
  lemma LongRun(s: seq<int>, n: nat, m: nat, k0: int)
    requires m + 3 < n && n + 2 <= |s| && IsBytes(s)
    requires s[m + 1] == s[m] && s[m + 2] == s[m] && s[m + 3] == s[m] && k0 == s[m + 5]
    ensures RunRead(s, n, m, s[m + 4] + 4, k0, m + 6)
  {
    assert RunAt(s, n, m) == 4;
  }

  // ---------- writing into limited space ----------

  function Min(a: nat, b: nat): nat {
    if a <= b then a else b
  }

  /** A call that had room for avail bytes of what was pending: it wrote as much as fits and no more. */
  ghost predicate Wrote(before: Decoded, out: seq<int>, after: Decoded) {
    before == Prepend(out, after)
  }

  lemma WroteOne(before: Decoded, out: seq<int>, c: int, len: nat, rest: Decoded)
    requires len > 0 && Wrote(before, out, Prepend(Rep(c, len), rest))
    ensures Wrote(before, out + [c], Prepend(Rep(c, len - 1), rest))
  {
    assert Rep(c, len) == [c] + Rep(c, len - 1);
    assert out + (Rep(c, len) + rest.out) == (out + [c]) + (Rep(c, len - 1) + rest.out);
  }

  lemma NothingHeld(c: int, rest: Decoded)
    ensures Prepend(Rep(c, 0), rest) == rest
  {
    assert [] + rest.out == rest.out;
  }
}
