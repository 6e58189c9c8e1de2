/** The memory that deflate's token buffer shares with its output: of 4 * n bytes the output of a block takes the first
    ones, the distances begin at n with two bytes each, and the literals and lengths at 3 * n with one byte each. While
    a block is sent the output grows towards the tokens it is made from. */
module Overlay {
  import opened Bits
  import opened Lz77
  import opened TokenCode
  import opened ZBits

  // ---------- the layout ----------

  /** What d_buf holds for a token. */
  function DistOf(t: Token): (d: int)
    requires Codable(t)
    ensures 0 <= d <= 32768
  {
    if t.Lit? then 0 else t.dist
  }

  /** What l_buf holds for a token. */
  function LcOf(t: Token): (lc: int)
    requires Codable(t)
    ensures 0 <= lc < 256
  {
    if t.Lit? then t.c else t.len - MIN_MATCH
  }

  /** The token that a distance and a literal or length stand for. */
  function TokenOf(dist: int, lc: int): Token {
    if dist == 0 then Lit(lc) else Match(dist, lc + MIN_MATCH)
  }

  /** The i-th entry of the shared buffer is t. */
  ghost predicate Entry(buf: seq<int>, n: nat, i: nat, t: Token)
    requires i < n && |buf| == 4 * n
  {
    && Codable(t) && buf[n + 2 * i] == DistOf(t) % 256 && buf[n + 2 * i + 1] == DistOf(t) / 256
    && buf[3 * n + i] == LcOf(t)
  }

  /** From the lx-th on the entries are those of the tokens. */
  ghost predicate Laid(buf: seq<int>, n: nat, tokens: seq<Token>, lx: nat) {
    && |buf| == 4 * n && |tokens| < n
    && forall i :: lx <= i < |tokens| ==> Entry(buf, n, i, tokens[i])
  }

  lemma EntryRead(buf: seq<int>, n: nat, i: nat, t: Token)
    requires i < n && |buf| == 4 * n && Entry(buf, n, i, t)
    ensures TokenOf(buf[n + 2 * i] + 256 * buf[n + 2 * i + 1], buf[3 * n + i]) == t
  {
  }

  /** One more entry. */
  lemma LaidNext(buf: seq<int>, n: nat, tokens: seq<Token>, t: Token)
    requires Laid(buf, n, tokens, 0) && |tokens| + 1 < n && Codable(t)
    ensures
      var i := |tokens|;
      Laid(buf[n + 2 * i := DistOf(t) % 256][n + 2 * i + 1 := DistOf(t) / 256][3 * n + i := LcOf(t)], n,
           tokens + [t], 0)
  {
    var i := |tokens|;
    var next := buf[n + 2 * i := DistOf(t) % 256][n + 2 * i + 1 := DistOf(t) / 256][3 * n + i := LcOf(t)];
    forall k | 0 <= k < |tokens + [t]|
      ensures Entry(next, n, k, (tokens + [t])[k])
    {
      if k < i {
        assert Entry(buf, n, k, tokens[k]);
      }
    }
  }

  /** Output up to an entry leaves it and those behind it as they are. */
  lemma LaidKept(buf: seq<int>, next: seq<int>, n: nat, tokens: seq<Token>, lx: nat, put: nat)
    requires Laid(buf, n, tokens, lx) && |next| == |buf| && put <= n + 2 * lx && lx < n
    requires forall k :: put <= k < |buf| ==> next[k] == buf[k]
    ensures Laid(next, n, tokens, lx)
  {
    forall i | lx <= i < |tokens|
      ensures Entry(next, n, i, tokens[i])
    {
      assert Entry(buf, n, i, tokens[i]);
    }
  }

  /** The buffer next after put bytes of output, whatever they are. */
  ghost predicate SameFrom(buf: seq<int>, next: seq<int>, put: nat) {
    |next| == |buf| && forall k :: put <= k < |buf| ==> next[k] == buf[k]
  }

  /** An entry survives all possible output if and only if that does not reach it. */
  lemma EntrySpared(buf: seq<int>, n: nat, i: nat, t: Token, put: nat)
    requires i < n && |buf| == 4 * n && Entry(buf, n, i, t)
    ensures (forall next :: SameFrom(buf, next, put) ==> Entry(next, n, i, t)) <==> put <= n + 2 * i
  {
    if put > n + 2 * i {
      var next := buf[n + 2 * i := buf[n + 2 * i] + 1];
      assert SameFrom(buf, next, put) && !Entry(next, n, i, t);
    }
  }

  // ---------- how far the output has grown ----------

  /** The bytes put when so many bits have been sent since the buffer was empty: they leave the bit buffer two by two,
      and some bits stay behind. */
  function Put(bits: nat): nat {
    if bits == 0 then 0 else 2 * ((bits - 1) / 16)
  }

  lemma PutIs(sink: BitSink)
    requires sink.Valid() && sink.shorts
    ensures |sink.Written()| >= 8 * sink.start
    ensures |sink.pending| - sink.start == Put(|sink.Written()| - 8 * sink.start)
  {
    hide Pow2, BitsOf, LowBits;
    var put := |sink.pending| - sink.start;
    var h := put / 2;
    assert put == 2 * h;
    assert |sink.Written()| - 8 * sink.start == 16 * h + sink.biValid;
    if sink.biValid > 0 {
      Halves(h, sink.biValid);
    }
  }

  lemma Halves(h: nat, valid: nat)
    requires 1 <= valid <= 16
    ensures (16 * h + valid - 1) / 16 == h
  {
  }

  /** How many bits the first i tokens take. */
  ghost function SentBits(ll: seq<int>, dl: seq<int>, tokens: seq<Token>, i: nat): nat
    requires AllCoded(ll, dl, tokens) && i <= |tokens|
  {
    if i == 0 then 0 else SentBits(ll, dl, tokens, i - 1) + |TokenBits(ll, dl, tokens[i - 1])|
  }

  /** Every token is read before the output reaches its entry, when at bits precede the tokens. */
  ghost predicate InTime(n: nat, ll: seq<int>, dl: seq<int>, tokens: seq<Token>, at: nat)
    requires AllCoded(ll, dl, tokens)
  {
    forall i :: 0 <= i < |tokens| ==> Spared(n, ll, dl, tokens, at, i)
  }

  /** When the i-th token is read, the output has not reached its entry. */
  ghost predicate Spared(n: nat, ll: seq<int>, dl: seq<int>, tokens: seq<Token>, at: nat, i: nat)
    requires AllCoded(ll, dl, tokens) && i < |tokens|
  {
    Put(at + SentBits(ll, dl, tokens, i)) <= n + 2 * i
  }
}
