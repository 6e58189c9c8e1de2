/** The bytes in use, renumbered without gaps: the encoder's map and the decoder's inverse. */
module ByteMap {

  /** The used byte values below k, in order. */
  function UsedUpTo(inUse: seq<bool>, k: nat): (u: seq<int>)
    requires k <= |inUse|
    ensures |u| <= k && forall i :: 0 <= i < |u| ==> 0 <= u[i] < k && inUse[u[i]]
  {
    if k == 0 then []
    else if inUse[k-1] then UsedUpTo(inUse, k - 1) + [k - 1]
    else UsedUpTo(inUse, k - 1)
  }

  function Used(inUse: seq<bool>): seq<int> {
    UsedUpTo(inUse, |inUse|)
  }

  /** The number of byte c among the used ones. */
  function Rank(inUse: seq<bool>, c: nat): nat
    requires c < |inUse|
  {
    |UsedUpTo(inUse, c)|
  }

  lemma {:induction false} RankFinds(inUse: seq<bool>, c: nat, k: nat)
    requires c < k <= |inUse| && inUse[c]
    ensures Rank(inUse, c) < |UsedUpTo(inUse, k)| && UsedUpTo(inUse, k)[Rank(inUse, c)] == c
  {
    if c < k - 1 {
      RankFinds(inUse, c, k - 1);
    }
  }

  /** The encoder's map: unseqToSeq holds the rank of every used byte. */
  method MakeMapsEncode(inUse: array<bool>) returns (nInUse: nat, unseqToSeq: array<int>)
    requires inUse.Length == 256
    ensures fresh(unseqToSeq) && unseqToSeq.Length == 256 && nInUse == |Used(inUse[..])|
    ensures forall c :: 0 <= c < 256 && inUse[c] ==> unseqToSeq[c] == Rank(inUse[..], c)
  {
    unseqToSeq := new int[256];
    nInUse := 0;
    var i := 0;
    while i < 256
      invariant 0 <= i <= 256 && nInUse == |UsedUpTo(inUse[..], i)|
      invariant forall c :: 0 <= c < i && inUse[c] ==> unseqToSeq[c] == Rank(inUse[..], c)
    {
      if inUse[i] {
        unseqToSeq[i] := nInUse;
        nInUse := nInUse + 1;
      }
      i := i + 1;
    }
  }

  /** The decoder's map: seqToUnseq lists the used bytes. */
  method MakeMapsDecode(inUse: array<bool>) returns (nInUse: nat, seqToUnseq: array<int>)
    requires inUse.Length == 256
    ensures fresh(seqToUnseq) && seqToUnseq.Length == 256 && nInUse <= 256
    ensures seqToUnseq[..nInUse] == Used(inUse[..])
  {
    seqToUnseq := new int[256];
    nInUse := 0;
    var i := 0;
    while i < 256
      invariant 0 <= nInUse <= i <= 256 && seqToUnseq[..nInUse] == UsedUpTo(inUse[..], i)
    {
      if inUse[i] {
        seqToUnseq[nInUse] := i;
        nInUse := nInUse + 1;
      }
      i := i + 1;
    }
  }

  /** A byte string in ranks. */
  function Ranks(inUse: seq<bool>, s: seq<int>): (r: seq<int>)
    requires forall i :: 0 <= i < |s| ==> 0 <= s[i] < |inUse|
    ensures |r| == |s|
  {
    seq(|s|, i requires 0 <= i < |s| => Rank(inUse, s[i]))
  }

  /** Ranks looked up in the list of used bytes. */
  function Unranks(used: seq<int>, r: seq<int>): (s: seq<int>)
    requires forall i :: 0 <= i < |r| ==> 0 <= r[i] < |used|
    ensures |s| == |r|
  {
    seq(|r|, i requires 0 <= i < |r| => used[r[i]])
  }

  /** The two maps are inverse on strings of used bytes. */
  lemma RanksRoundTrip(inUse: seq<bool>, s: seq<int>)
    requires forall i :: 0 <= i < |s| ==> 0 <= s[i] < |inUse| && inUse[s[i]]
    ensures forall i :: 0 <= i < |s| ==> 0 <= Ranks(inUse, s)[i] < |Used(inUse)|
    ensures Unranks(Used(inUse), Ranks(inUse, s)) == s
  {
    forall i | 0 <= i < |s|
      ensures 0 <= Ranks(inUse, s)[i] < |Used(inUse)| && Used(inUse)[Ranks(inUse, s)[i]] == s[i]
    {
      RankFinds(inUse, s[i], |inUse|);
    }
  }
}
