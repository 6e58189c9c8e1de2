/** The cyclic rotations of a block, compared by their first h characters. */
module Rotations {

  function Next(n: nat, i: nat): (r: nat)
    requires i < n
    ensures r < n
  {
    if i + 1 == n then 0 else i + 1
  }

  function Prev(n: nat, i: nat): (r: nat)
    requires i < n
    ensures r < n && Next(n, r) == i
  {
    if i == 0 then n - 1 else i - 1
  }

  /** The position h characters further round a block of n. */
  function Adv(n: nat, i: nat, h: nat): (r: nat)
    requires i < n
    ensures r < n
    decreases h
  {
    if h == 0 then i else Adv(n, Next(n, i), h - 1)
  }

  lemma {:induction false} AdvSum(n: nat, i: nat, h: nat)
    requires i < n && h <= n
    ensures Adv(n, i, h) == if i + h < n then i + h else i + h - n
    decreases h
  {
    if h == 0 {
    } else {
      AdvSum(n, Next(n, i), h - 1);
    }
  }

  /** The rotation at i is smaller than the one at j within their first h characters. */
  ghost predicate Lt(b: seq<int>, i: nat, j: nat, h: nat)
    requires i < |b| && j < |b|
    decreases h
  {
    h > 0 && (b[i] < b[j] || (b[i] == b[j] && Lt(b, Next(|b|, i), Next(|b|, j), h - 1)))
  }

  /** The rotations at i and j share their first h characters. */
  ghost predicate Eq(b: seq<int>, i: nat, j: nat, h: nat)
    requires i < |b| && j < |b|
    decreases h
  {
    h == 0 || (b[i] == b[j] && Eq(b, Next(|b|, i), Next(|b|, j), h - 1))
  }

  /** Exactly one of smaller, equal, greater holds at every depth. */
  lemma {:induction false} Trichotomy(b: seq<int>, i: nat, j: nat, h: nat)
    requires i < |b| && j < |b|
    ensures Lt(b, i, j, h) || Eq(b, i, j, h) || Lt(b, j, i, h)
    ensures Eq(b, i, j, h) ==> !Lt(b, i, j, h) && !Lt(b, j, i, h)
    ensures !(Lt(b, i, j, h) && Lt(b, j, i, h))
    ensures Eq(b, i, j, h) == Eq(b, j, i, h)
    decreases h
  {
    if h > 0 {
      Trichotomy(b, Next(|b|, i), Next(|b|, j), h - 1);
    }
  }

  lemma {:induction false} EqRefl(b: seq<int>, i: nat, h: nat)
    requires i < |b|
    ensures Eq(b, i, i, h)
    decreases h
  {
    if h > 0 {
      EqRefl(b, Next(|b|, i), h - 1);
    }
  }

  /** "Smaller or equal" composes, and is strict when either half is. */
  lemma {:induction false} Transitive(b: seq<int>, i: nat, j: nat, k: nat, h: nat)
    requires i < |b| && j < |b| && k < |b|
    ensures Lt(b, i, j, h) && Lt(b, j, k, h) ==> Lt(b, i, k, h)
    ensures Lt(b, i, j, h) && Eq(b, j, k, h) ==> Lt(b, i, k, h)
    ensures Eq(b, i, j, h) && Lt(b, j, k, h) ==> Lt(b, i, k, h)
    ensures Eq(b, i, j, h) && Eq(b, j, k, h) ==> Eq(b, i, k, h)
    decreases h
  {
    if h > 0 {
      Transitive(b, Next(|b|, i), Next(|b|, j), Next(|b|, k), h - 1);
    }
  }

  /** Comparing h + g characters is comparing h, then g more from there. */
  lemma {:induction false} Split(b: seq<int>, i: nat, j: nat, h: nat, g: nat)
    requires i < |b| && j < |b|
    ensures Eq(b, i, j, h + g) <==>
              Eq(b, i, j, h) && Eq(b, Adv(|b|, i, h), Adv(|b|, j, h), g)
    ensures Lt(b, i, j, h + g) <==>
              Lt(b, i, j, h) || (Eq(b, i, j, h) && Lt(b, Adv(|b|, i, h), Adv(|b|, j, h), g))
    decreases h
  {
    if h == 0 {
    } else {
      Split(b, Next(|b|, i), Next(|b|, j), h - 1, g);
      assert (h - 1) + g == (h + g) - 1;
    }
  }

  /** Equal over one whole turn means equal one step further round, over a whole turn. */
  lemma EqStep(b: seq<int>, i: nat, j: nat)
    requires i < |b| && j < |b|
    requires Eq(b, i, j, |b|)
    ensures b[i] == b[j]
    ensures Eq(b, Next(|b|, i), Next(|b|, j), |b|)
  {
    var n := |b|;
    Split(b, i, j, n, 1);
    AdvSum(n, i, n);
    AdvSum(n, j, n);
    assert Adv(n, i, n) == i && Adv(n, j, n) == j;
    assert Eq(b, Next(n, i), Next(n, j), 0);
    assert Eq(b, i, j, 1);
    assert Eq(b, i, j, n + 1);
  }

  /** Equal over one whole turn means equal for ever. */
  lemma {:induction false} EqForever(b: seq<int>, i: nat, j: nat, h: nat)
    requires i < |b| && j < |b|
    requires Eq(b, i, j, |b|)
    ensures Eq(b, i, j, h)
    decreases h
  {
    if h > 0 {
      EqStep(b, i, j);
      EqForever(b, Next(|b|, i), Next(|b|, j), h - 1);
    }
  }

  /** Beyond one whole turn further characters decide nothing. */
  lemma DeepOrder(b: seq<int>, i: nat, j: nat, h: nat)
    requires i < |b| && j < |b|
    requires h >= |b|
    ensures Lt(b, i, j, h) <==> Lt(b, i, j, |b|)
    ensures Eq(b, i, j, h) <==> Eq(b, i, j, |b|)
  {
    var n := |b|;
    assert n + (h - n) == h;
    Split(b, i, j, n, h - n);
    if Eq(b, i, j, n) {
      EqForever(b, i, j, h);
      Trichotomy(b, i, j, h);
      Trichotomy(b, i, j, n);
    }
  }
}
