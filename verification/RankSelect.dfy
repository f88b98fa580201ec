/** Counting and numbering the marked positions of a table. */
module RankSelect {
  /** How many of the first `n` positions are marked. */
  function Rank(t: seq<bool>, n: nat): (r: nat)
    requires n <= |t|
    ensures r <= n
  {
    if n == 0 then 0 else Rank(t, n - 1) + if t[n - 1] then 1 else 0
  }

  function Count(t: seq<bool>): nat { Rank(t, |t|) }

  lemma {:induction false} RankMonotone(t: seq<bool>, a: nat, b: nat)
    requires a <= b <= |t|
    ensures Rank(t, a) <= Rank(t, b)
    ensures Rank(t, a) == Rank(t, b) ==> forall i :: a <= i < b ==> !t[i]
    ensures a < b && t[a] ==> Rank(t, a) < Rank(t, b)
    decreases b
  {
    if a < b {
      RankMonotone(t, a, b - 1);
    }
  }

  /** The marked position with `k` marked positions before it. */
  function Select(t: seq<bool>, k: nat): (n: nat)
    requires k < Count(t)
    ensures n < |t| && t[n] && Rank(t, n) == k
  {
    SelectBelow(t, |t|, k)
  }

  function SelectBelow(t: seq<bool>, bound: nat, k: nat): (n: nat)
    requires bound <= |t| && k < Rank(t, bound)
    ensures n < bound && t[n] && Rank(t, n) == k
    decreases bound
  {
    if t[bound - 1] && Rank(t, bound - 1) == k then bound - 1 else SelectBelow(t, bound - 1, k)
  }

  /** Rank and select are inverse to each other. */
  lemma SelectOfRank(t: seq<bool>, n: nat)
    requires n < |t| && t[n]
    ensures Rank(t, n) < Count(t) && Select(t, Rank(t, n)) == n
  {
    RankMonotone(t, n, |t|);
    var m := Select(t, Rank(t, n));
    if m < n {
      RankMonotone(t, m, n);
    } else if n < m {
      RankMonotone(t, n, m);
    }
  }

  /** One step forward or back on a circle of `m` places. */
  function Turn(k: nat, m: nat, forward: bool): (r: nat)
    requires k < m
    ensures r < m
  {
    if forward then (if k + 1 == m then 0 else k + 1)
    else if k == 0 then m - 1
    else k - 1
  }

  lemma TurnIsModular(k: nat, m: nat, forward: bool)
    requires k < m
    ensures Turn(k, m, forward) == (k + if forward then 1 else m - 1) % m
  {
  }
}
