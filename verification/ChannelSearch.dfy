/** Stepping and scanning through the programmed channels. */
module ChannelSearch {
  import opened Bytes
  import opened Bits
  import opened RankSelect
  import opened NorFlash
  import opened FlashMap
  import opened ChannelStore
  import opened ChannelList

  /** The channels a search may stop at, as a table. */
  function Programmed(mem: seq<byte>): (t: seq<bool>)
    requires |mem| == CHIP_SIZE
    ensures |t| == CHANNELS
  {
    seq(CHANNELS, n requires 0 <= n < CHANNELS => !Blank(mem, n))
  }

  function InScanList(mem: seq<byte>): (t: seq<bool>)
    requires |mem| == CHIP_SIZE
    ensures |t| == CHANNELS
  {
    seq(CHANNELS, n requires 0 <= n < CHANNELS =>
      !Blank(mem, n) && Channel.FromBytes(SlotBytes(mem, n)).ScanAdd())
  }

  /** A channel takes part in a scan when its 32 bytes are not all ones and bit 2 of the sixteenth is set. */
  lemma ScanListBytes(mem: seq<byte>, n: nat)
    requires |mem| == CHIP_SIZE && n < 1000
    ensures InScanList(mem)[n] <==>
              (exists i :: 32 * n <= i < 32 * n + 32 && mem[i] != 0xFF) && mem[32 * n + 15] / 4 % 2 == 1
  {
    if i :| 32 * n <= i < 32 * n + 32 && mem[i] != 0xFF {
      assert SlotBytes(mem, n)[i - 32 * n] != 0xFF;
    }
    assert Channel.FromBytes(SlotBytes(mem, n)).flags == mem[32 * n + 15];
  }

  /** One step around the table, as the search loops take it. */
  function Neighbour(n: nat, up: bool, size: nat): (m: nat)
    requires n < size
    ensures m < size
  {
    if up then (if n >= size - 1 then 0 else n + 1)
    else if n == 0 then size - 1
    else n - 1
  }

  /** At most `k` steps from `n`, stopping at the first marked position. */
  function Walk(t: seq<bool>, n: nat, up: bool, k: nat): (r: Option<nat>)
    requires n < |t|
    ensures r.Some? ==> r.value < |t| && t[r.value]
    decreases k
  {
    if k == 0 then None
    else
      var m := Neighbour(n, up, |t|);
      if t[m] then Some(m) else Walk(t, m, up, k - 1)
  }

  function Next(t: seq<bool>, from: nat, up: bool): (r: Option<nat>)
    requires from < |t|
    ensures r.Some? ==> r.value < |t| && t[r.value]
  {
    Walk(t, from, up, |t|)
  }

  method FindProgrammedChannel(storage: Storage, from: Num, up: bool) returns (r: Option<Num>)
    requires storage.Valid() && from <= MAX_CHANNEL_NUM
    ensures r == Next(Programmed(storage.flash.mem), from, up)
  {
    ghost var t := Programmed(storage.flash.mem);
    var num := from;
    for i := 0 to CHANNELS
      invariant 0 <= num <= MAX_CHANNEL_NUM
      invariant Next(t, from, up) == Walk(t, num, up, CHANNELS - i)
    {
      num := if up then (if num >= MAX_CHANNEL_NUM then 0 else num + 1)
             else if num == 0 then MAX_CHANNEL_NUM
             else num - 1;
      var empty := storage.IsChannelEmpty(num);
      if !empty {
        return Some(num);
      }
    }
    r := None;
  }

  method FindNextScanChannel(storage: Storage, from: Num, forward: bool) returns (r: Option<Num>)
    requires storage.Valid() && from <= MAX_CHANNEL_NUM
    ensures r == Next(InScanList(storage.flash.mem), from, forward)
  {
    ghost var t := InScanList(storage.flash.mem);
    var n := from;
    for i := 0 to CHANNELS
      invariant 0 <= n <= MAX_CHANNEL_NUM
      invariant Next(t, from, forward) == Walk(t, n, forward, CHANNELS - i)
    {
      n := if forward then (if n >= MAX_CHANNEL_NUM then 0 else n + 1)
           else if n == 0 then MAX_CHANNEL_NUM
           else n - 1;
      var empty := storage.IsChannelEmpty(n);
      if empty {
        continue;
      }
      var channel := storage.ReadChannel(n);
      if channel.ScanAdd() {
        return Some(n);
      }
    }
    r := None;
  }

  // ---- the search in terms of rank -----------------------------------------------

  lemma {:induction false} WalkUp(t: seq<bool>, from: nat, n: nat, k: nat)
    requires from < |t| && n < |t|
    requires || (from <= n && k == |t| - (n - from) && Rank(t, n + 1) == Rank(t, from + 1))
             || (n <= from && k == from - n && Count(t) == Rank(t, from + 1) && Rank(t, n + 1) == 0)
    ensures Walk(t, n, true, k)
         == if Count(t) == 0 then None
            else if Rank(t, from + 1) < Count(t) then Some(Select(t, Rank(t, from + 1)))
            else Some(Select(t, 0))
    decreases k
  {
    RankMonotone(t, n + 1, |t|);
    RankMonotone(t, from + 1, |t|);
    if k != 0 {
      var m := Neighbour(n, true, |t|);
      if t[m] {
        SelectOfRank(t, m);
      } else {
        WalkUp(t, from, m, k - 1);
      }
    }
  }

  lemma {:induction false} WalkDown(t: seq<bool>, from: nat, n: nat, k: nat)
    requires from < |t| && n < |t|
    requires || (n <= from && k == |t| - (from - n) && Rank(t, n) == Rank(t, from))
             || (from <= n && k == n - from && Rank(t, from) == 0 && Rank(t, n) == Count(t))
    ensures Rank(t, from) <= Count(t)
    ensures Walk(t, n, false, k)
         == if Count(t) == 0 then None
            else if Rank(t, from) > 0 then Some(Select(t, Rank(t, from) - 1))
            else Some(Select(t, Count(t) - 1))
    decreases k
  {
    RankMonotone(t, from, |t|);
    RankMonotone(t, 0, n);
    if k != 0 {
      var m := Neighbour(n, false, |t|);
      if t[m] {
        SelectOfRank(t, m);
      } else {
        WalkDown(t, from, m, k - 1);
      }
    }
  }

  /** A search fails exactly when no channel at all is eligible. */
  lemma SearchFailsOnlyOnEmpty(t: seq<bool>, from: nat, up: bool)
    requires from < |t|
    ensures Next(t, from, up) == None <==> forall n :: 0 <= n < |t| ==> !t[n]
  {
    WalkUp(t, from, from, |t|);
    WalkDown(t, from, from, |t|);
    RankMonotone(t, 0, |t|);
    if n :| 0 <= n < |t| && t[n] {
      SelectOfRank(t, n);
    }
  }

  /** From an eligible channel a search moves by exactly one in the circular order of eligible channels. */
  lemma SearchMovesOne(t: seq<bool>, from: nat, up: bool)
    requires from < |t| && t[from]
    ensures Rank(t, from) < Count(t)
    ensures Next(t, from, up) == Some(Select(t, Turn(Rank(t, from), Count(t), up)))
  {
    SelectOfRank(t, from);
    if up {
      SearchUp(t, from);
    } else {
      SearchDown(t, from);
    }
  }

  lemma SearchUp(t: seq<bool>, from: nat)
    requires from < |t| && t[from] && Rank(t, from) < Count(t)
    ensures Next(t, from, true) == Some(Select(t, if Rank(t, from) + 1 == Count(t) then 0 else Rank(t, from) + 1))
  {
    var next := Rank(t, from + 1);
    assert next == Rank(t, from) + 1;
    WalkUp(t, from, from, |t|);
  }

  lemma SearchDown(t: seq<bool>, from: nat)
    requires from < |t| && t[from] && Rank(t, from) < Count(t)
    ensures Next(t, from, false) == Some(Select(t, if Rank(t, from) == 0 then Count(t) - 1 else Rank(t, from) - 1))
  {
    WalkDown(t, from, from, |t|);
  }

  /** The two directions undo each other on eligible channels. */
  lemma BackwardIsInverse(t: seq<bool>, from: nat, up: bool)
    requires from < |t| && t[from]
    ensures Next(t, from, up).Some? && Next(t, Next(t, from, up).value, !up) == Some(from)
  {
    SearchMovesOne(t, from, up);
    SelectOfRank(t, from);
    SearchMovesOne(t, Next(t, from, up).value, !up);
  }

  // ---- repeated hops ------------------------------------------------------------------

  /** `k` hops in a row, as scanning does while every squelch stays closed. */
  function Hops(t: seq<bool>, from: nat, up: bool, k: nat): (n: nat)
    requires from < |t| && t[from]
    ensures n < |t| && t[n]
    decreases k
  {
    if k == 0 then from
    else
      var n := Hops(t, from, up, k - 1);
      SearchMovesOne(t, n, up);
      Next(t, n, up).value
  }

  /** What `k` hops add to the rank, before it is taken round the circle. */
  function Moved(up: bool, k: nat): int { if up then k else -(k as int) }

  /** `k` hops advance the rank by `k` or set it back by `k`, modulo the number of eligible channels. */
  lemma {:induction false} HopsAdvanceRank(t: seq<bool>, from: nat, up: bool, k: nat)
    requires from < |t| && t[from]
    ensures Count(t) > 0 && Hops(t, from, up, k) == Select(t, (Rank(t, from) + Moved(up, k)) % Count(t))
    decreases k
  {
    SelectOfRank(t, from);
    var count := Count(t);
    if k == 0 {
      SmallMod(Rank(t, from), count);
    } else {
      HopsAdvanceRank(t, from, up, k - 1);
      SearchMovesOne(t, Hops(t, from, up, k - 1), up);
      OneStep(Rank(t, from) + Moved(up, k - 1), count, up);
    }
  }

  lemma OneStep(a: int, m: nat, up: bool)
    requires m > 0
    ensures (if up then a + 1 else a - 1) % m == Turn(a % m, m, up)
  {
    var q, r := a / m, a % m;
    assert a == m * q + r;
    if up {
      if r + 1 == m {
        assert a + 1 == m * (q + 1) + 0;
        QuotientRemainder(a + 1, m, q + 1, 0);
      } else {
        QuotientRemainder(a + 1, m, q, r + 1);
      }
    } else if r == 0 {
      assert a - 1 == m * (q - 1) + (m - 1);
      QuotientRemainder(a - 1, m, q - 1, m - 1);
    } else {
      QuotientRemainder(a - 1, m, q, r - 1);
    }
  }

  /** How many hops lead from one eligible channel to another. */
  function Distance(t: seq<bool>, from: nat, to: nat, up: bool): (k: nat)
    requires from < |t| && t[from] && to < |t| && t[to]
    ensures k < Count(t)
  {
    SelectOfRank(t, from);
    SelectOfRank(t, to);
    var (a, b) := if up then (Rank(t, from), Rank(t, to)) else (Rank(t, to), Rank(t, from));
    if b >= a then b - a else b + Count(t) - a
  }

  /**
   * In either direction, one round of as many hops as there are eligible channels visits every one of them exactly
   * once and ends where it began.
   */
  lemma RoundVisitsEachOnce(t: seq<bool>, from: nat, to: nat, up: bool, k: nat)
    requires from < |t| && t[from] && to < |t| && t[to]
    ensures Distance(t, from, to, up) < Count(t)
    ensures k < Count(t) ==> (Hops(t, from, up, k) == to <==> k == Distance(t, from, to, up))
    ensures Hops(t, from, up, Count(t)) == from
  {
    SelectOfRank(t, from);
    SelectOfRank(t, to);
    var count, a := Count(t), Rank(t, from);
    HopsAdvanceRank(t, from, up, k);
    HopsAdvanceRank(t, from, up, count);
    RankAfter(a, count, up, count);
    if k < count {
      RankAfter(a, count, up, k);
      SelectsOwnRank(t, (a + Moved(up, k)) % count, to);
    }
  }

  lemma SelectsOwnRank(t: seq<bool>, r: nat, n: nat)
    requires r < Count(t) && n < |t| && t[n]
    ensures Select(t, r) == n <==> r == Rank(t, n)
  {
    SelectOfRank(t, n);
  }

  lemma RankAfter(a: nat, m: nat, up: bool, k: nat)
    requires a < m && k <= m
    ensures (a + Moved(up, k)) % m ==
              if up then (if a + k < m then a + k else a + k - m) else if k <= a then a - k else a - k + m
  {
    if up {
      if a + k < m {
        QuotientRemainder(a + k, m, 0, a + k);
      } else {
        QuotientRemainder(a + k, m, 1, a + k - m);
      }
    } else if k <= a {
      QuotientRemainder(a - k, m, 0, a - k);
    } else {
      QuotientRemainder(a - k, m, -1, a - k + m);
    }
  }

  /** Hops back undo hops forth, however many. */
  lemma {:induction false} HopsBack(t: seq<bool>, from: nat, up: bool, k: nat)
    requires from < |t| && t[from]
    ensures Hops(t, Hops(t, from, up, k), !up, k) == from
    decreases k
  {
    if k != 0 {
      var n := Hops(t, from, up, k - 1);
      BackwardIsInverse(t, n, up);
      FirstHop(t, Next(t, n, up).value, !up, k - 1);
      HopsBack(t, from, up, k - 1);
    }
  }

  lemma {:induction false} FirstHop(t: seq<bool>, from: nat, up: bool, k: nat)
    requires from < |t| && t[from] && Next(t, from, up).Some?
    requires Next(t, from, up).value < |t| && t[Next(t, from, up).value]
    ensures Hops(t, from, up, k + 1) == Hops(t, Next(t, from, up).value, up, k)
    decreases k
  {
    if k != 0 {
      FirstHop(t, from, up, k - 1);
    }
  }
}
