/** The channel manager's list: an occupancy bitmap with one extra row at the end for a new channel. */
module ChannelList {
  import opened Bytes
  import opened Bits
  import opened RankSelect
  import opened NorFlash
  import opened ChannelStore

  const MAX_CHANNEL_NUM: nat := 999
  const CHANNELS: nat := MAX_CHANNEL_NUM + 1
  const OCCUPIED_BYTES: nat := 125

  function Bit(occupied: seq<byte>, n: nat): bool
    requires |occupied| == OCCUPIED_BYTES && n < CHANNELS
  {
    TestBit(occupied[n / 8], n % 8)
  }

  /** The bitmap read as a table. */
  function Table(occupied: seq<byte>): (t: seq<bool>)
    requires |occupied| == OCCUPIED_BYTES
    ensures |t| == CHANNELS && forall n :: 0 <= n < CHANNELS ==> t[n] == Bit(occupied, n)
  {
    seq(CHANNELS, n requires 0 <= n < CHANNELS => Bit(occupied, n))
  }

  function CountOnes(b: nat): nat {
    if b == 0 then 0 else b % 2 + CountOnes(b / 2)
  }

  /** `count_ones` summed over the first `k` bytes. */
  function PopulationUpTo(occupied: seq<byte>, k: nat): nat
    requires k <= |occupied|
  {
    if k == 0 then 0 else PopulationUpTo(occupied, k - 1) + CountOnes(occupied[k - 1])
  }

  /** The first marked position from `n` on. */
  function FindUp(t: seq<bool>, n: nat): (r: Option<nat>)
    requires n <= |t|
    decreases |t| - n
  {
    if n == |t| then None else if t[n] then Some(n) else FindUp(t, n + 1)
  }

  /** The last marked position below `n`. */
  function FindDown(t: seq<bool>, n: nat): (r: Option<nat>)
    requires n <= |t|
    decreases n
  {
    if n == 0 then None else if t[n - 1] then Some(n - 1) else FindDown(t, n - 1)
  }

  /** The `index`-th marked position from `n` on. */
  function Nth(t: seq<bool>, n: nat, index: nat): Option<nat>
    requires n <= |t|
    decreases |t| - n
  {
    if n == |t| then None
    else if !t[n] then Nth(t, n + 1, index)
    else if index == 0 then Some(n)
    else Nth(t, n + 1, index - 1)
  }

  datatype ChanList = ChanList(occupied: seq<byte>, selected: Option<nat>) {

    predicate Valid() {
      && |occupied| == OCCUPIED_BYTES
      && (selected.Some? ==> selected.value < CHANNELS && Bit(occupied, selected.value))
    }

    function Count(): nat
      requires Valid()
    {
      PopulationUpTo(occupied, OCCUPIED_BYTES)
    }

    function Step(down: bool): (r: Option<nat>)
      requires Valid()
    {
      var t := Table(occupied);
      match selected
      case Some(num) => if down then FindUp(t, num + 1) else FindDown(t, num)
      case None => if down then FindUp(t, 0) else FindDown(t, CHANNELS)
    }

    function SelectedIndex(): nat
      requires Valid()
    {
      match selected
      case Some(num) => Rank(Table(occupied), num)
      case None => Count()
    }

    function ChannelAt(index: nat): Option<nat>
      requires Valid()
    {
      if index >= Count() then None else Nth(Table(occupied), 0, index)
    }
  }

  // ---- the population count ---------------------------------------------------

  lemma {:induction false} RankOverBits(t: seq<bool>, base: nat, b: nat, n: nat)
    requires base + n <= |t| && b < Pow2(n)
    requires forall i :: 0 <= i < n ==> t[base + i] == TestBit(b, i)
    ensures Rank(t, base + n) == Rank(t, base) + CountOnes(b)
    decreases n
  {
    if n != 0 {
      assert TestBit(b, 0) == t[base + 0];
      forall i | 0 <= i < n - 1
        ensures t[base + 1 + i] == TestBit(b / 2, i)
      {
        assert TestBit(b, i + 1) == t[base + (i + 1)];
      }
      RankOverBits(t, base + 1, b / 2, n - 1);
    }
  }

  lemma BitOfByte(occupied: seq<byte>, j: nat, i: nat)
    requires |occupied| == OCCUPIED_BYTES && j < OCCUPIED_BYTES && i < 8
    ensures Table(occupied)[8 * j + i] == TestBit(occupied[j], i)
  {
  }

  lemma RankOverByte(occupied: seq<byte>, t: seq<bool>, j: nat)
    requires |occupied| == OCCUPIED_BYTES && j < OCCUPIED_BYTES && t == Table(occupied)
    ensures Rank(t, 8 * j + 8) == Rank(t, 8 * j) + CountOnes(occupied[j])
  {
    forall i | 0 <= i < 8
      ensures t[8 * j + i] == TestBit(occupied[j], i)
    {
      BitOfByte(occupied, j, i);
    }
    Pow2Values();
    RankOverBits(t, 8 * j, occupied[j], 8);
  }

  lemma {:induction false} PopulationIsRank(occupied: seq<byte>, k: nat)
    requires |occupied| == OCCUPIED_BYTES && k <= OCCUPIED_BYTES
    ensures PopulationUpTo(occupied, k) == Rank(Table(occupied), 8 * k)
  {
    if k != 0 {
      PopulationIsRank(occupied, k - 1);
      RankOverByte(occupied, Table(occupied), k - 1);
    }
  }

  // ---- rows --------------------------------------------------------------------

  lemma {:induction false} NthIsSelect(t: seq<bool>, n: nat, index: nat)
    requires n <= |t|
    ensures Nth(t, n, index) == if Rank(t, n) + index < RankSelect.Count(t) then Some(Select(t, Rank(t, n) + index)) else None
    decreases |t| - n
  {
    RankMonotone(t, n, |t|);
    if n < |t| {
      if t[n] && index == 0 {
        SelectOfRank(t, n);
      } else {
        NthIsSelect(t, n + 1, if t[n] then index - 1 else index);
      }
    }
  }

  lemma {:induction false} FindUpIsSelect(t: seq<bool>, n: nat)
    requires n <= |t|
    ensures FindUp(t, n) == if Rank(t, n) < RankSelect.Count(t) then Some(Select(t, Rank(t, n))) else None
    decreases |t| - n
  {
    RankMonotone(t, n, |t|);
    if n < |t| {
      if t[n] {
        SelectOfRank(t, n);
      } else {
        FindUpIsSelect(t, n + 1);
      }
    }
  }

  lemma {:induction false} FindDownIsSelect(t: seq<bool>, n: nat)
    requires n <= |t|
    ensures Rank(t, n) <= RankSelect.Count(t)
    ensures FindDown(t, n) == if Rank(t, n) > 0 then Some(Select(t, Rank(t, n) - 1)) else None
    decreases n
  {
    RankMonotone(t, n, |t|);
    if n > 0 {
      if t[n - 1] {
        SelectOfRank(t, n - 1);
      } else {
        FindDownIsSelect(t, n - 1);
      }
    }
  }

  /** The displayed total is the number of occupied channels. */
  lemma CountIsExact(list: ChanList)
    requires list.Valid()
    ensures list.Count() == RankSelect.Count(Table(list.occupied))
  {
    PopulationIsRank(list.occupied, OCCUPIED_BYTES);
  }

  /** Row and channel determine each other, in both directions. */
  lemma ChannelAtIsExact(list: ChanList, index: nat, num: nat)
    requires list.Valid() && num < CHANNELS
    ensures list.ChannelAt(index) == Some(num)
       <==> Bit(list.occupied, num) && ChanList(list.occupied, Some(num)).SelectedIndex() == index
    ensures list.ChannelAt(index) == None <==> index >= list.Count()
  {
    var t := Table(list.occupied);
    CountIsExact(list);
    NthIsSelect(t, 0, index);
    if t[num] {
      SelectOfRank(t, num);
    }
  }

  /** A key press moves the selected row by exactly one; the new-channel row closes the circle. */
  lemma StepMovesOneRow(list: ChanList, down: bool)
    requires list.Valid()
    ensures var next := list.(selected := list.Step(down));
            && next.Valid() && next.Count() == list.Count()
            && list.SelectedIndex() <= list.Count()
            && next.SelectedIndex() == (list.SelectedIndex() + if down then 1 else list.Count()) % (list.Count() + 1)
  {
    SelectedRowTurns(list, down);
    TurnIsModular(list.SelectedIndex(), list.Count() + 1, down);
  }

  lemma SelectedRowTurns(list: ChanList, down: bool)
    requires list.Valid()
    ensures var next := list.(selected := list.Step(down));
            && next.Valid() && next.Count() == list.Count()
            && list.SelectedIndex() <= list.Count()
            && next.SelectedIndex() == Turn(list.SelectedIndex(), list.Count() + 1, down)
  {
    var t := Table(list.occupied);
    CountIsExact(list);
    match list.selected {
      case Some(num) =>
        SelectOfRank(t, num);
        FindUpIsSelect(t, num + 1);
        FindDownIsSelect(t, num);
      case None =>
        FindUpIsSelect(t, 0);
        FindDownIsSelect(t, CHANNELS);
    }
  }

  // ---- building the bitmap --------------------------------------------------------

  /** The bitmap of the first `n` channels: bit for bit whether each is occupied. */
  ghost predicate BitmapOf(occupied: seq<byte>, mem: seq<byte>, n: nat)
    requires |occupied| == OCCUPIED_BYTES && |mem| == CHIP_SIZE && n <= CHANNELS
  {
    && (forall c :: 0 <= c < CHANNELS ==> (Bit(occupied, c) <==> c < n && !Blank(mem, c)))
    && (forall j :: 0 <= j < OCCUPIED_BYTES && n <= 8 * j ==> occupied[j] == 0)
    && (n % 8 != 0 ==> occupied[n / 8] < Pow2(n % 8))
  }

  /** The bitmap with the bit of channel `n` set, as adding its weight does. */
  function WithBit(occupied: seq<byte>, n: nat): seq<byte>
    requires |occupied| == OCCUPIED_BYTES && n < CHANNELS && occupied[n / 8] + Pow2(n % 8) < 0x100
  {
    occupied[n / 8 := occupied[n / 8] + Pow2(n % 8)]
  }

  lemma EmptyChannelPassed(occupied: seq<byte>, mem: seq<byte>, n: nat)
    requires |occupied| == OCCUPIED_BYTES && |mem| == CHIP_SIZE && n < CHANNELS && BitmapOf(occupied, mem, n)
    requires Blank(mem, n)
    ensures BitmapOf(occupied, mem, n + 1)
  {
    ByteBelow(occupied, mem, n);
  }

  lemma ChannelMarked(occupied: seq<byte>, mem: seq<byte>, n: nat)
    requires |occupied| == OCCUPIED_BYTES && |mem| == CHIP_SIZE && n < CHANNELS && BitmapOf(occupied, mem, n)
    requires !Blank(mem, n)
    ensures occupied[n / 8] + Pow2(n % 8) < 0x100
    ensures BitmapOf(WithBit(occupied, n), mem, n + 1)
  {
    ByteBelow(occupied, mem, n);
    var more := WithBit(occupied, n);
    forall c | 0 <= c < CHANNELS
      ensures Bit(more, c) <==> c < n + 1 && !Blank(mem, c)
    {
      BitAfterMark(occupied, n, c);
    }
  }

  lemma BitAfterMark(occupied: seq<byte>, n: nat, c: nat)
    requires |occupied| == OCCUPIED_BYTES && n < CHANNELS && c < CHANNELS
    requires occupied[n / 8] < Pow2(n % 8) && occupied[n / 8] + Pow2(n % 8) < 0x100
    ensures Bit(WithBit(occupied, n), c) <==> c == n || Bit(occupied, c)
  {
    if c / 8 == n / 8 {
      SetBit(occupied[n / 8], n % 8, c % 8);
    }
  }

  lemma ByteBelow(occupied: seq<byte>, mem: seq<byte>, n: nat)
    requires |occupied| == OCCUPIED_BYTES && |mem| == CHIP_SIZE && n < CHANNELS && BitmapOf(occupied, mem, n)
    ensures occupied[n / 8] < Pow2(n % 8) && 2 * Pow2(n % 8) == Pow2(n % 8 + 1) <= 0x100
    ensures n % 8 == 7 ==> (n + 1) % 8 == 0
    ensures n % 8 != 7 ==> (n + 1) / 8 == n / 8 && (n + 1) % 8 == n % 8 + 1
  {
    Pow2Small(n % 8 + 1);
  }

  method Scan(storage: Storage) returns (list: ChanList)
    requires storage.Valid()
    ensures list.Valid()
    ensures forall c :: 0 <= c < CHANNELS ==> (Bit(list.occupied, c) <==> !Blank(storage.flash.mem, c))
    ensures list.selected == FindUp(Table(list.occupied), 0)
  {
    var occupied := new byte[OCCUPIED_BYTES](_ => 0);
    ghost var mem := storage.flash.mem;
    EmptyBitmap(occupied[..], mem);
    for n := 0 to CHANNELS
      invariant BitmapOf(occupied[..], mem, n)
    {
      var empty := storage.IsChannelEmpty(n);
      ghost var before := occupied[..];
      if empty {
        EmptyChannelPassed(before, mem, n);
        continue;
      }
      ChannelMarked(before, mem, n);
      occupied[n / 8] := occupied[n / 8] + Pow2(n % 8);
      assert occupied[..] == WithBit(before, n);
    }
    FindUpIsSelect(Table(occupied[..]), 0);
    list := ChanList(occupied[..], FindUp(Table(occupied[..]), 0));
  }

  lemma EmptyBitmap(occupied: seq<byte>, mem: seq<byte>)
    requires |occupied| == OCCUPIED_BYTES && |mem| == CHIP_SIZE && forall j :: 0 <= j < OCCUPIED_BYTES ==> occupied[j] == 0
    ensures BitmapOf(occupied, mem, 0)
  {
    forall c | 0 <= c < CHANNELS
      ensures !Bit(occupied, c)
    {
      assert occupied[c / 8] == 0;
      TestBitOfZero(c % 8);
    }
  }
}
