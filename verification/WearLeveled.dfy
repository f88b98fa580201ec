/** Wear-leveled storage of one record: a sector of slots behind a bitmap of used ones. */
module WearLeveled {
  import opened Bytes
  import opened Bits
  import opened Crc
  import opened NorFlash

  const U32_MAX: nat := 0xFFFF_FFFF
  const MAX_SCAN_BYTES: nat := 32
  const CLEAR_MASK: seq<byte> := [0xFE, 0xFC, 0xF8, 0xF0, 0xE0, 0xC0, 0x80, 0x00]

  function TrailingZeros(b: byte): nat
    requires b != 0
  {
    if b % 2 == 1 then 0 else 1 + TrailingZeros(b / 2)
  }

  lemma ItemFits(total: nat, size: nat, index: nat)
    requires size > 0 && index < total / size
    ensures 0 <= index * size && (index + 1) * size == index * size + size <= total
  {
    var n := total / size;
    MulMonotone(size, index + 1, n);
    assert size * n + total % size == total;
  }

  lemma QuotientBounds(total: nat, size: nat, n: nat)
    requires size > 0
    ensures n <= total / size <==> n * size <= total
  {
    var q := total / size;
    assert total == size * q + total % size;
    if n <= q {
      MulMonotone(size, n, q);
    } else {
      MulMonotone(size, q + 1, n);
    }
  }

  lemma SectorsDisjoint(a: nat, b: nat)
    requires a % SECTOR_SIZE == 0 && b % SECTOR_SIZE == 0 && a != b
    ensures a + SECTOR_SIZE <= b || b + SECTOR_SIZE <= a
  {
  }

  lemma RecordSplits(s: seq<byte>, payload: seq<byte>, crc: u16)
    requires |s| == |payload| + 2
    ensures s == payload + [Lo(crc), Hi(crc)]
       <==> s[..|payload|] == payload && Join(s[|payload| + 1], s[|payload|]) == crc
  {
  }

  /** How many of some saved payloads differ from what was stored before them. */
  function Changes(stored: Option<seq<byte>>, payloads: seq<seq<byte>>): nat
    decreases |payloads|
  {
    if payloads == [] then 0
    else (if stored == Some(payloads[0]) then 0 else 1) + Changes(Some(payloads[0]), payloads[1..])
  }

  /** How many times `m` goes into `k`. */
  function Rounds(k: nat, m: nat): nat
    requires m > 0
    decreases k
  {
    if k < m then 0 else 1 + Rounds(k - m, m)
  }

  lemma {:induction false} RoundsIsQuotient(k: nat, m: nat)
    requires m > 0
    ensures Rounds(k, m) == k / m
    decreases k
  {
    if k < m {
      QuotientRemainder(k, m, 0, k);
    } else {
      RoundsIsQuotient(k - m, m);
      assert k - m == m * ((k - m) / m) + (k - m) % m;
      assert k == m * ((k - m) / m + 1) + (k - m) % m;
      QuotientRemainder(k, m, (k - m) / m + 1, (k - m) % m);
    }
  }

  /** How often a run of saves goes round `m` slots, beginning in the `n`th. */
  function Turns(n: nat, m: nat, stored: Option<seq<byte>>, payloads: seq<seq<byte>>): nat
    requires n < m
    decreases |payloads|
  {
    if payloads == [] then 0
    else if stored == Some(payloads[0]) then Turns(n, m, stored, payloads[1..])
    else if n + 1 < m then Turns(n + 1, m, Some(payloads[0]), payloads[1..])
    else 1 + Turns(0, m, Some(payloads[0]), payloads[1..])
  }

  lemma {:induction false} TurnsAreRounds(n: nat, m: nat, stored: Option<seq<byte>>, payloads: seq<seq<byte>>)
    requires n < m
    ensures Turns(n, m, stored, payloads) == Rounds(n + Changes(stored, payloads), m)
    decreases |payloads|
  {
    if payloads != [] {
      TurnsAreRounds(if stored == Some(payloads[0]) then n else if n + 1 < m then n + 1 else 0,
                     m, Some(payloads[0]), payloads[1..]);
    }
  }

  datatype Region = Region(baseAddr: nat, headerSize: nat, payloadLen: nat) {

    function SlotSize(): (n: nat)
      ensures n > 0
    {
      payloadLen + 2
    }

    function MaxSlots(): int
      requires headerSize <= SECTOR_SIZE
    {
      var bySpace := (SECTOR_SIZE - headerSize) / SlotSize();
      if bySpace < headerSize * 8 then bySpace else headerSize * 8
    }

    function ScanBytes(): int
      requires headerSize <= SECTOR_SIZE
    {
      (MaxSlots() + 7) / 8
    }

    function SlotAddr(index: nat): nat {
      baseAddr + headerSize + index * SlotSize()
    }

    /** A region the firmware could declare: one sector, room for a slot, a bitmap that fits its buffer. */
    predicate Valid() {
      && baseAddr % SECTOR_SIZE == 0 && baseAddr + SECTOR_SIZE <= CHIP_SIZE
      && headerSize <= SECTOR_SIZE && MaxSlots() > 0 && ScanBytes() <= MAX_SCAN_BYTES
    }

    lemma SlotInSector(index: nat)
      requires Valid() && index < MaxSlots()
      ensures baseAddr + headerSize <= SlotAddr(index)
      ensures SlotAddr(index) + SlotSize() <= baseAddr + SECTOR_SIZE
    {
      ItemFits(SECTOR_SIZE - headerSize, SlotSize(), index);
    }

    lemma BitmapInHeader(index: nat)
      requires Valid() && index < MaxSlots()
      ensures index / 8 < ScanBytes() <= headerSize
    {
    }

    /** The first set bit of the bitmap, lowest bit of the first byte first. */
    function FindFreeFrom(mem: seq<byte>, i: nat): nat
      requires Valid() && |mem| == CHIP_SIZE && i <= ScanBytes()
      decreases ScanBytes() - i
    {
      assert ScanBytes() <= headerSize;
      if i == ScanBytes() then U32_MAX
      else if mem[baseAddr + i] != 0 then i * 8 + TrailingZeros(mem[baseAddr + i])
      else FindFreeFrom(mem, i + 1)
    }

    method FindFreeSlot(flash: NorFlash) returns (index: nat)
      requires Valid() && flash.Valid()
      ensures index == FindFreeFrom(flash.mem, 0)
    {
      var scanLen := ScanBytes();
      assert scanLen <= headerSize;
      var bitmap := new byte[scanLen](_ => 0);
      flash.ReadBytes(baseAddr, bitmap);
      assert forall k :: 0 <= k < scanLen ==> bitmap[..][k] == flash.mem[baseAddr + k];
      for i := 0 to scanLen
        invariant FindFreeFrom(flash.mem, 0) == FindFreeFrom(flash.mem, i)
      {
        if bitmap[i] != 0 {
          return i * 8 + TrailingZeros(bitmap[i]);
        }
      }
      index := U32_MAX;
    }

    /** A payload as a slot stores it: followed by its checksum, low byte first. */
    function Record(payload: seq<byte>): (r: seq<byte>)
      requires |payload| == payloadLen
      ensures |r| == SlotSize()
    {
      payload + [Lo(Crc16(payload)), Hi(Crc16(payload))]
    }

    function Slot(mem: seq<byte>, index: nat): (s: seq<byte>)
      requires Valid() && |mem| == CHIP_SIZE && index < MaxSlots()
      ensures |s| == SlotSize()
    {
      SlotInSector(index);
      mem[SlotAddr(index)..SlotAddr(index) + SlotSize()]
    }

    function ReadSlotSpec(mem: seq<byte>, index: nat): Option<seq<byte>>
      requires Valid() && |mem| == CHIP_SIZE && index < MaxSlots()
    {
      var s := Slot(mem, index);
      if Join(s[payloadLen + 1], s[payloadLen]) == Crc16(s[..payloadLen]) then Some(s[..payloadLen]) else None
    }

    /** A slot yields a payload exactly when it holds that payload's record. */
    lemma ReadSlotIsExact(mem: seq<byte>, index: nat, payload: seq<byte>)
      requires Valid() && |mem| == CHIP_SIZE && index < MaxSlots() && |payload| == payloadLen
      ensures ReadSlotSpec(mem, index) == Some(payload) <==> Slot(mem, index) == Record(payload)
    {
      RecordSplits(Slot(mem, index), payload, Crc16(payload));
    }

    method ReadSlot(flash: NorFlash, index: nat) returns (r: Option<seq<byte>>)
      requires Valid() && flash.Valid() && index < MaxSlots()
      ensures r == ReadSlotSpec(flash.mem, index)
    {
      SlotInSector(index);
      var addr := SlotAddr(index);
      var buf, crcBuf := new byte[payloadLen](_ => 0), new byte[2](_ => 0);
      flash.ReadBytes(addr, buf);
      flash.ReadBytes(addr + payloadLen, crcBuf);
      ghost var s := Slot(flash.mem, index);
      assert s == flash.mem[addr..addr + SlotSize()];
      assert s[..payloadLen] == flash.mem[addr..addr + payloadLen];
      assert s[payloadLen] == flash.mem[addr + payloadLen] && s[payloadLen + 1] == flash.mem[addr + payloadLen + 1];
      assert crcBuf[..][0] == s[payloadLen] && crcBuf[..][1] == s[payloadLen + 1];
      var crc := Crc16Xmodem(buf[..]);
      r := if Join(crcBuf[1], crcBuf[0]) == crc then Some(buf[..]) else None;
    }

    function LoadSpec(mem: seq<byte>): Option<seq<byte>>
      requires Valid() && |mem| == CHIP_SIZE
    {
      var index := FindFreeFrom(mem, 0);
      if index >= MaxSlots() then None else ReadSlotSpec(mem, index)
    }

    method Load(flash: NorFlash) returns (r: Option<seq<byte>>)
      requires Valid() && flash.Valid()
      ensures r == LoadSpec(flash.mem)
    {
      var index := FindFreeSlot(flash);
      if index >= MaxSlots() {
        return None;
      }
      r := ReadSlot(flash, index);
    }

    // ---- saving ---------------------------------------------------------------

    function Wrote(mem: seq<byte>, index: nat, payload: seq<byte>): (m: seq<byte>)
      requires Valid() && |mem| == CHIP_SIZE && index < MaxSlots() && |payload| == payloadLen
      ensures |m| == CHIP_SIZE
    {
      SlotInSector(index);
      Programmed(mem, SlotAddr(index), Record(payload))
    }

    function MarkedUsed(mem: seq<byte>, index: nat): (m: seq<byte>)
      requires Valid() && |mem| == CHIP_SIZE && index < MaxSlots()
      ensures |m| == CHIP_SIZE
    {
      BitmapInHeader(index);
      Programmed(mem, baseAddr + index / 8, [CLEAR_MASK[index % 8]])
    }

    function SaveSpec(mem: seq<byte>, payload: seq<byte>): (m: seq<byte>)
      requires Valid() && |mem| == CHIP_SIZE && |payload| == payloadLen
      ensures |m| == CHIP_SIZE
    {
      var index := FindFreeFrom(mem, 0);
      if index < MaxSlots() && ReadSlotSpec(mem, index) == Some(payload) then mem
      else if index + 1 < MaxSlots() then Appended(mem, index, payload)
      else Restarted(mem, payload)
    }

    function Appended(mem: seq<byte>, index: nat, payload: seq<byte>): (m: seq<byte>)
      requires Valid() && |mem| == CHIP_SIZE && index + 1 < MaxSlots() && |payload| == payloadLen
      ensures |m| == CHIP_SIZE
    {
      MarkedUsed(Wrote(mem, index + 1, payload), index)
    }

    function Restarted(mem: seq<byte>, payload: seq<byte>): (m: seq<byte>)
      requires Valid() && |mem| == CHIP_SIZE && |payload| == payloadLen
      ensures |m| == CHIP_SIZE
    {
      Wrote(Erased(mem, Sector(baseAddr)), 0, payload)
    }

    /** The record is new and there is no room to append it. */
    predicate StartsOver(mem: seq<byte>, payload: seq<byte>)
      requires Valid() && |mem| == CHIP_SIZE
    {
      var index := FindFreeFrom(mem, 0);
      !(index < MaxSlots() && ReadSlotSpec(mem, index) == Some(payload)) && index + 1 >= MaxSlots()
    }

    /** With `n` slots marked, a save is one of three things. */
    lemma SaveCases(mem: seq<byte>, n: nat, payload: seq<byte>)
      requires Valid() && |mem| == CHIP_SIZE && |payload| == payloadLen && Marked(mem, n)
      ensures SaveSpec(mem, payload) == if LoadSpec(mem) == Some(payload) then mem
                                        else if n + 1 < MaxSlots() then Appended(mem, n, payload)
                                        else Restarted(mem, payload)
    {
      FindFreeMarked(mem, n, 0);
    }

    method WriteSlot(flash: NorFlash, index: nat, payload: seq<byte>)
      requires Valid() && flash.Valid() && index < MaxSlots() && |payload| == payloadLen
      modifies flash
      ensures flash.Valid() && flash.mem == Wrote(old(flash.mem), index, payload)
      ensures old(flash.history) <= flash.history && flash.erases == old(flash.erases)
      ensures ConfinedSince(flash.history, |old(flash.history)|, old(flash.mem),
                            SlotAddr(index), SlotAddr(index) + SlotSize())
    {
      SlotInSector(index);
      var addr := SlotAddr(index);
      flash.WriteBytes(addr, payload);
      var crc := Crc16Xmodem(payload);
      ProgrammedInParts(old(flash.mem), addr, payload, [Lo(crc), Hi(crc)]);
      flash.WriteBytes(addr + payloadLen, [Lo(crc), Hi(crc)]);
    }

    method Save(flash: NorFlash, payload: seq<byte>)
      requires Valid() && flash.Valid() && |payload| == payloadLen
      modifies flash
      ensures flash.Valid() && flash.mem == SaveSpec(old(flash.mem), payload)
      ensures flash.erases == old(flash.erases) + if StartsOver(old(flash.mem), payload) then 1 else 0
      ensures old(flash.history) <= flash.history
      ensures HasRoom(old(flash.mem)) ==>
                OldOrNew(flash.history, |old(flash.history)|, old(flash.mem), flash.mem)
      ensures Replaces(old(flash.mem), payload) ==>
                (OldOrNew(flash.history, |old(flash.history)|, old(flash.mem), flash.mem) <==> HasRoom(old(flash.mem)))
    {
      var index := FindFreeSlot(flash);
      var maxSlots := MaxSlots();
      if index < maxSlots {
        var stored := ReadSlot(flash, index);
        if stored == Some(payload) {
          return;
        }
      }
      var hasRoom := index + 1 <= U32_MAX && index + 1 < maxSlots;
      if hasRoom {
        AppendSlot(flash, index, payload);
      } else {
        RestartSector(flash, payload);
        if Replaces(old(flash.mem), payload) {
          RestartIsNotAtomic(old(flash.mem), payload, flash.history, |old(flash.history)|);
        }
      }
    }

    /** A save that has something to lose and to gain: one record for another, neither of them like erased flash. */
    ghost predicate Replaces(mem: seq<byte>, payload: seq<byte>)
      requires Valid() && |mem| == CHIP_SIZE && |payload| == payloadLen
    {
      && Marked(mem, FindFreeFrom(mem, 0))
      && LoadSpec(mem).Some? && LoadSpec(mem) != Some(payload)
      && !Blank(LoadSpec(mem).value) && !Blank(payload)
    }

    ghost predicate HasRoom(mem: seq<byte>)
      requires Valid() && |mem| == CHIP_SIZE
    {
      var n := FindFreeFrom(mem, 0);
      Marked(mem, n) && n + 1 < MaxSlots()
    }

    /** Whatever state power is lost in, one of the two records is loaded. */
    ghost predicate OldOrNew(history: seq<seq<byte>>, n: nat, before: seq<byte>, after: seq<byte>)
      requires Valid() && |before| == |after| == CHIP_SIZE
    {
      forall k :: n <= k < |history| ==>
                    |history[k]| == CHIP_SIZE && LoadSpec(history[k]) in {LoadSpec(before), LoadSpec(after)}
    }

    lemma AppendIsAtomic(before: seq<byte>, index: nat, history: seq<seq<byte>>, n: nat, after: seq<byte>)
      requires Valid() && |before| == |after| == CHIP_SIZE && Marked(before, index) && index + 1 < MaxSlots()
      requires history != [] && history[|history| - 1] == after
      requires ConfinedSince(history[..|history| - 1], n, before, SlotAddr(index + 1), SlotAddr(index + 1) + SlotSize())
      ensures OldOrNew(history, n, before, after)
    {
      forall k | n <= k < |history| - 1
        ensures |history[k]| == CHIP_SIZE && LoadSpec(history[k]) == LoadSpec(before)
      {
        assert history[..|history| - 1][k] == history[k];
        UnmarkedSlotInvisible(history[k], before, index);
      }
    }

    method AppendSlot(flash: NorFlash, index: nat, payload: seq<byte>)
      requires Valid() && flash.Valid() && index + 1 < MaxSlots() && |payload| == payloadLen
      modifies flash
      ensures flash.Valid() && flash.mem == Appended(old(flash.mem), index, payload)
      ensures old(flash.history) <= flash.history && flash.erases == old(flash.erases)
      ensures Marked(old(flash.mem), index) ==>
                OldOrNew(flash.history, |old(flash.history)|, old(flash.mem), flash.mem)
    {
      ghost var before := flash.mem;
      WriteSlot(flash, index + 1, payload);
      BitmapInHeader(index);
      ghost var h := flash.history;
      flash.WriteBytes(baseAddr + index / 8, [CLEAR_MASK[index % 8]]);
      assert flash.history[..|flash.history| - 1] == h;
      if Marked(before, index) {
        AppendIsAtomic(before, index, flash.history, |old(flash.history)|, flash.mem);
      }
    }

    method RestartSector(flash: NorFlash, payload: seq<byte>)
      requires Valid() && flash.Valid() && |payload| == payloadLen
      modifies flash
      ensures flash.Valid() && flash.mem == Restarted(old(flash.mem), payload)
      ensures old(flash.history) < flash.history && flash.erases == old(flash.erases) + 1
      ensures flash.history[|old(flash.history)|] == Erased(old(flash.mem), Sector(baseAddr))
    {
      flash.EraseSector(baseAddr);
      ghost var h := flash.history;
      WriteSlot(flash, 0, payload);
      assert flash.history[..|h|] == h;
    }

    // ---- the marker bitmap -------------------------------------------------------

    ghost predicate Marked(mem: seq<byte>, n: nat)
      requires Valid() && |mem| == CHIP_SIZE
    {
      n < MaxSlots() && BitmapShows(mem, baseAddr, ScanBytes(), n)
    }

    lemma {:induction false} FindFreeMarked(mem: seq<byte>, n: nat, i: nat)
      requires Valid() && |mem| == CHIP_SIZE && Marked(mem, n) && i <= n / 8
      ensures FindFreeFrom(mem, i) == n
      decreases n / 8 - i
    {
      BitmapInHeader(n);
      assert mem[baseAddr + i] == Marker(UsedBits(n, baseAddr + i - baseAddr));
      Pow2Values();
      if i < n / 8 {
        FindFreeMarked(mem, n, i + 1);
      } else {
        MarkerZeros(8, n - 8 * i, mem[baseAddr + i]);
      }
    }

    lemma MarkingAdvances(mem: seq<byte>, n: nat)
      requires Valid() && |mem| == CHIP_SIZE && Marked(mem, n) && n + 1 < MaxSlots()
      ensures Marked(MarkedUsed(mem, n), n + 1)
      ensures SameOutside(MarkedUsed(mem, n), mem, baseAddr, baseAddr + headerSize)
    {
      BitmapInHeader(n);
      MarkOne(mem, baseAddr, ScanBytes(), n);
    }

    lemma ErasedBitmap(mem: seq<byte>)
      requires Valid() && |mem| == CHIP_SIZE
      ensures Marked(Erased(mem, Sector(baseAddr)), 0)
    {
    }

    // ---- what a save leaves behind ---------------------------------------------------

    lemma SlotsApart(i: nat, j: nat)
      requires i < j
      ensures SlotAddr(i) + SlotSize() <= SlotAddr(j)
    {
      MulMonotone(SlotSize(), i + 1, j);
    }

    lemma SameSlot(m: seq<byte>, n: seq<byte>, lo: nat, hi: nat, index: nat)
      requires Valid() && |m| == |n| == CHIP_SIZE && index < MaxSlots()
      requires SameOutside(m, n, lo, hi) && (hi <= SlotAddr(index) || SlotAddr(index) + SlotSize() <= lo)
      ensures Slot(m, index) == Slot(n, index)
    {
      SlotInSector(index);
    }

    lemma SlotAfterWrite(mem: seq<byte>, index: nat, payload: seq<byte>)
      requires Valid() && |mem| == CHIP_SIZE && index < MaxSlots() && |payload| == payloadLen
      ensures Slot(Wrote(mem, index, payload), index) == Record(payload)
         <==> Absorbs(Slot(mem, index), Record(payload))
      ensures SameOutside(Wrote(mem, index, payload), mem, SlotAddr(index), SlotAddr(index) + SlotSize())
    {
      SlotInSector(index);
      var before, after, r := Slot(mem, index), Slot(Wrote(mem, index, payload), index), Record(payload);
      forall k | 0 <= k < |r|
        ensures after[k] == And(before[k], r[k])
      {
        assert Wrote(mem, index, payload)[SlotAddr(index) + k] == And(mem[SlotAddr(index) + k], r[k]);
      }
    }

    lemma BitmapUntouchedBySlot(mem: seq<byte>, n: nat, index: nat, payload: seq<byte>)
      requires Valid() && |mem| == CHIP_SIZE && index < MaxSlots() && |payload| == payloadLen && Marked(mem, n)
      ensures Marked(Wrote(mem, index, payload), n)
    {
      BitmapInHeader(0);
      SlotInSector(index);
      SlotAfterWrite(mem, index, payload);
      SameBitmap(Wrote(mem, index, payload), mem, baseAddr, ScanBytes(), n, SlotAddr(index), SlotAddr(index) + SlotSize());
    }

    /** The branch of `SaveSpec` that appends a slot: what is read afterwards. */
    lemma AppendThenLoad(mem: seq<byte>, n: nat, payload: seq<byte>)
      requires Valid() && |mem| == CHIP_SIZE && |payload| == payloadLen && Marked(mem, n) && n + 1 < MaxSlots()
      ensures var m := Appended(mem, n, payload);
              && Marked(m, n + 1)
              && (LoadSpec(m) == Some(payload) <==> Absorbs(Slot(mem, n + 1), Record(payload)))
    {
      var w := Wrote(mem, n + 1, payload);
      BitmapUntouchedBySlot(mem, n, n + 1, payload);
      MarkingAdvances(w, n);
      var m := MarkedUsed(w, n);
      FindFreeMarked(m, n + 1, 0);
      SlotInSector(n + 1);
      SameSlot(m, w, baseAddr, baseAddr + headerSize, n + 1);
      SlotAfterWrite(mem, n + 1, payload);
      ReadSlotIsExact(m, n + 1, payload);
    }

    /** The branch that starts the sector over. */
    lemma RestartThenLoad(mem: seq<byte>, payload: seq<byte>)
      requires Valid() && |mem| == CHIP_SIZE && |payload| == payloadLen
      ensures var m := Restarted(mem, payload);
              Marked(m, 0) && LoadSpec(m) == Some(payload)
    {
      var e := Erased(mem, Sector(baseAddr));
      ErasedBitmap(mem);
      BitmapUntouchedBySlot(e, 0, 0, payload);
      FindFreeMarked(Wrote(e, 0, payload), 0, 0);
      SlotInSector(0);
      assert Slot(e, 0) == Repeat(0xFF, SlotSize());
      ErasedAbsorbs(Record(payload));
      SlotAfterWrite(e, 0, payload);
      ReadSlotIsExact(Wrote(e, 0, payload), 0, payload);
    }

    /**
     * A save is read back exactly when the payload was already stored, or the sector is started
     * over, or every bit the record needs is still set in the slot it goes to.
     */
    lemma SaveThenLoad(mem: seq<byte>, n: nat, payload: seq<byte>)
      requires Valid() && |mem| == CHIP_SIZE && |payload| == payloadLen && Marked(mem, n)
      ensures LoadSpec(SaveSpec(mem, payload)) == Some(payload)
         <==> (|| LoadSpec(mem) == Some(payload)
               || n + 1 >= MaxSlots()
               || Absorbs(Slot(mem, n + 1), Record(payload)))
    {
      SaveCases(mem, n, payload);
      if LoadSpec(mem) != Some(payload) {
        if n + 1 < MaxSlots() {
          AppendThenLoad(mem, n, payload);
        } else {
          RestartThenLoad(mem, payload);
        }
      }
    }

    // ---- runs of saves ------------------------------------------------------------------

    /** The state every completed save leaves: nothing behind the current slot has been written. */
    ghost predicate Ready(mem: seq<byte>, n: nat)
      requires Valid() && |mem| == CHIP_SIZE
    {
      Marked(mem, n) && forall a :: SlotAddr(n + 1) <= a < baseAddr + SECTOR_SIZE ==> mem[a] == 0xFF
    }

    lemma FormattedIsReady(mem: seq<byte>)
      requires Valid() && |mem| == CHIP_SIZE
      ensures Ready(Erased(mem, Sector(baseAddr)), 0)
    {
    }

    function NextIndex(mem: seq<byte>, n: nat, payload: seq<byte>): nat
      requires Valid() && |mem| == CHIP_SIZE
    {
      if LoadSpec(mem) == Some(payload) then n else if n + 1 < MaxSlots() then n + 1 else 0
    }

    lemma ReadyAbsorbs(mem: seq<byte>, n: nat, record: seq<byte>)
      requires Valid() && |mem| == CHIP_SIZE && Ready(mem, n) && n + 1 < MaxSlots() && |record| == SlotSize()
      ensures Absorbs(Slot(mem, n + 1), record)
    {
      SlotInSector(n + 1);
      assert Slot(mem, n + 1) == Repeat(0xFF, SlotSize());
      ErasedAbsorbs(record);
    }

    /** From a ready state a save is always read back, and leaves a ready state. */
    lemma SaveFromReady(mem: seq<byte>, n: nat, payload: seq<byte>)
      requires Valid() && |mem| == CHIP_SIZE && |payload| == payloadLen && Ready(mem, n)
      ensures Ready(SaveSpec(mem, payload), NextIndex(mem, n, payload))
      ensures LoadSpec(SaveSpec(mem, payload)) == Some(payload)
    {
      SaveThenLoad(mem, n, payload);
      SaveCases(mem, n, payload);
      if LoadSpec(mem) != Some(payload) {
        if n + 1 < MaxSlots() {
          ReadyAbsorbs(mem, n, Record(payload));
          AppendStaysReady(mem, n, payload);
        } else {
          RestartIsReady(mem, payload);
        }
      }
    }

    lemma RestartIsReady(mem: seq<byte>, payload: seq<byte>)
      requires Valid() && |mem| == CHIP_SIZE && |payload| == payloadLen
      ensures Ready(Restarted(mem, payload), 0)
    {
    }

    lemma AppendStaysReady(mem: seq<byte>, n: nat, payload: seq<byte>)
      requires Valid() && |mem| == CHIP_SIZE && |payload| == payloadLen && Ready(mem, n) && n + 1 < MaxSlots()
      ensures Ready(Appended(mem, n, payload), n + 1)
    {
      AppendThenLoad(mem, n, payload);
      var w := Wrote(mem, n + 1, payload);
      SlotAfterWrite(mem, n + 1, payload);
      BitmapUntouchedBySlot(mem, n, n + 1, payload);
      MarkingAdvances(w, n);
      SlotInSector(n + 1);
      SlotsApart(n + 1, n + 2);
    }

    function SaveAll(mem: seq<byte>, payloads: seq<seq<byte>>): (m: seq<byte>)
      requires Valid() && |mem| == CHIP_SIZE && forall p :: p in payloads ==> |p| == payloadLen
      ensures |m| == CHIP_SIZE
      decreases |payloads|
    {
      if payloads == [] then mem else SaveAll(SaveSpec(mem, payloads[0]), payloads[1..])
    }

    /** After any run of saves, started on a formatted sector, the last payload is the one loaded. */
    lemma {:induction false} LastSaveWins(mem: seq<byte>, n: nat, payloads: seq<seq<byte>>)
      requires Valid() && |mem| == CHIP_SIZE && Ready(mem, n)
      requires payloads != [] && forall p :: p in payloads ==> |p| == payloadLen
      ensures LoadSpec(SaveAll(mem, payloads)) == Some(payloads[|payloads| - 1])
      decreases |payloads|
    {
      SaveFromReady(mem, n, payloads[0]);
      if |payloads| > 1 {
        LastSaveWins(SaveSpec(mem, payloads[0]), NextIndex(mem, n, payloads[0]), payloads[1..]);
      }
    }

    /** The most slots that fit behind the header and have a bit each in it. */
    lemma MaxSlotsExact(n: nat)
      requires headerSize <= SECTOR_SIZE
      ensures n <= MaxSlots() <==> headerSize + n * (payloadLen + 2) <= 4096 && n <= 8 * headerSize
    {
      QuotientBounds(SECTOR_SIZE - headerSize, SlotSize(), n);
    }

    /** How many erase operations a run of saves takes. */
    function ErasesOf(mem: seq<byte>, payloads: seq<seq<byte>>): nat
      requires Valid() && |mem| == CHIP_SIZE && forall p :: p in payloads ==> |p| == payloadLen
      decreases |payloads|
    {
      if payloads == [] then 0
      else (if StartsOver(mem, payloads[0]) then 1 else 0) + ErasesOf(SaveSpec(mem, payloads[0]), payloads[1..])
    }

    lemma StartsOverExactly(mem: seq<byte>, n: nat, payload: seq<byte>)
      requires Valid() && |mem| == CHIP_SIZE && |payload| == payloadLen && Marked(mem, n)
      ensures StartsOver(mem, payload) <==> LoadSpec(mem) != Some(payload) && n + 1 >= MaxSlots()
    {
      FindFreeMarked(mem, n, 0);
    }

    lemma {:induction false} ErasesCounted(mem: seq<byte>, n: nat, payloads: seq<seq<byte>>)
      requires Valid() && |mem| == CHIP_SIZE && Ready(mem, n) && forall p :: p in payloads ==> |p| == payloadLen
      ensures ErasesOf(mem, payloads) == Turns(n, MaxSlots(), LoadSpec(mem), payloads)
      decreases |payloads|
    {
      if payloads != [] {
        var p, rest := payloads[0], payloads[1..];
        SaveFromReady(mem, n, p);
        StartsOverExactly(mem, n, p);
        ErasesCounted(SaveSpec(mem, p), NextIndex(mem, n, p), rest);
      }
    }

    /**
     * The wear is spread over the slots: of the saves that bring something new one in `MaxSlots()` erases the sector,
     * and saving what is stored already costs nothing.
     */
    lemma WearIsSpread(mem: seq<byte>, n: nat, payloads: seq<seq<byte>>, changes: nat)
      requires Valid() && |mem| == CHIP_SIZE && Ready(mem, n) && forall p :: p in payloads ==> |p| == payloadLen
      requires changes == Changes(LoadSpec(mem), payloads)
      ensures ErasesOf(mem, payloads) == Rounds(n + changes, MaxSlots())
    {
      var turns := Turns(n, MaxSlots(), LoadSpec(mem), payloads);
      assert turns == Rounds(n + changes, MaxSlots()) by {
        TurnsAreRounds(n, MaxSlots(), LoadSpec(mem), payloads);
      }
      assert ErasesOf(mem, payloads) == turns by {
        ErasesCounted(mem, n, payloads);
      }
    }

    lemma SavingAgainKeepsFlash(mem: seq<byte>, payload: seq<byte>)
      requires Valid() && |mem| == CHIP_SIZE && |payload| == payloadLen && LoadSpec(mem) == Some(payload)
      ensures SaveSpec(mem, payload) == mem && !StartsOver(mem, payload)
    {
    }

    lemma WriteStaysInSector(mem: seq<byte>, index: nat, payload: seq<byte>)
      requires Valid() && |mem| == CHIP_SIZE && index < MaxSlots() && |payload| == payloadLen
      ensures SameOutside(Wrote(mem, index, payload), mem, baseAddr, baseAddr + SECTOR_SIZE)
    {
      SlotInSector(index);
    }

    lemma AppendStaysInSector(mem: seq<byte>, index: nat, payload: seq<byte>)
      requires Valid() && |mem| == CHIP_SIZE && index + 1 < MaxSlots() && |payload| == payloadLen
      ensures SameOutside(Appended(mem, index, payload), mem, baseAddr, baseAddr + SECTOR_SIZE)
    {
      WriteStaysInSector(mem, index + 1, payload);
      BitmapInHeader(index);
    }

    lemma RestartStaysInSector(mem: seq<byte>, payload: seq<byte>)
      requires Valid() && |mem| == CHIP_SIZE && |payload| == payloadLen
      ensures SameOutside(Restarted(mem, payload), mem, baseAddr, baseAddr + SECTOR_SIZE)
    {
      WriteStaysInSector(Erased(mem, Sector(baseAddr)), 0, payload);
    }

    lemma SaveStaysInSector(mem: seq<byte>, payload: seq<byte>)
      requires Valid() && |mem| == CHIP_SIZE && |payload| == payloadLen
      ensures SameOutside(SaveSpec(mem, payload), mem, baseAddr, baseAddr + SECTOR_SIZE)
    {
      var index := FindFreeFrom(mem, 0);
      if index + 1 < MaxSlots() {
        AppendStaysInSector(mem, index, payload);
      } else {
        RestartStaysInSector(mem, payload);
      }
    }

    /** A region in another sector keeps its record. */
    lemma RegionsIndependent(other: Region, mem: seq<byte>, payload: seq<byte>)
      requires Valid() && other.Valid() && |mem| == CHIP_SIZE && |payload| == payloadLen
      requires baseAddr != other.baseAddr
      ensures other.LoadSpec(SaveSpec(mem, payload)) == other.LoadSpec(mem)
    {
      SaveStaysInSector(mem, payload);
      SectorsDisjoint(baseAddr, other.baseAddr);
      other.LoadSeesOwnSector(SaveSpec(mem, payload), mem);
    }

    lemma LoadSeesOwnSector(m: seq<byte>, n: seq<byte>)
      requires Valid() && |m| == |n| == CHIP_SIZE
      requires forall a :: baseAddr <= a < baseAddr + SECTOR_SIZE ==> m[a] == n[a]
      ensures LoadSpec(m) == LoadSpec(n)
    {
      FindSeesOwnSector(m, n, 0);
      var index := FindFreeFrom(m, 0);
      if index < MaxSlots() {
        SlotInSector(index);
        assert Slot(m, index) == Slot(n, index);
      }
    }

    lemma {:induction false} FindSeesOwnSector(m: seq<byte>, n: seq<byte>, i: nat)
      requires Valid() && |m| == |n| == CHIP_SIZE && i <= ScanBytes()
      requires forall a :: baseAddr <= a < baseAddr + SECTOR_SIZE ==> m[a] == n[a]
      ensures FindFreeFrom(m, i) == FindFreeFrom(n, i)
      decreases ScanBytes() - i
    {
      if i < ScanBytes() {
        BitmapInHeader(0);
        FindSeesOwnSector(m, n, i + 1);
      }
    }

    // ---- losing power ----------------------------------------------------------------------

    /** Right after the erase that starts a sector over nothing can be loaded but, at most, all ones. */
    lemma RestartForgets(mem: seq<byte>, payload: seq<byte>)
      requires Valid() && |mem| == CHIP_SIZE && |payload| == payloadLen && !Blank(payload)
      ensures LoadSpec(Erased(mem, Sector(baseAddr))) != Some(payload)
    {
      var e := Erased(mem, Sector(baseAddr));
      ErasedBitmap(mem);
      FindFreeMarked(e, 0, 0);
      SlotInSector(0);
      var i :| 0 <= i < payloadLen && payload[i] != 0xFF;
      assert Slot(e, 0)[i] == 0xFF;
      ReadsOwnBytes(e, 0, payload, i);
    }

    /** So starting the sector over is not safe: the old record is gone before the new one is in place. */
    lemma RestartIsNotAtomic(mem: seq<byte>, payload: seq<byte>, history: seq<seq<byte>>, n: nat)
      requires Valid() && |mem| == CHIP_SIZE && |payload| == payloadLen && Replaces(mem, payload)
      requires n < |history| && history[n] == Erased(mem, Sector(baseAddr))
      ensures !OldOrNew(history, n, mem, Restarted(mem, payload))
    {
      RestartForgets(mem, payload);
      RestartForgets(mem, LoadSpec(mem).value);
      RestartThenLoad(mem, payload);
    }

    lemma ReadsOwnBytes(mem: seq<byte>, index: nat, payload: seq<byte>, i: nat)
      requires Valid() && |mem| == CHIP_SIZE && index < MaxSlots() && |payload| == payloadLen && i < payloadLen
      requires Slot(mem, index)[i] != payload[i]
      ensures ReadSlotSpec(mem, index) != Some(payload)
    {
    }

    /** Until the marker is cleared, the slot being written is invisible. */
    lemma UnmarkedSlotInvisible(s: seq<byte>, mem: seq<byte>, n: nat)
      requires Valid() && |s| == |mem| == CHIP_SIZE && Marked(mem, n) && n + 1 < MaxSlots()
      requires SameOutside(s, mem, SlotAddr(n + 1), SlotAddr(n + 1) + SlotSize())
      ensures Marked(s, n) && LoadSpec(s) == LoadSpec(mem)
    {
      BitmapInHeader(0);
      SlotInSector(n + 1);
      SameBitmap(s, mem, baseAddr, ScanBytes(), n, SlotAddr(n + 1), SlotAddr(n + 1) + SlotSize());
      FindFreeMarked(s, n, 0);
      FindFreeMarked(mem, n, 0);
      SlotsApart(n, n + 1);
      SameSlot(s, mem, SlotAddr(n + 1), SlotAddr(n + 1) + SlotSize(), n);
    }

    /** The flash when power is lost after `k` bytes of the record of `first`: a slot appended, or a sector started over. */
    function CutOff(mem: seq<byte>, n: nat, first: seq<byte>, k: nat): (m: seq<byte>)
      requires Valid() && |mem| == CHIP_SIZE && n < MaxSlots() && |first| == payloadLen && k <= SlotSize()
      ensures |m| == CHIP_SIZE
    {
      if n + 1 < MaxSlots() then
        SlotInSector(n + 1);
        Programmed(mem, SlotAddr(n + 1), Record(first)[..k])
      else
        SlotInSector(0);
        Programmed(Erased(mem, Sector(baseAddr)), SlotAddr(0), Record(first)[..k])
    }

    /**
     * A save of `first` was cut off. If it was appending a slot, the old record is still loaded, and a later save of
     * `second` is read back exactly when it was stored already or the bytes programmed leave it the bits it needs. If
     * it was starting the sector over, a later save is always read back.
     */
    lemma SaveAfterCut(mem: seq<byte>, n: nat, first: seq<byte>, k: nat, second: seq<byte>)
      requires Valid() && |mem| == CHIP_SIZE && |first| == |second| == payloadLen
      requires Ready(mem, n) && k <= SlotSize()
      ensures n + 1 < MaxSlots() ==> LoadSpec(CutOff(mem, n, first, k)) == LoadSpec(mem)
      ensures LoadSpec(SaveSpec(CutOff(mem, n, first, k), second)) == Some(second)
         <==> (|| n + 1 >= MaxSlots() || LoadSpec(mem) == Some(second)
               || Absorbs(Record(first)[..k], Record(second)[..k]))
    {
      if n + 1 < MaxSlots() {
        AppendCutOff(mem, n, first, k, second);
      } else {
        RestartCutOff(mem, n, first, k, second);
      }
    }

    lemma AppendCutOff(mem: seq<byte>, n: nat, first: seq<byte>, k: nat, second: seq<byte>)
      requires Valid() && |mem| == CHIP_SIZE && |first| == |second| == payloadLen
      requires Ready(mem, n) && n + 1 < MaxSlots() && k <= SlotSize()
      ensures var cut := CutOff(mem, n, first, k);
              && LoadSpec(cut) == LoadSpec(mem)
              && (LoadSpec(SaveSpec(cut, second)) == Some(second)
                  <==> LoadSpec(mem) == Some(second) || Absorbs(Record(first)[..k], Record(second)[..k]))
    {
      SlotInSector(n + 1);
      var f := Record(first)[..k];
      var cut := Programmed(mem, SlotAddr(n + 1), f);
      UnmarkedSlotInvisible(cut, mem, n);
      SaveThenLoad(cut, n, second);
      CutSlotAbsorbs(mem, n, f, Record(second));
    }

    /** A restart cut off shows no used slot, and of the slots only the first has been touched. */
    lemma RestartedSector(mem: seq<byte>, n: nat, first: seq<byte>, k: nat)
      requires Valid() && |mem| == CHIP_SIZE && n < MaxSlots() <= n + 1 && |first| == payloadLen && k <= SlotSize()
      ensures var cut := CutOff(mem, n, first, k);
              && Marked(cut, 0) && Slot(cut, 0) == Record(first)[..k] + Repeat(0xFF, SlotSize() - k)
              && (MaxSlots() > 1 ==> Slot(cut, 1) == Repeat(0xFF, SlotSize()))
    {
      var e := Erased(mem, Sector(baseAddr));
      var f := Record(first)[..k];
      SlotInSector(0);
      ErasedBitmap(mem);
      BitmapInHeader(0);
      SameBitmap(Programmed(e, SlotAddr(0), f), e, baseAddr, ScanBytes(), 0, SlotAddr(0), SlotAddr(0) + SlotSize());
      ProgrammedBlank(e, SlotAddr(0), SlotSize(), f);
      if MaxSlots() > 1 {
        SlotInSector(1);
        SlotsApart(0, 1);
        assert Slot(e, 1) == Repeat(0xFF, SlotSize());
        SameSlot(Programmed(e, SlotAddr(0), f), e, SlotAddr(0), SlotAddr(0) + SlotSize(), 1);
      }
    }

    lemma RestartCutOff(mem: seq<byte>, n: nat, first: seq<byte>, k: nat, second: seq<byte>)
      requires Valid() && |mem| == CHIP_SIZE && n < MaxSlots() <= n + 1
      requires |first| == |second| == payloadLen && k <= SlotSize()
      ensures LoadSpec(SaveSpec(CutOff(mem, n, first, k), second)) == Some(second)
    {
      RestartedSector(mem, n, first, k);
      if MaxSlots() > 1 {
        ErasedAbsorbs(Record(second));
      }
      SaveThenLoad(CutOff(mem, n, first, k), 0, second);
    }

    /** After a restart was cut off, a payload is loaded whose record is the bytes programmed and ones behind them. */
    lemma LoadAfterRestartCut(mem: seq<byte>, n: nat, first: seq<byte>, k: nat, payload: seq<byte>)
      requires Valid() && |mem| == CHIP_SIZE && n < MaxSlots() <= n + 1
      requires |first| == |payload| == payloadLen && k <= SlotSize()
      ensures LoadSpec(CutOff(mem, n, first, k)) == Some(payload)
         <==> Record(payload) == Record(first)[..k] + Repeat(0xFF, SlotSize() - k)
    {
      var cut := CutOff(mem, n, first, k);
      RestartedSector(mem, n, first, k);
      FindFreeMarked(cut, 0, 0);
      ReadSlotIsExact(cut, 0, payload);
    }

    lemma CutSlotAbsorbs(mem: seq<byte>, n: nat, f: seq<byte>, record: seq<byte>)
      requires Valid() && |mem| == CHIP_SIZE && Ready(mem, n) && n + 1 < MaxSlots()
      requires |f| <= |record| == SlotSize() && SlotAddr(n + 1) + |f| <= CHIP_SIZE
      ensures Absorbs(Slot(Programmed(mem, SlotAddr(n + 1), f), n + 1), record) <==> Absorbs(f, record[..|f|])
    {
      SlotInSector(n + 1);
      ProgrammedBlank(mem, SlotAddr(n + 1), SlotSize(), f);
      PartlyWrittenAbsorbs(Slot(Programmed(mem, SlotAddr(n + 1), f), n + 1), f, |f|, record);
    }

    /** While a slot is appended the condition can fail: one zero byte ruins a later record that starts with ones. */
    lemma CutCanRuinLaterSave(mem: seq<byte>, n: nat, first: seq<byte>, second: seq<byte>)
      requires Valid() && |mem| == CHIP_SIZE && |first| == |second| == payloadLen > 0
      requires Ready(mem, n) && n + 1 < MaxSlots()
      requires first[0] == 0x00 && second[0] == 0xFF && LoadSpec(mem) != Some(second)
      ensures LoadSpec(SaveSpec(CutOff(mem, n, first, 1), second)) != Some(second)
    {
      SaveAfterCut(mem, n, first, 1, second);
      ZeroAbsorbsNoOne(Record(first)[..1], Record(second)[..1]);
    }

    /** In particular repeating the interrupted save always succeeds. */
    lemma RetryAfterCut(mem: seq<byte>, n: nat, payload: seq<byte>, k: nat)
      requires Valid() && |mem| == CHIP_SIZE && |payload| == payloadLen
      requires Ready(mem, n) && k <= SlotSize()
      ensures LoadSpec(SaveSpec(CutOff(mem, n, payload, k), payload)) == Some(payload)
    {
      SaveAfterCut(mem, n, payload, k, payload);
      var r := Record(payload)[..k];
      forall i | 0 <= i < k
        ensures And(r[i], r[i]) == r[i]
      {
        AndSelf(r[i]);
      }
    }
  }

  /** Programming the beginning of a blank stretch stores it and leaves the rest blank. */
  lemma ProgrammedBlank(mem: seq<byte>, at: nat, size: nat, f: seq<byte>)
    requires at + size <= |mem| && |f| <= size && forall a :: at <= a < at + size ==> mem[a] == 0xFF
    ensures Programmed(mem, at, f)[at..at + size] == f + Repeat(0xFF, size - |f|)
  {
    ProgrammedOnErased(mem, at, f);
  }

  /** Like erased flash. */
  ghost predicate Blank(s: seq<byte>) {
    forall i :: 0 <= i < |s| ==> s[i] == 0xFF
  }

  /** Programming `record` over `old_` yields `record`. */
  predicate Absorbs(old_: seq<byte>, record: seq<byte>) {
    |old_| == |record| && forall k :: 0 <= k < |record| ==> And(old_[k], record[k]) == record[k]
  }

  /** A slot of which only the first `k` bytes were written, holding `f`, takes what those bytes allow. */
  lemma PartlyWrittenAbsorbs(slot: seq<byte>, f: seq<byte>, k: nat, record: seq<byte>)
    requires k == |f| <= |slot| == |record|
    requires forall i :: 0 <= i < |slot| ==> slot[i] == if i < k then f[i] else 0xFF
    ensures Absorbs(slot, record) <==> Absorbs(f, record[..k])
  {
    forall i | k <= i < |slot|
      ensures And(slot[i], record[i]) == record[i]
    {
      AndOnes(record[i]);
    }
    if Absorbs(f, record[..k]) {
      forall i | 0 <= i < k
        ensures And(slot[i], record[i]) == record[i]
      {
        assert And(f[i], record[..k][i]) == record[..k][i];
      }
    }
    if Absorbs(slot, record) {
      forall i | 0 <= i < k
        ensures And(f[i], record[..k][i]) == record[..k][i]
      {
        assert And(slot[i], record[i]) == record[i];
      }
    }
  }

  lemma ZeroAbsorbsNoOne(old_: seq<byte>, record: seq<byte>)
    requires old_ != [] && record != [] && old_[0] == 0x00 && record[0] == 0xFF
    ensures !Absorbs(old_, record)
  {
  }

  lemma ErasedAbsorbs(record: seq<byte>)
    ensures Absorbs(Repeat(0xFF, |record|), record)
  {
    forall k | 0 <= k < |record|
      ensures And(0xFF, record[k]) == record[k]
    {
      AndOnes(record[k]);
    }
  }

  /** The bitmap shows `n` used slots: its first `n` bits are clear and the rest are set. */
  predicate BitmapShows(mem: seq<byte>, base: nat, size: nat, n: nat)
    requires base + size <= |mem|
  {
    forall a :: base <= a < base + size ==> mem[a] == Marker(UsedBits(n, a - base))
  }

  lemma SameBitmap(m: seq<byte>, mem: seq<byte>, base: nat, size: nat, n: nat, lo: nat, hi: nat)
    requires base + size <= |mem| && BitmapShows(mem, base, size, n)
    requires SameOutside(m, mem, lo, hi) && (base + size <= lo || hi <= base)
    ensures BitmapShows(m, base, size, n)
  {
  }

  lemma UsedBitsStep(n: nat, i: nat)
    ensures UsedBits(n + 1, i) == if i == n / 8 then n % 8 + 1 else UsedBits(n, i)
    ensures UsedBits(n, n / 8) == n % 8
  {
  }

  lemma MarkOne(mem: seq<byte>, base: nat, size: nat, n: nat)
    requires base + size <= |mem| && n / 8 < size && BitmapShows(mem, base, size, n)
    ensures BitmapShows(Programmed(mem, base + n / 8, [CLEAR_MASK[n % 8]]), base, size, n + 1)
  {
    UsedBitsStep(n, n / 8);
    ClearMaskIsNextMarker(n % 8);
    var m := Programmed(mem, base + n / 8, [CLEAR_MASK[n % 8]]);
    forall a | base <= a < base + size
      ensures m[a] == Marker(UsedBits(n + 1, a - base))
    {
      UsedBitsStep(n, a - base);
      assert mem[a] == Marker(UsedBits(n, a - base));
    }
  }

  /** A bitmap byte with its lowest `k` bits clear. */
  function Marker(k: nat): (b: byte)
    requires k <= 8
  {
    Pow2Small(k);
    0x100 - Pow2(k)
  }

  /** How many of byte `i`'s bits are among the first `n` of the bitmap. */
  function UsedBits(n: nat, i: nat): (k: nat)
    ensures k <= 8
  {
    if n <= 8 * i then 0 else if n >= 8 * i + 8 then 8 else n - 8 * i
  }

  lemma {:induction false} MarkerZeros(m: nat, k: nat, b: byte)
    requires k < m && b == Pow2(m) - Pow2(k)
    ensures b != 0 && TrailingZeros(b) == k
  {
    if k == 0 {
      assert b == 2 * (Pow2(m - 1) - 1) + 1;
    } else {
      MarkerZeros(m - 1, k - 1, b / 2);
      assert b == 2 * (Pow2(m - 1) - Pow2(k - 1));
    }
  }

  lemma {:induction false} ClearOneMore(m: nat, k: nat, b: nat, c: nat)
    requires k < m && b == Pow2(m) - Pow2(k) && c == Pow2(m) - Pow2(k + 1)
    ensures And(b, c) == c
  {
    if k == 0 {
      AndAllOnes(c, m);
    } else {
      ClearOneMore(m - 1, k - 1, b / 2, c / 2);
      assert b == 2 * (Pow2(m - 1) - Pow2(k - 1)) && c == 2 * (Pow2(m - 1) - Pow2(k));
    }
  }

  lemma ClearMaskIsNextMarker(k: nat)
    requires k < 8
    ensures CLEAR_MASK[k] == Marker(k + 1) && And(Marker(k), CLEAR_MASK[k]) == Marker(k + 1)
  {
    Pow2Values();
    assert Pow2(1) == 2 && Pow2(2) == 4 && Pow2(3) == 8 && Pow2(4) == 16;
    assert Pow2(5) == 32 && Pow2(6) == 64 && Pow2(7) == 128;
    ClearOneMore(8, k, Marker(k), Marker(k + 1));
  }
}
