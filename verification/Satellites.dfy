/** The satellite list: one sector of fixed slots, erased and rewritten as a whole. */
module Satellites {
  import opened Bytes
  import opened ChannelStore
  import opened FlashMap
  import opened NorFlash

  const SAT_ADDR: nat := 0xD_0000

  type Slot = i: nat | i < MAX_SATELLITES

  datatype SatRecord = SatRecord(
    name: seq<byte>, rxFreq: u32, txFreq: u32, rxTone: u16, txTone: u16, altitude: u16, flags: byte, pad: seq<byte>)
  {
    predicate WellFormed() { |name| == 10 && |pad| == 3 }

    /** An all-ones slot is an empty one. */
    static function FromBytes(b: seq<byte>): (r: Option<SatRecord>)
      requires |b| == SAT_RECORD_SIZE
      ensures r == None <==> b == Repeat(0xFF, SAT_RECORD_SIZE)
      ensures r.Some? ==> r.value.WellFormed()
    {
      if b == Repeat(0xFF, SAT_RECORD_SIZE) then None
      else Some(SatRecord(b[0..10], U32At(b, 10), U32At(b, 14), U16At(b, 18), U16At(b, 20), U16At(b, 22), b[24], b[25..28]))
    }

    /** The last seven bytes are zero: the padding that was read is not written back. */
    function ToBytes(): (b: seq<byte>)
      requires WellFormed()
      ensures |b| == SAT_RECORD_SIZE
    {
      name + U32Bytes(rxFreq) + U32Bytes(txFreq) + U16Bytes(rxTone) + U16Bytes(txTone) + U16Bytes(altitude)
      + [flags] + Repeat(0, 7)
    }

    function Unpadded(): SatRecord { this.(pad := [0, 0, 0]) }
  }

  lemma SatParts(r: SatRecord)
    requires r.WellFormed()
    ensures var b := r.ToBytes();
            && b[0..10] == r.name && b[10..14] == U32Bytes(r.rxFreq) && b[14..18] == U32Bytes(r.txFreq)
            && b[18..20] == U16Bytes(r.rxTone) && b[20..22] == U16Bytes(r.txTone) && b[22..24] == U16Bytes(r.altitude)
            && b[24] == r.flags && b[25..28] == [0, 0, 0] && b[31] == 0
  {
  }

  /** A stored record is never taken for an empty slot, and only its padding is lost. */
  lemma SatFromTo(r: SatRecord)
    requires r.WellFormed()
    ensures SatRecord.FromBytes(r.ToBytes()) == Some(r.Unpadded())
  {
    var b := r.ToBytes();
    SatParts(r);
    assert b[31] != Repeat(0xFF, SAT_RECORD_SIZE)[31];
    WordAt32(b, 10, r.rxFreq);
    WordAt32(b, 14, r.txFreq);
    WordAt16(b, 18, r.rxTone);
    WordAt16(b, 20, r.txTone);
    WordAt16(b, 22, r.altitude);
  }

  // ---- the host's record --------------------------------------------------------

  datatype SatInfo = SatInfo(name: seq<byte>, rxFreq: u32, txFreq: u32, rxTone: u16, txTone: u16, altitude: u16)

  /** Little-endian words, as `struct` packs them with `<H` and `<I`. */
  function Packed16(w: u16): seq<byte> { [w % 0x100, w / 0x100] }

  function Packed32(w: u32): seq<byte> { [w % 0x100, w / 0x100 % 0x100, w / 0x1_0000 % 0x100, w / 0x100_0000] }

  function HostName(name: seq<byte>): (n: seq<byte>)
    ensures |n| == 10
  {
    if |name| >= 10 then name[..10] else name + Repeat(0, 10 - |name|)
  }

  /** `encode_sat_record`: everything is written into 32 zero bytes at its offset. */
  function HostRecord(info: SatInfo): (b: seq<byte>)
    ensures |b| == 32
  {
    var named := Splice(Repeat(0, 32), 0, if |info.name| > 10 then info.name[..10] else info.name);
    var tuned := Splice(Splice(named, 10, Packed32(info.rxFreq)), 14, Packed32(info.txFreq));
    Splice(Splice(Splice(tuned, 18, Packed16(info.rxTone)), 20, Packed16(info.txTone)), 22, Packed16(info.altitude))
  }

  lemma UnpackedWord(b: seq<byte>, i: nat, w: u32)
    requires i + 4 <= |b| && b[i] == w % 0x100 && b[i + 1] == w / 0x100 % 0x100
    requires b[i + 2] == w / 0x1_0000 % 0x100 && b[i + 3] == w / 0x100_0000
    ensures U32At(b, i) == w
  {
    Quarters(w);
  }

  lemma Quarters(w: u32)
    ensures w == w % 0x100 + 0x100 * (w / 0x100 % 0x100) + 0x1_0000 * (w / 0x1_0000 % 0x100) + 0x100_0000 * (w / 0x100_0000)
  {
    var h := w / 0x100;
    assert w == 0x100 * h + w % 0x100;
    var q := h / 0x100;
    assert h == 0x100 * q + h % 0x100 && q == w / 0x1_0000;
    assert q == 0x100 * (q / 0x100) + q % 0x100 && q / 0x100 == w / 0x100_0000;
  }

  /** The radio reads from the host's record what the host put into it, and never takes it for an empty slot. */
  lemma HostRecordRead(info: SatInfo)
    ensures SatRecord.FromBytes(HostRecord(info)) ==
              Some(SatRecord(HostName(info.name), info.rxFreq, info.txFreq, info.rxTone, info.txTone, info.altitude,
                             0, [0, 0, 0]))
  {
    var b := HostRecord(info);
    assert b[0..10] == HostName(info.name);
    UnpackedWord(b, 10, info.rxFreq);
    UnpackedWord(b, 14, info.txFreq);
    assert U16At(b, 18) == info.rxTone && U16At(b, 20) == info.txTone && U16At(b, 22) == info.altitude;
    assert b[24] == 0 && b[25..28] == [0, 0, 0];
    assert b[31] != Repeat(0xFF, SAT_RECORD_SIZE)[31];
  }

  function SlotAddr(i: Slot): nat { SAT_ADDR + i * SAT_RECORD_SIZE }

  function SlotOf(mem: seq<byte>, i: Slot): (s: seq<byte>)
    requires |mem| == CHIP_SIZE
    ensures |s| == SAT_RECORD_SIZE
  {
    mem[SlotAddr(i)..SlotAddr(i) + SAT_RECORD_SIZE]
  }

  function RecordBytes(sat: Option<SatRecord>): seq<byte>
    requires sat.Some? ==> sat.value.WellFormed()
  {
    match sat case None => Repeat(0xFF, SAT_RECORD_SIZE) case Some(r) => r.ToBytes()
  }

  ghost predicate AllWellFormed(sats: seq<Option<SatRecord>>) {
    |sats| == MAX_SATELLITES && forall i: Slot :: sats[i].Some? ==> sats[i].value.WellFormed()
  }

  lemma ProgramSlot(mem: seq<byte>, i: Slot, data: seq<byte>, j: Slot)
    requires |mem| == CHIP_SIZE && |data| == SAT_RECORD_SIZE && SlotOf(mem, i) == Repeat(0xFF, SAT_RECORD_SIZE)
    ensures SlotOf(Programmed(mem, SlotAddr(i), data), j) == if j == i then data else SlotOf(mem, j)
  {
    var a := SlotAddr(i);
    assert forall k :: a <= k < a + SAT_RECORD_SIZE ==> mem[k] == SlotOf(mem, i)[k - a];
    ProgrammedOnErased(mem, a, data);
    assert j != i ==> SlotAddr(j) + SAT_RECORD_SIZE <= a || a + SAT_RECORD_SIZE <= SlotAddr(j);
  }

  ghost predicate WrittenUpTo(mem: seq<byte>, sats: seq<Option<SatRecord>>, n: nat)
    requires |mem| == CHIP_SIZE && AllWellFormed(sats)
  {
    forall i: Slot :: SlotOf(mem, i) == if i < n then RecordBytes(sats[i]) else Repeat(0xFF, SAT_RECORD_SIZE)
  }

  lemma ErasedSlot(mem: seq<byte>, j: Slot)
    requires |mem| == CHIP_SIZE
    ensures SlotOf(Erased(mem, Sector(SAT_ADDR)), j) == Repeat(0xFF, SAT_RECORD_SIZE)
  {
    assert forall k :: SlotAddr(j) <= k < SlotAddr(j) + SAT_RECORD_SIZE ==> Sector(k) == Sector(SAT_ADDR);
  }

  lemma NothingWritten(mem: seq<byte>, sats: seq<Option<SatRecord>>)
    requires |mem| == CHIP_SIZE && AllWellFormed(sats)
    ensures var e := Erased(mem, Sector(SAT_ADDR));
            WrittenUpTo(e, sats, 0) && SameOutside(e, mem, SAT_ADDR, SAT_ADDR + SECTOR_SIZE)
  {
    forall i: Slot
      ensures SlotOf(Erased(mem, Sector(SAT_ADDR)), i) == Repeat(0xFF, SAT_RECORD_SIZE)
    {
      ErasedSlot(mem, i);
    }
  }

  lemma UnusedSlot(mem: seq<byte>, sats: seq<Option<SatRecord>>, n: Slot)
    requires |mem| == CHIP_SIZE && AllWellFormed(sats) && WrittenUpTo(mem, sats, n) && sats[n] == None
    ensures WrittenUpTo(mem, sats, n + 1)
  {
  }

  lemma WriteOneMore(mem: seq<byte>, sats: seq<Option<SatRecord>>, n: Slot)
    requires |mem| == CHIP_SIZE && AllWellFormed(sats) && WrittenUpTo(mem, sats, n) && sats[n].Some?
    ensures var m := Programmed(mem, SlotAddr(n), sats[n].value.ToBytes());
            WrittenUpTo(m, sats, n + 1) && SameOutside(m, mem, SAT_ADDR, SAT_ADDR + SECTOR_SIZE)
  {
    var data := sats[n].value.ToBytes();
    forall i: Slot
      ensures SlotOf(Programmed(mem, SlotAddr(n), data), i) ==
                if i < n + 1 then RecordBytes(sats[i]) else Repeat(0xFF, SAT_RECORD_SIZE)
    {
      ProgramSlot(mem, n, data, i);
    }
  }

  /** Erases the list's sector once and writes the slots in use; the rest of the chip keeps its bytes. */
  method SaveSatellites(flash: NorFlash, sats: seq<Option<SatRecord>>)
    requires flash.Valid() && AllWellFormed(sats)
    modifies flash
    ensures flash.Valid()
    ensures forall i: Slot :: SlotOf(flash.mem, i) == RecordBytes(sats[i])
    ensures SameOutside(flash.mem, old(flash.mem), SAT_ADDR, SAT_ADDR + SECTOR_SIZE)
  {
    ghost var start := flash.mem;
    NothingWritten(start, sats);
    flash.EraseSector(SAT_ADDR);
    for n := 0 to MAX_SATELLITES
      invariant flash.Valid() && WrittenUpTo(flash.mem, sats, n)
      invariant SameOutside(flash.mem, start, SAT_ADDR, SAT_ADDR + SECTOR_SIZE)
    {
      if sats[n].Some? {
        WriteOneMore(flash.mem, sats, n);
        flash.WriteBytes(SlotAddr(n), sats[n].value.ToBytes());
      } else {
        UnusedSlot(flash.mem, sats, n);
      }
    }
  }

  lemma SlotInList(mem: seq<byte>, list: seq<byte>, i: Slot)
    requires |mem| == CHIP_SIZE && list == mem[SAT_ADDR..SAT_ADDR + MAX_SATELLITES * SAT_RECORD_SIZE]
    ensures list[i * SAT_RECORD_SIZE..(i + 1) * SAT_RECORD_SIZE] == SlotOf(mem, i)
  {
    var s := list[i * SAT_RECORD_SIZE..(i + 1) * SAT_RECORD_SIZE];
    assert forall k :: 0 <= k < SAT_RECORD_SIZE ==> s[k] == list[i * SAT_RECORD_SIZE + k];
  }

  method LoadSatellites(flash: NorFlash) returns (sats: seq<Option<SatRecord>>)
    requires flash.Valid()
    ensures AllWellFormed(sats) && forall i: Slot :: sats[i] == SatRecord.FromBytes(SlotOf(flash.mem, i))
  {
    var buf := new byte[MAX_SATELLITES * SAT_RECORD_SIZE](_ => 0xFF);
    flash.ReadBytes(SAT_ADDR, buf);
    ghost var list := buf[..];
    sats := [];
    for n := 0 to MAX_SATELLITES
      invariant |sats| == n && buf[..] == list
      invariant forall i: Slot :: i < n ==> sats[i] == SatRecord.FromBytes(SlotOf(flash.mem, i))
    {
      var record := buf[n * SAT_RECORD_SIZE..(n + 1) * SAT_RECORD_SIZE];
      assert record == list[n * SAT_RECORD_SIZE..(n + 1) * SAT_RECORD_SIZE];
      SlotInList(flash.mem, list, n);
      sats := sats + [SatRecord.FromBytes(record)];
    }
  }

  function Unpadded(sat: Option<SatRecord>): Option<SatRecord> {
    match sat case None => None case Some(r) => Some(r.Unpadded())
  }

  /** What is loaded from an image that holds a saved list is that list without its padding. */
  lemma LoadAfterSave(mem: seq<byte>, sats: seq<Option<SatRecord>>, i: Slot)
    requires |mem| == CHIP_SIZE && AllWellFormed(sats) && SlotOf(mem, i) == RecordBytes(sats[i])
    ensures SatRecord.FromBytes(SlotOf(mem, i)) == Unpadded(sats[i])
    ensures SatRecord.FromBytes(SlotOf(mem, i)) == sats[i] <==> sats[i].Some? ==> sats[i].value.pad == [0, 0, 0]
  {
    if sats[i].Some? {
      SatFromTo(sats[i].value);
    }
  }

  // ---- the CPS write session --------------------------------------------------

  /** The flash, and whether the list's sector was erased since the session began. */
  datatype SatSession = SatSession(mem: seq<byte>, erased: bool)

  datatype SatWrite = SatWrite(slot: Slot, record: seq<byte>)

  ghost predicate WholeRecords(ws: seq<SatWrite>) {
    forall w :: w in ws ==> |w.record| == SAT_RECORD_SIZE
  }

  function SatWriteStep(s: SatSession, i: Slot, record: seq<byte>): (t: SatSession)
    requires |s.mem| == CHIP_SIZE && |record| == SAT_RECORD_SIZE
    ensures |t.mem| == CHIP_SIZE && t.erased
  {
    SatSession(Programmed(if s.erased then s.mem else Erased(s.mem, Sector(SAT_ADDR)), SlotAddr(i), record), true)
  }

  ghost function RunSatSession(mem: seq<byte>, ws: seq<SatWrite>): (t: SatSession)
    requires |mem| == CHIP_SIZE && WholeRecords(ws)
    ensures |t.mem| == CHIP_SIZE && t.erased == (ws != [])
    decreases |ws|
  {
    if ws == [] then SatSession(mem, false)
    else
      var last := ws[|ws| - 1];
      SatWriteStep(RunSatSession(mem, ws[..|ws| - 1]), last.slot, last.record)
  }

  /** The bitwise AND of all records sent for a slot; all ones if there was none. */
  ghost function AndOfRecords(ws: seq<SatWrite>, i: Slot): (r: seq<byte>)
    requires WholeRecords(ws)
    ensures |r| == SAT_RECORD_SIZE
    decreases |ws|
  {
    if ws == [] then Repeat(0xFF, SAT_RECORD_SIZE)
    else
      var last, sent := ws[|ws| - 1], AndOfRecords(ws[..|ws| - 1], i);
      if last.slot == i then AndBytes(sent, last.record) else sent
  }

  lemma OneSatWrite(s: SatSession, i: Slot, record: seq<byte>, j: Slot)
    requires |s.mem| == CHIP_SIZE && |record| == SAT_RECORD_SIZE
    ensures var base := if s.erased then SlotOf(s.mem, j) else Repeat(0xFF, SAT_RECORD_SIZE);
            SlotOf(SatWriteStep(s, i, record).mem, j) == if j == i then AndBytes(base, record) else base
  {
    if s.erased {
      ProgramOver(s.mem, i, record, j);
    } else {
      ErasedSlot(s.mem, j);
      ProgramOver(Erased(s.mem, Sector(SAT_ADDR)), i, record, j);
    }
  }

  lemma ProgramOver(mem: seq<byte>, i: Slot, record: seq<byte>, j: Slot)
    requires |mem| == CHIP_SIZE && |record| == SAT_RECORD_SIZE
    ensures SlotOf(Programmed(mem, SlotAddr(i), record), j) ==
              if j == i then AndBytes(SlotOf(mem, i), record) else SlotOf(mem, j)
  {
    assert j != i ==> SlotAddr(j) + SAT_RECORD_SIZE <= SlotAddr(i) || SlotAddr(i) + SAT_RECORD_SIZE <= SlotAddr(j);
  }

  /**
   * Once anything was written in a session, every slot holds the AND of the records sent for it, and is empty if
   * there was none: what was stored before survives only in a session without a write.
   */
  lemma {:induction false} SatSessionStores(mem: seq<byte>, ws: seq<SatWrite>, i: Slot)
    requires |mem| == CHIP_SIZE && WholeRecords(ws)
    ensures SlotOf(RunSatSession(mem, ws).mem, i) == if ws == [] then SlotOf(mem, i) else AndOfRecords(ws, i)
    decreases |ws|
  {
    if ws != [] {
      var init, last := ws[..|ws| - 1], ws[|ws| - 1];
      SatSessionStores(mem, init, i);
      assert last in ws;
      OneSatWrite(RunSatSession(mem, init), last.slot, last.record, i);
      assert init == [] ==> AndOfRecords(init, i) == Repeat(0xFF, SAT_RECORD_SIZE);
    }
  }

  class SatStorage {
    const flash: NorFlash
    var satErased: bool

    ghost predicate Valid()
      reads this, flash
    {
      flash.Valid()
    }

    ghost function View(): SatSession
      reads this, flash
    {
      SatSession(flash.mem, satErased)
    }

    constructor (flash: NorFlash)
      requires flash.Valid()
      ensures Valid() && this.flash == flash && !satErased
    {
      this.flash := flash;
      satErased := false;
    }

    method ResetSatWriteSession()
      requires Valid()
      modifies this
      ensures Valid() && View() == SatSession(old(flash.mem), false)
    {
      satErased := false;
    }

    /** The first write of a session erases the whole list. */
    method WriteSatellite(i: Slot, record: seq<byte>)
      requires Valid() && |record| == SAT_RECORD_SIZE
      modifies this, flash
      ensures Valid() && View() == SatWriteStep(old(View()), i, record)
    {
      var recordAddr := SlotAddr(i);
      if !satErased {
        var sectorAddr := recordAddr / SECTOR_SIZE * SECTOR_SIZE;
        assert Sector(sectorAddr) == Sector(SAT_ADDR);
        flash.EraseSector(sectorAddr);
        satErased := true;
      }
      flash.WriteBytes(recordAddr, record);
    }
  }
}
