/** Rewriting one record of a flash sector through a scratch sector. */
module SectorRewrite {
  import opened Bytes
  import opened NorFlash

  const SCRATCH_ADDR: nat := 0xD000

  function SectorBase(addr: nat): nat { addr / SECTOR_SIZE * SECTOR_SIZE }

  function SectorImage(mem: seq<byte>, base: nat): (s: seq<byte>)
    requires base + SECTOR_SIZE <= |mem|
    ensures |s| == SECTOR_SIZE
  {
    mem[base..base + SECTOR_SIZE]
  }

  /** A sector's content with a record copied over it at `off`; what would stick out is cut off. */
  function Patched(sector: seq<byte>, off: nat, record: seq<byte>): (s: seq<byte>)
    ensures |s| == |sector|
    ensures forall i :: 0 <= i < |s| ==> s[i] == if off <= i < off + |record| then record[i - off] else sector[i]
  {
    seq(|sector|, i requires 0 <= i < |sector| =>
      if off <= i < off + |record| then record[i - off] else sector[i])
  }

  /** Losing power in this state loses nothing: the old sector is whole, or the new one is staged. */
  predicate Recoverable(mem: seq<byte>, base: nat, before: seq<byte>, patched: seq<byte>)
    requires base + SECTOR_SIZE <= |mem| && SCRATCH_ADDR + SECTOR_SIZE <= |mem|
  {
    SectorImage(mem, base) == before || SectorImage(mem, SCRATCH_ADDR) == patched
  }

  /** A sector erased and then written with the beginning of `image`, `off` bytes so far. */
  predicate FilledUpTo(mem: seq<byte>, base: nat, image: seq<byte>, off: nat)
    requires base + SECTOR_SIZE <= |mem| && |image| == SECTOR_SIZE
  {
    forall i :: base <= i < base + SECTOR_SIZE ==> mem[i] == if i - base < off then image[i - base] else 0xFF
  }

  lemma EraseStartsFilling(mem: seq<byte>, base: nat, image: seq<byte>)
    requires base % SECTOR_SIZE == 0 && base + SECTOR_SIZE <= |mem| && |image| == SECTOR_SIZE
    ensures FilledUpTo(Erased(mem, Sector(base)), base, image, 0)
    ensures SameOutside(Erased(mem, Sector(base)), mem, base, base + SECTOR_SIZE)
  {
  }

  lemma FillPage(mem: seq<byte>, base: nat, image: seq<byte>, off: nat, page: seq<byte>)
    requires base + SECTOR_SIZE <= |mem| && |image| == SECTOR_SIZE
    requires off + PAGE_SIZE <= SECTOR_SIZE && page == image[off..off + PAGE_SIZE]
    requires FilledUpTo(mem, base, image, off)
    ensures FilledUpTo(Programmed(mem, base + off, page), base, image, off + PAGE_SIZE)
    ensures SameOutside(Programmed(mem, base + off, page), mem, base, base + SECTOR_SIZE)
  {
    ProgrammedOnErased(mem, base + off, page);
  }

  /** One page of the target, with the part of the record that falls into it patched in. */
  method LoadPatchedPage(flash: NorFlash, base: nat, off: nat, recordOff: nat, record: seq<byte>, page: array<byte>)
    requires flash.Valid() && page.Length == PAGE_SIZE
    requires base + SECTOR_SIZE <= CHIP_SIZE && off + PAGE_SIZE <= SECTOR_SIZE
    modifies page
    ensures page[..] == Patched(SectorImage(flash.mem, base), recordOff, record)[off..off + PAGE_SIZE]
  {
    flash.ReadBytes(base + off, page);
    var recordEnd, pageEnd := recordOff + |record|, off + PAGE_SIZE;
    ghost var read := page[..];
    assert forall i :: 0 <= i < PAGE_SIZE ==> read[i] == SectorImage(flash.mem, base)[off + i];
    if recordOff < pageEnd && recordEnd > off {
      var lo := if recordOff > off then recordOff else off;
      var hi := if recordEnd < pageEnd then recordEnd else pageEnd;
      forall i | lo - off <= i < hi - off {
        page[i] := record[off + i - recordOff];
      }
    }
    ghost var patched := Patched(SectorImage(flash.mem, base), recordOff, record);
    assert forall i :: 0 <= i < PAGE_SIZE ==> page[i] == patched[off + i];
  }

  /** Programs the next page of a sector being filled: one chip operation. */
  method WriteNextPage(flash: NorFlash, base: nat, ghost image: seq<byte>, off: nat, page: array<byte>)
    requires flash.Valid() && base % SECTOR_SIZE == 0 && base + SECTOR_SIZE <= CHIP_SIZE && |image| == SECTOR_SIZE
    requires off % PAGE_SIZE == 0 && off + PAGE_SIZE <= SECTOR_SIZE
    requires page.Length == PAGE_SIZE && page[..] == image[off..off + PAGE_SIZE]
    requires FilledUpTo(flash.mem, base, image, off)
    modifies flash
    ensures flash.Valid() && FilledUpTo(flash.mem, base, image, off + PAGE_SIZE)
    ensures SameOutside(flash.mem, old(flash.mem), base, base + SECTOR_SIZE)
    ensures flash.history == old(flash.history) + [flash.mem]
  {
    var data := page[..];
    FillPage(flash.mem, base, image, off, data);
    flash.WriteBytes(base + off, data);
  }

  lemma ConfinedOneMore(history: seq<seq<byte>>, n: nat, base: seq<byte>, lo: nat, hi: nat, next: seq<byte>)
    requires ConfinedSince(history, n, base, lo, hi) && SameOutside(next, base, lo, hi)
    ensures ConfinedSince(history + [next], n, base, lo, hi)
  {
  }

  /** The scratch sector becomes the target's image with the record spliced in. */
  method StageSector(flash: NorFlash, base: nat, recordOff: nat, record: seq<byte>)
    requires flash.Valid() && base % SECTOR_SIZE == 0 && base + SECTOR_SIZE <= CHIP_SIZE && base != SCRATCH_ADDR
    modifies flash
    ensures flash.Valid()
    ensures SectorImage(flash.mem, SCRATCH_ADDR) == Patched(SectorImage(old(flash.mem), base), recordOff, record)
    ensures SameOutside(flash.mem, old(flash.mem), SCRATCH_ADDR, SCRATCH_ADDR + SECTOR_SIZE)
    ensures old(flash.history) <= flash.history
    ensures ConfinedSince(flash.history, |old(flash.history)|, old(flash.mem), SCRATCH_ADDR, SCRATCH_ADDR + SECTOR_SIZE)
  {
    ghost var before := flash.mem;
    ghost var image := SectorImage(before, base);
    ghost var patched := Patched(image, recordOff, record);
    EraseStartsFilling(flash.mem, SCRATCH_ADDR, patched);
    flash.EraseSector(SCRATCH_ADDR);
    var page := new byte[PAGE_SIZE](_ => 0);
    var off := 0;
    while off < SECTOR_SIZE
      invariant flash.Valid() && off % PAGE_SIZE == 0 && 0 <= off <= SECTOR_SIZE
      invariant FilledUpTo(flash.mem, SCRATCH_ADDR, patched, off)
      invariant SameOutside(flash.mem, before, SCRATCH_ADDR, SCRATCH_ADDR + SECTOR_SIZE)
      invariant old(flash.history) <= flash.history
      invariant ConfinedSince(flash.history, |old(flash.history)|, before, SCRATCH_ADDR, SCRATCH_ADDR + SECTOR_SIZE)
    {
      assert SectorImage(flash.mem, base) == image;
      LoadPatchedPage(flash, base, off, recordOff, record, page);
      ghost var h := flash.history;
      WriteNextPage(flash, SCRATCH_ADDR, patched, off, page);
      ConfinedOneMore(h, |old(flash.history)|, before, SCRATCH_ADDR, SCRATCH_ADDR + SECTOR_SIZE, flash.mem);
      off := off + PAGE_SIZE;
    }
  }

  /** The target sector becomes what the scratch sector holds. */
  method CopyBack(flash: NorFlash, base: nat)
    requires flash.Valid() && base % SECTOR_SIZE == 0 && base + SECTOR_SIZE <= CHIP_SIZE && base != SCRATCH_ADDR
    modifies flash
    ensures flash.Valid()
    ensures SectorImage(flash.mem, base) == SectorImage(old(flash.mem), SCRATCH_ADDR)
    ensures SameOutside(flash.mem, old(flash.mem), base, base + SECTOR_SIZE)
    ensures old(flash.history) <= flash.history
    ensures ConfinedSince(flash.history, |old(flash.history)|, old(flash.mem), base, base + SECTOR_SIZE)
  {
    ghost var before := flash.mem;
    ghost var staged := SectorImage(before, SCRATCH_ADDR);
    EraseStartsFilling(flash.mem, base, staged);
    flash.EraseSector(base);
    var page := new byte[PAGE_SIZE](_ => 0);
    var off := 0;
    while off < SECTOR_SIZE
      invariant flash.Valid() && off % PAGE_SIZE == 0 && 0 <= off <= SECTOR_SIZE
      invariant FilledUpTo(flash.mem, base, staged, off)
      invariant SameOutside(flash.mem, before, base, base + SECTOR_SIZE)
      invariant old(flash.history) <= flash.history
      invariant ConfinedSince(flash.history, |old(flash.history)|, before, base, base + SECTOR_SIZE)
    {
      assert SectorImage(flash.mem, SCRATCH_ADDR) == staged;
      flash.ReadBytes(SCRATCH_ADDR + off, page);
      assert page[..] == staged[off..off + PAGE_SIZE];
      ghost var h := flash.history;
      WriteNextPage(flash, base, staged, off, page);
      ConfinedOneMore(h, |old(flash.history)|, before, base, base + SECTOR_SIZE, flash.mem);
      off := off + PAGE_SIZE;
    }
  }

  /**
   * The record replaces its bytes in its own sector, whatever the scratch sector held; nothing
   * else but the scratch sector changes, and power may be lost after any erase or program
   * operation without losing the sector.
   */
  method RewriteRecord(flash: NorFlash, recordAddr: nat, record: seq<byte>)
    requires flash.Valid() && recordAddr < CHIP_SIZE
    requires SectorBase(recordAddr) != SCRATCH_ADDR
    modifies flash
    ensures flash.Valid()
    ensures var base := SectorBase(recordAddr);
            var before := old(flash.mem);
            var patched := Patched(SectorImage(before, base), recordAddr - base, record);
            && SectorImage(flash.mem, base) == SectorImage(flash.mem, SCRATCH_ADDR) == patched
            && (forall i :: 0 <= i < CHIP_SIZE && Sector(i) != Sector(base) && Sector(i) != Sector(SCRATCH_ADDR)
                  ==> flash.mem[i] == before[i])
            && old(flash.history) <= flash.history
            && (forall k :: |old(flash.history)| <= k < |flash.history| ==>
                  |flash.history[k]| == CHIP_SIZE
                  && Recoverable(flash.history[k], base, SectorImage(before, base), patched))
  {
    var sectorAddr := recordAddr / SECTOR_SIZE * SECTOR_SIZE;
    ghost var before := flash.mem;
    StageSector(flash, sectorAddr, recordAddr - sectorAddr, record);
    ghost var staged, stagedHistory := flash.mem, flash.history;
    assert SectorImage(staged, sectorAddr) == SectorImage(before, sectorAddr);
    CopyBack(flash, sectorAddr);
    assert SectorImage(flash.mem, SCRATCH_ADDR) == SectorImage(staged, SCRATCH_ADDR);
    forall k | |old(flash.history)| <= k < |flash.history|
      ensures |flash.history[k]| == CHIP_SIZE
      ensures Recoverable(flash.history[k], sectorAddr, SectorImage(before, sectorAddr),
                          SectorImage(staged, SCRATCH_ADDR))
    {
      if k < |stagedHistory| {
        assert flash.history[k] == stagedHistory[k];
        assert SameOutside(stagedHistory[k], before, SCRATCH_ADDR, SCRATCH_ADDR + SECTOR_SIZE);
        assert SectorImage(flash.history[k], sectorAddr) == SectorImage(before, sectorAddr);
      } else {
        assert SameOutside(flash.history[k], staged, sectorAddr, sectorAddr + SECTOR_SIZE);
        assert SectorImage(flash.history[k], SCRATCH_ADDR) == SectorImage(staged, SCRATCH_ADDR);
      }
    }
  }
}
