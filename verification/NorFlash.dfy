/** The SPI NOR flash chip and the driver's page-splitting writes. */
module NorFlash {
  import opened Bytes
  import opened Bits

  const PAGE_SIZE: nat := 256
  const SECTOR_SIZE: nat := 4096
  const CHIP_SIZE: nat := 0x20_0000

  function Sector(addr: nat): nat { addr / SECTOR_SIZE }

  /** Erasing sets every bit of one sector. */
  function Erased(mem: seq<byte>, sector: nat): (m: seq<byte>)
    ensures |m| == |mem|
    ensures forall i :: 0 <= i < |m| ==> m[i] == if Sector(i) == sector then 0xFF else mem[i]
  {
    seq(|mem|, i requires 0 <= i < |mem| => if Sector(i) == sector then 0xFF else mem[i])
  }

  /** Programming can only clear bits: each byte becomes the AND of what was there and what is written. */
  function Programmed(mem: seq<byte>, addr: nat, data: seq<byte>): (m: seq<byte>)
    requires addr + |data| <= |mem|
    ensures |m| == |mem|
    ensures forall i :: 0 <= i < |m| ==>
                          m[i] == if addr <= i < addr + |data| then And(mem[i], data[i - addr]) else mem[i]
  {
    seq(|mem|, i requires 0 <= i < |mem| =>
      if addr <= i < addr + |data| then And(mem[i], data[i - addr]) else mem[i])
  }

  /** The chip's own page program: the address counter wraps inside the page. */
  function PageProgrammed(mem: seq<byte>, addr: nat, data: seq<byte>): (m: seq<byte>)
    requires addr < |mem| && |data| <= PAGE_SIZE
    ensures |m| == |mem|
  {
    seq(|mem|, i requires 0 <= i < |mem| =>
      if i / PAGE_SIZE == addr / PAGE_SIZE && (i - addr) % PAGE_SIZE < |data|
      then And(mem[i], data[(i - addr) % PAGE_SIZE]) else mem[i])
  }

  /** Inside one page the wrap never shows. */
  lemma NoWrap(mem: seq<byte>, addr: nat, data: seq<byte>)
    requires addr + |data| <= |mem| && addr < |mem|
    requires addr % PAGE_SIZE + |data| <= PAGE_SIZE
    ensures PageProgrammed(mem, addr, data) == Programmed(mem, addr, data)
  {
  }

  lemma ProgrammedInParts(mem: seq<byte>, addr: nat, a: seq<byte>, b: seq<byte>)
    requires addr + |a| + |b| <= |mem|
    ensures Programmed(Programmed(mem, addr, a), addr + |a|, b) == Programmed(mem, addr, a + b)
  {
  }

  /** Where the flash is erased, programming simply stores. */
  lemma ProgrammedOnErased(mem: seq<byte>, addr: nat, data: seq<byte>)
    requires addr + |data| <= |mem|
    requires forall i :: addr <= i < addr + |data| ==> mem[i] == 0xFF
    ensures Programmed(mem, addr, data) == Splice(mem, addr, data)
  {
    forall i | 0 <= i < |data|
      ensures And(mem[addr + i], data[i]) == data[i]
    {
      AndOnes(data[i]);
    }
  }

  /** Two images that agree outside `[lo, hi)`. */
  predicate SameOutside(m: seq<byte>, n: seq<byte>, lo: nat, hi: nat) {
    |m| == |n| && forall i :: 0 <= i < |m| && !(lo <= i < hi) ==> m[i] == n[i]
  }

  /** Every state recorded after the first `n` agrees with `base` outside `[lo, hi)`. */
  predicate ConfinedSince(history: seq<seq<byte>>, n: nat, base: seq<byte>, lo: nat, hi: nat) {
    forall k :: n <= k < |history| ==> SameOutside(history[k], base, lo, hi)
  }

  class NorFlash {
    var mem: seq<byte>
    /** The chip's content after each erase or program operation it carried out. */
    ghost var history: seq<seq<byte>>
    /** How many erase operations it carried out. */
    ghost var erases: nat

    ghost predicate Valid()
      reads this
    {
      |mem| == CHIP_SIZE
    }

    constructor (image: seq<byte>)
      requires |image| == CHIP_SIZE
      ensures Valid() && mem == image && history == []
    {
      mem, history, erases := image, [], 0;
    }

    method ReadBytes(addr: nat, buf: array<byte>)
      requires Valid() && addr + buf.Length <= CHIP_SIZE
      modifies buf
      ensures buf[..] == mem[addr..addr + buf.Length]
    {
      forall i | 0 <= i < buf.Length {
        buf[i] := mem[addr + i];
      }
    }

    /** One program operation, inside a single page. */
    method WritePage(addr: nat, data: seq<byte>)
      requires Valid() && addr + |data| <= CHIP_SIZE && addr < CHIP_SIZE
      requires addr % PAGE_SIZE + |data| <= PAGE_SIZE
      modifies this
      ensures Valid() && mem == Programmed(old(mem), addr, data)
      ensures history == old(history) + [mem] && erases == old(erases)
    {
      NoWrap(mem, addr, data);
      mem := PageProgrammed(mem, addr, data);
      history := history + [mem];
    }

    method WriteBytes(addr: nat, data: seq<byte>)
      requires Valid() && addr + |data| <= CHIP_SIZE
      modifies this
      ensures Valid() && mem == Programmed(old(mem), addr, data)
      ensures old(history) <= history && erases == old(erases)
      ensures ConfinedSince(history, |old(history)|, old(mem), addr, addr + |data|)
      ensures |data| <= PAGE_SIZE - addr % PAGE_SIZE && data != [] ==> history == old(history) + [mem]
    {
      var at, remaining := addr, data;
      while remaining != []
        invariant Valid() && addr <= at && at + |remaining| == addr + |data|
        invariant remaining == data[at - addr..]
        invariant mem == Programmed(old(mem), addr, data[..at - addr])
        invariant old(history) <= history && erases == old(erases)
        invariant ConfinedSince(history, |old(history)|, old(mem), addr, addr + |data|)
        invariant at == addr ==> history == old(history)
        invariant |data| <= PAGE_SIZE - addr % PAGE_SIZE && at != addr ==>
                    remaining == [] && history == old(history) + [mem]
        decreases |remaining|
      {
        var offsetInPage := at % PAGE_SIZE;
        var chunkLen := if PAGE_SIZE - offsetInPage < |remaining| then PAGE_SIZE - offsetInPage else |remaining|;
        var chunk, rest := remaining[..chunkLen], remaining[chunkLen..];
        ProgrammedInParts(old(mem), addr, data[..at - addr], chunk);
        assert data[..at - addr] + chunk == data[..at + chunkLen - addr];
        WritePage(at, chunk);
        at := at + chunkLen;
        remaining := rest;
      }
      assert data[..|data|] == data;
    }

    /** One erase operation: all ones in the sector around an address. */
    method EraseSector(addr: nat)
      requires Valid()
      modifies this
      ensures Valid() && mem == Erased(old(mem), Sector(addr))
      ensures history == old(history) + [mem] && erases == old(erases) + 1
    {
      mem := Erased(mem, Sector(addr));
      history, erases := history + [mem], erases + 1;
    }
  }
}
