/** The channel table in flash: reading it, replacing one record, and the CPS write session. */
module ChannelStore {
  import opened Bytes
  import opened Bits
  import opened NorFlash
  import opened SectorRewrite
  import opened FlashMap

  const CHAN_ADDR: nat := 0x0000
  /** Channel records fill eight sectors, up to the VFO record. */
  const CHAN_SLOTS: nat := 1024

  type Num = n: nat | n < CHAN_SLOTS

  function ChannelAddr(num: Num): nat { CHAN_ADDR + num * CHAN_SIZE }

  /** The table starts at address 0, with 32 bytes for each channel. */
  function SlotBytes(mem: seq<byte>, num: Num): (s: seq<byte>)
    requires |mem| == CHIP_SIZE
    ensures |s| == CHAN_SIZE
  {
    mem[32 * num..32 * num + 32]
  }

  predicate Blank(mem: seq<byte>, num: Num)
    requires |mem| == CHIP_SIZE
  {
    forall i :: 0 <= i < CHAN_SIZE ==> SlotBytes(mem, num)[i] == 0xFF
  }

  function ChannelSector(num: Num): nat { ChannelAddr(num) / SECTOR_SIZE }

  // ---- one write of a CPS session ----------------------------------------------

  /** The flash, and the sectors already erased since the session began (a bit mask in the firmware). */
  datatype Session = Session(mem: seq<byte>, erased: set<nat>)

  function WriteStep(s: Session, num: Num, record: seq<byte>): (t: Session)
    requires |s.mem| == CHIP_SIZE && |record| == CHAN_SIZE
    ensures |t.mem| == CHIP_SIZE
  {
    var sector := ChannelSector(num);
    var mem := if sector in s.erased then s.mem else Erased(s.mem, sector);
    Session(Programmed(mem, ChannelAddr(num), record), s.erased + {sector})
  }

  datatype Write = Write(num: Num, record: seq<byte>)

  predicate RecordsFit(ws: seq<Write>) {
    forall w :: w in ws ==> |w.record| == CHAN_SIZE
  }

  function RunSession(s: Session, ws: seq<Write>): (t: Session)
    requires |s.mem| == CHIP_SIZE && RecordsFit(ws)
    ensures |t.mem| == CHIP_SIZE
    decreases |ws|
  {
    if ws == [] then s
    else
      var last := ws[|ws| - 1];
      WriteStep(RunSession(s, ws[..|ws| - 1]), last.num, last.record)
  }

  // ---- what a session stores ------------------------------------------------------

  function AndBytes(a: seq<byte>, b: seq<byte>): (r: seq<byte>)
    requires |a| == |b|
    ensures |r| == |a| && forall i :: 0 <= i < |r| ==> r[i] == And(a[i], b[i])
  {
    seq(|a|, i requires 0 <= i < |a| => And(a[i], b[i]))
  }

  /** The bitwise AND of all records sent for `num`; all ones if there was none. */
  function AndOfSent(ws: seq<Write>, num: Num): (r: seq<byte>)
    requires RecordsFit(ws)
    ensures |r| == CHAN_SIZE
    decreases |ws|
  {
    if ws == [] then Repeat(0xFF, CHAN_SIZE)
    else
      var last, sent := ws[|ws| - 1], AndOfSent(ws[..|ws| - 1], num);
      if last.num == num then AndBytes(sent, last.record) else sent
  }

  predicate Touched(ws: seq<Write>, sector: nat) {
    exists w :: w in ws && ChannelSector(w.num) == sector
  }

  lemma SlotWithinSector(num: Num)
    ensures ChannelSector(num) * SECTOR_SIZE <= ChannelAddr(num)
    ensures ChannelAddr(num) + CHAN_SIZE <= ChannelSector(num) * SECTOR_SIZE + SECTOR_SIZE <= CHIP_SIZE
    ensures forall i :: ChannelAddr(num) <= i < ChannelAddr(num) + CHAN_SIZE ==> Sector(i) == ChannelSector(num)
  {
  }

  lemma OneWrite(s: Session, num: Num, record: seq<byte>, other: Num)
    requires |s.mem| == CHIP_SIZE && |record| == CHAN_SIZE
    ensures var base := if ChannelSector(num) in s.erased || ChannelSector(other) != ChannelSector(num)
                        then SlotBytes(s.mem, other) else Repeat(0xFF, CHAN_SIZE);
            SlotBytes(WriteStep(s, num, record).mem, other) == if other == num then AndBytes(base, record) else base
  {
    SlotWithinSector(num);
    SlotWithinSector(other);
    assert other != num ==> ChannelAddr(other) + CHAN_SIZE <= ChannelAddr(num)
                            || ChannelAddr(num) + CHAN_SIZE <= ChannelAddr(other);
  }

  /** The erased sectors of a session are the ones written to. */
  lemma {:induction false} SessionErasesTouched(mem: seq<byte>, ws: seq<Write>, sector: nat)
    requires |mem| == CHIP_SIZE && RecordsFit(ws)
    ensures sector in RunSession(Session(mem, {}), ws).erased <==> Touched(ws, sector)
    decreases |ws|
  {
    if ws != [] {
      var init, last := ws[..|ws| - 1], ws[|ws| - 1];
      assert ws == init + [last] && last in ws;
      SessionErasesTouched(mem, init, sector);
      TouchedOneMore(init, last, sector);
      ErasesOneMore(Session(mem, {}), init, last);
    }
  }

  lemma ErasesOneMore(s: Session, init: seq<Write>, last: Write)
    requires |s.mem| == CHIP_SIZE && RecordsFit(init) && RecordsFit(init + [last]) && |last.record| == CHAN_SIZE
    ensures RunSession(s, init + [last]).erased == RunSession(s, init).erased + {ChannelSector(last.num)}
  {
    RunOneMore(s, init, last);
  }

  /** What a session leaves in a slot, given the slot's content before it. */
  function Stored(ws: seq<Write>, num: Num, before: seq<byte>): seq<byte>
    requires RecordsFit(ws)
  {
    if Touched(ws, ChannelSector(num)) then AndOfSent(ws, num) else before
  }

  lemma StoredOneMore(init: seq<Write>, last: Write, num: Num, before: seq<byte>)
    requires RecordsFit(init + [last]) && RecordsFit(init) && |last.record| == |before| == CHAN_SIZE
    ensures var base := if Touched(init, ChannelSector(last.num)) || ChannelSector(num) != ChannelSector(last.num)
                        then Stored(init, num, before) else Repeat(0xFF, CHAN_SIZE);
            |base| == CHAN_SIZE
            && Stored(init + [last], num, before) == if num == last.num then AndBytes(base, last.record) else base
  {
    TouchedOneMore(init, last, ChannelSector(num));
    assert (init + [last])[..|init|] == init;
    if !Touched(init, ChannelSector(num)) {
      UntouchedSendsNothing(init, num);
    }
  }

  /**
   * After any writes since the session began: a slot in a sector that was written to holds the
   * AND of everything sent for it, and is blank if nothing was; a slot in any other sector
   * holds what it held before.
   */
  lemma {:induction false} SessionStores(mem: seq<byte>, ws: seq<Write>, num: Num)
    requires |mem| == CHIP_SIZE && RecordsFit(ws)
    ensures SlotBytes(RunSession(Session(mem, {}), ws).mem, num) == Stored(ws, num, SlotBytes(mem, num))
    decreases |ws|
  {
    if ws != [] {
      var init, last := ws[..|ws| - 1], ws[|ws| - 1];
      assert ws == init + [last] && last in ws;
      SessionStores(mem, init, num);
      OneMoreStored(mem, init, last, num);
    }
  }

  lemma OneMoreStored(mem: seq<byte>, init: seq<Write>, last: Write, num: Num)
    requires |mem| == CHIP_SIZE && RecordsFit(init) && |last.record| == CHAN_SIZE && RecordsFit(init + [last])
    requires SlotBytes(RunSession(Session(mem, {}), init).mem, num) == Stored(init, num, SlotBytes(mem, num))
    ensures SlotBytes(RunSession(Session(mem, {}), init + [last]).mem, num) ==
              Stored(init + [last], num, SlotBytes(mem, num))
  {
    SessionErasesTouched(mem, init, ChannelSector(last.num));
    SessionStep(RunSession(Session(mem, {}), init), init, last, num, SlotBytes(mem, num));
    RunOneMore(Session(mem, {}), init, last);
  }

  lemma RunOneMore(s: Session, init: seq<Write>, last: Write)
    requires |s.mem| == CHIP_SIZE && RecordsFit(init) && RecordsFit(init + [last]) && |last.record| == CHAN_SIZE
    ensures RunSession(s, init + [last]) == WriteStep(RunSession(s, init), last.num, last.record)
  {
    assert (init + [last])[..|init|] == init;
  }

  lemma SessionStep(s: Session, init: seq<Write>, last: Write, num: Num, before: seq<byte>)
    requires |s.mem| == CHIP_SIZE && RecordsFit(init + [last]) && RecordsFit(init) && |last.record| == |before| == CHAN_SIZE
    requires SlotBytes(s.mem, num) == Stored(init, num, before)
    requires ChannelSector(last.num) in s.erased <==> Touched(init, ChannelSector(last.num))
    ensures SlotBytes(WriteStep(s, last.num, last.record).mem, num) == Stored(init + [last], num, before)
  {
    OneWrite(s, last.num, last.record, num);
    StoredOneMore(init, last, num, before);
  }

  lemma TouchedOneMore(ws: seq<Write>, w: Write, sector: nat)
    ensures Touched(ws + [w], sector) <==> Touched(ws, sector) || ChannelSector(w.num) == sector
  {
  }

  lemma {:induction false} UntouchedSendsNothing(ws: seq<Write>, num: Num)
    requires RecordsFit(ws) && !Touched(ws, ChannelSector(num))
    ensures AndOfSent(ws, num) == Repeat(0xFF, CHAN_SIZE)
    decreases |ws|
  {
    if ws != [] {
      var init, last := ws[..|ws| - 1], ws[|ws| - 1];
      assert ws == init + [last];
      TouchedOneMore(init, last, ChannelSector(num));
      UntouchedSendsNothing(init, num);
    }
  }

  /** Sending the same record for a slot any number of times, at least once, stores that record. */
  lemma {:induction false} RetransmissionHarmless(ws: seq<Write>, num: Num, record: seq<byte>)
    requires RecordsFit(ws) && |record| == CHAN_SIZE
    requires forall w :: w in ws && w.num == num ==> w.record == record
    ensures AndOfSent(ws, num) == if exists w :: w in ws && w.num == num then record else Repeat(0xFF, CHAN_SIZE)
    decreases |ws|
  {
    if ws != [] {
      var init, last := ws[..|ws| - 1], ws[|ws| - 1];
      assert ws == init + [last];
      RetransmissionHarmless(init, num, record);
      if last.num == num {
        forall i | 0 <= i < CHAN_SIZE
          ensures And(0xFF, record[i]) == record[i] && And(record[i], record[i]) == record[i]
        {
          AndOnes(record[i]);
          AndSelf(record[i]);
        }
        assert last in ws;
      }
    }
  }

  /** Nothing outside the channel table changes in a session. */
  lemma {:induction false} SessionConfined(s: Session, ws: seq<Write>)
    requires |s.mem| == CHIP_SIZE && RecordsFit(ws)
    ensures SameOutside(RunSession(s, ws).mem, s.mem, CHAN_ADDR, CHAN_ADDR + CHAN_SLOTS * CHAN_SIZE)
    decreases |ws|
  {
    if ws != [] {
      var init, last := ws[..|ws| - 1], ws[|ws| - 1];
      SessionConfined(s, init);
      WriteConfined(RunSession(s, init), last.num, last.record);
    }
  }

  lemma WriteConfined(s: Session, num: Num, record: seq<byte>)
    requires |s.mem| == CHIP_SIZE && |record| == CHAN_SIZE
    ensures SameOutside(WriteStep(s, num, record).mem, s.mem, CHAN_ADDR, CHAN_ADDR + CHAN_SLOTS * CHAN_SIZE)
  {
  }

  // ---- the storage object -----------------------------------------------------------

  class Storage {
    const flash: NorFlash
    var channelErased: set<nat>

    ghost predicate Valid()
      reads this, flash
    {
      flash.Valid()
    }

    ghost function State(): Session
      reads this, flash
    {
      Session(flash.mem, channelErased)
    }

    constructor (flash: NorFlash)
      requires flash.Valid()
      ensures Valid() && this.flash == flash && channelErased == {}
    {
      this.flash := flash;
      channelErased := {};
    }

    method ReadChannel(num: Num) returns (c: Channel)
      requires Valid()
      ensures c == Channel.FromBytes(SlotBytes(flash.mem, num))
    {
      SlotWithinSector(num);
      var buf := new byte[CHAN_SIZE](_ => 0);
      flash.ReadBytes(ChannelAddr(num), buf);
      var record := buf[..];
      assert record == SlotBytes(flash.mem, num);
      c := Channel.FromBytes(record);
    }

    method IsChannelEmpty(num: Num) returns (empty: bool)
      requires Valid()
      ensures empty <==> Blank(flash.mem, num)
    {
      SlotWithinSector(num);
      var buf := new byte[CHAN_SIZE](_ => 0);
      flash.ReadBytes(ChannelAddr(num), buf);
      assert forall i :: 0 <= i < CHAN_SIZE ==> buf[i] == SlotBytes(flash.mem, num)[i];
      empty := forall i :: 0 <= i < CHAN_SIZE ==> buf[i] == 0xFF;
    }

    /** Begins a write session: no sector counts as erased any more. */
    method ResetChannelWriteSession()
      requires Valid()
      modifies this
      ensures Valid() && State() == Session(old(flash.mem), {})
    {
      channelErased := {};
    }

    method WriteChannel(num: Num, channel: Channel)
      requires Valid() && channel.WellFormed()
      modifies this, flash
      ensures Valid() && State() == WriteStep(old(State()), num, channel.ToBytes())
    {
      SlotWithinSector(num);
      var addr := ChannelAddr(num);
      var sector := addr / SECTOR_SIZE;
      assert sector * SECTOR_SIZE / SECTOR_SIZE == sector;
      if sector !in channelErased {
        flash.EraseSector(sector * SECTOR_SIZE);
        channelErased := channelErased + {sector};
      }
      flash.WriteBytes(addr, channel.ToBytes());
      assert channelErased == old(channelErased) + {sector};
    }

    /** The CPS handler: misaligned addresses and wrong lengths are refused and change nothing. */
    method HandleWriteChannel(logical: nat, data: seq<byte>) returns (ok: bool)
      requires Valid() && logical < CHAN_SLOTS * CHAN_SIZE
      modifies this, flash
      ensures Valid()
      ensures ok <==> logical % 32 == 0 && |data| == 32
      ensures State() == if ok then WriteStep(old(State()), logical / 32, data) else old(State())
    {
      if logical % CHAN_SIZE != 0 || |data| != CHAN_SIZE {
        return false;
      }
      ChannelToFrom(data);
      WriteChannel(logical / CHAN_SIZE, Channel.FromBytes(data));
      ok := true;
    }

    method HandleReadChannel(logical: nat) returns (data: Option<seq<byte>>)
      requires Valid() && logical < CHAN_SLOTS * CHAN_SIZE
      ensures data == if logical % 32 == 0 then Some(flash.mem[logical..logical + 32]) else None
    {
      if logical % CHAN_SIZE != 0 {
        return None;
      }
      var c := ReadChannel(logical / CHAN_SIZE);
      ChannelToFrom(SlotBytes(flash.mem, logical / CHAN_SIZE));
      data := Some(c.ToBytes());
    }

    /** Single-channel save: the record is replaced and every other channel keeps its bytes. */
    method WriteChannelRmw(num: Num, channel: Channel)
      requires Valid() && channel.WellFormed()
      modifies flash
      ensures Valid()
      ensures forall n: Num :: SlotBytes(flash.mem, n)
                            == if n == num then channel.ToBytes() else SlotBytes(old(flash.mem), n)
    {
      ghost var before := flash.mem;
      SlotWithinSector(num);
      RewriteRecord(flash, ChannelAddr(num), channel.ToBytes());
      forall n: Num
        ensures SlotBytes(flash.mem, n) == if n == num then channel.ToBytes() else SlotBytes(before, n)
      {
        SlotAfterRewrite(before, flash.mem, num, channel.ToBytes(), n);
      }
    }
  }

  lemma SlotAfterRewrite(before: seq<byte>, after: seq<byte>, num: Num, record: seq<byte>, n: Num)
    requires |before| == |after| == CHIP_SIZE && |record| == CHAN_SIZE
    requires var base := SectorBase(ChannelAddr(num));
             && base + SECTOR_SIZE <= CHIP_SIZE
             && SectorImage(after, base) == Patched(SectorImage(before, base), ChannelAddr(num) - base, record)
             && forall i :: 0 <= i < CHIP_SIZE && Sector(i) != Sector(base) && Sector(i) != Sector(SCRATCH_ADDR)
                  ==> after[i] == before[i]
    ensures SlotBytes(after, n) == if n == num then record else SlotBytes(before, n)
  {
    SlotWithinSector(num);
    SlotWithinSector(n);
    var base := SectorBase(ChannelAddr(num));
    var a := ChannelAddr(n);
    assert n != num ==> a + CHAN_SIZE <= ChannelAddr(num) || ChannelAddr(num) + CHAN_SIZE <= a;
    assert base == ChannelSector(num) * SECTOR_SIZE;
    if ChannelSector(n) == ChannelSector(num) {
      forall i | 0 <= i < CHAN_SIZE
        ensures SlotBytes(after, n)[i] == if n == num then record[i] else SlotBytes(before, n)[i]
      {
        assert after[a + i] == SectorImage(after, base)[a + i - base];
        assert before[a + i] == SectorImage(before, base)[a + i - base];
      }
    } else {
      assert forall i :: a <= i < a + CHAN_SIZE ==> after[i] == before[i];
    }
  }

  /** Saving an all-ones record is deleting: the channel then counts as empty. */
  lemma SavingOnesDeletes(mem: seq<byte>, num: Num)
    requires |mem| == CHIP_SIZE
    requires SlotBytes(mem, num) == Channel.FromBytes(Repeat(0xFF, CHAN_SIZE)).ToBytes()
    ensures Blank(mem, num)
  {
  }
}
