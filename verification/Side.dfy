/** One side of the radio: its VFO, the channels it visits, and the frequencies they put the radio on. */
module Side {
  import opened Bits
  import opened Bytes
  import opened Digits
  import opened FlashMap
  import opened Vfo

  function Min(a: int, b: int): int { if a < b then a else b }

  /** A frequency moved by a shift, within 32 bits. */
  function ShiftedTx(rx: u32, dir: byte, offset: u32): u32 {
    if dir == 1 then (if rx + offset < 0x1_0000_0000 then rx + offset else 0xFFFF_FFFF)
    else if dir == 2 then (if offset <= rx then rx - offset else 0)
    else rx
  }

  /** Receive and transmit frequency of the radio; reversing exchanges them. */
  function CfgFreqs(rx: u32, tx: u32, reversed: bool): (u32, u32) {
    if reversed then (tx, rx) else (rx, tx)
  }

  function ChannelTarget(ch: Channel): Option<nat> {
    if ch.dtmfGroup % 32 < CONTACT_COUNT then Some(ch.dtmfGroup % 32) else None
  }

  function ChannelSettings(table: seq<u16>, ch: Channel, dir: byte, offset: u32): SideSettings
    requires ch.WellFormed()
  {
    SideSettings(ChannelHz(ch.rxFreqBcd), dir, offset, ch.flags / 64 % 2 == 0, PowerFromRaw(ch.txPower),
           SubaudioFromCode(table, ch.txDcsCtsNum), SubaudioFromCode(table, ch.rxDcsCtsNum), ChannelTarget(ch))
  }

  /** Packed digits stand for less than 1.7 GHz, so the product by ten fits 32 bits. */
  function ChannelHz(bcd: seq<byte>): (hz: u32)
    requires |bcd| == 4
    ensures hz == Bcd4Value(bcd) * 10 && hz < 1_700_000_000
  {
    Bcd4Value(bcd) * 10
  }

  // ---- the settings of a side and what changes them -----------------------------

  /** `current` is what the VFO record would hold, `cfg` the frequency pair the radio is on. */
  datatype State = State(
    inVfo: bool, channelNum: u16, name: seq<byte>, current: SideSettings, txFreq: u32, reversed: bool,
    backup: SideSettings, cfg: (u32, u32))
  {
    function Refreshed(): State {
      var rx := current.rxFreq;
      this.(cfg := CfgFreqs(rx, if inVfo then ShiftedTx(rx, current.freqDir, current.offset) else txFreq, reversed))
    }

    /**
     * The radio is on the frequencies that the mode, the shift and the reverse switch ask for: one is the receive
     * frequency, and the other, in the VFO, is above it or below it by the offset, as far as 32 bits go.
     */
    predicate OnFrequency() {
      var (rx, other) := if reversed then (cfg.1, cfg.0) else cfg;
      && rx == current.rxFreq
      && if !inVfo then other == txFreq
         else if current.freqDir == 1 then (other as int) - rx == Min(current.offset, 0xFFFF_FFFF - rx)
         else if current.freqDir == 2 then (rx as int) - other == Min(current.offset, rx)
         else other == rx
    }

    /** Direction and offset: the VFO's own, or read off a channel's frequencies. */
    function Shift(): (byte, u32) {
      if inVfo then (current.freqDir, current.offset)
      else if txFreq == current.rxFreq then (0, 0)
      else if txFreq > current.rxFreq then (1, txFreq - current.rxFreq)
      else (2, current.rxFreq - txFreq)
    }
  }

  /** What the keys and the settings menu can do to a side, apart from leaving its mode. */
  datatype Change =
    | Load(num: u16, ch: Channel)
    | Reverse
    | CyclePower
    | FlipWidth
    | SetPower(power: Power)
    | SetWide(wide: bool)
    | SetTones(subTx: SubAudio, subRx: SubAudio)
    | SetTarget(target: Option<nat>)
    | SetDirection(dir: byte)
    | SetOffset(offset: u32)
  {
    predicate WellFormed() {
      Load? ==> ch.WellFormed()
    }
  }

  function NextPower(p: Power): Power {
    match p
    case High => Low
    case Low => Mid
    case Mid => High
  }

  function ChannelTaken(table: seq<u16>, s: State, num: u16, ch: Channel): State
    requires ch.WellFormed()
  {
    s.(inVfo := false, channelNum := num, name := ch.name, txFreq := ChannelHz(ch.txFreqBcd),
       current := ChannelSettings(table, ch, s.current.freqDir, s.current.offset))
  }

  /** A new shift: a channel keeps it in its transmit frequency alone. */
  function Shifted(s: State, dir: byte, offset: u32): State {
    if s.inVfo then s.(current := s.current.(freqDir := dir, offset := offset))
    else s.(txFreq := ShiftedTx(s.current.rxFreq, dir, offset))
  }

  function Edited(table: seq<u16>, s: State, c: Change): State
    requires c.WellFormed()
  {
    match c
    case Load(num, ch) => ChannelTaken(table, s, num, ch)
    case Reverse => s.(reversed := !s.reversed)
    case CyclePower => s.(current := s.current.(power := NextPower(s.current.power)))
    case FlipWidth => s.(current := s.current.(wide := !s.current.wide))
    case SetPower(p) => s.(current := s.current.(power := p))
    case SetWide(w) => s.(current := s.current.(wide := w))
    case SetTones(tx, rx) => s.(current := s.current.(subTx := tx, subRx := rx))
    case SetTarget(o) => s.(current := s.current.(target := o))
    case SetDirection(d) => Shifted(s, d, s.Shift().1)
    case SetOffset(o) => Shifted(s, s.Shift().0, o)
  }

  /** Every change ends with the radio on the frequencies that go with it. */
  function Changed(table: seq<u16>, s: State, c: Change): State
    requires c.WellFormed()
  {
    Edited(table, s, c).Refreshed()
  }

  /** The VFO record taken over, and remembered for the return from channel mode. */
  function VfoLoaded(table: seq<u16>, s: State, v: VfoMode): State {
    var t := Loaded(table, v);
    s.(inVfo := true, name := Repeat(0, 12), current := t, backup := t).Refreshed()
  }

  function Restored(s: State): State {
    s.(inVfo := true, name := Repeat(0, 12), current := s.backup).Refreshed()
  }

  /** The VFO/channel key, given the channel to go to, if any is programmed. */
  function Toggled(table: seq<u16>, s: State, found: Option<(u16, Channel)>): State
    requires found.Some? ==> found.value.1.WellFormed()
  {
    if !s.inVfo then Restored(s)
    else
      var t := s.(backup := s.current);
      match found
      case Some((num, ch)) => ChannelTaken(table, t, num, ch).Refreshed()
      case None => t
  }

  /** A search result goes to the VFO, from either mode. */
  function SearchSaved(s: State, freq: u32, tone: SubAudio): State {
    s.(inVfo := true, current := s.current.(rxFreq := freq, subTx := tone, subRx := tone)).Refreshed()
  }

  // ---- on frequency, whatever is done ---------------------------------------------

  lemma RefreshTunes(s: State)
    ensures s.Refreshed().OnFrequency() && s.Refreshed() == s.(cfg := s.Refreshed().cfg)
  {
  }

  /** The two frequencies are determined by the settings. */
  lemma OneFrequencyPair(s: State, t: State)
    requires s.OnFrequency() && t.OnFrequency()
    requires (s.inVfo, s.txFreq) == (t.inVfo, t.txFreq)
    requires (s.current.rxFreq, s.current.freqDir, s.current.offset) ==
             (t.current.rxFreq, t.current.freqDir, t.current.offset)
    ensures t.cfg == if t.reversed == s.reversed then s.cfg else (s.cfg.1, s.cfg.0)
  {
  }

  /** Everything that can happen to a side. */
  datatype Action =
    | Change(change: Change)
    | Toggle(found: Option<(u16, Channel)>)
    | SaveSearch(freq: u32, tone: SubAudio)
    | LoadRecord(record: VfoMode)
  {
    predicate WellFormed() {
      match this
      case Change(c) => c.WellFormed()
      case Toggle(found) => found.Some? ==> found.value.1.WellFormed()
      case _ => true
    }
  }

  function Done(table: seq<u16>, s: State, a: Action): State
    requires a.WellFormed()
  {
    match a
    case Change(c) => Changed(table, s, c)
    case Toggle(found) => Toggled(table, s, found)
    case SaveSearch(freq, tone) => SearchSaved(s, freq, tone)
    case LoadRecord(v) => VfoLoaded(table, s, v)
  }

  function After(table: seq<u16>, s: State, actions: seq<Action>): State
    requires forall a :: a in actions ==> a.WellFormed()
    decreases |actions|
  {
    if actions == [] then s else Done(table, After(table, s, actions[..|actions| - 1]), actions[|actions| - 1])
  }

  lemma ActionTunes(table: seq<u16>, s: State, a: Action)
    requires a.WellFormed() && s.OnFrequency()
    ensures Done(table, s, a).OnFrequency()
  {
    match a
    case Change(c) => RefreshTunes(Edited(table, s, c));
    case Toggle(found) =>
      if !s.inVfo {
        RefreshTunes(s.(inVfo := true, name := Repeat(0, 12), current := s.backup));
      } else if found.Some? {
        RefreshTunes(ChannelTaken(table, s.(backup := s.current), found.value.0, found.value.1));
      }
    case SaveSearch(freq, tone) =>
      RefreshTunes(s.(inVfo := true, current := s.current.(rxFreq := freq, subTx := tone, subRx := tone)));
    case LoadRecord(v) =>
      var t := Loaded(table, v);
      RefreshTunes(s.(inVfo := true, name := Repeat(0, 12), current := t, backup := t));
  }

  /** Over every run the radio is on the frequencies its settings ask for. */
  lemma {:induction false} AlwaysOnFrequency(table: seq<u16>, s: State, actions: seq<Action>)
    requires s.OnFrequency() && forall a :: a in actions ==> a.WellFormed()
    ensures After(table, s, actions).OnFrequency()
    decreases |actions|
  {
    if actions != [] {
      var init := actions[..|actions| - 1];
      AlwaysOnFrequency(table, s, init);
      ActionTunes(table, After(table, s, init), actions[|actions| - 1]);
    }
  }

  // ---- what a stored record sets up ------------------------------------------------

  /** Width, power, call target and tones as four stored bytes and two stored words ask for them. */
  ghost predicate SetUp(table: seq<u16>, t: SideSettings, group: byte, power: byte, flags: byte, rxTone: u16, txTone: u16) {
    && t.target == (if group % 32 < 20 then Some(group % 32) else None)
    && t.power == (if power == 1 then Mid else if power == 2 then Low else High)
    && t.wide == (flags / 64 % 2 == 0)
    && CodeStandsFor(table, rxTone, t.subRx) && CodeStandsFor(table, txTone, t.subTx)
  }

  function WordAt(b: seq<byte>, i: nat): u16
    requires i + 1 < |b|
  {
    (b[i + 1] as int) * 256 + b[i]
  }

  lemma ChannelSetUp(table: seq<u16>, ch: Channel, dir: byte, offset: u32)
    requires |table| == 105 && ch.WellFormed()
    ensures SetUp(table, ChannelSettings(table, ch, dir, offset), ch.dtmfGroup, ch.txPower, ch.flags,
                  ch.rxDcsCtsNum, ch.txDcsCtsNum)
  {
    CodeMeaning(table, ch.rxDcsCtsNum, SubaudioFromCode(table, ch.rxDcsCtsNum));
    CodeMeaning(table, ch.txDcsCtsNum, SubaudioFromCode(table, ch.txDcsCtsNum));
  }

  lemma ChannelBytes(b: seq<byte>)
    requires |b| == 32
    ensures var ch := Channel.FromBytes(b);
            && ch.rxFreqBcd == b[0..4] && ch.txFreqBcd == b[4..8] && ch.name == b[20..32]
            && ch.rxDcsCtsNum == WordAt(b, 8) && ch.txDcsCtsNum == WordAt(b, 10)
            && ch.dtmfGroup == b[12] && ch.pttId == b[13] && ch.txPower == b[14] && ch.flags == b[15]
            && ch.decoderCode == WordAt(b, 16) + 0x1_0000 * WordAt(b, 18)
  {
  }

  /** A side set up from a stored channel takes every setting from its own bytes, and is on its two frequencies. */
  lemma StoredChannelTaken(table: seq<u16>, s: State, num: u16, b: seq<byte>)
    requires |table| == 105 && |b| == 32
    ensures var t := Changed(table, s, Load(num, Channel.FromBytes(b)));
            var (rx, tx) := (Bcd4Value(b[0..4]) * 10, Bcd4Value(b[4..8]) * 10);
            && !t.inVfo && t.channelNum == num && t.name == b[20..32] && (t.current.rxFreq, t.txFreq) == (rx, tx)
            && t.cfg == (if s.reversed then (tx, rx) else (rx, tx))
            && SetUp(table, t.current, b[12], b[14], b[15], WordAt(b, 8), WordAt(b, 10))
            && (t.current.freqDir, t.current.offset) == (s.current.freqDir, s.current.offset)
  {
    var ch := Channel.FromBytes(b);
    ChannelBytes(b);
    ChannelSetUp(table, ch, s.current.freqDir, s.current.offset);
    ChannelTakenIs(table, s, num, ch);
  }

  lemma ChannelTakenIs(table: seq<u16>, s: State, num: u16, ch: Channel)
    requires ch.WellFormed()
    ensures var t := Changed(table, s, Load(num, ch));
            var (rx, tx) := (Bcd4Value(ch.rxFreqBcd) * 10, Bcd4Value(ch.txFreqBcd) * 10);
            && t.current == ChannelSettings(table, ch, s.current.freqDir, s.current.offset)
            && !t.inVfo && t.channelNum == num && t.name == ch.name && (t.current.rxFreq, t.txFreq) == (rx, tx)
            && t.cfg == (if s.reversed then (tx, rx) else (rx, tx))
            && (t.current.freqDir, t.current.offset) == (s.current.freqDir, s.current.offset)
  {
  }

  lemma VfoSetUp(table: seq<u16>, v: VfoMode)
    requires |table| == 105
    ensures SetUp(table, Loaded(table, v), v.dtmfGroup, v.txPower, v.vfoFlags, v.rxDcsCtsNum, v.txDcsCtsNum)
  {
    CodeMeaning(table, v.rxDcsCtsNum, SubaudioFromCode(table, v.rxDcsCtsNum));
    CodeMeaning(table, v.txDcsCtsNum, SubaudioFromCode(table, v.txDcsCtsNum));
  }

  lemma VfoBytes(b: seq<byte>)
    requires |b| == 32
    ensures var v := VfoMode.FromBytes(b);
            && v.freqDigits == b[0..8] && v.offsetDigits == b[20..27]
            && v.rxDcsCtsNum == WordAt(b, 8) && v.txDcsCtsNum == WordAt(b, 10)
            && v.dtmfGroup == b[14] && v.ani == b[15] && v.txPower == b[16] && v.vfoFlags == b[17] && v.step == b[19]
            && v.spMute == b[27] && v.decoderCode == WordAt(b, 28) + 0x1_0000 * WordAt(b, 30)
  {
  }

  /**
   * A side set up from a stored VFO record: its frequency is eight decimal digits in units of 10 Hz, its offset seven
   * in units of 100 Hz, and the radio is on the two frequencies they ask for.
   */
  lemma StoredVfoTaken(table: seq<u16>, s: State, b: seq<byte>)
    requires |table| == 105 && |b| == 32
    ensures var t := VfoLoaded(table, s, VfoMode.FromBytes(b));
            && t.inVfo && t.backup == t.current && t.OnFrequency()
            && t.current.rxFreq == Value(b[0..8]) * 10 % 0x1_0000_0000
            && t.current.offset == Value(b[20..27]) * 100 % 0x1_0000_0000
            && t.current.freqDir == b[14] / 32
            && SetUp(table, t.current, b[14], b[16], b[17], WordAt(b, 8), WordAt(b, 10))
  {
    var v := VfoMode.FromBytes(b);
    VfoBytes(b);
    VfoSetUp(table, v);
    var t := Loaded(table, v);
    RefreshTunes(s.(inVfo := true, name := Repeat(0, 12), current := t, backup := t));
  }

  // ---- visits to channel mode ----------------------------------------------------

  ghost predicate AllWellFormed(changes: seq<Change>) {
    forall c :: c in changes ==> c.WellFormed()
  }

  function Visited(table: seq<u16>, s: State, changes: seq<Change>): State
    requires AllWellFormed(changes)
    decreases |changes|
  {
    if changes == [] then s
    else Changed(table, Visited(table, s, changes[..|changes| - 1]), changes[|changes| - 1])
  }

  function Reversals(changes: seq<Change>): nat
    decreases |changes|
  {
    if changes == [] then 0
    else Reversals(changes[..|changes| - 1]) + if changes[|changes| - 1].Reverse? then 1 else 0
  }

  /** Still in channel mode, with the VFO of `s` backed up; `turned` tells whether the reverse switch has changed. */
  ghost predicate StillAway(s: State, t: State, turned: bool) {
    && !t.inVfo && t.backup == s.backup
    && t.current.freqDir == s.current.freqDir && t.current.offset == s.current.offset
    && t.reversed == (s.reversed != turned)
  }

  lemma EditStaysAway(table: seq<u16>, s: State, t: State, c: Change, turned: bool)
    requires StillAway(s, t, turned) && c.WellFormed()
    ensures StillAway(s, Edited(table, t, c), turned != c.Reverse?)
    ensures Edited(table, t, c).current.rxFreq == if c.Load? then ChannelHz(c.ch.rxFreqBcd) else t.current.rxFreq
  {
  }

  lemma ChangeStaysAway(table: seq<u16>, s: State, t: State, c: Change, turned: bool)
    requires StillAway(s, t, turned) && c.WellFormed()
    ensures StillAway(s, Changed(table, t, c), turned != c.Reverse?)
    ensures Changed(table, t, c).current.rxFreq == if c.Load? then ChannelHz(c.ch.rxFreqBcd) else t.current.rxFreq
  {
    EditStaysAway(table, s, t, c, turned);
  }

  lemma {:induction false} VisitKeepsBackup(table: seq<u16>, s: State, changes: seq<Change>)
    requires !s.inVfo && AllWellFormed(changes)
    ensures StillAway(s, Visited(table, s, changes), Reversals(changes) % 2 == 1)
    decreases |changes|
  {
    if changes != [] {
      var init, last := changes[..|changes| - 1], changes[|changes| - 1];
      assert last in changes;
      VisitKeepsBackup(table, s, init);
      ChangeStaysAway(table, s, Visited(table, s, init), last, Reversals(init) % 2 == 1);
      ParityTurns(Reversals(init), last.Reverse?);
    }
  }

  lemma ParityTurns(n: nat, one: bool)
    ensures ((n + if one then 1 else 0) % 2 == 1) == ((n % 2 == 1) != one)
  {
  }

  /**
   * Whatever is done in channel mode, the VFO/channel key brings back every setting the VFO was left with. The radio
   * is back on the same two frequencies, exchanged if the reverse switch was used an odd number of times meanwhile:
   * the switch is no setting of the VFO.
   */
  lemma VfoComesBack(table: seq<u16>, s: State, num: u16, ch: Channel, changes: seq<Change>, other: Option<(u16, Channel)>)
    requires s.inVfo && s.OnFrequency() && ch.WellFormed() && AllWellFormed(changes)
    requires other.Some? ==> other.value.1.WellFormed()
    ensures var back := Toggled(table, Visited(table, Toggled(table, s, Some((num, ch))), changes), other);
            && back.inVfo && back.current == s.current && back.OnFrequency()
            && back.cfg == (if Reversals(changes) % 2 == 0 then s.cfg else (s.cfg.1, s.cfg.0))
            && (back.cfg == s.cfg <==> Reversals(changes) % 2 == 0 || s.cfg.0 == s.cfg.1)
  {
    var away := Visited(table, Toggled(table, s, Some((num, ch))), changes);
    VisitKeepsBackup(table, Toggled(table, s, Some((num, ch))), changes);
    RefreshTunes(away.(inVfo := true, name := Repeat(0, 12), current := away.backup));
  }

  /** A search result saved from channel mode changes the VFO in nothing else exactly if the channel agrees with it. */
  lemma SearchTakesChannelAlong(table: seq<u16>, s: State, num: u16, ch: Channel, changes: seq<Change>, freq: u32, tone: SubAudio)
    requires s.inVfo && ch.WellFormed() && AllWellFormed(changes)
    ensures var away := Visited(table, Toggled(table, s, Some((num, ch))), changes);
            SearchSaved(away, freq, tone).current == s.current.(rxFreq := freq, subTx := tone, subRx := tone) <==>
              (away.current.wide, away.current.power, away.current.target) ==
              (s.current.wide, s.current.power, s.current.target)
  {
    VisitKeepsBackup(table, Toggled(table, s, Some((num, ch))), changes);
  }

  /** The channel a visit is on at its end. */
  function LastChannel(ch: Channel, changes: seq<Change>): Channel
    decreases |changes|
  {
    if changes == [] then ch
    else if changes[|changes| - 1].Load? then changes[|changes| - 1].ch
    else LastChannel(ch, changes[..|changes| - 1])
  }

  lemma {:induction false} VisitIsOnItsChannel(table: seq<u16>, s: State, ch: Channel, changes: seq<Change>)
    requires ch.WellFormed() && AllWellFormed(changes)
    requires !s.inVfo && s.current.rxFreq == ChannelHz(ch.rxFreqBcd)
    ensures var last := LastChannel(ch, changes);
            last.WellFormed() && Visited(table, s, changes).current.rxFreq == ChannelHz(last.rxFreqBcd)
    decreases |changes|
  {
    if changes != [] {
      var init := changes[..|changes| - 1];
      VisitKeepsBackup(table, s, init);
      VisitIsOnItsChannel(table, s, ch, init);
      ChangeStaysAway(table, s, Visited(table, s, init), changes[|changes| - 1], Reversals(init) % 2 == 1);
      assert changes[|changes| - 1] in changes;
    }
  }

  /** The VFO frequency after a restart when its record was saved in state `t`; an empty record leaves the initial one. */
  function FoundAfterRestart(table: seq<u16>, t: State, initial: u32): u32
    requires |table| == 105
  {
    var v := VfoMode.FromBytes(Saved(table, t.current));
    if v.FreqDeciHz() == 0 then initial else Loaded(table, v).rxFreq
  }

  function OrDefault(hz: u32, initial: u32): u32 {
    if hz == 0 then initial else hz
  }

  lemma SavedFrequency(table: seq<u16>, t: State, initial: u32)
    requires |table| == 105 && t.current.rxFreq % 10 == 0
    ensures FoundAfterRestart(table, t, initial) == OrDefault(t.current.rxFreq % 1_000_000_000, initial)
  {
    SavedDeciHz(table, t.current);
    TensModulo(t.current.rxFreq);
    SmallMod(t.current.rxFreq % 1_000_000_000, 0x1_0000_0000);
  }

  lemma SavedDeciHz(table: seq<u16>, t: SideSettings)
    requires |table| == 105
    ensures VfoMode.FromBytes(Saved(table, t)).FreqDeciHz() == t.rxFreq / 10 % 100_000_000
  {
    VfoFromTo(SavedRecord(table, t));
    SavedFields(table, t);
    Pow10Values();
    ValueOfSpell(t.rxFreq / 10, 8);
  }

  lemma TensModulo(x: u32)
    requires x % 10 == 0
    ensures x / 10 % 100_000_000 * 10 == x % 1_000_000_000
  {
  }

  /**
   * The VFO records are saved for both sides whenever the VFO of one of them changes, and a side in channel mode saves
   * what it is on. If the radio is switched off before that side is back on its VFO, the VFO is then found on the
   * channel's frequency: on its own again exactly when that is the same below 1 GHz.
   */
  lemma SavedDuringVisit(table: seq<u16>, s: State, num: u16, ch: Channel, changes: seq<Change>, initial: u32)
    requires |table| == 105 && s.inVfo && ch.WellFormed() && AllWellFormed(changes)
    ensures LastChannel(ch, changes).WellFormed()
    ensures FoundAfterRestart(table, Visited(table, Toggled(table, s, Some((num, ch))), changes), initial) ==
            OrDefault(ChannelHz(LastChannel(ch, changes).rxFreqBcd) % 1_000_000_000, initial)
    ensures FoundAfterRestart(table, Visited(table, Toggled(table, s, Some((num, ch))), changes), initial)
              == s.current.rxFreq <==>
            OrDefault(ChannelHz(LastChannel(ch, changes).rxFreqBcd) % 1_000_000_000, initial) == s.current.rxFreq
  {
    AwayOnChannel(table, s, num, ch, changes);
    FoundOnChannel(table, Visited(table, Toggled(table, s, Some((num, ch))), changes), LastChannel(ch, changes), initial);
  }

  lemma FoundOnChannel(table: seq<u16>, t: State, ch: Channel, initial: u32)
    requires |table| == 105 && ch.WellFormed() && t.current.rxFreq == ChannelHz(ch.rxFreqBcd)
    ensures FoundAfterRestart(table, t, initial) == OrDefault(ChannelHz(ch.rxFreqBcd) % 1_000_000_000, initial)
  {
    SavedFrequency(table, t, initial);
  }

  lemma AwayOnChannel(table: seq<u16>, s: State, num: u16, ch: Channel, changes: seq<Change>)
    requires s.inVfo && ch.WellFormed() && AllWellFormed(changes)
    ensures var last := LastChannel(ch, changes);
            && last.WellFormed()
            && Visited(table, Toggled(table, s, Some((num, ch))), changes).current.rxFreq == ChannelHz(last.rxFreqBcd)
  {
    VisitIsOnItsChannel(table, Toggled(table, s, Some((num, ch))), ch, changes);
  }

  /**
   * The shift of a channel is kept in its transmit frequency alone: a direction set in the menu is read back with the
   * old offset exactly when there is an offset and no limit is hit, or neither.
   */
  lemma ChannelDirectionKept(table: seq<u16>, s: State, dir: byte)
    requires !s.inVfo && dir <= 2
    ensures var (rx, offset) := (s.current.rxFreq, s.Shift().1);
            Changed(table, s, SetDirection(dir)).Shift() == (dir, offset) <==>
              if dir == 0 then offset == 0
              else offset > 0 && (if dir == 1 then rx < 0x1_0000_0000 - offset else offset <= rx)
  {
  }

  /** An offset set for a channel that has a direction is read back with it when it is not zero and hits no limit. */
  lemma ChannelOffsetKept(table: seq<u16>, s: State, offset: u32)
    requires !s.inVfo
    ensures var (rx, dir) := (s.current.rxFreq, s.Shift().0);
            Changed(table, s, SetOffset(offset)).Shift() == (dir, offset) <==>
              if dir == 0 then offset == 0
              else offset > 0 && (if dir == 1 then rx < 0x1_0000_0000 - offset else offset <= rx)
  {
  }

  /**
   * Power, width, tones and call target set one after the other are what the side then has, in either mode and on the
   * frequencies it was on; nothing else changes.
   */
  lemma MenuSets(table: seq<u16>, s: State, power: Power, wide: bool, tx: SubAudio, rx: SubAudio, target: Option<nat>)
    requires s.OnFrequency()
    ensures Visited(table, s, [SetPower(power), SetWide(wide), SetTones(tx, rx), SetTarget(target)]) ==
              s.(current := s.current.(power := power, wide := wide, subTx := tx, subRx := rx, target := target))
  {
    var t := s.(current := s.current.(power := power));
    var u := t.(current := t.current.(wide := wide));
    var v := u.(current := u.current.(subTx := tx, subRx := rx));
    var none: seq<Change> := [];
    var one := none + [SetPower(power)];
    var two := one + [SetWide(wide)];
    var three := two + [SetTones(tx, rx)];
    OneSetting(table, s, s, none, SetPower(power));
    OneSetting(table, s, t, one, SetWide(wide));
    OneSetting(table, s, u, two, SetTones(tx, rx));
    OneSetting(table, s, v, three, SetTarget(target));
    assert three + [SetTarget(target)] == [SetPower(power), SetWide(wide), SetTones(tx, rx), SetTarget(target)];
  }

  lemma OneSetting(table: seq<u16>, s: State, t: State, changes: seq<Change>, c: Change)
    requires AllWellFormed(changes) && Visited(table, s, changes) == t && t.OnFrequency()
    requires c.SetPower? || c.SetWide? || c.SetTones? || c.SetTarget?
    ensures AllWellFormed(changes + [c]) && Visited(table, s, changes + [c]) == Edited(table, t, c)
    ensures Edited(table, t, c).OnFrequency()
  {
    VisitedMore(table, s, changes, c);
    FrequencyStays(table, t, c);
  }

  lemma VisitedMore(table: seq<u16>, s: State, changes: seq<Change>, c: Change)
    requires AllWellFormed(changes) && c.WellFormed()
    ensures AllWellFormed(changes + [c])
    ensures Visited(table, s, changes + [c]) == Changed(table, Visited(table, s, changes), c)
  {
    assert (changes + [c])[..|changes|] == changes;
  }

  lemma FrequencyStays(table: seq<u16>, s: State, c: Change)
    requires s.OnFrequency() && (c.SetPower? || c.SetWide? || c.SetTones? || c.SetTarget?)
    ensures Changed(table, s, c) == Edited(table, s, c) && Edited(table, s, c).OnFrequency()
  {
    OneFrequencyPair(s, s.Refreshed());
  }

  /** The power key goes from high to low, to middle and back to high, and the width key back and forth. */
  lemma KeysCycle(table: seq<u16>, s: State)
    requires s.OnFrequency() && s.current.power == High
    ensures var (t, u) := (Changed(table, s, CyclePower), Changed(table, Changed(table, s, CyclePower), CyclePower));
            t.current.power == Low && u.current.power == Mid && Changed(table, u, CyclePower) == s
    ensures var t := Changed(table, s, FlipWidth); t.current.wide != s.current.wide && Changed(table, t, FlipWidth) == s
  {
    OneFrequencyPair(s, s.Refreshed());
  }

  /** Direction and offset set in the VFO are its own, touch nothing else, and move the transmit frequency at once. */
  lemma VfoShiftSet(table: seq<u16>, s: State, dir: byte, offset: u32)
    requires s.inVfo
    ensures var t := Changed(table, Changed(table, s, SetDirection(dir)), SetOffset(offset));
            && t == s.(current := s.current.(freqDir := dir, offset := offset), cfg := t.cfg)
            && t.OnFrequency() && t.Shift() == (dir, offset)
  {
    var u := Changed(table, s, SetDirection(dir));
    RefreshTunes(s.(current := s.current.(freqDir := dir)));
    RefreshTunes(u.(current := u.current.(offset := offset)));
  }

  class Side {
    const dcsTable: seq<u16>
    var inVfo: bool
    var channelNum: u16
    var rxFreq: u32
    var txFreq: u32
    var freqDir: byte
    var offset: u32
    var reversed: bool
    var target: Option<nat>
    var wide: bool
    var power: Power
    var subTx: SubAudio
    var subRx: SubAudio
    var cfgFreq: u32
    var cfgTxFreq: u32
    var name: seq<byte>
    var vfoBackup: SideSettings

    function Current(): SideSettings
      reads this
    {
      SideSettings(rxFreq, freqDir, offset, wide, power, subTx, subRx, target)
    }

    ghost function View(): State
      reads this
    {
      State(inVfo, channelNum, name, Current(), txFreq, reversed, vfoBackup, (cfgFreq, cfgTxFreq))
    }

    constructor (table: seq<u16>, rx: u32)
      ensures dcsTable == table && View().inVfo && View().OnFrequency() && Current() == vfoBackup && rxFreq == rx
    {
      dcsTable := table;
      inVfo, channelNum, rxFreq, txFreq, freqDir, offset, reversed := true, 0, rx, rx, 0, 0, false;
      target, wide, power, subTx, subRx := None, true, High, NoTone, NoTone;
      cfgFreq, cfgTxFreq, name := rx, rx, Repeat(0, 12);
      vfoBackup := SideSettings(rx, 0, 0, true, High, NoTone, NoTone, None);
    }

    method RefreshCfgFreqs()
      modifies `cfgFreq, `cfgTxFreq
      ensures View() == old(View()).Refreshed() && View().OnFrequency()
    {
      var tx := txFreq;
      if inVfo {
        if freqDir == 1 {
          tx := if rxFreq + offset < 0x1_0000_0000 then rxFreq + offset else 0xFFFF_FFFF;
        } else if freqDir == 2 {
          tx := if offset <= rxFreq then rxFreq - offset else 0;
        } else {
          tx := rxFreq;
        }
      }
      if reversed {
        cfgFreq, cfgTxFreq := tx, rxFreq;
      } else {
        cfgFreq, cfgTxFreq := rxFreq, tx;
      }
    }

    method LoadVfo(v: VfoMode)
      modifies this
      ensures View() == VfoLoaded(dcsTable, old(View()), v) && View().OnFrequency()
    {
      vfoBackup := Loaded(dcsTable, v);
      RestoreVfoFromBackup();
    }

    method RestoreVfoFromBackup()
      modifies this
      ensures View() == Restored(old(View())) && View().OnFrequency()
    {
      inVfo, name := true, Repeat(0, 12);
      TakeOver(vfoBackup);
      RefreshCfgFreqs();
    }

    method LoadChannel(num: u16, ch: Channel)
      requires ch.WellFormed()
      modifies this
      ensures View() == Changed(dcsTable, old(View()), Load(num, ch)) && View().OnFrequency()
    {
      inVfo, channelNum, name, txFreq := false, num, ch.name, ChannelHz(ch.txFreqBcd);
      TakeOver(ChannelSettings(dcsTable, ch, freqDir, offset));
      RefreshCfgFreqs();
    }

    method TakeOver(t: SideSettings)
      modifies `rxFreq, `freqDir, `offset, `wide, `power, `subTx, `subRx, `target
      ensures View() == old(View()).(current := t)
    {
      TakeTones(t);
      rxFreq, freqDir, offset, wide := t.rxFreq, t.freqDir, t.offset, t.wide;
    }

    method TakeTones(t: SideSettings)
      modifies `power, `subTx, `subRx, `target
      ensures View() == old(View()).(current :=
                          old(Current()).(power := t.power, subTx := t.subTx, subRx := t.subRx, target := t.target))
    {
      power, subTx, subRx, target := t.power, t.subTx, t.subRx, t.target;
    }

    method ToggleVfoChannel(found: Option<(u16, Channel)>)
      requires found.Some? ==> found.value.1.WellFormed()
      modifies this
      ensures View() == Toggled(dcsTable, old(View()), found)
      ensures old(View().OnFrequency()) ==> View().OnFrequency()
    {
      if inVfo {
        vfoBackup := Current();
        if found.Some? {
          LoadChannel(found.value.0, found.value.1);
        }
      } else {
        RestoreVfoFromBackup();
      }
    }

    method SaveSearchResult(freq: u32, tone: SubAudio)
      modifies this
      ensures View() == SearchSaved(old(View()), freq, tone) && View().OnFrequency()
    {
      inVfo, rxFreq, subRx, subTx := true, freq, tone, tone;
      assert View() == old(View()).(inVfo := true, current := Current());
      RefreshCfgFreqs();
    }

    method ToggleReverse()
      modifies this
      ensures View() == Changed(dcsTable, old(View()), Reverse) && View().OnFrequency()
    {
      reversed := !reversed;
      RefreshCfgFreqs();
    }

    method TogglePower()
      modifies this
      ensures View() == Changed(dcsTable, old(View()), CyclePower) && View().OnFrequency()
    {
      power := match power case High => Low case Low => Mid case Mid => High;
      RefreshCfgFreqs();
    }

    method ToggleWideNarrow()
      modifies this
      ensures View() == Changed(dcsTable, old(View()), FlipWidth) && View().OnFrequency()
    {
      wide := !wide;
      RefreshCfgFreqs();
    }

    /** The settings menu. */
    method ChangeSetting(c: Change)
      requires !(c.Load? || c.Reverse? || c.CyclePower? || c.FlipWidth?)
      modifies this
      ensures View() == Changed(dcsTable, old(View()), c) && View().OnFrequency()
    {
      match c {
        case SetPower(p) => power := p;
        case SetWide(w) => wide := w;
        case SetTones(tx, rx) => subTx, subRx := tx, rx;
        case SetTarget(t) => target := t;
        case SetDirection(d) => SetShift(d, ShiftDirOffset().1);
        case SetOffset(o) => SetShift(ShiftDirOffset().0, o);
      }
      assert View() == Edited(dcsTable, old(View()), c);
      RefreshCfgFreqs();
    }

    function ShiftDirOffset(): (byte, u32)
      reads this
    {
      if inVfo then (freqDir, offset)
      else if txFreq == rxFreq then (0, 0)
      else if txFreq > rxFreq then (1, txFreq - rxFreq)
      else (2, rxFreq - txFreq)
    }

    /** The VFO keeps a shift as it is, a channel in its transmit frequency. */
    method SetShift(dir: byte, off: u32)
      modifies `freqDir, `offset, `txFreq
      ensures if inVfo then txFreq == old(txFreq) && freqDir == dir && offset == off
              else freqDir == old(freqDir) && offset == old(offset) && txFreq == ShiftedTx(rxFreq, dir, off)
    {
      if inVfo {
        freqDir, offset := dir, off;
      } else {
        txFreq := ShiftedTx(rxFreq, dir, off);
      }
    }
  }
}
