/** The VFO record and the side of the radio saved in it. */
module Vfo {
  import opened Bits
  import opened Bytes
  import opened Digits
  import opened FlashMap

  const NO_TARGET: byte := 0x1F

  // ---- the record -------------------------------------------------------------

  datatype VfoMode = VfoMode(
    freqDigits: seq<byte>, rxDcsCtsNum: u16, txDcsCtsNum: u16, dtmfGroup: byte, ani: byte, txPower: byte,
    vfoFlags: byte, step: byte, offsetDigits: seq<byte>, spMute: byte, decoderCode: u32)
  {
    predicate WellFormed() { |freqDigits| == 8 && |offsetDigits| == 7 }

    static function FromBytes(b: seq<byte>): (v: VfoMode)
      requires |b| == VFO_SIZE
      ensures v.WellFormed()
    {
      VfoMode(b[0..8], U16At(b, 8), U16At(b, 10), b[14], b[15], b[16], b[17], b[19], b[20..27], b[27], U32At(b, 28))
    }

    /** Bytes 12, 13 and 18 belong to no field and are written as zero. */
    function ToBytes(): (b: seq<byte>)
      requires WellFormed()
      ensures |b| == VFO_SIZE
    {
      freqDigits + U16Bytes(rxDcsCtsNum) + U16Bytes(txDcsCtsNum) + [0, 0, dtmfGroup, ani, txPower, vfoFlags, 0, step]
      + offsetDigits + [spMute] + U32Bytes(decoderCode)
    }

    function FreqDeciHz(): nat { Value(freqDigits) }

    function WithFreq(deciHz: nat): VfoMode { this.(freqDigits := Spell(deciHz, 8)) }

    /** The stored offset has one digit less. */
    function OffsetDeciHz(): nat { Value(offsetDigits) * 10 }

    function WithOffset(deciHz: nat): VfoMode { this.(offsetDigits := Spell(deciHz / 10, 7)) }

    /** Direction and call target share a byte: the top three bits and the low five. */
    function FreqDir(): nat { dtmfGroup / 32 }

    function WithFreqDir(dir: nat): VfoMode { this.(dtmfGroup := dir * 32 % 256 + dtmfGroup % 32) }

    function AniTarget(): Option<nat> {
      if dtmfGroup % 32 < CONTACT_COUNT then Some(dtmfGroup % 32) else None
    }

    function WithAniTarget(target: Option<nat>): VfoMode {
      var idx := match target case None => NO_TARGET case Some(t) => if t < NO_TARGET then t else NO_TARGET;
      this.(dtmfGroup := dtmfGroup / 32 * 32 + idx)
    }

    function Narrow(): bool { vfoFlags / 64 % 2 == 1 }

    function WithNarrow(narrow: bool): VfoMode {
      this.(vfoFlags := vfoFlags - vfoFlags / 64 % 2 * 64 + if narrow then 64 else 0)
    }
  }

  /** Setting one part of a shared byte leaves the other alone. */
  lemma DirectionSet(v: VfoMode, dir: nat)
    ensures v.WithFreqDir(dir).FreqDir() == dir % 8
    ensures v.WithFreqDir(dir).AniTarget() == v.AniTarget()
  {
    var shifted := dir * 32 % 256;
    assert shifted == dir % 8 * 32;
  }

  lemma TargetSet(v: VfoMode, target: Option<nat>)
    ensures v.WithAniTarget(target).FreqDir() == v.FreqDir()
    ensures v.WithAniTarget(target).AniTarget() == if target.Some? && target.value < CONTACT_COUNT then target else None
  {
  }

  lemma NarrowSet(v: VfoMode, narrow: bool)
    ensures v.WithNarrow(narrow).Narrow() == narrow
    ensures v.WithNarrow(narrow).vfoFlags % 64 == v.vfoFlags % 64 && v.WithNarrow(narrow).vfoFlags / 128 == v.vfoFlags / 128
  {
  }

  lemma VfoFromTo(v: VfoMode)
    requires v.WellFormed()
    ensures VfoMode.FromBytes(v.ToBytes()) == v
  {
  }

  /** The layout keeps every record whose unused bytes are zero, and only those. */
  lemma VfoToFrom(b: seq<byte>)
    requires |b| == VFO_SIZE
    ensures VfoMode.FromBytes(b).ToBytes() == b <==> b[12] == 0 && b[13] == 0 && b[18] == 0
  {
    VfoStored(b);
    var c := VfoMode.FromBytes(b).ToBytes();
    if b[12] == 0 && b[13] == 0 && b[18] == 0 {
      forall i | 0 <= i < 32
        ensures c[i] == b[i]
      {
      }
    }
  }

  lemma VfoStored(b: seq<byte>)
    requires |b| == VFO_SIZE
    ensures var c := VfoMode.FromBytes(b).ToBytes();
            forall i :: 0 <= i < 32 ==> c[i] == if i == 12 || i == 13 || i == 18 then 0 else b[i]
  {
    U32BytesOf(b[28], b[29], b[30], b[31]);
    U16BytesOf(b[9], b[8]);
    U16BytesOf(b[11], b[10]);
    assert VfoMode.FromBytes(b).ToBytes() ==
           b[0..8] + [b[8], b[9]] + [b[10], b[11]] + [0, 0, b[14], b[15], b[16], b[17], 0, b[19]] + b[20..27]
           + [b[27]] + [b[28], b[29], b[30], b[31]];
  }

  // ---- tones and power --------------------------------------------------------

  datatype SubAudio = NoTone | Ctcss(tenths: u16) | Dcs(code: u16, inverted: bool)

  datatype SubaudioCode = NoCode | DcsNormal(i: u16) | DcsInverted(i: u16) | CtcssCode(tenths: u16)

  function Decode(raw: u16): SubaudioCode {
    if raw > 250 then CtcssCode(raw)
    else if raw >= 1 then (if raw <= 105 then DcsNormal(raw) else DcsInverted(raw))
    else NoCode
  }

  function DcsFromTableIndex(table: seq<u16>, i: nat, inverted: bool): SubAudio {
    if 1 <= i <= |table| then Dcs(table[i - 1], inverted) else NoTone
  }

  function SubaudioFromCode(table: seq<u16>, code: u16): SubAudio {
    match Decode(code)
    case NoCode => NoTone
    case CtcssCode(t) => Ctcss(t)
    case DcsNormal(i) => DcsFromTableIndex(table, i, false)
    case DcsInverted(i) => DcsFromTableIndex(table, i - 105, true)
  }

  /**
   * What a stored tone code stands for: 1 to 105 the codes of the table, 106 to 210 the same inverted, and from 251 on
   * a tone in tenths of Hz; 0 and the forty codes in between are no tone.
   */
  ghost predicate CodeStandsFor(table: seq<u16>, code: u16, sub: SubAudio) {
    match sub
    case NoTone => code == 0 || 211 <= code <= 250
    case Ctcss(t) => t == code && code >= 251
    case Dcs(d, false) => 1 <= code <= 105 && code <= |table| && d == table[code - 1]
    case Dcs(d, true) => 106 <= code <= 210 && code - 105 <= |table| && d == table[code - 106]
  }

  lemma CodeMeaning(table: seq<u16>, code: u16, sub: SubAudio)
    requires |table| == 105
    ensures SubaudioFromCode(table, code) == sub <==> CodeStandsFor(table, code, sub)
  {
  }

  /** Where a code first stands in the table. */
  function Position(table: seq<u16>, code: u16): (i: Option<nat>)
    ensures i == None <==> code !in table
    ensures i.Some? ==> i.value < |table| && table[i.value] == code && code !in table[..i.value]
    decreases |table|
  {
    if table == [] then None
    else if table[0] == code then Some(0)
    else
      match Position(table[1..], code)
      case None => None
      case Some(i) =>
        assert table[..i + 1] == [table[0]] + table[1..][..i];
        Some(i + 1)
  }

  function SubaudioToCode(table: seq<u16>, sub: SubAudio): u16
    requires |table| == 105
  {
    match sub
    case NoTone => 0
    case Ctcss(t) => t
    case Dcs(code, inverted) =>
      match Position(table, code)
      case None => 0
      case Some(i) => if inverted then i + 1 + 105 else i + 1
  }

  /** What the code can express: CTCSS values above 250 and the table's DCS codes. */
  predicate Expressible(table: seq<u16>, sub: SubAudio) {
    match sub
    case NoTone => true
    case Ctcss(t) => t > 250
    case Dcs(code, _) => code in table
  }

  /** A tone setting survives being stored as a code exactly when the code can express it. */
  lemma ToneKeptExactly(table: seq<u16>, sub: SubAudio)
    requires |table| == 105
    ensures SubaudioFromCode(table, SubaudioToCode(table, sub)) == sub <==> Expressible(table, sub)
  {
  }

  ghost predicate Distinct(table: seq<u16>) {
    forall i, j :: 0 <= i < j < |table| ==> table[i] != table[j]
  }

  /** A stored code survives being decoded exactly when it is none of the 40 that name no table entry. */
  lemma CodeKeptExactly(table: seq<u16>, code: u16)
    requires |table| == 105 && Distinct(table)
    ensures SubaudioToCode(table, SubaudioFromCode(table, code)) == code <==> !(210 < code <= 250)
  {
  }

  lemma OwnIndex(table: seq<u16>, i: nat)
    requires i < |table| && Distinct(table)
    ensures Position(table, table[i]) == Some(i)
  {
  }

  // ---- stepping through the tones ---------------------------------------------

  /** The tone at a position of the menu: off, the CTCSS tones, the DCS codes, the inverted ones. */
  function SubaudioFromIndex(ctcss: seq<u16>, dcs: seq<u16>, v: int): SubAudio
    requires |dcs| > 0
  {
    if v < 0 then NoTone
    else if v < |ctcss| then Ctcss(ctcss[v])
    else if v - |ctcss| < |dcs| then Dcs(dcs[v - |ctcss|], false)
    else Dcs(dcs[if v - |ctcss| - |dcs| < |dcs| then v - |ctcss| - |dcs| else |dcs| - 1], true)
  }

  function SubaudioIndex(ctcss: seq<u16>, dcs: seq<u16>, sub: SubAudio): int {
    match sub
    case NoTone => -1
    case Ctcss(t) => (match Position(ctcss, t) case None => -1 case Some(i) => i)
    case Dcs(code, inverted) =>
      match Position(dcs, code)
      case None => -1
      case Some(i) => |ctcss| + (if inverted then |dcs| else 0) + i
  }

  /** A menu position chosen in the channel editor and stored as a code is found again, so stepping never sticks. */
  lemma MenuPositionKept(ctcss: seq<u16>, dcs: seq<u16>, v: int)
    requires |dcs| == 105 && Distinct(dcs) && Distinct(ctcss) && forall t :: t in ctcss ==> t > 250
    requires -1 <= v < |ctcss| + 2 * |dcs|
    ensures var code := SubaudioToCode(dcs, SubaudioFromIndex(ctcss, dcs, v));
            SubaudioIndex(ctcss, dcs, SubaudioFromCode(dcs, code)) == v
  {
    var sub := SubaudioFromIndex(ctcss, dcs, v);
    ToneKeptExactly(dcs, sub);
    if 0 <= v < |ctcss| {
      assert ctcss[v] in ctcss;
      OwnIndex(ctcss, v);
    } else if |ctcss| <= v < |ctcss| + |dcs| {
      OwnIndex(dcs, v - |ctcss|);
    } else if v >= 0 {
      OwnIndex(dcs, v - |ctcss| - |dcs|);
    }
  }

  datatype Power = High | Mid | Low

  function PowerFromRaw(raw: byte): Power { if raw == 2 then Low else if raw == 1 then Mid else High }

  function PowerToRaw(p: Power): byte { match p case High => 0 case Mid => 1 case Low => 2 }

  // ---- saving and loading -----------------------------------------------------

  /** The settings of a side that its VFO record holds. */
  datatype SideSettings = SideSettings(
    rxFreq: u32, freqDir: byte, offset: u32, wide: bool, power: Power, subTx: SubAudio, subRx: SubAudio,
    target: Option<nat>)

  function Saved(table: seq<u16>, t: SideSettings): (b: seq<byte>)
    requires |table| == 105
    ensures |b| == VFO_SIZE
  {
    SavedRecord(table, t).ToBytes()
  }

  function SavedRecord(table: seq<u16>, t: SideSettings): (v: VfoMode)
    requires |table| == 105
    ensures v.WellFormed()
  {
    var tuned := VfoMode.FromBytes(Repeat(0, VFO_SIZE)).WithFreq(t.rxFreq / 10).WithOffset(t.offset / 10);
    var toned := tuned.WithNarrow(!t.wide).(txPower := PowerToRaw(t.power),
      rxDcsCtsNum := SubaudioToCode(table, t.subRx), txDcsCtsNum := SubaudioToCode(table, t.subTx));
    toned.WithFreqDir(t.freqDir).WithAniTarget(t.target)
  }

  /** Frequencies are carried in 32 bits, as the source's products are. */
  function Loaded(table: seq<u16>, v: VfoMode): SideSettings {
    SideSettings(v.FreqDeciHz() * 10 % 0x1_0000_0000, v.FreqDir(), v.OffsetDeciHz() * 10 % 0x1_0000_0000, !v.Narrow(),
           PowerFromRaw(v.txPower), SubaudioFromCode(table, v.txDcsCtsNum), SubaudioFromCode(table, v.rxDcsCtsNum),
           v.AniTarget())
  }

  lemma Pow10Values()
    ensures Pow10(7) == 10_000_000 && Pow10(8) == 100_000_000
  {
  }

  lemma FrequencyKept(x: u32)
    ensures Value(Spell(x / 10, 8)) * 10 % 0x1_0000_0000 == x <==> x % 10 == 0 && x < 1_000_000_000
  {
    Pow10Values();
    ValueOfSpell(x / 10, 8);
    ScaledKept(x, 10, 100_000_000, Value(Spell(x / 10, 8)));
  }

  lemma OffsetKept(x: u32)
    ensures Value(Spell(x / 10 / 10, 7)) * 10 * 10 % 0x1_0000_0000 == x <==> x % 100 == 0 && x < 1_000_000_000
  {
    Pow10Values();
    ValueOfSpell(x / 10 / 10, 7);
    assert x / 10 / 10 == x / 100;
    ScaledKept(x, 100, 10_000_000, Value(Spell(x / 10 / 10, 7)));
  }

  lemma ScaledKept(x: u32, unit: nat, limit: nat, v: nat)
    requires unit > 0 && unit * limit == 1_000_000_000 && limit > 0 && v == x / unit % limit
    ensures v * unit % 0x1_0000_0000 == x <==> x % unit == 0 && x < 1_000_000_000
  {
    var d := x / unit;
    assert x == unit * d + x % unit;
    assert v * unit < 1_000_000_000 by {
      MulMonotone(unit, v, limit - 1);
    }
    SmallMod(v * unit, 0x1_0000_0000);
    if d < limit {
      SmallMod(d, limit);
      MulMonotone(unit, d, limit - 1);
    } else {
      MulMonotone(unit, limit, d);
    }
    if v * unit == x {
      assert x == unit * v + 0;
      QuotientRemainder(x, unit, v, 0);
    }
  }

  lemma SavedFields(table: seq<u16>, t: SideSettings)
    requires |table| == 105
    ensures var v := SavedRecord(table, t);
            && v.freqDigits == Spell(t.rxFreq / 10, 8) && v.offsetDigits == Spell(t.offset / 10 / 10, 7)
            && v.txPower == PowerToRaw(t.power) && v.Narrow() == !t.wide
            && v.rxDcsCtsNum == SubaudioToCode(table, t.subRx) && v.txDcsCtsNum == SubaudioToCode(table, t.subTx)
            && v.FreqDir() == t.freqDir % 8
            && v.AniTarget() == if t.target.Some? && t.target.value < CONTACT_COUNT then t.target else None
  {
    var tuned := VfoMode.FromBytes(Repeat(0, VFO_SIZE)).WithFreq(t.rxFreq / 10).WithOffset(t.offset / 10);
    NarrowSet(tuned, !t.wide);
    var toned := tuned.WithNarrow(!t.wide).(txPower := PowerToRaw(t.power),
      rxDcsCtsNum := SubaudioToCode(table, t.subRx), txDcsCtsNum := SubaudioToCode(table, t.subTx));
    DirectionSet(toned, t.freqDir);
    TargetSet(toned.WithFreqDir(t.freqDir), t.target);
  }

  /**
   * Saving and loading a side restores all of it exactly when its frequency is a multiple of 10 Hz below 1 GHz, its
   * offset a multiple of 100 Hz below 1 GHz, its direction fits three bits, its target is in the contact table and
   * its tones have codes: direction and target do not disturb each other in the byte they share.
   */
  lemma RestoredExactly(table: seq<u16>, t: SideSettings)
    requires |table| == 105
    ensures Loaded(table, VfoMode.FromBytes(Saved(table, t))) == t <==>
              && t.rxFreq % 10 == 0 && t.rxFreq < 1_000_000_000
              && t.offset % 100 == 0 && t.offset < 1_000_000_000
              && t.freqDir < 8 && (t.target.Some? ==> t.target.value < CONTACT_COUNT)
              && Expressible(table, t.subTx) && Expressible(table, t.subRx)
  {
    VfoFromTo(SavedRecord(table, t));
    SavedFields(table, t);
    LoadedExactly(table, t, SavedRecord(table, t));
  }

  lemma LoadedExactly(table: seq<u16>, t: SideSettings, v: VfoMode)
    requires |table| == 105
    requires v.freqDigits == Spell(t.rxFreq / 10, 8) && v.offsetDigits == Spell(t.offset / 10 / 10, 7)
    requires v.txPower == PowerToRaw(t.power) && v.Narrow() == !t.wide
    requires v.rxDcsCtsNum == SubaudioToCode(table, t.subRx) && v.txDcsCtsNum == SubaudioToCode(table, t.subTx)
    requires v.FreqDir() == t.freqDir % 8
    requires v.AniTarget() == if t.target.Some? && t.target.value < CONTACT_COUNT then t.target else None
    ensures Loaded(table, v) == t <==>
              && t.rxFreq % 10 == 0 && t.rxFreq < 1_000_000_000
              && t.offset % 100 == 0 && t.offset < 1_000_000_000
              && t.freqDir < 8 && (t.target.Some? ==> t.target.value < CONTACT_COUNT)
              && Expressible(table, t.subTx) && Expressible(table, t.subRx)
  {
    var u := Loaded(table, v);
    assert u.rxFreq == t.rxFreq <==> t.rxFreq % 10 == 0 && t.rxFreq < 1_000_000_000 by { FrequencyKept(t.rxFreq); }
    assert u.offset == t.offset <==> t.offset % 100 == 0 && t.offset < 1_000_000_000 by { OffsetKept(t.offset); }
    assert u.subTx == t.subTx <==> Expressible(table, t.subTx) by { ToneKeptExactly(table, t.subTx); }
    assert u.subRx == t.subRx <==> Expressible(table, t.subRx) by { ToneKeptExactly(table, t.subRx); }
    assert u.freqDir == t.freqDir <==> t.freqDir < 8;
    assert u.power == t.power && u.wide == t.wide;
  }
}
