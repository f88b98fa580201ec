/** The CHIRP driver's view of a channel: what it writes for a memory, and what it shows of the bytes it reads. */
module Chirp {
  import opened Bytes
  import opened Digits
  import opened FlashMap
  import opened Vfo
  import opened Side

  // ---- the driver's layout ----------------------------------------------------------

  /** The widths of the driver's channel structure, in its order. */
  const CHANNEL_WIDTHS: seq<nat> := [4, 4, 2, 2, 1, 1, 1, 1, 4, 12]

  datatype Field = RxFreq | TxFreq | RxTone | TxTone | DtmfGroup | PttId | PowerLevel | Flags | DecoderCode | Name
  {
    function Index(): (i: nat)
      ensures i < |CHANNEL_WIDTHS|
    {
      match this
      case RxFreq => 0 case TxFreq => 1 case RxTone => 2 case TxTone => 3 case DtmfGroup => 4
      case PttId => 5 case PowerLevel => 6 case Flags => 7 case DecoderCode => 8 case Name => 9
    }

    /** Fields follow each other without gaps. */
    function At(): nat { WidthBefore(Index()) }
  }

  function WidthBefore(k: nat): nat
    requires k <= |CHANNEL_WIDTHS|
  {
    if k == 0 then 0 else WidthBefore(k - 1) + CHANNEL_WIDTHS[k - 1]
  }

  lemma FieldOffsets()
    ensures RxFreq.At() == 0 && TxFreq.At() == 4 && RxTone.At() == 8 && TxTone.At() == 10 && DtmfGroup.At() == 12
    ensures PttId.At() == 13 && PowerLevel.At() == 14 && Flags.At() == 15 && DecoderCode.At() == 16 && Name.At() == 20
  {
    assert WidthBefore(1) == 4 && WidthBefore(2) == 8 && WidthBefore(3) == 10 && WidthBefore(4) == 12;
    assert WidthBefore(5) == 13 && WidthBefore(6) == 14 && WidthBefore(7) == 15 && WidthBefore(8) == 16;
  }

  // ---- the driver's arithmetic --------------------------------------------------------

  /** `_decimal_to_bcd_byte`, before it is put into a byte. */
  function DecimalToBcd(v: int): int { v / 10 * 16 + v % 10 }

  function BcdToDecimal(b: byte): nat { b / 16 * 10 + b % 16 }

  /** `_deci_hz_to_bcd4`: there is no result if a value does not fit its byte. */
  function DeciHzToBcd4(deciHz: int): (b: Option<seq<byte>>)
    ensures b.Some? ==> |b.value| == 4
  {
    var top := DecimalToBcd(deciHz / 1_000_000);
    if 0 <= top < 0x100 then
      Some([DecimalToBcd(deciHz % 100), DecimalToBcd(deciHz / 100 % 100), DecimalToBcd(deciHz / 10_000 % 100), top])
    else None
  }

  function Bcd4ToDeciHz(b: seq<byte>): nat
    requires |b| == 4
  {
    BcdToDecimal(b[3]) * 1_000_000 + BcdToDecimal(b[2]) * 10_000 + BcdToDecimal(b[1]) * 100 + BcdToDecimal(b[0])
  }

  /** Two bytes, the low one first. */
  function LittleEndian(w: u16): seq<byte> { [w % 0x100, w / 0x100] }

  datatype Tone = Off | Ctcss(tenths: u16) | Dtcs(code: u16, reversed: bool)

  /** `_encode_tone`; a DTCS code that is not in the list raises an error. */
  function EncodeTone(codes: seq<u16>, tone: Tone): (raw: Option<u16>)
    requires |codes| == 105
  {
    match tone
    case Off => Some(0)
    case Ctcss(tenths) => Some(tenths)
    case Dtcs(code, reversed) =>
      match Position(codes, code)
      case None => None
      case Some(i) => Some(if reversed then i + 106 else i + 1)
  }

  /** `_decode_tone`; an index beyond the list raises an error. */
  function DecodeTone(codes: seq<u16>, raw: u16): Option<Tone> {
    if raw == 0 then Some(Off)
    else if raw > 250 then Some(Tone.Ctcss(raw))
    else
      var idx := if raw > 105 then raw - 106 else raw - 1;
      if idx < |codes| then Some(Dtcs(codes[idx], raw > 105)) else None
  }

  // ---- writing a memory -----------------------------------------------------------------

  datatype Duplex = Simplex | Plus | Minus

  datatype Memory = Memory(
    freq: nat, duplex: Duplex, offset: nat, name: seq<byte>, narrow: bool, power: Option<Power>, txTone: Tone, rxTone: Tone)
  {
    function TxHz(): int {
      match duplex case Simplex => freq case Plus => freq + offset case Minus => freq - offset
    }
  }

  function PowerByte(p: Option<Power>): byte {
    match p
    case None => 0
    case Some(High) => 0
    case Some(Mid) => 1
    case Some(Low) => 2
  }

  /** Filled up with zeros, and cut, to twelve characters. */
  function PaddedName(name: seq<byte>): (n: seq<byte>)
    ensures |n| == 12
  {
    if |name| >= 12 then name[..12] else name + Repeat(0, 12 - |name|)
  }

  function WithNarrow(flags: byte, narrow: bool): byte {
    flags - flags / 64 % 2 * 64 + if narrow then 64 else 0
  }

  /** `set_memory`: the fields the driver knows are written over the old bytes, at the offsets of its structure. */
  function SetMemory(codes: seq<u16>, old_: seq<byte>, mem: Memory): (b: Option<seq<byte>>)
    requires |codes| == 105 && |old_| == 32
    ensures b.Some? ==> |b.value| == 32
  {
    FieldOffsets();
    var rx, tx := DeciHzToBcd4(mem.freq / 10), DeciHzToBcd4(mem.TxHz() / 10);
    var rxTone, txTone := EncodeTone(codes, mem.rxTone), EncodeTone(codes, mem.txTone);
    if rx == None || tx == None || rxTone == None || txTone == None then None
    else
      var tuned := WithFreqs(old_, rx.value, tx.value);
      var named := WithSettings(tuned, PaddedName(mem.name), mem.narrow, PowerByte(mem.power));
      Some(WithTones(named, rxTone.value, txTone.value))
  }

  function WithFreqs(b: seq<byte>, rx: seq<byte>, tx: seq<byte>): (r: seq<byte>)
    requires |b| == 32 && |rx| == |tx| == 4
    ensures |r| == 32 && r[0..4] == rx && r[4..8] == tx && r[8..] == b[8..]
  {
    FieldOffsets();
    var first := Splice(b, RxFreq.At(), rx);
    assert first[0..4] == rx && first[8..] == b[8..];
    var r := Splice(first, TxFreq.At(), tx);
    assert r[0..4] == first[0..4] && r[4..8] == tx && r[8..] == first[8..];
    r
  }

  function WithSettings(b: seq<byte>, name: seq<byte>, narrow: bool, power: byte): (r: seq<byte>)
    requires |b| == 32 && |name| == 12
    ensures |r| == 32 && r[..14] == b[..14] && r[14] == power && r[15] == WithNarrow(b[15], narrow) && r[20..] == name
  {
    FieldOffsets();
    var named := Splice(b, Name.At(), name);
    assert named[..14] == b[..14] && named[20..] == name;
    var flagged := named[Flags.At() := WithNarrow(named[Flags.At()], narrow)];
    flagged[PowerLevel.At() := power]
  }

  function WithTones(b: seq<byte>, rxTone: u16, txTone: u16): (r: seq<byte>)
    requires |b| == 32
    ensures |r| == 32 && r[..8] == b[..8] && r[12..] == b[12..] && WordAt(r, 8) == rxTone && WordAt(r, 10) == txTone
  {
    FieldOffsets();
    var first := Splice(b, TxTone.At(), LittleEndian(txTone));
    assert first[..8] == b[..8] && first[12..] == b[12..];
    var r := Splice(first, RxTone.At(), LittleEndian(rxTone));
    assert r[..8] == first[..8] && r[12..] == first[12..];
    r
  }

  lemma BcdFits(x: int)
    ensures 0 <= DecimalToBcd(x / 1_000_000) < 0x100 <==> 0 <= x < 160_000_000
  {
  }

  /** The driver's packed digits are the firmware's, as long as it does not refuse the frequency. */
  lemma HostDigits(x: int)
    ensures DeciHzToBcd4(x).Some? <==> 0 <= x < 160_000_000
    ensures DeciHzToBcd4(x).Some? ==> DeciHzToBcd4(x).value == Bcd4(x) && Bcd4Value(Bcd4(x)) == x
  {
    BcdFits(x);
    if 0 <= x < 160_000_000 {
      SameBcd(x % 100);
      SameBcd(x / 100 % 100);
      SameBcd(x / 10_000 % 100);
      SameBcd(x / 1_000_000);
      Bcd4KeptExactly(x);
    }
  }

  lemma SameBcd(v: nat)
    requires v < 160
    ensures 0 <= DecimalToBcd(v) < 0x100 && DecimalToBcd(v) == ToBcd(v)
  {
  }

  /** A memory is refused exactly when one of its frequencies is negative or 1.6 GHz and more, or a code is not listed. */
  lemma RefusedExactly(codes: seq<u16>, old_: seq<byte>, mem: Memory)
    requires |codes| == 105 && |old_| == 32
    ensures SetMemory(codes, old_, mem) == None <==>
              || mem.freq >= 1_600_000_000 || !(0 <= mem.TxHz() < 1_600_000_000)
              || (mem.rxTone.Dtcs? && mem.rxTone.code !in codes) || (mem.txTone.Dtcs? && mem.txTone.code !in codes)
  {
    HostDigits(mem.freq / 10);
    HostDigits(mem.TxHz() / 10);
  }

  /** What the driver's bytes hold, field by field. */
  ghost predicate Holds(codes: seq<u16>, old_: seq<byte>, mem: Memory, b: seq<byte>)
    requires |codes| == 105 && |old_| == |b| == 32
  {
    && DeciHzToBcd4(mem.freq / 10) == Some(b[0..4]) && DeciHzToBcd4(mem.TxHz() / 10) == Some(b[4..8])
    && EncodeTone(codes, mem.rxTone) == Some(WordAt(b, 8)) && EncodeTone(codes, mem.txTone) == Some(WordAt(b, 10))
    && b[12] == old_[12] && b[14] == PowerByte(mem.power) && b[15] == WithNarrow(old_[15], mem.narrow)
    && b[20..32] == PaddedName(mem.name)
  }

  lemma WrittenFields(codes: seq<u16>, old_: seq<byte>, mem: Memory)
    requires |codes| == 105 && |old_| == 32 && SetMemory(codes, old_, mem).Some?
    ensures Holds(codes, old_, mem, SetMemory(codes, old_, mem).value)
  {
    Assembled(old_, DeciHzToBcd4(mem.freq / 10).value, DeciHzToBcd4(mem.TxHz() / 10).value, PaddedName(mem.name),
              mem.narrow, PowerByte(mem.power), EncodeTone(codes, mem.rxTone).value, EncodeTone(codes, mem.txTone).value);
  }

  lemma Assembled(old_: seq<byte>, rx: seq<byte>, tx: seq<byte>, name: seq<byte>, narrow: bool, power: byte,
                  rxTone: u16, txTone: u16)
    requires |old_| == 32 && |rx| == |tx| == 4 && |name| == 12
    ensures var b := WithTones(WithSettings(WithFreqs(old_, rx, tx), name, narrow, power), rxTone, txTone);
            && b[0..4] == rx && b[4..8] == tx && WordAt(b, 8) == rxTone && WordAt(b, 10) == txTone
            && b[12] == old_[12] && b[14] == power && b[15] == WithNarrow(old_[15], narrow) && b[20..32] == name
  {
    var tuned := WithFreqs(old_, rx, tx);
    var named := WithSettings(tuned, name, narrow, power);
    var b := WithTones(named, rxTone, txTone);
    assert b[0..4] == b[..8][0..4] == named[..14][0..4] == tuned[0..4];
    assert b[4..8] == b[..8][4..8] == named[..14][4..8] == tuned[4..8];
    assert b[12] == b[12..][0] == named[..14][12] == tuned[8..][4] == old_[12];
    assert b[14] == b[12..][2] && b[15] == b[12..][3] && tuned[15] == tuned[8..][7];
    assert b[20..32] == b[12..][8..] == named[20..];
  }

  /** A tone the driver means, as the radio has it. */
  function RadioTone(tone: Tone): SubAudio {
    match tone
    case Off => NoTone
    case Ctcss(tenths) => SubAudio.Ctcss(tenths)
    case Dtcs(code, reversed) => Dcs(code, reversed)
  }

  /** A tone the driver writes is the one the radio uses exactly when it is no CTCSS tone of 25.0 Hz or less. */
  lemma ToneArrivesExactly(codes: seq<u16>, tone: Tone, sub: SubAudio)
    requires |codes| == 105 && EncodeTone(codes, tone).Some?
    requires CodeStandsFor(codes, EncodeTone(codes, tone).value, sub)
    ensures sub == RadioTone(tone) <==> !(tone.Ctcss? && tone.tenths <= 250)
  {
  }

  /**
   * The radio on a channel that the driver has written: it receives and transmits on the memory's frequencies, cut to
   * 10 Hz, or the other way round when reversed, with the memory's name, width and power, the call target that was
   * there before, and the memory's tones unless they are CTCSS tones of 25.0 Hz or less.
   */
  lemma WrittenChannelTunes(codes: seq<u16>, s: State, num: u16, old_: seq<byte>, mem: Memory, b: seq<byte>)
    requires |codes| == 105 && |old_| == 32 && SetMemory(codes, old_, mem) == Some(b)
    ensures var t := Changed(codes, s, Load(num, Channel.FromBytes(b)));
            var (rx, tx) := (mem.freq / 10 * 10, mem.TxHz() / 10 * 10);
            && t.cfg == (if s.reversed then (tx, rx) else (rx, tx))
            && t.name == PaddedName(mem.name) && t.current.wide == !mem.narrow
            && t.current.power == (match mem.power case None => High case Some(p) => p)
            && t.current.target == (if old_[12] % 32 < 20 then Some(old_[12] % 32) else None)
            && (t.current.subRx == RadioTone(mem.rxTone) <==> !(mem.rxTone.Ctcss? && mem.rxTone.tenths <= 250))
            && (t.current.subTx == RadioTone(mem.txTone) <==> !(mem.txTone.Ctcss? && mem.txTone.tenths <= 250))
  {
    WrittenFields(codes, old_, mem);
    StoredChannelTaken(codes, s, num, b);
    HostDigits(mem.freq / 10);
    HostDigits(mem.TxHz() / 10);
    SettingsArrive(codes, old_, mem, b, Changed(codes, s, Load(num, Channel.FromBytes(b))).current);
  }

  lemma SettingsArrive(codes: seq<u16>, old_: seq<byte>, mem: Memory, b: seq<byte>, t: SideSettings)
    requires |codes| == 105 && |old_| == |b| == 32 && Holds(codes, old_, mem, b)
    requires SetUp(codes, t, b[12], b[14], b[15], WordAt(b, 8), WordAt(b, 10))
    ensures t.wide == !mem.narrow && t.power == (match mem.power case None => High case Some(p) => p)
    ensures t.target == (if old_[12] % 32 < 20 then Some(old_[12] % 32) else None)
    ensures t.subRx == RadioTone(mem.rxTone) <==> !(mem.rxTone.Ctcss? && mem.rxTone.tenths <= 250)
    ensures t.subTx == RadioTone(mem.txTone) <==> !(mem.txTone.Ctcss? && mem.txTone.tenths <= 250)
  {
    ToneArrivesExactly(codes, mem.rxTone, t.subRx);
    ToneArrivesExactly(codes, mem.txTone, t.subTx);
    NarrowBit(old_[15], mem.narrow);
  }

  lemma NarrowBit(flags: byte, narrow: bool)
    ensures WithNarrow(flags, narrow) / 64 % 2 == if narrow then 1 else 0
  {
  }

  // ---- showing a channel ------------------------------------------------------------------

  /** `get_memory` of bytes that are not all ones; `None` for a tone is a raised error. */
  datatype Shown = Empty | Shown(
    freq: nat, duplex: Duplex, offset: nat, narrow: bool, power: Power, txTone: Option<Tone>, rxTone: Option<Tone>)
  {
    function TxHz(): int
      requires Shown?
    {
      match duplex case Simplex => freq case Plus => freq + offset case Minus => freq - offset
    }
  }

  function GetMemory(codes: seq<u16>, b: seq<byte>): Shown
    requires |b| == 32
  {
    FieldOffsets();
    var rx, tx := Bcd4ToDeciHz(b[RxFreq.At()..RxFreq.At() + 4]) * 10, Bcd4ToDeciHz(b[TxFreq.At()..TxFreq.At() + 4]) * 10;
    if b == Repeat(0xFF, 32) || rx == 0 then Empty
    else ShowFields(codes, rx, tx, b[Flags.At()], b[PowerLevel.At()], WordAt(b, RxTone.At()), WordAt(b, TxTone.At()))
  }

  function ShowFields(codes: seq<u16>, rx: nat, tx: nat, flags: byte, power: byte, rxTone: u16, txTone: u16): Shown {
    var (duplex, offset) :=
      if tx == rx || tx == 0 then (Simplex, 0) else if tx > rx then (Plus, tx - rx) else (Minus, rx - tx);
    Shown(rx, duplex, offset, flags / 64 % 2 == 1, if power == 0 then High else if power == 1 then Mid else Low,
          DecodeTone(codes, txTone), DecodeTone(codes, rxTone))
  }

  lemma ShownFields(codes: seq<u16>, b: seq<byte>)
    requires |b| == 32 && GetMemory(codes, b).Shown?
    ensures GetMemory(codes, b) == ShowFields(codes, Bcd4Value(b[0..4]) * 10, Bcd4Value(b[4..8]) * 10, b[15], b[14],
                                              WordAt(b, 8), WordAt(b, 10))
  {
    FieldOffsets();
  }

  /** A tone is shown as the radio uses it, or not at all: for the forty codes that stand for none an error is raised. */
  lemma ToneShownExactly(codes: seq<u16>, raw: u16, sub: SubAudio)
    requires |codes| == 105 && CodeStandsFor(codes, raw, sub)
    ensures DecodeTone(codes, raw).Some? <==> !(211 <= raw <= 250)
    ensures DecodeTone(codes, raw).Some? ==> RadioTone(DecodeTone(codes, raw).value) == sub
  {
  }

  /** What is shown against what is used. */
  ghost predicate Agrees(shown: Shown, t: SideSettings, txFreq: nat, power: byte)
    requires shown.Shown?
  {
    && shown.freq == t.rxFreq && shown.narrow == !t.wide
    && (shown.TxHz() == txFreq <==> txFreq != 0)
    && (shown.power == t.power <==> power <= 2)
    && (shown.rxTone.Some? ==> RadioTone(shown.rxTone.value) == t.subRx)
    && (shown.txTone.Some? ==> RadioTone(shown.txTone.value) == t.subTx)
  }

  lemma FieldsAgree(codes: seq<u16>, t: SideSettings, txFreq: nat, group: byte, flags: byte, power: byte,
                    rxTone: u16, txTone: u16)
    requires |codes| == 105 && SetUp(codes, t, group, power, flags, rxTone, txTone) && t.rxFreq > 0
    ensures Agrees(ShowFields(codes, t.rxFreq, txFreq, flags, power, rxTone, txTone), t, txFreq, power)
  {
    ToneShownExactly(codes, rxTone, t.subRx);
    ToneShownExactly(codes, txTone, t.subTx);
  }

  /**
   * What the driver shows of a channel against what the radio does on it: the receive frequency and the width always
   * agree, the transmit frequency exactly when the stored one is not 0, which the driver shows as simplex, the power
   * exactly when the stored byte is 2 or less, above which the driver shows low and the radio uses high.
   */
  lemma ShownAsUsedExactly(codes: seq<u16>, s: State, num: u16, b: seq<byte>)
    requires |codes| == 105 && |b| == 32 && GetMemory(codes, b).Shown?
    ensures var t := Changed(codes, s, Load(num, Channel.FromBytes(b)));
            Agrees(GetMemory(codes, b), t.current, t.txFreq, b[14])
  {
    ShownFields(codes, b);
    StoredChannelTaken(codes, s, num, b);
    var t := Changed(codes, s, Load(num, Channel.FromBytes(b)));
    FieldOffsets();
    assert t.current.rxFreq > 0;
    FieldsAgree(codes, t.current, t.txFreq, b[12], b[15], b[14], WordAt(b, 8), WordAt(b, 10));
  }

  /** A memory that was accepted is shown again as it was entered, its frequencies cut to 10 Hz. */
  lemma WrittenIsShown(codes: seq<u16>, old_: seq<byte>, mem: Memory, b: seq<byte>)
    requires |codes| == 105 && |old_| == 32 && SetMemory(codes, old_, mem) == Some(b)
    requires mem.freq >= 10 && mem.TxHz() >= 10
    ensures var shown := GetMemory(codes, b);
            && shown.Shown? && shown.freq == mem.freq / 10 * 10 && shown.TxHz() == mem.TxHz() / 10 * 10
            && shown.narrow == mem.narrow && shown.power == (match mem.power case None => High case Some(p) => p)
  {
    WrittenFields(codes, old_, mem);
    HeldIsShown(codes, old_, mem, b);
  }

  lemma HeldIsShown(codes: seq<u16>, old_: seq<byte>, mem: Memory, b: seq<byte>)
    requires |codes| == 105 && |old_| == |b| == 32 && Holds(codes, old_, mem, b)
    requires mem.freq >= 10 && mem.TxHz() >= 10
    ensures var shown := GetMemory(codes, b);
            && shown.Shown? && shown.freq == mem.freq / 10 * 10 && shown.TxHz() == mem.TxHz() / 10 * 10
            && shown.narrow == mem.narrow && shown.power == (match mem.power case None => High case Some(p) => p)
  {
    var rx, tx := mem.freq / 10 * 10, mem.TxHz() / 10 * 10;
    assert Bcd4Value(b[0..4]) * 10 == rx && Bcd4Value(b[4..8]) * 10 == tx by {
      HostDigits(mem.freq / 10);
      HostDigits(mem.TxHz() / 10);
    }
    NotEmpty(codes, b, rx);
    ShownFields(codes, b);
    FieldsShown(codes, rx, tx, b[15], mem.power, WordAt(b, 8), WordAt(b, 10));
    NarrowBit(old_[15], mem.narrow);
  }

  lemma FieldsShown(codes: seq<u16>, rx: nat, tx: nat, flags: byte, power: Option<Power>, rxTone: u16, txTone: u16)
    requires rx > 0 && tx > 0
    ensures var shown := ShowFields(codes, rx, tx, flags, PowerByte(power), rxTone, txTone);
            && shown.freq == rx && shown.TxHz() == tx && shown.narrow == (flags / 64 % 2 == 1)
            && shown.power == match power case None => High case Some(p) => p
  {
  }

  lemma NotEmpty(codes: seq<u16>, b: seq<byte>, rx: nat)
    requires |b| == 32 && b[14] != 0xFF && Bcd4Value(b[0..4]) * 10 == rx > 0
    ensures GetMemory(codes, b).Shown?
  {
    FieldOffsets();
    assert Repeat(0xFF, 32)[14] == 0xFF;
  }
}
