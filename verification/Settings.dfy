/** The settings record: what its 212 bytes mean, and the five windows the programming protocol shows of it. */
module Settings {
  import opened Bytes
  import opened FlashMap

  const SETTINGS_BYTES: nat := 212
  const COORD_NOT_SET: int := 0x7FFF_FFFF

  function Min(b: byte, most: byte): byte { if b < most then b else most }

  function FromBool(flag: bool): byte { if flag then 1 else 0 }

  /** A byte read as a signed number, and back. */
  function Signed(b: byte): int { if b < 0x80 then b else b - 0x100 }

  function Unsigned(x: int): byte { x % 0x100 }

  function SignedWord(w: u32): int { if w < 0x8000_0000 then w else w - 0x1_0000_0000 }

  function UnsignedWord(x: int): u32 { x % 0x1_0000_0000 }

  // ---- the radio settings, bytes 0 to 27 --------------------------------------

  datatype Radio = Radio(
    sqlLevel: byte, tailElimination: bool, busyLock: bool, txForbid: bool, keyAutoLock: byte, dualStandby: bool,
    voxSwitch: bool, voxLevel: byte, totLevel: byte, beepsSwitch: bool, rogerTone: byte, scrambleLevel: byte,
    contrast: byte, rtone: byte, scanMode: byte, ritOffset: int, saveLevel: byte, backlightTime: byte,
    channelDisplayMode: byte, side1Short: byte, side1Long: byte, side2Short: byte, side2Long: byte, bandShort: byte,
    bandLong: byte, aniTx: bool, rptrl: byte, voxDelay: byte)
  {
    static function FromBytes(b: seq<byte>): Radio
      requires |b| == 28
    {
      Radio(b[0], b[1] != 0, b[2] != 0, b[3] != 0, Min(b[4], 3), b[5] != 0,
            b[6] != 0, if b[7] < 1 then 1 else Min(b[7], 9), b[8], b[9] != 0, Min(b[10], 2), b[11],
            Min(b[12], 4), Min(b[13], 3), Min(b[14], 2), if Signed(b[15]) < -127 then -127 else Signed(b[15]),
            Min(b[16], 4), Min(b[17], 4),
            Min(b[18], 2), Min(b[19], 11), Min(b[20], 11), Min(b[21], 11), Min(b[22], 11), Min(b[23], 11),
            Min(b[24], 11), b[25] != 0, Min(b[26], 10), Min(b[27], 15))
    }

    function ToBytes(): (b: seq<byte>)
      ensures |b| == 28
    {
      [sqlLevel, FromBool(tailElimination), FromBool(busyLock), FromBool(txForbid), keyAutoLock, FromBool(dualStandby),
       FromBool(voxSwitch), voxLevel, totLevel, FromBool(beepsSwitch), rogerTone, scrambleLevel,
       contrast, rtone, scanMode, Unsigned(ritOffset), saveLevel, backlightTime,
       channelDisplayMode, side1Short, side1Long, side2Short, side2Long, bandShort,
       bandLong, FromBool(aniTx), rptrl, voxDelay]
    }

    /** The values reading can produce. */
    predicate InRange() {
      && keyAutoLock <= 3 && 1 <= voxLevel <= 9 && rogerTone <= 2 && contrast <= 4 && rtone <= 3 && scanMode <= 2
      && -127 <= ritOffset <= 127 && saveLevel <= 4 && backlightTime <= 4 && channelDisplayMode <= 2
      && side1Short <= 11 && side1Long <= 11 && side2Short <= 11 && side2Long <= 11 && bandShort <= 11 && bandLong <= 11
      && rptrl <= 10 && voxDelay <= 15
    }
  }

  lemma RadioInRange(b: seq<byte>)
    requires |b| == 28
    ensures Radio.FromBytes(b).InRange()
  {
  }

  lemma RadioRoundTrip(r: Radio)
    requires r.InRange()
    ensures Radio.FromBytes(r.ToBytes()) == r
  {
  }

  /** Every field has a byte of its own, in the order of the programming software's structure: the switches first. */
  lemma RadioSwitches(r: Radio)
    ensures var b := r.ToBytes();
            && b[0] == r.sqlLevel && b[1] == FromBool(r.tailElimination) && b[2] == FromBool(r.busyLock)
            && b[3] == FromBool(r.txForbid) && b[4] == r.keyAutoLock && b[5] == FromBool(r.dualStandby)
            && b[6] == FromBool(r.voxSwitch)
  {
  }

  lemma RadioLevels(r: Radio)
    ensures var b := r.ToBytes();
            && b[7] == r.voxLevel && b[8] == r.totLevel && b[9] == FromBool(r.beepsSwitch)
            && b[10] == r.rogerTone && b[11] == r.scrambleLevel && b[12] == r.contrast && b[13] == r.rtone
  {
  }

  lemma RadioModes(r: Radio)
    ensures var b := r.ToBytes();
            && b[14] == r.scanMode && b[15] == Unsigned(r.ritOffset) && b[16] == r.saveLevel && b[17] == r.backlightTime
            && b[18] == r.channelDisplayMode && b[19] == r.side1Short && b[20] == r.side1Long
  {
  }

  lemma RadioKeys(r: Radio)
    ensures var b := r.ToBytes();
            && b[21] == r.side2Short && b[22] == r.side2Long && b[23] == r.bandShort
            && b[24] == r.bandLong && b[25] == FromBool(r.aniTx) && b[26] == r.rptrl && b[27] == r.voxDelay
  {
  }

  /** The highest value of a byte; the squelch, time-out and scrambler levels are not limited. */
  function Highest(i: nat): byte {
    if i in {0, 8, 11} then 255
    else if i in {1, 2, 3, 5, 6, 9, 25} then 1
    else if i in {10, 14, 18} then 2
    else if i in {4, 13} then 3
    else if i in {12, 16, 17} then 4
    else if i == 7 then 9
    else if i == 26 then 10
    else if i == 27 then 15
    else 11
  }

  function Lowest(i: nat): byte { if i == 7 then 1 else 0 }

  /** Reading and writing moves every byte to the nearest value in its range; byte 15 is signed, from -127 on. */
  lemma NearestInRange(b: seq<byte>, i: nat)
    requires |b| == 28 && i < 28
    ensures i != 15 ==> Radio.FromBytes(b).ToBytes()[i] == Nearest(b[i], Lowest(i), Highest(i))
    ensures i == 15 ==> Radio.FromBytes(b).ToBytes()[i] == if Signed(b[i]) < -127 then Unsigned(-127) else b[i]
  {
    if i < 7 {
      NearestLow(b, i);
    } else if i < 14 {
      NearestMiddle(b, i);
    } else {
      NearestHigh(b, i);
    }
  }

  function Nearest(v: byte, least: byte, most: byte): byte {
    if v < least then least else if v > most then most else v
  }

  lemma NearestLow(b: seq<byte>, i: nat)
    requires |b| == 28 && i < 7
    ensures Radio.FromBytes(b).ToBytes()[i] == Nearest(b[i], Lowest(i), Highest(i))
  {
  }

  lemma NearestMiddle(b: seq<byte>, i: nat)
    requires |b| == 28 && 7 <= i < 14
    ensures Radio.FromBytes(b).ToBytes()[i] == Nearest(b[i], Lowest(i), Highest(i))
  {
  }

  lemma NearestHigh(b: seq<byte>, i: nat)
    requires |b| == 28 && 14 <= i < 28
    ensures i != 15 ==> Radio.FromBytes(b).ToBytes()[i] == Nearest(b[i], Lowest(i), Highest(i))
    ensures i == 15 ==> Radio.FromBytes(b).ToBytes()[i] == if Signed(b[i]) < -127 then Unsigned(-127) else b[i]
  {
  }

  predicate LowInRange(b: seq<byte>)
    requires |b| == 28
  {
    b[1] <= 1 && b[2] <= 1 && b[3] <= 1 && b[4] <= 3 && b[5] <= 1 && b[6] <= 1
  }

  predicate MiddleInRange(b: seq<byte>)
    requires |b| == 28
  {
    1 <= b[7] <= 9 && b[9] <= 1 && b[10] <= 2 && b[12] <= 4 && b[13] <= 3
  }

  predicate HighInRange(b: seq<byte>)
    requires |b| == 28
  {
    && b[14] <= 2 && b[15] != 0x80 && b[16] <= 4 && b[17] <= 4 && b[18] <= 2 && b[19] <= 11 && b[20] <= 11 && b[21] <= 11
    && b[22] <= 11 && b[23] <= 11 && b[24] <= 11 && b[25] <= 1 && b[26] <= 10 && b[27] <= 15
  }

  lemma LowKept(b: seq<byte>)
    requires |b| == 28
    ensures (forall i :: 0 <= i < 7 ==> Radio.FromBytes(b).ToBytes()[i] == b[i]) <==> LowInRange(b)
  {
  }

  lemma MiddleKept(b: seq<byte>)
    requires |b| == 28
    ensures (forall i :: 7 <= i < 14 ==> Radio.FromBytes(b).ToBytes()[i] == b[i]) <==> MiddleInRange(b)
  {
  }

  lemma HighKept(b: seq<byte>)
    requires |b| == 28
    ensures (forall i :: 14 <= i < 28 ==> Radio.FromBytes(b).ToBytes()[i] == b[i]) <==> HighInRange(b)
  {
    assert Radio.FromBytes(b).ToBytes()[15] == if b[15] == 0x80 then 0x81 else b[15];
  }

  /** Reading and writing back keeps the bytes exactly when every one is already in its range. */
  lemma RadioKeptExactly(b: seq<byte>)
    requires |b| == 28
    ensures Radio.FromBytes(b).ToBytes() == b <==> LowInRange(b) && MiddleInRange(b) && HighInRange(b)
  {
    LowKept(b);
    MiddleKept(b);
    HighKept(b);
    var c := Radio.FromBytes(b).ToBytes();
    assert c == b <==> forall i :: 0 <= i < 28 ==> c[i] == b[i];
  }

  // ---- the boot screen, bytes 28 to 61 ----------------------------------------

  datatype Boot = Boot(mode: byte, sound: bool, line1: seq<byte>, line2: seq<byte>)
  {
    static function FromBytes(b: seq<byte>): (r: Boot)
      requires |b| == 34
      ensures r.InRange()
    {
      Boot(Min(b[0], 3), b[1] != 0, b[2..18], b[18..34])
    }

    predicate InRange() { mode <= 3 && |line1| == 16 && |line2| == 16 }

    function ToBytes(): (b: seq<byte>)
      requires InRange()
      ensures |b| == 34
    {
      [mode, FromBool(sound)] + line1 + line2
    }
  }

  lemma BootRoundTrip(r: Boot)
    requires r.InRange()
    ensures Boot.FromBytes(r.ToBytes()) == r
  {
    var b := r.ToBytes();
    assert b[2..18] == r.line1 && b[18..34] == r.line2;
  }

  predicate BootInRange(b: seq<byte>)
    requires |b| == 34
  {
    b[0] <= 3 && b[1] <= 1
  }

  lemma BootKeptExactly(b: seq<byte>)
    requires |b| == 34
    ensures Boot.FromBytes(b).ToBytes() == b <==> BootInRange(b)
  {
    var c := Boot.FromBytes(b).ToBytes();
    assert b == b[0..2] + b[2..18] + b[18..34];
    assert c == [Min(b[0], 3), FromBool(b[1] != 0)] + b[2..18] + b[18..34];
    assert c == b <==> c[0] == b[0] && c[1] == b[1];
  }

  // ---- the boot tune, bytes 62 to 157 -----------------------------------------

  datatype Note = Note(tone: byte, duration: byte)

  function NotesOf(b: seq<byte>): (n: seq<Note>)
    requires |b| % 2 == 0
    ensures |n| == |b| / 2 && forall i :: 0 <= i < |n| ==> n[i] == Note(b[2 * i], b[2 * i + 1])
  {
    seq(|b| / 2, i requires 0 <= i < |b| / 2 => Note(b[2 * i], b[2 * i + 1]))
  }

  function NoteBytes(n: seq<Note>): (b: seq<byte>)
    ensures |b| == 2 * |n|
  {
    seq(2 * |n|, i requires 0 <= i < 2 * |n| => if i % 2 == 0 then n[i / 2].tone else n[i / 2].duration)
  }

  lemma NotesRoundTrip(n: seq<Note>)
    ensures NotesOf(NoteBytes(n)) == n
  {
    var b := NoteBytes(n);
    forall i | 0 <= i < |n|
      ensures Note(b[2 * i], b[2 * i + 1]) == n[i]
    {
    }
  }

  lemma NoteBytesRoundTrip(b: seq<byte>)
    requires |b| % 2 == 0
    ensures NoteBytes(NotesOf(b)) == b
  {
    forall i | 0 <= i < |b|
      ensures NoteBytes(NotesOf(b))[i] == b[i]
    {
      assert i == 2 * (i / 2) + i % 2;
    }
  }

  // ---- region lock and APRS, bytes 160 to 211 ---------------------------------

  function Degrees(v: int, most: int): int { if -most <= v <= most then v else COORD_NOT_SET }

  datatype Aprs = Aprs(
    bandLock: byte, bkIn: byte, callsign: seq<byte>, lat: int, lon: int, pathIdx: byte, freqHz: u32, devInfo: bool,
    devName: seq<byte>, batVolt: bool, comment: seq<byte>, ssid: byte, symbolIdx: byte, power: byte)
  {
    static function FromBytes(b: seq<byte>): (r: Aprs)
      requires |b| == 52
      ensures r.InRange()
    {
      Aprs(Min(b[0], 9), Min(b[2], 2), b[3..10],
           Degrees(SignedWord(U32At(b, 10)), 9_000_000), Degrees(SignedWord(U32At(b, 14)), 18_000_000),
           Min(b[18], 3), U32At(b, 19), b[23] != 0, b[24..31], b[31] != 0, b[32..49],
           Min(b[49], 15), Min(b[50], 10), Min(b[51], 2))
    }

    predicate InRange() {
      && bandLock <= 9 && bkIn <= 2 && |callsign| == 7 && |devName| == 7 && |comment| == 17
      && (lat == COORD_NOT_SET || -9_000_000 <= lat <= 9_000_000)
      && (lon == COORD_NOT_SET || -18_000_000 <= lon <= 18_000_000)
      && pathIdx <= 3 && ssid <= 15 && symbolIdx <= 10 && power <= 2
    }

    /** Byte 161 of the record belongs to no field and is written as zero. */
    function ToBytes(): (b: seq<byte>)
      requires InRange()
      ensures |b| == 52
    {
      PositionBytes() + BeaconBytes()
    }

    function PositionBytes(): (b: seq<byte>)
      requires InRange()
      ensures |b| == 18
    {
      [bandLock, 0, bkIn] + callsign + U32Bytes(UnsignedWord(lat)) + U32Bytes(UnsignedWord(lon))
    }

    function BeaconBytes(): (b: seq<byte>)
      requires InRange()
      ensures |b| == 34
    {
      [pathIdx] + U32Bytes(freqHz) + [FromBool(devInfo)] + devName + [FromBool(batVolt)] + comment + [ssid, symbolIdx, power]
    }
  }

  lemma CoordinateRoundTrip(x: int, most: int)
    requires 0 <= most < 0x4000_0000 && (x == COORD_NOT_SET || -most <= x <= most)
    ensures Degrees(SignedWord(UnsignedWord(x)), most) == x
  {
  }

  lemma AprsParts(a: Aprs)
    requires a.InRange()
    ensures var b := a.ToBytes();
            && b[0] == a.bandLock && b[2] == a.bkIn && b[3..10] == a.callsign
            && b[10..14] == U32Bytes(UnsignedWord(a.lat)) && b[14..18] == U32Bytes(UnsignedWord(a.lon))
            && b[18] == a.pathIdx && b[19..23] == U32Bytes(a.freqHz) && b[23] == FromBool(a.devInfo)
            && b[24..31] == a.devName && b[31] == FromBool(a.batVolt) && b[32..49] == a.comment
            && b[49] == a.ssid && b[50] == a.symbolIdx && b[51] == a.power
  {
    PositionParts(a);
    BeaconParts(a);
    var b, p, c := a.ToBytes(), a.PositionBytes(), a.BeaconBytes();
    assert b[3..10] == p[3..10] && b[10..14] == p[10..14] && b[14..18] == p[14..18];
    assert b[19..23] == c[1..5] && b[24..31] == c[6..13] && b[32..49] == c[14..31];
  }

  lemma PositionParts(a: Aprs)
    requires a.InRange()
    ensures var p := a.PositionBytes();
            && p[0] == a.bandLock && p[2] == a.bkIn && p[3..10] == a.callsign
            && p[10..14] == U32Bytes(UnsignedWord(a.lat)) && p[14..18] == U32Bytes(UnsignedWord(a.lon))
  {
  }

  lemma BeaconParts(a: Aprs)
    requires a.InRange()
    ensures var c := a.BeaconBytes();
            && c[0] == a.pathIdx && c[1..5] == U32Bytes(a.freqHz) && c[5] == FromBool(a.devInfo)
            && c[6..13] == a.devName && c[13] == FromBool(a.batVolt) && c[14..31] == a.comment
            && c[31] == a.ssid && c[32] == a.symbolIdx && c[33] == a.power
  {
  }

  lemma AprsRoundTrip(a: Aprs)
    requires a.InRange()
    ensures Aprs.FromBytes(a.ToBytes()) == a
  {
    var b := a.ToBytes();
    AprsParts(a);
    WordAt32(b, 10, UnsignedWord(a.lat));
    WordAt32(b, 14, UnsignedWord(a.lon));
    WordAt32(b, 19, a.freqHz);
    CoordinateRoundTrip(a.lat, 9_000_000);
    CoordinateRoundTrip(a.lon, 18_000_000);
  }

  predicate CoordinateInRange(x: int, most: int) {
    x == COORD_NOT_SET || -most <= x <= most
  }

  predicate PositionInRange(b: seq<byte>)
    requires |b| == 52
  {
    && b[0] <= 9 && b[1] == 0 && b[2] <= 2
    && CoordinateInRange(SignedWord(U32At(b, 10)), 9_000_000) && CoordinateInRange(SignedWord(U32At(b, 14)), 18_000_000)
  }

  predicate BeaconInRange(b: seq<byte>)
    requires |b| == 52
  {
    b[18] <= 3 && b[23] <= 1 && b[31] <= 1 && b[49] <= 15 && b[50] <= 10 && b[51] <= 2
  }

  lemma CoordinateKept(w: u32, most: int)
    requires 0 <= most < 0x4000_0000
    ensures UnsignedWord(Degrees(SignedWord(w), most)) == w <==> CoordinateInRange(SignedWord(w), most)
  {
  }

  lemma WordKept(b: seq<byte>, i: nat, w: u32)
    requires i + 4 <= |b|
    ensures U32Bytes(w) == b[i..i + 4] <==> w == U32At(b, i)
  {
    U32BytesOf(b[i], b[i + 1], b[i + 2], b[i + 3]);
    if U32Bytes(w) == b[i..i + 4] {
      WordAt32(b, i, w);
    }
  }

  lemma PositionKept(b: seq<byte>)
    requires |b| == 52
    ensures Aprs.FromBytes(b).PositionBytes() == b[0..18] <==> PositionInRange(b)
  {
    var a := Aprs.FromBytes(b);
    var lat, lon := UnsignedWord(a.lat), UnsignedWord(a.lon);
    CoordinateKept(U32At(b, 10), 9_000_000);
    CoordinateKept(U32At(b, 14), 18_000_000);
    WordKept(b, 10, lat);
    WordKept(b, 14, lon);
    FourPieces([a.bandLock, 0, a.bkIn], b[3..10], U32Bytes(lat), U32Bytes(lon), b);
  }

  lemma FourPieces(head: seq<byte>, call: seq<byte>, lat: seq<byte>, lon: seq<byte>, b: seq<byte>)
    requires |head| == 3 && |call| == 7 && |lat| == |lon| == 4 && |b| == 52 && call == b[3..10]
    ensures head + call + lat + lon == b[0..18] <==>
              head[0] == b[0] && head[1] == b[1] && head[2] == b[2] && lat == b[10..14] && lon == b[14..18]
  {
    var c := head + call + lat + lon;
    assert c[0..3] == head && c[3..10] == call && c[10..14] == lat && c[14..18] == lon;
    if c == b[0..18] {
      assert c[10..14] == b[10..14] && c[14..18] == b[14..18];
    }
    if head[0] == b[0] && head[1] == b[1] && head[2] == b[2] && lat == b[10..14] && lon == b[14..18] {
      assert head == b[0..3];
      assert b[0..3] + b[3..10] + b[10..14] + b[14..18] == b[0..18];
    }
  }

  lemma BeaconKept(b: seq<byte>)
    requires |b| == 52
    ensures Aprs.FromBytes(b).BeaconBytes() == b[18..52] <==> BeaconInRange(b)
  {
    var a := Aprs.FromBytes(b);
    BeaconParts(a);
    WordKept(b, 19, a.freqHz);
    var c := a.BeaconBytes();
    assert c[1..5] == b[19..23] && c[6..13] == b[24..31] && c[14..31] == b[32..49];
    if BeaconInRange(b) {
      BeaconPieces(c, b[18..52]);
    }
  }

  lemma BeaconPieces(c: seq<byte>, d: seq<byte>)
    requires |c| == |d| == 34
    requires c[0] == d[0] && c[1..5] == d[1..5] && c[5] == d[5] && c[6..13] == d[6..13] && c[13] == d[13]
    requires c[14..31] == d[14..31] && c[31] == d[31] && c[32] == d[32] && c[33] == d[33]
    ensures c == d
  {
    assert c == [c[0]] + c[1..5] + [c[5]] + c[6..13] + [c[13]] + c[14..31] + [c[31], c[32], c[33]];
    assert d == [d[0]] + d[1..5] + [d[5]] + d[6..13] + [d[13]] + d[14..31] + [d[31], d[32], d[33]];
  }

  lemma AprsKeptExactly(b: seq<byte>)
    requires |b| == 52
    ensures Aprs.FromBytes(b).ToBytes() == b <==> PositionInRange(b) && BeaconInRange(b)
  {
    PositionKept(b);
    BeaconKept(b);
    var a := Aprs.FromBytes(b);
    assert b == b[0..18] + b[18..52];
    assert a.ToBytes()[0..18] == a.PositionBytes() && a.ToBytes()[18..52] == a.BeaconBytes();
  }

  // ---- the whole record -------------------------------------------------------

  datatype Record = Record(radio: Radio, boot: Boot, tune: seq<Note>, batteryCal: u16, aprs: Aprs)
  {
    predicate InRange() { radio.InRange() && boot.InRange() && |tune| == 48 && aprs.InRange() }

    static function FromBytes(b: seq<byte>): (r: Record)
      requires |b| == SETTINGS_BYTES
      ensures r.InRange()
    {
      RadioInRange(b[0..28]);
      Record(Radio.FromBytes(b[0..28]), Boot.FromBytes(b[28..62]), NotesOf(b[62..158]), U16At(b[158..160], 0),
             Aprs.FromBytes(b[160..212]))
    }

    function ToBytes(): (b: seq<byte>)
      requires InRange()
      ensures |b| == SETTINGS_BYTES
    {
      radio.ToBytes() + boot.ToBytes() + NoteBytes(tune) + U16Bytes(batteryCal) + aprs.ToBytes()
    }
  }

  const DEFAULT: Record := Record(
    Radio(3, true, false, false, 0, true, false, 1, 8, true, 0, 0, 2, 2, 1, 0, 0, 2, 2, 8, 7, 2, 3, 9, 0, false, 0, 5),
    Boot(2, false, Repeat(0, 16), Repeat(0, 16)),
    Repeat(Note(0, 0), 48),
    2537,
    Aprs(0, 0, Repeat(0, 7), COORD_NOT_SET, COORD_NOT_SET, 0, 144_390_000, true, [85, 86, 45, 75, 54, 120, 0], false,
         Repeat(0, 17), 0, 0, 0))

  lemma RecordRoundTrip(r: Record)
    requires r.InRange()
    ensures Record.FromBytes(r.ToBytes()) == r
  {
    var b := r.ToBytes();
    assert b[0..28] == r.radio.ToBytes();
    assert b[28..62] == r.boot.ToBytes();
    assert b[62..158] == NoteBytes(r.tune);
    assert b[158..160] == U16Bytes(r.batteryCal);
    assert b[160..212] == r.aprs.ToBytes();
    RadioRoundTrip(r.radio);
    BootRoundTrip(r.boot);
    NotesRoundTrip(r.tune);
    AprsRoundTrip(r.aprs);
  }

  // ---- the five windows -------------------------------------------------------

  datatype Window = RadioWindow | BootWindow | TuneWindow | BatteryWindow | AprsWindow
  {
    function Address(): u16 {
      match this
      case RadioWindow => 0x9000 case BootWindow => 0x9100 case TuneWindow => 0x9200
      case BatteryWindow => 0x9300 case AprsWindow => 0x9400
    }

    function Lo(): nat {
      match this
      case RadioWindow => 0 case BootWindow => 28 case TuneWindow => 62 case BatteryWindow => 158 case AprsWindow => 160
    }

    function Hi(): (h: nat)
      ensures Lo() < h <= SETTINGS_BYTES
    {
      match this
      case RadioWindow => 28 case BootWindow => 62 case TuneWindow => 158 case BatteryWindow => 160 case AprsWindow => 212
    }

    function Of(b: seq<byte>): (part: seq<byte>)
      requires |b| == SETTINGS_BYTES
      ensures |part| == Hi() - Lo()
    {
      b[Lo()..Hi()]
    }
  }

  /** The windows cut the record into pieces without gap or overlap, each small enough for one frame. */
  lemma WindowsPartition(i: nat)
    requires i < SETTINGS_BYTES
    ensures exists w: Window :: w.Lo() <= i < w.Hi()
    ensures forall v: Window, w: Window :: v.Lo() <= i < v.Hi() && w.Lo() <= i < w.Hi() ==> v == w
    ensures forall w: Window :: w.Hi() - w.Lo() <= 96
  {
    assert RadioWindow.Hi() == BootWindow.Lo() && BootWindow.Hi() == TuneWindow.Lo();
    assert TuneWindow.Hi() == BatteryWindow.Lo() && BatteryWindow.Hi() == AprsWindow.Lo() && AprsWindow.Hi() == 212;
  }

  /** What a window's bytes become once stored. */
  function Normal(w: Window, d: seq<byte>): (n: seq<byte>)
    requires |d| == w.Hi() - w.Lo()
    ensures |n| == |d|
  {
    match w
    case RadioWindow => Radio.FromBytes(d).ToBytes()
    case BootWindow => Boot.FromBytes(d).ToBytes()
    case AprsWindow => Aprs.FromBytes(d).ToBytes()
    case _ => d
  }

  /** A window write as the handler does it, on the settings it loaded. */
  function Written(r: Record, w: Window, d: seq<byte>): Record
    requires r.InRange() && |d| == w.Hi() - w.Lo()
  {
    match w
    case RadioWindow => Record.FromBytes(Splice(r.ToBytes(), 0, d))
    case BootWindow => r.(boot := Boot(Min(d[0], 3), d[1] != 0, d[2..18], d[18..34]))
    case TuneWindow => r.(tune := NotesOf(d))
    case BatteryWindow => r.(batteryCal := U16At(d, 0))
    case AprsWindow => Record.FromBytes(Splice(r.ToBytes(), 160, d))
  }

  lemma PartsOf(r: Record)
    requires r.InRange()
    ensures RadioWindow.Of(r.ToBytes()) == r.radio.ToBytes()
    ensures BootWindow.Of(r.ToBytes()) == r.boot.ToBytes()
    ensures TuneWindow.Of(r.ToBytes()) == NoteBytes(r.tune)
    ensures BatteryWindow.Of(r.ToBytes()) == U16Bytes(r.batteryCal)
    ensures AprsWindow.Of(r.ToBytes()) == r.aprs.ToBytes()
  {
  }

  /** Each stored window depends on that window's bytes alone. */
  lemma NormalParts(b: seq<byte>, w: Window)
    requires |b| == SETTINGS_BYTES
    ensures w.Of(Record.FromBytes(b).ToBytes()) == Normal(w, w.Of(b))
  {
    PartsOf(Record.FromBytes(b));
    match w
    case TuneWindow => NoteBytesRoundTrip(w.Of(b));
    case BatteryWindow => U16BytesOf(b[159], b[158]); assert w.Of(b) == [b[158], b[159]];
    case _ =>
  }

  /** A window write changes that window of the record, to the normal form of the data, and no other. */
  lemma WrittenParts(r: Record, w: Window, d: seq<byte>, v: Window)
    requires r.InRange() && |d| == w.Hi() - w.Lo()
    ensures Written(r, w, d).InRange()
    ensures v.Of(Written(r, w, d).ToBytes()) == if v == w then Normal(w, d) else v.Of(r.ToBytes())
  {
    PartsOf(r);
    match w
    case RadioWindow => SplicedParts(r, w, d, v);
    case AprsWindow => SplicedParts(r, w, d, v);
    case BootWindow => PartsOf(Written(r, w, d));
    case TuneWindow => PartsOf(Written(r, w, d)); NoteBytesRoundTrip(d);
    case BatteryWindow => PartsOf(Written(r, w, d)); U16BytesOf(d[1], d[0]); assert d == [d[0], d[1]];
  }

  lemma SplicedWindow(b: seq<byte>, w: Window, d: seq<byte>, v: Window)
    requires |b| == SETTINGS_BYTES && |d| == w.Hi() - w.Lo()
    ensures v.Of(Splice(b, w.Lo(), d)) == if v == w then d else v.Of(b)
  {
  }

  lemma StoredIsNormal(r: Record, v: Window)
    requires r.InRange()
    ensures Normal(v, v.Of(r.ToBytes())) == v.Of(r.ToBytes())
  {
    NormalParts(r.ToBytes(), v);
    RecordRoundTrip(r);
  }

  lemma SplicedParts(r: Record, w: Window, d: seq<byte>, v: Window)
    requires r.InRange() && |d| == w.Hi() - w.Lo()
    ensures v.Of(Record.FromBytes(Splice(r.ToBytes(), w.Lo(), d)).ToBytes()) ==
              if v == w then Normal(w, d) else v.Of(r.ToBytes())
  {
    NormalParts(Splice(r.ToBytes(), w.Lo(), d), v);
    SplicedWindow(r.ToBytes(), w, d, v);
    StoredIsNormal(r, v);
  }

  /** Some windows of one image written in turn. */
  function Uploaded(r: Record, image: seq<byte>, windows: seq<Window>): (u: Record)
    requires r.InRange() && |image| == SETTINGS_BYTES
    ensures u.InRange()
    decreases |windows|
  {
    if windows == [] then r
    else
      var w := windows[|windows| - 1];
      var before := Uploaded(r, image, windows[..|windows| - 1]);
      WrittenParts(before, w, w.Of(image), w);
      Written(before, w, w.Of(image))
  }

  lemma {:induction false} UploadedParts(r: Record, image: seq<byte>, windows: seq<Window>, v: Window)
    requires r.InRange() && |image| == SETTINGS_BYTES
    ensures v.Of(Uploaded(r, image, windows).ToBytes()) ==
              if v in windows then Normal(v, v.Of(image)) else v.Of(r.ToBytes())
    decreases |windows|
  {
    if windows != [] {
      var init, w := windows[..|windows| - 1], windows[|windows| - 1];
      UploadedParts(r, image, init, v);
      WrittenParts(Uploaded(r, image, init), w, w.Of(image), v);
      LastWritten(r, image, windows);
      InLast(windows, v);
    }
  }

  lemma LastWritten(r: Record, image: seq<byte>, windows: seq<Window>)
    requires r.InRange() && |image| == SETTINGS_BYTES && windows != []
    ensures var w := windows[|windows| - 1];
            Uploaded(r, image, windows) == Written(Uploaded(r, image, windows[..|windows| - 1]), w, w.Of(image))
  {
  }

  lemma InLast(windows: seq<Window>, v: Window)
    requires windows != []
    ensures v in windows <==> v in windows[..|windows| - 1] || v == windows[|windows| - 1]
  {
    assert windows == windows[..|windows| - 1] + [windows[|windows| - 1]];
  }

  /** Records with the same windows are the same. */
  lemma SameParts(r: Record, s: Record)
    requires r.InRange() && s.InRange()
    requires forall w: Window :: w.Of(r.ToBytes()) == w.Of(s.ToBytes())
    ensures r == s
  {
    SameWindows(r.ToBytes(), s.ToBytes());
    RecordRoundTrip(r);
    RecordRoundTrip(s);
  }

  lemma SameWindows(a: seq<byte>, b: seq<byte>)
    requires |a| == SETTINGS_BYTES && |b| == SETTINGS_BYTES
    requires forall w: Window :: w.Of(a) == w.Of(b)
    ensures a == b
  {
    assert a == RadioWindow.Of(a) + BootWindow.Of(a) + TuneWindow.Of(a) + BatteryWindow.Of(a) + AprsWindow.Of(a);
    assert b == RadioWindow.Of(b) + BootWindow.Of(b) + TuneWindow.Of(b) + BatteryWindow.Of(b) + AprsWindow.Of(b);
  }

  predicate WindowInRange(w: Window, d: seq<byte>)
    requires |d| == w.Hi() - w.Lo()
  {
    match w
    case RadioWindow => LowInRange(d) && MiddleInRange(d) && HighInRange(d)
    case BootWindow => BootInRange(d)
    case AprsWindow => PositionInRange(d) && BeaconInRange(d)
    case _ => true
  }

  lemma WindowKeptExactly(w: Window, d: seq<byte>)
    requires |d| == w.Hi() - w.Lo()
    ensures Normal(w, d) == d <==> WindowInRange(w, d)
  {
    match w
    case RadioWindow => RadioKeptExactly(d);
    case BootWindow => BootKeptExactly(d);
    case AprsWindow => AprsKeptExactly(d);
    case _ =>
  }

  /** Reading and writing back keeps all 212 bytes exactly when every window is in range. */
  lemma RecordKeptExactly(b: seq<byte>)
    requires |b| == SETTINGS_BYTES
    ensures Record.FromBytes(b).ToBytes() == b <==> forall w: Window :: WindowInRange(w, w.Of(b))
  {
    var c := Record.FromBytes(b).ToBytes();
    forall w: Window
      ensures w.Of(c) == w.Of(b) <==> WindowInRange(w, w.Of(b))
    {
      NormalParts(b, w);
      WindowKeptExactly(w, w.Of(b));
    }
    if forall w: Window :: WindowInRange(w, w.Of(b)) {
      SameWindows(c, b);
    }
  }

  /**
   * Whatever was stored before, and in whatever order and however often the windows are written, once all five have
   * been written the settings are those of the image.
   */
  lemma FullUpload(r: Record, image: seq<byte>, windows: seq<Window>)
    requires r.InRange() && |image| == SETTINGS_BYTES
    requires forall w: Window :: w in windows
    ensures Uploaded(r, image, windows) == Record.FromBytes(image)
  {
    forall w: Window
      ensures w.Of(Uploaded(r, image, windows).ToBytes()) == w.Of(Record.FromBytes(image).ToBytes())
    {
      UploadedParts(r, image, windows, w);
      NormalParts(image, w);
    }
    SameParts(Uploaded(r, image, windows), Record.FromBytes(image));
  }

  /** Uploading a download, in part or in whole, changes nothing. */
  lemma UploadOfDownload(r: Record, windows: seq<Window>)
    requires r.InRange()
    ensures Uploaded(r, r.ToBytes(), windows) == r
  {
    RecordRoundTrip(r);
    forall w: Window
      ensures w.Of(Uploaded(r, r.ToBytes(), windows).ToBytes()) == w.Of(r.ToBytes())
    {
      UploadedParts(r, r.ToBytes(), windows, w);
      NormalParts(r.ToBytes(), w);
    }
    SameParts(Uploaded(r, r.ToBytes(), windows), r);
  }

  // ---- the handlers -----------------------------------------------------------

  lemma DefaultInRange()
    ensures DEFAULT.InRange()
  {
  }

  /** The window at a wire address. */
  function WindowAt(address: u16): (w: Option<Window>)
    ensures w == None <==> forall v: Window :: v.Address() != address
    ensures w.Some? ==> w.value.Address() == address
  {
    assert RadioWindow.Address() == 0x9000 && BootWindow.Address() == 0x9100 && TuneWindow.Address() == 0x9200;
    assert BatteryWindow.Address() == 0x9300 && AprsWindow.Address() == 0x9400;
    if address == 0x9000 then Some(RadioWindow)
    else if address == 0x9100 then Some(BootWindow)
    else if address == 0x9200 then Some(TuneWindow)
    else if address == 0x9300 then Some(BatteryWindow)
    else if address == 0x9400 then Some(AprsWindow)
    else None
  }

  /** The window at an address, if there is one of that size there. */
  predicate TransfersAt(address: u16, size: nat, w: Window) {
    WindowAt(address) == Some(w) && w.Hi() - w.Lo() == size
  }

  /** The programming software's addresses and sizes are those of the windows, and cover the record. */
  lemma HostTransfers()
    ensures TransfersAt(0x9000, 28, RadioWindow) && TransfersAt(0x9100, 34, BootWindow) && TransfersAt(0x9200, 96, TuneWindow)
    ensures TransfersAt(0x9300, 2, BatteryWindow) && TransfersAt(0x9400, 52, AprsWindow)
    ensures 28 + 34 + 96 + 2 + 52 == SETTINGS_BYTES
  {
  }

  /** The settings part of the read and write handlers, over the one cell the settings are stored in. */
  class SettingsWindows {
    /** The record last saved, if any. */
    var cell: Option<seq<byte>>

    ghost predicate Valid()
      reads this
    {
      cell.Some? ==> |cell.value| == SETTINGS_BYTES
    }

    function Current(): (r: Record)
      requires Valid()
      reads this
      ensures r.InRange()
    {
      DefaultInRange();
      match cell case None => DEFAULT case Some(b) => Record.FromBytes(b)
    }

    constructor (stored: Option<seq<byte>>)
      requires stored.Some? ==> |stored.value| == SETTINGS_BYTES
      ensures Valid() && cell == stored
    {
      cell := stored;
    }

    method Save(r: Record)
      requires r.InRange()
      modifies this
      ensures Valid() && cell == Some(r.ToBytes()) && Current() == r
    {
      cell := Some(r.ToBytes());
      RecordRoundTrip(r);
    }

    method WriteWindow(w: Window, data: seq<byte>)
      requires Valid() && |data| == w.Hi() - w.Lo()
      modifies this
      ensures Valid() && cell == Some(Current().ToBytes()) && Current() == Written(old(Current()), w, data)
    {
      var current := Current();
      match w {
        case RadioWindow => Save(Record.FromBytes(Splice(current.ToBytes(), 0, data)));
        case BootWindow => Save(current.(boot := Boot(Min(data[0], 3), data[1] != 0, data[2..18], data[18..34])));
        case TuneWindow => Save(current.(tune := NotesOf(data)));
        case BatteryWindow => Save(current.(batteryCal := U16At(data, 0)));
        case AprsWindow => Save(Record.FromBytes(Splice(current.ToBytes(), 160, data)));
      }
    }

    /** Whole-window writes are taken; any other length or address is refused and stores nothing. */
    method HandleWrite(address: u16, data: seq<byte>) returns (ok: bool)
      requires Valid()
      modifies this
      ensures Valid()
      ensures ok <==> WindowAt(address).Some? && |data| == WindowAt(address).value.Hi() - WindowAt(address).value.Lo()
      ensures ok ==> cell == Some(Current().ToBytes()) && Current() == Written(old(Current()), WindowAt(address).value, data)
      ensures !ok ==> cell == old(cell)
    {
      var w := WindowAt(address);
      if w == None || |data| != w.value.Hi() - w.value.Lo() {
        return false;
      }
      WriteWindow(w.value, data);
      return true;
    }

    /** Each window reads back as its part of the record that is, or would be, stored. */
    method HandleRead(address: u16) returns (data: Option<seq<byte>>)
      requires Valid()
      ensures WindowAt(address) == None ==> data == None
      ensures WindowAt(address).Some? ==> data == Some(WindowAt(address).value.Of(Current().ToBytes()))
    {
      var settings := Current();
      PartsOf(settings);
      if address == RadioWindow.Address() {
        return Some(settings.ToBytes()[..28]);
      } else if address == BootWindow.Address() {
        return Some([settings.boot.mode, FromBool(settings.boot.sound)] + settings.boot.line1 + settings.boot.line2);
      } else if address == TuneWindow.Address() {
        return Some(NoteBytes(settings.tune));
      } else if address == BatteryWindow.Address() {
        return Some(U16Bytes(settings.batteryCal));
      } else if address == AprsWindow.Address() {
        return Some(settings.ToBytes()[160..212]);
      }
      return None;
    }
  }
}
