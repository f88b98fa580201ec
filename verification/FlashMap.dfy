/** The records kept in flash and their byte layouts. */
module FlashMap {
  import opened Bytes

  const CHAN_SIZE: nat := 32
  const NAME_SIZE: nat := 12
  const CONTACT_COUNT: nat := 20
  const VFO_SIZE: nat := 32
  const SAT_RECORD_SIZE: nat := 32
  const MAX_SATELLITES: nat := 20

  /** Little-endian words. */
  function U16At(b: seq<byte>, i: nat): u16
    requires i + 2 <= |b|
  {
    Join(b[i + 1], b[i])
  }

  function U16Bytes(w: u16): seq<byte> { [Lo(w), Hi(w)] }

  function U32At(b: seq<byte>, i: nat): u32
    requires i + 4 <= |b|
  {
    FromLe4(b[i], b[i + 1], b[i + 2], b[i + 3])
  }

  function FromLe4(b0: byte, b1: byte, b2: byte, b3: byte): u32 {
    Join(b1, b0) + 0x1_0000 * Join(b3, b2)
  }

  function U32Bytes(w: u32): (b: seq<byte>)
    ensures |b| == 4
  {
    U16Bytes(w % 0x1_0000) + U16Bytes(w / 0x1_0000)
  }

  lemma WordAt32(b: seq<byte>, i: nat, w: u32)
    requires i + 4 <= |b| && b[i..i + 4] == U32Bytes(w)
    ensures U32At(b, i) == w
  {
  }

  lemma WordAt16(b: seq<byte>, i: nat, w: u16)
    requires i + 2 <= |b| && b[i..i + 2] == U16Bytes(w)
    ensures U16At(b, i) == w
  {
  }

  lemma U16BytesOf(hi: byte, lo: byte)
    ensures U16Bytes(Join(hi, lo)) == [lo, hi]
  {
  }

  lemma U32BytesOf(b0: byte, b1: byte, b2: byte, b3: byte)
    ensures U32Bytes(FromLe4(b0, b1, b2, b3)) == [b0, b1, b2, b3]
  {
  }

  // ---- channels -------------------------------------------------------------

  datatype Channel = Channel(
    rxFreqBcd: seq<byte>, txFreqBcd: seq<byte>, rxDcsCtsNum: u16, txDcsCtsNum: u16,
    dtmfGroup: byte, pttId: byte, txPower: byte, flags: byte, decoderCode: u32, name: seq<byte>)
  {
    predicate WellFormed() {
      |rxFreqBcd| == 4 && |txFreqBcd| == 4 && |name| == NAME_SIZE
    }

    function ToBytes(): (b: seq<byte>)
      requires WellFormed()
      ensures |b| == CHAN_SIZE
    {
      rxFreqBcd + txFreqBcd + U16Bytes(rxDcsCtsNum) + U16Bytes(txDcsCtsNum)
      + [dtmfGroup, pttId, txPower, flags] + U32Bytes(decoderCode) + name
    }

    static function FromBytes(b: seq<byte>): (c: Channel)
      requires |b| == CHAN_SIZE
      ensures c.WellFormed()
    {
      Channel(b[0..4], b[4..8], U16At(b, 8), U16At(b, 10), b[12], b[13], b[14], b[15], U32At(b, 16), b[20..32])
    }

    /** `chFlag3` bit 2: included in the scan list. */
    predicate ScanAdd() { flags / 4 % 2 == 1 }
  }

  /** Every channel field is stored and nothing else is: the layout is a bijection. */
  lemma ChannelToFrom(b: seq<byte>)
    requires |b| == CHAN_SIZE
    ensures Channel.FromBytes(b).ToBytes() == b
  {
    U32BytesOf(b[16], b[17], b[18], b[19]);
    U16BytesOf(b[9], b[8]);
    U16BytesOf(b[11], b[10]);
    assert b == b[0..4] + b[4..8] + [b[8], b[9]] + [b[10], b[11]] + [b[12], b[13], b[14], b[15]]
                + [b[16], b[17], b[18], b[19]] + b[20..32];
  }

  lemma ChannelFromTo(c: Channel)
    requires c.WellFormed()
    ensures Channel.FromBytes(c.ToBytes()) == c
  {
  }
}
