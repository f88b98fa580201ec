/** The channel editor's repeater shift: derived from the two stored frequencies and written back to them. */
module ChannelEdit {
  import opened Bits
  import opened Digits
  import opened FlashMap

  function RxOf(ch: Channel): nat
    requires ch.WellFormed()
  {
    Bcd4Value(ch.rxFreqBcd)
  }

  function TxOf(ch: Channel): nat
    requires ch.WellFormed()
  {
    Bcd4Value(ch.txFreqBcd)
  }

  /** Shift direction (0 none, 1 up, 2 down) and offset in Hz. */
  function DeriveShift(rx: nat, tx: nat): (nat, nat) {
    if tx == rx then (0, 0) else if tx > rx then (1, (tx - rx) * 10) else (2, (rx - tx) * 10)
  }

  /** The transmit frequency a shift asks for, in units of 10 Hz. */
  function Shifted(rx: nat, sftd: nat, offset: nat): nat {
    if sftd == 1 then rx + offset / 10
    else if sftd == 2 then (if offset / 10 <= rx then rx - offset / 10 else 0)
    else rx
  }

  /** A shift means what it says at a receive frequency, and the packed digits can hold the result. */
  predicate ShiftHolds(rx: nat, sftd: nat, offset: nat) {
    && offset % 10 == 0 && Shifted(rx, sftd, offset) < 160_000_000
    && (if sftd == 0 then offset == 0 else (sftd == 1 || sftd == 2) && offset > 0)
    && (sftd == 2 ==> offset / 10 <= rx)
  }

  lemma ShiftArithmetic(rx: nat, sftd: nat, offset: nat, tx: nat)
    requires tx == Shifted(rx, sftd, offset) <==> Shifted(rx, sftd, offset) < 160_000_000
    ensures DeriveShift(rx, tx) == (sftd, offset) <==> ShiftHolds(rx, sftd, offset)
  {
  }

  /** A frequency pair in which the shift is derived again as it was set: exactly when the shift holds. */
  lemma ShiftKeptExactly(rx: nat, sftd: nat, offset: nat)
    ensures DeriveShift(rx, Bcd4Value(Bcd4(Shifted(rx, sftd, offset)))) == (sftd, offset) <==> ShiftHolds(rx, sftd, offset)
  {
    Bcd4KeptExactly(Shifted(rx, sftd, offset));
    ShiftArithmetic(rx, sftd, offset, Bcd4Value(Bcd4(Shifted(rx, sftd, offset))));
  }

  /** The derived shift asks for the transmit frequency it came from. */
  lemma DerivedShiftReproduces(rx: nat, tx: nat)
    ensures var shift := DeriveShift(rx, tx); Shifted(rx, shift.0, shift.1) == tx
  {
  }

  class ChannelEdit {
    var working: Channel
    var sftd: nat
    var offsetHz: nat

    ghost predicate Valid()
      reads this
    {
      working.WellFormed()
    }

    constructor Open(ch: Channel)
      requires ch.WellFormed()
      ensures Valid() && working == ch && (sftd, offsetHz) == DeriveShift(RxOf(ch), TxOf(ch))
    {
      working := ch;
      var shift := DeriveShift(RxOf(ch), TxOf(ch));
      sftd, offsetHz := shift.0, shift.1;
    }

    /** Writes the transmit frequency the shift asks for, modulo what the digits can hold, and nothing else. */
    method SyncTxFreq()
      requires Valid()
      modifies `working
      ensures Valid() && working == old(working).(txFreqBcd := Bcd4(Shifted(RxOf(old(working)), sftd, offsetHz)))
      ensures TxOf(working) == Shifted(RxOf(old(working)), sftd, offsetHz) % 160_000_000
    {
      var tx := ShiftedFrom(RxOf(working));
      Bcd4RoundTrip(tx);
      working := working.(txFreqBcd := Bcd4(tx));
    }

    method ShiftedFrom(rx: nat) returns (tx: nat)
      ensures tx == Shifted(rx, sftd, offsetHz)
    {
      if sftd == 1 {
        return rx + offsetHz / 10;
      } else if sftd == 2 {
        return if offsetHz / 10 <= rx then rx - offsetHz / 10 else 0;
      }
      return rx;
    }

    /** Eight digits typed for the receive frequency: the shift comes along. */
    method CommitFreq(deciHz: nat)
      requires Valid() && deciHz < 100_000_000
      modifies `working
      ensures Valid() && RxOf(working) == deciHz
      ensures TxOf(working) == Shifted(deciHz, sftd, offsetHz) % 160_000_000
      ensures ShiftHolds(deciHz, sftd, offsetHz) ==>
                TxOf(working) * 10 - deciHz * 10 ==
                  if sftd == 1 then offsetHz else if sftd == 2 then -(offsetHz as int) else 0
      ensures DeriveShift(RxOf(working), TxOf(working)) == (sftd, offsetHz) <==> ShiftHolds(deciHz, sftd, offsetHz)
    {
      Bcd4RoundTrip(deciHz);
      SmallMod(deciHz, 160_000_000);
      working := working.(rxFreqBcd := Bcd4(deciHz));
      SyncTxFreq();
      ShiftKeptExactly(deciHz, sftd, offsetHz);
    }

    /** Seven digits typed for the offset, in units of 100 Hz. */
    method CommitOffset(value: nat)
      requires Valid() && value < 10_000_000
      modifies `working, `offsetHz
      ensures Valid() && sftd == old(sftd) && offsetHz == value * 100 && RxOf(working) == RxOf(old(working))
      ensures TxOf(working) == Shifted(RxOf(old(working)), sftd, offsetHz) % 160_000_000
    {
      offsetHz := value * 100;
      SyncTxFreq();
    }
  }

  /**
   * Opening the editor and storing the shift again keeps the transmit frequency exactly when it is below 1.6 GHz,
   * whatever the two stored frequencies were.
   */
  lemma OpenThenSync(ch: Channel)
    requires ch.WellFormed()
    ensures var shift := DeriveShift(RxOf(ch), TxOf(ch));
            Bcd4Value(Bcd4(Shifted(RxOf(ch), shift.0, shift.1))) == TxOf(ch) <==> TxOf(ch) < 160_000_000
  {
    DerivedShiftReproduces(RxOf(ch), TxOf(ch));
    Bcd4KeptExactly(TxOf(ch));
  }
}
