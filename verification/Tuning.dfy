/** Frequency words corrected for the crystal, and tone words: how far each conversion is from its inverse. */
module Tuning {
  import opened Bits
  import opened Bytes

  const XTAL_ADJUST_TABLE: seq<nat> := [40, 35, 30, 25, 20, 15, 10, 5, 0, 5, 10, 15, 20, 25, 30, 35, 40]
  const XTAL_ADJUST_ZERO_POINT: nat := 8
  const PPM_SCALE: nat := 10_000_000

  /** The table row for a calibration byte; bytes off the table mean no correction. */
  function XtalIndex(adjust: byte): (i: nat)
    ensures i < |XTAL_ADJUST_TABLE|
  {
    if adjust > 16 then XTAL_ADJUST_ZERO_POINT else adjust
  }

  function XtalStep(adjust: byte): (t: nat)
    ensures t <= 40
  {
    XTAL_ADJUST_TABLE[XtalIndex(adjust)]
  }

  predicate ShiftsUp(adjust: byte) { XtalIndex(adjust) > XTAL_ADJUST_ZERO_POINT }

  /** How far a word is moved: the product is taken in 32 bits. */
  function Correction(adjust: byte, word: nat): (a: nat)
    ensures a <= word
  {
    ScaledDown(word, XtalStep(adjust), word * XtalStep(adjust) % 0x1_0000_0000);
    word * XtalStep(adjust) % 0x1_0000_0000 / PPM_SCALE
  }

  lemma ScaledDown(word: nat, t: nat, product: nat)
    requires t <= 40 && product <= word * t
    ensures product / PPM_SCALE <= word
  {
  }

  function Tuned(adjust: byte, word: nat): nat {
    if ShiftsUp(adjust) then word + Correction(adjust, word) else word - Correction(adjust, word)
  }

  function Corrected(adjust: byte, raw: nat): nat {
    if ShiftsUp(adjust) then raw - Correction(adjust, raw) else raw + Correction(adjust, raw)
  }

  /** Half a part in a million for every place off the middle of the calibration, and nothing beyond its ends. */
  function HalfPpm(adjust: byte): (t: nat)
    ensures t <= 40
  {
    if adjust <= 16 then 5 * Distance(adjust, 8) else 0
  }

  /** What a calibration byte is for: down below the middle, up above it. */
  function Intended(adjust: byte, word: nat): int {
    if 9 <= adjust <= 16 then word + word * HalfPpm(adjust) / 10_000_000
    else word - word * HalfPpm(adjust) / 10_000_000
  }

  /** The table realises the law of the calibration. */
  lemma CalibrationLaw(adjust: byte)
    ensures XtalStep(adjust) == HalfPpm(adjust)
    ensures ShiftsUp(adjust) <==> 9 <= adjust <= 16
  {
    if adjust <= 16 {
      assert XTAL_ADJUST_TABLE[adjust] == 5 * Distance(adjust, 8);
    }
  }

  /** For every 32-bit frequency, a word is tuned as intended exactly when the product fits 32 bits. */
  lemma TunedAsIntendedExactly(adjust: byte, word: nat)
    requires word <= 0xFFFF_FFFF / 10
    ensures Tuned(adjust, word) == Intended(adjust, word) <==> word * HalfPpm(adjust) < 0x1_0000_0000
  {
    CalibrationLaw(adjust);
    var product := word * HalfPpm(adjust);
    assert Correction(adjust, word) == product % 0x1_0000_0000 / PPM_SCALE;
    WrappedQuotient(product);
  }

  /** A blank calibration byte, like any beyond the table, leaves every word alone, and so does the middle one. */
  lemma UncalibratedUntouched(adjust: byte, word: nat)
    requires adjust > 16 || adjust == 8
    ensures Tuned(adjust, word) == word && Intended(adjust, word) == word
  {
    CalibrationLaw(adjust);
  }

  lemma WrappedQuotient(product: nat)
    ensures product % 0x1_0000_0000 / PPM_SCALE == product / PPM_SCALE <==> product < 0x1_0000_0000
  {
  }

  /** The synthesizer reaches 1.12 GHz; the product fits unless the correction is the largest and the word too high. */
  lemma HardwareRangeFits(adjust: byte, word: nat)
    requires word <= 112_000_000
    ensures word * HalfPpm(adjust) < 0x1_0000_0000 <==> (adjust != 0 && adjust != 16) || word <= 107_374_182
  {
    Largest(adjust);
  }

  lemma Largest(adjust: byte)
    ensures HalfPpm(adjust) <= 35 || HalfPpm(adjust) == 40
    ensures HalfPpm(adjust) == 40 <==> adjust == 0 || adjust == 16
  {
  }

  /** At 1.12 GHz with calibration byte 0 the word is moved by 18 instead of 448 units of 10 Hz. */
  lemma TopOfRangeMistuned()
    ensures Tuned(0, 112_000_000) == 112_000_000 - 18 && Intended(0, 112_000_000) == 112_000_000 - 448
  {
    assert XtalStep(0) == 40;
    assert Correction(0, 112_000_000) == 112_000_000 * 40 % 0x1_0000_0000 / PPM_SCALE;
  }

  /** The remainder of the correction's division leaves room for correcting the correction itself. */
  predicate RoundTripsExactly(adjust: byte, word: nat) {
    var t := XtalStep(adjust);
    var a, rest := word * t / PPM_SCALE, word * t % PPM_SCALE;
    if ShiftsUp(adjust) then rest + a * t < PPM_SCALE else rest >= a * t
  }

  lemma SmallProduct(word: nat, t: nat, a: nat)
    requires t <= 40 && word * t < 0x1_0000_0000 && a == word * t / PPM_SCALE
    ensures a * t < PPM_SCALE
  {
    assert a <= 429;
    MulMonotone(a, t, 40);
    assert a * t <= a * 40;
  }

  /**
   * Correcting a tuned word gives back the word or one less: the word exactly when the division's remainder is on
   * the right side of the second-order term.
   */
  lemma CorrectionInverts(adjust: byte, word: nat)
    requires word * XtalStep(adjust) < 0x1_0000_0000
    requires Tuned(adjust, word) * XtalStep(adjust) < 0x1_0000_0000
    ensures Corrected(adjust, Tuned(adjust, word)) == if RoundTripsExactly(adjust, word) then word else word - 1
  {
    var t, a := XtalStep(adjust), word * XtalStep(adjust) / PPM_SCALE;
    FittingCorrection(adjust, word);
    FittingCorrection(adjust, Tuned(adjust, word));
    if ShiftsUp(adjust) {
      assert Tuned(adjust, word) == word + a;
      UpThenDown(word, t);
    } else {
      assert Tuned(adjust, word) == word - a;
      DownThenUp(word, t);
    }
  }

  lemma FittingCorrection(adjust: byte, word: nat)
    requires word * XtalStep(adjust) < 0x1_0000_0000
    ensures Correction(adjust, word) == word * XtalStep(adjust) / PPM_SCALE
  {
    SmallMod(word * XtalStep(adjust), 0x1_0000_0000);
  }

  lemma UpThenDown(word: nat, t: nat)
    requires t <= 40 && word * t < 0x1_0000_0000
    ensures var a := word * t / PPM_SCALE;
            var rest := word * t % PPM_SCALE;
            (word + a) * t / PPM_SCALE == if rest + a * t < PPM_SCALE then a else a + 1
  {
  }

  lemma DownThenUp(word: nat, t: nat)
    requires t <= 40 && word * t < 0x1_0000_0000
    ensures var a := word * t / PPM_SCALE;
            var rest := word * t % PPM_SCALE;
            (word - a) * t / PPM_SCALE == if rest >= a * t then a else a - 1
  {
    var a, rest := word * t / PPM_SCALE, word * t % PPM_SCALE;
    SmallProduct(word, t, a);
    assert (word - a) * t == word * t - a * t;
    Quotients((word - a) * t, a, rest - a * t);
  }

  lemma Quotients(x: int, a: int, rest: int)
    requires x == PPM_SCALE * a + rest && 0 <= rest + PPM_SCALE < 3 * PPM_SCALE
    ensures x / PPM_SCALE == if rest < 0 then a - 1 else if rest < PPM_SCALE then a else a + 1
  {
  }

  lemma TunedWord(adjust: byte, word: nat)
    requires word <= 0xFFFF_FFFF / 10
    ensures Correction(adjust, word) <= 429 && 0 <= Tuned(adjust, word) < 0x1_0000_0000
    ensures Tuned(adjust, word) == Intended(adjust, word) <==> word * HalfPpm(adjust) < 0x1_0000_0000
  {
    TunedAsIntendedExactly(adjust, word);
  }

  lemma WordHalves(word: u32)
    ensures word / 0x1_0000 % 0x1_0000 * 0x1_0000 + word % 0x1_0000 == word
  {
  }

  class Synthesizer {
    var xtalAdjust: byte
    var freqLo: u16
    var freqHi: u16

    constructor (adjust: byte)
      ensures xtalAdjust == adjust
    {
      xtalAdjust, freqLo, freqHi := adjust, 0, 0;
    }

    /** Tunes to a frequency in Hz, in steps of 10 Hz: the two registers together hold the tuned word. */
    method SetFrequency(freq: u32)
      modifies `freqLo, `freqHi
      ensures freqHi * 0x1_0000 + freqLo == Tuned(xtalAdjust, freq / 10)
      ensures freqHi * 0x1_0000 + freqLo == Intended(xtalAdjust, freq / 10) <==>
                freq / 10 * HalfPpm(xtalAdjust) < 0x1_0000_0000
    {
      TunedWord(xtalAdjust, freq / 10);
      var word: nat := freq / 10;
      var idx := if xtalAdjust > 16 then XTAL_ADJUST_ZERO_POINT else xtalAdjust;
      ghost var move := Correction(xtalAdjust, word);
      var adjust := word * XTAL_ADJUST_TABLE[idx] % 0x1_0000_0000 / PPM_SCALE;
      assert adjust == move <= 429;
      if idx > XTAL_ADJUST_ZERO_POINT {
        word := word + adjust;
      } else {
        word := word - adjust;
      }
      assert word == Tuned(xtalAdjust, freq / 10);
      WordHalves(word);
      freqLo := word % 0x1_0000;
      freqHi := word / 0x1_0000 % 0x1_0000;
    }
  }

  // ---- tones ------------------------------------------------------------------

  /** The chip's word for a tone in tenths of Hz; tones above 2080 Hz would overflow the 32-bit product. */
  function ToneWord(tenths: nat): (w: u16)
    requires tenths <= 20_800
  {
    tenths * 206_489 / 100_000
  }

  /** The tone a raw word stands for. */
  function ToneOf(raw: u16): nat { raw * 100_000 / 206_489 }

  /** A tone sent and received: of the register that reports it thirteen bits are read. */
  function ReadBack(tenths: nat): nat
    requires tenths <= 20_800
  {
    ToneOf(ToneWord(tenths) % 0x2000)
  }

  /**
   * A tone up to 396.7 Hz is read back as a tenth less, since 206489 has no factor in common with 100000, and every
   * other one as a tone more than 396 Hz too low.
   */
  lemma ToneRoundTrip(tenths: nat)
    requires tenths <= 20_800
    ensures tenths <= 3967 ==> ReadBack(tenths) == if tenths == 0 then 0 else tenths - 1
    ensures tenths > 3967 ==> ReadBack(tenths) + 3960 < tenths
  {
    if tenths * 206_489 % 100_000 == 0 {
      OnlyMultiplesDivide(tenths, tenths * 206_489 / 100_000);
    }
  }

  lemma OnlyMultiplesDivide(tenths: nat, q: nat)
    requires tenths * 206_489 == 100_000 * q
    ensures tenths == 100_000 * (14_409 * q - 29_753 * tenths)
    ensures tenths % 100_000 == 0
  {
  }

  function Distance(x: int, y: int): nat { if x < y then y - x else x - y }

  /** The first standard tone within 0.9 Hz. */
  method FindStandardCtcss(tenths: nat, table: seq<u16>) returns (found: Option<u16>)
    ensures found == None <==> forall i :: 0 <= i < |table| ==> Distance(tenths, table[i]) >= 10
    ensures found.Some? ==>
              exists i :: && 0 <= i < |table| && table[i] == found.value && Distance(tenths, table[i]) < 10
                          && forall j :: 0 <= j < i ==> Distance(tenths, table[j]) >= 10
  {
    for i := 0 to |table|
      invariant forall j :: 0 <= j < i ==> Distance(tenths, table[j]) >= 10
    {
      if Distance(tenths, table[i]) < 10 {
        return Some(table[i]);
      }
    }
    return None;
  }

  /** Tones listed in rising order, at least 2 Hz apart, as the standard ones are. */
  ghost predicate WellSpaced(table: seq<u16>) {
    forall i, j :: 0 <= i < j < |table| ==> (table[i] as int) + 20 <= table[j]
  }

  /** A tone of the table sent by this radio and read back is recognised as itself exactly up to 396.7 Hz. */
  lemma ToneRecognisedExactly(table: seq<u16>, k: nat)
    requires WellSpaced(table) && k < |table| && table[k] <= 20_800
    ensures (forall i :: 0 <= i < |table| ==> (Distance(ReadBack(table[k]), table[i]) < 10 <==> i == k))
       <==> table[k] <= 3967
  {
    ToneRoundTrip(table[k]);
  }

  // ---- the standard tones -------------------------------------------------------

  const CTCSS_LOW: seq<u16> := [
    670, 693, 719, 744, 770, 797, 825, 854, 885, 915, 948, 974, 1000, 1035, 1072, 1109, 1148]

  const CTCSS_MIDDLE: seq<u16> := [
    1188, 1230, 1273, 1318, 1365, 1413, 1462, 1514, 1567, 1598, 1622, 1655, 1679, 1713, 1738, 1773, 1799]

  const CTCSS_HIGH: seq<u16> := [
    1835, 1862, 1899, 1928, 1966, 1995, 2035, 2065, 2107, 2181, 2257, 2291, 2336, 2418, 2503, 2541]

  const CTCSS_TABLE: seq<u16> := CTCSS_LOW + CTCSS_MIDDLE + CTCSS_HIGH

  /** Every standard tone is recognised as itself and as no other. */
  lemma StandardTonesRecognised(k: nat, i: nat)
    requires k < |CTCSS_TABLE| && i < |CTCSS_TABLE|
    ensures Distance(ReadBack(CTCSS_TABLE[k]), CTCSS_TABLE[i]) < 10 <==> i == k
  {
    StandardTonesSpaced();
    ToneRecognisedExactly(CTCSS_TABLE, k);
  }

  ghost predicate Between(s: seq<u16>, lo: int, hi: int) {
    forall i :: 0 <= i < |s| ==> lo <= s[i] <= hi
  }

  lemma SpacedTogether(a: seq<u16>, b: seq<u16>, lo: int, mid: int, hi: int)
    requires WellSpaced(a) && WellSpaced(b) && Between(a, lo, mid) && Between(b, mid + 20, hi) && lo <= mid <= hi
    ensures WellSpaced(a + b) && Between(a + b, lo, hi)
  {
    var s := a + b;
    assert forall i :: 0 <= i < |s| ==> s[i] == if i < |a| then a[i] else b[i - |a|];
  }

  lemma StandardTonesSpaced()
    ensures WellSpaced(CTCSS_TABLE) && Between(CTCSS_TABLE, 670, 2541)
  {
    LowTonesSpaced();
    MiddleTonesSpaced();
    HighTonesSpaced();
    SpacedTogether(CTCSS_LOW, CTCSS_MIDDLE, 670, 1148, 1799);
    SpacedTogether(CTCSS_LOW + CTCSS_MIDDLE, CTCSS_HIGH, 670, 1799, 2541);
  }

  lemma LowTonesSpaced()
    ensures WellSpaced(CTCSS_LOW) && Between(CTCSS_LOW, 670, 1148)
  {
  }

  lemma MiddleTonesSpaced()
    ensures WellSpaced(CTCSS_MIDDLE) && Between(CTCSS_MIDDLE, 1168, 1799)
  {
  }

  lemma HighTonesSpaced()
    ensures WellSpaced(CTCSS_HIGH) && Between(CTCSS_HIGH, 1819, 2541)
  {
  }
}
