/** Scanning by frequency: hopping through a band in steps, and wrapping at its ends. */
module FreqScan {
  import opened Bits
  import opened Bytes

  function WrapFreq(freq: u32, step: u32, up: bool, lo: u32, hi: u32): u32 {
    if up then
      var next := if freq + step < 0x1_0000_0000 then freq + step else 0xFFFF_FFFF;
      if next > hi then lo else next
    else if freq < step || freq - step < lo then hi
    else freq - step
  }

  /** A band below the top of the 32-bit range, and a step that moves. */
  predicate Band(step: u32, lo: u32, hi: u32) { step > 0 && lo <= hi < 0xFFFF_FFFF }

  /** One hop from anywhere ends in the band exactly when it does not fall short of the end it moves away from. */
  lemma HopEndsInBand(freq: u32, step: u32, up: bool, lo: u32, hi: u32)
    requires Band(step, lo, hi)
    ensures lo <= WrapFreq(freq, step, up, lo, hi) <= hi <==>
              if up then lo <= (freq as int) + step else freq <= (hi as int) + step
  {
  }

  /**
   * Inside the band a hop moves by exactly one step, or, with less than a step left in its direction, to the other
   * end of the band.
   */
  lemma HopInBand(freq: u32, step: u32, up: bool, lo: u32, hi: u32)
    requires Band(step, lo, hi) && lo <= freq <= hi
    ensures var next := WrapFreq(freq, step, up, lo, hi);
            var left := if up then hi - freq else freq - lo;
            && (left >= step ==> next - freq == if up then step else -(step as int))
            && (left < step ==> next == if up then lo else hi)
  {
  }

  /** From 10 MHz a hop in steps of 10 kHz is still below the 16 MHz where the synthesizer's range begins. */
  lemma HopBelowRange()
    ensures WrapFreq(10_000_000, 10_000, true, 16_000_000, 1_120_000_000) == 10_010_000
  {
  }

  /** `k` hops upwards reach the band exactly when the steps cover the distance to its lower end, and stay in it. */
  lemma {:induction false} HopsReachBand(freq: u32, step: u32, lo: u32, hi: u32, k: nat)
    requires Band(step, lo, hi) && k > 0
    ensures lo <= Hops(freq, step, true, lo, hi, k) <= hi <==> lo <= freq + step * k
    ensures Hops(freq, step, true, lo, hi, k) < lo ==> (Hops(freq, step, true, lo, hi, k) as int) == freq + step * k
    decreases k
  {
    HopEndsInBand(freq, step, true, lo, hi);
    if k > 1 {
      HopsReachBand(freq, step, lo, hi, k - 1);
      HopEndsInBand(Hops(freq, step, true, lo, hi, k - 1), step, true, lo, hi);
      assert step * k == step * (k - 1) + step;
    } else {
      assert Hops(freq, step, true, lo, hi, 0) == freq && step * 1 == step;
    }
  }

  /** Inside the band a hop down undoes a hop up exactly when that did not wrap, or wrapped from the very end. */
  lemma DownUndoesUpExactly(freq: u32, step: u32, lo: u32, hi: u32)
    requires Band(step, lo, hi) && lo <= freq <= hi
    ensures WrapFreq(WrapFreq(freq, step, true, lo, hi), step, false, lo, hi) == freq <==> freq + step <= hi || freq == hi
  {
  }

  /** `k` hops in one direction. */
  function Hops(freq: u32, step: u32, up: bool, lo: u32, hi: u32, k: nat): u32
    decreases k, freq
  {
    if k == 0 then freq else WrapFreq(Hops(freq, step, up, lo, hi, k - 1), step, up, lo, hi)
  }

  /** Place `k` of a round that begins at an end of the band. */
  function RoundAt(step: u32, up: bool, lo: u32, hi: u32, k: nat): u32 {
    Hops(if up then lo else hi, step, up, lo, hi, k)
  }

  /** How many channels of the raster the band holds. */
  function RasterSize(step: u32, lo: u32, hi: u32): (n: nat)
    requires Band(step, lo, hi)
    ensures n > 0
  {
    (hi - lo) / step + 1
  }

  lemma RasterFits(step: u32, lo: u32, hi: u32, k: nat)
    requires Band(step, lo, hi)
    ensures lo + step * k <= hi <==> k < RasterSize(step, lo, hi)
  {
    var q, width := (hi - lo) / step, hi - lo;
    assert width == step * q + width % step;
    if k <= q {
      MulMonotone(step, k, q);
    } else {
      MulMonotone(step, q + 1, k);
    }
  }

  /** From one end of the band a round visits each raster frequency once, in order, and returns to that end. */
  lemma {:induction false} BandRound(step: u32, up: bool, lo: u32, hi: u32, k: nat)
    requires Band(step, lo, hi) && k <= RasterSize(step, lo, hi)
    ensures (RoundAt(step, up, lo, hi, k) as int) ==
              var n := if k < RasterSize(step, lo, hi) then k else 0;
              if up then lo + step * n else hi - step * n
    decreases k
  {
    if k != 0 {
      BandRound(step, up, lo, hi, k - 1);
      RasterFits(step, lo, hi, k - 1);
      RasterFits(step, lo, hi, k);
      assert step * k == step * (k - 1) + step;
    }
  }

  /** A frequency comes up in a round upwards from the lower end, or downwards from the upper one. */
  ghost predicate OnRaster(f: u32, step: u32, up: bool, lo: u32, hi: u32)
    requires Band(step, lo, hi)
  {
    exists k: nat :: k < RasterSize(step, lo, hi) && RoundAt(step, up, lo, hi, k) == f
  }

  /** The two directions scan the same frequencies exactly when the band is a whole number of steps wide. */
  lemma SameRasterExactly(step: u32, lo: u32, hi: u32)
    requires Band(step, lo, hi)
    ensures (forall f: u32 :: OnRaster(f, step, true, lo, hi) <==> OnRaster(f, step, false, lo, hi)) <==>
              (hi - lo) % step == 0
  {
    var n := (hi - lo) / step;
    assert hi - lo == step * n + (hi - lo) % step;
    if (hi - lo) % step == 0 {
      forall f: u32
        ensures OnRaster(f, step, true, lo, hi) <==> OnRaster(f, step, false, lo, hi)
      {
        Mirrored(f, step, true, lo, hi, n);
        Mirrored(f, step, false, lo, hi, n);
      }
    } else {
      BandRound(step, true, lo, hi, 0);
      assert OnRaster(lo, step, true, lo, hi);
      LowerEndMissed(step, lo, hi);
    }
  }

  /** Place `k` in one direction is place `n - k` in the other. */
  lemma Mirrored(f: u32, step: u32, up: bool, lo: u32, hi: u32, n: nat)
    requires Band(step, lo, hi) && hi - lo == step * n && n + 1 == RasterSize(step, lo, hi)
    ensures OnRaster(f, step, up, lo, hi) ==> OnRaster(f, step, !up, lo, hi)
  {
    if OnRaster(f, step, up, lo, hi) {
      var k: nat :| k < RasterSize(step, lo, hi) && RoundAt(step, up, lo, hi, k) == f;
      BandRound(step, up, lo, hi, k);
      BandRound(step, !up, lo, hi, n - k);
      Complement(step, n, k);
      assert RoundAt(step, !up, lo, hi, n - k) == f;
    }
  }

  lemma Complement(step: nat, n: nat, k: nat)
    requires k <= n
    ensures step * (n - k) == step * n - step * k
  {
  }

  lemma LowerEndMissed(step: u32, lo: u32, hi: u32)
    requires Band(step, lo, hi) && (hi - lo) % step != 0
    ensures !OnRaster(lo, step, false, lo, hi)
  {
    if OnRaster(lo, step, false, lo, hi) {
      var k: nat :| k < RasterSize(step, lo, hi) && RoundAt(step, false, lo, hi, k) == lo;
      BandRound(step, false, lo, hi, k);
      QuotientRemainder(hi - lo, step, k, 0);
    }
  }
}
