/** CRC-16/XMODEM: the firmware's loop, the two host loops, and what the checksum guarantees. */
module Crc {
  import opened Bytes
  import opened Bits

  // ---- the register, as a 16-bit number ----------------------------------

  /**
   * One pass of the inner loop on a 16-bit register: the top bit leaves the word, and the
   * generator is subtracted if that bit was set.
   */
  function Shift(s: u16): u16 {
    Pow2Values();
    XorBelow(if s >= 0x8000 then 2 * s - 0x1_0000 else 0, 0x1021, 16);
    if s >= 0x8000 then Xor(2 * s - 0x1_0000, 0x1021) else 2 * s
  }

  function ShiftN(s: u16, n: nat): u16
    decreases n, s
  {
    if n == 0 then s else ShiftN(Shift(s), n - 1)
  }

  function Absorb(s: u16, b: byte): u16 {
    Pow2Values();
    XorBelow(s, b * 0x100, 16);
    Xor(s, b * 0x100)
  }

  function CrcFrom(s: u16, data: seq<byte>): u16
    decreases |data|
  {
    if data == [] then s else CrcFrom(ShiftN(Absorb(s, data[0]), 8), data[1..])
  }

  function Crc16(data: seq<byte>): u16 { CrcFrom(0, data) }

  method Crc16Xmodem(data: seq<byte>) returns (crc: u16)
    ensures crc == Crc16(data)
  {
    crc := 0;
    for i := 0 to |data|
      invariant CrcFrom(crc, data[i..]) == Crc16(data)
    {
      crc := Absorb(crc, data[i]);
      ghost var start := crc;
      for k := 0 to 8
        invariant ShiftN(crc, 8 - k) == ShiftN(start, 8)
      {
        crc := Shift(crc);
      }
      assert data[i..][1..] == data[i + 1..];
    }
  }

  // ---- the host tools, on unbounded integers ------------------------------

  function WideShift(w: nat): nat {
    if w / 0x8000 % 2 == 1 then Xor(2 * w, 0x1021) else 2 * w
  }

  lemma MaskThenShift(w: nat, s: u16)
    requires s == w % 0x1_0000
    ensures w / 0x8000 % 2 == 1 <==> s >= 0x8000
    ensures 2 * w % 0x1_0000 == if s >= 0x8000 then 2 * s - 0x1_0000 else 2 * s
  {
    var q, top := w / 0x1_0000, if s >= 0x8000 then 1 else 0;
    QuotientRemainder(w, 0x8000, 2 * q + top, s - 0x8000 * top);
    QuotientRemainder(2 * w, 0x1_0000, 2 * q + top, 2 * s - 0x1_0000 * top);
  }

  lemma WideShiftMasked(w: nat, s: u16, doubled: nat)
    requires s == w % 0x1_0000 && doubled == 2 * w
    ensures WideShift(w) % 0x1_0000 == Shift(s)
  {
    MaskThenShift(w, s);
    Pow2Values();
    XorMod(doubled, 0x1021, 16);
  }

  /** The conditional expression both host loops assign, on a word of any size. */
  method WidePass(w: nat, ghost low: u16) returns (r: nat)
    requires low == w % 0x1_0000
    ensures r % 0x1_0000 == Shift(low)
  {
    WideShiftMasked(w, low, 2 * w);
    r := WideShift(w);
  }

  method MaskedPass(w: u16) returns (r: u16)
    ensures r == Shift(w)
  {
    var shifted := WidePass(w, w);
    r := shifted % 0x1_0000;
  }

  /** `crc16_xmodem` of dump_aura_spiflash.py: the mask is applied after every shift. */
  method CrcMaskedPerBit(data: seq<byte>) returns (crc: u16)
    ensures crc == Crc16(data)
  {
    crc := 0;
    for i := 0 to |data|
      invariant CrcFrom(crc, data[i..]) == Crc16(data)
    {
      crc := Absorb(crc, data[i]);
      ghost var start := crc;
      for k := 0 to 8
        invariant ShiftN(crc, 8 - k) == ShiftN(start, 8)
      {
        crc := MaskedPass(crc);
      }
      assert data[i..][1..] == data[i + 1..];
    }
  }

  method ByteMaskedAtEnd(start: u16) returns (crc: u16)
    ensures crc == ShiftN(start, 8)
  {
    var wide: nat := start;
    ghost var low := start;
    for k := 0 to 8
      invariant low == wide % 0x1_0000
      invariant ShiftN(low, 8 - k) == ShiftN(start, 8)
    {
      wide := WidePass(wide, low);
      low := Shift(low);
    }
    crc := wide % 0x1_0000;
  }

  /** `_crc16_xmodem` of chirp_bfk6_aura.py: the mask is applied once a byte, so the word outgrows 16 bits. */
  method CrcMaskedPerByte(data: seq<byte>) returns (crc: u16)
    ensures crc == Crc16(data)
  {
    crc := 0;
    for i := 0 to |data|
      invariant CrcFrom(crc, data[i..]) == Crc16(data)
    {
      crc := Absorb(crc, data[i]);
      crc := ByteMaskedAtEnd(crc);
      assert data[i..][1..] == data[i + 1..];
    }
  }

  // ---- the register, as sixteen coefficients -------------------------------

  /** `a` with the bits of `p` added modulo 2 to its leading coefficients. */
  function AddLeading(a: seq<bool>, p: seq<bool>): (r: seq<bool>)
    requires |p| <= |a|
    ensures |r| == |a|
    ensures forall i :: 0 <= i < |a| ==> r[i] == if i < |p| then a[i] != p[i] else a[i]
  {
    seq(|a|, i requires 0 <= i < |a| => if i < |p| then a[i] != p[i] else a[i])
  }

  /** x^12 + x^5 + 1: the generator of section 2 of ITU-T V.41 without its leading x^16. */
  function Generator(): (g: seq<bool>)
    ensures |g| == 16
    ensures forall i :: 0 <= i < 16 ==> g[i] == (i == 15 - 12 || i == 15 - 5 || i == 15)
  {
    seq(16, i => i == 15 - 12 || i == 15 - 5 || i == 15)
  }

  lemma GeneratorIs0x1021()
    ensures ToBits(0x1021, 16) == Generator()
  {
    NibbleBits();
    assert Pow2(4) == 0x10;
    JoinBits(0x10, 0x1, 0x0, 4, 4);
    JoinBits(0x102, 0x10, 0x2, 8, 4);
    JoinBits(0x1021, 0x102, 0x1, 12, 4);
  }

  type Register = t: seq<bool> | |t| == 16 witness seq(16, _ => false)

  /** The first bit of the register cancels against x^16; the rest moves up one place. */
  function Cycle(t: Register): Register {
    if t[0] then AddLeading(t[1..] + [false], Generator()) else t[1..] + [false]
  }

  function Feed(t: Register, bits: seq<bool>): Register
    decreases |bits|
  {
    if bits == [] then t else Feed(Cycle(AddLeading(t, bits[..1])), bits[1..])
  }

  /** A message as coefficients, highest power first. */
  function MessageBits(data: seq<byte>): (bits: seq<bool>)
    ensures |bits| == 8 * |data|
  {
    if data == [] then [] else ToBits(data[0], 8) + MessageBits(data[1..])
  }

  lemma ShiftBits(s: u16, kept: u16, bits: seq<bool>)
    requires kept == (if s >= 0x8000 then 2 * s - 0x1_0000 else 2 * s) && bits == ToBits(s, 16)
    ensures ToBits(kept, 16) == bits[1..] + [false]
    ensures bits[0] == (s >= 0x8000)
  {
    Pow2Values();
    DoubledBits(s, 2 * s, 15);
    QuotientRemainder(2 * s, 0x1_0000, if s >= 0x8000 then 1 else 0, kept);
    BitAt(s, 16, 0);
    QuotientRemainder(s, 0x8000, if s >= 0x8000 then 1 else 0, if s >= 0x8000 then s - 0x8000 else s);
  }

  lemma SubtractGenerator(kept: u16)
    ensures ToBits(Xor(kept, 0x1021), 16) == AddLeading(ToBits(kept, 16), Generator())
  {
    XorBits(kept, 0x1021, 16);
    GeneratorIs0x1021();
  }

  lemma ShiftIsCycle(s: u16)
    ensures ToBits(Shift(s), 16) == Cycle(ToBits(s, 16))
  {
    var kept := if s >= 0x8000 then 2 * s - 0x1_0000 else 2 * s;
    ShiftBits(s, kept, ToBits(s, 16));
    SubtractGenerator(kept);
  }

  lemma AbsorbIsAdd(s: u16, b: byte)
    ensures ToBits(Absorb(s, b), 16) == AddLeading(ToBits(s, 16), ToBits(b, 8))
  {
    Pow2Values();
    ShiftLeftBits(b, 8, 8);
    XorBits(s, b * 0x100, 16);
  }

  /** Adding several coefficients at once and cycling is adding them one cycle at a time. */
  lemma CycleAfterAdd(t: Register, bits: seq<bool>)
    requires 0 < |bits| <= 16
    ensures Cycle(AddLeading(t, bits)) == AddLeading(Cycle(AddLeading(t, bits[..1])), bits[1..])
  {
  }

  lemma {:induction false} ShiftNIsFeed(s: u16, t: Register, bits: seq<bool>)
    requires |bits| <= 16 && ToBits(s, 16) == AddLeading(t, bits)
    ensures ToBits(ShiftN(s, |bits|), 16) == Feed(t, bits)
    decreases |bits|
  {
    if bits == [] {
      assert AddLeading(t, bits) == t;
    } else {
      ShiftIsCycle(s);
      CycleAfterAdd(t, bits);
      var shifted := Shift(s);
      ShiftNIsFeed(shifted, Cycle(AddLeading(t, bits[..1])), bits[1..]);
    }
  }

  lemma {:induction false} FeedConcat(t: Register, a: seq<bool>, b: seq<bool>)
    ensures Feed(t, a + b) == Feed(Feed(t, a), b)
    decreases |a|
  {
    if a == [] {
      assert a + b == b;
    } else {
      assert (a + b)[1..] == a[1..] + b && (a + b)[..1] == a[..1];
      FeedConcat(Cycle(AddLeading(t, a[..1])), a[1..], b);
    }
  }

  lemma {:induction false} CrcIsFeed(s: u16, data: seq<byte>)
    ensures ToBits(CrcFrom(s, data), 16) == Feed(ToBits(s, 16), MessageBits(data))
    decreases |data|
  {
    if data != [] {
      var absorbed := Absorb(s, data[0]);
      AbsorbIsAdd(s, data[0]);
      ShiftNIsFeed(absorbed, ToBits(s, 16), ToBits(data[0], 8));
      CrcIsFeed(ShiftN(absorbed, 8), data[1..]);
      FeedConcat(ToBits(s, 16), ToBits(data[0], 8), MessageBits(data[1..]));
    }
  }

  // ---- the checksum is a polynomial remainder --------------------------------

  /**
   * Schoolbook division over GF(2) by x^16 + x^12 + x^5 + 1, highest power first: a leading one
   * is cancelled by subtracting the divisor under it, and the leading place is then dropped.
   */
  function Remainder(a: seq<bool>): Register
    requires |a| >= 16
    decreases |a|
  {
    if |a| == 16 then a
    else Remainder(if a[0] then AddLeading(a[1..], Generator()) else a[1..])
  }

  function Zeros(n: nat): (z: seq<bool>)
    ensures |z| == n && forall i :: 0 <= i < n ==> !z[i]
  {
    seq(n, _ => false)
  }

  lemma {:induction false} DivisionIsFeed(t: Register, bits: seq<bool>)
    ensures Remainder(AddLeading(bits + Zeros(16), t)) == Feed(t, bits)
    decreases |bits|
  {
    var a := AddLeading(bits + Zeros(16), t);
    if bits == [] {
      assert a == t;
    } else {
      var mixed := AddLeading(t, bits[..1]);
      var next := Cycle(mixed);
      var reduced := if a[0] then AddLeading(a[1..], Generator()) else a[1..];
      assert a[0] == mixed[0];
      assert reduced == AddLeading(bits[1..] + Zeros(16), next);
      DivisionIsFeed(next, bits[1..]);
    }
  }

  /** The checksum of a message is the remainder of the message times x^16. */
  lemma CrcIsRemainder(data: seq<byte>)
    ensures ToBits(Crc16(data), 16) == Remainder(MessageBits(data) + Zeros(16))
  {
    ZeroRegister();
    CrcIsFeed(0, data);
    DivisionIsFeed(Zeros(16), MessageBits(data));
    assert AddLeading(MessageBits(data) + Zeros(16), Zeros(16)) == MessageBits(data) + Zeros(16);
  }

  lemma ZeroRegister()
    ensures ToBits(0, 16) == Zeros(16)
  {
    Pow2Values();
    ShiftLeftBits(0, 0, 16);
  }

  // ---- burst errors -----------------------------------------------------------

  lemma CycleInjective(t: Register, u: Register)
    requires Cycle(t) == Cycle(u)
    ensures t == u
  {
    assert Cycle(t)[15] == t[0] && Cycle(u)[15] == u[0];
    forall i | 1 <= i < 16
      ensures t[i] == u[i]
    {
      assert Cycle(t)[i - 1] == Cycle(u)[i - 1];
    }
  }

  /** Registers that agree after the same input agreed before it. */
  lemma {:induction false} SameInputInjective(t: Register, u: Register, bits: seq<bool>)
    requires Feed(t, bits) == Feed(u, bits)
    ensures t == u
    decreases |bits|
  {
    if bits != [] {
      var a, b := AddLeading(t, bits[..1]), AddLeading(u, bits[..1]);
      SameInputInjective(Cycle(a), Cycle(b), bits[1..]);
      CycleInjective(a, b);
      forall i | 0 <= i < 16
        ensures t[i] == u[i]
      {
        assert a[i] == b[i];
      }
    }
  }

  /** Registers made equal by `k` at most sixteen further bits agreed on all but `k` leading places. */
  lemma {:induction false} ConvergingRegisters(t: Register, u: Register, p: seq<bool>, q: seq<bool>)
    requires |p| == |q| <= 16 && Feed(t, p) == Feed(u, q)
    ensures t[|p|..] == u[|p|..]
    decreases |p|
  {
    if p != [] {
      var a, b := AddLeading(t, p[..1]), AddLeading(u, q[..1]);
      var k := |p|;
      ConvergingRegisters(Cycle(a), Cycle(b), p[1..], q[1..]);
      forall i | k <= i < 16
        ensures t[i] == u[i]
      {
        LastPlaceAgrees(Cycle(a), Cycle(b), k - 1);
        assert a[0] == Cycle(a)[15] && b[0] == Cycle(b)[15];
        assert Cycle(a)[k - 1..][i - k] == Cycle(b)[k - 1..][i - k];
        assert Cycle(a)[i - 1] == Cycle(b)[i - 1];
      }
    }
  }

  lemma LastPlaceAgrees(t: Register, u: Register, k: nat)
    requires k < 16 && t[k..] == u[k..]
    ensures t[15] == u[15]
  {
  }

  /** From one register, different inputs of equal length up to sixteen bits lead to different registers. */
  lemma {:induction false} ShortInputInjective(t: Register, p: seq<bool>, q: seq<bool>)
    requires |p| == |q| <= 16 && Feed(t, p) == Feed(t, q)
    ensures p == q
    decreases |p|
  {
    if p != [] {
      var a, b := AddLeading(t, p[..1]), AddLeading(t, q[..1]);
      if p[0] != q[0] {
        ConvergingRegisters(Cycle(a), Cycle(b), p[1..], q[1..]);
        LastPlaceAgrees(Cycle(a), Cycle(b), |p| - 1);
      }
      assert p[0] == q[0];
      assert p[..1] == q[..1];
      ShortInputInjective(Cycle(a), p[1..], q[1..]);
    }
  }

  /** `m` and `n` differ, and only at positions in the window of bits `[lo, hi)`. */
  predicate DifferOnlyWithin(m: seq<bool>, n: seq<bool>, lo: nat, hi: nat) {
    && |m| == |n| && lo <= hi <= |m|
    && m != n
    && m[..lo] == n[..lo] && m[hi..] == n[hi..]
  }

  /** A burst of at most sixteen bits always changes the register, whatever surrounds it. */
  lemma BurstChangesRegister(t: Register, m: seq<bool>, n: seq<bool>, lo: nat, hi: nat)
    requires DifferOnlyWithin(m, n, lo, hi) && hi - lo <= 16
    ensures Feed(t, m) != Feed(t, n)
  {
    assert m == m[..lo] + m[lo..hi] + m[hi..] && n == n[..lo] + n[lo..hi] + n[hi..];
    FeedConcat(t, m[..lo] + m[lo..hi], m[hi..]);
    FeedConcat(t, n[..lo] + n[lo..hi], n[hi..]);
    FeedConcat(t, m[..lo], m[lo..hi]);
    FeedConcat(t, n[..lo], n[lo..hi]);
    var common := Feed(t, m[..lo]);
    if Feed(t, m) == Feed(t, n) {
      SameInputInjective(Feed(common, m[lo..hi]), Feed(common, n[lo..hi]), m[hi..]);
      ShortInputInjective(common, m[lo..hi], n[lo..hi]);
    }
  }

  /** Two messages that differ only inside a burst of at most sixteen bits have different checksums. */
  lemma BurstDetected(m: seq<byte>, n: seq<byte>, lo: nat, hi: nat)
    requires DifferOnlyWithin(MessageBits(m), MessageBits(n), lo, hi) && hi - lo <= 16
    ensures Crc16(m) != Crc16(n)
  {
    CrcIsFeed(0, m);
    CrcIsFeed(0, n);
    BurstChangesRegister(ToBits(0, 16), MessageBits(m), MessageBits(n), lo, hi);
  }

  // ---- a message followed by its checksum ---------------------------------------

  lemma {:induction false} ShiftNOfZero(n: nat)
    ensures ShiftN(0, n) == 0
    decreases n
  {
    if n != 0 {
      ShiftNOfZero(n - 1);
    }
  }

  lemma WordBits(w: u16)
    ensures MessageBits([Hi(w), Lo(w)]) == ToBits(w, 16)
  {
    Pow2Values();
    JoinBits(w, Hi(w), Lo(w), 8, 8);
    assert [Hi(w), Lo(w)][1..] == [Lo(w)];
    assert MessageBits([Lo(w)]) == ToBits(Lo(w), 8);
  }

  lemma {:induction false} MessageBitsConcat(m: seq<byte>, n: seq<byte>)
    ensures MessageBits(m + n) == MessageBits(m) + MessageBits(n)
  {
    if m == [] {
      assert m + n == n;
    } else {
      assert (m + n)[1..] == m[1..] + n;
      MessageBitsConcat(m[1..], n);
    }
  }

  /** Feeding a register its own content clears it. */
  lemma FeedOwnContent(t: Register)
    ensures Feed(t, t) == Zeros(16)
  {
    ZeroRegister();
    ShiftNIsFeed(0, t, t);
    ShiftNOfZero(16);
  }

  /** A message with its checksum appended always leaves the register at zero. */
  lemma ResidueIsZero(m: seq<byte>)
    ensures Feed(Zeros(16), MessageBits(m + [Hi(Crc16(m)), Lo(Crc16(m))])) == Zeros(16)
  {
    ZeroRegister();
    CrcIsFeed(0, m);
    WordBits(Crc16(m));
    MessageBitsConcat(m, [Hi(Crc16(m)), Lo(Crc16(m))]);
    FeedConcat(Zeros(16), MessageBits(m), ToBits(Crc16(m), 16));
    FeedOwnContent(ToBits(Crc16(m), 16));
  }

  /** A burst of at most sixteen bits across a message and its checksum never yields a matching pair. */
  lemma BurstBreaksMatch(m: seq<byte>, m': seq<byte>, crc': u16, lo: nat, hi: nat)
    requires DifferOnlyWithin(MessageBits(m + [Hi(Crc16(m)), Lo(Crc16(m))]),
                              MessageBits(m' + [Hi(crc'), Lo(crc')]), lo, hi)
    requires hi - lo <= 16
    ensures Crc16(m') != crc'
  {
    if Crc16(m') == crc' {
      ResidueIsZero(m);
      ResidueIsZero(m');
      BurstChangesRegister(Zeros(16), MessageBits(m + [Hi(Crc16(m)), Lo(Crc16(m))]),
                           MessageBits(m' + [Hi(crc'), Lo(crc')]), lo, hi);
    }
  }
}
