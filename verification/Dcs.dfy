/** DCS codewords: the Golay(23,12) encoder, and recognising a word received at an unknown phase. */
module Dcs {
  import opened Bits
  import opened Bytes

  const GOLAY_POLY: nat := 0x0C75

  // ---- the encoder ------------------------------------------------------------

  /** The remainder register after `n` of the source bits, lowest first. */
  function Lfsr(source: nat, n: nat): nat
    decreases n, source
  {
    if n == 0 then 0
    else
      var r := Lfsr(source, n - 1);
      Xor(r / 2, if TestBit(source, n - 1) == TestBit(r, 1) then 0 else GOLAY_POLY)
  }

  /** The code with the format's framing bit. */
  function Source(code: nat): nat { Or(code, 0x800) }

  function DcsWord(code: nat): nat {
    Or(Source(code), Lfsr(Source(code), 12) * 0x800)
  }

  method DcsEncode(code: u16) returns (word: nat)
    ensures word == DcsWord(code)
  {
    var source := Source(code);
    var remainder: nat := 0;
    for i := 0 to 12
      invariant remainder == Lfsr(source, i)
    {
      var sourceBit := TestBit(source, i);
      var remainderBit := TestBit(remainder, 1);
      var feedback := if sourceBit == remainderBit then 0 else GOLAY_POLY;
      remainder := remainder / 2;
      remainder := Xor(remainder, feedback);
    }
    word := Or(source, remainder * 0x800);
  }

  // ---- polynomials over GF(2), bit i standing for x^i -------------------------

  function Times(q: nat, g: nat): nat
    decreases q, g
  {
    if q == 0 then 0 else Xor(if q % 2 == 1 then g else 0, 2 * Times(q / 2, g))
  }

  ghost predicate Divides(g: nat, w: nat) {
    exists q: nat :: Times(q, g) == w
  }

  lemma TimesUnfolds(q: nat, g: nat)
    ensures Times(q, g) == Xor(if q % 2 == 1 then g else 0, 2 * Times(q / 2, g))
  {
  }

  lemma Regroup(low: nat, t: nat, p: nat)
    ensures Xor(low, 2 * Xor(t, p)) == Xor(Xor(low, 2 * t), 2 * p)
  {
    XorDoubled(t, p);
    XorAssociates(low, 2 * t, 2 * p);
  }

  lemma {:induction false} AddTopTerm(q: nat, g: nat, n: nat)
    requires q < Pow2(n)
    ensures Times(q + Pow2(n), g) == Xor(Times(q, g), Pow2(n) * g)
  {
    if n == 0 {
      TimesUnfolds(1, g);
      XorZero(g);
    } else {
      AddTopTerm(q / 2, g, n - 1);
      AddTopTermHalved(q, g, n);
    }
  }

  lemma AddTopTermHalved(q: nat, g: nat, n: nat)
    requires n > 0 && Times(q / 2 + Pow2(n - 1), g) == Xor(Times(q / 2, g), Pow2(n - 1) * g)
    ensures Times(q + Pow2(n), g) == Xor(Times(q, g), Pow2(n) * g)
  {
    TimesUnfolds(q + Pow2(n), g);
    HalveSplit(q, 1, n);
    HalveSplit(0, g, n);
    TimesUnfolds(q, g);
    Regroup(if q % 2 == 1 then g else 0, Times(q / 2, g), Pow2(n - 1) * g);
  }

  /** The source bits so far and the register's bits above the lowest form a multiple of the generator. */
  lemma {:induction false} LfsrDivides(source: nat, n: nat) returns (q: nat)
    ensures q < Pow2(n)
    ensures Times(q, GOLAY_POLY) == source % Pow2(n) + Pow2(n) * (Lfsr(source, n) / 2)
    ensures n > 0 ==> (Lfsr(source, n) % 2 == 1 <==> TestBit(source, n - 1))
    decreases n
  {
    if n == 0 {
      q := 0;
    } else {
      q := LfsrDivides(source, n - 1);
      q := LfsrStep(source, n - 1, Lfsr(source, n - 1), q);
    }
  }

  lemma LfsrStep(source: nat, n: nat, r: nat, q: nat) returns (q': nat)
    requires q < Pow2(n) && Times(q, GOLAY_POLY) == source % Pow2(n) + Pow2(n) * (r / 2)
    ensures var r' := Xor(r / 2, if TestBit(source, n) == TestBit(r, 1) then 0 else GOLAY_POLY);
            && q' < Pow2(n + 1)
            && Times(q', GOLAY_POLY) == source % Pow2(n + 1) + Pow2(n + 1) * (r' / 2)
            && (r' % 2 == 1 <==> TestBit(source, n))
  {
    var t, low := r / 2, source % Pow2(n);
    var same := TestBit(source, n) == TestBit(r, 1);
    var r' := Xor(t, if same then 0 else GOLAY_POLY);
    assert TestBit(r, 1) <==> t % 2 == 1;
    assert r' % 2 == 1 <==> TestBit(source, n) by {
      XorHalves(t, if same then 0 else GOLAY_POLY);
    }
    q' := if same then q else q + Pow2(n);
    if same {
      XorZero(t);
    } else {
      AddShifted(q, t, low, n);
    }
    OneMoreBit(source, n);
    SplitLowBit(r', Pow2(n));
  }

  lemma AddShifted(q: nat, t: nat, low: nat, n: nat)
    requires q < Pow2(n) && low < Pow2(n) && Times(q, GOLAY_POLY) == low + Pow2(n) * t
    ensures Times(q + Pow2(n), GOLAY_POLY) == low + Pow2(n) * Xor(t, GOLAY_POLY)
  {
    AddTopTerm(q, GOLAY_POLY, n);
    XorSplit(low, t, 0, GOLAY_POLY, n);
    XorZero(low);
  }

  lemma SplitLowBit(r: nat, p: nat)
    ensures p * r == p * (r % 2) + 2 * p * (r / 2)
  {
  }

  lemma {:induction false} LfsrBelow(source: nat, n: nat)
    ensures Lfsr(source, n) < 0x1000
    decreases n
  {
    if n != 0 {
      LfsrBelow(source, n - 1);
      TwelveBits();
      XorBelow(Lfsr(source, n - 1) / 2, if TestBit(source, n - 1) == TestBit(Lfsr(source, n - 1), 1) then 0 else GOLAY_POLY, 12);
    }
  }

  lemma TwelveBits()
    ensures Pow2(11) == 0x800 && Pow2(12) == 0x1000 && Pow2(22) == 0x40_0000 && Pow2(23) == 0x80_0000
  {
  }

  /** The framing bit is set and the other source bits are the code's. */
  lemma SourceOf(code: nat)
    requires code < 0x1000
    ensures Source(code) == code % 0x800 + 0x800
  {
    TwelveBits();
    OrSplit(code % 0x800, code / 0x800, 0, 1, 11);
    OrZero(code % 0x800);
    assert Or(1, 1) == 1 && Or(0, 1) == 1;
  }

  /**
   * A code below 4096 becomes a 23-bit word that keeps the twelve source bits at the bottom and is divisible by the
   * generator.
   */
  lemma WordIsCodeword(code: nat)
    requires code < 0x1000
    ensures DcsWord(code) < 0x80_0000
    ensures DcsWord(code) % 0x1000 == code % 0x800 + 0x800
    ensures Divides(GOLAY_POLY, DcsWord(code))
  {
    var q, parity := WordParts(code);
    TopAndBottom(code % 0x800 + 0x800, parity);
    assert Times(q, GOLAY_POLY) == DcsWord(code);
  }

  lemma WordParts(code: nat) returns (q: nat, parity: nat)
    requires code < 0x1000
    ensures parity < 0x800 && DcsWord(code) == code % 0x800 + 0x800 + 0x1000 * parity
    ensures Times(q, GOLAY_POLY) == DcsWord(code)
  {
    SourceOf(code);
    q := LfsrAtEnd(Source(code));
    JoinParity(code % 0x800, Lfsr(Source(code), 12));
    parity := Lfsr(Source(code), 12) / 2;
  }

  lemma TopAndBottom(s: nat, t: nat)
    requires s < 0x1000 && t < 0x800
    ensures s + 0x1000 * t < 0x80_0000 && (s + 0x1000 * t) % 0x1000 == s
  {
  }

  lemma LfsrAtEnd(s: nat) returns (q: nat)
    requires 0x800 <= s < 0x1000
    ensures Times(q, GOLAY_POLY) == s + 0x1000 * (Lfsr(s, 12) / 2)
    ensures Lfsr(s, 12) < 0x1000 && Lfsr(s, 12) % 2 == 1
  {
    q := LfsrDivides(s, 12);
    LfsrBelow(s, 12);
    FramingBit(s);
    TwelveBits();
    LowPart(s, Pow2(12), Lfsr(s, 12) / 2);
  }

  lemma LowPart(s: nat, p: nat, t: nat)
    requires p == 0x1000 && s < 0x1000
    ensures s % p + p * t == s + 0x1000 * t
  {
  }

  lemma FramingBit(s: nat)
    requires 0x800 <= s < 0x1000
    ensures TestBit(s, 11)
  {
    TwelveBits();
    OneMoreBit(s, 11);
  }

  lemma JoinParity(low: nat, r: nat)
    requires low < 0x800 && r % 2 == 1
    ensures Or(low + 0x800, r * 0x800) == low + 0x800 + 0x1000 * (r / 2)
  {
    TwelveBits();
    OrSplit(low, 1, 0, r, 11);
    OrZero(low);
    OrOne(r);
  }

  lemma OrOne(r: nat)
    requires r % 2 == 1
    ensures Or(1, r) == r
  {
    OrZero(r / 2);
  }

  // ---- one codeword for each code ---------------------------------------------

  lemma LowestBit(q: nat, g: nat)
    requires g % 2 == 1
    ensures Times(q, g) % 2 == q % 2
  {
  }

  lemma XorCancels(low: nat, x: nat, y: nat)
    requires Xor(low, x) == Xor(low, y)
    ensures x == y
  {
  }

  lemma {:induction false} SameLowBits(q: nat, r: nat, g: nat, n: nat)
    requires g % 2 == 1 && Times(q, g) % Pow2(n) == Times(r, g) % Pow2(n)
    ensures q % Pow2(n) == r % Pow2(n)
    decreases n
  {
    if n != 0 {
      var p := Pow2(n - 1);
      assert q % 2 == r % 2 by {
        LowestBit(q, g);
        LowestBit(r, g);
        SameLowest(Times(q, g), Times(r, g), p, Pow2(n));
      }
      CancelLowest(q, r, g, n);
      SameLowBits(q / 2, r / 2, g, n - 1);
      DoubleModulus(q, p);
      DoubleModulus(r, p);
    }
  }

  lemma SameLowest(x: nat, y: nat, p: nat, d: nat)
    requires p > 0 && d == 2 * p && x % d == y % d
    ensures x % 2 == y % 2
  {
    DoubleModulus(x, p);
    DoubleModulus(y, p);
  }

  lemma CancelLowest(q: nat, r: nat, g: nat, n: nat)
    requires n > 0 && q % 2 == r % 2 && Times(q, g) % Pow2(n) == Times(r, g) % Pow2(n)
    ensures Times(q / 2, g) % Pow2(n - 1) == Times(r / 2, g) % Pow2(n - 1)
  {
    TimesUnfolds(q, g);
    TimesUnfolds(r, g);
    CancelModulo(if q % 2 == 1 then g else 0, Times(q / 2, g), Times(r / 2, g), n);
  }

  lemma CancelModulo(low: nat, a: nat, b: nat, n: nat)
    requires n > 0 && Xor(low, 2 * a) % Pow2(n) == Xor(low, 2 * b) % Pow2(n)
    ensures a % Pow2(n - 1) == b % Pow2(n - 1)
  {
    XorMod(low, 2 * a, n);
    XorMod(low, 2 * b, n);
    XorCancels(low % Pow2(n), 2 * a % Pow2(n), 2 * b % Pow2(n));
    HalveModulo(a, b, Pow2(n - 1), Pow2(n));
  }

  lemma HalveModulo(a: nat, b: nat, p: nat, d: nat)
    requires p > 0 && d == 2 * p && 2 * a % d == 2 * b % d
    ensures a % p == b % p
  {
    DoubleModulus(2 * a, p);
    DoubleModulus(2 * b, p);
  }

  lemma {:induction false} TimesDegree(q: nat, g: nat, k: nat, d: nat)
    requires Pow2(k) <= q < Pow2(k + 1) && Pow2(d) <= g < Pow2(d + 1)
    ensures Pow2(k + d) <= Times(q, g) < Pow2(k + d + 1)
    decreases k
  {
    TimesUnfolds(q, g);
    if k == 0 {
      XorZero(g);
    } else {
      TimesDegree(q / 2, g, k - 1, d);
      Pow2Grows(d + 1, k + d);
      XorDegree(if q % 2 == 1 then g else 0, 2 * Times(q / 2, g), k + d);
    }
  }

  lemma {:induction false} Pow2Grows(a: nat, b: nat)
    requires a <= b
    ensures Pow2(a) <= Pow2(b)
    decreases b
  {
    if a < b {
      Pow2Grows(a, b - 1);
    }
  }

  lemma {:induction false} XorDegree(a: nat, b: nat, m: nat)
    requires a < Pow2(m) && Pow2(m) <= b < Pow2(m + 1)
    ensures Pow2(m) <= Xor(a, b) < Pow2(m + 1)
  {
    XorHalves(a, b);
    if m == 0 {
      XorZero(b);
    } else {
      XorDegree(a / 2, b / 2, m - 1);
    }
  }

  lemma {:induction false} TopBit(q: nat) returns (k: nat)
    requires q > 0
    ensures Pow2(k) <= q < Pow2(k + 1)
  {
    if q == 1 {
      k := 0;
      assert Pow2(1) == 2 * Pow2(0);
    } else {
      k := TopBit(q / 2);
      k := k + 1;
    }
  }

  lemma QuotientBelow(q: nat)
    requires Times(q, GOLAY_POLY) < 0x80_0000
    ensures q < 0x1000
  {
    if q >= 0x1000 {
      TwelveBits();
      var k := TopBit(q);
      if k < 12 {
        Pow2Grows(k + 1, 12);
      }
      TimesDegree(q, GOLAY_POLY, k, 11);
      Pow2Grows(23, k + 11);
    }
  }

  /** The encoder's word is the only 23-bit multiple of the generator with its twelve source bits. */
  lemma OnlyCodeword(code: nat, w: nat)
    requires code < 0x1000 && w < 0x80_0000 && Divides(GOLAY_POLY, w)
    requires w % 0x1000 == code % 0x800 + 0x800
    ensures w == DcsWord(code)
  {
    var q: nat :| Times(q, GOLAY_POLY) == w;
    WordIsCodeword(code);
    var r: nat :| Times(r, GOLAY_POLY) == DcsWord(code);
    QuotientBelow(q);
    QuotientBelow(r);
    TwelveBits();
    SameLowBits(q, r, GOLAY_POLY, 12);
    SmallMod(q, 0x1000);
    SmallMod(r, 0x1000);
  }

  // ---- recognising a word at any phase ----------------------------------------

  /** One place to the left within 23 bits. */
  function Rotate(w: nat): nat
    requires w < 0x80_0000
  {
    if w < 0x40_0000 then 2 * w else 2 * w - 0x80_0000 + 1
  }

  function Rotated(w: nat, k: nat): (r: nat)
    requires w < 0x80_0000
    ensures r < 0x80_0000
    decreases k, w
  {
    if k == 0 then w else Rotate(Rotated(w, k - 1))
  }

  lemma OrBit(x: nat, b: nat)
    requires x % 2 == 0 && b < 2
    ensures Or(x, b) == x + b
  {
    OrZero(x / 2);
    assert b / 2 == 0;
    if x == 0 && b == 0 {
    } else {
      assert Or(x, b) == b + 2 * Or(x / 2, 0);
    }
  }

  /** The shifts and the mask of the source are the rotation. */
  lemma RotateIsShift(w: nat)
    requires w < 0x80_0000
    ensures Or(2 * w, w / 0x40_0000) % 0x80_0000 == Rotate(w)
  {
    OrBit(2 * w, w / 0x40_0000);
  }

  lemma SetLowest(even: nat, b: nat, n: nat)
    requires even % 2 == 0 && b < 2
    ensures ToBits(even + b, n + 1) == ToBits(even, n + 1)[..n] + [b == 1]
  {
    assert (even + b) / 2 == even / 2 && (even + b) % 2 == b;
  }

  lemma TopPlace(w: nat, n: nat)
    requires w < 2 * Pow2(n)
    ensures ToBits(w, n + 1)[0] == (w >= Pow2(n))
  {
    BitAt(w, n + 1, 0);
    if w >= Pow2(n) {
      QuotientRemainder(w, Pow2(n), 1, w - Pow2(n));
    } else {
      QuotientRemainder(w, Pow2(n), 0, w);
    }
  }

  lemma RotateBitsIn(w: nat, p: nat, n: nat)
    requires p == Pow2(n) && w < 2 * p
    ensures ToBits(if w < p then 2 * w else 2 * w - 2 * p + 1, n + 1) == ToBits(w, n + 1)[1..] + [ToBits(w, n + 1)[0]]
  {
    var even, b := if w < p then 2 * w else 2 * w - 2 * p, if w < p then 0 else 1;
    QuotientRemainder(2 * w, 2 * p, b, even);
    DoubledBits(w, 2 * w, n);
    TopPlace(w, n);
    SetLowest(even, b, n);
    assert ToBits(even, n + 1)[..n] == ToBits(w, n + 1)[1..];
  }

  lemma RotateBits(w: nat)
    requires w < 0x80_0000
    ensures ToBits(Rotate(w), 23) == ToBits(w, 23)[1..] + [ToBits(w, 23)[0]]
  {
    TwelveBits();
    RotateBitsIn(w, 0x40_0000, 22);
  }

  lemma {:induction false} RotatedBits(w: nat, k: nat)
    requires w < 0x80_0000 && k <= 23
    ensures ToBits(Rotated(w, k), 23) == ToBits(w, 23)[k..] + ToBits(w, 23)[..k]
    decreases k
  {
    if k != 0 {
      RotatedBits(w, k - 1);
      RotateBits(Rotated(w, k - 1));
    }
  }

  lemma FullTurn(w: nat)
    requires w < 0x80_0000
    ensures Rotated(w, 23) == w
  {
    RotatedBits(w, 23);
    TwelveBits();
    ToBitsInjective(Rotated(w, 23), w, 23);
  }

  lemma {:induction false} RotatedTwice(w: nat, j: nat, k: nat)
    requires w < 0x80_0000
    ensures Rotated(Rotated(w, j), k) == Rotated(w, j + k)
    decreases k
  {
    if k != 0 {
      RotatedTwice(w, j, k - 1);
    }
  }

  /** `raw` is `word` read from some other starting bit of the repeating stream. */
  ghost predicate SomePhase(word: nat, raw: nat)
    requires word < 0x80_0000
  {
    exists k: nat :: k < 23 && Rotated(word, k) == raw
  }

  lemma PhaseOf(word: nat, raw: nat, k: nat)
    requires word < 0x80_0000 && k <= 23 && Rotated(word, k) == raw
    ensures SomePhase(word, raw)
  {
    FullTurn(word);
    if k == 23 {
      assert Rotated(word, 0) == raw;
    }
  }

  lemma PhaseOfRotation(word: nat, raw: nat)
    requires word < 0x80_0000 && raw < 0x80_0000
    ensures SomePhase(word, raw) <==> SomePhase(word, Rotate(raw))
  {
    if SomePhase(word, raw) {
      var k: nat :| k < 23 && Rotated(word, k) == raw;
      PhaseOf(word, Rotate(raw), k + 1);
    }
    if SomePhase(word, Rotate(raw)) {
      var k: nat :| k < 23 && Rotated(word, k) == Rotate(raw);
      RotatedBack(word, raw, k);
      PhaseOf(word, raw, if k == 0 then 22 else k - 1);
    }
  }

  /** Undoing one place: 22 more make a full turn. */
  lemma RotatedBack(word: nat, raw: nat, k: nat)
    requires word < 0x80_0000 && raw < 0x80_0000 && k < 23 && Rotated(word, k) == Rotate(raw)
    ensures Rotated(word, if k == 0 then 22 else k - 1) == raw
  {
    assert Rotated(raw, 1) == Rotate(Rotated(raw, 0));
    RotatedTwice(raw, 1, 22);
    FullTurn(raw);
    RotatedTwice(word, k, 22);
    if k > 0 {
      FullTurn(word);
      RotatedTwice(word, 23, k - 1);
    }
  }

  /** The word of a code as it is compared, cut to 23 bits. */
  function Pattern(code: nat): (w: nat)
    ensures w < 0x80_0000
  {
    DcsWord(code) % 0x80_0000
  }

  /** The first code of a table with some phase of its word equal to `raw`. */
  ghost function FirstMatch(table: seq<u16>, raw: nat): Option<u16>
    decreases |table|
  {
    if table == [] then None
    else if SomePhase(Pattern(table[0]), raw) then Some(table[0])
    else FirstMatch(table[1..], raw)
  }

  method FindStandardDcs(raw: u32, table: seq<u16>) returns (found: Option<u16>)
    ensures found == FirstMatch(table, raw % 0x80_0000)
  {
    var raw23 := raw % 0x80_0000;
    for i := 0 to |table|
      invariant FirstMatch(table, raw23) == FirstMatch(table[i..], raw23)
    {
      var hit := AnyPhase(table[i], raw23);
      assert table[i..][0] == table[i] && table[i..][1..] == table[i + 1..];
      if hit {
        return Some(table[i]);
      }
    }
    return None;
  }

  method AnyPhase(code: u16, raw23: nat) returns (hit: bool)
    ensures hit == SomePhase(Pattern(code), raw23)
  {
    var word := DcsEncode(code);
    hit := AnyRotation(word % 0x80_0000, raw23);
  }

  method AnyRotation(start: nat, raw23: nat) returns (hit: bool)
    requires start < 0x80_0000
    ensures hit == SomePhase(start, raw23)
  {
    var word := start;
    for k := 0 to 23
      invariant word == Rotated(start, k)
      invariant forall j: nat :: 0 < j <= k ==> Rotated(start, j) != raw23
    {
      RotateIsShift(word);
      word := Or(2 * word, word / 0x40_0000) % 0x80_0000;
      if word == raw23 {
        PhaseOf(start, raw23, k + 1);
        return true;
      }
    }
    FullTurn(start);
    return false;
  }

  lemma {:induction false} PhaseOfRotations(word: nat, raw: nat, k: nat)
    requires word < 0x80_0000 && raw < 0x80_0000
    ensures SomePhase(word, raw) <==> SomePhase(word, Rotated(raw, k))
    decreases k
  {
    if k != 0 {
      PhaseOfRotations(word, raw, k - 1);
      PhaseOfRotation(word, Rotated(raw, k - 1));
    }
  }

  /** Where in the repeating word the receiver locked on makes no difference. */
  lemma {:induction false} PhaseIndependent(table: seq<u16>, raw: nat, k: nat)
    requires raw < 0x80_0000
    ensures FirstMatch(table, Rotated(raw, k)) == FirstMatch(table, raw)
    decreases |table|
  {
    if table != [] {
      PhaseOfRotations(Pattern(table[0]), raw, k);
      PhaseIndependent(table[1..], raw, k);
    }
  }

  /** The answer is the first code that matches, and there is none exactly when no code matches. */
  lemma {:induction false} FirstMatchIsFirst(table: seq<u16>, raw: nat)
    ensures FirstMatch(table, raw) == None <==> forall i :: 0 <= i < |table| ==> !SomePhase(Pattern(table[i]), raw)
    ensures FirstMatch(table, raw).Some? ==>
              exists i :: && 0 <= i < |table| && table[i] == FirstMatch(table, raw).value
                          && SomePhase(Pattern(table[i]), raw)
                          && forall j :: 0 <= j < i ==> !SomePhase(Pattern(table[j]), raw)
    decreases |table|
  {
    if table != [] && !SomePhase(Pattern(table[0]), raw) {
      FirstMatchIsFirst(table[1..], raw);
      assert forall i :: 0 < i < |table| ==> table[i] == table[1..][i - 1];
      if FirstMatch(table, raw).Some? {
        var i :| && 0 <= i < |table[1..]| && table[1..][i] == FirstMatch(table[1..], raw).value
                 && SomePhase(Pattern(table[1..][i]), raw)
                 && forall j :: 0 <= j < i ==> !SomePhase(Pattern(table[1..][j]), raw);
        assert table[i + 1] == FirstMatch(table, raw).value;
        assert forall j :: 0 <= j < i + 1 ==> !SomePhase(Pattern(table[j]), raw);
      }
    }
  }

  /**
   * A code of the table, received at any phase, is reported as itself exactly when no earlier entry's word is a
   * rotation of its own.
   */
  lemma FoundAsSentExactly(table: seq<u16>, i: nat, k: nat)
    requires i < |table| && forall a, b :: 0 <= a < b < |table| ==> table[a] != table[b]
    ensures FirstMatch(table, Rotated(Pattern(table[i]), k)) == Some(table[i]) <==>
              forall j :: 0 <= j < i ==> !SomePhase(Pattern(table[j]), Pattern(table[i]))
  {
    var raw := Pattern(table[i]);
    PhaseIndependent(table, raw, k);
    FirstMatchIsFirst(table, raw);
    PhaseOf(raw, raw, 0);
  }
}
