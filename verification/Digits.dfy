/** Frequencies as decimal digits, one to a byte or two to a byte, in units of 10 Hz. */
module Digits {
  import opened Bits
  import opened Bytes

  function Pow10(n: nat): (p: nat)
    ensures p > 0
  {
    if n == 0 then 1 else 10 * Pow10(n - 1)
  }

  /** The number some digits spell, most significant first. */
  function Value(digits: seq<byte>): nat
    decreases |digits|
  {
    if digits == [] then 0 else Value(digits[..|digits| - 1]) * 10 + digits[|digits| - 1]
  }

  /** The last `n` digits of a number. */
  function Spell(x: nat, n: nat): (d: seq<byte>)
    ensures |d| == n
    decreases n, x
  {
    if n == 0 then [] else Spell(x / 10, n - 1) + [x % 10]
  }

  method DigitsToDeciHz(digits: seq<byte>) returns (v: nat)
    ensures v == Value(digits)
  {
    v := 0;
    for i := 0 to |digits|
      invariant v == Value(digits[..i])
    {
      assert digits[..i + 1][..i] == digits[..i];
      v := v * 10 + digits[i];
    }
    assert digits[..|digits|] == digits;
  }

  /** Fills `out` from its last place backwards. */
  method DeciHzToDigits(deciHz: nat, out: array<byte>)
    modifies out
    ensures out[..] == Spell(deciHz, out.Length)
  {
    var rest := deciHz;
    var n := out.Length;
    assert out[n..] == [];
    while n > 0
      invariant 0 <= n <= out.Length
      invariant Spell(rest, n) + out[n..] == Spell(deciHz, out.Length)
    {
      n := n - 1;
      ghost var tail := out[n + 1..];
      out[n] := rest % 10;
      assert out[n..] == [rest % 10] + tail;
      rest := rest / 10;
    }
    assert out[0..] == out[..];
  }

  lemma TenfoldModulus(x: nat, p: nat)
    requires p > 0
    ensures x % (10 * p) == 10 * (x / 10 % p) + x % 10
  {
    var q, r := x / 10 / p, x / 10 % p;
    assert x / 10 == p * q + r;
    assert x == (10 * p) * q + (10 * r + x % 10) by {
      assert (10 * p) * q == 10 * (p * q);
    }
    QuotientRemainder(x, 10 * p, q, 10 * r + x % 10);
  }

  /** Spelling keeps the number modulo what the digits can hold. */
  lemma {:induction false} ValueOfSpell(x: nat, n: nat)
    ensures Value(Spell(x, n)) == x % Pow10(n)
  {
    if n != 0 {
      ValueOfSpell(x / 10, n - 1);
      TenfoldModulus(x, Pow10(n - 1));
      assert Spell(x, n)[..n - 1] == Spell(x / 10, n - 1);
    }
  }

  /** Reading and spelling again gives the same bytes exactly when they are all digits. */
  lemma {:induction false} SpellOfValue(d: seq<byte>)
    ensures Spell(Value(d), |d|) == d <==> forall i :: 0 <= i < |d| ==> d[i] < 10
    decreases |d|
  {
    if d != [] {
      var n := |d| - 1;
      var init, last, v := d[..n], d[n], Value(d);
      SpellOfValue(init);
      assert d == init + [last];
      if last < 10 {
        assert v / 10 == Value(init) && v % 10 == last;
        assert (forall i :: 0 <= i < |d| ==> d[i] < 10) <==> forall i :: 0 <= i < n ==> init[i] < 10;
        assert Spell(v, n + 1) == Spell(Value(init), n) + [last];
        assert Spell(v, n + 1) == d <==> Spell(Value(init), n) == init by {
          assert Spell(v, n + 1)[..n] == Spell(Value(init), n);
        }
      } else {
        assert Spell(v, n + 1)[n] == v % 10;
      }
    }
  }

  /** Digit `i` of the spelling is the one worth ten to the number of digits behind it. */
  lemma {:induction false} SpelledDigit(x: nat, n: nat, i: nat)
    requires i < n
    ensures Spell(x, n)[i] == x / Pow10(n - 1 - i) % 10
  {
    if i < n - 1 {
      SpelledDigit(x / 10, n - 1, i);
      DivideByTenfold(x, Pow10(n - 2 - i));
    }
  }

  lemma DivideByTenfold(x: nat, p: nat)
    requires p > 0
    ensures x / 10 / p == x / (10 * p)
  {
    var h := x / 10;
    assert x == (10 * p) * (h / p) + (10 * (h % p) + x % 10) by {
      assert h == p * (h / p) + h % p;
      assert (10 * p) * (h / p) == 10 * (p * (h / p));
    }
    QuotientRemainder(x, 10 * p, h / p, 10 * (h % p) + x % 10);
  }

  // ---- two digits to a byte ---------------------------------------------------

  /** A byte read as two digits, the high one up to fifteen. */
  function FromBcd(b: byte): nat { b / 16 * 10 + b % 16 }

  /** Two digits as a byte, cut to eight bits. */
  function ToBcd(v: nat): byte { (v / 10 * 16 + v % 10) % 0x100 }

  function Bcd4Value(b: seq<byte>): nat
    requires |b| == 4
  {
    FromBcd(b[3]) * 1_000_000 + FromBcd(b[2]) * 10_000 + FromBcd(b[1]) * 100 + FromBcd(b[0])
  }

  function Bcd4(x: nat): (b: seq<byte>)
    ensures |b| == 4
  {
    [ToBcd(x % 100), ToBcd(x / 100 % 100), ToBcd(x / 10_000 % 100), ToBcd(x / 1_000_000)]
  }

  lemma BcdByte(v: nat)
    ensures FromBcd(ToBcd(v)) == v % 160
  {
    var tens, ones := v / 10, v % 10;
    var q, r := tens / 16, tens % 16;
    assert tens * 16 + ones == 0x100 * q + (16 * r + ones);
    QuotientRemainder(tens * 16 + ones, 0x100, q, 16 * r + ones);
    assert v == 160 * q + (10 * r + ones);
    QuotientRemainder(v, 160, q, 10 * r + ones);
  }

  /** The pairs of digits of a number, and the number they make. */
  lemma Pairs(x: nat, d0: nat, d1: nat, d2: nat, d3: nat)
    requires d0 < 100 && d1 < 100 && d2 < 100
    ensures x == 1_000_000 * d3 + 10_000 * d2 + 100 * d1 + d0 <==>
              x % 100 == d0 && x / 100 % 100 == d1 && x / 10_000 % 100 == d2 && x / 1_000_000 == d3
  {
    if x == 1_000_000 * d3 + 10_000 * d2 + 100 * d1 + d0 {
      QuotientRemainder(x, 100, 10_000 * d3 + 100 * d2 + d1, d0);
      QuotientRemainder(x / 100, 100, 100 * d3 + d2, d1);
      QuotientRemainder(x, 10_000, 100 * d3 + d2, 100 * d1 + d0);
      QuotientRemainder(x / 10_000, 100, d3, d2);
      QuotientRemainder(x, 1_000_000, d3, 10_000 * d2 + 100 * d1 + d0);
    } else {
      PairsMake(x);
    }
  }

  lemma PairsMake(x: nat)
    ensures x == 1_000_000 * (x / 1_000_000) + 10_000 * (x / 10_000 % 100) + 100 * (x / 100 % 100) + x % 100
  {
    assert x / 100 / 100 == x / 10_000;
    assert x / 10_000 / 100 == x / 1_000_000;
  }

  lemma TopPair(top: nat, low: nat)
    requires low < 1_000_000
    ensures (1_000_000 * top + low) % 160_000_000 == 1_000_000 * (top % 160) + low
  {
  }

  /** Four packed bytes are eight digits, the highest pair in the last byte. */
  lemma PackedDigits(b: seq<byte>)
    requires |b| == 4
    ensures Bcd4Value(b) ==
              Value([b[3] / 16, b[3] % 16, b[2] / 16, b[2] % 16, b[1] / 16, b[1] % 16, b[0] / 16, b[0] % 16])
  {
    var d1: seq<byte> := [b[3] / 16, b[3] % 16];
    var d2 := d1 + [b[2] / 16, b[2] % 16];
    var d3 := d2 + [b[1] / 16, b[1] % 16];
    var d4 := d3 + [b[0] / 16, b[0] % 16];
    TwoMore([], b[3] / 16, b[3] % 16);
    TwoMore(d1, b[2] / 16, b[2] % 16);
    TwoMore(d2, b[1] / 16, b[1] % 16);
    TwoMore(d3, b[0] / 16, b[0] % 16);
    assert [] + d1 == d1;
    assert d4 == [b[3] / 16, b[3] % 16, b[2] / 16, b[2] % 16, b[1] / 16, b[1] % 16, b[0] / 16, b[0] % 16];
  }

  lemma TwoMore(d: seq<byte>, tens: byte, ones: byte)
    ensures Value(d + [tens, ones]) == Value(d) * 100 + tens * 10 + ones
  {
    var e := d + [tens, ones];
    assert e[..|e| - 1] == d + [tens] && (d + [tens])[..|d|] == d;
  }

  /** Four packed bytes keep a frequency modulo 1.6 GHz: the high digit of the top byte counts to fifteen. */
  lemma Bcd4RoundTrip(x: nat)
    ensures Bcd4Value(Bcd4(x)) == x % 160_000_000
  {
    PairsMake(x);
    Packed(x, Bcd4(x), x % 100, x / 100 % 100, x / 10_000 % 100, x / 1_000_000);
  }

  /** A packed frequency is kept exactly when it is below 1.6 GHz. */
  lemma Bcd4KeptExactly(x: nat)
    ensures Bcd4Value(Bcd4(x)) == x <==> x < 160_000_000
  {
    Bcd4RoundTrip(x);
    ModuloKeeps(x, 160_000_000, Bcd4Value(Bcd4(x)));
  }

  lemma ModuloKeeps(x: nat, m: nat, v: nat)
    requires m > 0 && v == x % m
    ensures v == x <==> x < m
  {
  }

  lemma Packed(x: nat, b: seq<byte>, d0: nat, d1: nat, d2: nat, d3: nat)
    requires d0 < 100 && d1 < 100 && d2 < 100 && x == 1_000_000 * d3 + 10_000 * d2 + 100 * d1 + d0
    requires |b| == 4 && b[0] == ToBcd(d0) && b[1] == ToBcd(d1) && b[2] == ToBcd(d2) && b[3] == ToBcd(d3)
    ensures Bcd4Value(b) == x % 160_000_000
  {
    var low := 10_000 * d2 + 100 * d1 + d0;
    var v := Bcd4Value(b);
    assert v == 1_000_000 * (d3 % 160) + low by {
      PackedPairs(b, d0, d1, d2, d3);
    }
    TopPair(d3, low);
  }

  lemma PackedPairs(b: seq<byte>, d0: nat, d1: nat, d2: nat, d3: nat)
    requires d0 < 100 && d1 < 100 && d2 < 100
    requires |b| == 4 && b[0] == ToBcd(d0) && b[1] == ToBcd(d1) && b[2] == ToBcd(d2) && b[3] == ToBcd(d3)
    ensures Bcd4Value(b) == 1_000_000 * (d3 % 160) + (10_000 * d2 + 100 * d1 + d0)
  {
    BcdPair(d0);
    BcdPair(d1);
    BcdPair(d2);
    BcdByte(d3);
    SumOfPairs(b, d0, d1, d2, d3 % 160);
  }

  lemma BcdPair(v: nat)
    requires v < 100
    ensures FromBcd(ToBcd(v)) == v
  {
    BcdByte(v);
  }

  lemma SumOfPairs(b: seq<byte>, d0: nat, d1: nat, d2: nat, d3: nat)
    requires |b| == 4 && FromBcd(b[0]) == d0 && FromBcd(b[1]) == d1 && FromBcd(b[2]) == d2 && FromBcd(b[3]) == d3
    ensures Bcd4Value(b) == 1_000_000 * d3 + (10_000 * d2 + 100 * d1 + d0)
  {
  }

  lemma BcdByteBack(b: byte)
    requires b % 16 < 10
    ensures ToBcd(FromBcd(b)) == b
  {
  }

  /** Packed digits that are decimal, but for the highest, are kept by decoding and encoding. */
  lemma Bcd4Kept(b: seq<byte>)
    requires |b| == 4 && (forall i :: 0 <= i < 4 ==> b[i] % 16 < 10) && forall i :: 0 <= i < 3 ==> b[i] / 16 < 10
    ensures Bcd4(Bcd4Value(b)) == b
  {
    BcdByteBack(b[0]);
    BcdByteBack(b[1]);
    BcdByteBack(b[2]);
    BcdByteBack(b[3]);
    Pairs(Bcd4Value(b), FromBcd(b[0]), FromBcd(b[1]), FromBcd(b[2]), FromBcd(b[3]));
  }
}
