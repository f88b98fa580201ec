/** Bitwise operators on unbounded naturals, and numbers as bit strings. */
module Bits {

  function Xor(a: nat, b: nat): nat
    decreases a + b
  {
    if a == 0 && b == 0 then 0
    else (if a % 2 != b % 2 then 1 else 0) + 2 * Xor(a / 2, b / 2)
  }

  function And(a: nat, b: nat): (r: nat)
    ensures r <= a && r <= b
  {
    if a == 0 || b == 0 then 0
    else (if a % 2 == 1 && b % 2 == 1 then 1 else 0) + 2 * And(a / 2, b / 2)
  }

  function Or(a: nat, b: nat): nat
    decreases a + b
  {
    if a == 0 && b == 0 then 0
    else (if a % 2 == 1 || b % 2 == 1 then 1 else 0) + 2 * Or(a / 2, b / 2)
  }

  lemma XorHalves(a: nat, b: nat)
    ensures Xor(a, b) / 2 == Xor(a / 2, b / 2)
    ensures Xor(a, b) % 2 == (if a % 2 != b % 2 then 1 else 0)
  {
  }

  lemma {:induction false} XorZero(a: nat)
    ensures Xor(a, 0) == a && Xor(0, a) == a
  {
    if a != 0 {
      XorZero(a / 2);
    }
  }

  lemma {:induction false} XorSelf(a: nat)
    ensures Xor(a, a) == 0
  {
    if a != 0 {
      XorSelf(a / 2);
    }
  }

  lemma XorDoubled(a: nat, b: nat)
    ensures Xor(2 * a, 2 * b) == 2 * Xor(a, b)
  {
  }

  lemma {:induction false} XorAssociates(a: nat, b: nat, c: nat)
    ensures Xor(Xor(a, b), c) == Xor(a, Xor(b, c))
    decreases a + b + c
  {
    if a + b + c != 0 {
      XorAssociates(a / 2, b / 2, c / 2);
      XorHalves(a, b);
      XorHalves(b, c);
      XorHalves(Xor(a, b), c);
      XorHalves(a, Xor(b, c));
    }
  }

  /** Both operators work on the bits above `k` and below it separately. */
  lemma {:induction false} XorSplit(a0: nat, a1: nat, b0: nat, b1: nat, k: nat)
    requires a0 < Pow2(k) && b0 < Pow2(k)
    ensures Xor(a0 + Pow2(k) * a1, b0 + Pow2(k) * b1) == Xor(a0, b0) + Pow2(k) * Xor(a1, b1)
  {
    if k != 0 {
      XorSplit(a0 / 2, a1, b0 / 2, b1, k - 1);
      HalveSplit(a0, a1, k);
      HalveSplit(b0, b1, k);
      HalveSplit(0, Xor(a1, b1), k);
    }
  }

  lemma {:induction false} OrSplit(a0: nat, a1: nat, b0: nat, b1: nat, k: nat)
    requires a0 < Pow2(k) && b0 < Pow2(k)
    ensures Or(a0 + Pow2(k) * a1, b0 + Pow2(k) * b1) == Or(a0, b0) + Pow2(k) * Or(a1, b1)
  {
    if k != 0 {
      OrSplit(a0 / 2, a1, b0 / 2, b1, k - 1);
      HalveSplit(a0, a1, k);
      HalveSplit(b0, b1, k);
      HalveSplit(0, Or(a1, b1), k);
    }
  }

  lemma HalveSplit(a0: nat, a1: nat, k: nat)
    requires k > 0
    ensures (a0 + Pow2(k) * a1) / 2 == a0 / 2 + Pow2(k - 1) * a1
    ensures (a0 + Pow2(k) * a1) % 2 == a0 % 2
    ensures Pow2(k) * a1 == 2 * (Pow2(k - 1) * a1)
  {
  }

  lemma {:induction false} OrZero(a: nat)
    ensures Or(a, 0) == a && Or(0, a) == a
  {
    if a != 0 {
      OrZero(a / 2);
    }
  }

  /** One bit more of a number. */
  lemma {:induction false} OneMoreBit(x: nat, n: nat)
    ensures x % Pow2(n + 1) == x % Pow2(n) + Pow2(n) * (if TestBit(x, n) then 1 else 0)
    decreases n, x
  {
    if n != 0 {
      OneMoreBit(x / 2, n - 1);
      DoubleModulus(x, Pow2(n));
      DoubleModulus(x, Pow2(n - 1));
    }
  }

  lemma {:induction false} AndSelf(x: nat)
    ensures And(x, x) == x
  {
    if x != 0 {
      AndSelf(x / 2);
    }
  }

  lemma {:induction false} AndCommutes(x: nat, y: nat)
    ensures And(x, y) == And(y, x)
  {
    if x != 0 && y != 0 {
      AndCommutes(x / 2, y / 2);
    }
  }

  lemma {:induction false} AndAssociates(x: nat, y: nat, z: nat)
    ensures And(And(x, y), z) == And(x, And(y, z))
  {
    if x != 0 && y != 0 && z != 0 {
      AndAssociates(x / 2, y / 2, z / 2);
      AndHalves(x, y);
      AndHalves(y, z);
      AndHalves(And(x, y), z);
      AndHalves(x, And(y, z));
    }
  }

  lemma AndHalves(x: nat, y: nat)
    ensures And(x, y) / 2 == And(x / 2, y / 2)
    ensures And(x, y) % 2 == (if x % 2 == 1 && y % 2 == 1 then 1 else 0)
  {
  }

  lemma {:induction false} AndAllOnes(x: nat, n: nat)
    requires x < Pow2(n)
    ensures And(Pow2(n) - 1, x) == x
  {
    if n != 0 && x != 0 {
      AndAllOnes(x / 2, n - 1);
    }
  }

  /** An erased byte takes whatever is programmed into it. */
  lemma AndOnes(x: nat)
    requires x < 0x100
    ensures And(0xFF, x) == x && And(x, 0xFF) == x
  {
    Pow2Values();
    AndAllOnes(x, 8);
    AndCommutes(x, 0xFF);
  }

  function Pow2(n: nat): (p: nat)
    ensures p > 0
  {
     if n == 0 then 1 else 2 * Pow2(n - 1)
  }

  /** Bit `i` of `x`, as `x & (1 << i) != 0`. */
  predicate TestBit(x: nat, i: nat)
    decreases i, x
  {
    if i == 0 then x % 2 == 1 else TestBit(x / 2, i - 1)
  }

  lemma {:induction false} TestBitOfZero(i: nat)
    ensures !TestBit(0, i)
  {
    if i != 0 {
      TestBitOfZero(i - 1);
    }
  }

  /** Setting bit `k` of a number that has no bits from `k` on. */
  lemma {:induction false} SetBit(x: nat, k: nat, i: nat)
    requires x < Pow2(k)
    ensures TestBit(x + Pow2(k), i) <==> i == k || TestBit(x, i)
  {
    if i == 0 {
    } else if k == 0 {
      TestBitOfZero(i - 1);
    } else {
      SetBit(x / 2, k - 1, i - 1);
      assert (x + Pow2(k)) / 2 == x / 2 + Pow2(k - 1);
    }
  }

  lemma {:induction false} Pow2Small(k: nat)
    requires k <= 8
    ensures Pow2(k) <= 0x100
    decreases 8 - k
  {
    if k < 8 {
      Pow2Small(k + 1);
    } else {
      Pow2Values();
    }
  }

  /** The low `n` bits of `x`, most significant first. */
  function ToBits(x: nat, n: nat): (bits: seq<bool>)
    ensures |bits| == n
    decreases n, x
  {
    if n == 0 then [] else ToBits(x / 2, n - 1) + [x % 2 == 1]
  }

  lemma {:induction false} ToBitsInjective(x: nat, y: nat, n: nat)
    requires x < Pow2(n) && y < Pow2(n) && ToBits(x, n) == ToBits(y, n)
    ensures x == y
  {
    if n != 0 {
      assert ToBits(x, n)[n - 1] == ToBits(y, n)[n - 1];
      assert ToBits(x / 2, n - 1) == ToBits(x, n)[..n - 1] == ToBits(y, n)[..n - 1] == ToBits(y / 2, n - 1);
      ToBitsInjective(x / 2, y / 2, n - 1);
    }
  }

  lemma {:induction false} XorBits(a: nat, b: nat, n: nat)
    ensures forall i :: 0 <= i < n ==> ToBits(Xor(a, b), n)[i] == (ToBits(a, n)[i] != ToBits(b, n)[i])
  {
    if n != 0 {
      XorBits(a / 2, b / 2, n - 1);
      assert Xor(a, b) % 2 == (if a % 2 != b % 2 then 1 else 0) && Xor(a, b) / 2 == Xor(a / 2, b / 2);
    }
  }

  /** Shifting left by `k` appends `k` zeros below the bits that are still looked at. */
  lemma {:induction false} ShiftLeftBits(x: nat, n: nat, k: nat)
    ensures ToBits(x * Pow2(k), n + k) == ToBits(x, n) + seq(k, _ => false)
  {
    if k == 0 {
      assert ToBits(x, n) + seq(0, _ => false) == ToBits(x, n);
    } else {
      assert x * Pow2(k) == 2 * (x * Pow2(k - 1));
      ShiftLeftBits(x, n, k - 1);
      assert seq(k, _ => false) == seq(k - 1, _ => false) + [false];
    }
  }

  /** Looking at fewer bits drops leading ones. */
  lemma {:induction false} DropLeadingBits(x: nat, n: nat, k: nat)
    ensures ToBits(x, n + k)[k..] == ToBits(x, n)
  {
    if n != 0 {
      DropLeadingBits(x / 2, n - 1, k);
    }
  }

  lemma DoubleModulus(x: nat, p: nat)
    requires p > 0
    ensures x % (2 * p) == 2 * (x / 2 % p) + x % 2
  {
    var h := x / 2;
    var q, r := h / p, h % p;
    assert h == p * q + r;
    assert x == (2 * p) * q + (2 * r + x % 2) by {
      assert (2 * p) * q == 2 * (p * q);
    }
    assert 0 <= 2 * r + x % 2 < 2 * p;
    QuotientRemainder(x, 2 * p, q, 2 * r + x % 2);
  }

  lemma QuotientRemainder(x: int, d: int, q: int, r: int)
    requires 0 <= r < d && x == d * q + r
    ensures x / d == q && x % d == r
  {
    var k, m := x / d, x % d;
    assert x == d * k + m;
    if q > k {
      MulMonotone(d, k + 1, q);
    } else if q < k {
      MulMonotone(d, q + 1, k);
    }
  }

  lemma ModStep(a: nat, m: nat)
    requires m > 0
    ensures (a + 1) % m == if a % m + 1 == m then 0 else a % m + 1
  {
    var q, r := a / m, a % m;
    assert a == m * q + r;
    if r + 1 == m {
      assert a + 1 == m * (q + 1) + 0;
      QuotientRemainder(a + 1, m, q + 1, 0);
    } else {
      QuotientRemainder(a + 1, m, q, r + 1);
    }
  }

  lemma SmallMod(a: nat, m: nat)
    requires a < m
    ensures a % m == a
  {
  }

  lemma MulMonotone(d: nat, a: int, b: int)
    requires a <= b
    ensures d * a <= d * b
    ensures d * (a - 1) == d * a - d && d * (b - 1) == d * b - d
  {
  }

  lemma {:induction false} ModBits(x: nat, n: nat)
    ensures ToBits(x % Pow2(n), n) == ToBits(x, n)
  {
    if n != 0 {
      DoubleModulus(x, Pow2(n - 1));
      ModBits(x / 2, n - 1);
    }
  }

  lemma Pow2Values()
    ensures Pow2(8) == 0x100 && Pow2(15) == 0x8000 && Pow2(16) == 0x1_0000
  {
  }

  lemma {:induction false} XorBelow(a: nat, b: nat, n: nat)
    requires a < Pow2(n) && b < Pow2(n)
    ensures Xor(a, b) < Pow2(n)
  {
    if n != 0 {
      XorBelow(a / 2, b / 2, n - 1);
    }
  }

  lemma XorMod(a: nat, b: nat, n: nat)
    ensures Xor(a, b) % Pow2(n) == Xor(a % Pow2(n), b % Pow2(n))
  {
    var a', b' := a % Pow2(n), b % Pow2(n);
    XorBits(a, b, n);
    XorBits(a', b', n);
    ModBits(a, n);
    ModBits(b, n);
    ModBits(Xor(a, b), n);
    assert ToBits(Xor(a, b) % Pow2(n), n) == ToBits(Xor(a', b'), n);
    XorBelow(a', b', n);
    ToBitsInjective(Xor(a, b) % Pow2(n), Xor(a', b'), n);
  }

  lemma {:induction false} BitAt(x: nat, n: nat, i: nat)
    requires i < n
    ensures ToBits(x, n)[i] == (x / Pow2(n - 1 - i) % 2 == 1)
  {
    if i < n - 1 {
      BitAt(x / 2, n - 1, i);
      DivideTwice(x, Pow2(n - 2 - i));
    }
  }

  lemma DivideTwice(x: nat, p: nat)
    requires p > 0
    ensures x / 2 / p == x / (2 * p)
  {
    DoubleModulus(x, p);
    var h := x / 2;
    assert x == (2 * p) * (h / p) + (2 * (h % p) + x % 2) by {
      assert h == p * (h / p) + h % p;
      assert (2 * p) * (h / p) == 2 * (p * (h / p));
    }
    QuotientRemainder(x, 2 * p, h / p, 2 * (h % p) + x % 2);
  }

  lemma DoubledBits(x: nat, doubled: nat, n: nat)
    requires doubled == 2 * x
    ensures ToBits(doubled % Pow2(n + 1), n + 1) == ToBits(x, n + 1)[1..] + [false]
  {
    ModBits(doubled, n + 1);
    assert doubled / 2 == x && doubled % 2 == 0;
    assert ToBits(doubled, n + 1) == ToBits(x, n) + [false];
    DropLeadingBits(x, n, 1);
  }

  lemma {:induction false} SplitBits(x: nat, q: nat, n: nat, k: nat)
    requires q == x / Pow2(k)
    ensures ToBits(x, n + k) == ToBits(q, n) + ToBits(x, k)
  {
    if k != 0 {
      DivideTwice(x, Pow2(k - 1));
      SplitBits(x / 2, q, n, k - 1);
    }
  }

  /** The nibbles of 0x1021. */
  lemma NibbleBits()
    ensures ToBits(0, 4) == [false, false, false, false]
    ensures ToBits(1, 4) == [false, false, false, true]
    ensures ToBits(2, 4) == [false, false, true, false]
  {
  }

  /** Two groups of bits side by side. */
  lemma JoinBits(x: nat, q: nat, r: nat, n: nat, k: nat)
    requires r < Pow2(k) && x == Pow2(k) * q + r
    ensures ToBits(x, n + k) == ToBits(q, n) + ToBits(r, k)
  {
    QuotientRemainder(x, Pow2(k), q, r);
    SplitBits(x, q, n, k);
    ModBits(x, k);
  }
}
