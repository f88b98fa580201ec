/**
 * The standard DCS codes, and which of them the receiver can tell apart. Words are bit vectors here, on which the
 * verifier can compute; `Stands` ties them to the numbers of the encoder.
 */
module DcsStandard {
  import opened Bits
  import opened Bytes
  import opened Dcs

  // ---- bit vectors and the numbers they stand for -----------------------------

  /** `v` has the bits `s`, the highest first. */
  ghost predicate Shows(v: bv23, s: seq<bool>) {
    && |s| == 23
    && (s[0] <==> v & 0x400000 != 0) && (s[1] <==> v & 0x200000 != 0)
    && (s[2] <==> v & 0x100000 != 0) && (s[3] <==> v & 0x80000 != 0)
    && (s[4] <==> v & 0x40000 != 0) && (s[5] <==> v & 0x20000 != 0)
    && (s[6] <==> v & 0x10000 != 0) && (s[7] <==> v & 0x8000 != 0)
    && (s[8] <==> v & 0x4000 != 0) && (s[9] <==> v & 0x2000 != 0)
    && (s[10] <==> v & 0x1000 != 0) && (s[11] <==> v & 0x800 != 0)
    && (s[12] <==> v & 0x400 != 0) && (s[13] <==> v & 0x200 != 0)
    && (s[14] <==> v & 0x100 != 0) && (s[15] <==> v & 0x80 != 0)
    && (s[16] <==> v & 0x40 != 0) && (s[17] <==> v & 0x20 != 0)
    && (s[18] <==> v & 0x10 != 0) && (s[19] <==> v & 0x8 != 0)
    && (s[20] <==> v & 0x4 != 0) && (s[21] <==> v & 0x2 != 0)
    && (s[22] <==> v & 0x1 != 0)
  }

  /** `v` is the number `x` in 23 bits. */
  ghost predicate Stands(v: bv23, x: nat) {
    x < 0x80_0000 && Shows(v, ToBits(x, 23))
  }

  lemma SameBits(u: bv23, v: bv23, s: seq<bool>)
    requires Shows(u, s) && Shows(v, s)
    ensures u == v
  {
  }

  lemma ShiftedDown(v: bv23, s: seq<bool>)
    requires Shows(v, s)
    ensures Shows(v >> 1, [false] + s[..22])
  {
  }

  lemma ShiftedUp(v: bv23, s: seq<bool>, b: bool)
    requires Shows(v, s)
    ensures Shows((v << 1) | (if b then 1 else 0), s[1..] + [b])
  {
  }

  /** One place to the left, the top bit coming back at the bottom. */
  function Turned(v: bv23): bv23 { (v << 1) | (v >> 22) }

  lemma TurnedBits(v: bv23, s: seq<bool>)
    requires Shows(v, s)
    ensures Shows(Turned(v), s[1..] + [s[0]])
  {
    TopBit(v);
    ShiftedUp(v, s, v & 0x40_0000 != 0);
    assert s[1..] + [s[0]] == s[1..] + [v & 0x40_0000 != 0];
  }

  lemma TopBit(v: bv23)
    ensures v >> 22 == if v & 0x40_0000 != 0 then 1 else 0
  {
  }

  lemma PolyAdded(u: bv23, s: seq<bool>, t: seq<bool>)
    requires Shows(u, s) && |t| == 23
    requires forall i :: 0 <= i < 23 ==> t[i] == (s[i] != ToBits(GOLAY_POLY, 23)[i])
    requires Shows(0xC75, ToBits(GOLAY_POLY, 23))
    ensures Shows(u ^ 0xC75, t)
  {
  }

  lemma HalfBits(x: nat)
    requires x < 0x80_0000
    ensures ToBits(x / 2, 23) == [false] + ToBits(x, 23)[..22]
    ensures ToBits(x, 23)[22] == (x % 2 == 1) && ToBits(x, 23)[21] == (x / 2 % 2 == 1)
  {
    DropLeadingBits(x / 2, 22, 1);
    TwelveBits();
    TopPlace(x / 2, 22);
    assert ToBits(x, 23) == ToBits(x / 2, 22) + [x % 2 == 1];
    assert ToBits(x / 2, 22) == ToBits(x / 2 / 2, 21) + [x / 2 % 2 == 1];
    assert ToBits(x / 2, 23) == ToBits(x / 2, 23)[..1] + ToBits(x / 2, 23)[1..];
  }

  lemma Halved(v: bv23, x: nat)
    requires Stands(v, x)
    ensures Stands(v >> 1, x / 2)
    ensures (x % 2 == 1 <==> v & 1 != 0) && (x / 2 % 2 == 1 <==> v & 2 != 0)
  {
    HalfBits(x);
    ShiftedDown(v, ToBits(x, 23));
  }

  lemma OneBitMore(x: nat, b: bool)
    requires x < 0x40_0000
    ensures ToBits(2 * x + if b then 1 else 0, 23) == ToBits(x, 23)[1..] + [b]
  {
    var y := 2 * x + if b then 1 else 0;
    DropLeadingBits(x, 22, 1);
    assert y / 2 == x;
    assert ToBits(y, 23) == ToBits(x, 22) + [b];
  }

  lemma Doubled(v: bv23, x: nat, b: bool)
    requires Stands(v, x) && x < 0x40_0000
    ensures Stands((v << 1) | (if b then 1 else 0), 2 * x + if b then 1 else 0)
  {
    ShiftedUp(v, ToBits(x, 23), b);
    OneBitMore(x, b);
  }

  lemma NoBits(n: nat)
    ensures ToBits(0, n) == seq(n, _ => false)
    decreases n
  {
  }

  lemma Nothing()
    ensures Stands(0, 0)
  {
    NoBits(23);
  }

  /** The generator, bit by bit. */
  lemma Generator()
    ensures Stands(0xC75, GOLAY_POLY)
  {
    Nothing();
    Doubled(0x0, 0x0, true);
    Doubled(0x1, 0x1, true);
    Doubled(0x3, 0x3, false);
    Doubled(0x6, 0x6, false);
    Doubled(0xC, 0xC, false);
    Doubled(0x18, 0x18, true);
    Doubled(0x31, 0x31, true);
    Doubled(0x63, 0x63, true);
    Doubled(0xC7, 0xC7, false);
    Doubled(0x18E, 0x18E, true);
    Doubled(0x31D, 0x31D, false);
    Doubled(0x63A, 0x63A, true);
  }

  // ---- the encoder ------------------------------------------------------------

  function Fed(s: bv23, r: bv23): bv23 { (r >> 1) ^ (if (s & 1 != 0) == (r & 2 != 0) then 0 else 0xC75) }

  function FedFour(s: bv23, r: bv23): bv23 {
    Fed(s >> 3, Fed(s >> 2, Fed(s >> 1, Fed(s, r))))
  }

  /** The register after twelve source bits. */
  function Register(s: bv23): bv23 {
    FedFour(s >> 8, FedFour(s >> 4, FedFour(s, 0)))
  }

  /** `n` more source bits. */
  function FedAll(s: bv23, r: bv23, n: nat): bv23
    decreases n, s, r
  {
    if n == 0 then r else FedAll(s >> 1, Fed(s, r), n - 1)
  }

  lemma OneMore(s: bv23, r: bv23, n: nat)
    ensures FedAll(s, r, n + 1) == FedAll(s >> 1, Fed(s, r), n)
  {
  }

  lemma Shifts(s: bv23)
    ensures (s >> 1) >> 1 == s >> 2 && (s >> 2) >> 1 == s >> 3 && (s >> 3) >> 1 == s >> 4
  {
  }

  lemma FourMore(s: bv23, r: bv23, n: nat)
    ensures FedAll(s, r, n + 4) == FedAll(s >> 4, FedFour(s, r), n)
  {
    Shifts(s);
    var r1 := Fed(s, r);
    var r2 := Fed(s >> 1, r1);
    var r3 := Fed(s >> 2, r2);
    OneMore(s, r, n + 3);
    OneMore(s >> 1, r1, n + 2);
    OneMore(s >> 2, r2, n + 1);
    OneMore(s >> 3, r3, n);
  }

  lemma RegisterUnrolled(s: bv23)
    ensures FedAll(s, 0, 12) == Register(s)
  {
    var a := FedFour(s, 0);
    var b := FedFour(s >> 4, a);
    FourMore(s, 0, 8);
    FourMore(s >> 4, a, 4);
    FourMore(s >> 8, b, 0);
    assert (s >> 4) >> 4 == s >> 8;
  }

  /** After `n` source bits the register is `r`; `t` has the source bits to come. */
  ghost predicate Reached(source: nat, n: nat, t: bv23, rest: nat, r: bv23) {
    && Stands(r, Lfsr(source, n)) && Stands(t, rest)
    && forall j: nat :: TestBit(source, n + j) == TestBit(rest, j)
  }

  lemma FeedStands(t: bv23, rest: nat, r: bv23, x: nat)
    requires Stands(t, rest) && Stands(r, x) && x < 0x1000
    ensures Stands(Fed(t, r), Xor(x / 2, if TestBit(rest, 0) == TestBit(x, 1) then 0 else GOLAY_POLY))
  {
    Halved(t, rest);
    Halved(r, x);
    if TestBit(rest, 0) == TestBit(x, 1) {
      XorZero(x / 2);
    } else {
      AddedStands(r >> 1, x / 2);
    }
  }

  lemma AddedStands(v: bv23, x: nat)
    requires Stands(v, x) && x < 0x1000
    ensures Stands(v ^ 0xC75, Xor(x, GOLAY_POLY))
  {
    Generator();
    XorBits(x, GOLAY_POLY, 23);
    TwelveBits();
    XorBelow(x, GOLAY_POLY, 12);
    PolyAdded(v, ToBits(x, 23), ToBits(Xor(x, GOLAY_POLY), 23));
  }

  lemma ReachedNext(source: nat, n: nat, t: bv23, rest: nat, r: bv23)
    requires Reached(source, n, t, rest, r)
    ensures Reached(source, n + 1, t >> 1, rest / 2, Fed(t, r))
  {
    LfsrBelow(source, n);
    assert TestBit(source, n + 0) == TestBit(rest, 0);
    FeedStands(t, rest, r, Lfsr(source, n));
    Halved(t, rest);
    forall j: nat
      ensures TestBit(source, n + 1 + j) == TestBit(rest / 2, j)
    {
      assert TestBit(source, n + (1 + j)) == TestBit(rest, 1 + j);
    }
  }

  lemma {:induction false} FedAllStands(source: nat, k: nat, t: bv23, rest: nat, r: bv23, n: nat)
    requires Reached(source, k, t, rest, r)
    ensures Stands(FedAll(t, r, n), Lfsr(source, k + n))
    decreases n
  {
    if n != 0 {
      ReachedNext(source, k, t, rest, r);
      FedAllStands(source, k + 1, t >> 1, rest / 2, Fed(t, r), n - 1);
    }
  }

  lemma RegisterStands(s: bv23, source: nat)
    requires Stands(s, source)
    ensures Stands(FedAll(s, 0, 12), Lfsr(source, 12))
  {
    Nothing();
    assert forall j: nat :: TestBit(source, 0 + j) == TestBit(source, j);
    FedAllStands(source, 0, s, source, 0, 12);
  }

  /** The number a bit vector stands for. */
  function Code(c: bv23): nat
    decreases c
  {
    if c == 0 then 0 else 2 * Code(c >> 1) + if c & 1 != 0 then 1 else 0
  }

  lemma {:induction false} CodeStands(c: bv23)
    ensures Stands(c, Code(c))
    decreases c
  {
    if c == 0 {
      Nothing();
    } else {
      CodeStands(c >> 1);
      CodeStep(c, Code(c >> 1));
    }
  }

  lemma CodeStep(c: bv23, x: nat)
    requires Stands(c >> 1, x)
    ensures Stands(c, 2 * x + if c & 1 != 0 then 1 else 0)
  {
    BelowTop(c >> 1, x);
    ShiftedBack(c, ToBits(x, 23));
    OneBitMore(x, c & 1 != 0);
  }

  lemma ShiftedBack(c: bv23, s: seq<bool>)
    requires Shows(c >> 1, s)
    ensures Shows(c, s[1..] + [c & 1 != 0])
  {
  }

  lemma BelowTop(v: bv23, x: nat)
    requires Stands(v, x) && v & 0x40_0000 == 0
    ensures x < 0x40_0000
  {
    TwelveBits();
    TopPlace(x, 22);
  }

  lemma Below(v: bv23, x: nat)
    requires Stands(v, x) && v < 0x200
    ensures x < 0x200
  {
    assert Pow2(9) == 0x200;
    var q := x / 0x200;
    SplitBits(x, q, 14, 9);
    NoBits(14);
    assert ToBits(q, 14) == ToBits(x, 23)[..14];
    assert forall i :: 0 <= i < 14 ==> !ToBits(x, 23)[i];
    assert Pow2(14) == 0x4000;
    ToBitsInjective(q, 0, 14);
  }

  lemma FramedBits(c: bv23, s: seq<bool>)
    requires Shows(c, s)
    ensures Shows(c | 0x800, s[11 := true])
  {
  }

  lemma FramedStands(c: bv23, x: nat)
    requires Stands(c, x) && x < 0x200
    ensures Stands(c | 0x800, x + 0x800)
  {
    FramedBits(c, ToBits(x, 23));
    TwelveBits();
    JoinBits(x + 0x800, 1, x, 12, 11);
    JoinBits(x, 0, x, 12, 11);
    NoBits(12);
    NoBits(11);
    assert ToBits(1, 12) == ToBits(0, 11) + [true];
  }

  /** The whole word of a code. */
  function Word(c: bv23): bv23 { (c | 0x800) | (FedAll(c | 0x800, 0, 12) << 11) }

  lemma Joined(r: bv23, c: bv23, s: seq<bool>, t: seq<bool>)
    requires Shows(r, s) && Shows(c, t) && r < 0x1000 && r & 1 != 0 && c < 0x1000 && c & 0x800 != 0
    ensures Shows(c | (r << 11), s[11..22] + t[11..])
  {
  }

  lemma Above(v: bv23, s: seq<bool>)
    requires Shows(v, s) && forall i :: 0 <= i < 11 ==> !s[i]
    ensures v < 0x1000
  {
  }

  lemma TwelveLow(x: nat)
    requires x < 0x1000
    ensures ToBits(x, 23)[11..] == ToBits(x, 12) && forall i :: 0 <= i < 11 ==> !ToBits(x, 23)[i]
    ensures ToBits(x, 23)[11..22] == ToBits(x / 2, 11)
  {
    TwelveBits();
    SplitBits(x, 0, 11, 12);
    NoBits(11);
    assert ToBits(x, 12) == ToBits(x / 2, 11) + [x % 2 == 1];
  }

  lemma JoinedBits(parity: nat, source: nat)
    requires parity < 0x1000 && source < 0x1000
    ensures ToBits(source + 0x1000 * (parity / 2), 23) == ToBits(parity, 23)[11..22] + ToBits(source, 23)[11..]
  {
    assert ToBits(parity, 23)[11..22] == ToBits(parity / 2, 11) by { TwelveLow(parity); }
    assert ToBits(source, 23)[11..] == ToBits(source, 12) by { TwelveLow(source); }
    assert Pow2(12) == 0x1000 by { TwelveBits(); }
    JoinBits(source + 0x1000 * (parity / 2), parity / 2, source, 11, 12);
  }

  lemma TwelveBitsOnly(v: bv23, x: nat)
    requires Stands(v, x) && x < 0x1000
    ensures v < 0x1000
  {
    TwelveLow(x);
    Above(v, ToBits(x, 23));
  }

  lemma JoinedStands(r: bv23, parity: nat, c: bv23, source: nat)
    requires Stands(r, parity) && Stands(c, source) && parity < 0x1000 && source < 0x1000
    requires parity % 2 == 1 && c & 0x800 != 0
    ensures Stands(c | (r << 11), source + 0x1000 * (parity / 2))
  {
    TwelveBitsOnly(r, parity);
    TwelveBitsOnly(c, source);
    Halved(r, parity);
    JoinedBits(parity, source);
    Joined(r, c, ToBits(parity, 23), ToBits(source, 23));
  }

  lemma SourceStands(c: bv23)
    requires c < 0x200
    ensures Code(c) < 0x200 && Stands(c | 0x800, Code(c) + 0x800)
  {
    CodeStands(c);
    Below(c, Code(c));
    FramedStands(c, Code(c));
  }

  /** The bit-vector encoder computes the words the receiver compares. */
  lemma WordStands(c: bv23)
    requires c < 0x200
    ensures Code(c) < 0x200 && Stands(Word(c), Pattern(Code(c)))
  {
    SourceStands(c);
    EncodedStands(c | 0x800, Code(c));
  }

  lemma EncodedStands(s: bv23, code: nat)
    requires code < 0x200 && Stands(s, code + 0x800) && s & 0x800 != 0
    ensures Stands(s | (FedAll(s, 0, 12) << 11), Pattern(code))
  {
    var parity := RegisterPart(s, code);
    JoinedStands(FedAll(s, 0, 12), parity, s, code + 0x800);
  }

  /** The same without recursion. */
  function QuickWord(c: bv23): bv23 { (c | 0x800) | (Register(c | 0x800) << 11) }

  lemma QuickIsWord(c: bv23)
    ensures QuickWord(c) == Word(c)
  {
    RegisterUnrolled(c | 0x800);
  }

  lemma RegisterPart(s: bv23, code: nat) returns (parity: nat)
    requires code < 0x200 && Stands(s, code + 0x800)
    ensures Stands(FedAll(s, 0, 12), parity) && parity < 0x1000 && parity % 2 == 1
    ensures Pattern(code) == code + 0x800 + 0x1000 * (parity / 2)
  {
    RegisterStands(s, code + 0x800);
    LfsrEnds(code);
    parity := Lfsr(code + 0x800, 12);
    WholePattern(code, code + 0x800 + 0x1000 * (parity / 2));
  }

  lemma WholePattern(code: nat, w: nat)
    requires DcsWord(code) == w && w < 0x80_0000
    ensures Pattern(code) == w
  {
  }

  lemma LfsrEnds(code: nat)
    requires code < 0x200
    ensures var parity := Lfsr(code + 0x800, 12);
            parity < 0x1000 && parity % 2 == 1 && DcsWord(code) == code + 0x800 + 0x1000 * (parity / 2)
  {
    var q := LfsrAtEnd(code + 0x800);
    WordEnds(code, Lfsr(code + 0x800, 12));
  }

  lemma WordEnds(code: nat, parity: nat)
    requires code < 0x200 && Lfsr(code + 0x800, 12) == parity && parity % 2 == 1
    ensures DcsWord(code) == code + 0x800 + 0x1000 * (parity / 2)
  {
    SourceOf(code);
    WordIsJoined(code, code + 0x800, parity);
    JoinParity(code, parity);
  }

  lemma WordIsJoined(code: nat, source: nat, parity: nat)
    requires Source(code) == source && Lfsr(source, 12) == parity
    ensures DcsWord(code) == Or(source, parity * 0x800)
  {
  }

  // ---- turning words ------------------------------------------------------------

  function Turn(w: bv23, k: nat): bv23
    decreases k, w
  {
    if k == 0 then w else Turned(Turn(w, k - 1))
  }

  lemma {:induction false} TurnStands(w: bv23, x: nat, k: nat)
    requires Stands(w, x)
    ensures Stands(Turn(w, k), Rotated(x, k))
    decreases k
  {
    if k != 0 {
      TurnStands(w, x, k - 1);
      RotateBits(Rotated(x, k - 1));
      TurnedBits(Turn(w, k - 1), ToBits(Rotated(x, k - 1), 23));
    }
  }

  lemma {:induction false} TurnTwice(w: bv23, j: nat, k: nat)
    ensures Turn(Turn(w, j), k) == Turn(w, j + k)
    decreases k
  {
    if k != 0 {
      TurnTwice(w, j, k - 1);
    }
  }

  /** Codes outside the standard table with the word of a larger code inside it. */
  predicate Unlisted(d: bv23) {
    || d == 0x1F || d == 0x2E || d == 0x2F || d == 0x30 || d == 0x36 || d == 0x37 || d == 0x3D || d == 0x3E
    || d == 0x44 || d == 0x47 || d == 0x4F || d == 0x53 || d == 0x57 || d == 0x58 || d == 0x5B || d == 0x5D
    || d == 0x5E || d == 0x62 || d == 0x64 || d == 0x67 || d == 0x68 || d == 0x6B || d == 0x6F || d == 0x71
    || d == 0x73 || d == 0x74 || d == 0x79 || d == 0x7E || d == 0x83 || d == 0x87 || d == 0x8B || d == 0x8F
    || d == 0x92 || d == 0x94 || d == 0x97 || d == 0x99 || d == 0x9C || d == 0x9D || d == 0x9E || d == 0x9F
    || d == 0xAC || d == 0xAE || d == 0xB2 || d == 0xBE || d == 0xC3 || d == 0xC7 || d == 0xCA || d == 0xCB
    || d == 0xCC || d == 0xCE || d == 0xCF || d == 0xD2 || d == 0xD4 || d == 0xD6 || d == 0xE4 || d == 0xE5
    || d == 0xF2 || d == 0xF3 || d == 0x11E || d == 0x123 || d == 0x124 || d == 0x127 || d == 0x130 || d == 0x139
    || d == 0x13B || d == 0x13C || d == 0x141 || d == 0x142 || d == 0x144 || d == 0x14D || d == 0x170 || d == 0x172
    || d == 0x187 || d == 0x189 || d == 0x1B3 || d == 0x1B9
  }

  const CODE_526: bv23 := 0x156

  const CODE_645: bv23 := 0x1A5

  /** If `v` is the word of a code smaller than `c`, that is no standard one; but 645 has the word of 526. */
  predicate Harmless(v: bv23, c: bv23) {
    v & 0xE00 == 0x800 && v & 0x1FF < c ==> Unlisted(v & 0x1FF) || (c == CODE_645 && v & 0x1FF == CODE_526)
  }

  predicate EightHarmless(w: bv23, c: bv23) {
    && Harmless(w, c)
    && Harmless((w << 1) | (w >> 22), c)
    && Harmless((w << 2) | (w >> 21), c)
    && Harmless((w << 3) | (w >> 20), c)
    && Harmless((w << 4) | (w >> 19), c)
    && Harmless((w << 5) | (w >> 18), c)
    && Harmless((w << 6) | (w >> 17), c)
    && Harmless((w << 7) | (w >> 16), c)
  }

  predicate AllHarmless(w: bv23, c: bv23) {
    EightHarmless(w, c) && EightHarmless((w << 8) | (w >> 15), c) && EightHarmless((w << 16) | (w >> 7), c)
  }

  lemma OnePlaceMore(w: bv23)
    ensures Turned((w << 1) | (w >> 22)) == (w << 2) | (w >> 21)
    ensures Turned((w << 2) | (w >> 21)) == (w << 3) | (w >> 20)
    ensures Turned((w << 3) | (w >> 20)) == (w << 4) | (w >> 19)
    ensures Turned((w << 4) | (w >> 19)) == (w << 5) | (w >> 18)
    ensures Turned((w << 5) | (w >> 18)) == (w << 6) | (w >> 17)
    ensures Turned((w << 6) | (w >> 17)) == (w << 7) | (w >> 16)
    ensures Turned((w << 7) | (w >> 16)) == (w << 8) | (w >> 15)
  {
  }

  lemma TurnStep(w: bv23, k: nat, u: bv23, v: bv23)
    requires Turn(w, k) == u && Turned(u) == v
    ensures Turn(w, k + 1) == v
  {
  }

  lemma FourTurns(w: bv23)
    ensures Turn(w, 0) == w
    ensures Turn(w, 1) == (w << 1) | (w >> 22)
    ensures Turn(w, 2) == (w << 2) | (w >> 21)
    ensures Turn(w, 3) == (w << 3) | (w >> 20)
    ensures Turn(w, 4) == (w << 4) | (w >> 19)
  {
    OnePlaceMore(w);
    TurnStep(w, 0, w, (w << 1) | (w >> 22));
    TurnStep(w, 1, (w << 1) | (w >> 22), (w << 2) | (w >> 21));
    TurnStep(w, 2, (w << 2) | (w >> 21), (w << 3) | (w >> 20));
    TurnStep(w, 3, (w << 3) | (w >> 20), (w << 4) | (w >> 19));
  }

  lemma EightTurns(w: bv23)
    ensures Turn(w, 5) == (w << 5) | (w >> 18)
    ensures Turn(w, 6) == (w << 6) | (w >> 17)
    ensures Turn(w, 7) == (w << 7) | (w >> 16)
    ensures Turn(w, 8) == (w << 8) | (w >> 15)
  {
    OnePlaceMore(w);
    FourTurns(w);
    TurnStep(w, 4, (w << 4) | (w >> 19), (w << 5) | (w >> 18));
    TurnStep(w, 5, (w << 5) | (w >> 18), (w << 6) | (w >> 17));
    TurnStep(w, 6, (w << 6) | (w >> 17), (w << 7) | (w >> 16));
    TurnStep(w, 7, (w << 7) | (w >> 16), (w << 8) | (w >> 15));
  }

  lemma EightCovered(w: bv23, c: bv23, k: nat)
    requires EightHarmless(w, c) && k < 8
    ensures Harmless(Turn(w, k), c)
  {
    if k < 4 {
      FourTurns(w);
    } else {
      FourTurns(w);
      EightTurns(w);
    }
  }

  lemma EveryTurnHarmless(w: bv23, c: bv23, k: nat)
    requires AllHarmless(w, c) && k < 24
    ensures Harmless(Turn(w, k), c)
  {
    var v := Turn(w, 8);
    EightTurns(w);
    if k < 8 {
      EightCovered(w, c, k);
    } else if k < 16 {
      TurnTwice(w, 8, k - 8);
      EightCovered(v, c, k - 8);
    } else {
      EightTurns(v);
      SixteenPlaces(w);
      TurnTwice(w, 8, 8);
      TurnTwice(w, 16, k - 16);
      EightCovered(Turn(w, 16), c, k - 16);
    }
  }

  lemma SixteenPlaces(w: bv23)
    ensures var v := (w << 8) | (w >> 15); (v << 8) | (v >> 15) == (w << 16) | (w >> 7)
  {
  }

  lemma WordKeepsCode(d: bv23)
    requires d < 0x200
    ensures Word(d) & 0xE00 == 0x800 && Word(d) & 0x1FF == d
  {
    LowBitsKept(d, FedAll(d | 0x800, 0, 12));
  }

  lemma LowBitsKept(d: bv23, r: bv23)
    requires d < 0x200
    ensures ((d | 0x800) | (r << 11)) & 0xE00 == 0x800 && ((d | 0x800) | (r << 11)) & 0x1FF == d
  {
  }

  lemma PhasesTurnBack(v: nat, w: nat) returns (k: nat)
    requires v < 0x80_0000 && SomePhase(v, w)
    ensures k < 24 && w < 0x80_0000 && Rotated(w, k) == v
  {
    var j: nat :| j < 23 && Rotated(v, j) == w;
    k := 23 - j;
    RotatedTwice(v, j, k);
    FullTurn(v);
  }

  lemma TakenForUnlisted(c: bv23, d: bv23)
    requires d < c < 0x200 && AllHarmless(QuickWord(c), c)
    requires SomePhase(Pattern(Code(d)), Pattern(Code(c)))
    ensures Unlisted(d) || (c == CODE_645 && d == CODE_526)
  {
    QuickIsWord(c);
    var k := PhasesTurnBack(Pattern(Code(d)), Pattern(Code(c)));
    SameWord(d, c, k);
    EveryTurnHarmless(Word(c), c, k);
    WordKeepsCode(d);
    HarmlessWord(Word(d), c, d);
  }

  lemma HarmlessWord(v: bv23, c: bv23, d: bv23)
    requires Harmless(v, c) && v & 0xE00 == 0x800 && v & 0x1FF == d && d < c
    ensures Unlisted(d) || (c == CODE_645 && d == CODE_526)
  {
  }

  lemma SameWord(d: bv23, c: bv23, k: nat)
    requires d < 0x200 && c < 0x200 && Rotated(Pattern(Code(c)), k) == Pattern(Code(d))
    ensures Turn(Word(c), k) == Word(d)
  {
    WordStands(c);
    WordStands(d);
    TurnStands(Word(c), Pattern(Code(c)), k);
    SameBits(Turn(Word(c), k), Word(d), ToBits(Pattern(Code(d)), 23));
  }

  // ---- the standard table -------------------------------------------------------

  const ROW_0: seq<bv23> := [0x13, 0x15, 0x16, 0x19, 0x1A]
  const ROW_1: seq<bv23> := [0x1E, 0x23, 0x27, 0x29, 0x2B]
  const ROW_2: seq<bv23> := [0x2C, 0x35, 0x39, 0x3A, 0x3B]
  const ROW_3: seq<bv23> := [0x3C, 0x4C, 0x4D, 0x4E, 0x52]
  const ROW_4: seq<bv23> := [0x55, 0x59, 0x5A, 0x5C, 0x63]
  const ROW_5: seq<bv23> := [0x65, 0x6A, 0x6D, 0x6E, 0x72]
  const ROW_6: seq<bv23> := [0x75, 0x7A, 0x7C, 0x85, 0x8A]
  const ROW_7: seq<bv23> := [0x93, 0x95, 0x96, 0xA3, 0xA4]
  const ROW_8: seq<bv23> := [0xA5, 0xA6, 0xA9, 0xAA, 0xAD]
  const ROW_9: seq<bv23> := [0xB1, 0xB3, 0xB5, 0xB6, 0xB9]
  const ROW_10: seq<bv23> := [0xBC, 0xC6, 0xC9, 0xCD, 0xD5]
  const ROW_11: seq<bv23> := [0xD9, 0xDA, 0xE3, 0xE6, 0xE9]
  const ROW_12: seq<bv23> := [0xEE, 0xF4, 0xF5, 0xF9, 0x109]
  const ROW_13: seq<bv23> := [0x10A, 0x10B, 0x113, 0x119, 0x11A]
  const ROW_14: seq<bv23> := [0x125, 0x126, 0x12A, 0x12C, 0x12D]
  const ROW_15: seq<bv23> := [0x132, 0x134, 0x135, 0x136, 0x143]
  const ROW_16: seq<bv23> := [0x146, 0x14E, 0x153, 0x156, 0x15A]
  const ROW_17: seq<bv23> := [0x166, 0x175, 0x186, 0x18A, 0x194]
  const ROW_18: seq<bv23> := [0x197, 0x199, 0x19A, 0x1A5, 0x1AC]
  const ROW_19: seq<bv23> := [0x1B2, 0x1B4, 0x1C3, 0x1CA, 0x1D3]
  const ROW_20: seq<bv23> := [0x1D9, 0x1DA, 0x1DC, 0x1E3, 0x1EC]

  const FIRST_ROWS: seq<bv23> := ROW_0 + ROW_1 + ROW_2 + ROW_3 + ROW_4 + ROW_5 + ROW_6

  const MIDDLE_ROWS: seq<bv23> := ROW_7 + ROW_8 + ROW_9 + ROW_10 + ROW_11 + ROW_12 + ROW_13

  const LAST_ROWS: seq<bv23> := ROW_14 + ROW_15 + ROW_16 + ROW_17 + ROW_18 + ROW_19 + ROW_20

  /** The codes as the firmware lists them. */
  const CODES: seq<bv23> := FIRST_ROWS + MIDDLE_ROWS + LAST_ROWS

  /** What the computation shows of every code. */
  lemma Computed(c: bv23)
    requires AllHarmless(QuickWord(c), c)
    ensures QuickWord(c) == Word(c)
  {
    QuickIsWord(c);
  }

  lemma ComputedRow0(c: bv23)
    requires c in ROW_0
    ensures AllHarmless(QuickWord(c), c)
  {
    Computed(0x13); Computed(0x15); Computed(0x16); Computed(0x19); Computed(0x1A);
  }

  lemma ComputedRow1(c: bv23)
    requires c in ROW_1
    ensures AllHarmless(QuickWord(c), c)
  {
    Computed(0x1E); Computed(0x23); Computed(0x27); Computed(0x29); Computed(0x2B);
  }

  lemma ComputedRow2(c: bv23)
    requires c in ROW_2
    ensures AllHarmless(QuickWord(c), c)
  {
    Computed(0x2C); Computed(0x35); Computed(0x39); Computed(0x3A); Computed(0x3B);
  }

  lemma ComputedRow3(c: bv23)
    requires c in ROW_3
    ensures AllHarmless(QuickWord(c), c)
  {
    Computed(0x3C); Computed(0x4C); Computed(0x4D); Computed(0x4E); Computed(0x52);
  }

  lemma ComputedRow4(c: bv23)
    requires c in ROW_4
    ensures AllHarmless(QuickWord(c), c)
  {
    Computed(0x55); Computed(0x59); Computed(0x5A); Computed(0x5C); Computed(0x63);
  }

  lemma ComputedRow5(c: bv23)
    requires c in ROW_5
    ensures AllHarmless(QuickWord(c), c)
  {
    Computed(0x65); Computed(0x6A); Computed(0x6D); Computed(0x6E); Computed(0x72);
  }

  lemma ComputedRow6(c: bv23)
    requires c in ROW_6
    ensures AllHarmless(QuickWord(c), c)
  {
    Computed(0x75); Computed(0x7A); Computed(0x7C); Computed(0x85); Computed(0x8A);
  }

  lemma ComputedRow7(c: bv23)
    requires c in ROW_7
    ensures AllHarmless(QuickWord(c), c)
  {
    Computed(0x93); Computed(0x95); Computed(0x96); Computed(0xA3); Computed(0xA4);
  }

  lemma ComputedRow8(c: bv23)
    requires c in ROW_8
    ensures AllHarmless(QuickWord(c), c)
  {
    Computed(0xA5); Computed(0xA6); Computed(0xA9); Computed(0xAA); Computed(0xAD);
  }

  lemma ComputedRow9(c: bv23)
    requires c in ROW_9
    ensures AllHarmless(QuickWord(c), c)
  {
    Computed(0xB1); Computed(0xB3); Computed(0xB5); Computed(0xB6); Computed(0xB9);
  }

  lemma ComputedRow10(c: bv23)
    requires c in ROW_10
    ensures AllHarmless(QuickWord(c), c)
  {
    Computed(0xBC); Computed(0xC6); Computed(0xC9); Computed(0xCD); Computed(0xD5);
  }

  lemma ComputedRow11(c: bv23)
    requires c in ROW_11
    ensures AllHarmless(QuickWord(c), c)
  {
    Computed(0xD9); Computed(0xDA); Computed(0xE3); Computed(0xE6); Computed(0xE9);
  }

  lemma ComputedRow12(c: bv23)
    requires c in ROW_12
    ensures AllHarmless(QuickWord(c), c)
  {
    Computed(0xEE); Computed(0xF4); Computed(0xF5); Computed(0xF9); Computed(0x109);
  }

  lemma ComputedRow13(c: bv23)
    requires c in ROW_13
    ensures AllHarmless(QuickWord(c), c)
  {
    Computed(0x10A); Computed(0x10B); Computed(0x113); Computed(0x119); Computed(0x11A);
  }

  lemma ComputedRow14(c: bv23)
    requires c in ROW_14
    ensures AllHarmless(QuickWord(c), c)
  {
    Computed(0x125); Computed(0x126); Computed(0x12A); Computed(0x12C); Computed(0x12D);
  }

  lemma ComputedRow15(c: bv23)
    requires c in ROW_15
    ensures AllHarmless(QuickWord(c), c)
  {
    Computed(0x132); Computed(0x134); Computed(0x135); Computed(0x136); Computed(0x143);
  }

  lemma ComputedRow16(c: bv23)
    requires c in ROW_16
    ensures AllHarmless(QuickWord(c), c)
  {
    Computed(0x146); Computed(0x14E); Computed(0x153); Computed(0x156); Computed(0x15A);
  }

  lemma ComputedRow17(c: bv23)
    requires c in ROW_17
    ensures AllHarmless(QuickWord(c), c)
  {
    Computed(0x166); Computed(0x175); Computed(0x186); Computed(0x18A); Computed(0x194);
  }

  lemma ComputedRow18(c: bv23)
    requires c in ROW_18
    ensures AllHarmless(QuickWord(c), c)
  {
    Computed(0x197); Computed(0x199); Computed(0x19A); Computed(0x1A5); Computed(0x1AC);
  }

  lemma ComputedRow19(c: bv23)
    requires c in ROW_19
    ensures AllHarmless(QuickWord(c), c)
  {
    Computed(0x1B2); Computed(0x1B4); Computed(0x1C3); Computed(0x1CA); Computed(0x1D3);
  }

  lemma ComputedRow20(c: bv23)
    requires c in ROW_20
    ensures AllHarmless(QuickWord(c), c)
  {
    Computed(0x1D9); Computed(0x1DA); Computed(0x1DC); Computed(0x1E3); Computed(0x1EC);
  }

  lemma Listed0(c: bv23)
    requires c in ROW_0 || c in ROW_1
    ensures c < 0x200 && !Unlisted(c)
  {
  }

  lemma Listed1(c: bv23)
    requires c in ROW_2 || c in ROW_3
    ensures c < 0x200 && !Unlisted(c)
  {
  }

  lemma Listed2(c: bv23)
    requires c in ROW_4 || c in ROW_5
    ensures c < 0x200 && !Unlisted(c)
  {
  }

  lemma Listed3(c: bv23)
    requires c in ROW_6 || c in ROW_7
    ensures c < 0x200 && !Unlisted(c)
  {
  }

  lemma Listed4(c: bv23)
    requires c in ROW_8 || c in ROW_9
    ensures c < 0x200 && !Unlisted(c)
  {
  }

  lemma Listed5(c: bv23)
    requires c in ROW_10 || c in ROW_11
    ensures c < 0x200 && !Unlisted(c)
  {
  }

  lemma Listed6(c: bv23)
    requires c in ROW_12 || c in ROW_13
    ensures c < 0x200 && !Unlisted(c)
  {
  }

  lemma Listed7(c: bv23)
    requires c in ROW_14 || c in ROW_15
    ensures c < 0x200 && !Unlisted(c)
  {
  }

  lemma Listed8(c: bv23)
    requires c in ROW_16 || c in ROW_17
    ensures c < 0x200 && !Unlisted(c)
  {
  }

  lemma Listed9(c: bv23)
    requires c in ROW_18 || c in ROW_19
    ensures c < 0x200 && !Unlisted(c)
  {
  }

  lemma Listed10(c: bv23)
    requires c in ROW_20
    ensures c < 0x200 && !Unlisted(c)
  {
  }

  lemma ComputedFirst(c: bv23)
    requires c in FIRST_ROWS
    ensures c < 0x200 && !Unlisted(c) && AllHarmless(QuickWord(c), c)
  {
    if c in ROW_0 {
      ComputedRow0(c);
      Listed0(c);
    } else if c in ROW_1 {
      ComputedRow1(c);
      Listed0(c);
    } else if c in ROW_2 {
      ComputedRow2(c);
      Listed1(c);
    } else if c in ROW_3 {
      ComputedRow3(c);
      Listed1(c);
    } else if c in ROW_4 {
      ComputedRow4(c);
      Listed2(c);
    } else if c in ROW_5 {
      ComputedRow5(c);
      Listed2(c);
    } else if c in ROW_6 {
      ComputedRow6(c);
      Listed3(c);
    }
  }

  lemma ComputedMiddle(c: bv23)
    requires c in MIDDLE_ROWS
    ensures c < 0x200 && !Unlisted(c) && AllHarmless(QuickWord(c), c)
  {
    if c in ROW_7 {
      ComputedRow7(c);
      Listed3(c);
    } else if c in ROW_8 {
      ComputedRow8(c);
      Listed4(c);
    } else if c in ROW_9 {
      ComputedRow9(c);
      Listed4(c);
    } else if c in ROW_10 {
      ComputedRow10(c);
      Listed5(c);
    } else if c in ROW_11 {
      ComputedRow11(c);
      Listed5(c);
    } else if c in ROW_12 {
      ComputedRow12(c);
      Listed6(c);
    } else if c in ROW_13 {
      ComputedRow13(c);
      Listed6(c);
    }
  }

  lemma ComputedLast(c: bv23)
    requires c in LAST_ROWS
    ensures c < 0x200 && !Unlisted(c) && AllHarmless(QuickWord(c), c)
  {
    if c in ROW_14 {
      ComputedRow14(c);
      Listed7(c);
    } else if c in ROW_15 {
      ComputedRow15(c);
      Listed7(c);
    } else if c in ROW_16 {
      ComputedRow16(c);
      Listed8(c);
    } else if c in ROW_17 {
      ComputedRow17(c);
      Listed8(c);
    } else if c in ROW_18 {
      ComputedRow18(c);
      Listed9(c);
    } else if c in ROW_19 {
      ComputedRow19(c);
      Listed9(c);
    } else if c in ROW_20 {
      ComputedRow20(c);
      Listed10(c);
    }
  }

  lemma StandardCode(c: bv23)
    requires c in CODES
    ensures c < 0x200 && !Unlisted(c) && AllHarmless(QuickWord(c), c)
  {
    if c in FIRST_ROWS {
      ComputedFirst(c);
    } else if c in MIDDLE_ROWS {
      ComputedMiddle(c);
    } else {
      ComputedLast(c);
    }
  }

  /** Two standard codes have words that are rotations of one another only if they are octal 526 and 645. */
  lemma ToldApart(c: bv23, d: bv23)
    requires c in CODES && d in CODES && c != d && SomePhase(Pattern(Code(d)), Pattern(Code(c)))
    ensures (c == CODE_645 && d == CODE_526) || (c == CODE_526 && d == CODE_645)
  {
    StandardCode(c);
    StandardCode(d);
    if d < c {
      TakenForUnlisted(c, d);
    } else {
      var k := PhasesTurnBack(Pattern(Code(d)), Pattern(Code(c)));
      PhaseOf(Pattern(Code(c)), Pattern(Code(d)), k);
      TakenForUnlisted(d, c);
    }
  }

  lemma CodeBelow(c: bv23)
    requires c in CODES
    ensures Code(c) < 0x200
  {
    StandardCode(c);
    CodeStands(c);
    Below(c, Code(c));
  }

  lemma SameCode(c: bv23, d: bv23)
    requires Code(c) == Code(d)
    ensures c == d
  {
    CodeStands(c);
    CodeStands(d);
    SameBits(c, d, ToBits(Code(c), 23));
  }

  function AsNumber(c: bv23): (n: u16)
    requires c in CODES
    ensures n == Code(c)
  {
    CodeBelow(c);
    Code(c)
  }

  /** The firmware's table of DCS codes. */
  function DcsTable(): (t: seq<u16>)
    ensures |t| == |CODES| && forall i :: 0 <= i < |t| ==> t[i] == Code(CODES[i])
  {
    seq(|CODES|, i requires 0 <= i < |CODES| => AsNumber(CODES[i]))
  }

  /** Octal 526 stands in front of 645. */
  lemma OrderOfTheTwo(m: nat)
    requires m < |CODES| && CODES[m] == CODE_645
    ensures m > 83 && CODES[83] == CODE_526
  {
    var front := FIRST_ROWS + MIDDLE_ROWS + (ROW_14 + ROW_15 + ROW_16);
    if m <= 83 {
      assert CODES[m] == front[m];
      Before645(front[m]);
    }
  }

  lemma Before645(c: bv23)
    requires c in FIRST_ROWS + MIDDLE_ROWS + (ROW_14 + ROW_15 + ROW_16)
    ensures c != CODE_645
  {
    if c in FIRST_ROWS {
      NotInFirst();
    } else if c in MIDDLE_ROWS {
      NotInMiddle();
    } else {
      NotInThird();
    }
  }

  lemma NotInFirst()
    ensures CODE_645 !in FIRST_ROWS
  {
  }

  lemma NotInMiddle()
    ensures CODE_645 !in MIDDLE_ROWS
  {
  }

  lemma NotInThird()
    ensures CODE_645 !in ROW_14 + ROW_15 + ROW_16
  {
  }

  lemma TenTurns(w: bv23)
    ensures Turn(w, 10) == (w << 10) | (w >> 13)
  {
    EightTurns(w);
    FourTurns(Turn(w, 8));
    TurnTwice(w, 8, 2);
    TenPlaces(w);
  }

  lemma TenPlaces(w: bv23)
    ensures var v := (w << 8) | (w >> 15); (v << 2) | (v >> 21) == (w << 10) | (w >> 13)
  {
  }

  /** Ten places turn the word of octal 526 into that of 645. */
  lemma SharedWord()
    ensures SomePhase(Pattern(Code(CODE_526)), Pattern(Code(CODE_645)))
  {
    var w := Word(CODE_526);
    QuickIsWord(CODE_526);
    QuickIsWord(CODE_645);
    TenTurns(w);
    WordStands(CODE_526);
    WordStands(CODE_645);
    var p, q := Pattern(Code(CODE_526)), Pattern(Code(CODE_645));
    TurnStands(w, p, 10);
    SameNumber(Turn(w, 10), Rotated(p, 10), q);
    PhaseOf(p, q, 10);
  }

  lemma SameNumber(v: bv23, x: nat, y: nat)
    requires Stands(v, x) && Stands(v, y)
    ensures x == y
  {
    assert Pow2(23) == 0x80_0000 by { TwelveBits(); }
    SameShown(v, ToBits(x, 23), ToBits(y, 23));
    ToBitsInjective(x, y, 23);
  }

  lemma SameShown(v: bv23, s: seq<bool>, t: seq<bool>)
    requires Shows(v, s) && Shows(v, t)
    ensures s == t
  {
  }

  /** Phases compose. */
  lemma PhaseTransfers(v: nat, w: nat, raw: nat)
    requires v < 0x80_0000 && w < 0x80_0000 && SomePhase(v, w) && SomePhase(w, raw)
    ensures SomePhase(v, raw)
  {
    var j: nat :| j < 23 && Rotated(v, j) == w;
    var k: nat :| k < 23 && Rotated(w, k) == raw;
    RotatedTwice(v, j, k);
    if j + k < 23 {
      PhaseOf(v, raw, j + k);
    } else {
      RotatedTwice(v, 23, j + k - 23);
      FullTurn(v);
      PhaseOf(v, raw, j + k - 23);
    }
  }

  lemma MatchesToo(raw: nat)
    requires SomePhase(Pattern(Code(CODE_645)), raw)
    ensures SomePhase(Pattern(Code(CODE_526)), raw)
  {
    SharedWord();
    PhaseTransfers(Pattern(Code(CODE_526)), Pattern(Code(CODE_645)), raw);
  }

  /** A code is never the answer if an earlier entry matches whenever it does. */
  lemma NeverFirst(table: seq<u16>, raw: nat, n: nat, e: nat)
    requires forall m :: 0 <= m < |table| && table[m] == n && SomePhase(Pattern(n), raw) ==>
                           e < m && SomePhase(Pattern(table[e]), raw)
    ensures FirstMatch(table, raw) != Some(n)
  {
    FirstMatchIsFirst(table, raw);
  }

  /** Octal 645 is never reported, whatever is received. */
  lemma Code645NeverReported(raw: nat)
    requires raw < 0x80_0000
    ensures FirstMatch(DcsTable(), raw) != Some(Code(CODE_645))
  {
    var n := Code(CODE_645);
    forall m | 0 <= m < |CODES| && DcsTable()[m] == n && SomePhase(Pattern(n), raw)
      ensures 83 < m && SomePhase(Pattern(DcsTable()[83]), raw)
    {
      SameCode(CODES[m], CODE_645);
      EarlierMatch(m, raw);
    }
    NeverFirst(DcsTable(), raw, n, 83);
  }

  lemma EarlierMatch(m: nat, raw: nat)
    requires m < |CODES| && CODES[m] == CODE_645 && SomePhase(Pattern(Code(CODE_645)), raw)
    ensures 83 < m && SomePhase(Pattern(DcsTable()[83]), raw)
  {
    OrderOfTheTwo(m);
    MatchesToo(raw);
  }

  /** Every standard code received at any phase is reported as itself, but 645 as 526. */
  lemma StandardCodesReported(c: bv23, k: nat)
    requires c in CODES
    ensures FirstMatch(DcsTable(), Rotated(Pattern(Code(c)), k)) == Some(Code(if c == CODE_645 then CODE_526 else c))
  {
    var raw := Pattern(Code(c));
    PhaseIndependent(DcsTable(), raw, k);
    FirstMatchIsFirst(DcsTable(), raw);
    var i :| 0 <= i < |CODES| && CODES[i] == c;
    PhaseOf(raw, raw, 0);
    assert SomePhase(Pattern(DcsTable()[i]), raw);
    Code645NeverReported(raw);
    var m :| && 0 <= m < |CODES| && DcsTable()[m] == FirstMatch(DcsTable(), raw).value
             && SomePhase(Pattern(DcsTable()[m]), raw);
    if CODES[m] != c {
      ToldApart(c, CODES[m]);
    }
  }
}
