/** The CPS wire frame: encoder, byte-at-a-time decoder, and the host's block decoder. */
module Frame {
  import opened Bytes
  import opened Crc

  const HEADER: byte := 0xA6
  const MAX_DATA := 96

  datatype Message = Message(cmd: byte, addr: u16, data: seq<byte>)

  /** What the checksum covers: command, address, length, data. */
  function Body(m: Message): (b: seq<byte>)
    requires |m.data| < 0x1_0000
    ensures |b| == 5 + |m.data|
  {
    [m.cmd, Hi(m.addr), Lo(m.addr), Hi(|m.data|), Lo(|m.data|)] + m.data
  }

  /** The six bytes in front of the data. */
  function Prelude(cmd: byte, addr: u16, len: u16): (p: seq<byte>) {
    [HEADER, cmd, Hi(addr), Lo(addr), Hi(len), Lo(len)]
  }

  function FrameCrc(m: Message): u16
    requires |m.data| < 0x1_0000
  {
    Crc16(Body(m))
  }

  function Encode(m: Message): (w: seq<byte>)
    requires |m.data| < 0x1_0000
    ensures |w| == 8 + |m.data|
  {
    [HEADER] + Body(m) + [Hi(FrameCrc(m)), Lo(FrameCrc(m))]
  }

  method ComputeFrameCrc(cmd: byte, addr: u16, data: seq<byte>) returns (crc: u16)
    requires |data| <= MAX_DATA
    ensures crc == FrameCrc(Message(cmd, addr, data))
  {
    var buf := new byte[5 + MAX_DATA](_ => 0);
    buf[0] := cmd;
    buf[1], buf[2] := Hi(addr), Lo(addr);
    buf[3], buf[4] := Hi(|data|), Lo(|data|);
    forall i | 0 <= i < |data| {
      buf[5 + i] := data[i];
    }
    assert buf[..5 + |data|] == Body(Message(cmd, addr, data));
    crc := Crc16Xmodem(buf[..5 + |data|]);
  }

  /** Writes the frame at the front of `out` and returns its length; the rest of `out` keeps its bytes. */
  method EncodeInto(out: array<byte>, cmd: byte, addr: u16, data: seq<byte>) returns (n: nat)
    requires |data| <= MAX_DATA && out.Length >= 8 + |data|
    modifies out
    ensures n == 8 + |data| && out[..n] == Encode(Message(cmd, addr, data))
    ensures out[n..] == old(out[n..])
  {
    out[0] := HEADER;
    out[1] := cmd;
    out[2], out[3] := Hi(addr), Lo(addr);
    out[4], out[5] := Hi(|data|), Lo(|data|);
    forall i | 0 <= i < |data| {
      out[6 + i] := data[i];
    }
    assert out[..6 + |data|] == [HEADER] + Body(Message(cmd, addr, data));
    var crc := ComputeFrameCrc(cmd, addr, data);
    out[6 + |data|], out[7 + |data|] := Hi(crc), Lo(crc);
    n := 8 + |data|;
    assert out[..n] == out[..6 + |data|] + [Hi(crc), Lo(crc)];
  }

  // ---- the decoder, specified on the bytes received since the last header ----------

  datatype FeedResult = Pending | Decoded(m: Message) | CrcError(addr: u16)

  function DeclaredLength(w: seq<byte>): u16
    requires |w| >= 6
  {
    Join(w[4], w[5])
  }

  /** The message a complete block of bytes claims to carry. */
  function Claimed(w: seq<byte>): Message
    requires |w| >= 8
  {
    Message(w[1], Join(w[2], w[3]), w[6..|w| - 2])
  }

  /** The judgement on a complete block: its checksum must match its content. */
  function Verdict(w: seq<byte>): FeedResult
    requires |w| >= 8 && |w| == 8 + DeclaredLength(w)
  {
    if Join(w[|w| - 2], w[|w| - 1]) == FrameCrc(Claimed(w)) then Decoded(Claimed(w))
    else CrcError(Claimed(w).addr)
  }

  /** A block laid out as a frame around `m` is judged by its last two bytes alone. */
  lemma VerdictOnLayout(m: Message, hi: byte, lo: byte, w: seq<byte>)
    requires |m.data| < 0x1_0000 && w == [HEADER] + Body(m) + [hi, lo]
    ensures |w| == 8 + DeclaredLength(w) && Claimed(w) == m
    ensures Verdict(w) == if Join(hi, lo) == FrameCrc(m) then Decoded(m) else CrcError(m.addr)
  {
  }

  /** A proper beginning of a frame no longer than the decoder accepts. */
  predicate PartialFrame(p: seq<byte>) {
    && (p != [] ==> p[0] == HEADER)
    && (|p| >= 6 ==> DeclaredLength(p) <= MAX_DATA && |p| < 8 + DeclaredLength(p))
  }

  /** What one more byte does to the bytes collected so far. */
  function Advance(p: seq<byte>, b: byte): (r: (seq<byte>, FeedResult))
    requires PartialFrame(p)
    ensures PartialFrame(r.0)
  {
    var w := p + [b];
    if p == [] && b != HEADER then ([], Pending)
    else if |w| < 6 then (w, Pending)
    else if DeclaredLength(w) > MAX_DATA then ([], Pending)
    else if |w| < 8 + DeclaredLength(w) then (w, Pending)
    else ([], Verdict(w))
  }

  lemma AdvanceOverLength(p: seq<byte>, b: byte, cmd: byte, addr: u16, len: u16)
    requires PartialFrame(p) && p + [b] == Prelude(cmd, addr, len)
    ensures Advance(p, b) == (if len > MAX_DATA then [] else Prelude(cmd, addr, len), Pending)
  {
  }

  lemma AdvanceOverChecksum(p: seq<byte>, m: Message, hi: byte, lo: byte)
    requires |m.data| <= MAX_DATA
    requires p == Prelude(m.cmd, m.addr, |m.data|) + m.data + [hi] && PartialFrame(p)
    ensures Advance(p, lo) == ([], if Join(hi, lo) == FrameCrc(m) then Decoded(m) else CrcError(m.addr))
  {
    assert p + [lo] == [HEADER] + Body(m) + [hi, lo];
    VerdictOnLayout(m, hi, lo, p + [lo]);
  }

  datatype State = Header | Cmd | AddrHi | AddrLo | LenHi | LenLo | Data | CrcHi | CrcLo

  /** The decoder as the firmware runs it: nine states, fields overwritten as bytes arrive. */
  class FrameReader {
    var state: State
    var cmd: byte
    var addr: u16
    var len: nat
    const data: array<byte>
    var idx: nat
    var crcHi: byte

    ghost predicate Valid()
      reads this, data
    {
      && data.Length == MAX_DATA
      && (state == AddrLo ==> addr % 256 == 0)
      && (state == LenLo ==> len % 256 == 0 && len < 0x1_0000)
      && (state == Data ==> idx < len <= MAX_DATA)
      && (state in {CrcHi, CrcLo} ==> len <= MAX_DATA)
    }

    /** The bytes the fields stand for in this state; all other fields are leftovers. */
    ghost function Collected(): (p: seq<byte>)
      requires Valid()
      reads this, data
      ensures PartialFrame(p)
    {
      match state
      case Header => []
      case Cmd => [HEADER]
      case AddrHi => [HEADER, cmd]
      case AddrLo => [HEADER, cmd, Hi(addr)]
      case LenHi => [HEADER, cmd, Hi(addr), Lo(addr)]
      case LenLo => [HEADER, cmd, Hi(addr), Lo(addr), Hi(len)]
      case Data => Prelude(cmd, addr, len) + data[..idx]
      case CrcHi => Prelude(cmd, addr, len) + data[..len]
      case CrcLo => Prelude(cmd, addr, len) + data[..len] + [crcHi]
    }

    constructor ()
      ensures Valid() && fresh(data) && Collected() == []
    {
      state, cmd, addr, len := Header, 0, 0, 0;
      data := new byte[MAX_DATA](_ => 0);
      idx, crcHi := 0, 0;
    }

    method Feed(b: byte) returns (r: FeedResult)
      requires Valid()
      modifies this, data
      ensures Valid()
      ensures (Collected(), r) == Advance(old(Collected()), b)
    {
      r := Pending;
      ghost var w := Collected() + [b];
      match state
      case Header =>
        if b == HEADER {
          state := Cmd;
          assert Collected() == w;
        }
      case Cmd =>
        cmd := b;
        state := AddrHi;
        assert Collected() == w;
      case AddrHi =>
        addr := b * 256;
        state := AddrLo;
        assert Collected() == w;
      case AddrLo =>
        LowByte(addr, b);
        addr := addr + b;
        state := LenHi;
        assert Collected() == w;
      case LenHi =>
        len := b * 256;
        state := LenLo;
        assert Collected() == w;
      case LenLo =>
        FinishLength(b);
        AdvanceOverLength(old(Collected()), b, cmd, addr, len);
      case Data =>
        StoreData(b);
      case CrcHi =>
        StoreCrcHi(b);
      case CrcLo =>
        r := Finish(b);
    }

    method FinishLength(b: byte)
      requires Valid() && state == LenLo
      modifies this
      ensures Valid()
      ensures len < 0x1_0000 && old(Collected()) + [b] == Prelude(cmd, addr, len)
      ensures Collected() == if len > MAX_DATA then [] else Prelude(cmd, addr, len)
    {
      LowByte(len, b);
      len := len + b;
      assert data[..0] == [];
      if len > MAX_DATA {
        state := Header;
      } else if len == 0 {
        idx := 0;
        state := CrcHi;
      } else {
        idx := 0;
        state := Data;
      }
    }

    method StoreData(b: byte)
      requires Valid() && state == Data
      modifies this, data
      ensures Valid()
      ensures (Collected(), Pending) == Advance(old(Collected()), b)
    {
      ghost var before := data[..idx];
      data[idx] := b;
      idx := idx + 1;
      assert data[..idx] == before + [b];
      if idx == len {
        state := CrcHi;
      }
      assert Collected() == old(Collected()) + [b];
    }

    method StoreCrcHi(b: byte)
      requires Valid() && state == CrcHi
      modifies this
      ensures Valid()
      ensures (Collected(), Pending) == Advance(old(Collected()), b)
    {
      crcHi := b;
      state := CrcLo;
      assert Collected() == old(Collected()) + [b];
    }

    /** The last byte of a frame: compare the two checksums. */
    method Finish(b: byte) returns (r: FeedResult)
      requires Valid() && state == CrcLo
      modifies this
      ensures Valid()
      ensures (Collected(), r) == Advance(old(Collected()), b)
    {
      var received := data[..len];
      AdvanceOverChecksum(Collected(), Message(cmd, addr, received), crcHi, b);
      var crcReceived := Join(crcHi, b);
      state := Header;
      var crcComputed := ComputeFrameCrc(cmd, addr, received);
      r := if crcReceived == crcComputed then Decoded(Message(cmd, addr, received)) else CrcError(addr);
    }
  }

  // ---- runs of the decoder ------------------------------------------------------

  /** What the decoder still holds after a stream. */
  function After(p: seq<byte>, s: seq<byte>): (q: seq<byte>)
    requires PartialFrame(p)
    ensures PartialFrame(q)
    decreases |s|
  {
    if s == [] then p else After(Advance(p, s[0]).0, s[1..])
  }

  /** What the decoder reports over a stream, `Pending` apart. */
  function Events(p: seq<byte>, s: seq<byte>): seq<FeedResult>
    requires PartialFrame(p)
    decreases |s|
  {
    if s == [] then []
    else
      var step := Advance(p, s[0]);
      if step.1 == Pending then Events(step.0, s[1..]) else [step.1] + Events(step.0, s[1..])
  }

  function Reported(r: FeedResult): seq<FeedResult> { if r == Pending then [] else [r] }

  lemma RunFirst(p: seq<byte>, s: seq<byte>, b: byte, rest: seq<byte>)
    requires PartialFrame(p) && s != [] && b == s[0] && rest == s[1..]
    ensures After(p, s) == After(Advance(p, b).0, rest)
    ensures Events(p, s) == Reported(Advance(p, b).1) + Events(Advance(p, b).0, rest)
  {
  }

  /** One byte of a stream, with the bytes still to come. */
  method FeedNext(reader: FrameReader, b: byte, ghost rest: seq<byte>) returns (reported: seq<FeedResult>)
    requires reader.Valid()
    modifies reader, reader.data
    ensures reader.Valid()
    ensures After(old(reader.Collected()), [b] + rest) == After(reader.Collected(), rest)
    ensures Events(old(reader.Collected()), [b] + rest) == reported + Events(reader.Collected(), rest)
  {
    RunFirst(reader.Collected(), [b] + rest, b, rest);
    var r := reader.Feed(b);
    reported := if r != Pending then [r] else [];
  }

  /** The receive loop: one `Feed` a byte. */
  method FeedAll(reader: FrameReader, s: seq<byte>) returns (events: seq<FeedResult>)
    requires reader.Valid()
    modifies reader, reader.data
    ensures reader.Valid()
    ensures reader.Collected() == After(old(reader.Collected()), s)
    ensures events == Events(old(reader.Collected()), s)
  {
    events := [];
    ghost var after, all := After(reader.Collected(), s), Events(reader.Collected(), s);
    assert s[0..] == s;
    for i := 0 to |s|
      invariant reader.Valid()
      invariant after == After(reader.Collected(), s[i..])
      invariant all == events + Events(reader.Collected(), s[i..])
    {
      assert s[i..] == [s[i]] + s[i + 1..];
      var reported := FeedNext(reader, s[i], s[i + 1..]);
      events := events + reported;
    }
    assert s[|s|..] == [];
  }

  lemma {:induction false} RunConcat(p: seq<byte>, s: seq<byte>, s': seq<byte>)
    requires PartialFrame(p)
    ensures After(p, s + s') == After(After(p, s), s')
    ensures Events(p, s + s') == Events(p, s) + Events(After(p, s), s')
    decreases |s|
  {
    if s == [] {
      assert s + s' == s';
    } else {
      assert (s + s')[1..] == s[1..] + s';
      RunConcat(Advance(p, s[0]).0, s[1..], s');
    }
  }

  // ---- soundness: the stream is cut into accepted encodings, rejected blocks and noise ----

  datatype Segment = Noise(bytes: seq<byte>) | Rejected(bytes: seq<byte>) | Accepted(m: Message)

  /** A segment that the decoder may rightly produce. */
  predicate Justified(g: Segment) {
    match g
    case Noise(_) => true
    case Rejected(w) =>
      && |w| >= 8 && w[0] == HEADER && |w| == 8 + DeclaredLength(w)
      && Join(w[|w| - 2], w[|w| - 1]) != Crc16(w[1..|w| - 2])
    case Accepted(m) => |m.data| <= MAX_DATA
  }

  function SegmentBytes(g: Segment): seq<byte>
    requires Justified(g)
  {
    match g
    case Noise(w) => w
    case Rejected(w) => w
    case Accepted(m) => Encode(m)
  }

  function SegmentReport(g: Segment): seq<FeedResult>
    requires Justified(g)
  {
    match g
    case Noise(_) => []
    case Rejected(w) => [CrcError(Join(w[2], w[3]))]
    case Accepted(m) => [Decoded(m)]
  }

  predicate AllJustified(gs: seq<Segment>) {
    forall g :: g in gs ==> Justified(g)
  }

  function Flatten(gs: seq<Segment>): seq<byte>
    requires AllJustified(gs)
  {
    if gs == [] then [] else SegmentBytes(gs[0]) + Flatten(gs[1..])
  }

  function Reports(gs: seq<Segment>): seq<FeedResult>
    requires AllJustified(gs)
  {
    if gs == [] then [] else SegmentReport(gs[0]) + Reports(gs[1..])
  }

  /** A complete block is accepted exactly when it is the encoding of what it claims. */
  lemma VerdictIsExact(w: seq<byte>)
    requires |w| >= 8 && w[0] == HEADER && |w| == 8 + DeclaredLength(w)
    ensures Body(Claimed(w)) == w[1..|w| - 2]
    ensures Verdict(w) == Decoded(Claimed(w)) <==> w == Encode(Claimed(w))
    ensures Verdict(w) == if Join(w[|w| - 2], w[|w| - 1]) == Crc16(w[1..|w| - 2])
                          then Decoded(Claimed(w)) else CrcError(Join(w[2], w[3]))
  {
    BodyOfBlock(w);
    ChecksumOfBlock(w, Claimed(w), FrameCrc(Claimed(w)));
  }

  lemma BodyOfBlock(w: seq<byte>)
    requires |w| >= 8 && |w| == 8 + DeclaredLength(w)
    ensures Body(Claimed(w)) == w[1..|w| - 2]
  {
  }

  lemma ChecksumOfBlock(w: seq<byte>, m: Message, crc: u16)
    requires |w| >= 8 && w[0] == HEADER && |m.data| < 0x1_0000 && Body(m) == w[1..|w| - 2]
    ensures Join(w[|w| - 2], w[|w| - 1]) == crc <==> w == [HEADER] + Body(m) + [Hi(crc), Lo(crc)]
  {
  }

  /** The segment a step closes, if it closes one. */
  function Closed(p: seq<byte>, b: byte): (gs: seq<Segment>)
    requires PartialFrame(p)
    ensures AllJustified(gs)
    ensures Flatten(gs) + Advance(p, b).0 == p + [b]
    ensures Reports(gs) == if Advance(p, b).1 == Pending then [] else [Advance(p, b).1]
  {
    var w := p + [b];
    match Advance(p, b).1
    case Pending => if Advance(p, b).0 == w then [] else [Noise(w)]
    case Decoded(m) =>
      VerdictIsExact(w);
      [Accepted(m)]
    case CrcError(_) =>
      VerdictIsExact(w);
      [Rejected(w)]
  }

  function Parse(p: seq<byte>, s: seq<byte>): (gs: seq<Segment>)
    requires PartialFrame(p)
    ensures AllJustified(gs)
    decreases |s|
  {
    if s == [] then [Noise(p)]
    else Closed(p, s[0]) + Parse(Advance(p, s[0]).0, s[1..])
  }

  lemma {:induction false} FlattenConcat(a: seq<Segment>, b: seq<Segment>)
    requires AllJustified(a) && AllJustified(b)
    ensures AllJustified(a + b)
    ensures Flatten(a + b) == Flatten(a) + Flatten(b)
    ensures Reports(a + b) == Reports(a) + Reports(b)
  {
    if a == [] {
      assert a + b == b;
    } else {
      assert (a + b)[1..] == a[1..] + b;
      FlattenConcat(a[1..], b);
      var x, y, z := SegmentBytes(a[0]), Flatten(a[1..]), Flatten(b);
      assert x + (y + z) == x + y + z;
      var u, v, w := SegmentReport(a[0]), Reports(a[1..]), Reports(b);
      assert u + (v + w) == u + v + w;
    }
  }

  /**
   * On every stream the segments found are disjoint, in order and cover it; what the decoder
   * reports is one message for each accepted segment, whose bytes are exactly that message's
   * encoding, and one checksum error for each rejected one.
   */
  lemma {:induction false} DecoderSound(p: seq<byte>, s: seq<byte>)
    requires PartialFrame(p)
    ensures Flatten(Parse(p, s)) == p + s
    ensures Reports(Parse(p, s)) == Events(p, s)
    decreases |s|
  {
    if s == [] {
      assert Flatten([Noise(p)][1..]) == [];
      assert p + s == p;
    } else {
      var q, tail := Advance(p, s[0]).0, s[1..];
      var closed := Closed(p, s[0]);
      DecoderSound(q, tail);
      FlattenConcat(closed, Parse(q, tail));
      Regroup(Flatten(closed), q, tail, p, s);
    }
  }

  lemma Regroup(f: seq<byte>, q: seq<byte>, tail: seq<byte>, p: seq<byte>, s: seq<byte>)
    requires s != [] && tail == s[1..] && f + q == p + [s[0]]
    ensures f + (q + tail) == p + s
  {
    assert f + (q + tail) == f + q + tail;
    assert p + [s[0]] + tail == p + s;
  }

  // ---- completeness -------------------------------------------------------------

  /** Noise between frames: the reader stays idle. */
  lemma {:induction false} RunNoise(noise: seq<byte>)
    requires HEADER !in noise
    ensures After([], noise) == [] && Events([], noise) == []
    decreases |noise|
  {
    if noise != [] {
      assert noise[0] != HEADER;
      RunNoise(noise[1..]);
    }
  }

  /** Any block of frame shape is judged as a whole, wherever the reader stands in it. */
  lemma {:induction false} RunWithinBlock(w: seq<byte>, k: nat)
    requires |w| >= 8 && w[0] == HEADER && |w| == 8 + DeclaredLength(w) && DeclaredLength(w) <= MAX_DATA
    requires k < |w|
    ensures PartialFrame(w[..k]) && After(w[..k], w[k..]) == [] && Events(w[..k], w[k..]) == [Verdict(w)]
    decreases |w| - k
  {
    assert w[..k] + [w[k]] == w[..k + 1];
    assert w[k..][1..] == w[k + 1..];
    if k + 1 == |w| {
      assert w[..k + 1] == w;
      assert w[k + 1..] == [];
    } else {
      RunWithinBlock(w, k + 1);
    }
  }

  lemma RunBlock(w: seq<byte>)
    requires |w| >= 8 && w[0] == HEADER && |w| == 8 + DeclaredLength(w) && DeclaredLength(w) <= MAX_DATA
    ensures After([], w) == [] && Events([], w) == [Verdict(w)]
  {
    RunWithinBlock(w, 0);
    assert w[..0] == [] && w[0..] == w;
  }

  lemma RunFrame(m: Message)
    requires |m.data| <= MAX_DATA
    ensures After([], Encode(m)) == [] && Events([], Encode(m)) == [Decoded(m)]
  {
    VerdictOnLayout(m, Hi(FrameCrc(m)), Lo(FrameCrc(m)), Encode(m));
    RunBlock(Encode(m));
  }

  /** Encoded frames, each preceded by some noise, and noise at the end. */
  function Transmission(ms: seq<Message>, noise: seq<seq<byte>>): seq<byte>
    requires |noise| == |ms| + 1
    requires forall m :: m in ms ==> |m.data| <= MAX_DATA
  {
    if ms == [] then noise[0]
    else noise[0] + (Encode(ms[0]) + Transmission(ms[1..], noise[1..]))
  }

  function AllDecoded(ms: seq<Message>): (rs: seq<FeedResult>)
    ensures |rs| == |ms| && forall i :: 0 <= i < |ms| ==> rs[i] == Decoded(ms[i])
  {
    seq(|ms|, i requires 0 <= i < |ms| => Decoded(ms[i]))
  }

  lemma RunOneFrame(noise: seq<byte>, m: Message, rest: seq<byte>)
    requires HEADER !in noise && |m.data| <= MAX_DATA
    ensures After([], noise + (Encode(m) + rest)) == After([], rest)
    ensures Events([], noise + (Encode(m) + rest)) == [Decoded(m)] + Events([], rest)
  {
    RunNoise(noise);
    RunFrame(m);
    RunConcat([], noise, Encode(m) + rest);
    RunConcat([], Encode(m), rest);
  }

  /** Every transmission decodes to exactly the frames sent, and leaves the reader idle. */
  lemma {:induction false} DecoderComplete(ms: seq<Message>, noise: seq<seq<byte>>)
    requires |noise| == |ms| + 1
    requires forall m :: m in ms ==> |m.data| <= 96
    requires forall n :: n in noise ==> HEADER !in n
    ensures After([], Transmission(ms, noise)) == []
    ensures Events([], Transmission(ms, noise)) == AllDecoded(ms)
    decreases |ms|
  {
    if ms == [] {
      RunNoise(noise[0]);
      assert AllDecoded(ms) == [];
    } else {
      RunOneFrame(noise[0], ms[0], Transmission(ms[1..], noise[1..]));
      DecoderComplete(ms[1..], noise[1..]);
      assert AllDecoded(ms) == [Decoded(ms[0])] + AllDecoded(ms[1..]);
    }
  }

  // ---- recovery -----------------------------------------------------------------

  /** How many bytes without the header byte are sure to end the block the reader is in. */
  function BytesToEnd(p: seq<byte>): (n: nat)
    requires PartialFrame(p)
    ensures n < 8 + MAX_DATA && (n == 0 <==> p == [])
  {
    if p == [] then 0 else if |p| < 6 then 8 + MAX_DATA - |p| else 8 + DeclaredLength(p) - |p|
  }

  lemma StepTowardsEnd(p: seq<byte>, b: byte)
    requires PartialFrame(p) && b != HEADER
    ensures BytesToEnd(Advance(p, b).0) <= if p == [] then 0 else BytesToEnd(p) - 1
    ensures |p| >= 6 ==> BytesToEnd(Advance(p, b).0) == BytesToEnd(p) - 1
    ensures |p| >= 6 && BytesToEnd(p) > 1 ==> |Advance(p, b).0| >= 6
    ensures Advance(p, b).1 != Pending ==> p != [] && Advance(p, b).0 == []
  {
  }

  /**
   * In whatever state a lost byte or a damaged length field has left the reader, enough bytes without the header byte
   * bring it back to idle, and cost at most one wrong report; past the length field, not one byte less will do.
   */
  lemma {:induction false} ReaderRecovers(p: seq<byte>, quiet: seq<byte>)
    requires PartialFrame(p) && HEADER !in quiet
    ensures |quiet| >= BytesToEnd(p) ==> After(p, quiet) == []
    ensures |p| >= 6 ==> (After(p, quiet) == [] <==> |quiet| >= BytesToEnd(p))
    ensures |Events(p, quiet)| <= if p == [] then 0 else 1
    decreases |quiet|
  {
    if quiet != [] {
      assert quiet[0] != HEADER;
      StepTowardsEnd(p, quiet[0]);
      ReaderRecovers(Advance(p, quiet[0]).0, quiet[1..]);
    }
  }

  /** After that every transmission decodes to exactly the frames sent. */
  lemma DecoderRecovers(p: seq<byte>, quiet: seq<byte>, ms: seq<Message>, noise: seq<seq<byte>>)
    requires PartialFrame(p) && HEADER !in quiet && |quiet| >= BytesToEnd(p)
    requires |noise| == |ms| + 1
    requires forall m :: m in ms ==> |m.data| <= 96
    requires forall n :: n in noise ==> HEADER !in n
    ensures After(p, quiet + Transmission(ms, noise)) == []
    ensures Events(p, quiet + Transmission(ms, noise)) == Events(p, quiet) + AllDecoded(ms) && |Events(p, quiet)| <= 1
  {
    ReaderRecovers(p, quiet);
    DecoderComplete(ms, noise);
    RunConcat(p, quiet, Transmission(ms, noise));
  }

  // ---- transmission errors ----------------------------------------------------------

  /**
   * A frame damaged by one burst of at most sixteen bits, anywhere behind the header byte but
   * in the length field, is reported as a checksum error and never as a message.
   */
  lemma DamagedFrameRejected(m: Message, w: seq<byte>, lo: nat, hi: nat)
    requires |m.data| <= 96 && |w| == |Encode(m)|
    requires w[0] == HEADER && w[4..6] == Encode(m)[4..6]
    requires DifferOnlyWithin(MessageBits(Encode(m)[1..]), MessageBits(w[1..]), lo, hi) && hi - lo <= 16
    ensures After([], w) == [] && Events([], w) == [CrcError(Join(w[2], w[3]))]
  {
    var e := Encode(m);
    assert w[4] == w[4..6][0] == e[4] && w[5] == w[4..6][1] == e[5];
    RunBlock(w);
    DamagedBlockRejected(m, w, lo, hi);
  }

  /** A block's last two bytes are the halves of the checksum it carries. */
  lemma SplitBlock(w: seq<byte>)
    requires |w| >= 8
    ensures w[1..] == w[1..|w| - 2] + [Hi(Join(w[|w| - 2], w[|w| - 1])), Lo(Join(w[|w| - 2], w[|w| - 1]))]
  {
  }

  lemma DamagedBlockRejected(m: Message, w: seq<byte>, lo: nat, hi: nat)
    requires |m.data| <= MAX_DATA && |w| == 8 + |m.data| && w[0] == HEADER && DeclaredLength(w) == |m.data|
    requires DifferOnlyWithin(MessageBits(Encode(m)[1..]), MessageBits(w[1..]), lo, hi) && hi - lo <= 16
    ensures Verdict(w) == CrcError(Join(w[2], w[3]))
  {
    VerdictIsExact(w);
    SplitBlock(w);
    assert Encode(m)[1..] == Body(m) + [Hi(FrameCrc(m)), Lo(FrameCrc(m))];
    BurstBreaksMatch(Body(m), w[1..|w| - 2], Join(w[|w| - 2], w[|w| - 1]), lo, hi);
  }

  // ---- the host side --------------------------------------------------------------------

  /** Two bytes, the high one first, as `struct` packs and unpacks a word with `>H`. */
  function BigEndian(w: u16): seq<byte> { [w / 0x100, w % 0x100] }

  function FromBigEndian(hi: byte, lo: byte): u16 { hi * 0x100 + lo }

  /** `_encode_frame`: the body packed as `>BHH` and the data, between the header byte and the checksum. */
  function HostEncode(cmd: byte, addr: u16, data: seq<byte>): seq<byte>
    requires |data| < 0x1_0000
  {
    var body := [cmd] + BigEndian(addr) + BigEndian(|data|) + data;
    [0xA6] + body + BigEndian(Crc16(body))
  }

  /** The host sends exactly the firmware's encoding. */
  lemma HostEncodesFrames(m: Message)
    requires |m.data| < 0x1_0000
    ensures HostEncode(m.cmd, m.addr, m.data) == Encode(m)
  {
    assert [m.cmd] + BigEndian(m.addr) + BigEndian(|m.data|) + m.data == Body(m);
  }

  datatype Response = Received(m: Message, rest: seq<byte>) | Failed

  /** `_recv_frame`: a header, the declared number of data bytes, a checksum, and no error report. */
  function ReceiveFrame(s: seq<byte>): Response {
    if |s| < 6 || s[0] != 0xA6 then Failed
    else
      var n := FromBigEndian(s[4], s[5]);
      if |s| < 8 + n then Failed
      else if FromBigEndian(s[6 + n], s[7 + n]) != Crc16(s[1..6 + n]) then Failed
      else if s[1] == 0xEE then Failed
      else Received(Message(s[1], FromBigEndian(s[2], s[3]), s[6..6 + n]), s[8 + n..])
  }

  /** The host accepts exactly what starts with the encoding of a message that is no error report. */
  lemma HostAcceptsExactly(s: seq<byte>, m: Message, rest: seq<byte>)
    requires |m.data| < 0x1_0000
    ensures ReceiveFrame(s) == Received(m, rest) <==> s == Encode(m) + rest && m.cmd != 0xEE
  {
    if ReceiveFrame(s) == Received(m, rest) {
      AcceptsOnlyFrames(s, m, rest);
    }
    if s == Encode(m) + rest && m.cmd != 0xEE {
      AcceptsFrames(s, m, rest);
    }
  }

  lemma AcceptsOnlyFrames(s: seq<byte>, m: Message, rest: seq<byte>)
    requires |m.data| < 0x1_0000 && ReceiveFrame(s) == Received(m, rest)
    ensures s == Encode(m) + rest && m.cmd != 0xEE
  {
    HostJudges(s, FromBigEndian(s[4], s[5]));
  }

  lemma AcceptsFrames(s: seq<byte>, m: Message, rest: seq<byte>)
    requires |m.data| < 0x1_0000 && s == Encode(m) + rest && m.cmd != 0xEE
    ensures ReceiveFrame(s) == Received(m, rest)
  {
    FrontIsFrame(m, rest, s);
  }

  lemma HostJudges(s: seq<byte>, n: nat)
    requires |s| >= 8 + n && s[0] == 0xA6 && n == FromBigEndian(s[4], s[5])
    ensures var m := Message(s[1], FromBigEndian(s[2], s[3]), s[6..6 + n]);
            && |m.data| < 0x1_0000
            && (s == Encode(m) + s[8 + n..] <==> FromBigEndian(s[6 + n], s[7 + n]) == Crc16(s[1..6 + n]))
  {
    var w := s[..8 + n];
    assert s == w + s[8 + n..];
    VerdictIsExact(w);
    assert w[1..6 + n] == s[1..6 + n] && Claimed(w).data == s[6..6 + n];
  }

  lemma FrontIsFrame(m: Message, rest: seq<byte>, s: seq<byte>)
    requires |m.data| < 0x1_0000 && s == Encode(m) + rest
    ensures var n := |m.data|;
            && |s| >= 8 + n && s[0] == 0xA6 && s[1] == m.cmd && FromBigEndian(s[2], s[3]) == m.addr
            && FromBigEndian(s[4], s[5]) == n && s[6..6 + n] == m.data && s[8 + n..] == rest
            && FromBigEndian(s[6 + n], s[7 + n]) == Crc16(s[1..6 + n])
  {
    var e, n := Encode(m), |m.data|;
    assert e[1..6 + n] == Body(m) && e[6..6 + n] == m.data;
    assert s[..8 + n] == e && s[1..6 + n] == e[1..6 + n] && s[6..6 + n] == e[6..6 + n];
  }

  /**
   * What the host sends, with whatever stands on the line before it as long as it is no header byte, reaches the
   * firmware's decoder as one message, and the firmware's answer reaches the host unless it is an error report.
   */
  lemma BothDirections(request: Message, noise: seq<byte>, response: Message, rest: seq<byte>)
    requires |request.data| <= 96 && HEADER !in noise && |response.data| < 0x1_0000 && response.cmd != 0xEE
    ensures Events([], noise + HostEncode(request.cmd, request.addr, request.data)) == [Decoded(request)]
    ensures ReceiveFrame(Encode(response) + rest) == Received(response, rest)
  {
    HostEncodesFrames(request);
    RunOneFrame(noise, request, []);
    assert noise + (Encode(request) + []) == noise + HostEncode(request.cmd, request.addr, request.data);
    HostAcceptsExactly(Encode(response) + rest, response, rest);
  }
}
