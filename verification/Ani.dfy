/** DTMF caller identification: the seven-digit frame one radio sends and another one judges. */
module Ani {
  import opened Bits
  import opened Bytes

  const FRAME_LEN: nat := 7
  const TIMEOUT_TICKS: nat := 40
  const MAX_DIGITS: nat := 16

  /** `A`, `B`, `C`, `D`, `*`, `#`. */
  const SEPARATORS: seq<byte> := [10, 11, 12, 13, 14, 15]

  datatype Config = Config(id: seq<byte>, separator: byte, group: Option<byte>)
  {
    predicate Valid() { |id| == 3 }
  }

  /** The stored indices, out-of-range ones taken as `*`. */
  function FromRaw(id: seq<byte>, separatorIdx: byte, groupIdx: byte): (c: Config)
    requires |id| == 3
    ensures c.Valid() && c.id == id
    ensures (c.separator as int) == if separatorIdx <= 5 then 10 + separatorIdx else 14
    ensures c.group == None <==> groupIdx == 0
    ensures c.group.Some? ==> (c.group.value as int) == if groupIdx <= 6 then 9 + groupIdx else 14
  {
    var s, g := if separatorIdx > 5 then 4 else separatorIdx, if groupIdx > 6 then 5 else groupIdx;
    Config(id, SEPARATORS[s], if g == 0 then None else Some(SEPARATORS[g - 1]))
  }

  /** The configuration in the eleven stored bytes: the id in the first three, the two indices in the last two. */
  function FromStored(raw: seq<byte>): (c: Config)
    requires |raw| == 11
    ensures c.Valid()
  {
    FromRaw(raw[..3], raw[9], raw[10])
  }

  /** The digits of a call to `target`. */
  function AniDigits(c: Config, target: seq<byte>): (d: seq<byte>)
    requires c.Valid() && |target| == 3
    ensures |d| == FRAME_LEN
  {
    target + [c.separator] + c.id
  }

  /** The caller a collected burst names, if it is a frame for this radio. */
  function Judge(c: Config, digits: seq<byte>): Option<seq<byte>>
    requires c.Valid()
  {
    if |digits| != FRAME_LEN || digits[3] != c.separator then None
    else if digits[..3] == c.id || (c.group.Some? && digits[..3] == [c.group.value, c.group.value, c.group.value])
    then Some(digits[4..])
    else None
  }

  /** A frame is answered with the sender's id exactly when the separators agree and the target is this radio or its group. */
  lemma JudgedExactly(sender: Config, target: seq<byte>, receiver: Config)
    requires sender.Valid() && receiver.Valid() && |target| == 3
    ensures var verdict := Judge(receiver, AniDigits(sender, target));
            var forMe := target == receiver.id ||
                         (receiver.group.Some? && forall i :: 0 <= i < 3 ==> target[i] == receiver.group.value);
            verdict == if sender.separator == receiver.separator && forMe then Some(sender.id) else None
  {
    var d := AniDigits(sender, target);
    assert d[..3] == target && d[4..] == sender.id;
    if receiver.group.Some? {
      var g := receiver.group.value;
      assert target == [g, g, g] <==> forall i :: 0 <= i < 3 ==> target[i] == g;
    }
  }

  // ---- the receiver -----------------------------------------------------------

  /** One poll: squelch closed, a digit decoded, or neither. */
  datatype Poll = Closed | Digit(digit: byte) | Idle

  /** The digits collected so far and the polls left before they are judged. */
  datatype Heard = Heard(digits: seq<byte>, timeout: nat)
  {
    /** Collected digits never outlive the timeout, and there is always room for one more. */
    predicate Valid() {
      |digits| < MAX_DIGITS && timeout <= TIMEOUT_TICKS && (digits != [] ==> timeout > 0)
    }
  }

  function PollStep(c: Config, h: Heard, p: Poll): (r: (Heard, Option<seq<byte>>))
    requires c.Valid() && h.Valid()
    ensures r.0.Valid()
  {
    match p
    case Closed => (Heard([], 0), if h.digits == [] then None else Judge(c, h.digits))
    case Digit(d) =>
      var more := h.digits + [d];
      if |more| >= MAX_DIGITS then (Heard([], TIMEOUT_TICKS), Judge(c, more)) else (Heard(more, TIMEOUT_TICKS), None)
    case Idle =>
      if h.timeout == 0 then (h, None)
      else if h.timeout == 1 && h.digits != [] then (Heard([], 0), Judge(c, h.digits))
      else (h.(timeout := h.timeout - 1), None)
  }

  class DtmfReceiver {
    const config: Config
    const buf: array<byte>
    var len: nat
    var timeout: nat

    ghost predicate Valid()
      reads this, buf
    {
      config.Valid() && buf.Length == MAX_DIGITS && len < MAX_DIGITS && View().Valid()
    }

    /** Only the part of the buffer in use matters; what older bursts left behind it does not. */
    ghost function View(): Heard
      requires buf.Length == MAX_DIGITS && len <= MAX_DIGITS
      reads this, buf
    {
      Heard(buf[..len], timeout)
    }

    constructor (c: Config)
      requires c.Valid()
      ensures Valid() && fresh(buf) && config == c && View() == Heard([], 0)
    {
      config := c;
      buf := new byte[MAX_DIGITS](_ => 0);
      len, timeout := 0, 0;
    }

    method FinishFrame() returns (caller: Option<seq<byte>>)
      requires config.Valid() && buf.Length == MAX_DIGITS && len <= MAX_DIGITS
      modifies `len
      ensures len == 0 && caller == Judge(config, old(buf[..len]))
    {
      var n := len;
      len := 0;
      if n != FRAME_LEN || buf[3] != config.separator {
        return None;
      }
      assert buf[..n][..3] == buf[..3] && buf[..n][4..] == buf[4..7];
      var callCode := buf[..3];
      var isIndividual := callCode == config.id;
      var isGroup := match config.group case Some(g) => callCode == [g, g, g] case None => false;
      if !isIndividual && !isGroup {
        return None;
      }
      return Some(buf[4..7]);
    }

    method PollDtmf(p: Poll) returns (caller: Option<seq<byte>>)
      requires Valid()
      modifies this, buf
      ensures Valid() && View() == PollStep(config, old(View()), p).0
      ensures caller == PollStep(config, old(View()), p).1
    {
      match p {
        case Closed =>
          timeout := 0;
          if len > 0 {
            caller := FinishFrame();
            return;
          }
          return None;
        case Digit(digit) =>
          if len < MAX_DIGITS {
            buf[len] := digit;
            len := len + 1;
          }
          assert buf[..len] == old(buf[..len]) + [digit];
          timeout := TIMEOUT_TICKS;
          if len >= MAX_DIGITS {
            caller := FinishFrame();
            return;
          }
          return None;
        case Idle =>
          if timeout > 0 {
            timeout := timeout - 1;
            if timeout == 0 && len > 0 {
              caller := FinishFrame();
              return;
            }
          }
          return None;
      }
    }
  }

  // ---- whole transmissions ----------------------------------------------------

  function After(c: Config, h: Heard, polls: seq<Poll>): (r: Heard)
    requires c.Valid() && h.Valid()
    ensures r.Valid()
    decreases |polls|
  {
    if polls == [] then h else PollStep(c, After(c, h, polls[..|polls| - 1]), polls[|polls| - 1]).0
  }

  /** The callers reported, in order. */
  function Reports(c: Config, h: Heard, polls: seq<Poll>): seq<seq<byte>>
    requires c.Valid() && h.Valid()
    decreases |polls|
  {
    if polls == [] then []
    else
      var init := polls[..|polls| - 1];
      Reports(c, h, init) + Listed(PollStep(c, After(c, h, init), polls[|polls| - 1]).1)
  }

  function Listed(o: Option<seq<byte>>): seq<seq<byte>> {
    match o case None => [] case Some(x) => [x]
  }

  lemma {:induction false} AfterJoined(c: Config, h: Heard, a: seq<Poll>, b: seq<Poll>)
    requires c.Valid() && h.Valid()
    ensures After(c, h, a + b) == After(c, After(c, h, a), b)
    decreases |b|
  {
    if b == [] {
      assert a + b == a;
    } else {
      var init := b[..|b| - 1];
      AfterJoined(c, h, a, init);
      assert (a + b)[..|a + b| - 1] == a + init;
    }
  }

  lemma {:induction false} Joined(c: Config, h: Heard, a: seq<Poll>, b: seq<Poll>)
    requires c.Valid() && h.Valid()
    ensures After(c, h, a + b) == After(c, After(c, h, a), b)
    ensures Reports(c, h, a + b) == Reports(c, h, a) + Reports(c, After(c, h, a), b)
    decreases |b|
  {
    AfterJoined(c, h, a, b);
    if b == [] {
      assert a + b == a;
    } else {
      var init := b[..|b| - 1];
      Joined(c, h, a, init);
      assert (a + b)[..|a + b| - 1] == a + init;
    }
  }

  function Idles(k: nat): (s: seq<Poll>)
    ensures |s| == k
  {
    Repeat(Idle, k)
  }

  /** Waiting with digits collected: nothing happens until the timeout has run out, then they are judged. */
  lemma {:induction false} Waiting(c: Config, h: Heard, k: nat)
    requires c.Valid() && h.Valid() && h.digits != []
    ensures After(c, h, Idles(k)) == if k < h.timeout then h.(timeout := h.timeout - k) else Heard([], 0)
    ensures Reports(c, h, Idles(k)) == if k < h.timeout then [] else Listed(Judge(c, h.digits))
  {
    if k != 0 {
      Waiting(c, h, k - 1);
      assert Idles(k)[..k - 1] == Idles(k - 1) && Idles(k)[k - 1] == Idle;
    }
  }

  /** With nothing collected, polls without a digit do nothing. */
  lemma {:induction false} Quiet(c: Config, h: Heard, polls: seq<Poll>)
    requires c.Valid() && h.Valid() && h.digits == [] && forall i :: 0 <= i < |polls| ==> !polls[i].Digit?
    ensures After(c, h, polls).digits == [] && Reports(c, h, polls) == []
    decreases |polls|
  {
    if polls != [] {
      Quiet(c, h, polls[..|polls| - 1]);
    }
  }

  /** Digits as the receiver meets them: each after some idle polls. */
  function Signal(digits: seq<byte>, gaps: seq<nat>): seq<Poll>
    requires |digits| == |gaps|
    decreases |digits|
  {
    if digits == [] then []
    else
      var n := |digits| - 1;
      Signal(digits[..n], gaps[..n]) + (Idles(gaps[n]) + [Digit(digits[n])])
  }

  /** The burst left after every sixteen digits have been judged and dropped. */
  function Kept(digits: seq<byte>): (k: seq<byte>)
    ensures |k| < MAX_DIGITS
    decreases |digits|
  {
    if digits == [] then []
    else
      var k := Kept(digits[..|digits| - 1]) + [digits[|digits| - 1]];
      if |k| >= MAX_DIGITS then [] else k
  }

  lemma {:induction false} KeptIsRest(digits: seq<byte>)
    ensures Kept(digits) == digits[|digits| - |digits| % 16..]
    decreases |digits|
  {
    if digits != [] {
      KeptIsRest(digits[..|digits| - 1]);
      ModStep(|digits| - 1, 16);
    }
  }

  lemma ShortBurstKept(digits: seq<byte>)
    requires |digits| < 16
    ensures Kept(digits) == digits
  {
    assert |digits| - |digits| % 16 == 0 by { SmallMod(|digits|, 16); }
    assert digits[0..] == digits;
    KeptIsRest(digits);
  }

  /** One more digit after a short enough wait; before the first one the wait does not matter. */
  lemma OneDigit(c: Config, h: Heard, gap: nat, d: byte)
    requires c.Valid() && h.Valid() && (h.digits != [] ==> gap < h.timeout)
    ensures var polls := Idles(gap) + [Digit(d)];
            var more := h.digits + [d];
            && After(c, h, polls) == Heard(if |more| >= MAX_DIGITS then [] else more, TIMEOUT_TICKS)
            && Reports(c, h, polls) == []
  {
    Joined(c, h, Idles(gap), [Digit(d)]);
    if h.digits == [] {
      Quiet(c, h, Idles(gap));
    } else {
      Waiting(c, h, gap);
    }
    var w := After(c, h, Idles(gap));
    assert [Digit(d)][..0] == [];
    assert After(c, w, []) == w && Reports(c, w, []) == [];
  }

  /** A burst with fewer than 40 idle polls between its digits is collected whole, sixteen digits at a time. */
  lemma {:induction false} Collected(c: Config, h: Heard, digits: seq<byte>, gaps: seq<nat>)
    requires c.Valid() && h.Valid() && h.digits == [] && |digits| == |gaps| && digits != []
    requires forall i :: 0 < i < |gaps| ==> gaps[i] < 40
    ensures After(c, h, Signal(digits, gaps)) == Heard(Kept(digits), TIMEOUT_TICKS)
    ensures Reports(c, h, Signal(digits, gaps)) == []
    decreases |digits|
  {
    var n := |digits| - 1;
    if n == 0 {
      assert Kept(digits[..0]) == [];
      assert Signal(digits[..0], gaps[..0]) == [];
    } else {
      Collected(c, h, digits[..n], gaps[..n]);
    }
    CollectOneMore(c, h, Signal(digits[..n], gaps[..n]), Kept(digits[..n]), gaps[n], digits[n]);
  }

  lemma CollectOneMore(c: Config, h: Heard, before: seq<Poll>, kept: seq<byte>, gap: nat, d: byte)
    requires c.Valid() && h.Valid() && |kept| < MAX_DIGITS
    requires After(c, h, before).digits == kept && Reports(c, h, before) == []
    requires kept != [] ==> gap < After(c, h, before).timeout
    ensures var polls := before + (Idles(gap) + [Digit(d)]);
            var more := kept + [d];
            && After(c, h, polls) == Heard(if |more| >= MAX_DIGITS then [] else more, TIMEOUT_TICKS)
            && Reports(c, h, polls) == []
  {
    Joined(c, h, before, Idles(gap) + [Digit(d)]);
    OneDigit(c, After(c, h, before), gap, d);
  }

  /** How a burst ends: the squelch closes after a while, or nothing comes until the timeout. */
  datatype Ending = Squelch(wait: nat) | Timeout

  function EndPolls(e: Ending): seq<Poll> {
    match e case Squelch(wait) => Idles(wait) + [Closed] case Timeout => Idles(40)
  }

  /** A burst of digits, its end, and whatever polls without a digit follow. */
  datatype Burst = Burst(digits: seq<byte>, gaps: seq<nat>, end: Ending, quiet: seq<Poll>)
  {
    ghost predicate Valid() {
      && |digits| == |gaps| && digits != []
      && (forall i :: 0 < i < |gaps| ==> gaps[i] < 40)
      && forall i :: 0 <= i < |quiet| ==> !quiet[i].Digit?
    }

    function Polls(): seq<Poll>
      requires |digits| == |gaps|
    {
      Signal(digits, gaps) + (EndPolls(end) + quiet)
    }
  }

  lemma EndJudges(c: Config, h: Heard, e: Ending)
    requires c.Valid() && h.Valid()
    ensures After(c, h, EndPolls(e)).digits == []
    ensures Reports(c, h, EndPolls(e)) == Listed(Judge(c, h.digits))
  {
    if h.digits == [] {
      Quiet(c, h, EndPolls(e));
    } else {
      match e
      case Timeout => Waiting(c, h, TIMEOUT_TICKS);
      case Squelch(wait) =>
        Waiting(c, h, wait);
        Joined(c, h, Idles(wait), [Closed]);
        var w := After(c, h, Idles(wait));
        assert [Closed][..0] == [];
        assert After(c, w, []) == w && Reports(c, w, []) == [];
    }
  }

  /** A burst is judged once, on the digits left over after each sixteen, and leaves the receiver empty. */
  lemma BurstJudged(c: Config, h: Heard, b: Burst)
    requires c.Valid() && h.Valid() && h.digits == [] && b.Valid()
    ensures After(c, h, b.Polls()).digits == []
    ensures Reports(c, h, b.Polls()) == Listed(Judge(c, Kept(b.digits)))
  {
    var signal, end := Signal(b.digits, b.gaps), EndPolls(b.end);
    Collected(c, h, b.digits, b.gaps);
    Joined(c, h, signal, end + b.quiet);
    var collected := After(c, h, signal);
    Joined(c, collected, end, b.quiet);
    EndJudges(c, collected, b.end);
    Quiet(c, After(c, collected, end), b.quiet);
  }

  /**
   * A burst is judged as the whole of its digits exactly when the collection never runs over, or the digits left over
   * are not seven, or those seven are no call for this radio.
   */
  lemma JudgedWholeExactly(c: Config, h: Heard, b: Burst)
    requires c.Valid() && h.Valid() && h.digits == [] && b.Valid()
    ensures Reports(c, h, b.Polls()) == Listed(Judge(c, b.digits)) <==>
              || |b.digits| < 16 || |b.digits| % 16 != 7
              || Judge(c, b.digits[|b.digits| - 7..]) == None
  {
    BurstJudged(c, h, b);
    KeptIsRest(b.digits);
    if |b.digits| < 16 {
      ShortBurstKept(b.digits);
    }
  }

  ghost predicate AllValid(bursts: seq<Burst>) { forall b :: b in bursts ==> b.Valid() }

  function AllPolls(bursts: seq<Burst>): seq<Poll>
    requires forall b :: b in bursts ==> |b.digits| == |b.gaps|
    decreases |bursts|
  {
    if bursts == [] then [] else AllPolls(bursts[..|bursts| - 1]) + bursts[|bursts| - 1].Polls()
  }

  function AllVerdicts(c: Config, bursts: seq<Burst>): seq<seq<byte>>
    requires c.Valid()
    decreases |bursts|
  {
    if bursts == [] then []
    else AllVerdicts(c, bursts[..|bursts| - 1]) + Listed(Judge(c, Kept(bursts[|bursts| - 1].digits)))
  }

  /** Over any sequence of bursts, each is judged on its own: no burst affects another. */
  lemma {:induction false} BurstsIndependent(c: Config, h: Heard, bursts: seq<Burst>)
    requires c.Valid() && h.Valid() && h.digits == [] && AllValid(bursts)
    ensures After(c, h, AllPolls(bursts)).digits == []
    ensures Reports(c, h, AllPolls(bursts)) == AllVerdicts(c, bursts)
    decreases |bursts|
  {
    if bursts != [] {
      var init, last := bursts[..|bursts| - 1], bursts[|bursts| - 1];
      assert forall b :: b in init ==> b in bursts;
      assert last in bursts;
      BurstsIndependent(c, h, init);
      Joined(c, h, AllPolls(init), last.Polls());
      BurstJudged(c, After(c, h, AllPolls(init)), last);
    }
  }

  /**
   * Between two radios: the seven digits, however spaced below the timeout and however ended, make the receiver
   * report the sender exactly when the separators agree and the target is its own id or its group code three times.
   */
  lemma CallDelivered(sender: Config, target: seq<byte>, receiver: Config, h: Heard, b: Burst)
    requires sender.Valid() && receiver.Valid() && |target| == 3
    requires h.Valid() && h.digits == [] && b.Valid() && b.digits == AniDigits(sender, target)
    ensures var forMe := target == receiver.id ||
                         (receiver.group.Some? && forall i :: 0 <= i < 3 ==> target[i] == receiver.group.value);
            Reports(receiver, h, b.Polls()) == if sender.separator == receiver.separator && forMe then [sender.id] else []
  {
    assert Reports(receiver, h, b.Polls()) == Listed(Judge(receiver, Kept(b.digits))) by {
      BurstJudged(receiver, h, b);
    }
    ShortBurstKept(b.digits);
    JudgedExactly(sender, target, receiver);
  }

  /** Two stored separator indices name the same separator: equal ones, and any two of those read as `*`. */
  predicate SameSeparator(i: byte, j: byte) {
    i == j || (IsStar(i) && IsStar(j))
  }

  predicate IsStar(i: byte) { i == 4 || i > 5 }

  /** The digit a stored group index stands for, 0 being no group. */
  function GroupDigit(i: byte): byte { if i > 6 then 14 else if i == 0 then 0 else i + 9 }

  /**
   * Between two radios given by their stored bytes: a call is reported as coming from the three bytes stored as the
   * sender's id exactly when the stored separators mean the same and the target is the receiver's stored id, or
   * three times the digit of its stored group index.
   */
  lemma StoredCallDelivered(sender: seq<byte>, target: seq<byte>, receiver: seq<byte>, h: Heard, b: Burst)
    requires |sender| == |receiver| == 11 && |target| == 3
    requires h.Valid() && h.digits == [] && b.Valid()
    requires b.digits == AniDigits(FromStored(sender), target)
    ensures var forMe := target == receiver[..3] ||
                         (receiver[10] != 0 && forall i :: 0 <= i < 3 ==> target[i] == GroupDigit(receiver[10]));
            Reports(FromStored(receiver), h, b.Polls()) ==
              if SameSeparator(sender[9], receiver[9]) && forMe then [sender[..3]] else []
  {
    CallDelivered(FromStored(sender), target, FromStored(receiver), h, b);
  }

  /** The digits on the air of a call from a radio given by its stored bytes. */
  lemma StoredDigits(sender: seq<byte>, target: seq<byte>)
    requires |sender| == 11 && |target| == 3
    ensures var d := AniDigits(FromStored(sender), target);
            && d[..3] == target && d[4..] == sender[..3]
            && (d[3] as int) == if sender[9] <= 5 then 10 + sender[9] else 14
  {
  }
}
