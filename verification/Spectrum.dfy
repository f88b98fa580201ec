/** The spectrum analyser: sweep, listen on the peak, and the blacklist marks kept in the bars themselves. */
module Spectrum {
  import opened Bits
  import opened Bytes
  import opened Keypad

  const MAX_BINS: nat := 128
  const BLACKLIST_SENTINEL: nat := 0xFFFF
  const PEAK_HOLD_STEPS: nat := 1024
  const LISTEN_HANG_TICKS: nat := 30
  const PAN_STEP_MIN: nat := 100_000
  const PAN_STEP_MAX: nat := 2_000_000
  const INPUT_DIGITS: nat := 6

  const SCAN_STEPS: seq<nat> := [
    10, 100, 500, 1_000, 2_500, 5_000, 6_250, 8_330, 10_000, 12_500, 15_000, 20_000, 25_000, 50_000, 100_000]

  const STEPS_COUNTS: seq<nat> := [128, 64, 32, 16]

  /** What the receiver reports: `get_rssi` keeps eight bits. */
  type Rssi = byte

  datatype State = State(
    windowStart: u32, scanStep: nat, panStep: u32, steps: nat,
    scanPos: nat, bars: seq<nat>, ceiling: int, trigger: nat,
    peak: Option<nat>, peakRssi: nat, peakAge: nat,
    listening: bool, hang: nat, wide: bool, entering: bool, input: seq<nat>, active: bool,
    home: u32)
  {
    function Bins(): nat
      requires steps < |STEPS_COUNTS|
    {
      STEPS_COUNTS[steps]
    }

    function StepHz(): nat
      requires scanStep < |SCAN_STEPS|
    {
      SCAN_STEPS[scanStep]
    }

    /** Frequency of a bar, in the source's 32 bits. */
    function FreqAt(pos: nat): nat
      requires scanStep < |SCAN_STEPS|
    {
      (windowStart + pos * StepHz()) % 0x1_0000_0000
    }

    predicate Marked(i: nat)
      requires i < |bars|
    {
      bars[i] == BLACKLIST_SENTINEL
    }

    ghost predicate Configured() {
      && steps < |STEPS_COUNTS| && scanStep < |SCAN_STEPS|
      && |input| <= INPUT_DIGITS && (forall d :: d in input ==> d < 10)
      && PAN_STEP_MIN <= panStep <= PAN_STEP_MAX && -120 <= ceiling <= -20 && trigger <= RawForDbm(ceiling)
    }

    /** The peak is never marked, and listening without a peak means that nothing is. */
    ghost predicate PeakUnmarked()
      requires |bars| == MAX_BINS && steps < |STEPS_COUNTS|
    {
      && (peak.Some? ==> peak.value < Bins() && bars[peak.value] != BLACKLIST_SENTINEL)
      && (listening && peak == None ==> forall i :: 0 <= i < MAX_BINS ==> bars[i] != BLACKLIST_SENTINEL)
    }

    /** What every run keeps. */
    ghost predicate Valid() {
      && Configured()
      && |bars| == MAX_BINS && scanPos < Bins() <= MAX_BINS
      && peakAge <= PEAK_HOLD_STEPS && hang <= LISTEN_HANG_TICKS
      && (listening ==> hang < LISTEN_HANG_TICKS && active && !entering)
      && PeakUnmarked()
    }
  }

  /** Same window, so that a bar still stands for the same frequency, and the same frequency to return to. */
  predicate SameWindow(s: State, t: State) {
    s.windowStart == t.windowStart && s.scanStep == t.scanStep && s.steps == t.steps && s.home == t.home
  }

  function RawForDbm(dbm: int): nat {
    if dbm + 174 < 0 then 0 else if dbm + 174 > 0xFFFF then 0xFFFF else dbm + 174
  }

  function Min(a: int, b: int): int { if a < b then a else b }

  function Max(a: int, b: int): int { if a < b then b else a }

  /** The middle of the window put on a frequency, as far as zero allows. */
  function Centred(s: State, centre: u32): State
    requires s.steps < |STEPS_COUNTS| && s.scanStep < |SCAN_STEPS|
  {
    s.(windowStart := Max(0, centre - s.Bins() / 2 * s.StepHz()))
  }

  function NoBars(): (b: seq<nat>)
    ensures |b| == MAX_BINS && forall i :: 0 <= i < MAX_BINS ==> b[i] == 0
  {
    Bytes.Repeat(0, MAX_BINS)
  }

  /** Where `enter_rx` tunes: the master frequency, moved by the receive offset (0 unless the mode is USB or CW). */
  function Home(master: u32, rit: int): u32 {
    Max(0, Min(master + rit, 0xFFFF_FFFF))
  }

  function Fresh(master: u32, rit: int): (s: State)
    ensures s.Valid() && s.active && !s.listening
  {
    Centred(State(0, 8, 800_000, 1, 0, NoBars(), -60, Min(RawForDbm(-90), RawForDbm(-60)), None, 0, 0,
                  false, 0, true, false, [], true, Home(master, rit)), master)
  }

  function Relaunched(s: State): State {
    s.(bars := NoBars(), scanPos := 0, peak := None, peakRssi := 0, peakAge := 0)
  }

  // ---- polling ----------------------------------------------------------------

  /** The scan moves on to the next bar, the first again after the last. */
  function Advanced(s: State): State
    requires s.steps < |STEPS_COUNTS|
  {
    s.(scanPos := if s.scanPos + 1 >= s.Bins() then 0 else s.scanPos + 1)
  }

  function Measured(s: State, rssi: Rssi): State
    requires s.scanPos < |s.bars|
  {
    var t := s.(bars := s.bars[s.scanPos := rssi]);
    if s.peak == None || rssi > s.peakRssi || s.peakAge >= PEAK_HOLD_STEPS
    then t.(peak := Some(s.scanPos), peakRssi := rssi, peakAge := 0)
    else t.(peakAge := s.peakAge + 1)
  }

  /** One step of the sweep, and the frequencies it tunes to. */
  function StepScan(s: State, rssi: Rssi): (r: (State, seq<nat>))
    requires s.Valid()
  {
    if s.Marked(s.scanPos) then (Advanced(s), [])
    else
      var m, f := Measured(s, rssi), s.FreqAt(s.scanPos);
      if rssi >= s.trigger then (m.(listening := true, hang := 0), [f, f])
      else (Advanced(m), [f])
  }

  function PollListen(s: State, rssi: Rssi): State
    requires s.Valid()
  {
    var t := s.(bars := s.bars[(match s.peak case Some(p) => p case None => 0) := rssi]);
    if rssi >= s.trigger then t.(hang := 0)
    else t.(hang := s.hang + 1, listening := s.listening && s.hang + 1 < LISTEN_HANG_TICKS)
  }

  /** One tick: at most two readings of the receiver. */
  function Polled(s: State, first: Rssi, second: Rssi): (r: (State, seq<nat>))
    requires s.Valid()
  {
    if !s.active || s.entering then (s, [])
    else if s.listening then (PollListen(s, first), [])
    else
      StepKeepsValid(s, first);
      var one := StepScan(s, first);
      if !s.wide || one.0.listening then one
      else
        var two := StepScan(one.0, second);
        (two.0, one.1 + two.1)
  }

  lemma MeasureKeeps(s: State, rssi: Rssi)
    requires s.Valid() && !s.listening && !s.Marked(s.scanPos)
    ensures var m := Measured(s, rssi);
            && |m.bars| == MAX_BINS && m.PeakUnmarked() && m.peakAge <= PEAK_HOLD_STEPS && m.peak.Some?
            && m == s.(bars := m.bars, peak := m.peak, peakRssi := m.peakRssi, peakAge := m.peakAge)
  {
  }

  lemma StepKeepsValid(s: State, rssi: Rssi)
    requires s.Valid() && s.active && !s.entering && !s.listening
    ensures StepScan(s, rssi).0.Valid()
  {
    if !s.Marked(s.scanPos) {
      MeasureKeeps(s, rssi);
    }
  }

  lemma ListenKeepsValid(s: State, rssi: Rssi)
    requires s.Valid() && s.active && !s.entering && s.listening
    ensures PollListen(s, rssi).Valid()
  {
  }

  lemma PollKeepsValid(s: State, first: Rssi, second: Rssi)
    requires s.Valid()
    ensures Polled(s, first, second).0.Valid()
  {
    if s.active && !s.entering {
      if s.listening {
        ListenKeepsValid(s, first);
      } else {
        StepKeepsValid(s, first);
        var one := StepScan(s, first).0;
        if s.wide && !one.listening {
          StepKeepsValid(one, second);
        }
      }
    }
  }

  // ---- keys -------------------------------------------------------------------

  function EnteredValue(digits: seq<nat>): nat
    decreases |digits|
  {
    if digits == [] then 0 else EnteredValue(digits[..|digits| - 1]) * 10 + digits[|digits| - 1]
  }

  lemma {:induction false} EnteredBelow(digits: seq<nat>)
    requires |digits| <= INPUT_DIGITS && forall d :: d in digits ==> d < 10
    ensures EnteredValue(digits) < 1_000_000
    ensures |digits| == 0 ==> EnteredValue(digits) < 1
    ensures |digits| == 1 ==> EnteredValue(digits) < 10
    ensures |digits| == 2 ==> EnteredValue(digits) < 100
    ensures |digits| == 3 ==> EnteredValue(digits) < 1_000
    ensures |digits| == 4 ==> EnteredValue(digits) < 10_000
    ensures |digits| == 5 ==> EnteredValue(digits) < 100_000
    decreases |digits|
  {
    if digits != [] {
      var init := digits[..|digits| - 1];
      assert forall d :: d in init ==> d in digits;
      EnteredBelow(init);
      assert digits[|digits| - 1] in digits;
    }
  }

  function Panned(s: State, up: bool): State {
    Relaunched(s.(windowStart := if up then Min(s.windowStart + s.panStep, 0xFFFF_FFFF) else Max(0, s.windowStart - s.panStep)))
  }

  function ScanStepChanged(s: State, up: bool): State {
    Relaunched(s.(scanStep := if up then (s.scanStep + 1) % 15 else (s.scanStep + 14) % 15))
  }

  function PanStepChanged(s: State, up: bool): State {
    s.(panStep := if up then Min(s.panStep * 2, PAN_STEP_MAX) else Max(s.panStep / 2, PAN_STEP_MIN))
  }

  function CeilingChanged(s: State, up: bool): State {
    var c := if up then Min(s.ceiling + 4, -20) else Max(s.ceiling - 4, -120);
    s.(ceiling := c, trigger := Min(s.trigger, RawForDbm(c)))
  }

  function TriggerChanged(s: State, up: bool): State {
    s.(trigger := if up then Min(s.trigger + 4, RawForDbm(s.ceiling)) else Max(0, s.trigger - 4))
  }

  function PeakBlacklisted(s: State): State
    requires s.Valid()
  {
    match s.peak
    case None => s
    case Some(p) => s.(bars := s.bars[p := BLACKLIST_SENTINEL], peak := None, peakRssi := 0)
  }

  function Committed(s: State): State
    requires s.Valid()
  {
    EnteredBelow(s.input);
    (if s.input != [] then Relaunched(Centred(s, EnteredValue(s.input) * 1000)) else s).(input := [], entering := false)
  }

  function DigitOf(key: KeyId): Option<nat> {
    match key
    case Digit0 => Some(0) case Digit1 => Some(1) case Digit2 => Some(2) case Digit3 => Some(3) case Digit4 => Some(4)
    case Digit5 => Some(5) case Digit6 => Some(6) case Digit7 => Some(7) case Digit8 => Some(8) case Digit9 => Some(9)
    case _ => None
  }

  function FreqInput(s: State, ev: KeyEvent): State
    requires s.Valid()
  {
    if ev.kind != Single then s
    else
      match DigitOf(ev.key)
      case Some(d) =>
        var t := s.(input := if |s.input| < INPUT_DIGITS then s.input + [d] else s.input);
        assert DigitOf(ev.key).Some? ==> d < 10;
        if |t.input| >= INPUT_DIGITS then Committed(t) else t
      case None =>
        if ev.key == Menu then Committed(s)
        else if ev.key == Exit then (if s.input != [] then s.(input := []) else s.(entering := false))
        else s
  }

  /** The keys that change one setting each. */
  function SettingApplied(s: State, key: KeyId): State {
    match key
    case Digit2 => PanStepChanged(s, true)
    case Digit8 => PanStepChanged(s, false)
    case Digit3 => CeilingChanged(s, true)
    case Digit9 => CeilingChanged(s, false)
    case Asterisk => TriggerChanged(s, true)
    case Pound => TriggerChanged(s, false)
    case Digit5 => s.(entering := true, input := [])
    case Digit6 => s.(wide := !s.wide)
    case _ => s
  }

  /** The keys outside the frequency overlay, after any listening they interrupt. */
  function KeyApplied(s: State, ev: KeyEvent): State
    requires s.Valid()
  {
    if (ev.kind == Single || ev.kind == EventKind.Repeat) && (ev.key == Up || ev.key == Down) then Panned(s, ev.key == Up)
    else if ev.kind != Single then s
    else if ev.key == Digit1 || ev.key == Digit7 then ScanStepChanged(s, ev.key == Digit1)
    else if ev.key == Digit4 then Relaunched(s.(steps := (s.steps + 1) % 4))
    else if ev.key == Side1 then PeakBlacklisted(s)
    else SettingApplied(s, ev.key)
  }

  /** Any key released early stops the listening before it does its own work. */
  function ListeningStopped(s: State, ev: KeyEvent): State {
    if s.listening && ev.kind == Single then s.(listening := false) else s
  }

  lemma StoppingKeepsValid(s: State, ev: KeyEvent)
    requires s.Valid()
    ensures ListeningStopped(s, ev).Valid()
  {
  }

  /** Exit leaves the analyser, unless the overlay is open and takes it. */
  predicate Leaves(s: State, ev: KeyEvent) {
    s.active && !s.entering && ev.kind == Single && ev.key == Exit
  }

  /** The effect of a key event; on leaving the radio goes back to the master frequency. */
  function Dispatched(s: State, ev: KeyEvent): State
    requires s.Valid()
  {
    if !s.active then s
    else if s.entering then FreqInput(s, ev)
    else if Leaves(s, ev) then s.(listening := false, active := false)
    else
      StoppingKeepsValid(s, ev);
      KeyApplied(ListeningStopped(s, ev), ev)
  }

  lemma CommitKeeps(s: State)
    requires s.Valid() && s.entering
    ensures Committed(s).Valid()
  {
  }

  lemma FreqInputKeeps(s: State, ev: KeyEvent)
    requires s.Valid() && s.entering
    ensures FreqInput(s, ev).Valid()
  {
    if ev.kind == Single {
      match DigitOf(ev.key)
      case Some(d) =>
        var t := s.(input := if |s.input| < INPUT_DIGITS then s.input + [d] else s.input);
        assert t.Valid();
        if |t.input| >= INPUT_DIGITS {
          CommitKeeps(t);
        }
      case None =>
        if ev.key == Menu {
          CommitKeeps(s);
        }
    }
  }

  lemma SettingsKeep(s: State, key: KeyId)
    requires s.Valid() && !s.listening
    ensures var t := SettingApplied(s, key);
            t.Valid() && t.bars == s.bars && SameWindow(s, t) && t.peak == s.peak && t.active == s.active
  {
  }

  lemma RelaunchesKeep(s: State, up: bool)
    requires s.Valid()
    ensures Panned(s, up).Valid()
    ensures ScanStepChanged(s, up).Valid()
    ensures Relaunched(s.(steps := (s.steps + 1) % 4)).Valid()
  {
  }

  lemma KeyKeeps(s: State, ev: KeyEvent)
    requires s.Valid() && s.active && !s.entering && (ev.kind == Single ==> !s.listening)
    ensures KeyApplied(s, ev).Valid()
  {
    if (ev.kind == Single || ev.kind == EventKind.Repeat) && (ev.key == Up || ev.key == Down) {
      RelaunchesKeep(s, ev.key == Up);
    } else if ev.kind == Single {
      RelaunchesKeep(s, ev.key == Digit1);
      BlacklistKeeps(s);
      SettingsKeep(s, ev.key);
    }
  }

  lemma BlacklistKeeps(s: State)
    requires s.Valid() && !s.listening
    ensures PeakBlacklisted(s).Valid()
  {
  }

  lemma DispatchKeeps(s: State, ev: KeyEvent)
    requires s.Valid()
    ensures Dispatched(s, ev).Valid()
  {
    if s.active {
      if s.entering {
        FreqInputKeeps(s, ev);
      } else if !Leaves(s, ev) {
        StoppingKeepsValid(s, ev);
        KeyKeeps(ListeningStopped(s, ev), ev);
      }
    }
  }

  // ---- whole runs -------------------------------------------------------------

  /**
   * `HangEnds` is the end of a Morse transmission by hang time or time-out, which puts the radio back to receiving on
   * the master frequency even when the analyser has been opened meanwhile.
   */
  datatype Action = Tick(first: Rssi, second: Rssi) | Key(ev: KeyEvent) | HangEnds | Enter(master: u32, rit: int)

  /** The radio goes back to the master frequency: on leaving the analyser, or when a hang time ends while it is open. */
  predicate GoesHome(s: State, a: Action) {
    match a
    case Key(ev) => Leaves(s, ev)
    case HangEnds => s.active
    case _ => false
  }

  /** The state after an action, and the frequencies the receiver is tuned to by it while the analyser is open. */
  function Step(s: State, a: Action): (r: (State, seq<nat>))
    requires s.Valid()
    ensures r.0.Valid()
  {
    match a
    case Tick(first, second) =>
      PollKeepsValid(s, first, second);
      Polled(s, first, second)
    case Key(ev) =>
      DispatchKeeps(s, ev);
      (Dispatched(s, ev), if Leaves(s, ev) then [s.home] else [])
    case HangEnds => (s, if s.active then [s.home] else [])
    case Enter(master, rit) => (Fresh(master, rit), [Home(master, rit)])
  }

  function After(s: State, actions: seq<Action>): (r: State)
    requires s.Valid()
    ensures r.Valid()
    decreases |actions|
  {
    if actions == [] then s else Step(After(s, actions[..|actions| - 1]), actions[|actions| - 1]).0
  }

  function TunedTo(s: State, actions: seq<Action>): seq<nat>
    requires s.Valid()
    decreases |actions|
  {
    if actions == [] then []
    else
      var init := actions[..|actions| - 1];
      TunedTo(s, init) + Step(After(s, init), actions[|actions| - 1]).1
  }

  /** The frequency in the overlay is taken over: on the sixth digit, or on Menu after at least one. */
  predicate Commits(s: State, ev: KeyEvent) {
    ev.kind == Single && if DigitOf(ev.key).Some? then |s.input| + 1 >= INPUT_DIGITS else ev.key == Menu && s.input != []
  }

  /** The actions that clear the bars: re-entry, panning, a new scan step or bar count, a new centre frequency. */
  predicate Restarts(s: State, a: Action) {
    match a
    case Tick(_, _) => false
    case HangEnds => false
    case Enter(_, _) => true
    case Key(ev) =>
      s.active &&
      if s.entering then Commits(s, ev)
      else
        || ((ev.kind == Single || ev.kind == EventKind.Repeat) && (ev.key == Up || ev.key == Down))
        || (ev.kind == Single && (ev.key == Digit1 || ev.key == Digit7 || ev.key == Digit4))
  }

  predicate NoRestart(s: State, actions: seq<Action>)
    requires s.Valid()
    decreases |actions|
  {
    actions == [] ||
    var init := actions[..|actions| - 1];
    NoRestart(s, init) && !Restarts(After(s, init), actions[|actions| - 1])
  }

  /** Somewhere in the run the radio goes back to the master frequency. */
  predicate ReturnsHome(s: State, actions: seq<Action>)
    requires s.Valid()
    decreases |actions|
  {
    actions != [] &&
    var init := actions[..|actions| - 1];
    ReturnsHome(s, init) || GoesHome(After(s, init), actions[|actions| - 1])
  }

  /** `b` keeps its mark and the window its place, and `tuned` has the frequency of `b` only as the one returned to. */
  ghost predicate Avoids(s: State, t: State, tuned: seq<nat>, b: nat, homeward: bool)
    requires s.Valid() && t.Valid() && b < MAX_BINS
  {
    SameWindow(s, t) && t.Marked(b) && (s.FreqAt(b) in tuned <==> homeward && s.home == s.FreqAt(b))
  }

  lemma DistinctFrequencies(s: State, i: nat, j: nat)
    requires s.Valid() && i < MAX_BINS && j < MAX_BINS && i != j
    ensures s.FreqAt(i) != s.FreqAt(j)
  {
    var step := s.StepHz();
    assert 0 < step <= 100_000;
    DistinctOffsets(s.windowStart, step, i, j);
  }

  lemma DistinctOffsets(w: nat, step: nat, i: nat, j: nat)
    requires 0 < step <= 100_000 && i < 128 && j < 128 && i != j
    ensures (w + i * step) % 0x1_0000_0000 != (w + j * step) % 0x1_0000_0000
  {
    var lo, hi := if i < j then i else j, if i < j then j else i;
    MulMonotone(step, lo + 1, hi);
    MulMonotone(step, hi - lo, 128);
    assert step * hi - step * lo == step * (hi - lo);
    DifferentRemainder(w + lo * step, w + hi * step, 0x1_0000_0000);
  }

  lemma DifferentRemainder(x: nat, y: nat, m: nat)
    requires x < y < x + m
    ensures x % m != y % m
  {
    var p, q := x / m, y / m;
    assert x == m * p + x % m && y == m * q + y % m;
    if p < q {
      MulMonotone(m, p + 1, q);
    } else {
      MulMonotone(m, q, p);
    }
  }

  lemma StepAvoids(s: State, rssi: Rssi, b: nat)
    requires s.Valid() && s.active && !s.entering && !s.listening && b < MAX_BINS && s.Marked(b)
    requires StepScan(s, rssi).0.Valid()
    ensures Avoids(s, StepScan(s, rssi).0, StepScan(s, rssi).1, b, false)
  {
    if !s.Marked(s.scanPos) {
      DistinctFrequencies(s, s.scanPos, b);
      MeasureKeeps(s, rssi);
    }
  }

  lemma PollAvoids(s: State, first: Rssi, second: Rssi, b: nat)
    requires s.Valid() && b < MAX_BINS && s.Marked(b) && Polled(s, first, second).0.Valid()
    ensures Avoids(s, Polled(s, first, second).0, Polled(s, first, second).1, b, false)
  {
    if s.active && !s.entering && !s.listening {
      StepKeepsValid(s, first);
      StepAvoids(s, first, b);
      var one := StepScan(s, first);
      if s.wide && !one.0.listening {
        StepKeepsValid(one.0, second);
        StepAvoids(one.0, second, b);
        assert one.0.FreqAt(b) == s.FreqAt(b);
      }
    }
  }

  lemma InputKeepsBars(s: State, ev: KeyEvent)
    requires s.Valid() && !Commits(s, ev)
    ensures var t := FreqInput(s, ev); t.bars == s.bars && SameWindow(s, t)
  {
    if ev.kind == Single && ev.key == Menu {
      assert s.input == [];
    }
  }

  lemma KeyKeepsMark(s: State, ev: KeyEvent, b: nat)
    requires s.Valid() && b < MAX_BINS && s.Marked(b) && (ev.kind == Single ==> !s.listening)
    requires !((ev.kind == Single || ev.kind == EventKind.Repeat) && (ev.key == Up || ev.key == Down))
    requires !(ev.kind == Single && (ev.key == Digit1 || ev.key == Digit7 || ev.key == Digit4))
    ensures var t := KeyApplied(s, ev); |t.bars| == MAX_BINS && t.Marked(b) && SameWindow(s, t)
  {
    if ev.kind == Single {
      SettingsKeep(s, ev.key);
    }
  }

  lemma DispatchKeepsMark(s: State, ev: KeyEvent, b: nat)
    requires s.Valid() && b < MAX_BINS && s.Marked(b) && Dispatched(s, ev).Valid()
    requires !Restarts(s, Key(ev))
    ensures SameWindow(s, Dispatched(s, ev)) && Dispatched(s, ev).Marked(b)
  {
    if s.active && s.entering {
      InputKeepsBars(s, ev);
    } else if s.active && !Leaves(s, ev) {
      StoppingKeepsValid(s, ev);
      KeyKeepsMark(ListeningStopped(s, ev), ev, b);
    }
  }

  lemma StepKeepsMark(s: State, a: Action, b: nat)
    requires s.Valid() && b < MAX_BINS && s.Marked(b) && !Restarts(s, a)
    ensures Avoids(s, Step(s, a).0, Step(s, a).1, b, GoesHome(s, a))
  {
    match a
    case Tick(first, second) => PollKeepsValid(s, first, second); PollAvoids(s, first, second, b);
    case Key(ev) => DispatchKeeps(s, ev); DispatchKeepsMark(s, ev, b);
    case HangEnds =>
    case Enter(_, _) =>
  }

  /**
   * In every run without a restart a blacklisted bar keeps its mark, and the receiver is tuned to its frequency exactly
   * when that is the master frequency and the radio goes back there.
   */
  lemma {:induction false} BlacklistPersists(s: State, actions: seq<Action>, b: nat)
    requires s.Valid() && b < MAX_BINS && s.Marked(b)
    requires NoRestart(s, actions)
    ensures SameWindow(s, After(s, actions)) && After(s, actions).Marked(b)
    ensures s.FreqAt(b) in TunedTo(s, actions) <==> ReturnsHome(s, actions) && s.home == s.FreqAt(b)
    decreases |actions|
  {
    if actions != [] {
      var init, last := actions[..|actions| - 1], actions[|actions| - 1];
      BlacklistPersists(s, init, b);
      var t := After(s, init);
      StepKeepsMark(t, last, b);
      AvoidsMore(s, t, Step(t, last).0, TunedTo(s, init), Step(t, last).1, b, ReturnsHome(s, init), GoesHome(t, last));
    }
  }

  lemma AvoidsMore(s: State, t: State, u: State, first: seq<nat>, second: seq<nat>, b: nat, earlier: bool, now: bool)
    requires s.Valid() && t.Valid() && u.Valid() && b < MAX_BINS
    requires Avoids(s, t, first, b, earlier) && Avoids(t, u, second, b, now)
    ensures Avoids(s, u, first + second, b, earlier || now)
  {
  }

  /** The analyser is closed, and never opened, between `s` and `t`, exactly if the radio goes back `homeward`. */
  ghost predicate Closes(s: State, t: State, homeward: bool) {
    (homeward <==> s.active && !t.active) && (t.active ==> s.active)
  }

  /** Hang times apart, the radio goes back in a run without a restart exactly when the run leaves the analyser. */
  lemma {:induction false} OnlyLeavingReturnsHome(s: State, actions: seq<Action>)
    requires s.Valid() && NoRestart(s, actions) && HangEnds !in actions
    ensures Closes(s, After(s, actions), ReturnsHome(s, actions))
    decreases |actions|
  {
    if actions != [] {
      var init, last := actions[..|actions| - 1], actions[|actions| - 1];
      assert last in actions;
      OnlyLeavingReturnsHome(s, init);
      var t := After(s, init);
      StaysOpen(t, last);
      ClosesMore(s, t, Step(t, last).0, ReturnsHome(s, init), GoesHome(t, last));
    }
  }

  lemma ClosesMore(s: State, t: State, u: State, earlier: bool, now: bool)
    requires Closes(s, t, earlier) && Closes(t, u, now)
    ensures Closes(s, u, earlier || now)
  {
  }

  lemma StaysOpen(s: State, a: Action)
    requires s.Valid() && !Restarts(s, a) && a != HangEnds
    ensures Closes(s, Step(s, a).0, GoesHome(s, a))
  {
    match a
    case Tick(first, second) => TickStaysOpen(s, first, second);
    case Key(ev) =>
      if s.active && s.entering {
        InputStaysOpen(s, ev);
      } else if s.active && !Leaves(s, ev) {
        StoppingKeepsValid(s, ev);
        KeyStaysOpen(ListeningStopped(s, ev), ev);
      }
    case Enter(_, _) =>
  }

  lemma TickStaysOpen(s: State, first: Rssi, second: Rssi)
    requires s.Valid()
    ensures Polled(s, first, second).0.active == s.active
  {
    if s.active && !s.entering && !s.listening {
      StepKeepsValid(s, first);
      var one := StepScan(s, first).0;
      assert one.active;
    }
  }

  lemma InputStaysOpen(s: State, ev: KeyEvent)
    requires s.Valid() && !Commits(s, ev)
    ensures FreqInput(s, ev).active == s.active
  {
    InputKeepsBars(s, ev);
  }

  lemma KeyStaysOpen(s: State, ev: KeyEvent)
    requires s.Valid() && (ev.kind == Single ==> !s.listening)
    requires !((ev.kind == Single || ev.kind == EventKind.Repeat) && (ev.key == Up || ev.key == Down))
    requires !(ev.kind == Single && (ev.key == Digit1 || ev.key == Digit7 || ev.key == Digit4))
    ensures KeyApplied(s, ev).active == s.active
  {
    if ev.kind == Single {
      SettingsKeep(s, ev.key);
    }
  }

  /** A tick in silence, from a state in which every reading since the start was 0. */
  lemma SilentTick(s: State)
    requires Sweeping(s) && s.wide && s.scanPos + 2 < s.Bins() && s.trigger > 0 && s.peakRssi == 0
    requires s.peakAge <= s.scanPos && (s.peak == None ==> s.scanPos == 0)
    requires !s.Marked(s.scanPos) && !s.Marked(s.scanPos + 1)
    ensures var t := Polled(s, 0, 0).0;
            && t == s.(scanPos := s.scanPos + 2, bars := t.bars, peak := t.peak, peakAge := t.peakAge)
            && t.peak.Some? && t.peakAge <= t.scanPos && t.bars == s.bars[s.scanPos := 0][s.scanPos + 1 := 0]
  {
    StepKeepsValid(s, 0);
    var one := StepScan(s, 0).0;
    assert one == Advanced(Measured(s, 0));
  }

  function Silence(n: nat): (r: seq<Action>)
    ensures |r| == n
  {
    seq(n, _ => Tick(0, 0))
  }

  lemma LastAfter(s: State, actions: seq<Action>, a: Action)
    requires s.Valid()
    ensures After(s, actions + [a]) == Step(After(s, actions), a).0
  {
    assert (actions + [a])[..|actions|] == actions;
  }

  /** The state of a silent sweep of a new analyser. */
  ghost predicate Silent(s: State, t: State, n: nat) {
    && t == s.(scanPos := 2 * n, peak := t.peak, peakAge := t.peakAge)
    && t.peakAge <= 2 * n && (t.peak == None ==> n == 0)
  }

  lemma SilentStep(s: State, t: State, n: nat)
    requires NewlyOpened(s) && n < 16 && t.Valid() && Silent(s, t, n)
    ensures Silent(s, Step(t, Tick(0, 0)).0, n + 1)
  {
    SilentTick(t);
    assert t.bars[t.scanPos := 0][t.scanPos + 1 := 0] == t.bars;
  }

  ghost predicate NewlyOpened(s: State) {
    && Sweeping(s) && s.wide && s.scanPos == 0 && s.bars == NoBars() && s.Bins() == 64 && s.trigger == 84
    && s.peak == None && s.peakRssi == 0 && s.peakAge == 0
  }

  lemma {:induction false} SilentTicks(s: State, n: nat)
    requires NewlyOpened(s) && n <= 16
    ensures Silent(s, After(s, Silence(n)), n)
  {
    if n != 0 {
      SilentTicks(s, n - 1);
      assert Silence(n) == Silence(n - 1) + [Tick(0, 0)];
      LastAfter(s, Silence(n - 1), Tick(0, 0));
      SilentStep(s, After(s, Silence(n - 1)), n - 1);
    }
  }

  /** A signal found on the master frequency and blacklisted is heard again on leaving. */
  lemma MasterFrequencyComesBack(master: u32)
    requires 320_000 <= master
    ensures var s := After(Fresh(master, 0), Silence(16) + [Tick(1, 0)] + [Key(KeyEvent(Side1, Single))]);
            && s.Marked(32) && s.FreqAt(32) == master
            && Step(s, Key(KeyEvent(Exit, Single))).1 == [s.FreqAt(32)]
  {
    SilentTicks(Fresh(master, 0), 16);
    FoundAtMaster(master, After(Fresh(master, 0), Silence(16)));
    LastAfter(Fresh(master, 0), Silence(16), Tick(1, 0));
    LastAfter(Fresh(master, 0), Silence(16) + [Tick(1, 0)], Key(KeyEvent(Side1, Single)));
    Blacklisted(After(Fresh(master, 0), Silence(16) + [Tick(1, 0)]), master);
  }

  lemma FoundAtMaster(master: u32, s: State)
    requires 320_000 <= master && s.Valid() && Silent(Fresh(master, 0), s, 16)
    ensures var t := Step(s, Tick(1, 0)).0;
            t.active && !t.entering && t.peak == Some(32) && t.FreqAt(32) == t.home == master
  {
    SignalFound(s);
  }

  lemma Blacklisted(s: State, master: u32)
    requires s.Valid() && s.active && !s.entering && s.peak == Some(32) && s.FreqAt(32) == s.home == master
    ensures var t := Step(s, Key(KeyEvent(Side1, Single))).0;
            && t.Marked(32) && t.FreqAt(32) == master
            && Step(t, Key(KeyEvent(Exit, Single))).1 == [t.FreqAt(32)]
  {
    SideKeyMarks(s);
    LeavingTunesHome(Step(s, Key(KeyEvent(Side1, Single))).0);
  }

  lemma SideKeyMarks(s: State)
    requires s.Valid() && s.active && !s.entering && s.peak == Some(32)
    ensures var t := Step(s, Key(KeyEvent(Side1, Single))).0;
            SameWindow(s, t) && t.active && !t.entering && t.Marked(32)
  {
    var ev := KeyEvent(Side1, Single);
    StoppingKeepsValid(s, ev);
    assert Dispatched(s, ev) == PeakBlacklisted(ListeningStopped(s, ev));
  }

  lemma LeavingTunesHome(s: State)
    requires s.Valid() && s.active && !s.entering
    ensures Step(s, Key(KeyEvent(Exit, Single))).1 == [s.home]
  {
  }

  lemma SignalFound(s: State)
    requires Sweeping(s) && s.wide && s.scanPos + 2 < s.Bins() && s.trigger > 1 && s.peakRssi == 0
    requires !s.Marked(s.scanPos) && !s.Marked(s.scanPos + 1) && s.peakAge < PEAK_HOLD_STEPS
    ensures var t := Polled(s, 1, 0).0;
            && t == s.(scanPos := s.scanPos + 2, bars := t.bars, peak := Some(s.scanPos), peakRssi := 1, peakAge := 1)
            && |t.bars| == MAX_BINS
  {
    StepKeepsValid(s, 1);
    var one := StepScan(s, 1).0;
    assert one == Advanced(Measured(s, 1));
  }

  /** A bar becomes marked exactly when Side1 is released early with the peak on it. */
  lemma OnlyPeakBecomesMarked(s: State, a: Action, b: nat)
    requires s.Valid() && b < MAX_BINS && !s.Marked(b)
    ensures Step(s, a).0.Marked(b) <==>
              a == Key(KeyEvent(Side1, Single)) && s.active && !s.entering && s.peak == Some(b)
  {
    match a
    case Tick(first, second) => TickMarksNothing(s, first, second, b);
    case Key(ev) =>
      DispatchKeeps(s, ev);
      if s.active && s.entering {
        InputMarksNothing(s, ev, b);
      } else if s.active && !Leaves(s, ev) {
        StoppingKeepsValid(s, ev);
        KeyMarks(ListeningStopped(s, ev), ev, b);
      }
    case HangEnds =>
    case Enter(_, _) =>
  }

  lemma KeyMarks(s: State, ev: KeyEvent, b: nat)
    requires s.Valid() && b < MAX_BINS && !s.Marked(b) && (ev.kind == Single ==> !s.listening)
    ensures var t := KeyApplied(s, ev);
            |t.bars| == MAX_BINS && (t.Marked(b) <==> ev == KeyEvent(Side1, Single) && s.peak == Some(b))
  {
    if ev.kind == Single && ev.key != Side1 {
      SettingsKeep(s, ev.key);
    } else if ev.kind == Single {
      PeakMarks(s, b);
    }
  }

  lemma PeakMarks(s: State, b: nat)
    requires s.Valid() && b < MAX_BINS && !s.Marked(b)
    ensures var t := PeakBlacklisted(s);
            |t.bars| == MAX_BINS && (t.Marked(b) <==> s.peak == Some(b))
  {
  }

  lemma InputMarksNothing(s: State, ev: KeyEvent, b: nat)
    requires s.Valid() && b < MAX_BINS && !s.Marked(b)
    ensures var t := FreqInput(s, ev); |t.bars| == MAX_BINS && !t.Marked(b)
  {
    if !Commits(s, ev) {
      InputKeepsBars(s, ev);
    }
  }

  lemma ScanMarksNothing(s: State, rssi: Rssi, b: nat)
    requires s.Valid() && !s.listening && b < MAX_BINS && !s.Marked(b)
    ensures var t := StepScan(s, rssi).0; |t.bars| == MAX_BINS && !t.Marked(b)
  {
    if !s.Marked(s.scanPos) {
      MeasureKeeps(s, rssi);
    }
  }

  lemma TickMarksNothing(s: State, first: Rssi, second: Rssi, b: nat)
    requires s.Valid() && b < MAX_BINS && !s.Marked(b)
    ensures var t := Polled(s, first, second).0; |t.bars| == MAX_BINS && !t.Marked(b)
  {
    if s.active && !s.entering && !s.listening {
      StepKeepsValid(s, first);
      ScanMarksNothing(s, first, b);
      var one := StepScan(s, first).0;
      if s.wide && !one.listening {
        ScanMarksNothing(one, second, b);
      }
    }
  }

  // ---- sweeping -----------------------------------------------------------------

  /** The position `k` steps on, round and round. */
  function Ahead(s: State, k: nat): (p: nat)
    requires s.steps < |STEPS_COUNTS| && s.scanPos < s.Bins()
    ensures p < s.Bins()
    decreases k
  {
    if k == 0 then s.scanPos
    else
      var p := Ahead(s, k - 1);
      if p + 1 < s.Bins() then p + 1 else 0
  }

  lemma {:induction false} AheadInRound(s: State, k: nat)
    requires s.Valid() && k <= s.Bins()
    ensures Ahead(s, k) == if s.scanPos + k < s.Bins() then s.scanPos + k else s.scanPos + k - s.Bins()
  {
    if k != 0 {
      AheadInRound(s, k - 1);
    }
  }

  /** The unmarked bars among the next `k`, as frequencies. */
  function Upcoming(s: State, k: nat): seq<nat>
    requires s.Valid()
  {
    if k == 0 then []
    else Upcoming(s, k - 1) + if s.Marked(Ahead(s, k - 1)) then [] else [s.FreqAt(Ahead(s, k - 1))]
  }

  ghost predicate Sweeping(s: State) {
    s.Valid() && s.active && !s.entering && !s.listening
  }

  /** `t` is later than `s`, with the same window, marks and settings. */
  ghost predicate Follows(s: State, t: State) {
    && SameWindow(s, t) && t.trigger == s.trigger && t.wide == s.wide && t.active == s.active && t.entering == s.entering
    && |t.bars| == |s.bars| == MAX_BINS && forall i :: 0 <= i < MAX_BINS ==> t.Marked(i) == s.Marked(i)
  }

  /** The `i`th reading of a sweep is of an unmarked bar and reaches the trigger. */
  ghost predicate Hits(s: State, readings: seq<Rssi>, i: nat)
    requires s.Valid() && i < |readings|
  {
    !s.Marked(Ahead(s, i)) && readings[i] >= s.trigger
  }

  ghost predicate Quiet(s: State, readings: seq<Rssi>)
    requires s.Valid()
  {
    forall i :: 0 <= i < |readings| ==> !Hits(s, readings, i)
  }

  /** The sweep reading by reading, until it stops. */
  function Swept(s: State, readings: seq<Rssi>): (r: (State, seq<nat>))
    requires Sweeping(s)
    ensures r.0.Valid() && r.0.active && !r.0.entering && r.0.wide == s.wide
    decreases |readings|
  {
    if readings == [] then (s, [])
    else
      var r := Swept(s, readings[..|readings| - 1]);
      if r.0.listening then r
      else
        StepKeepsValid(r.0, readings[|readings| - 1]);
        var t := StepScan(r.0, readings[|readings| - 1]);
        (t.0, r.1 + t.1)
  }

  lemma QuietStep(s: State, rssi: Rssi)
    requires Sweeping(s) && (s.Marked(s.scanPos) || rssi < s.trigger)
    ensures var t := StepScan(s, rssi);
            && Sweeping(t.0) && Follows(s, t.0)
            && t.0.scanPos == (if s.scanPos + 1 < s.Bins() then s.scanPos + 1 else 0)
            && t.1 == if s.Marked(s.scanPos) then [] else [s.FreqAt(s.scanPos)]
  {
    StepKeepsValid(s, rssi);
  }

  lemma {:induction false} QuietSweep(s: State, readings: seq<Rssi>)
    requires Sweeping(s) && Quiet(s, readings)
    ensures var t := Swept(s, readings);
            && Sweeping(t.0) && Follows(s, t.0) && t.0.scanPos == Ahead(s, |readings|)
            && t.1 == Upcoming(s, |readings|)
    decreases |readings|
  {
    if readings != [] {
      var n := |readings| - 1;
      QuietPrefix(s, readings, n);
      QuietSweep(s, readings[..n]);
      SweptOnce(s, readings[..n], readings[n], readings);
      GoesOn(s, readings, n, Swept(s, readings[..n]).0);
    }
  }

  lemma GoesOn(s: State, readings: seq<Rssi>, n: nat, u: State)
    requires s.Valid() && n < |readings| && !Hits(s, readings, n)
    requires Sweeping(u) && Follows(s, u) && u.scanPos == Ahead(s, n)
    ensures var t := StepScan(u, readings[n]);
            && Sweeping(t.0) && Follows(s, t.0) && t.0.scanPos == Ahead(s, n + 1)
            && Upcoming(s, n) + t.1 == Upcoming(s, n + 1)
  {
    QuietStep(u, readings[n]);
  }

  lemma QuietPrefix(s: State, readings: seq<Rssi>, n: nat)
    requires s.Valid() && Quiet(s, readings) && n <= |readings|
    ensures Quiet(s, readings[..n])
  {
    forall i | 0 <= i < n
      ensures !Hits(s, readings[..n], i)
    {
      assert !Hits(s, readings, i);
    }
  }

  /** One reading more, while the sweep goes on. */
  lemma SweptOnce(s: State, before: seq<Rssi>, rssi: Rssi, all: seq<Rssi>)
    requires Sweeping(s) && !Swept(s, before).0.listening && all == before + [rssi]
    ensures var (u, t) := (Swept(s, before), Swept(s, all));
            t.0 == StepScan(u.0, rssi).0 && t.1 == u.1 + StepScan(u.0, rssi).1
  {
    assert all[..|all| - 1] == before;
  }

  lemma HitStep(s: State, rssi: Rssi)
    requires Sweeping(s) && !s.Marked(s.scanPos) && rssi >= s.trigger
    ensures var t := StepScan(s, rssi);
            && t.0.Valid() && t.0.listening && t.0.hang == 0 && Follows(s, t.0)
            && t.0.scanPos == s.scanPos && t.0.bars[s.scanPos] == rssi
            && t.1 == [s.FreqAt(s.scanPos), s.FreqAt(s.scanPos)]
  {
    StepKeepsValid(s, rssi);
  }

  /** The sweep has stopped at the bar of reading `k`, and listens there. */
  ghost predicate StoppedAt(s: State, readings: seq<Rssi>, k: nat, t: State, tuned: seq<nat>)
    requires s.Valid() && k < |readings|
  {
    && t.Valid() && t.listening && t.hang == 0 && Follows(s, t)
    && t.scanPos == Ahead(s, k) && t.bars[Ahead(s, k)] == readings[k]
    && tuned == Upcoming(s, k) + [s.FreqAt(Ahead(s, k)), s.FreqAt(Ahead(s, k))]
  }

  lemma {:induction false} StoppingSweep(s: State, readings: seq<Rssi>, k: nat)
    requires Sweeping(s) && k < |readings| && Hits(s, readings, k) && Quiet(s, readings[..k])
    ensures StoppedAt(s, readings, k, Swept(s, readings).0, Swept(s, readings).1)
    decreases |readings|
  {
    var n := |readings| - 1;
    if k < n {
      assert readings[..n][..k] == readings[..k];
      StoppingSweep(s, readings[..n], k);
      SweptStopped(s, readings[..n], readings);
    } else {
      QuietSweep(s, readings[..k]);
      SweptOnce(s, readings[..k], readings[k], readings);
      StopsHere(s, readings, k, Swept(s, readings[..k]).0);
    }
  }

  /** A sweep that has stopped takes no more readings. */
  lemma SweptStopped(s: State, before: seq<Rssi>, all: seq<Rssi>)
    requires Sweeping(s) && Swept(s, before).0.listening && all != [] && before == all[..|all| - 1]
    ensures Swept(s, all) == Swept(s, before)
  {
  }

  lemma StopsHere(s: State, readings: seq<Rssi>, k: nat, u: State)
    requires s.Valid() && k < |readings| && Hits(s, readings, k)
    requires Sweeping(u) && Follows(s, u) && u.scanPos == Ahead(s, k)
    ensures var t := StepScan(u, readings[k]); StoppedAt(s, readings, k, t.0, Upcoming(s, k) + t.1)
  {
    HitStep(u, readings[k]);
  }

  // ---- ticks --------------------------------------------------------------------

  ghost predicate OnlyTicks(actions: seq<Action>) { forall a :: a in actions ==> a.Tick? }

  /** The readings a sweep takes if nothing stops it: two a tick in wide mode, one in narrow mode. */
  function Heard(wide: bool, ticks: seq<Action>): seq<Rssi>
    requires forall a :: a in ticks ==> a.Tick?
    decreases |ticks|
  {
    if ticks == [] then []
    else
      var last := ticks[|ticks| - 1];
      Heard(wide, ticks[..|ticks| - 1]) + if wide then [last.first, last.second] else [last.first]
  }

  /** Until the sweep stops, ticks are its readings. */
  lemma {:induction false} TicksSweep(s: State, ticks: seq<Action>)
    requires Sweeping(s) && OnlyTicks(ticks)
    requires ticks != [] ==> !Swept(s, Heard(s.wide, ticks[..|ticks| - 1])).0.listening
    ensures (After(s, ticks), TunedTo(s, ticks)) == Swept(s, Heard(s.wide, ticks))
    decreases |ticks|
  {
    if ticks != [] {
      var init, last := ticks[..|ticks| - 1], ticks[|ticks| - 1];
      assert last in ticks;
      if init != [] {
        EarlierSwept(s, Heard(s.wide, init[..|init| - 1]), Heard(s.wide, init));
      }
      TicksSweep(s, init);
      TickSweeps(s, Heard(s.wide, init), last.first, last.second);
    }
  }

  /** A sweep that goes on had not stopped earlier. */
  lemma {:induction false} EarlierSwept(s: State, before: seq<Rssi>, readings: seq<Rssi>)
    requires Sweeping(s) && before <= readings && !Swept(s, readings).0.listening
    ensures !Swept(s, before).0.listening
    decreases |readings|
  {
    if before != readings {
      EarlierSwept(s, before, readings[..|readings| - 1]);
    }
  }

  lemma TickSweeps(s: State, before: seq<Rssi>, first: Rssi, second: Rssi)
    requires Sweeping(s) && !Swept(s, before).0.listening
    ensures var (u, rs) := (Swept(s, before), before + if s.wide then [first, second] else [first]);
            Swept(s, rs) == (Polled(u.0, first, second).0, u.1 + Polled(u.0, first, second).1)
  {
    SweptOnce(s, before, first, before + [first]);
    if s.wide {
      SecondReading(s, before, first, second);
    }
  }

  /** In wide mode the second reading is taken unless the first one stops the sweep. */
  lemma SecondReading(s: State, before: seq<Rssi>, first: Rssi, second: Rssi)
    requires Sweeping(s) && !Swept(s, before).0.listening && s.wide
    ensures var u := Swept(s, before);
            Swept(s, before + [first, second]) == (Polled(u.0, first, second).0, u.1 + Polled(u.0, first, second).1)
  {
    var u, one, two := Swept(s, before), before + [first], before + [first, second];
    assert two[..|one|] == one && two == one + [second];
    SweptOnce(s, before, first, one);
    StepKeepsValid(u.0, first);
    if Swept(s, one).0.listening {
      SweptStopped(s, one, two);
    } else {
      SweptOnce(s, one, second, two);
      Associates(u.1, StepScan(u.0, first).1, StepScan(StepScan(u.0, first).0, second).1);
    }
  }

  lemma Associates(a: seq<nat>, b: seq<nat>, c: seq<nat>)
    ensures a + (b + c) == a + b + c
  {
  }

  lemma HeardPrefix(wide: bool, ticks: seq<Action>)
    requires OnlyTicks(ticks) && ticks != []
    ensures var n := |Heard(wide, ticks[..|ticks| - 1])|;
            n < |Heard(wide, ticks)| && Heard(wide, ticks)[..n] == Heard(wide, ticks[..|ticks| - 1])
  {
  }

  /** While no unmarked bar reaches the trigger, the sweep goes on and tunes to the unmarked bars in circular order. */
  lemma SweepTakesTurns(s: State, ticks: seq<Action>)
    requires Sweeping(s) && OnlyTicks(ticks) && Quiet(s, Heard(s.wide, ticks))
    ensures var (t, n) := (After(s, ticks), |Heard(s.wide, ticks)|);
            Sweeping(t) && Follows(s, t) && t.scanPos == Ahead(s, n) && TunedTo(s, ticks) == Upcoming(s, n)
  {
    if ticks != [] {
      HeardPrefix(s.wide, ticks);
      var n := |Heard(s.wide, ticks[..|ticks| - 1])|;
      QuietPrefix(s, Heard(s.wide, ticks), n);
      QuietSweep(s, Heard(s.wide, ticks)[..n]);
    }
    TicksSweep(s, ticks);
    QuietSweep(s, Heard(s.wide, ticks));
  }

  /**
   * The first reading that reaches the trigger on an unmarked bar stops the sweep within the same tick: the radio
   * listens on that bar, having tuned to the unmarked bars before it and to nothing after it.
   */
  lemma StopsAtFirstSignal(s: State, ticks: seq<Action>, k: nat)
    requires Sweeping(s) && ticks != [] && OnlyTicks(ticks)
    requires |Heard(s.wide, ticks[..|ticks| - 1])| <= k < |Heard(s.wide, ticks)|
    requires Hits(s, Heard(s.wide, ticks), k) && Quiet(s, Heard(s.wide, ticks)[..k])
    ensures StoppedAt(s, Heard(s.wide, ticks), k, After(s, ticks), TunedTo(s, ticks))
  {
    var rs, n := Heard(s.wide, ticks), |Heard(s.wide, ticks[..|ticks| - 1])|;
    HeardPrefix(s.wide, ticks);
    QuietPrefix(s, rs[..k], n);
    assert rs[..k][..n] == rs[..n];
    QuietSweep(s, rs[..n]);
    TicksSweep(s, ticks);
    StoppingSweep(s, rs, k);
  }

  // ---- listening ----------------------------------------------------------------

  /** How many ticks at the end of a run had a reading below the trigger. */
  function SilentFor(trigger: nat, ticks: seq<Action>): nat
    requires forall a :: a in ticks ==> a.Tick?
    decreases |ticks|
  {
    if ticks == [] || ticks[|ticks| - 1].first >= trigger then 0 else SilentFor(trigger, ticks[..|ticks| - 1]) + 1
  }

  /** Up to, but not including, the last tick there were never thirty silent ones in a row. */
  ghost predicate NotYetSilent(trigger: nat, ticks: seq<Action>)
    requires OnlyTicks(ticks)
  {
    forall j :: 0 <= j < |ticks| ==> SilentFor(trigger, ticks[..j]) < 30
  }

  lemma ListenStep(s: State, rssi: Rssi)
    requires s.Valid() && s.listening
    ensures var t := PollListen(s, rssi);
            && t.Valid() && Follows(s, t) && t.scanPos == s.scanPos && t.peak == s.peak
            && (s.peak.Some? ==> t.bars == s.bars[s.peak.value := rssi])
            && t.hang == (if rssi >= s.trigger then 0 else s.hang + 1) && (t.listening <==> t.hang < 30)
  {
    ListenKeepsValid(s, rssi);
  }

  /**
   * Listening ends exactly with the thirtieth silent tick in a row. It tunes to nothing, shows what it hears in the
   * peak's bar, and the sweep then goes on with the bar it had stopped at.
   */
  lemma {:induction false} ListensUntilSilent(s: State, ticks: seq<Action>)
    requires s.Valid() && s.listening && s.hang == 0 && OnlyTicks(ticks) && NotYetSilent(s.trigger, ticks)
    ensures var t := After(s, ticks);
            && (t.listening <==> SilentFor(s.trigger, ticks) < 30) && t.hang == SilentFor(s.trigger, ticks)
            && Follows(s, t) && t.scanPos == s.scanPos && t.peak == s.peak && TunedTo(s, ticks) == []
            && (ticks != [] && s.peak.Some? ==> t.bars == s.bars[s.peak.value := ticks[|ticks| - 1].first])
    decreases |ticks|
  {
    if ticks != [] {
      var init, last := ticks[..|ticks| - 1], ticks[|ticks| - 1];
      assert last in ticks && ticks[..|init|] == init;
      assert forall j :: 0 <= j < |init| ==> init[..j] == ticks[..j];
      ListensUntilSilent(s, init);
      ListenStep(After(s, init), last.first);
    }
  }

  /** The bar heard when reading `k` stops a sweep becomes the peak: nothing as strong was held, or it was held there. */
  ghost predicate TakesPeak(u: State, rssi: Rssi) {
    u.peak == None || rssi > u.peakRssi || u.peakAge >= 1024 || u.peak == Some(u.scanPos)
  }

  /**
   * The key that blacklists marks the bar being listened to exactly when its signal had become the peak: a peak held
   * from before, as strong or stronger, is marked in its place.
   */
  lemma BlacklistsWhatIsHeard(s: State, rssi: Rssi, other: Rssi, ticks: seq<Action>)
    requires Sweeping(s) && !s.Marked(s.scanPos) && rssi >= s.trigger
    requires OnlyTicks(ticks) && NotYetSilent(s.trigger, ticks) && SilentFor(s.trigger, ticks) < 30
    ensures var found := Step(s, Tick(rssi, other)).0;
            After(found, ticks + [Key(KeyEvent(Side1, Single))]).Marked(s.scanPos) <==> TakesPeak(s, rssi)
  {
    HitStep(s, rssi);
    var found, side1 := Step(s, Tick(rssi, other)).0, Key(KeyEvent(Side1, Single));
    ListensUntilSilent(found, ticks);
    LastAfter(found, ticks, side1);
    OnlyPeakBecomesMarked(After(found, ticks), side1, s.scanPos);
  }

  lemma {:induction false} SilentTicksInARow(trigger: nat, n: nat)
    requires trigger > 0
    ensures SilentFor(trigger, Silence(n)) == n
  {
    if n != 0 {
      SilentTicksInARow(trigger, n - 1);
      assert Silence(n)[..n - 1] == Silence(n - 1);
    }
  }

  lemma SilenceNotYetOver(trigger: nat)
    requires trigger > 0
    ensures NotYetSilent(trigger, Silence(30))
  {
    forall j | 0 <= j < 30
      ensures SilentFor(trigger, Silence(30)[..j]) < 30
    {
      SilentTicksInARow(trigger, j);
      assert Silence(30)[..j] == Silence(j);
    }
  }

  lemma SilenceEndsListening(s: State)
    requires s.Valid() && s.listening && s.hang == 0 && s.trigger > 0
    ensures var t := After(s, Silence(30));
            Sweeping(t) && Follows(s, t) && t.scanPos == s.scanPos && t.peak == s.peak
  {
    SilentTicksInARow(s.trigger, 30);
    SilenceNotYetOver(s.trigger);
    ListensUntilSilent(s, Silence(30));
  }

  /**
   * It does happen: a strong signal on bar 0 ends, a weaker one is then heard on bar 1, and the key marks bar 0 and
   * not the bar that is heard.
   */
  lemma WrongBarMarked(master: u32)
    ensures var t := After(Step(Fresh(master, 0), Tick(200, 0)).0, Silence(30) + [Tick(0, 100)]);
            && t.listening && t.scanPos == 1 && t.peak == Some(0)
            && Step(t, Key(KeyEvent(Side1, Single))).0.Marked(0) && !Step(t, Key(KeyEvent(Side1, Single))).0.Marked(1)
  {
    StrongSignalFades(Fresh(master, 0));
    var found := Step(Fresh(master, 0), Tick(200, 0)).0;
    var silent := After(found, Silence(30));
    LastAfter(found, Silence(30), Tick(0, 100));
    WeakerHeard(silent);
    PeakBarMarked(Step(silent, Tick(0, 100)).0);
  }

  lemma PeakBarMarked(s: State)
    requires s.Valid() && s.active && !s.entering && s.peak == Some(0) && !s.Marked(0) && !s.Marked(1)
    ensures var t := Step(s, Key(KeyEvent(Side1, Single))).0; t.Marked(0) && !t.Marked(1)
  {
    OnlyPeakBecomesMarked(s, Key(KeyEvent(Side1, Single)), 0);
    OnlyPeakBecomesMarked(s, Key(KeyEvent(Side1, Single)), 1);
  }

  /** A sweep that has found nothing yet and is about to look at bar 0. */
  ghost predicate AtFirstBar(s: State) {
    Sweeping(s) && s.wide && s.scanPos == 0 && !s.Marked(0) && !s.Marked(1) && s.trigger == 84
  }

  lemma StrongFound(s: State)
    requires AtFirstBar(s) && s.peakRssi < 200
    ensures var t := Step(s, Tick(200, 0)).0;
            && t.listening && t.hang == 0 && t.peak == Some(0) && t.peakRssi == 200 && t.peakAge == 0
            && Follows(s, t) && t.scanPos == 0
  {
    HitStep(s, 200);
    StepMovesPeak(s, 200);
  }

  lemma StrongSignalFades(s: State)
    requires AtFirstBar(s) && s.peakRssi < 200
    ensures var t := After(Step(s, Tick(200, 0)).0, Silence(30));
            AtFirstBar(t) && t.peak == Some(0) && t.peakRssi == 200 && t.peakAge < 1000
  {
    StrongFound(s);
    var found := Step(s, Tick(200, 0)).0;
    SilenceEndsListening(found);
    SilenceNotYetOver(s.trigger);
    PeakRssiKept(found, Silence(30));
  }

  /** Listening never changes the peak's strength. */
  lemma {:induction false} PeakRssiKept(s: State, ticks: seq<Action>)
    requires s.Valid() && s.listening && s.hang == 0 && OnlyTicks(ticks) && NotYetSilent(s.trigger, ticks)
    ensures After(s, ticks).peakRssi == s.peakRssi && After(s, ticks).peakAge == s.peakAge
    decreases |ticks|
  {
    if ticks != [] {
      var init, last := ticks[..|ticks| - 1], ticks[|ticks| - 1];
      assert last in ticks && ticks[..|init|] == init;
      assert forall j :: 0 <= j < |init| ==> init[..j] == ticks[..j];
      PeakRssiKept(s, init);
      ListensUntilSilent(s, init);
    }
  }

  lemma WeakerHeard(s: State)
    requires AtFirstBar(s) && s.peak == Some(0) && s.peakRssi == 200 && s.peakAge < 1000
    ensures var t := Step(s, Tick(0, 100)).0;
            t.listening && t.active && !t.entering && t.scanPos == 1 && t.peak == Some(0) && !t.Marked(0) && !t.Marked(1)
  {
    StepKeepsValid(s, 0);
    QuietStep(s, 0);
    var one := StepScan(s, 0).0;
    StepMovesPeak(s, 0);
    HitStep(one, 100);
    StepMovesPeak(one, 100);
  }

  // ---- the peak -----------------------------------------------------------------

  /** Among the first `k` readings of a sweep the `j`th is the first of the strongest on unmarked bars. */
  ghost predicate Loudest(s: State, readings: seq<Rssi>, k: nat, j: nat)
    requires s.Valid() && j < k <= |readings|
  {
    && !s.Marked(Ahead(s, j))
    && (forall i :: 0 <= i < j && !s.Marked(Ahead(s, i)) ==> readings[i] < readings[j])
    && forall i :: j < i < k && !s.Marked(Ahead(s, i)) ==> readings[i] <= readings[j]
  }

  /** The peak that `t` shows is the loudest of the first `k` readings, and as old as the readings since. */
  ghost predicate PeakShows(s: State, readings: seq<Rssi>, k: nat, t: State)
    requires s.Valid() && k <= |readings|
  {
    && (t.peak == None ==> forall i :: 0 <= i < k ==> s.Marked(Ahead(s, i)))
    && (t.peak.Some? ==>
          exists j: nat :: j < k && Loudest(s, readings, k, j) && t.peak == Some(Ahead(s, j)) && t.peakRssi == readings[j]
                           && t.peakAge <= k - 1 - j)
  }

  /** What a measurement at `pos` does to the peak; on a marked bar there is none. */
  ghost predicate PeakMoves(u: State, t: State, marked: bool, pos: nat, rssi: Rssi) {
    if marked then (t.peak, t.peakRssi, t.peakAge) == (u.peak, u.peakRssi, u.peakAge)
    else if u.peak == None || rssi > u.peakRssi || u.peakAge >= 1024 then
      (t.peak, t.peakRssi, t.peakAge) == (Some(pos), rssi, 0)
    else (t.peak, t.peakRssi, t.peakAge) == (u.peak, u.peakRssi, u.peakAge + 1)
  }

  lemma StepMovesPeak(u: State, rssi: Rssi)
    requires Sweeping(u)
    ensures PeakMoves(u, StepScan(u, rssi).0, u.Marked(u.scanPos), u.scanPos, rssi)
  {
  }

  lemma SweptMovesPeak(s: State, before: seq<Rssi>, rssi: Rssi, all: seq<Rssi>)
    requires Sweeping(s) && !Swept(s, before).0.listening && all == before + [rssi]
    ensures var (u, t) := (Swept(s, before).0, Swept(s, all).0); PeakMoves(u, t, u.Marked(u.scanPos), u.scanPos, rssi)
  {
    SweptOnce(s, before, rssi, all);
    StepMovesPeak(Swept(s, before).0, rssi);
  }

  lemma PeakStep(s: State, readings: seq<Rssi>, k: nat, u: State, t: State)
    requires s.Valid() && k < |readings| <= 1025 && PeakShows(s, readings, k, u)
    requires PeakMoves(u, t, s.Marked(Ahead(s, k)), Ahead(s, k), readings[k])
    ensures PeakShows(s, readings, k + 1, t)
  {
    if u.peak.Some? {
      var j: nat :| j < k && Loudest(s, readings, k, j) && u.peak == Some(Ahead(s, j)) && u.peakRssi == readings[j]
                    && u.peakAge <= k - 1 - j;
      if !s.Marked(Ahead(s, k)) && readings[k] > u.peakRssi {
        LouderNow(s, readings, k, j);
      } else {
        StillLoudest(s, readings, k, j);
      }
    } else if !s.Marked(Ahead(s, k)) {
      assert Loudest(s, readings, k + 1, k);
    }
  }

  lemma LouderNow(s: State, readings: seq<Rssi>, k: nat, j: nat)
    requires s.Valid() && k < |readings| && j < k && Loudest(s, readings, k, j)
    requires !s.Marked(Ahead(s, k)) && readings[k] > readings[j]
    ensures Loudest(s, readings, k + 1, k)
  {
    forall i | 0 <= i < k && !s.Marked(Ahead(s, i))
      ensures readings[i] < readings[k]
    {
      assert i < j || i == j || j < i;
    }
  }

  lemma StillLoudest(s: State, readings: seq<Rssi>, k: nat, j: nat)
    requires s.Valid() && k < |readings| && j < k && Loudest(s, readings, k, j)
    requires s.Marked(Ahead(s, k)) || readings[k] <= readings[j]
    ensures Loudest(s, readings, k + 1, j)
  {
  }

  lemma {:induction false} PeakOfSweep(s: State, readings: seq<Rssi>, k: nat)
    requires Sweeping(s) && s.peak == None && Quiet(s, readings) && k <= |readings| <= 1025
    ensures PeakShows(s, readings, k, Swept(s, readings[..k]).0)
  {
    if k == 0 {
      assert readings[..0] == [];
    } else {
      PeakOfSweep(s, readings, k - 1);
      PeakOneMore(s, readings, k - 1, readings[..k - 1], readings[..k]);
    }
  }

  lemma PeakOneMore(s: State, readings: seq<Rssi>, k: nat, before: seq<Rssi>, upTo: seq<Rssi>)
    requires Sweeping(s) && Quiet(s, readings) && k < |readings| <= 1025
    requires before == readings[..k] && upTo == readings[..k + 1] && PeakShows(s, readings, k, Swept(s, before).0)
    ensures PeakShows(s, readings, k + 1, Swept(s, upTo).0)
  {
    QuietPrefix(s, readings, k);
    QuietSweep(s, before);
    SweptMovesPeak(s, before, readings[k], upTo);
    var u := Swept(s, before).0;
    assert u.Marked(u.scanPos) == s.Marked(u.scanPos);
    PeakStep(s, readings, k, u, Swept(s, upTo).0);
  }

  /**
   * In a quiet sweep that starts without a peak, the peak is at any time, for up to 1025 readings, the unmarked bar
   * with the strongest reading so far, the first of them if there are several.
   */
  lemma PeakIsLoudest(s: State, ticks: seq<Action>)
    requires Sweeping(s) && s.peak == None && OnlyTicks(ticks)
    requires Quiet(s, Heard(s.wide, ticks)) && |Heard(s.wide, ticks)| <= 1025
    ensures PeakShows(s, Heard(s.wide, ticks), |Heard(s.wide, ticks)|, After(s, ticks))
  {
    var rs := Heard(s.wide, ticks);
    if ticks != [] {
      HeardPrefix(s.wide, ticks);
      var n := |Heard(s.wide, ticks[..|ticks| - 1])|;
      QuietPrefix(s, rs, n);
      QuietSweep(s, rs[..n]);
    }
    TicksSweep(s, ticks);
    PeakOfSweep(s, rs, |rs|);
    assert rs[..|rs|] == rs;
  }

  /** How many of the first `k` bars of a sweep are unmarked. */
  function Measurements(s: State, k: nat): nat
    requires s.Valid()
  {
    if k == 0 then 0 else Measurements(s, k - 1) + if s.Marked(Ahead(s, k - 1)) then 0 else 1
  }

  /** No unmarked bar gives a reading stronger than the peak. */
  ghost predicate NothingStronger(s: State, readings: seq<Rssi>)
    requires s.Valid()
  {
    forall i :: 0 <= i < |readings| && !s.Marked(Ahead(s, i)) ==> readings[i] <= s.peakRssi
  }

  /** A peak is kept while there were at most 1024 measurements since, and the next one took its place. */
  ghost predicate Outlasted(s: State, t: State, m: nat, lastMarked: bool, lastPos: nat, lastRssi: Rssi) {
    && (m <= 1024 ==> (t.peak, t.peakRssi, t.peakAge) == (s.peak, s.peakRssi, m))
    && (m == 1025 && !lastMarked ==> (t.peak, t.peakRssi) == (Some(lastPos), lastRssi))
  }

  /**
   * A peak outlasts 1024 measurements none of which is stronger, and gives way to the next one however weak that is.
   */
  lemma {:induction false} PeakLasts(s: State, readings: seq<Rssi>)
    requires Sweeping(s) && s.peak.Some? && s.peakAge == 0 && Quiet(s, readings) && NothingStronger(s, readings)
    requires readings != [] && Measurements(s, |readings|) <= 1025
    ensures var n := |readings| - 1;
            Outlasted(s, Swept(s, readings).0, Measurements(s, n + 1), s.Marked(Ahead(s, n)), Ahead(s, n), readings[n])
    decreases |readings|
  {
    var n := |readings| - 1;
    QuietPrefix(s, readings, n);
    NothingStrongerBefore(s, readings, n);
    if n > 0 {
      PeakLasts(s, readings[..n]);
    }
    QuietSweep(s, readings[..n]);
    SweptMovesPeak(s, readings[..n], readings[n], readings);
    Outlasts(s, Swept(s, readings[..n]).0, Swept(s, readings).0, s.Marked(Ahead(s, n)), Ahead(s, n), readings[n],
             Measurements(s, n));
  }

  lemma NothingStrongerBefore(s: State, readings: seq<Rssi>, n: nat)
    requires s.Valid() && NothingStronger(s, readings) && n <= |readings|
    ensures NothingStronger(s, readings[..n])
  {
  }

  lemma Outlasts(s: State, u: State, t: State, marked: bool, pos: nat, rssi: Rssi, m: nat)
    requires s.peak.Some? && PeakMoves(u, t, marked, pos, rssi) && (!marked ==> rssi <= s.peakRssi)
    requires m <= 1024 ==> (u.peak, u.peakRssi, u.peakAge) == (s.peak, s.peakRssi, m)
    ensures Outlasted(s, t, if marked then m else m + 1, marked, pos, rssi)
  {
  }

  lemma {:induction false} UpcomingIncludes(s: State, k: nat, i: nat)
    requires s.Valid() && i < k && !s.Marked(Ahead(s, i))
    ensures s.FreqAt(Ahead(s, i)) in Upcoming(s, k)
    decreases k
  {
    if i < k - 1 {
      UpcomingIncludes(s, k - 1, i);
    }
  }

  /** A whole quiet round visits every bar that is not blacklisted, and ends where it began. */
  lemma RoundVisitsUnmarked(s: State, ticks: seq<Action>, b: nat)
    requires Sweeping(s) && OnlyTicks(ticks) && Quiet(s, Heard(s.wide, ticks))
    requires |Heard(s.wide, ticks)| == s.Bins() && b < s.Bins()
    ensures s.FreqAt(b) in TunedTo(s, ticks) <==> !s.Marked(b)
    ensures After(s, ticks).scanPos == s.scanPos
  {
    SweepTakesTurns(s, ticks);
    AheadInRound(s, s.Bins());
    RoundOfUpcoming(s, b);
  }

  lemma RoundOfUpcoming(s: State, b: nat)
    requires s.Valid() && b < s.Bins()
    ensures s.FreqAt(b) in Upcoming(s, s.Bins()) <==> !s.Marked(b)
  {
    var k := if b >= s.scanPos then b - s.scanPos else b + s.Bins() - s.scanPos;
    AheadInRound(s, k);
    if s.Marked(b) {
      UpcomingExcludes(s, s.Bins(), b);
    } else {
      UpcomingIncludes(s, s.Bins(), k);
    }
  }

  lemma {:induction false} UpcomingExcludes(s: State, k: nat, b: nat)
    requires s.Valid() && b < s.Bins() && s.Marked(b)
    ensures s.FreqAt(b) !in Upcoming(s, k)
    decreases k
  {
    if k != 0 {
      UpcomingExcludes(s, k - 1, b);
      if !s.Marked(Ahead(s, k - 1)) {
        DistinctFrequencies(s, Ahead(s, k - 1), b);
      }
    }
  }

  // ---- moving the window ----------------------------------------------------------

  /** The key of a digit. */
  function DigitKey(d: nat): (k: KeyId)
    requires d < 10
    ensures DigitOf(k) == Some(d)
  {
    match d
    case 0 => Digit0 case 1 => Digit1 case 2 => Digit2 case 3 => Digit3 case 4 => Digit4
    case 5 => Digit5 case 6 => Digit6 case 7 => Digit7 case 8 => Digit8 case _ => Digit9
  }

  function Typing(digits: seq<nat>): (a: seq<Action>)
    requires forall d :: d in digits ==> d < 10
    ensures |a| == |digits|
  {
    seq(|digits|, i requires 0 <= i < |digits| => assert digits[i] in digits; Key(KeyEvent(DigitKey(digits[i]), Single)))
  }

  lemma TypingMore(digits: seq<nat>, d: nat)
    requires forall e :: e in digits ==> e < 10
    requires d < 10
    ensures forall e :: e in digits + [d] ==> e < 10
    ensures Typing(digits + [d]) == Typing(digits) + [Key(KeyEvent(DigitKey(d), Single))]
  {
  }

  /** Up to five digits wait in the overlay. */
  lemma {:induction false} TypedSoFar(s: State, digits: seq<nat>)
    requires s.Valid() && s.active && s.entering && s.input == [] && |digits| <= 5
    requires forall d :: d in digits ==> d < 10
    ensures After(s, Typing(digits)) == s.(input := digits)
    decreases |digits|
  {
    if digits != [] {
      var init, last := digits[..|digits| - 1], digits[|digits| - 1];
      assert (forall d :: d in init ==> d in digits) && last in digits && digits == init + [last];
      TypedSoFar(s, init);
      OneDigitMore(s, init, last);
    }
  }

  lemma OneDigitMore(s: State, init: seq<nat>, d: nat)
    requires s.Valid() && s.active && s.entering && |init| < 5 && d < 10 && forall e :: e in init ==> e < 10
    requires After(s, Typing(init)) == s.(input := init)
    ensures forall e :: e in init + [d] ==> e < 10
    ensures After(s, Typing(init + [d])) == s.(input := init + [d])
  {
    TypingMore(init, d);
    LastAfter(s, Typing(init), Key(KeyEvent(DigitKey(d), Single)));
    DigitTyped(s.(input := init), d);
  }

  lemma DigitTyped(s: State, d: nat)
    requires s.Valid() && s.active && s.entering && |s.input| < 5 && d < 10
    ensures Step(s, Key(KeyEvent(DigitKey(d), Single))).0 == s.(input := s.input + [d])
  {
  }

  lemma SixDigits(d: seq<nat>)
    requires |d| == 6
    ensures EnteredValue(d) == 100_000 * d[0] + 10_000 * d[1] + 1_000 * d[2] + 100 * d[3] + 10 * d[4] + d[5]
  {
    assert d[..5][..4] == d[..4] && d[..4][..3] == d[..3] && d[..3][..2] == d[..2];
    assert d[..2][..1] == d[..1] && d[..1][..0] == [];
    assert EnteredValue(d[..1]) == d[0];
    assert EnteredValue(d[..2]) == 10 * d[0] + d[1];
    assert EnteredValue(d[..3]) == 100 * d[0] + 10 * d[1] + d[2];
    assert EnteredValue(d[..4]) == 1_000 * d[0] + 100 * d[1] + 10 * d[2] + d[3];
    assert EnteredValue(d[..5]) == 10_000 * d[0] + 1_000 * d[1] + 100 * d[2] + 10 * d[3] + d[4];
  }

  /**
   * Six digits typed into the overlay are a frequency in kHz: the window is put around it, so that the bar in the
   * middle stands for it unless it is too low for that, and the sweep starts over with blank bars.
   */
  lemma TypedFrequencyCentred(s: State, d: seq<nat>)
    requires s.Valid() && s.active && s.entering && s.input == []
    requires |d| == 6 && forall e :: e in d ==> e < 10
    ensures var khz := 100_000 * d[0] + 10_000 * d[1] + 1_000 * d[2] + 100 * d[3] + 10 * d[4] + d[5];
            var t := After(s, Typing(d));
            && !t.entering && t.input == [] && t.active && t.bars == NoBars() && t.scanPos == 0 && t.peak == None
            && (t.steps, t.scanStep) == (s.steps, s.scanStep)
            && (if khz * 1000 >= s.Bins() / 2 * s.StepHz() then t.FreqAt(s.Bins() / 2) == khz * 1000
                else t.windowStart == 0)
  {
    SixDigits(d);
    EnteredBelow(d);
    assert d[5] in d && forall e :: e in d[..5] ==> e in d;
    TypedSoFar(s, d[..5]);
    assert d == d[..5] + [d[5]];
    TypingMore(d[..5], d[5]);
    var last := KeyEvent(DigitKey(d[5]), Single);
    LastAfter(s, Typing(d[..5]), Key(last));
    SixthDigit(s.(input := d[..5]), d[5], d);
  }

  lemma SixthDigit(s: State, last: nat, d: seq<nat>)
    requires s.Valid() && s.active && s.entering && |s.input| == 5 && last < 10 && d == s.input + [last]
    requires EnteredValue(d) < 1_000_000
    ensures var t := Step(s, Key(KeyEvent(DigitKey(last), Single))).0;
            && !t.entering && t.input == [] && t.active && t.bars == NoBars() && t.scanPos == 0 && t.peak == None
            && (t.steps, t.scanStep) == (s.steps, s.scanStep)
            && (if EnteredValue(d) * 1000 >= s.Bins() / 2 * s.StepHz()
                then t.FreqAt(s.Bins() / 2) == EnteredValue(d) * 1000 else t.windowStart == 0)
  {
  }

  /** Up moves every bar's frequency up by one pan, as far as 32 bits go, and Down undoes it exactly if it was all of it. */
  lemma PanUndoneExactly(s: State)
    requires s.Valid()
    ensures KeyApplied(s, KeyEvent(Up, Single)) == Panned(s, true)
    ensures KeyApplied(s, KeyEvent(Down, Single)) == Panned(s, false)
    ensures Panned(s, true).windowStart - s.windowStart == Min(s.panStep, 0xFFFF_FFFF - s.windowStart)
    ensures s.windowStart - Panned(s, false).windowStart == Min(s.panStep, s.windowStart)
    ensures Panned(Panned(s, true), false).windowStart == s.windowStart <==> s.windowStart + s.panStep <= 0xFFFF_FFFF
  {
  }

  /** Key 1 takes the next wider raster and key 7 undoes it; 10 Hz follows 100 kHz. */
  lemma ScanStepTurns(s: State)
    requires s.Valid()
    ensures KeyApplied(s, KeyEvent(Digit1, Single)) == ScanStepChanged(s, true)
    ensures KeyApplied(s, KeyEvent(Digit7, Single)) == ScanStepChanged(s, false)
    ensures ScanStepChanged(s, true).StepHz() > s.StepHz() || (s.StepHz(), ScanStepChanged(s, true).StepHz()) == (100_000, 10)
    ensures ScanStepChanged(ScanStepChanged(s, true), false).scanStep == s.scanStep
  {
  }

  /** Keys 3 and 9, `*` and `#`, and 2 and 8 raise and lower a setting each; lowering undoes raising short of the limit. */
  lemma SettingsUndoneExactly(s: State)
    requires s.Valid()
    ensures var t := SettingApplied(s, Digit3);
            t.ceiling >= s.ceiling && (SettingApplied(t, Digit9).ceiling == s.ceiling <==> s.ceiling + 4 <= -20)
    ensures var t := SettingApplied(s, Asterisk);
            t.trigger >= s.trigger && (SettingApplied(t, Pound).trigger == s.trigger <==> s.trigger + 4 <= s.ceiling + 174)
    ensures var t := SettingApplied(s, Digit2);
            t.panStep >= s.panStep && (SettingApplied(t, Digit8).panStep == s.panStep <==> s.panStep * 2 <= 2_000_000)
  {
  }

  /** Key 4 halves the number of bars, from 128 down to 16 and then back to 128. */
  lemma FewerBars(s: State)
    requires s.Valid() && s.active && !s.entering
    ensures var t := Step(s, Key(KeyEvent(Digit4, Single))).0;
            && t.Bins() == (if s.Bins() == 16 then 128 else s.Bins() / 2) && 16 <= s.Bins() <= 128
            && t.bars == NoBars() && t.peak == None && t.scanPos == 0
  {
    StoppingKeepsValid(s, KeyEvent(Digit4, Single));
  }

  // ---- the analyser itself ----------------------------------------------------

  class Analyzer {
    var windowStart: u32
    var scanStep: nat
    var panStep: u32
    var steps: nat
    var scanPos: nat
    const bars: array<nat>
    var ceiling: int
    var trigger: nat
    var peak: Option<nat>
    var peakRssi: nat
    var peakAge: nat
    var listening: bool
    var hang: nat
    var wide: bool
    var entering: bool
    var input: seq<nat>
    var active: bool
    var home: u32

    ghost function View(): State
      reads this, bars
    {
      State(windowStart, scanStep, panStep, steps, scanPos, bars[..], ceiling, trigger, peak, peakRssi, peakAge,
            listening, hang, wide, entering, input, active, home)
    }

    constructor (master: u32, rit: int)
      ensures View() == Fresh(master, rit) && fresh(bars)
    {
      windowStart, home := Max(0, master - 64 / 2 * 10_000), Home(master, rit);
      scanStep, panStep, steps, scanPos := 8, 800_000, 1, 0;
      bars := new nat[MAX_BINS](_ => 0);
      ceiling, trigger := -60, 84;
      peak, peakRssi, peakAge, listening, hang := None, 0, 0, false, 0;
      wide, entering, input, active := true, false, [], true;
      new;
      assert bars[..] == NoBars();
    }

    function FreqAt(pos: nat): nat
      requires scanStep < |SCAN_STEPS|
      reads this
    {
      (windowStart + pos * SCAN_STEPS[scanStep]) % 0x1_0000_0000
    }

    /** One step of the sweep; returns the frequencies tuned to. */
    method ScanOnce(rssi: Rssi) returns (tuned: seq<nat>)
      requires View().Valid() && !listening
      modifies this, bars
      ensures View() == StepScan(old(View()), rssi).0 && tuned == StepScan(old(View()), rssi).1
    {
      var freq := FreqAt(scanPos);
      if bars[scanPos] != BLACKLIST_SENTINEL {
        Measure(rssi);
        if rssi >= trigger {
          listening, hang := true, 0;
          return [freq, freq];
        }
        Advance();
        return [freq];
      }
      Advance();
      return [];
    }

    method Measure(rssi: Rssi)
      requires View().Valid()
      modifies `peak, `peakRssi, `peakAge, bars
      ensures View() == Measured(old(View()), rssi)
    {
      bars[scanPos] := rssi;
      if peak == None || rssi > peakRssi || peakAge >= PEAK_HOLD_STEPS {
        peak, peakRssi, peakAge := Some(scanPos), rssi, 0;
      } else {
        peakAge := peakAge + 1;
      }
    }

    method Advance()
      requires steps < |STEPS_COUNTS|
      modifies `scanPos
      ensures View() == Advanced(old(View()))
    {
      scanPos := scanPos + 1;
      if scanPos >= STEPS_COUNTS[steps] {
        scanPos := 0;
      }
    }

    method ListenOnce(rssi: Rssi)
      requires View().Valid() && listening
      modifies this, bars
      ensures View() == PollListen(old(View()), rssi)
    {
      var pos := match peak case Some(p) => p case None => 0;
      bars[pos] := rssi;
      if rssi >= trigger {
        hang := 0;
      } else {
        hang := hang + 1;
        if hang >= LISTEN_HANG_TICKS {
          listening := false;
        }
      }
    }

    /** One tick: listening costs one reading, scanning two in wide mode unless the first one hits. */
    method Poll(first: Rssi, second: Rssi) returns (tuned: seq<nat>)
      requires View().Valid()
      modifies this, bars
      ensures View() == Polled(old(View()), first, second).0 && tuned == Polled(old(View()), first, second).1
    {
      tuned := [];
      if !active || entering {
        return;
      }
      if listening {
        ListenOnce(first);
        return;
      }
      StepKeepsValid(View(), first);
      tuned := ScanOnce(first);
      if wide && !listening {
        var more := ScanOnce(second);
        tuned := tuned + more;
      }
    }

    /** Blanks the bars and forgets the peak. */
    method Relaunch()
      requires bars.Length == MAX_BINS
      modifies this, bars
      ensures View() == Relaunched(old(View()))
    {
      for i := 0 to MAX_BINS
        invariant forall j :: 0 <= j < i ==> bars[j] == 0
        invariant View() == old(View()).(bars := bars[..])
      {
        bars[i] := 0;
      }
      assert bars[..] == NoBars();
      scanPos, peak, peakRssi, peakAge := 0, None, 0, 0;
    }

    method BlacklistPeak()
      requires View().Valid()
      modifies this, bars
      ensures View() == PeakBlacklisted(old(View()))
    {
      if peak.Some? {
        bars[peak.value] := BLACKLIST_SENTINEL;
        peak, peakRssi := None, 0;
      }
    }

    // ---- keys ----

    method Pan(up: bool)
      requires bars.Length == MAX_BINS
      modifies this, bars
      ensures View() == Panned(old(View()), up)
    {
      windowStart := if up then Min(windowStart + panStep, 0xFFFF_FFFF) else Max(0, windowStart - panStep);
      Relaunch();
    }

    method ChangeScanStep(up: bool)
      requires bars.Length == MAX_BINS
      modifies this, bars
      ensures View() == ScanStepChanged(old(View()), up)
    {
      scanStep := if up then (scanStep + 1) % 15 else (scanStep + 15 - 1) % 15;
      Relaunch();
    }

    method CycleStepsCount()
      requires bars.Length == MAX_BINS
      modifies this, bars
      ensures View() == Relaunched(old(View()).(steps := (old(steps) + 1) % 4))
    {
      steps := (steps + 1) % 4;
      Relaunch();
    }

    method ChangeCeiling(up: bool)
      modifies `ceiling, `trigger
      ensures View() == CeilingChanged(old(View()), up)
    {
      ceiling := if up then Min(ceiling + 4, -20) else Max(ceiling - 4, -120);
      trigger := Min(trigger, RawForDbm(ceiling));
    }

    /** The keys that change one setting each; the others do nothing here. */
    method ApplySetting(key: KeyId)
      modifies `panStep, `ceiling, `trigger, `entering, `input, `wide
      ensures View() == SettingApplied(old(View()), key)
    {
      match key {
        case Digit2 => panStep := Min(panStep * 2, PAN_STEP_MAX);
        case Digit8 => panStep := Max(panStep / 2, PAN_STEP_MIN);
        case Digit3 => ChangeCeiling(true);
        case Digit9 => ChangeCeiling(false);
        case Asterisk => trigger := Min(trigger + 4, RawForDbm(ceiling));
        case Pound => trigger := Max(0, trigger - 4);
        case Digit5 => entering, input := true, [];
        case Digit6 => wide := !wide;
        case _ =>
      }
    }

    method ApplyKey(ev: KeyEvent)
      requires View().Valid()
      modifies this, bars
      ensures View() == KeyApplied(old(View()), ev)
    {
      if (ev.kind == Single || ev.kind == EventKind.Repeat) && (ev.key == Up || ev.key == Down) {
        Pan(ev.key == Up);
      } else if ev.kind == Single {
        if ev.key == Digit1 || ev.key == Digit7 {
          ChangeScanStep(ev.key == Digit1);
        } else if ev.key == Digit4 {
          CycleStepsCount();
        } else if ev.key == Side1 {
          BlacklistPeak();
        } else {
          ApplySetting(ev.key);
        }
      }
    }

    method CommitFreqInput()
      requires View().Valid()
      modifies this, bars
      ensures View() == Committed(old(View()))
    {
      if input != [] {
        EnteredBelow(input);
        var centre := EnteredValue(input) * 1000;
        windowStart := Max(0, centre - STEPS_COUNTS[steps] / 2 * SCAN_STEPS[scanStep]);
        Relaunch();
      }
      input, entering := [], false;
    }

    method DispatchFreqInput(ev: KeyEvent)
      requires View().Valid() && entering
      modifies this, bars
      ensures View() == FreqInput(old(View()), ev)
    {
      if ev.kind != Single {
        return;
      }
      var d := DigitOf(ev.key);
      if d.Some? {
        if |input| < INPUT_DIGITS {
          input := input + [d.value];
        }
        if |input| >= INPUT_DIGITS {
          CommitFreqInput();
        }
      } else if ev.key == Menu {
        CommitFreqInput();
      } else if ev.key == Exit {
        if input != [] {
          input := [];
        } else {
          entering := false;
        }
      }
    }

    /** A key event while the analyser is open; returns the frequencies tuned to. */
    method Dispatch(ev: KeyEvent) returns (tuned: seq<nat>)
      requires View().Valid() && active
      modifies this, bars
      ensures View() == Step(old(View()), Key(ev)).0 && tuned == Step(old(View()), Key(ev)).1
      ensures View().Valid()
    {
      tuned := [];
      DispatchKeeps(View(), ev);
      if entering {
        DispatchFreqInput(ev);
        return;
      }
      if ev.kind == Single && ev.key == Exit {
        listening, active := false, false;
        return [home];
      }
      StoppingKeepsValid(View(), ev);
      if listening && ev.kind == Single {
        listening := false;
      }
      ApplyKey(ev);
    }
  }
}
