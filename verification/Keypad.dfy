/** Key debouncing, the events of a key press, and the queue that carries them. */
module Keypad {
  import opened Bytes

  const LONG_PRESS_TICKS: nat := 10_000
  const REPEAT_FIRE_TICKS: nat := 15_000
  const REPEAT_RESET_TICKS: nat := 14_000
  const EVENT_QUEUE_CAP: nat := 8

  datatype KeyId =
    | Digit0 | Digit1 | Digit2 | Digit3 | Digit4 | Digit5 | Digit6 | Digit7 | Digit8 | Digit9
    | Asterisk | Pound | Menu | Exit | Up | Down | Vm | Ab | Band | Side1 | Side2
  {
    predicate SupportsLong() {
      Up? || Down? || Vm? || Band? || Asterisk? || Pound? || Digit0? || Exit? || Side1? || Side2?
    }

    predicate SupportsRepeat() { Up? || Down? }
  }

  datatype EventKind = Press | Release | Single | Long | Repeat

  datatype KeyEvent = KeyEvent(key: KeyId, kind: EventKind)

  // ---- the event queue --------------------------------------------------------

  /** The youngest `EVENT_QUEUE_CAP` of a sequence of events. */
  function Youngest(s: seq<KeyEvent>): (r: seq<KeyEvent>)
    ensures |r| <= EVENT_QUEUE_CAP
  {
    if |s| <= EVENT_QUEUE_CAP then s else s[|s| - EVENT_QUEUE_CAP..]
  }

  /** Nothing is lost below nine events, and the eight newest survive. */
  lemma YoungestEight(s: seq<KeyEvent>)
    ensures |s| <= 8 ==> Youngest(s) == s
    ensures |s| > 8 ==> |Youngest(s)| == 8 && forall i :: 0 <= i < 8 ==> Youngest(s)[i] == s[|s| - 8 + i]
  {
  }

  /** Events queued in two batches leave what one batch would. */
  lemma YoungestTwice(s: seq<KeyEvent>, a: seq<KeyEvent>, b: seq<KeyEvent>)
    ensures Youngest(Youngest(s + a) + b) == Youngest(s + (a + b))
  {
    assert s + (a + b) == s + a + b;
    if |s + a| > EVENT_QUEUE_CAP {
      assert s + a + b == (s + a)[..|s + a| - EVENT_QUEUE_CAP] + (Youngest(s + a) + b);
    }
  }

  /** Position of the `i`th event behind the one at `head`. */
  function Slot(head: nat, i: nat): (k: nat)
    requires head < EVENT_QUEUE_CAP && i < EVENT_QUEUE_CAP
    ensures k < EVENT_QUEUE_CAP && k == (head + i) % EVENT_QUEUE_CAP
  {
    if head + i < EVENT_QUEUE_CAP then head + i else head + i - EVENT_QUEUE_CAP
  }

  /** Fixed-capacity ring buffer; when it is full the oldest event makes room for the newest. */
  class EventQueue {
    const buf: array<Option<KeyEvent>>
    var head: nat
    var len: nat
    /** The queued events, oldest first. */
    ghost var contents: seq<KeyEvent>

    ghost predicate Valid()
      reads this, buf
    {
      && buf.Length == EVENT_QUEUE_CAP
      && head < EVENT_QUEUE_CAP && |contents| == len <= EVENT_QUEUE_CAP
      && forall i :: 0 <= i < len ==> buf[Slot(head, i)] == Some(contents[i])
    }

    constructor ()
      ensures Valid() && fresh(buf) && contents == []
    {
      buf := new Option<KeyEvent>[EVENT_QUEUE_CAP](_ => None);
      head, len, contents := 0, 0, [];
    }

    method Push(ev: KeyEvent)
      requires Valid()
      modifies this, buf
      ensures Valid() && contents == Youngest(old(contents) + [ev])
    {
      ghost var wanted := Youngest(contents + [ev]);
      if len == EVENT_QUEUE_CAP {
        DropOldest();
      }
      assert contents + [ev] == wanted;
      var tail := (head + len) % EVENT_QUEUE_CAP;
      assert tail == Slot(head, len);
      buf[tail] := Some(ev);
      len := len + 1;
      contents := contents + [ev];
    }

    method DropOldest()
      requires Valid() && len > 0
      modifies this
      ensures Valid() && contents == old(contents)[1..]
    {
      ghost var before := contents;
      head := (head + 1) % EVENT_QUEUE_CAP;
      len := len - 1;
      contents := before[1..];
      forall i | 0 <= i < len
        ensures buf[Slot(head, i)] == Some(contents[i])
      {
        assert Slot(head, i) == Slot(old(head), i + 1);
      }
    }

    method Pop() returns (ev: Option<KeyEvent>)
      requires Valid()
      modifies this, buf
      ensures Valid()
      ensures ev == if old(contents) == [] then None else Some(old(contents)[0])
      ensures contents == if old(contents) == [] then [] else old(contents)[1..]
    {
      if len == 0 {
        return None;
      }
      assert Slot(head, 0) == head;
      ev := buf[head];
      buf[head] := None;
      head := (head + 1) % EVENT_QUEUE_CAP;
      len := len - 1;
      contents := contents[1..];
      forall i | 0 <= i < len
        ensures buf[Slot(head, i)] == Some(contents[i])
      {
        assert Slot(head, i) == Slot(old(head), i + 1);
      }
    }
  }

  // ---- one scan of the pad ----------------------------------------------------

  /** What the driver remembers between scans. */
  datatype Pad = Pad(rawPrev: Option<KeyId>, stable: Option<KeyId>, hold: u32, longFired: bool, lastPoll: u16)

  function InitialPad(now: u16): Pad { Pad(None, None, 0, false, now) }

  /** One scan: the clock's 16-bit reading and the key seen, if any. */
  datatype Scan = Scan(now: u16, raw: Option<KeyId>)

  /** Ticks between two readings of the wrapping uptime counter. */
  function Elapsed(last: u16, now: u16): u16 { (now - last) % 0x1_0000 }

  function LongEvents(p: Pad, k: KeyId, hold: u32): seq<KeyEvent> {
    if !p.longFired && k.SupportsLong() && hold >= LONG_PRESS_TICKS then [KeyEvent(k, Long)] else []
  }

  function RepeatEvents(k: KeyId, hold: u32): seq<KeyEvent> {
    if k.SupportsRepeat() && hold >= REPEAT_FIRE_TICKS then [KeyEvent(k, Repeat)] else []
  }

  /** A key that stays down: the hold counter, and the long and repeat events it triggers. */
  function Held(p: Pad, k: KeyId, elapsed: u16): (r: (Pad, seq<KeyEvent>)) {
    var hold := (p.hold + elapsed) % 0x1_0000_0000;
    var long, repeats := LongEvents(p, k, hold), RepeatEvents(k, hold);
    (p.(hold := if repeats == [] then hold else REPEAT_RESET_TICKS, longFired := p.longFired || long != []),
     long + repeats)
  }

  function ReleaseEvents(p: Pad): seq<KeyEvent> {
    match p.stable
    case None => []
    case Some(k) => (if p.longFired then [] else [KeyEvent(k, Single)]) + [KeyEvent(k, Release)]
  }

  function PressEvents(raw: Option<KeyId>): seq<KeyEvent> {
    match raw case None => [] case Some(k) => [KeyEvent(k, Press)]
  }

  /** The effect of one scan, and the events it pushes. */
  function PollStep(p: Pad, s: Scan): (r: (Pad, seq<KeyEvent>))
    ensures |r.1| <= 3
  {
    var ticked := p.(lastPoll := s.now);
    if s.raw != p.rawPrev then (ticked.(rawPrev := s.raw), [])
    else if s.raw == p.stable then
      (match p.stable
       case None => (ticked, [])
       case Some(k) => Held(ticked, k, Elapsed(p.lastPoll, s.now)))
    else (ticked.(stable := s.raw, hold := 0, longFired := false), ReleaseEvents(p) + PressEvents(s.raw))
  }

  class Keypad {
    var rawPrev: Option<KeyId>
    var stable: Option<KeyId>
    var holdTicks: u32
    var longFired: bool
    var lastPoll: u16
    const queue: EventQueue

    ghost predicate Valid()
      reads this, queue, queue.buf
    {
      queue.Valid()
    }

    ghost function View(): Pad
      reads this
    {
      Pad(rawPrev, stable, holdTicks, longFired, lastPoll)
    }

    constructor (now: u16)
      ensures Valid() && fresh(queue) && fresh(queue.buf)
      ensures View() == InitialPad(now) && queue.contents == []
    {
      rawPrev, stable, holdTicks, longFired, lastPoll := None, None, 0, false, now;
      queue := new EventQueue();
    }

    /** One scan; its events join the queue behind those still waiting. */
    method Poll(now: u16, raw: Option<KeyId>)
      requires Valid()
      modifies this, queue, queue.buf
      ensures Valid() && View() == PollStep(old(View()), Scan(now, raw)).0
      ensures queue.contents == Youngest(old(queue.contents) + PollStep(old(View()), Scan(now, raw)).1)
    {
      var elapsed := Elapsed(lastPoll, now);
      lastPoll := now;
      if raw != rawPrev {
        rawPrev := raw;
        return;
      }
      if raw == stable {
        if stable.Some? {
          PollHeld(stable.value, elapsed);
        }
        return;
      }
      PollChanged(raw);
    }

    /** Pushes one more event of this scan; `sent` are the ones before it, `base` what was waiting. */
    method Emit(ev: KeyEvent, ghost sent: seq<KeyEvent>, ghost base: seq<KeyEvent>)
      returns (ghost sent': seq<KeyEvent>)
      requires Valid() && queue.contents == Youngest(base + sent)
      modifies queue, queue.buf
      ensures Valid() && sent' == sent + [ev] && queue.contents == Youngest(base + sent')
    {
      queue.Push(ev);
      YoungestTwice(base, sent, [ev]);
      sent' := sent + [ev];
    }

    method PollHeld(key: KeyId, elapsed: u16)
      requires Valid()
      modifies this, queue, queue.buf
      ensures Valid() && View() == Held(old(View()), key, elapsed).0
      ensures queue.contents == Youngest(old(queue.contents) + Held(old(View()), key, elapsed).1)
    {
      ghost var p, base := View(), queue.contents;
      holdTicks := (holdTicks + elapsed) % 0x1_0000_0000;
      assert base + [] == base;
      ghost var sent := FireLong(key, base);
      assert sent == LongEvents(p, key, holdTicks);
      sent := FireRepeat(key, sent, base);
    }

    /** The first event of this scan, if the key has been held long enough. */
    method FireLong(key: KeyId, ghost base: seq<KeyEvent>) returns (ghost sent: seq<KeyEvent>)
      requires Valid() && queue.contents == Youngest(base + [])
      modifies this, queue, queue.buf
      ensures Valid() && sent == LongEvents(old(View()), key, holdTicks)
      ensures View() == old(View()).(longFired := old(longFired) || sent != [])
      ensures queue.contents == Youngest(base + sent)
    {
      sent := [];
      if !longFired && key.SupportsLong() && holdTicks >= LONG_PRESS_TICKS {
        longFired := true;
        sent := Emit(KeyEvent(key, Long), sent, base);
      }
    }

    /** Holding on repeats the key, and sets the counter back. */
    method FireRepeat(key: KeyId, ghost sent: seq<KeyEvent>, ghost base: seq<KeyEvent>)
      returns (ghost sent': seq<KeyEvent>)
      requires Valid() && queue.contents == Youngest(base + sent)
      modifies this, queue, queue.buf
      ensures Valid() && sent' == sent + RepeatEvents(key, old(holdTicks))
      ensures View() == old(View()).(hold := if RepeatEvents(key, old(holdTicks)) == [] then old(holdTicks)
                                             else REPEAT_RESET_TICKS)
      ensures queue.contents == Youngest(base + sent')
    {
      sent' := sent;
      if key.SupportsRepeat() && holdTicks >= REPEAT_FIRE_TICKS {
        holdTicks := REPEAT_RESET_TICKS;
        sent' := Emit(KeyEvent(key, Repeat), sent, base);
      }
    }

    method PollChanged(raw: Option<KeyId>)
      requires Valid()
      modifies this, queue, queue.buf
      ensures Valid() && View() == old(View()).(stable := raw, hold := 0, longFired := false)
      ensures queue.contents == Youngest(old(queue.contents) + (ReleaseEvents(old(View())) + PressEvents(raw)))
    {
      ghost var p, sent := View(), [];
      if stable.Some? {
        if !longFired {
          sent := Emit(KeyEvent(stable.value, Single), sent, old(queue.contents));
        }
        sent := Emit(KeyEvent(stable.value, Release), sent, old(queue.contents));
      }
      assert sent == ReleaseEvents(p);
      stable, holdTicks, longFired := raw, 0, false;
      if raw.Some? {
        sent := Emit(KeyEvent(raw.value, Press), sent, old(queue.contents));
      }
      assert sent == ReleaseEvents(p) + PressEvents(raw);
    }

    /** The application's loop: one scan, then every waiting event is handed on in order. */
    method PollKeys(now: u16, raw: Option<KeyId>) returns (dispatched: seq<KeyEvent>)
      requires Valid() && queue.contents == []
      modifies this, queue, queue.buf
      ensures Valid() && queue.contents == []
      ensures View() == PollStep(old(View()), Scan(now, raw)).0
      ensures dispatched == PollStep(old(View()), Scan(now, raw)).1
    {
      Poll(now, raw);
      assert [] + PollStep(old(View()), Scan(now, raw)).1 == PollStep(old(View()), Scan(now, raw)).1;
      dispatched := Drain();
    }

    /** Pops until nothing waits. */
    method Drain() returns (dispatched: seq<KeyEvent>)
      requires Valid()
      modifies queue, queue.buf
      ensures Valid() && queue.contents == [] && dispatched == old(queue.contents)
    {
      dispatched := [];
      while true
        invariant Valid() && dispatched + queue.contents == old(queue.contents)
        decreases |queue.contents|
      {
        var ev := queue.Pop();
        if ev == None {
          return;
        }
        dispatched := dispatched + [ev.value];
      }
    }
  }

  // ---- whole runs -------------------------------------------------------------

  function After(now: u16, scans: seq<Scan>): Pad
    decreases |scans|
  {
    if scans == [] then InitialPad(now)
    else PollStep(After(now, scans[..|scans| - 1]), scans[|scans| - 1]).0
  }

  /** Every event pushed since power-up. */
  function Events(now: u16, scans: seq<Scan>): seq<KeyEvent>
    decreases |scans|
  {
    if scans == [] then []
    else
      var init := scans[..|scans| - 1];
      Events(now, init) + PollStep(After(now, init), scans[|scans| - 1]).1
  }

  /** What the last scan saw; nothing before the first one. */
  function LastRaw(scans: seq<Scan>): Option<KeyId> {
    if scans == [] then None else scans[|scans| - 1].raw
  }

  /** What was last seen in two scans running. */
  function Settled(scans: seq<Scan>): Option<KeyId>
    decreases |scans|
  {
    if scans == [] then None
    else
      var init := scans[..|scans| - 1];
      if LastRaw(scans) == LastRaw(init) then LastRaw(scans) else Settled(init)
  }

  /** The keys that settled, in order. */
  function KeysPressed(scans: seq<Scan>): seq<KeyId>
    decreases |scans|
  {
    if scans == [] then []
    else
      var init := scans[..|scans| - 1];
      var now := Settled(scans);
      KeysPressed(init) + if now != Settled(init) && now.Some? then [now.value] else []
  }

  /** One press of a key: whether it was held long enough for a long event, and how often it repeated. */
  datatype KeyPress = KeyPress(key: KeyId, long: bool, repeats: nat)
  {
    predicate Allowed() {
      && (long ==> key.SupportsLong())
      && (repeats > 0 ==> long && key.SupportsRepeat())
    }

    /** The events of a press that is still going on. */
    function Opening(): seq<KeyEvent> {
      [KeyEvent(key, Press)] + (if long then [KeyEvent(key, Long)] else []) +
      seq(repeats, _ => KeyEvent(key, Repeat))
    }

    /** The events of a finished press: a short one also reports `Single`. */
    function Complete(): seq<KeyEvent> {
      Opening() + (if long then [] else [KeyEvent(key, Single)]) + [KeyEvent(key, Release)]
    }
  }

  function Transcript(presses: seq<KeyPress>): seq<KeyEvent>
    decreases |presses|
  {
    if presses == [] then [] else Transcript(presses[..|presses| - 1]) + presses[|presses| - 1].Complete()
  }

  function Keys(presses: seq<KeyPress>): seq<KeyId>
    decreases |presses|
  {
    if presses == [] then [] else Keys(presses[..|presses| - 1]) + [presses[|presses| - 1].key]
  }

  function OpeningOf(current: Option<KeyPress>): seq<KeyEvent> {
    match current case None => [] case Some(c) => c.Opening()
  }

  function KeyOf(current: Option<KeyPress>): seq<KeyId> {
    match current case None => [] case Some(c) => [c.key]
  }

  /** `done` and `current` account for `events`, and agree with the driver's state. */
  ghost predicate Accounts(p: Pad, events: seq<KeyEvent>, done: seq<KeyPress>, current: Option<KeyPress>) {
    && (forall c :: c in done ==> c.Allowed())
    && (current.Some? ==> current.value.Allowed() && current.value.long == p.longFired)
    && p.stable == (match current case None => None case Some(c) => Some(c.key))
    && events == Transcript(done) + OpeningOf(current)
  }

  /**
   * Over every run the events pushed are, press by press: `Press`, a `Long` if the key has one and was
   * held for it, then any repeats, then `Single` exactly when there was no `Long`, then `Release`; the last
   * press may still be going on. The keys pressed are those that settled, in order.
   */
  lemma {:induction false} EventGrammar(now: u16, scans: seq<Scan>)
    returns (done: seq<KeyPress>, current: Option<KeyPress>)
    ensures Accounts(After(now, scans), Events(now, scans), done, current)
    ensures Keys(done) + KeyOf(current) == KeysPressed(scans)
    decreases |scans|
  {
    if scans == [] {
      return [], None;
    }
    var init, s := scans[..|scans| - 1], scans[|scans| - 1];
    DebouncedState(now, init);
    DebouncedState(now, scans);
    done, current := EventGrammar(now, init);
    done, current := AccountScan(After(now, init), Events(now, init), s, done, current);
  }

  /** A state is believed only when two scans running show it. */
  lemma {:induction false} DebouncedState(now: u16, scans: seq<Scan>)
    ensures After(now, scans).stable == Settled(scans)
    ensures After(now, scans).rawPrev == LastRaw(scans)
    decreases |scans|
  {
    if scans != [] {
      DebouncedState(now, scans[..|scans| - 1]);
    }
  }

  /** One more scan: the account of the run so far extends to it. */
  lemma AccountScan(p: Pad, events: seq<KeyEvent>, s: Scan, done: seq<KeyPress>, current: Option<KeyPress>)
    returns (done': seq<KeyPress>, current': Option<KeyPress>)
    requires Accounts(p, events, done, current)
    ensures Accounts(PollStep(p, s).0, events + PollStep(p, s).1, done', current')
    ensures var now := PollStep(p, s).0.stable;
            Keys(done') + KeyOf(current') ==
              Keys(done) + KeyOf(current) + if now != p.stable && now.Some? then [now.value] else []
  {
    done', current' := done, current;
    if s.raw != p.rawPrev {
      assert events + PollStep(p, s).1 == events;
    } else if s.raw != p.stable {
      done', current' := CloseAndOpen(p, events, s, done, current);
    } else if p.stable.Some? {
      current' := Extend(p.(lastPoll := s.now), events, done, current, Elapsed(p.lastPoll, s.now));
    } else {
      assert events + PollStep(p, s).1 == events;
    }
  }

  lemma CloseAndOpen(p: Pad, events: seq<KeyEvent>, s: Scan, done: seq<KeyPress>, current: Option<KeyPress>)
    returns (done': seq<KeyPress>, current': Option<KeyPress>)
    requires Accounts(p, events, done, current) && s.raw == p.rawPrev && s.raw != p.stable
    ensures Accounts(PollStep(p, s).0, events + PollStep(p, s).1, done', current')
    ensures Keys(done') == Keys(done) + KeyOf(current)
    ensures KeyOf(current') == (if s.raw.Some? then [s.raw.value] else [])
  {
    done' := done;
    if current.Some? {
      done' := done + [current.value];
      assert done'[..|done|] == done;
      assert Transcript(done') == Transcript(done) + current.value.Complete();
      assert current.value.Complete() == current.value.Opening() + ReleaseEvents(p);
    }
    assert Transcript(done') == events + ReleaseEvents(p);
    current' := match s.raw case None => None case Some(k) => Some(KeyPress(k, false, 0));
    assert OpeningOf(current') == PressEvents(s.raw);
  }

  lemma Extend(p: Pad, events: seq<KeyEvent>, done: seq<KeyPress>, current: Option<KeyPress>, elapsed: u16)
    returns (current': Option<KeyPress>)
    requires Accounts(p, events, done, current) && current.Some?
    ensures Accounts(Held(p, current.value.key, elapsed).0, events + Held(p, current.value.key, elapsed).1, done, current')
    ensures KeyOf(current') == KeyOf(current)
  {
    var c := current.value;
    var hold := (p.hold + elapsed) % 0x1_0000_0000;
    var long, repeats := LongEvents(p, c.key, hold), RepeatEvents(c.key, hold);
    current' := Some(Extended(c, long != [], repeats != []));
    OpeningGrows(c, long != [], repeats != []);
    assert long + repeats == NewEvents(c.key, long != [], repeats != []);
    assert events + (long + repeats) == Transcript(done) + (c.Opening() + (long + repeats));
  }

  function NewEvents(k: KeyId, long: bool, again: bool): seq<KeyEvent> {
    (if long then [KeyEvent(k, Long)] else []) + if again then [KeyEvent(k, Repeat)] else []
  }

  function Extended(c: KeyPress, long: bool, again: bool): KeyPress {
    KeyPress(c.key, c.long || long, if again then c.repeats + 1 else c.repeats)
  }

  lemma OpeningGrows(c: KeyPress, long: bool, again: bool)
    requires long ==> !c.long && c.repeats == 0
    ensures Extended(c, long, again).Opening() == c.Opening() + NewEvents(c.key, long, again)
  {
    var more := if again then c.repeats + 1 else c.repeats;
    assert seq(more, _ => KeyEvent(c.key, Repeat)) ==
           seq(c.repeats, _ => KeyEvent(c.key, Repeat)) + if again then [KeyEvent(c.key, Repeat)] else [];
  }

  // ---- timing -----------------------------------------------------------------

  /** Ticks between the first of some clock readings and the last, each counted modulo the counter's 16 bits. */
  function TotalElapsed(last: u16, clock: seq<u16>): nat
    decreases |clock|
  {
    if clock == [] then 0
    else
      var init := clock[..|clock| - 1];
      TotalElapsed(last, init) + Elapsed(if init == [] then last else init[|init| - 1], clock[|clock| - 1])
  }

  /** The pad and the events after key `k`, already settled, is seen at each of some clock readings. */
  function HeldDown(p: Pad, k: KeyId, clock: seq<u16>): (Pad, seq<KeyEvent>)
    decreases |clock|
  {
    if clock == [] then (p, [])
    else
      var r := HeldDown(p, k, clock[..|clock| - 1]);
      var r' := PollStep(r.0, Scan(clock[|clock| - 1], Some(k)));
      (r'.0, r.1 + r'.1)
  }

  /** The hold counter counts `total` ticks, or was rewound by a repeat after more than that. */
  predicate Counts(p: Pad, k: KeyId, total: nat) {
    && p.stable == p.rawPrev == Some(k)
    && (p.longFired <==> k.SupportsLong() && total >= LONG_PRESS_TICKS)
    && (p.hold == total || (p.longFired && REPEAT_RESET_TICKS <= p.hold < total))
  }

  lemma CountOneMore(p: Pad, k: KeyId, total: nat, now: u16)
    requires Counts(p, k, total) && total + Elapsed(p.lastPoll, now) < 0x1_0000_0000
    ensures var r := PollStep(p, Scan(now, Some(k)));
            && Counts(r.0, k, total + Elapsed(p.lastPoll, now)) && r.0.lastPoll == now
            && (KeyEvent(k, Long) in r.1 <==> !p.longFired && r.0.longFired)
  {
  }

  /**
   * A key that has just settled and stays down reports `Long` exactly when it has one and the time held,
   * added up over the wrapping counter, reaches 10,000 ticks of 0.1 ms (as long as it stays below 2^32 ticks).
   */
  lemma {:induction false} LongAfterOneSecond(p: Pad, k: KeyId, clock: seq<u16>)
    requires p.stable == p.rawPrev == Some(k) && p.hold == 0 && !p.longFired
    requires TotalElapsed(p.lastPoll, clock) < 0x1_0000_0000
    ensures KeyEvent(k, Long) in HeldDown(p, k, clock).1 <==>
              && k in {Up, Down, Vm, Band, Asterisk, Pound, Digit0, Exit, Side1, Side2}
              && TotalElapsed(p.lastPoll, clock) >= 10_000
    ensures Counts(HeldDown(p, k, clock).0, k, TotalElapsed(p.lastPoll, clock))
    ensures HeldDown(p, k, clock).0.lastPoll == (if clock == [] then p.lastPoll else clock[|clock| - 1])
    decreases |clock|
  {
    if clock != [] {
      var init, now := clock[..|clock| - 1], clock[|clock| - 1];
      LongAfterOneSecond(p, k, init);
      CountOneMore(HeldDown(p, k, init).0, k, TotalElapsed(p.lastPoll, init), now);
    }
  }

  /** Whatever came before, a key seen anew in two scans starts with the counter at zero and its long event to come. */
  lemma PressBegins(p: Pad, k: KeyId, t0: u16, t1: u16)
    requires p.rawPrev != Some(k) && p.stable != Some(k)
    ensures var q := PollStep(p, Scan(t0, Some(k))).0;
            && PollStep(q, Scan(t1, Some(k))).0 == Pad(Some(k), Some(k), 0, false, t1)
            && KeyEvent(k, Press) in PollStep(q, Scan(t1, Some(k))).1
  {
  }

  /** One scan that sees something else neither ends a press nor counts towards it. */
  lemma GlitchForgiven(p: Pad, k: KeyId, other: Option<KeyId>, t0: u16, t1: u16)
    requires p.stable == p.rawPrev == Some(k) && other != Some(k)
    ensures var q := PollStep(p, Scan(t0, other));
            q.1 == [] && PollStep(q.0, Scan(t1, Some(k))) == (p.(lastPoll := t1), [])
  {
  }

  /** The events of reading `n`, the key having stayed down at all the readings before. */
  function EventsAt(p: Pad, k: KeyId, clock: seq<u16>, n: nat): seq<KeyEvent>
    requires n < |clock|
  {
    PollStep(HeldDown(p, k, clock[..n]).0, Scan(clock[n], Some(k))).1
  }

  predicate RepeatsAt(p: Pad, k: KeyId, clock: seq<u16>, n: nat)
    requires n < |clock|
  {
    KeyEvent(k, Repeat) in EventsAt(p, k, clock, n)
  }

  /** The time the key has been held at the reading before the `n`th. */
  function HeldFor(p: Pad, clock: seq<u16>, n: nat): nat
    requires n <= |clock|
  {
    TotalElapsed(p.lastPoll, clock[..n])
  }

  /** `m` is the last of the first `n` readings with a repeat. */
  predicate LastRepeat(p: Pad, k: KeyId, clock: seq<u16>, n: nat, m: nat)
    requires n <= |clock|
  {
    m < n && RepeatsAt(p, k, clock, m) && forall j :: m < j < n ==> !RepeatsAt(p, k, clock, j)
  }

  predicate NoRepeat(p: Pad, k: KeyId, clock: seq<u16>, n: nat)
    requires n <= |clock|
  {
    forall j :: 0 <= j < n ==> !RepeatsAt(p, k, clock, j)
  }

  /**
   * Up and Down, when held, report their first repeat at the first reading at which they have been held for 15,000
   * ticks; other keys report none.
   */
  lemma FirstRepeat(p: Pad, k: KeyId, clock: seq<u16>, n: nat)
    requires p.stable == p.rawPrev == Some(k) && p.hold == 0 && n < |clock| && NoRepeat(p, k, clock, n)
    ensures RepeatsAt(p, k, clock, n) <==> (k == Up || k == Down) && HeldFor(p, clock, n + 1) >= 15_000
  {
    StaysHeld(p, k, clock, n);
    HeldOneMore(p, clock, n);
    if k == Up || k == Down {
      HoldCounts(p, k, clock, n);
      RepeatStep(HeldDown(p, k, clock[..n]).0, k, clock[n]);
    } else {
      NeverRepeats(HeldDown(p, k, clock[..n]).0, k, clock[n]);
    }
  }

  /** After the first, every further repeat comes at the first reading 1,000 ticks or more after the last one. */
  lemma NextRepeat(p: Pad, k: KeyId, clock: seq<u16>, n: nat, m: nat)
    requires p.stable == p.rawPrev == Some(k) && p.hold == 0 && n < |clock| && LastRepeat(p, k, clock, n, m)
    ensures RepeatsAt(p, k, clock, n) <==> HeldFor(p, clock, n + 1) - HeldFor(p, clock, m + 1) >= 1_000
  {
    StaysHeld(p, k, clock, n);
    StaysHeld(p, k, clock, m);
    HeldOneMore(p, clock, n);
    if k == Up || k == Down {
      HoldCounts(p, k, clock, n);
      HoldSinceRepeat(p, k, clock, n, m);
      RepeatStep(HeldDown(p, k, clock[..n]).0, k, clock[n]);
    } else {
      NeverRepeats(HeldDown(p, k, clock[..m]).0, k, clock[m]);
    }
  }

  lemma NeverRepeats(q: Pad, k: KeyId, now: u16)
    requires q.stable == q.rawPrev == Some(k) && k != Up && k != Down
    ensures KeyEvent(k, Repeat) !in PollStep(q, Scan(now, Some(k))).1
  {
  }

  lemma RepeatStep(q: Pad, k: KeyId, now: u16)
    requires q.stable == q.rawPrev == Some(k) && (k == Up || k == Down) && q.hold < 15_000
    ensures var (r, hold) := (PollStep(q, Scan(now, Some(k))), q.hold + Elapsed(q.lastPoll, now));
            && (KeyEvent(k, Repeat) in r.1 <==> hold >= 15_000)
            && r.0.hold == if hold >= 15_000 then 14_000 else hold
  {
  }

  lemma HeldOneMore(p: Pad, clock: seq<u16>, n: nat)
    requires n < |clock|
    ensures HeldFor(p, clock, n + 1) ==
              HeldFor(p, clock, n) + Elapsed(if n == 0 then p.lastPoll else clock[n - 1], clock[n])
  {
    assert clock[..n + 1][..n] == clock[..n];
  }

  lemma {:induction false} StaysHeld(p: Pad, k: KeyId, clock: seq<u16>, n: nat)
    requires p.stable == p.rawPrev == Some(k) && n <= |clock|
    ensures var q := HeldDown(p, k, clock[..n]).0;
            q.stable == q.rawPrev == Some(k) && q.lastPoll == if n == 0 then p.lastPoll else clock[n - 1]
  {
    if n != 0 {
      StaysHeld(p, k, clock, n - 1);
      HeldDownOneMore(p, k, clock, n - 1);
    }
  }

  lemma HeldDownOneMore(p: Pad, k: KeyId, clock: seq<u16>, n: nat)
    requires n < |clock|
    ensures HeldDown(p, k, clock[..n + 1]).0 == PollStep(HeldDown(p, k, clock[..n]).0, Scan(clock[n], Some(k))).0
  {
    assert clock[..n + 1][..n] == clock[..n];
  }

  /** One reading of Up or Down: the counter reaches 15,000 and is set back, or counts on. */
  lemma HoldStep(p: Pad, k: KeyId, clock: seq<u16>, n: nat)
    requires p.stable == p.rawPrev == Some(k) && (k == Up || k == Down) && n < |clock|
    requires HeldDown(p, k, clock[..n]).0.hold < 15_000
    ensures var hold := HeldDown(p, k, clock[..n]).0.hold + HeldFor(p, clock, n + 1) - HeldFor(p, clock, n);
            && (RepeatsAt(p, k, clock, n) <==> hold >= 15_000)
            && HeldDown(p, k, clock[..n + 1]).0.hold == if hold >= 15_000 then 14_000 else hold
  {
    StaysHeld(p, k, clock, n);
    HeldOneMore(p, clock, n);
    HeldDownOneMore(p, k, clock, n);
    RepeatStep(HeldDown(p, k, clock[..n]).0, k, clock[n]);
  }

  /** Without a repeat the hold counter holds the time since the key settled. */
  lemma {:induction false} HoldCounts(p: Pad, k: KeyId, clock: seq<u16>, n: nat)
    requires p.stable == p.rawPrev == Some(k) && p.hold == 0 && (k == Up || k == Down) && n <= |clock|
    ensures HeldDown(p, k, clock[..n]).0.hold < 15_000
    ensures NoRepeat(p, k, clock, n) ==> HeldDown(p, k, clock[..n]).0.hold == HeldFor(p, clock, n)
  {
    if n != 0 {
      HoldCounts(p, k, clock, n - 1);
      HoldStep(p, k, clock, n - 1);
    }
  }

  /** After a repeat it holds 14,000 ticks more than the time since then. */
  lemma {:induction false} HoldSinceRepeat(p: Pad, k: KeyId, clock: seq<u16>, n: nat, m: nat)
    requires p.stable == p.rawPrev == Some(k) && p.hold == 0 && (k == Up || k == Down) && n <= |clock|
    requires LastRepeat(p, k, clock, n, m)
    ensures HeldDown(p, k, clock[..n]).0.hold == 14_000 + HeldFor(p, clock, n) - HeldFor(p, clock, m + 1)
  {
    LastRepeatOf(p, k, clock, n, m);
    HoldOneMore(p, k, clock, n - 1);
    if m < n - 1 {
      HoldSinceRepeat(p, k, clock, n - 1, m);
    }
  }

  lemma HoldOneMore(p: Pad, k: KeyId, clock: seq<u16>, n: nat)
    requires p.stable == p.rawPrev == Some(k) && p.hold == 0 && (k == Up || k == Down) && n < |clock|
    ensures HeldDown(p, k, clock[..n + 1]).0.hold ==
              if RepeatsAt(p, k, clock, n) then 14_000
              else HeldDown(p, k, clock[..n]).0.hold + HeldFor(p, clock, n + 1) - HeldFor(p, clock, n)
  {
    HoldCounts(p, k, clock, n);
    HoldStep(p, k, clock, n);
  }

  lemma LastRepeatOf(p: Pad, k: KeyId, clock: seq<u16>, n: nat, m: nat)
    requires n <= |clock| && LastRepeat(p, k, clock, n, m)
    ensures RepeatsAt(p, k, clock, n - 1) <==> m == n - 1
    ensures m < n - 1 ==> LastRepeat(p, k, clock, n - 1, m)
  {
  }
}
