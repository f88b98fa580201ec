/** The multi-tap name editor: a fixed buffer edited in place, and the line of text it stands for. */
module NameEdit {
  import Bits
  import opened Bytes

  const MULTITAP_TIMEOUT_TICKS: nat := 60

  /** " ", ",.?1", "ABCabc2", "DEFdef3", "GHIghi4", "JKLjkl5", "MNOmno6", "PQRSpqrs7", "TUVtuv8", "WXYZwxyz9" */
  const KEY_CHARS: seq<seq<byte>> := [
    [32],
    [44, 46, 63, 49],
    [65, 66, 67, 97, 98, 99, 50],
    [68, 69, 70, 100, 101, 102, 51],
    [71, 72, 73, 103, 104, 105, 52],
    [74, 75, 76, 106, 107, 108, 53],
    [77, 78, 79, 109, 110, 111, 54],
    [80, 81, 82, 83, 112, 113, 114, 115, 55],
    [84, 85, 86, 116, 117, 118, 56],
    [87, 88, 89, 90, 119, 120, 121, 122, 57]]

  type Digit = d: int | 0 <= d < 10

  /** The characters a key cycles through. */
  function Table(d: Digit): (t: seq<byte>)
    ensures |t| > 0 && 0 !in t
  {
    assert |KEY_CHARS| == 10;
    KEY_CHARS[d]
  }

  /** The character after the `i`th of a table of `m`, the first one again after the last. */
  function Next(i: nat, m: nat): (k: nat)
    requires i < m
    ensures k < m
  {
    if i + 1 == m then 0 else i + 1
  }

  lemma NextIsModular(i: nat, m: nat)
    requires i < m
    ensures (i + 1) % m == Next(i, m)
  {
  }

  /** The key last tapped and which of its characters is showing. */
  datatype Tap = Tap(digit: Digit, index: nat)

  // ---- the buffer -------------------------------------------------------------

  datatype State = State(buf: seq<byte>, cursor: nat, pending: Option<Tap>, idle: nat)
  {
    /** What every method keeps, whatever the buffer held at the start. */
    predicate Valid() {
      && cursor <= |buf|
      && (pending.Some? ==> cursor < |buf| && pending.value.index < |Table(pending.value.digit)|)
      && (pending.Some? ==> idle < MULTITAP_TIMEOUT_TICKS)
      && idle <= MULTITAP_TIMEOUT_TICKS
    }
  }

  function FirstZero(buf: seq<byte>): (i: nat)
    ensures i <= |buf| && 0 !in buf[..i] && (i < |buf| ==> buf[i] == 0)
  {
    if buf == [] || buf[0] == 0 then 0 else 1 + FirstZero(buf[1..])
  }

  /** The buffer's length without trailing zeros. */
  function TextLength(buf: seq<byte>): (n: nat)
    ensures n <= |buf| && (n > 0 ==> buf[n - 1] != 0) && forall i :: n <= i < |buf| ==> buf[i] == 0
  {
    if buf == [] then 0
    else if buf[|buf| - 1] != 0 then |buf|
    else TextLength(buf[..|buf| - 1])
  }

  function Started(initial: seq<byte>): (s: State)
    ensures s.Valid()
  {
    State(initial, FirstZero(initial), None, 0)
  }

  function Finalized(s: State): (r: State)
    requires s.Valid()
    ensures r.Valid() && r.pending == None
  {
    if s.pending == None then s else s.(pending := None, cursor := s.cursor + 1)
  }

  function Moved(s: State, left: bool): (r: State)
    requires s.Valid()
    ensures r.Valid()
  {
    var f := Finalized(s);
    if left then f.(cursor := if f.cursor == 0 then 0 else f.cursor - 1)
    else f.(cursor := if f.cursor + 1 <= TextLength(f.buf) then f.cursor + 1 else TextLength(f.buf))
  }

  function ShiftedOut(buf: seq<byte>, at: nat): seq<byte>
    requires at < |buf|
  {
    buf[..at] + buf[at + 1..] + [0]
  }

  function ShiftedIn(buf: seq<byte>, at: nat, ch: byte): seq<byte>
    requires at < |buf|
  {
    buf[..at] + [ch] + buf[at..|buf| - 1]
  }

  function Backspaced(s: State): (r: State)
    requires s.Valid()
    ensures r.Valid()
  {
    var f := Finalized(s);
    if f.cursor == 0 then f
    else f.(buf := ShiftedOut(f.buf, f.cursor - 1), cursor := f.cursor - 1)
  }

  function Pressed(s: State, d: Digit): (r: State)
    requires s.Valid()
    ensures r.Valid()
  {
    if s.pending.Some? && s.pending.value.digit == d then
      var next := Next(s.pending.value.index, |Table(d)|);
      s.(buf := s.buf[s.cursor := Table(d)[next]], pending := Some(Tap(d, next)), idle := 0)
    else
      var f := Finalized(s);
      if f.cursor >= |f.buf| then f.(idle := 0)
      else f.(buf := ShiftedIn(f.buf, f.cursor, Table(d)[0]), pending := Some(Tap(d, 0)), idle := 0)
  }

  function Ticked(s: State): (r: State)
    requires s.Valid()
    ensures r.Valid()
  {
    if s.pending == None then s
    else if s.idle + 1 >= MULTITAP_TIMEOUT_TICKS then Finalized(s).(idle := s.idle + 1)
    else s.(idle := s.idle + 1)
  }

  class NameEdit {
    const buf: array<byte>
    var cursor: nat
    var pending: Option<Tap>
    var idleTicks: nat

    ghost function View(): State
      reads this, buf
    {
      State(buf[..], cursor, pending, idleTicks)
    }

    ghost predicate Valid()
      reads this, buf
    {
      View().Valid()
    }

    constructor (n: nat)
      ensures Valid() && fresh(buf) && View() == State(Repeat(0, n), 0, None, 0)
    {
      buf := new byte[n](_ => 0);
      cursor, pending, idleTicks := 0, None, 0;
    }

    method Start(initial: seq<byte>)
      requires |initial| == buf.Length
      modifies this, buf
      ensures Valid() && View() == Started(initial)
    {
      for i := 0 to |initial|
        invariant buf[..i] == initial[..i]
      {
        buf[i] := initial[i];
      }
      cursor := FirstZero(initial);
      pending, idleTicks := None, 0;
    }

    method FinalizePending()
      requires cursor <= buf.Length && (pending.Some? ==> cursor < buf.Length) && idleTicks <= MULTITAP_TIMEOUT_TICKS
      modifies this
      ensures Valid() && pending == None
      ensures cursor == if old(pending).Some? then old(cursor) + 1 else old(cursor)
      ensures idleTicks == old(idleTicks)
    {
      if pending.Some? {
        pending := None;
        cursor := if cursor + 1 < buf.Length then cursor + 1 else buf.Length;
      }
    }

    method MaxCursor() returns (n: nat)
      ensures n == TextLength(buf[..])
    {
      n := buf.Length;
      assert buf[..n] == buf[..];
      while n > 0 && buf[n - 1] == 0
        invariant n <= buf.Length && TextLength(buf[..n]) == TextLength(buf[..])
      {
        assert buf[..n][..n - 1] == buf[..n - 1];
        n := n - 1;
      }
    }

    method MoveCursor(left: bool)
      requires Valid()
      modifies this
      ensures Valid() && View() == Moved(old(View()), left)
    {
      FinalizePending();
      if left {
        cursor := if cursor == 0 then 0 else cursor - 1;
      } else {
        var max := MaxCursor();
        cursor := if cursor + 1 < max then cursor + 1 else max;
      }
    }

    method Backspace()
      requires Valid()
      modifies this, buf
      ensures Valid() && View() == Backspaced(old(View()))
    {
      FinalizePending();
      if cursor == 0 {
        return;
      }
      ShiftOut(cursor - 1);
      cursor := cursor - 1;
    }

    /** Closes the gap at `at` and blanks the last place. */
    method ShiftOut(at: nat)
      requires at < buf.Length
      modifies buf
      ensures buf[..] == ShiftedOut(old(buf[..]), at)
    {
      for i := at to buf.Length - 1
        invariant forall j :: 0 <= j < buf.Length ==> buf[j] == old(if at <= j < i then buf[j + 1] else buf[j])
      {
        buf[i] := buf[i + 1];
      }
      buf[buf.Length - 1] := 0;
    }

    /** Opens a gap at the cursor, dropping the last place; fails when the cursor is past the last place. */
    method InsertAtCursor(ch: byte) returns (inserted: bool)
      requires cursor <= buf.Length
      modifies buf
      ensures inserted == (cursor < buf.Length)
      ensures buf[..] == if inserted then ShiftedIn(old(buf[..]), cursor, ch) else old(buf[..])
    {
      if cursor >= buf.Length {
        return false;
      }
      var last := buf.Length - 1;
      ghost var was := buf[..];
      for i := last downto cursor
        invariant forall j :: 0 <= j <= i ==> buf[j] == was[j]
        invariant forall j :: i < j < buf.Length ==> buf[j] == was[j - 1]
      {
        buf[i + 1] := buf[i];
      }
      buf[cursor] := ch;
      return true;
    }

    method PressDigit(digit: Digit)
      requires Valid()
      modifies this, buf
      ensures Valid() && View() == Pressed(old(View()), digit)
    {
      var table := Table(digit);
      if pending.Some? && pending.value.digit == digit {
        var next := (pending.value.index + 1) % |table|;
        NextIsModular(pending.value.index, |table|);
        buf[cursor] := table[next];
        pending := Some(Tap(digit, next));
      } else {
        FinalizePending();
        var inserted := InsertAtCursor(table[0]);
        if inserted {
          pending := Some(Tap(digit, 0));
        }
      }
      idleTicks := 0;
    }

    method Tick()
      requires Valid()
      modifies this
      ensures Valid() && View() == Ticked(old(View()))
    {
      if pending.Some? {
        idleTicks := idleTicks + 1;
        if idleTicks >= MULTITAP_TIMEOUT_TICKS {
          FinalizePending();
        }
      }
    }
  }

  // ---- the text line the buffer stands for ------------------------------------

  /** A text, a cursor inside it or at its end, and the tap in progress on the character at the cursor. */
  datatype Line = Line(text: seq<byte>, cursor: nat, pending: Option<Tap>, idle: nat)
  {
    ghost predicate Valid(n: nat) {
      && |text| <= n && 0 !in text && cursor <= |text|
      && (pending.Some? ==>
            cursor < |text| && pending.value.index < |Table(pending.value.digit)|
            && text[cursor] == Table(pending.value.digit)[pending.value.index])
    }
  }

  datatype Action = Press(digit: Digit) | Left | Right | Erase | Confirm | Idle

  function Settled(l: Line): Line {
    if l.pending == None then l else l.(pending := None, cursor := l.cursor + 1)
  }

  function Truncated(text: seq<byte>, n: nat): seq<byte> {
    if |text| <= n then text else text[..n]
  }

  /** Character `i` of a key put in front of the cursor; what no longer fits is lost at the end. */
  function Typed(l: Line, d: Digit, i: nat, n: nat): Line
    requires l.cursor <= |l.text| && l.cursor < n && i < |Table(d)|
  {
    Line(Truncated(l.text[..l.cursor] + [Table(d)[i]] + l.text[l.cursor..], n), l.cursor, Some(Tap(d, i)), 0)
  }

  function Cycled(l: Line): Line
    requires l.cursor < |l.text| && l.pending.Some? && l.pending.value.index < |Table(l.pending.value.digit)|
  {
    var next := Next(l.pending.value.index, |Table(l.pending.value.digit)|);
    l.(text := l.text[l.cursor := Table(l.pending.value.digit)[next]],
       pending := Some(Tap(l.pending.value.digit, next)), idle := 0)
  }

  /** What each action does to the line, in an editor of `n` places. */
  function Edited(l: Line, a: Action, n: nat): (r: Line)
    requires l.Valid(n)
    ensures r.Valid(n)
  {
    var f := Settled(l);
    match a
    case Press(d) =>
      if l.pending.Some? && l.pending.value.digit == d then Cycled(l)
      else if f.cursor == n then f.(idle := 0)
      else Typed(f, d, 0, n)
    case Left => if f.cursor == 0 then f else f.(cursor := f.cursor - 1)
    case Right => if f.cursor == |f.text| then f else f.(cursor := f.cursor + 1)
    case Erase =>
      if f.cursor == 0 then f
      else f.(text := f.text[..f.cursor - 1] + f.text[f.cursor..], cursor := f.cursor - 1)
    case Confirm => f
    case Idle =>
      if l.pending == None then l
      else if l.idle + 1 >= MULTITAP_TIMEOUT_TICKS then f.(idle := l.idle + 1)
      else l.(idle := l.idle + 1)
  }

  /** The same actions on the buffer. */
  function Stepped(s: State, a: Action): (r: State)
    requires s.Valid()
    ensures r.Valid()
  {
    match a
    case Press(d) => Pressed(s, d)
    case Left => Moved(s, true)
    case Right => Moved(s, false)
    case Erase => Backspaced(s)
    case Confirm => Finalized(s)
    case Idle => Ticked(s)
  }

  /** The buffer is the text followed by zeros. */
  ghost predicate Shows(s: State, l: Line) {
    && s.Valid() && l.Valid(|s.buf|)
    && s.buf == l.text + Repeat(0, |s.buf| - |l.text|)
    && s.cursor == l.cursor && s.pending == l.pending && s.idle == l.idle
  }

  lemma ShownLength(s: State, l: Line)
    requires Shows(s, l)
    ensures TextLength(s.buf) == |l.text| && forall i :: 0 <= i < |l.text| ==> s.buf[i] == l.text[i]
  {
    assert |l.text| > 0 ==> s.buf[|l.text| - 1] == l.text[|l.text| - 1];
  }

  lemma ShiftInShown(s: State, l: Line, d: Digit)
    requires Shows(s, l) && l.pending == None && l.cursor < |s.buf|
    ensures Shows(Pressed(s, d), Edited(l, Press(d), |s.buf|))
  {
  }

  lemma ShiftOutShown(s: State, l: Line)
    requires Shows(s, l) && l.pending == None && l.cursor > 0
    ensures Shows(Backspaced(s), Edited(l, Erase, |s.buf|))
  {
  }

  lemma CycleShown(s: State, l: Line)
    requires Shows(s, l) && l.pending.Some?
    ensures Shows(Pressed(s, l.pending.value.digit), Cycled(l))
  {
  }

  /** Every action on the buffer is the action on the text. */
  lemma StepRefines(s: State, l: Line, a: Action)
    requires Shows(s, l)
    ensures Shows(Stepped(s, a), Edited(l, a, |s.buf|))
  {
    var f, g := Finalized(s), Settled(l);
    assert Shows(f, g);
    match a
    case Press(d) =>
      if l.pending.Some? && l.pending.value.digit == d {
        CycleShown(s, l);
      } else if g.cursor < |s.buf| {
        ShiftInShown(f, g, d);
      }
    case Left =>
    case Right => ShownLength(f, g);
    case Erase =>
      if g.cursor > 0 {
        ShiftOutShown(f, g);
      }
    case Confirm =>
    case Idle =>
  }

  function Performed(s: State, actions: seq<Action>): (r: State)
    requires s.Valid()
    ensures r.Valid()
    decreases |actions|
  {
    if actions == [] then s else Stepped(Performed(s, actions[..|actions| - 1]), actions[|actions| - 1])
  }

  function Written(l: Line, actions: seq<Action>, n: nat): (r: Line)
    requires l.Valid(n)
    ensures r.Valid(n)
    decreases |actions|
  {
    if actions == [] then l else Edited(Written(l, actions[..|actions| - 1], n), actions[|actions| - 1], n)
  }

  /** No zero in front of a character. */
  ghost predicate HoleFree(buf: seq<byte>) {
    forall i, j :: 0 <= i < j < |buf| && buf[i] == 0 ==> buf[j] == 0
  }

  /**
   * Started on a hole-free buffer, every sequence of actions leaves the buffer equal to the edited text
   * followed by zeros, with the cursor inside the text or at its end.
   */
  lemma {:induction false} EditorRefines(initial: seq<byte>, actions: seq<Action>)
    requires HoleFree(initial)
    ensures var l := Line(initial[..FirstZero(initial)], FirstZero(initial), None, 0);
            && l.Valid(|initial|)
            && Shows(Performed(Started(initial), actions), Written(l, actions, |initial|))
    decreases |actions|
  {
    var l := Line(initial[..FirstZero(initial)], FirstZero(initial), None, 0);
    if actions == [] {
      assert initial == l.text + Repeat(0, |initial| - |l.text|);
    } else {
      var init := actions[..|actions| - 1];
      EditorRefines(initial, init);
      LengthKept(Started(initial), init);
      StepRefines(Performed(Started(initial), init), Written(l, init, |initial|), actions[|actions| - 1]);
    }
  }

  lemma {:induction false} LengthKept(s: State, actions: seq<Action>)
    requires s.Valid()
    ensures |Performed(s, actions).buf| == |s.buf|
    decreases |actions|
  {
    if actions != [] {
      LengthKept(s, actions[..|actions| - 1]);
    }
  }

  // ---- buffers with holes -----------------------------------------------------

  function Copies(a: Action, k: nat): (s: seq<Action>)
    ensures |s| == k && forall i :: 0 <= i < k ==> s[i] == a
  {
    Repeat(a, k)
  }

  lemma {:induction false} MovingRight(s: State, k: nat)
    requires s.Valid() && s.pending == None && s.cursor + k <= TextLength(s.buf)
    ensures Performed(s, Copies(Right, k)) == s.(cursor := s.cursor + k)
  {
    if k != 0 {
      MovingRight(s, k - 1);
      assert Copies(Right, k)[..k - 1] == Copies(Right, k - 1);
    }
  }

  /** The first `k` places kept, the rest blank. */
  function Cleared(buf: seq<byte>, k: nat): (r: seq<byte>)
    requires k <= |buf|
    ensures |r| == |buf| && forall i :: 0 <= i < |r| ==> r[i] == if i < k then buf[i] else 0
  {
    buf[..k] + Repeat(0, |buf| - k)
  }

  lemma EraseLast(s: State)
    requires s.Valid() && s.pending == None && s.cursor > 0 && s.buf == Cleared(s.buf, s.cursor)
    ensures Backspaced(s) == s.(buf := Cleared(s.buf, s.cursor - 1), cursor := s.cursor - 1)
  {
  }

  lemma ClearedTwice(buf: seq<byte>, k: nat, j: nat)
    requires j <= k <= |buf|
    ensures Cleared(Cleared(buf, k), j) == Cleared(buf, j)
  {
  }

  lemma LastHole(buf: seq<byte>) returns (h: nat)
    requires !HoleFree(buf)
    ensures FirstZero(buf) <= h && h + 1 < TextLength(buf) && buf[h] == 0
    ensures forall i :: h < i < TextLength(buf) ==> buf[i] != 0
  {
    var i, j :| 0 <= i < j < |buf| && buf[i] == 0 && buf[j] != 0;
    h := TextLength(buf) - 1;
    while buf[h] != 0
      invariant i <= h < TextLength(buf)
      invariant forall k :: h < k < TextLength(buf) ==> buf[k] != 0
      decreases h
    {
      h := h - 1;
    }
  }

  ghost predicate CursorStaysInText(initial: seq<byte>) {
    forall actions ::
      var s := Performed(Started(initial), actions); s.cursor <= TextLength(s.buf)
  }

  /** The actions that move to the end of the text and erase back to place `k`. */
  lemma {:induction false} EraseBackTo(initial: seq<byte>, k: nat) returns (actions: seq<Action>)
    requires FirstZero(initial) <= k <= TextLength(initial)
    ensures Performed(Started(initial), actions) == State(Cleared(initial, k), k, None, 0)
    decreases TextLength(initial) - k
  {
    if k == TextLength(initial) {
      actions := Copies(Right, k - FirstZero(initial));
      MovingRight(Started(initial), k - FirstZero(initial));
      AllTextCleared(initial);
    } else {
      var before := EraseBackTo(initial, k + 1);
      actions := before + [Erase];
      PerformedNext(Started(initial), before, Erase);
      EraseOne(initial, k);
    }
  }

  lemma EraseOne(initial: seq<byte>, k: nat)
    requires k < |initial|
    ensures Stepped(State(Cleared(initial, k + 1), k + 1, None, 0), Erase) == State(Cleared(initial, k), k, None, 0)
  {
    ClearedTwice(initial, k + 1, k + 1);
    EraseLast(State(Cleared(initial, k + 1), k + 1, None, 0));
    ClearedTwice(initial, k + 1, k);
  }

  lemma PerformedNext(s: State, actions: seq<Action>, a: Action)
    requires s.Valid()
    ensures Performed(s, actions + [a]) == Stepped(Performed(s, actions), a)
  {
    assert (actions + [a])[..|actions|] == actions;
  }

  lemma AllTextCleared(buf: seq<byte>)
    ensures buf == Cleared(buf, TextLength(buf))
  {
  }

  lemma HoleLetsCursorOut(initial: seq<byte>)
    requires !HoleFree(initial)
    ensures !CursorStaysInText(initial)
  {
    var h := LastHole(initial);
    HoleAtEnd(initial, h);
    var actions := EraseBackTo(initial, h + 1);
    var s := Performed(Started(initial), actions);
    assert s.cursor > TextLength(s.buf);
  }

  lemma HoleAtEnd(buf: seq<byte>, h: nat)
    requires h < |buf| && buf[h] == 0
    ensures TextLength(Cleared(buf, h + 1)) <= h
  {
  }

  /** The cursor can never be put past the text exactly when the buffer the editor starts on has no hole. */
  lemma HoleFreeExactly(initial: seq<byte>)
    ensures CursorStaysInText(initial) <==> HoleFree(initial)
  {
    if HoleFree(initial) {
      forall actions
        ensures var s := Performed(Started(initial), actions); s.cursor <= TextLength(s.buf)
      {
        EditorRefines(initial, actions);
        var l := Line(initial[..FirstZero(initial)], FirstZero(initial), None, 0);
        LengthKept(Started(initial), actions);
        ShownLength(Performed(Started(initial), actions), Written(l, actions, |initial|));
      }
    } else {
      HoleLetsCursorOut(initial);
    }
  }

  // ---- multi-tap --------------------------------------------------------------

  /** Taps on one key, with the given number of idle ticks before each further tap. */
  function Taps(d: Digit, gaps: seq<nat>): seq<Action>
    decreases |gaps|
  {
    if gaps == [] then [Press(d)]
    else Taps(d, gaps[..|gaps| - 1]) + Copies(Idle, gaps[|gaps| - 1]) + [Press(d)]
  }

  lemma {:induction false} WrittenTwice(l: Line, a: seq<Action>, b: seq<Action>, n: nat)
    requires l.Valid(n)
    ensures Written(l, a + b, n) == Written(Written(l, a, n), b, n)
    decreases |b|
  {
    if b == [] {
      assert a + b == a;
    } else {
      var init := b[..|b| - 1];
      WrittenTwice(l, a, init, n);
      assert (a + b)[..|a + b| - 1] == a + init;
    }
  }

  /** Waiting: the tap stays open for fewer than 60 ticks in all, and closes at the 60th. */
  lemma {:induction false} Waiting(l: Line, k: nat, n: nat)
    requires l.Valid(n) && l.pending.Some? && l.idle < 60
    ensures Written(l, Copies(Idle, k), n) ==
              if l.idle + k < 60 then l.(idle := l.idle + k) else Settled(l).(idle := 60)
  {
    if k != 0 {
      Waiting(l, k - 1, n);
      assert Copies(Idle, k)[..k - 1] == Copies(Idle, k - 1);
    }
  }

  /** The character showing after `k` taps more than the first. */
  function Reached(k: nat, m: nat): (i: nat)
    requires m > 0
    ensures i < m
  {
    if k == 0 then 0 else Next(Reached(k - 1, m), m)
  }

  lemma {:induction false} ReachedIsModular(k: nat, m: nat)
    requires m > 0
    ensures Reached(k, m) == k % m
  {
    if k == 0 {
      Bits.SmallMod(0, m);
    } else {
      ReachedIsModular(k - 1, m);
      Bits.ModStep(k - 1, m);
    }
  }

  /** No tap is open, or one on another key. */
  predicate OpenOnAnother(l: Line, d: Digit) {
    l.pending.Some? ==> l.pending.value.digit != d
  }

  /**
   * Tapping a key `k` times, never waiting for the timeout, closes a tap still open on another key and types the
   * `(k - 1) mod length`th of its characters in front of the cursor, and nothing else.
   */
  lemma MultiTap(l: Line, d: Digit, gaps: seq<nat>, n: nat)
    requires l.Valid(n) && OpenOnAnother(l, d) && Settled(l).cursor < n
    requires forall i :: 0 <= i < |gaps| ==> gaps[i] < 60
    ensures Written(l, Taps(d, gaps), n) == Typed(Settled(l), d, |gaps| % |Table(d)|, n)
  {
    TapByTap(l, d, gaps, n);
    ReachedIsModular(|gaps|, |Table(d)|);
  }

  lemma {:induction false} TapByTap(l: Line, d: Digit, gaps: seq<nat>, n: nat)
    requires l.Valid(n) && OpenOnAnother(l, d) && Settled(l).cursor < n
    requires forall i :: 0 <= i < |gaps| ==> gaps[i] < 60
    ensures Written(l, Taps(d, gaps), n) == Typed(Settled(l), d, Reached(|gaps|, |Table(d)|), n)
    decreases |gaps|
  {
    if gaps == [] {
      FirstTap(l, d, n);
    } else {
      var init := gaps[..|gaps| - 1];
      TapByTap(l, d, init, n);
      OneMoreTap(l, d, gaps, Reached(|init|, |Table(d)|), n);
    }
  }

  lemma OneMoreTap(l: Line, d: Digit, gaps: seq<nat>, i: nat, n: nat)
    requires l.Valid(n) && Settled(l).cursor < n && i < |Table(d)|
    requires gaps != [] && gaps[|gaps| - 1] < MULTITAP_TIMEOUT_TICKS
    requires Written(l, Taps(d, gaps[..|gaps| - 1]), n) == Typed(Settled(l), d, i, n)
    ensures Written(l, Taps(d, gaps), n) == Typed(Settled(l), d, Next(i, |Table(d)|), n)
  {
    var more := Copies(Idle, gaps[|gaps| - 1]) + [Press(d)];
    WrittenTwice(l, Taps(d, gaps[..|gaps| - 1]), more, n);
    TapsSplit(d, gaps);
    TapAgain(Settled(l), d, i, gaps[|gaps| - 1], n);
  }

  lemma TapsSplit(d: Digit, gaps: seq<nat>)
    requires gaps != []
    ensures Taps(d, gaps) == Taps(d, gaps[..|gaps| - 1]) + (Copies(Idle, gaps[|gaps| - 1]) + [Press(d)])
  {
  }

  lemma FirstTap(l: Line, d: Digit, n: nat)
    requires l.Valid(n) && OpenOnAnother(l, d) && Settled(l).cursor < n
    ensures Written(l, Taps(d, []), n) == Typed(Settled(l), d, 0, n)
  {
  }

  lemma TapAgain(l: Line, d: Digit, i: nat, gap: nat, n: nat)
    requires l.Valid(n) && l.pending == None && l.cursor < n && i < |Table(d)| && gap < MULTITAP_TIMEOUT_TICKS
    requires Typed(l, d, i, n).Valid(n)
    ensures Written(Typed(l, d, i, n), Copies(Idle, gap) + [Press(d)], n) == Typed(l, d, Next(i, |Table(d)|), n)
  {
    var typed := Typed(l, d, i, n);
    WrittenTwice(typed, Copies(Idle, gap), [Press(d)], n);
    Waiting(typed, gap, n);
    WrittenOnce(typed.(idle := gap), Press(d), n);
    CycleTyped(l, d, i, gap, n);
  }

  lemma CycleTyped(l: Line, d: Digit, i: nat, idle: nat, n: nat)
    requires l.Valid(n) && l.pending == None && l.cursor < n && i < |Table(d)|
    ensures Cycled(Typed(l, d, i, n).(idle := idle)) == Typed(l, d, Next(i, |Table(d)|), n)
  {
  }

  lemma EraseTyped(l: Line, d: Digit, i: nat, n: nat)
    requires l.Valid(n) && l.pending == None && l.cursor < n && i < |Table(d)|
    ensures Edited(Typed(l, d, i, n), Erase, n) == Line(Truncated(l.text, n - 1), l.cursor, None, 0)
  {
    var typed := Typed(l, d, i, n);
    var back := typed.text[..l.cursor] + typed.text[l.cursor + 1..];
    assert back == Truncated(l.text, n - 1);
    assert Edited(typed, Erase, n).text == back;
  }

  /** Erasing what was just typed gives back the settled line, exactly when the text was not already full. */
  lemma EraseUndoesTyping(l: Line, d: Digit, gaps: seq<nat>, n: nat)
    requires l.Valid(n) && OpenOnAnother(l, d) && Settled(l).cursor < n
    requires forall i :: 0 <= i < |gaps| ==> gaps[i] < 60
    ensures Written(l, Taps(d, gaps) + [Erase], n).(idle := l.idle) == Settled(l) <==> |l.text| < n
  {
    MultiTap(l, d, gaps, n);
    WrittenTwice(l, Taps(d, gaps), [Erase], n);
    var typed := Typed(Settled(l), d, |gaps| % |Table(d)|, n);
    WrittenOnce(typed, Erase, n);
    EraseTyped(Settled(l), d, |gaps| % |Table(d)|, n);
  }

  lemma WrittenOnce(l: Line, a: Action, n: nat)
    requires l.Valid(n)
    ensures Written(l, [a], n) == Edited(l, a, n)
  {
  }

  // ---- which taps type which characters -----------------------------------------

  /** Keys 2 to 9 share out the alphabet, four letters to 7 and 9 and three to the others. */
  function LetterCount(d: Digit): nat { if d == 7 || d == 9 then 4 else 3 }

  function FirstLetter(d: Digit): nat
    requires d >= 2
  {
    if d == 2 then 'A' as nat else FirstLetter(d - 1) + LetterCount(d - 1)
  }

  /** `n` letters from `first` on in upper case, the same in lower case, and a digit. */
  predicate LettersThenDigit(t: seq<byte>, first: nat, n: nat, digit: nat) {
    && |t| == 2 * n + 1 && (t[2 * n] as int) == '0' as int + digit
    && (forall i :: 0 <= i < n ==> (t[i] as int) == first + i)
    && forall i :: n <= i < 2 * n ==> (t[i] as int) == first + (i - n) + 32
  }

  lemma LowKeys()
    ensures LettersThenDigit(Table(2), 65, 3, 2) && LettersThenDigit(Table(3), 68, 3, 3)
    ensures LettersThenDigit(Table(4), 71, 3, 4) && LettersThenDigit(Table(5), 74, 3, 5)
  {
  }

  lemma HighKeys()
    ensures LettersThenDigit(Table(6), 77, 3, 6) && LettersThenDigit(Table(7), 80, 4, 7)
    ensures LettersThenDigit(Table(8), 84, 3, 8) && LettersThenDigit(Table(9), 87, 4, 9)
  {
  }

  /** A key cycles through its letters in upper case, then in lower case, then its digit. */
  lemma KeyTypes(d: Digit)
    requires d >= 2
    ensures LettersThenDigit(Table(d), FirstLetter(d), LetterCount(d), d)
  {
    FirstLetters();
    LowKeys();
    HighKeys();
  }

  lemma FirstLetters()
    ensures FirstLetter(2) == 65 && FirstLetter(3) == 68 && FirstLetter(4) == 71 && FirstLetter(5) == 74
    ensures FirstLetter(6) == 77 && FirstLetter(7) == 80 && FirstLetter(8) == 84 && FirstLetter(9) == 87
  {
  }

  predicate Spells(t: seq<byte>, s: string) {
    |t| == |s| && forall i :: 0 <= i < |s| ==> (t[i] as int) == s[i] as int
  }

  /** Key 0 types the space, and key 1 punctuation and its digit. */
  lemma OtherKeysType()
    ensures Spells(Table(0), " ") && Spells(Table(1), ",.?1")
  {
  }

  /** The key that carries a letter. */
  function KeyOf(letter: nat): (d: Digit)
    requires 'A' as nat <= letter <= 'Z' as nat
    ensures d >= 2 && FirstLetter(d) <= letter < FirstLetter(d) + LetterCount(d)
  {
    FirstLetters();
    if letter < 68 then 2 else if letter < 71 then 3 else if letter < 74 then 4 else if letter < 77 then 5
    else if letter < 80 then 6 else if letter < 84 then 7 else if letter < 87 then 8 else 9
  }

  /** How many taps after the first bring a letter up. */
  function TapsAfterFirst(letter: nat, lower: bool): nat
    requires 'A' as nat <= letter <= 'Z' as nat
  {
    letter - FirstLetter(KeyOf(letter)) + if lower then LetterCount(KeyOf(letter)) else 0
  }

  /** Every letter of the alphabet, in either case, is typed by its place on its key. */
  lemma LetterTyped(l: Line, letter: nat, lower: bool, gaps: seq<nat>, n: nat)
    requires 'A' as nat <= letter <= 'Z' as nat
    requires l.Valid(n) && OpenOnAnother(l, KeyOf(letter)) && Settled(l).cursor < n
    requires |gaps| == TapsAfterFirst(letter, lower) && forall i :: 0 <= i < |gaps| ==> gaps[i] < 60
    ensures var (t, cursor) := (Settled(l).text, Settled(l).cursor);
            var ch: byte := if lower then letter + 32 else letter;
            && Written(l, Taps(KeyOf(letter), gaps), n).text == Truncated(t[..cursor] + [ch] + t[cursor..], n)
            && Written(l, Taps(KeyOf(letter), gaps), n).cursor == cursor
  {
    var d := KeyOf(letter);
    KeyTypes(d);
    assert TapsAfterFirst(letter, lower) == letter - FirstLetter(d) + if lower then LetterCount(d) else 0;
    MultiTap(l, d, gaps, n);
    Bits.SmallMod(|gaps|, |Table(d)|);
    assert (Table(d)[|gaps|] as int) == if lower then letter + 32 else letter;
  }
}
