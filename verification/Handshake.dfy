/** Recognising the programming handshake in the serial stream. */
module Handshake {
  import opened Bytes

  const HANDSHAKE: seq<byte> :=
    [0x50, 0x52, 0x4F, 0x47, 0x52, 0x41, 0x4D, 0x42, 0x46, 0x2D, 0x4B, 0x36, 0x41, 0x55, 0x52, 0x41]

  predicate EndsWith(s: seq<byte>, p: seq<byte>) {
    |p| <= |s| && s[|s| - |p|..] == p
  }

  /** The first character never recurs, so no proper beginning of the word is also an ending of one. */
  predicate FirstCharacterUnique(word: seq<byte>) {
    word != [] && forall i :: 0 < i < |word| ==> word[i] != word[0]
  }

  predicate Spells(word: seq<byte>, text: string) {
    |word| == |text| && forall i :: 0 <= i < |text| ==> (word[i] as int) == text[i] as int
  }

  lemma HandshakeIsSuitable()
    ensures Spells(HANDSHAKE, "PROGRAMBF-K6AURA") && FirstCharacterUnique(HANDSHAKE)
  {
  }

  /** `m` is the longest proper beginning of the word that `seen` ends with. */
  ghost predicate Tracks(word: seq<byte>, seen: seq<byte>, m: nat) {
    && m < |word|
    && EndsWith(seen, word[..m])
    && forall k :: m < k < |word| ==> !EndsWith(seen, word[..k])
  }

  /** A stream that tracks `m` ends with no other nonempty beginning of the word. */
  lemma OnlyOneMatch(word: seq<byte>, seen: seq<byte>, m: nat, j: nat)
    requires FirstCharacterUnique(word) && Tracks(word, seen, m)
    requires 0 < j < |word| && EndsWith(seen, word[..j])
    ensures j == m
  {
    if j < m {
      OverlapRepeatsFirst(word, seen, m, j);
    }
  }

  lemma OverlapRepeatsFirst(word: seq<byte>, seen: seq<byte>, m: nat, j: nat)
    requires 0 < j < m <= |word| && EndsWith(seen, word[..m]) && EndsWith(seen, word[..j])
    ensures word[m - j] == word[0]
  {
  }

  lemma EndsWithOneMore(word: seq<byte>, seen: seq<byte>, b: byte, k: nat)
    requires 0 < k <= |word|
    ensures EndsWith(seen + [b], word[..k]) <==> EndsWith(seen, word[..k - 1]) && b == word[k - 1]
  {
    var n := |seen|;
    if k <= n + 1 {
      assert (seen + [b])[n + 1 - k..] == seen[n + 1 - k..] + [b];
      assert word[..k] == word[..k - 1] + [word[k - 1]];
      if seen[n + 1 - k..] + [b] == word[..k] {
        assert (seen[n + 1 - k..] + [b])[..k - 1] == word[..k][..k - 1];
        assert (seen[n + 1 - k..] + [b])[k - 1] == word[..k][k - 1];
      }
    }
  }

  /** The detector's counter after one more byte. */
  function NextMatched(word: seq<byte>, m: nat, b: byte): nat
    requires m < |word|
  {
    if b == word[m] then (if m + 1 == |word| then 0 else m + 1)
    else if b == word[0] then 1 else 0
  }

  /** Falling back to the first character alone loses nothing. */
  lemma TrackOneMore(word: seq<byte>, seen: seq<byte>, m: nat, b: byte)
    requires FirstCharacterUnique(word) && |word| > 1 && Tracks(word, seen, m)
    ensures Tracks(word, seen + [b], NextMatched(word, m, b))
    ensures EndsWith(seen + [b], word) <==> m + 1 == |word| && b == word[m]
  {
    assert word[..|word|] == word;
    forall k | 0 < k <= |word|
      ensures EndsWith(seen + [b], word[..k]) <==> (k == m + 1 || k == 1) && b == word[k - 1]
    {
      EndsWithOneMore(word, seen, b, k);
      if k > 1 && EndsWith(seen, word[..k - 1]) {
        OnlyOneMatch(word, seen, m, k - 1);
      }
      assert EndsWith(seen, word[..0]);
    }
  }

  function MatchedAfter(word: seq<byte>, s: seq<byte>): (m: nat)
    requires |word| > 1
    ensures m < |word|
    decreases |s|
  {
    if s == [] then 0 else NextMatched(word, MatchedAfter(word, s[..|s| - 1]), s[|s| - 1])
  }

  /** Over every stream: the counter completes at a byte exactly when the stream then ends with the word. */
  lemma {:induction false} DetectorIsExact(word: seq<byte>, s: seq<byte>)
    requires FirstCharacterUnique(word) && |word| > 1
    ensures Tracks(word, s, MatchedAfter(word, s))
    ensures s != [] ==>
              var m := MatchedAfter(word, s[..|s| - 1]);
              (m + 1 == |word| && s[|s| - 1] == word[m] <==> EndsWith(s, word))
    decreases |s|
  {
    if s != [] {
      var init := s[..|s| - 1];
      DetectorIsExact(word, init);
      TrackOneMore(word, init, MatchedAfter(word, init), s[|s| - 1]);
      assert init + [s[|s| - 1]] == s;
    }
  }

  /** No point of `s` after its first `n` bytes completes the word. */
  ghost predicate Quiet(word: seq<byte>, n: nat, s: seq<byte>) {
    forall k :: n < k <= |s| ==> !EndsWith(s[..k], word)
  }

  lemma QuietExtends(word: seq<byte>, n: nat, s: seq<byte>, b: byte)
    requires Quiet(word, n, s) && !EndsWith(s + [b], word)
    ensures Quiet(word, n, s + [b])
  {
    forall k | n < k <= |s + [b]|
      ensures !EndsWith((s + [b])[..k], word)
    {
      if k <= |s| {
        assert (s + [b])[..k] == s[..k];
      } else {
        assert (s + [b])[..k] == s + [b];
      }
    }
  }

  /** The bytes waiting in the UART's receive ring, oldest first. */
  class RxRing {
    var waiting: seq<byte>

    constructor (bytes: seq<byte>)
      ensures waiting == bytes
    {
      waiting := bytes;
    }

    method TakeByte() returns (b: Option<byte>)
      modifies this
      ensures b == if old(waiting) == [] then None else Some(old(waiting)[0])
      ensures waiting == if old(waiting) == [] then [] else old(waiting)[1..]
    {
      if waiting == [] {
        return None;
      }
      b := Some(waiting[0]);
      waiting := waiting[1..];
    }
  }

  lemma Regroup(s: seq<byte>, b: byte, rest: seq<byte>)
    ensures (s + [b]) + rest == s + ([b] + rest)
  {
  }

  class HandshakeDetector {
    const word: seq<byte>
    var matched: nat
    /** Every byte drained so far, over all polls. */
    ghost var seen: seq<byte>

    ghost predicate Valid()
      reads this
    {
      FirstCharacterUnique(word) && |word| > 1 && Tracks(word, seen, matched)
    }

    constructor ()
      ensures Valid() && word == HANDSHAKE && seen == []
    {
      HandshakeIsSuitable();
      word := HANDSHAKE;
      matched, seen := 0, [];
    }

    /**
     * Drains the ring up to the first byte that completes the handshake, and reports whether
     * there was one. How the stream was cut into polls plays no part.
     */
    method Poll(ring: RxRing) returns (found: bool)
      requires Valid()
      modifies this, ring
      ensures Valid() && old(seen) <= seen
      ensures seen + ring.waiting == old(seen) + old(ring.waiting)
      ensures !found ==> ring.waiting == [] && Quiet(word, |old(seen)|, seen)
      ensures found ==> |seen| > |old(seen)| && EndsWith(seen, word) && Quiet(word, |old(seen)|, seen[..|seen| - 1])
    {
      ghost var start, total := seen, seen + ring.waiting;
      found := false;
      var more := true;
      while more && !found
        invariant Valid() && start <= seen && seen + ring.waiting == total
        invariant !more ==> ring.waiting == [] && !found
        invariant !found ==> Quiet(word, |start|, seen)
        invariant found ==> |seen| > |start| && EndsWith(seen, word) && Quiet(word, |start|, seen[..|seen| - 1])
        decreases more, |ring.waiting|
      {
        more, found := PollByte(ring, start);
      }
    }

    /** Takes the next byte, if there is one, and steps on it. */
    method PollByte(ring: RxRing, ghost start: seq<byte>) returns (more: bool, found: bool)
      requires Valid() && start <= seen && Quiet(word, |start|, seen)
      modifies this, ring
      ensures Valid() && start <= seen && seen + ring.waiting == old(seen) + old(ring.waiting)
      ensures more ==> |ring.waiting| < |old(ring.waiting)|
      ensures !more ==> ring.waiting == [] && !found
      ensures !found ==> Quiet(word, |start|, seen)
      ensures found ==> |seen| > |start| && EndsWith(seen, word) && Quiet(word, |start|, seen[..|seen| - 1])
    {
      var next := ring.TakeByte();
      if next == None {
        return false, false;
      }
      Regroup(seen, next.value, ring.waiting);
      found := Step(next.value, |start|);
      more := true;
    }

    /** The loop body on one byte; nothing was found since the first `n`. */
    method Step(b: byte, ghost n: nat) returns (found: bool)
      requires Valid() && Quiet(word, n, seen)
      modifies this
      ensures Valid() && seen == old(seen) + [b]
      ensures found ==> EndsWith(seen, word) && Quiet(word, n, seen[..|seen| - 1])
      ensures !found ==> Quiet(word, n, seen)
    {
      ghost var before := seen;
      TrackOneMore(word, before, matched, b);
      seen := before + [b];
      assert seen[..|seen| - 1] == before;
      if b == word[matched] {
        matched := matched + 1;
        if matched == |word| {
          matched := 0;
          return true;
        }
      } else {
        matched := if b == word[0] then 1 else 0;
      }
      QuietExtends(word, n, before, b);
      return false;
    }
  }
}
