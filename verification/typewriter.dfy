/**
 * The typewriter headline (`src/components/TypewriterText.tsx`): it types the
 * current phrase one character at a time, pauses on the full phrase, deletes it
 * one character at a time, and moves on to the next phrase, cyclically. The body
 * of the effect is a pure transition on the component state; the timers only
 * decide when a transition fires, and are kept as the delay before each step.
 */
module Typewriter {

  datatype State = State(index: nat, text: string, deleting: bool, paused: bool)

  const Initial := State(0, "", false, false)

  const TypingSpeed := 70
  const DeletingSpeed := 50
  const PauseDuration := 1000

  /** The index names one of the phrases. */
  predicate InRange(phrases: seq<string>, s: State) {
    |phrases| > 0 && s.index < |phrases|
  }

  /** The state the component can be in while showing `phrases`. */
  predicate Valid(phrases: seq<string>, s: State) {
    && InRange(phrases, s)
    && s.text <= phrases[s.index]
    && (s.paused ==> s.text == phrases[s.index] && !s.deleting)
  }

  /** The effect body: what the state becomes once the step fires. */
  function Step(phrases: seq<string>, s: State): (r: State)
    requires InRange(phrases, s)
    ensures InRange(phrases, r)
    ensures s.paused ==> r == s.(paused := false, deleting := true)
    ensures !s.paused && s.deleting && s.text == "" ==>
      r == s.(deleting := false, index := (s.index + 1) % |phrases|)
    ensures !s.paused && s.deleting && s.text != "" ==>
      r == s.(text := s.text[..|s.text| - 1])
    ensures !s.paused && !s.deleting && s.text == phrases[s.index] ==> r == s.(paused := true)
    ensures !s.paused && !s.deleting && s.text != phrases[s.index] ==>
      r.text == Slice(phrases[s.index], |s.text| + 1) && r.index == s.index && !r.deleting && !r.paused
  {
    var phrase := phrases[s.index];
    if s.paused then s.(paused := false, deleting := true)
    else if s.deleting then
      if s.text == "" then s.(deleting := false, index := (s.index + 1) % |phrases|)
      else s.(text := DropLast(s.text))
    else if s.text == phrase then s.(paused := true)
    else s.(text := Slice(phrase, |s.text| + 1))
  }

  /** `prev.slice(0, -1)`: all but the last character. */
  function DropLast(t: string): (r: string)
    requires |t| > 0
    ensures r + [t[|t| - 1]] == t
  {
    t[..|t| - 1]
  }

  /** `phrase.slice(0, n)`: the first `n` characters, or all when there are fewer. */
  function Slice(phrase: string, n: nat): (r: string)
    ensures r <= phrase
    ensures |r| == if n <= |phrase| then n else |phrase|
  {
    if n <= |phrase| then phrase[..n] else phrase
  }

  /** How long the component waits before the step fires: the pause, deleting or
      typing delay, or none for the two immediate transitions. */
  function Delay(phrases: seq<string>, s: State): (d: nat)
    requires InRange(phrases, s)
    ensures d == 0 <==> !s.paused && (if s.deleting then s.text == "" else s.text == phrases[s.index])
  {
    if s.paused then PauseDuration
    else if s.deleting then (if s.text == "" then 0 else DeletingSpeed)
    else if s.text == phrases[s.index] then 0
    else TypingSpeed
  }

  /** `showCursor`: the cursor blinks except during the pause. */
  function ShowCursor(s: State): bool {
    !s.paused
  }

  lemma InitialValid(phrases: seq<string>)
    requires |phrases| > 0
    ensures Valid(phrases, Initial)
  {
  }

  /** Every step keeps the index in range, the text a prefix of the current
      phrase, and a pause only on the complete phrase. */
  lemma StepKeepsValid(phrases: seq<string>, s: State)
    requires Valid(phrases, s)
    ensures Valid(phrases, Step(phrases, s))
  {
    if !s.paused && s.deleting && s.text != "" {
      var t := s.text[..|s.text| - 1];
      assert t <= s.text;
    }
  }

  /** The state after `n` steps. */
  function Run(phrases: seq<string>, s: State, n: nat): (r: State)
    requires InRange(phrases, s)
    ensures InRange(phrases, r)
    decreases n
  {
    if n == 0 then s else Run(phrases, Step(phrases, s), n - 1)
  }

  lemma {:induction false} RunKeepsValid(phrases: seq<string>, s: State, n: nat)
    requires Valid(phrases, s)
    ensures Valid(phrases, Run(phrases, s, n))
    decreases n
  {
    if n > 0 {
      StepKeepsValid(phrases, s);
      RunKeepsValid(phrases, Step(phrases, s), n - 1);
    }
  }

  /** With the cursor hidden, the whole current phrase is on screen. */
  lemma HiddenCursorShowsPhrase(phrases: seq<string>, s: State)
    requires Valid(phrases, s) && !ShowCursor(s)
    ensures s.text == phrases[s.index]
  {
  }

  lemma {:induction false} RunAppend(phrases: seq<string>, s: State, a: nat, b: nat)
    requires InRange(phrases, s)
    ensures Run(phrases, s, a + b) == Run(phrases, Run(phrases, s, a), b)
    decreases a
  {
    if a > 0 {
      RunAppend(phrases, Step(phrases, s), a - 1, b);
    }
  }

  /** Typing: from `k` characters of the phrase, each step adds the next one. */
  lemma {:induction false} TypeUp(phrases: seq<string>, i: nat, k: nat)
    requires |phrases| > 0 && i < |phrases| && k <= |phrases[i]|
    ensures Valid(phrases, State(i, phrases[i][..k], false, false))
    ensures Run(phrases, State(i, phrases[i][..k], false, false), |phrases[i]| - k)
         == State(i, phrases[i], false, false)
    decreases |phrases[i]| - k
  {
    var s := State(i, phrases[i][..k], false, false);
    if k < |phrases[i]| {
      assert Step(phrases, s) == State(i, phrases[i][..k + 1], false, false);
      TypeUp(phrases, i, k + 1);
    } else {
      assert phrases[i][..k] == phrases[i];
    }
  }

  /** Deleting: from `k` characters of the phrase, each step removes the last one. */
  lemma {:induction false} DeleteDown(phrases: seq<string>, i: nat, k: nat)
    requires |phrases| > 0 && i < |phrases| && k <= |phrases[i]|
    ensures Valid(phrases, State(i, phrases[i][..k], true, false))
    ensures Run(phrases, State(i, phrases[i][..k], true, false), k) == State(i, "", true, false)
    decreases k
  {
    var s := State(i, phrases[i][..k], true, false);
    if k > 0 {
      assert Step(phrases, s) == State(i, phrases[i][..k - 1], true, false);
      DeleteDown(phrases, i, k - 1);
    }
  }

  /** One full cycle: from the empty text of phrase `i`, the component types the
      phrase, pauses, deletes it and arrives at the empty text of the next phrase
      (the first after the last) in exactly `2 * |phrase| + 3` steps. */
  lemma Cycle(phrases: seq<string>, i: nat)
    requires |phrases| > 0 && i < |phrases|
    ensures var s := State(i, "", false, false);
      Valid(phrases, s)
      && Run(phrases, s, 2 * |phrases[i]| + 3) == State((i + 1) % |phrases|, "", false, false)
  {
    var p := phrases[i];
    var start := State(i, "", false, false);
    assert p[..0] == "" && p[..|p|] == p;
    TypeUp(phrases, i, 0);
    PauseAndDelete(phrases, i);
    RunAppend(phrases, start, |p|, |p| + 3);
  }

  /** From the full phrase: pause, start deleting, delete every character and
      move on to the next phrase, in `|phrase| + 3` steps. */
  lemma PauseAndDelete(phrases: seq<string>, i: nat)
    requires |phrases| > 0 && i < |phrases|
    ensures Run(phrases, State(i, phrases[i], false, false), |phrases[i]| + 3)
         == State((i + 1) % |phrases|, "", false, false)
  {
    var p := phrases[i];
    var n := |p|;
    var full := State(i, p, false, false);
    var deleting := State(i, p, true, false);
    var empty := State(i, "", true, false);
    var next := State((i + 1) % |phrases|, "", false, false);
    assert p[..n] == p;
    DeleteDown(phrases, i, n);
    assert Step(phrases, empty) == next;
    assert Step(phrases, full) == State(i, p, false, true);
    assert Run(phrases, full, 2) == deleting;
    RunAppend(phrases, full, 2, n + 1);
    RunAppend(phrases, deleting, n, 1);
  }
}
