/** The speech bubble's typewriter (src/components/SpeechBubble.jsx). The
    props are `message`, `isVisible` and the identity of the
    `onTypingComplete` callback; React reruns the effect when one of the
    three differs from the previous render. The interval of the running
    effect is `timerOn` with its counter `i`; each of its ticks is one call
    of `Tick`. */
module Bubble {
  import opened Wrappers

  class SpeechBubble {
    var message: string
    var isVisible: bool
    var onTypingComplete: nat
    /** False until the first render. */
    var mounted: bool

    var displayText: string
    var isTyping: bool
    var timerOn: bool
    var i: nat
    /** Calls of `onTypingComplete` made by the current run of the effect. */
    var completions: nat

    ghost predicate Valid()
      reads this
    {
      i <= |message|
      && (timerOn <==> isTyping)
      && (timerOn ==> isVisible && message != [] && displayText == message[..i] && completions == 0)
      && completions <= 1
      && (completions == 1 ==> !timerOn && displayText == message && i == |message|)
      && (!isVisible || message == [] ==> !timerOn && displayText == [] && completions == 0)
      && (isVisible && message != [] ==> timerOn || completions == 1)
    }

    constructor ()
      ensures Valid() && !mounted && !timerOn && displayText == [] && onTypingComplete == 0
    {
      message, isVisible, onTypingComplete, mounted := [], false, 0, false;
      displayText, isTyping, timerOn, i, completions := [], false, false, 0, 0;
    }

    /** Cleanup of the previous run (`clearInterval`) followed by the effect
        body: a hidden or empty bubble is blanked, otherwise a reveal starts
        from the empty string. */
    method RunEffect()
      modifies this`displayText, this`isTyping, this`timerOn, this`i, this`completions
      ensures Valid() && i == 0
      ensures !isVisible || message == [] ==> displayText == [] && !isTyping && !timerOn && completions == 0
      ensures isVisible && message != [] ==> displayText == [] && isTyping && timerOn && i == 0 && completions == 0
    {
      timerOn, i := false, 0;
      completions := 0;
      if !isVisible || message == [] {
        displayText := [];
        isTyping := false;
        return;
      }
      isTyping := true;
      displayText := [];
      i := 0;
      timerOn := true;
    }

    /** A render with the given props: the effect reruns exactly when a
        dependency changed (or on the first render). */
    method Render(m: string, v: bool, onComplete: nat)
      requires Valid()
      modifies this
      ensures Valid()
      ensures message == m && isVisible == v && onTypingComplete == onComplete && mounted
      ensures old(mounted) && old(message) == m && old(isVisible) == v && old(onTypingComplete) == onComplete ==>
                displayText == old(displayText) && isTyping == old(isTyping)
                && i == old(i) && completions == old(completions)
      ensures !(old(mounted) && old(message) == m && old(isVisible) == v && old(onTypingComplete) == onComplete) ==>
                displayText == [] && completions == 0 && i == 0 && isTyping == (v && m != [])
    {
      if mounted && message == m && isVisible == v && onTypingComplete == onComplete {
        return;
      }
      message, isVisible, onTypingComplete, mounted := m, v, onComplete, true;
      RunEffect();
    }

    /** One firing of the 50 ms interval: append the next character, or,
        once every character is shown, stop the interval, clear `isTyping`
        and call `onTypingComplete`. Without a running interval nothing
        fires. */
    method Tick()
      requires Valid()
      modifies this`displayText, this`isTyping, this`timerOn, this`i, this`completions
      ensures Valid()
      ensures !old(timerOn) ==> unchanged(this)
      ensures old(timerOn) && old(i) < |message| ==>
                timerOn && i == old(i) + 1 && displayText == old(displayText) + [message[old(i)]]
                && completions == 0
      ensures old(timerOn) && old(i) == |message| ==>
                !timerOn && !isTyping && displayText == message && completions == 1
    {
      if !timerOn {
        return;
      }
      if i < |message| {
        displayText := displayText + [message[i]];
        i := i + 1;
      } else {
        timerOn := false;
        isTyping := false;
        completions := completions + 1;
      }
    }

    /** Lets the interval fire until it clears itself: `|message| - i`
        appending ticks and one completing tick, after which the whole text
        is shown and `onTypingComplete` has been called once. */
    method TypeOut() returns (ticks: nat)
      requires Valid() && timerOn
      modifies this`displayText, this`isTyping, this`timerOn, this`i, this`completions
      ensures Valid() && !timerOn && !isTyping
      ensures displayText == message && completions == 1
      ensures ticks == |message| - old(i) + 1
    {
      ticks := 0;
      while timerOn
        invariant Valid()
        invariant timerOn ==> ticks == i - old(i)
        invariant !timerOn ==> ticks == |message| - old(i) + 1 && completions == 1
        decreases |message| - i + (if timerOn then 1 else 0)
      {
        Tick();
        ticks := ticks + 1;
      }
    }

    /** Unmounting runs the effect's cleanup: the interval is cleared and
        never fires again. */
    method Unmount()
      requires Valid()
      modifies this`timerOn
      ensures !timerOn
    {
      timerOn := false;
    }

    /** What the component renders: nothing when not visible, otherwise
        the text revealed so far. */
    function Rendered(): (r: Option<string>)
      reads this
      requires Valid()
      ensures r == None <==> !isVisible
      ensures r.Some? ==> r.value == displayText && r.value <= message
    {
      if !isVisible then None else Some(displayText)
    }
  }

  /** `message.charAt(k)`: the k-th character, or "" past the end. */
  function CharAt(s: string, k: nat): string {
    if k < |s| then [s[k]] else []
  }

  /** The text shown after `k` appending ticks when React runs each queued
      updater `(prev) => prev + message.charAt(i)` only after the interval
      callback's `i++`: tick number j (from 0) appends `charAt(j + 1)`. */
  function ShownAfterLateRead(message: string, k: nat): string
    decreases k
  {
    if k == 0 then [] else ShownAfterLateRead(message, k - 1) + CharAt(message, k)
  }

  /** With the late read, the first character is never shown: after `k`
      ticks the bubble holds characters 1 to k of the message. */
  lemma {:induction false} LateReadDropsFirst(message: string, k: nat)
    requires 0 < k <= |message|
    ensures ShownAfterLateRead(message, k) == message[1..if k < |message| then k + 1 else |message|]
  {
    if k > 1 {
      LateReadDropsFirst(message, k - 1);
      assert ShownAfterLateRead(message, k - 1) == message[1..k];
      if k < |message| {
        assert message[1..k] + [message[k]] == message[1..k + 1];
      }
    }
  }

  /** The reveal as the interval callback is written, when each updater is
      applied after the callback returns: the counter is already
      incremented when the character is read. The interval still stops
      after `|message|` appending ticks and calls `onTypingComplete` once,
      but the text on screen then lacks the first character. */
  method TypeOutAsWritten(message: string) returns (displayText: string, completions: nat)
    ensures displayText == (if message == [] then [] else message[1..])
    ensures completions == 1
  {
    var i := 0;
    displayText := [];
    while i < |message|
      invariant i <= |message|
      invariant displayText == ShownAfterLateRead(message, i)
    {
      i := i + 1;
      displayText := displayText + CharAt(message, i);
    }
    completions := 1;
    if message != [] {
      LateReadDropsFirst(message, |message|);
    }
  }

  /** The reply "Hi" ends as "i" when the updaters read the counter late,
      and no non-empty message is ever shown whole. */
  lemma LateReadShowsHiAsI(message: string)
    requires message != []
    ensures ShownAfterLateRead(message, |message|) != message
    ensures ShownAfterLateRead("Hi", 2) == "i"
  {
    LateReadDropsFirst(message, |message|);
    LateReadDropsFirst("Hi", 2);
  }
}
