/** The typewriter renderer: starting it clears the response element and
    marks the container as typing; every interval tick then appends the next
    character, and the first tick that finds the text exhausted stops the
    timer and removes the typing mark. */
module Typewriter {

  class Typewriter {
    /** The text being revealed. */
    const text: string
    /** The index of the next character to reveal. */
    var i: nat
    /** The response element's text content. */
    var shown: string
    /** Whether the container carries the `typing` class. */
    var typing: bool
    /** Whether the interval timer is still set. */
    var running: bool
    /** How many times the timer has fired. */
    ghost var ticks: nat

    /** While the timer runs, `ticks` characters have been revealed; once it
        is cleared, the whole text is shown and one more tick was spent. */
    ghost predicate Valid()
      reads this
    {
      && i <= |text|
      && shown == text[..i]
      && typing == running
      && (running ==> ticks == i)
      && (!running ==> i == |text| && ticks == |text| + 1)
    }

    /** `typewriterEffect(element, text)`: clear the element, add `typing`, start the timer. */
    constructor (text: string)
      ensures Valid()
      ensures this.text == text && shown == [] && typing && running && ticks == 0
    {
      this.text := text;
      i := 0;
      shown := [];
      typing := true;
      running := true;
      ticks := 0;
    }

    /** One firing of the interval callback. */
    method Tick()
      requires Valid() && running
      modifies this
      ensures Valid() && ticks == old(ticks) + 1
      ensures old(i) < |text| ==> running && shown == old(shown) + [text[old(i)]]
      ensures old(i) == |text| ==> !running && !typing && shown == old(shown) == text
      ensures ticks <= |text| ==> shown == text[..ticks]
      ensures |shown| <= |text|
    {
      if i < |text| {
        shown := shown + [text[i]];
        i := i + 1;
      } else {
        running := false;
        typing := false;
      }
      ticks := ticks + 1;
    }
  }

  /** A whole render, from the call until the timer clears itself: the
      timer fires `|text| + 1` times, the element ends up holding exactly
      the text, and the `typing` mark is gone. */
  method Render(text: string) returns (shown: string, ticks: nat, typing: bool)
    ensures shown == text && ticks == |text| + 1 && !typing
  {
    var t := new Typewriter(text);
    ticks := 0;
    while t.running
      invariant t.Valid() && t.text == text && t.ticks == ticks
      decreases |text| + 1 - ticks
    {
      t.Tick();
      ticks := ticks + 1;
    }
    shown, typing := t.shown, t.typing;
  }
}
