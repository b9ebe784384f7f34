/** The typewriter reveal of components/AIResponse.tsx: when the response
    (or the limited mode) changes, the limited text is shown one more
    character on each interval tick, and typing ends on the tick after the
    whole text is shown. */
module Typewriter {
  import opened Strings
  import opened ResponseText

  /** The successive values of `displayed` from counter `i` on, one per
      tick: a prefix one character longer each time, then the whole text
      once more on the tick that ends the reveal. */
  function Frames(limited: string, i: nat): (r: seq<string>)
    requires i <= |limited|
    ensures |r| == |limited| - i + 1
    decreases |limited| - i
  {
    if i == |limited| then [limited]
    else [limited[..i + 1]] + Frames(limited, i + 1)
  }

  /** Every shown value is a prefix of the text, one character longer than the
      one before, until the whole text; there is one tick per remaining
      character and one more that ends the reveal. */
  lemma {:induction false} FramesArePrefixes(limited: string, i: nat)
    requires i <= |limited|
    ensures |Frames(limited, i)| == |limited| - i + 1
    ensures forall k :: 0 <= k < |Frames(limited, i)| ==>
      Frames(limited, i)[k] == limited[..Min(i + k + 1, |limited|)]
    ensures Frames(limited, i)[|limited| - i] == limited
    decreases |limited| - i
  {
    if i < |limited| {
      FramesArePrefixes(limited, i + 1);
      var rest := Frames(limited, i + 1);
      assert Frames(limited, i) == [limited[..i + 1]] + rest;
      forall k | 0 <= k < |Frames(limited, i)|
        ensures Frames(limited, i)[k] == limited[..Min(i + k + 1, |limited|)]
      {
        if k > 0 {
          assert Frames(limited, i)[k] == rest[k - 1];
        }
      }
    } else {
      assert limited[..|limited|] == limited;
    }
  }

  /** The component's reveal state: the limited text, the `displayed` and
      `typing` React state, the counter `i` of the effect, and whether its
      interval is still set. */
  class Reveal {
    var limited: string
    var displayed: string
    var typing: bool
    var i: nat
    var running: bool

    ghost predicate Valid()
      reads this
    {
      && i <= |limited|
      && (running ==> typing && displayed == limited[..i])
      && (!running ==> !typing && displayed == limited)
    }

    /** The initial state: nothing shown, not typing. */
    constructor()
      ensures Valid()
      ensures limited == "" && displayed == "" && !typing && !running
    {
      limited := "";
      displayed := "";
      typing := false;
      i := 0;
      running := false;
    }

    /** The effect run for a new response: an empty limited text shows
        nothing and starts no reveal; any other starts it from nothing. */
    method Start(response: string, limitToOneParagraph: bool)
      modifies this
      ensures Valid()
      ensures limited == LimitedResponse(response, limitToOneParagraph)
      ensures displayed == "" && i == 0
      ensures running == typing == (limited != "")
    {
      limited := LimitedResponse(response, limitToOneParagraph);
      i := 0;
      if limited == "" {
        displayed := "";
        typing := false;
        running := false;
      } else {
        displayed := "";
        typing := true;
        running := true;
      }
    }

    /** One interval tick: past the end it stops the interval and typing and
        shows the whole text; otherwise it shows one more character. */
    method Tick()
      requires Valid()
      modifies this
      ensures Valid()
      ensures limited == old(limited)
      ensures !old(running) ==> displayed == old(displayed) && i == old(i) && !running
      ensures old(running) && old(i) < |limited| ==>
        running && i == old(i) + 1 && displayed == limited[..i]
      ensures old(running) && old(i) == |limited| ==>
        !running && !typing && i == old(i) && displayed == limited
    {
      if running {
        if i >= |limited| {
          running := false;
          typing := false;
          displayed := limited;
        } else {
          i := i + 1;
          displayed := limited[..i];
        }
      }
    }

    /** Ticks until the reveal ends, returning every value shown: exactly the
        frames from the counter the reveal had reached. */
    method RunToEnd() returns (shown: seq<string>)
      requires Valid()
      modifies this
      ensures Valid() && !running && !typing
      ensures limited == old(limited) && displayed == limited
      ensures old(running) ==> shown == Frames(limited, old(i)) && i == |limited|
      ensures !old(running) ==> shown == [] && i == old(i)
    {
      shown := [];
      if !running {
        return;
      }
      ghost var start := i;
      while running
        invariant Valid()
        invariant limited == old(limited)
        invariant start <= i <= |limited|
        invariant running ==> shown + Frames(limited, i) == Frames(limited, start)
        invariant !running ==> shown == Frames(limited, start) && i == |limited|
        decreases |limited| - i + (if running then 1 else 0)
      {
        ghost var before := i;
        Tick();
        shown := shown + [displayed];
        if running {
          assert Frames(limited, before) == [limited[..i]] + Frames(limited, i);
        } else {
          assert Frames(limited, before) == [limited];
        }
      }
    }
  }
}
