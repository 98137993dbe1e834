/**
 * The terminal widget as the line editor sees it: an object it can write
 * text to, write a line to, and clear. Its rendering is opaque; what is
 * kept is the log of calls made on it, in order.
 */
module Terminal {

  datatype Action =
    | Wrote(text: string)      // `write`: the text as is
    | WroteLine(text: string)  // `writeln`: the text followed by a line break
    | Cleared                  // `clear`: the display is wiped

  /**
   * What the display still shows: the actions logged after the last clear
   * (all of them if there was none).
   */
  function Screen(log: seq<Action>): (shown: seq<Action>)
    ensures |shown| <= |log| && shown == log[|log| - |shown|..]
    ensures Cleared !in shown
    ensures |shown| < |log| ==> log[|log| - |shown| - 1] == Cleared
  {
    if log == [] then []
    else if log[|log| - 1] == Cleared then []
    else Screen(log[..|log| - 1]) + [log[|log| - 1]]
  }

  /** A clear hides everything logged before it. */
  lemma ScreenAfterClear(before: seq<Action>, after: seq<Action>)
    requires Cleared !in after
    ensures Screen(before + [Cleared] + after) == after
  {
    var log := before + [Cleared] + after;
    var shown := Screen(log);
    var k := |before| + 1;
    assert log[k - 1] == Cleared;
    assert forall j :: k <= j < |log| ==> log[j] == after[j - k];
    // the display starts right after a clear, and holds none: so right after this one
    assert |shown| == |after|;
  }

  /** Writing without clearing adds to what the display shows. */
  lemma {:induction false} ScreenExtends(log: seq<Action>, more: seq<Action>)
    requires Cleared !in more
    ensures Screen(log + more) == Screen(log) + more
  {
    if more == [] {
      assert log + more == log;
    } else {
      var init, last := more[..|more| - 1], more[|more| - 1];
      assert more == init + [last];
      assert (log + more)[..|log + more| - 1] == log + init;
      ScreenExtends(log, init);
    }
  }

  class Term {
    /** Every call made on the widget so far. */
    var log: seq<Action>

    constructor()
      ensures log == []
    {
      log := [];
    }

    method Write(text: string)
      modifies this
      ensures log == old(log) + [Wrote(text)]
    {
      log := log + [Wrote(text)];
    }

    method WriteLn(text: string)
      modifies this
      ensures log == old(log) + [WroteLine(text)]
    {
      log := log + [WroteLine(text)];
    }

    method Clear()
      modifies this
      ensures log == old(log) + [Cleared]
      ensures Screen(log) == []
    {
      log := log + [Cleared];
    }
  }
}
