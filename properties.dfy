/**
 * What the key handler promises, stated about React (one event) and Run
 * (a sequence of events).
 */
module ShellProperties {
  import opened Text
  import opened Commands
  import opened Terminal
  import opened Shell

  // ---------------------------------------------------------------------
  // One event
  // ---------------------------------------------------------------------

  /** Backspace removes exactly the last character and erases one column; on an empty buffer it does nothing at all. */
  lemma BackspaceStep(buffer: string, e: KeyEvent)
    requires e.keyCode == BackspaceCode
    ensures var r := React(buffer, e);
      && (buffer == [] ==> r.buffer == [] && r.output == [])
      && (buffer != [] ==> r.buffer + [buffer[|buffer| - 1]] == buffer && r.output == [Wrote(Erase)])
  {
    if buffer != [] {
      assert buffer[..|buffer| - 1] + [buffer[|buffer| - 1]] == buffer;
    }
  }

  /**
   * Any key other than Enter and Backspace: with no modifier held its text
   * is appended to the buffer and echoed verbatim; with Alt, Ctrl or Meta
   * held nothing happens.
   */
  lemma OtherKeyStep(buffer: string, e: KeyEvent)
    requires e.keyCode != EnterCode && e.keyCode != BackspaceCode
    ensures var r := React(buffer, e);
      && (Printable(e) ==> r.buffer[..|buffer|] == buffer && r.buffer[|buffer|..] == e.key && r.output == [Wrote(e.key)])
      && (!Printable(e) ==> r == Reaction(buffer, []))
  {
  }

  /** Enter on a blank buffer dispatches nothing: a line break, a fresh prompt, an empty buffer. */
  lemma BlankEnter(buffer: string, e: KeyEvent)
    requires e.keyCode == EnterCode && AllWhiteSpace(buffer)
    ensures React(buffer, e) == Reaction("", [WroteLine(""), Wrote(Prompt)])
  {
    TrimEmptyIffBlank(buffer);
  }

  /**
   * Enter on a table key, whatever white space surrounds it, writes that
   * key's response, empties the buffer and prompts again.
   */
  lemma KnownCommandEnter(front: string, command: string, back: string, e: KeyEvent)
    requires e.keyCode == EnterCode && command in Table
    requires AllWhiteSpace(front) && AllWhiteSpace(back)
    ensures React(front + command + back, e) == Reaction("", [WroteLine(""), WroteLine(Table[command]), Wrote(Prompt)])
  {
    TableKeysStripped(command);
    TrimOfPadded(front, command, back);
  }

  /**
   * Enter on anything else that is not blank and not a built-in reports
   * the trimmed text as not found, verbatim, then empties the buffer and
   * prompts again.
   */
  lemma UnknownCommandEnter(buffer: string, e: KeyEvent)
    requires e.keyCode == EnterCode
    requires Trim(buffer) != "" && Trim(buffer) !in Table && Trim(buffer) != ClearCommand && Trim(buffer) != ExitCommand
    ensures var r := React(buffer, e);
      && r.buffer == ""
      && |r.output| == 3 && r.output[0] == WroteLine("") && r.output[2] == Wrote(Prompt)
      && r.output[1] == WroteLine(NotFoundMessage(Trim(buffer)))
      && ReportedCommand(r.output[1].text) == Some(Trim(buffer))
  {
    NotFoundRoundTrip(Trim(buffer));
  }

  /** `clear` wipes the display, empties the buffer, and the prompt is all that is shown afterwards. */
  lemma ClearEnter(log: seq<Action>, buffer: string, e: KeyEvent)
    requires e.keyCode == EnterCode && Trim(buffer) == ClearCommand
    ensures var r := React(buffer, e);
      r.buffer == "" && Screen(log + r.output) == [Wrote(Prompt)]
  {
    var r := React(buffer, e);
    assert log + r.output == (log + [WroteLine("")]) + [Cleared] + [Wrote(Prompt)];
    ScreenAfterClear(log + [WroteLine("")], [Wrote(Prompt)]);
  }

  /** `exit` writes the farewell and no prompt, and the buffer keeps its untrimmed text. */
  lemma ExitEnter(buffer: string, e: KeyEvent)
    requires e.keyCode == EnterCode && Trim(buffer) == ExitCommand
    ensures var r := React(buffer, e);
      r.buffer == buffer && r.output == [WroteLine(""), WroteLine(Farewell)] && Wrote(Prompt) !in r.output
  {
    assert ExitCommand !in Table;
  }

  /** Enter always ends with a prompt and an empty buffer, except on `exit`, which ends with neither. */
  lemma EnterPromptsUnlessExit(buffer: string, e: KeyEvent)
    requires e.keyCode == EnterCode
    ensures var r := React(buffer, e);
      && (r.buffer == (if Trim(buffer) == ExitCommand then buffer else ""))
      && (Wrote(Prompt) in r.output <==> Trim(buffer) != ExitCommand)
      && (Trim(buffer) != ExitCommand ==> r.output[|r.output| - 1] == Wrote(Prompt))
  {
    assert ExitCommand !in Table;
    assert Prompt != Farewell;
  }

  /** Enter and Backspace are told by key code alone: the key text and the modifiers make no difference. */
  lemma KeyCodeDecides(buffer: string, e: KeyEvent, f: KeyEvent)
    requires e.keyCode == f.keyCode
    requires e.keyCode == EnterCode || e.keyCode == BackspaceCode
    ensures React(buffer, e) == React(buffer, f)
  {
  }

  // ---------------------------------------------------------------------
  // Sequences of events
  // ---------------------------------------------------------------------

  /** Handling two runs of events one after the other is handling their concatenation. */
  lemma {:induction false} RunAppend(buffer: string, first: seq<KeyEvent>, second: seq<KeyEvent>)
    ensures var a := Run(buffer, first); var b := Run(a.buffer, second);
      Run(buffer, first + second) == Reaction(b.buffer, a.output + b.output)
    decreases |first|
  {
    if first == [] {
      assert first + second == second;
    } else {
      var step := React(buffer, first[0]);
      var tail := Run(step.buffer, first[1..]);
      var whole := first + second;
      assert whole[0] == first[0] && whole[1..] == first[1..] + second;
      RunAppend(step.buffer, first[1..], second);
      var rest := Run(tail.buffer, second);
      assert Run(buffer, whole) == Reaction(rest.buffer, step.output + (tail.output + rest.output));
      assert step.output + (tail.output + rest.output) == (step.output + tail.output) + rest.output;
    }
  }

  lemma RunSingle(buffer: string, e: KeyEvent)
    ensures Run(buffer, [e]) == React(buffer, e)
  {
    assert [e][1..] == [];
    assert React(buffer, e).output + [] == React(buffer, e).output;
  }

  /** A key that is neither Enter nor Backspace and carries no modifier. */
  predicate PlainKey(e: KeyEvent) {
    e.keyCode != EnterCode && e.keyCode != BackspaceCode && Printable(e)
  }

  /** The texts of a run of keys, one after the other. */
  function KeyTexts(events: seq<KeyEvent>): string {
    if events == [] then "" else events[0].key + KeyTexts(events[1..])
  }

  /** Each key's text echoed on its own. */
  function Echoes(events: seq<KeyEvent>): (out: seq<Action>)
    ensures |out| == |events|
  {
    if events == [] then [] else [Wrote(events[0].key)] + Echoes(events[1..])
  }

  /** Plain keys only append: the buffer gains their texts in order, and each is echoed. */
  lemma {:induction false} TypingAppends(buffer: string, events: seq<KeyEvent>)
    requires forall i :: 0 <= i < |events| ==> PlainKey(events[i])
    ensures Run(buffer, events) == Reaction(buffer + KeyTexts(events), Echoes(events))
    decreases |events|
  {
    if events != [] {
      TypingAppends(buffer + events[0].key, events[1..]);
      assert buffer + events[0].key + KeyTexts(events[1..]) == buffer + KeyTexts(events);
    }
  }

  /** `n` Backspaces with the same modifiers and key text. */
  function Backspaces(n: nat, e: KeyEvent): (events: seq<KeyEvent>)
    requires e.keyCode == BackspaceCode
    ensures |events| == n && forall i :: 0 <= i < n ==> events[i] == e
  {
    if n == 0 then [] else [e] + Backspaces(n - 1, e)
  }

  /** `n` erasures. */
  function Erasures(n: nat): (out: seq<Action>)
    ensures |out| == n && forall i :: 0 <= i < n ==> out[i] == Wrote(Erase)
  {
    if n == 0 then [] else [Wrote(Erase)] + Erasures(n - 1)
  }

  /**
   * `n` Backspaces delete the last `n` characters, one erasure each, and
   * stop quietly once the buffer is empty.
   */
  lemma {:induction false} BackspacesTruncate(buffer: string, n: nat, e: KeyEvent)
    requires e.keyCode == BackspaceCode
    ensures var deleted := if n <= |buffer| then n else |buffer|;
      Run(buffer, Backspaces(n, e)) == Reaction(buffer[..|buffer| - deleted], Erasures(deleted))
  {
    if n > 0 {
      var events := Backspaces(n, e);
      assert events[1..] == Backspaces(n - 1, e);
      if buffer == [] {
        BackspacesTruncate(buffer, n - 1, e);
      } else {
        var shorter := buffer[..|buffer| - 1];
        BackspacesTruncate(shorter, n - 1, e);
        assert shorter[..|shorter| - (if n - 1 <= |shorter| then n - 1 else |shorter|)]
            == buffer[..|buffer| - (if n <= |buffer| then n else |buffer|)];
        assert [Wrote(Erase)] + Erasures(if n - 1 <= |shorter| then n - 1 else |shorter|)
            == Erasures(if n <= |buffer| then n else |buffer|);
      }
    }
  }

  /** Typing some plain keys and then as many Backspaces as characters typed gives back the buffer as it was. */
  lemma TypeThenErase(buffer: string, events: seq<KeyEvent>, e: KeyEvent)
    requires forall i :: 0 <= i < |events| ==> PlainKey(events[i])
    requires e.keyCode == BackspaceCode
    ensures Run(buffer, events + Backspaces(|KeyTexts(events)|, e)).buffer == buffer
  {
    RunAppend(buffer, events, Backspaces(|KeyTexts(events)|, e));
    TypingAppends(buffer, events);
    BackspacesTruncate(buffer + KeyTexts(events), |KeyTexts(events)|, e);
    assert (buffer + KeyTexts(events))[..|buffer|] == buffer;
  }

  /** `n` presses of Enter with the same modifiers and key text. */
  function Enters(n: nat, e: KeyEvent): (events: seq<KeyEvent>)
    requires e.keyCode == EnterCode
    ensures |events| == n && forall i :: 0 <= i < n ==> events[i] == e
  {
    if n == 0 then [] else [e] + Enters(n - 1, e)
  }

  /** `n` farewells, each after its line break. */
  function Farewells(n: nat): (out: seq<Action>)
    ensures |out| == 2 * n
    ensures forall a :: a in out ==> a == WroteLine("") || a == WroteLine(Farewell)
  {
    if n == 0 then [] else [WroteLine(""), WroteLine(Farewell)] + Farewells(n - 1)
  }

  /**
   * Nothing halts after `exit`: the buffer still holds it, so every further
   * Enter says farewell again, and no prompt ever comes back until the
   * buffer is edited.
   */
  lemma {:induction false} ExitRepeats(buffer: string, n: nat, e: KeyEvent)
    requires e.keyCode == EnterCode && Trim(buffer) == ExitCommand
    ensures Run(buffer, Enters(n, e)) == Reaction(buffer, Farewells(n))
    ensures Wrote(Prompt) !in Farewells(n)
  {
    if n > 0 {
      assert Enters(n, e)[1..] == Enters(n - 1, e);
      ExitEnter(buffer, e);
      ExitRepeats(buffer, n - 1, e);
    }
  }

  // ---------------------------------------------------------------------
  // Worked sessions
  // ---------------------------------------------------------------------

  /** From an empty buffer, typing g, i, t, two Backspaces, i, t leaves "git" in the buffer. */
  lemma TypoLine(buffer: string, g: KeyEvent, i: KeyEvent, t: KeyEvent, delete: KeyEvent)
    requires buffer == ""
    requires PlainKey(g) && PlainKey(i) && PlainKey(t) && g.key == "g" && i.key == "i" && t.key == "t"
    requires delete.keyCode == BackspaceCode
    ensures Run(buffer, [g, i, t, delete, delete, i, t])
         == Reaction("git", [Wrote("g"), Wrote("i"), Wrote("t"), Wrote(Erase), Wrote(Erase), Wrote("i"), Wrote("t")])
  {
    var typed, deleted, retyped := [g, i, t], [delete, delete], [i, t];
    assert [g, i, t, delete, delete, i, t] == typed + deleted + retyped;
    var first := Run(buffer, typed);
    assert first == Reaction("git", [Wrote("g"), Wrote("i"), Wrote("t")]) by {
      assert typed[1..] == [i, t] && [i, t][1..] == [t] && [t][1..] == [];
      assert KeyTexts([t]) == "t" + KeyTexts([]) == "t";
      assert KeyTexts([i, t]) == "i" + KeyTexts([t]) == "it";
      assert KeyTexts(typed) == "g" + KeyTexts([i, t]) == "git";
      assert Echoes([i, t]) == [Wrote("i")] + Echoes([t]) == [Wrote("i"), Wrote("t")];
      TypingAppends(buffer, typed);
    }
    var second := Run(first.buffer, deleted);
    assert second == Reaction("g", [Wrote(Erase), Wrote(Erase)]) by {
      assert Backspaces(2, delete) == deleted;
      BackspacesTruncate(first.buffer, 2, delete);
    }
    var third := Run(second.buffer, retyped);
    assert third == Reaction("git", [Wrote("i"), Wrote("t")]) by {
      assert retyped[1..] == [t] && [t][1..] == [];
      assert KeyTexts(retyped) == "i" + KeyTexts([t]) == "it";
      TypingAppends(second.buffer, retyped);
    }
    RunAppend(buffer, typed, deleted);
    RunAppend(buffer, typed + deleted, retyped);
  }

  /** Enter on a stripped line that is neither a table key nor a built-in reports exactly that line as not found. */
  lemma NotFoundEnter(buffer: string, enter: KeyEvent)
    requires enter.keyCode == EnterCode && Stripped(buffer)
    requires buffer != "" && buffer !in Table && buffer != ClearCommand && buffer != ExitCommand
    ensures React(buffer, enter) == Reaction("", [WroteLine(""), WroteLine(NotFoundMessage(buffer)), Wrote(Prompt)])
  {
    TrimOfStripped(buffer);
  }

  /**
   * ... and Enter then reports "git" as not found: a table key must match
   * whole, "git" alone is not one.
   */
  lemma TypoSession(buffer: string, g: KeyEvent, i: KeyEvent, t: KeyEvent, delete: KeyEvent, enter: KeyEvent)
    requires buffer == ""
    requires PlainKey(g) && PlainKey(i) && PlainKey(t) && g.key == "g" && i.key == "i" && t.key == "t"
    requires delete.keyCode == BackspaceCode && enter.keyCode == EnterCode
    ensures Run(buffer, [g, i, t, delete, delete, i, t, enter]) == Reaction("", [
      Wrote("g"), Wrote("i"), Wrote("t"), Wrote(Erase), Wrote(Erase), Wrote("i"), Wrote("t"),
      WroteLine(""), WroteLine(NotFoundMessage("git")), Wrote(Prompt)])
  {
    var line := [g, i, t, delete, delete, i, t];
    assert [g, i, t, delete, delete, i, t, enter] == line + [enter];
    TypoLine(buffer, g, i, t, delete);
    var typed := Run(buffer, line).buffer;
    NotFoundEnter(typed, enter);
    RunSingle(typed, enter);
    RunAppend(buffer, line, [enter]);
  }

  /**
   * Nothing halts after `exit`: keys typed afterwards are appended to the
   * untouched buffer, so the next Enter dispatches `exit` followed by
   * whatever was typed.
   */
  lemma TypingAfterExit(buffer: string, enter: KeyEvent, keys: seq<KeyEvent>)
    requires enter.keyCode == EnterCode && Trim(buffer) == ExitCommand
    requires forall i :: 0 <= i < |keys| ==> PlainKey(keys[i])
    ensures Run(buffer, [enter] + keys) == Reaction(buffer + KeyTexts(keys), [WroteLine(""), WroteLine(Farewell)] + Echoes(keys))
  {
    ExitEnter(buffer, enter);
    TypingAppends(buffer, keys);
    assert ([enter] + keys)[0] == enter && ([enter] + keys)[1..] == keys;
  }

  /**
   * So `exit`, Enter, `help`, Enter says farewell, echoes `help` onto the
   * kept buffer, and then reports "exithelp" as not found.
   */
  lemma ExitThenHelp(buffer: string, enter: KeyEvent, keys: seq<KeyEvent>)
    requires enter.keyCode == EnterCode && Trim(buffer) == ExitCommand
    requires forall i :: 0 <= i < |keys| ==> PlainKey(keys[i])
    requires buffer + KeyTexts(keys) == "exithelp"
    ensures Run(buffer, [enter] + keys + [enter]) == Reaction("",
      [WroteLine(""), WroteLine(Farewell)] + Echoes(keys)
      + [WroteLine(""), WroteLine(NotFoundMessage("exithelp")), Wrote(Prompt)])
  {
    TypingAfterExit(buffer, enter, keys);
    var mid := Run(buffer, [enter] + keys);
    NotFoundEnter(mid.buffer, enter);
    RunSingle(mid.buffer, enter);
    RunAppend(buffer, [enter] + keys, [enter]);
  }
}
