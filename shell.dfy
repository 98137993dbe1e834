/**
 * The line editor and command dispatcher: the key handler the terminal
 * page registers on its widget. It keeps the characters typed since the
 * last Enter in a buffer and, on Enter, trims the buffer, dispatches it
 * and writes the result.
 *
 * React is the handler's meaning for one key event, as a function of the
 * buffer; Run folds it over a sequence of events. The Shell class is the
 * handler itself, with the buffer it updates in place and the widget it
 * writes to, and its OnKey is proved to do what React says.
 */
module Shell {
  import opened Text
  import opened Commands
  import opened Terminal

  const EnterCode: int := 13
  const BackspaceCode: int := 8

  /**
   * A key event from the widget: the text the key produces (an escape
   * sequence for keys such as the arrows), the DOM key code and the
   * modifier flags.
   */
  datatype KeyEvent = KeyEvent(key: string, keyCode: int, altKey: bool, ctrlKey: bool, metaKey: bool)

  /** No Alt, Ctrl or Meta held. Only consulted for keys other than Enter and Backspace. */
  predicate Printable(e: KeyEvent) {
    !e.altKey && !e.ctrlKey && !e.metaKey
  }

  /** The buffer after an event and what the handler wrote to the widget, in order. */
  datatype Reaction = Reaction(buffer: string, output: seq<Action>)

  /**
   * Enter: a line break, then the dispatched command's effect; the buffer
   * is reset and the prompt written, except after `exit`, which returns
   * before either and so leaves the buffer untouched.
   */
  function Submit(buffer: string): Reaction {
    match Dispatch(Trim(buffer))
    case Skip => Reaction("", [WroteLine(""), Wrote(Prompt)])
    case Respond(text) => Reaction("", [WroteLine(""), WroteLine(text), Wrote(Prompt)])
    case ClearDisplay => Reaction("", [WroteLine(""), Cleared, Wrote(Prompt)])
    case Exit => Reaction(buffer, [WroteLine(""), WroteLine(Farewell)])
    case NotFound(command) => Reaction("", [WroteLine(""), WroteLine(NotFoundMessage(command)), Wrote(Prompt)])
  }

  /** One key event. Enter and Backspace are recognised by key code alone, whatever modifiers are held. */
  function React(buffer: string, e: KeyEvent): Reaction {
    if e.keyCode == EnterCode then Submit(buffer)
    else if e.keyCode == BackspaceCode then
      if |buffer| > 0 then Reaction(buffer[..|buffer| - 1], [Wrote(Erase)]) else Reaction(buffer, [])
    else if Printable(e) then Reaction(buffer + e.key, [Wrote(e.key)])
    else Reaction(buffer, [])
  }

  /** A sequence of key events, handled one after the other. */
  function Run(buffer: string, events: seq<KeyEvent>): Reaction
    decreases |events|
  {
    if events == [] then Reaction(buffer, [])
    else
      var first := React(buffer, events[0]);
      var rest := Run(first.buffer, events[1..]);
      Reaction(rest.buffer, first.output + rest.output)
  }

  /** The key handler registered on the widget, with the buffer it closes over. */
  class Shell {
    var commandBuffer: string
    const term: Term

    /** Sets up the handler: an empty buffer, the two greeting lines and the first prompt. */
    constructor(term: Term)
      modifies term
      ensures this.term == term && commandBuffer == ""
      ensures term.log == old(term.log) + [WroteLine(Greeting), WroteLine(HelpHint), Wrote(Prompt)]
    {
      this.term := term;
      commandBuffer := "";
      new;
      term.WriteLn(Greeting);
      term.WriteLn(HelpHint);
      term.Write(Prompt);
    }

    /** Handles one key event: the buffer and the widget change exactly as React says. */
    method OnKey(e: KeyEvent)
      modifies this, term
      ensures commandBuffer == React(old(commandBuffer), e).buffer
      ensures term.log == old(term.log) + React(old(commandBuffer), e).output
    {
      if e.keyCode == EnterCode {
        term.WriteLn("");
        var command := Trim(commandBuffer);
        if command != "" {
          if command in Table {
            assert Dispatch(command) == Respond(Table[command]);
            term.WriteLn(Table[command]);
          } else if command == ClearCommand {
            assert Dispatch(command) == ClearDisplay;
            term.Clear();
          } else if command == ExitCommand {
            assert Dispatch(command) == Exit;
            term.WriteLn(Farewell);
            return;
          } else {
            assert Dispatch(command) == NotFound(command);
            term.WriteLn(NotFoundMessage(command));
          }
        }
        commandBuffer := "";
        term.Write(Prompt);
      } else if e.keyCode == BackspaceCode {
        if |commandBuffer| > 0 {
          commandBuffer := commandBuffer[..|commandBuffer| - 1];
          term.Write(Erase);
        }
      } else if Printable(e) {
        commandBuffer := commandBuffer + e.key;
        term.Write(e.key);
      }
    }
  }
}
