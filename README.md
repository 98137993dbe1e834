# Fake cloud terminal: line editor and command dispatcher

The page shows a terminal widget that pretends to be a cloud/DevOps shell.
Its only logic is in `src/App.tsx`: a fixed table from exact command texts
to canned responses, and one key handler that edits a line buffer and, on
Enter, dispatches the trimmed line. This project models those two pieces
and proves what the handler does for each kind of key event and over
sequences of events.

- `text.dfy` (module `Text`): `String.prototype.trim` as the handler uses
  it. `IsWhiteSpace` is the ECMAScript WhiteSpace and LineTerminator set.
  `TrimStart`, `TrimEnd` and `Trim` are plain recursive functions. The
  lemmas characterise them: what `Trim` returns, that this is the only
  possible answer, idempotence, and when the result is empty.
- `commands.dfy` (module `Commands`): the command table `Table` as a
  `map<string, string>` with exactly its eight own keys. Also the fixed
  messages (prompt, erase sequence, farewell, greeting, not-found line).
  `Dispatch` is the handler's decision for a trimmed command, with its
  tests in the code's order: empty, table, `clear`, `exit`, otherwise
  not found.
- `terminal.dfy` (module `Terminal`): the widget as a `Term` object with
  a log of the `write`, `writeln` and `clear` calls made on it. `Screen`
  is what the display still shows, meaning everything since the last
  clear.
- `shell.dfy` (module `Shell`): `KeyEvent` carries the key text, the DOM
  key code and the Alt/Ctrl/Meta flags. `React(buffer, e)` is the
  handler's effect for one event: the new buffer and the widget calls,
  in order. `Run` folds `React` over a sequence of events. The `Shell`
  class is the handler itself. `commandBuffer` is updated in place and
  `term` is the widget. `OnKey` is written in the same step-by-step way as
  the source and is proved to change the buffer and the log exactly as
  `React` says.
- `properties.dfy` (module `ShellProperties`): lemmas about `React`, one
  per kind of event, and lemmas about `Run` for sequences of events.

Behaviour the model keeps from the code:
- Enter (key code 13) and Backspace (key code 8) are recognised by key
  code before the modifiers are looked at. So a modifier-held Enter still
  dispatches, and a modifier-held Backspace still deletes. Only other keys
  need Alt, Ctrl and Meta all clear.
- `exit` returns before the buffer reset and the prompt. The buffer keeps
  its untrimmed text and no prompt is written.
- The handler stays registered after `exit`. Every later Enter says
  farewell again until the buffer is edited, and keys typed after `exit`
  are appended to the old buffer. Reading `exit` as a halt that makes the
  session inert does not match the code, and the model follows the code.
- The table is consulted before `clear` and `exit`, whereas a description
  that handles the built-ins first is equally natural. Neither built-in is a
  table key, so both orders give the same result (`DispatchOrderIrrelevant`).

## Model

| member | source | states |
|---|---|---|
| Text.IsWhiteSpace | src/App.tsx:148 | the characters `trim` removes: ECMAScript's WhiteSpace set (TAB, VT, FF, ZWNBSP and the Zs category) and its LineTerminator set (LF, CR, LS, PS); the `Trim` lemmas below depend on exactly this set |
| Text.Trim | src/App.tsx:148 | the trimmed command; `TrimSpec` and `TrimOfPadded` pin it down in both directions: it is the one stripped infix with only white space around it, and `TrimEmptyIffBlank` says when it is empty |
| Text.TrimStartSpec | src/App.tsx:148 | the leading-white-space half of `trim`: the result is the suffix of the input starting at its first non-white-space character, and everything dropped is white space |
| Text.TrimEndSpec | src/App.tsx:148 | the trailing half: the result is the prefix ending at the last non-white-space character, and everything dropped is white space |
| Text.TrimSpec | src/App.tsx:148 | the trimmed command has no white space at either end and is the infix of the buffer between its leading and its trailing white space |
| Text.TrimOfPadded | src/App.tsx:148 | converse: any stripped string with any white space around it trims to exactly that string, so the trimmed command is unique |
| Text.TrimOfStripped | src/App.tsx:148 | a string with no white space at either end is left unchanged by `trim` |
| Text.TrimIdempotent | src/App.tsx:148 | trimming twice gives the same as trimming once |
| Text.TrimEmptyIffBlank | src/App.tsx:148-150 | the trimmed command is empty exactly when the buffer is all white space, which is when dispatch is skipped |
| Commands.Table | src/App.tsx:7-107 | the command table as its eight own keys, each mapped to its producer's text; `TableKeysStripped` and `TableKeysReachable` show every key can be typed and dispatched |
| Commands.NotFoundMessage | src/App.tsx:159 | the error line for an unknown command; `NotFoundRoundTrip`, `ReportedCommandOnlyFromMessage` and `NotFoundMessageInjective` show it carries the command verbatim and nothing else |
| Commands.Dispatch | src/App.tsx:150-160 | the decision for a trimmed command, tested in the code's order (empty, table, `clear`, `exit`, otherwise not found); `DispatchOrderIrrelevant` shows the order of the last three tests does not matter |
| Commands.ReportedCommand | src/App.tsx:159 | reading a command back out of a not-found line: only a line with the message's fixed prefix and suffix yields one, of the matching length |
| Commands.NotFoundRoundTrip | src/App.tsx:159 | the not-found line carries the command verbatim: reading it back gives exactly the command |
| Commands.ReportedCommandOnlyFromMessage | src/App.tsx:159 | converse of the round trip: any line from which a command reads back is exactly that command's not-found line |
| Commands.NotFoundMessageInjective | src/App.tsx:159 | different commands give different not-found lines |
| Commands.DispatchOrderIrrelevant | src/App.tsx:150-160 | handling `clear` and `exit` before the table gives the same decision as the code's table-first order |
| Commands.TableKeysStripped | src/App.tsx:7-107 | no table key is empty or starts or ends with white space |
| Commands.TableKeysReachable | src/App.tsx:148-152 | every table key survives trimming and dispatches to its own response |
| Terminal.Screen | src/App.tsx:154 | what the display shows: the calls logged since the last `clear` (all of them if none), containing no clear, and preceded by one when it is not the whole log |
| Terminal.ScreenAfterClear | src/App.tsx:154 | after a `clear`, only what is written afterwards is shown |
| Terminal.ScreenExtends | src/App.tsx:147-172 | writing without clearing adds exactly the written calls to what is shown |
| Terminal.Term.Write | src/App.tsx:164 | `write` appends one text to the widget's log and changes nothing else |
| Terminal.Term.WriteLn | src/App.tsx:147 | `writeln` appends one line to the widget's log and changes nothing else |
| Terminal.Term.Clear | src/App.tsx:154 | `clear` is logged and leaves nothing shown |
| Shell.Printable | src/App.tsx:144 | the `printable` test: no Alt, Ctrl or Meta held; `OtherKeyStep` shows it decides between echoing and ignoring a key |
| Shell.Submit | src/App.tsx:146-164 | what Enter does with the buffer; `BlankEnter`, `KnownCommandEnter`, `UnknownCommandEnter`, `ClearEnter`, `ExitEnter` and `EnterPromptsUnlessExit` state its result for every outcome of dispatch |
| Shell.React | src/App.tsx:143-174 | the handler's effect for one key event as the new buffer and the widget calls in order; `Shell.OnKey` is proved to do exactly this, and the step lemmas below describe each branch |
| Shell.Run | src/App.tsx:137-174 | the same handler applied to each event of a sequence in turn, the buffer carried from one to the next; `RunAppend` shows splitting a sequence changes nothing |
| Shell.Shell.constructor | src/App.tsx:137-141 | the handler starts with an empty buffer after writing the two greeting lines and the first prompt |
| Shell.Shell.OnKey | src/App.tsx:143-174 | one key event updates the buffer in place and writes to the widget exactly as `React` prescribes, covering every branch including the early return on `exit` |
| ShellProperties.BackspaceStep | src/App.tsx:165-169 | Backspace on a non-empty buffer removes exactly its last character and writes the erase sequence once; on an empty buffer it changes nothing and writes nothing |
| ShellProperties.OtherKeyStep | src/App.tsx:170-173 | any other key with Alt, Ctrl and Meta clear (the `printable` test of line 144) is appended to the buffer and echoed verbatim; with any of them held, neither the buffer nor the output changes |
| ShellProperties.BlankEnter | src/App.tsx:146-164 | Enter on an all-white-space buffer writes only a line break and the prompt, and leaves the buffer empty |
| ShellProperties.KnownCommandEnter | src/App.tsx:148-164 | Enter on a table key, with any white space around it, writes that key's response, resets the buffer and prompts again |
| ShellProperties.UnknownCommandEnter | src/App.tsx:158-164 | Enter on a non-blank trimmed command that is not a table key, `clear` or `exit` writes the not-found line of the trimmed command, from which exactly that command reads back, then resets the buffer and prompts |
| ShellProperties.NotFoundEnter | src/App.tsx:158-164 | on a line without surrounding white space that is no table key and no built-in, Enter writes the not-found line for that very line |
| ShellProperties.ClearEnter | src/App.tsx:153-164 | `clear` resets the buffer, and whatever was shown before, the display afterwards shows only the prompt |
| ShellProperties.ExitEnter | src/App.tsx:155-157 | `exit` writes a line break and the farewell, writes no prompt, and leaves the buffer as it was, untrimmed |
| ShellProperties.EnterPromptsUnlessExit | src/App.tsx:146-164 | Enter ends with the prompt and an empty buffer if and only if the trimmed command is not `exit` |
| ShellProperties.KeyCodeDecides | src/App.tsx:146-165 | Enter and Backspace are told apart by key code alone: key text and modifiers make no difference to them |
| ShellProperties.RunAppend | src/App.tsx:143-174 | handling two runs of events one after the other is the same as handling their concatenation, because the buffer is the handler's only state |
| ShellProperties.TypingAppends | src/App.tsx:170-173 | a run of unmodified keys appends their texts to the buffer in order and echoes each |
| ShellProperties.BackspacesTruncate | src/App.tsx:165-169 | n Backspaces delete the last n characters with one erase each, and stop quietly at the empty buffer |
| ShellProperties.TypeThenErase | src/App.tsx:165-173 | typing some keys and then one Backspace per character typed restores the buffer |
| ShellProperties.ExitRepeats | src/App.tsx:155-157 | after `exit` nothing halts: every further Enter writes the farewell again, the buffer stays as it was, and no prompt is ever written |
| ShellProperties.TypingAfterExit | src/App.tsx:155-173 | keys typed after `exit` are appended to the untouched buffer that still holds `exit` |
| ShellProperties.ExitThenHelp | src/App.tsx:146-173 | the session `exit`, Enter, `help`, Enter: the first Enter says farewell and keeps the buffer, the typed keys are echoed onto it, and the second Enter reports "exithelp" as not found, resets the buffer and prompts |
| ShellProperties.TypoLine | src/App.tsx:165-173 | typing g, i, t, two Backspaces, i, t into an empty buffer leaves "git" and echoes/erases in that order |
| ShellProperties.TypoSession | src/App.tsx:146-173 | and the following Enter reports "git" as not found (exact match only, no prefix match), resets the buffer and prompts |

## Left out

- React rendering, the `useEffect` lifecycle, `term.dispose()`, the widget's construction, theme and add-ons (src/App.tsx:109-135, 180-195): UI and library calls with no logic of this program in them.
- The resize listener and `fitAddon.fit()` (src/App.tsx:176-178): layout only, unrelated to dispatch.
- `download`'s side effects (src/App.tsx:95-104: Blob, object URL, anchor element, click): browser I/O. The model keeps only its confirmation string as the table value. As written, line 95 reads `terminalInstance`, which is declared inside `App` at line 111 and is not in scope in the module-level table. The model does not reproduce what that reference would do. If the code runs as written, dispatching `download` throws at line 95, after the line break of line 147: no response is written, the buffer keeps `download`, and no prompt follows.
- ShellProperties.KnownCommandEnter: for the key `download` it states the response, the reset and the prompt, as if line 95 referred to the widget in scope; the throw described above is not modelled.
- The canned multi-line responses (src/App.tsx:8-92) are opaque placeholder constants. Nothing in the handler depends on their text. The short fixed messages (prompt, erase, farewell, greeting, not-found line, download notice) are exact.
- Lookup by `commands[command]` on a plain object would also find inherited keys such as `toString`. The table is modelled as exactly its own eight keys.
- Strings are sequences of Unicode scalar values, while JavaScript strings are UTF-16 code units. With a character outside the Basic Multilingual Plane as the last one typed, `slice(0, -1)` removes half a surrogate pair, whereas the model removes the whole character. The white-space set of `trim` lies entirely in the Basic Multilingual Plane and is exact.
- The widget's rendering is not modelled. `writeln` is logged as a line rather than as the text plus CR LF, and `clear` as a single log entry. `Screen` treats a clear as hiding everything before it. The widget's own clear keeps the cursor row, and the model does not capture which row that is or what it still shows.
