/**
 * The command table of the fake cloud terminal and the fixed messages the
 * line editor writes: an immutable map from the exact command text to the
 * canned response its zero-argument producer returns.
 */
module Commands {
  import opened Text

  datatype Option<T> = None | Some(value: T)

  /*
   * The canned multi-line responses are opaque constants here: each stands
   * for the literal text its producer returns, which nothing depends on.
   */
  const HelpText: string := "<help: command reference>"
  const ConfigListText: string := "<gcloud config list: account, project, region, zone>"
  const ProjectsListText: string := "<gcloud projects list: project table>"
  const InstancesListText: string := "<gcloud compute instances list: instance table>"
  const DockerPsText: string := "<docker ps: running containers>"
  const DockerImagesText: string := "<docker images: image table>"
  const GitStatusText: string := "<git status: working tree state>"
  /** What `download` returns once it has started the browser download. */
  const DownloadNotice: string := "جاري تحميل محتوى المحاكي..."

  /** The command table: exactly these eight own keys. */
  const Table: map<string, string> := map[
    "help" := HelpText,
    "gcloud config list" := ConfigListText,
    "gcloud projects list" := ProjectsListText,
    "gcloud compute instances list" := InstancesListText,
    "docker ps" := DockerPsText,
    "docker images" := DockerImagesText,
    "git status" := GitStatusText,
    "download" := DownloadNotice
  ]

  /** The two commands the line editor handles itself, outside the table. */
  const ClearCommand: string := "clear"
  const ExitCommand: string := "exit"

  const Prompt: string := "$ "
  /** Back one column, overwrite with a blank, back again. */
  const Erase: string := "\U{0008} \U{0008}"
  const Farewell: string := "شكراً لاستخدام المحاكي!"
  const Greeting: string := "مرحباً بك في محاكي الأوامر السحابية 🚀"
  const HelpHint: string := "اكتب help للمساعدة\n"

  const NotFoundPrefix: string := "خطأ: الأمر '"
  const NotFoundSuffix: string := "' غير موجود"

  /** The error line for a command that is neither in the table nor built in. */
  function NotFoundMessage(command: string): string {
    NotFoundPrefix + command + NotFoundSuffix
  }

  /** Reads the command back out of an error line; None for any other text. */
  function ReportedCommand(line: string): (c: Option<string>)
    ensures c.Some? ==> |c.value| + |NotFoundPrefix| + |NotFoundSuffix| == |line|
  {
    var p, q := |NotFoundPrefix|, |NotFoundSuffix|;
    if p + q <= |line| && line[..p] == NotFoundPrefix && line[|line| - q..] == NotFoundSuffix
    then Some(line[p..|line| - q])
    else None
  }

  /** The error line carries the command verbatim: reading it back gives exactly the command typed. */
  lemma NotFoundRoundTrip(command: string)
    ensures ReportedCommand(NotFoundMessage(command)) == Some(command)
  {
    var line := NotFoundMessage(command);
    var p := |NotFoundPrefix|;
    assert line[..p] == NotFoundPrefix;
    assert line[|line| - |NotFoundSuffix|..] == NotFoundSuffix;
    assert line[p..|line| - |NotFoundSuffix|] == command;
  }

  /** Conversely, only an error line reads back: whatever yields a command is that command's error line. */
  lemma ReportedCommandOnlyFromMessage(line: string)
    ensures ReportedCommand(line).Some? ==> line == NotFoundMessage(ReportedCommand(line).value)
  {
    var p, q := |NotFoundPrefix|, |NotFoundSuffix|;
    if ReportedCommand(line).Some? {
      assert line == line[..p] + line[p..|line| - q] + line[|line| - q..];
    }
  }

  lemma NotFoundMessageInjective(a: string, b: string)
    ensures NotFoundMessage(a) == NotFoundMessage(b) ==> a == b
  {
    NotFoundRoundTrip(a);
    NotFoundRoundTrip(b);
  }

  /** What the Enter handler decides to do with a trimmed command. */
  datatype Outcome =
    | Skip                       // blank line: nothing dispatched
    | Respond(text: string)      // a table key: its producer's text
    | ClearDisplay               // the built-in `clear`
    | Exit                       // the built-in `exit`
    | NotFound(command: string)  // anything else

  /** The Enter handler's decision, in the order the handler decides: emptiness, the table, `clear`, `exit`. */
  function Dispatch(command: string): Outcome {
    if command == "" then Skip
    else if command in Table then Respond(Table[command])
    else if command == ClearCommand then ClearDisplay
    else if command == ExitCommand then Exit
    else NotFound(command)
  }

  /** The same decision with `clear` and `exit` tested before the table. */
  function DispatchBuiltinsFirst(command: string): Outcome {
    if command == "" then Skip
    else if command == ClearCommand then ClearDisplay
    else if command == ExitCommand then Exit
    else if command in Table then Respond(Table[command])
    else NotFound(command)
  }

  /** Neither built-in is a table key, so the order of the tests does not matter. */
  lemma DispatchOrderIrrelevant(command: string)
    ensures Dispatch(command) == DispatchBuiltinsFirst(command)
  {
    assert ClearCommand !in Table && ExitCommand !in Table;
  }

  /** No table key is empty or has white space at either end. */
  lemma TableKeysStripped(key: string)
    requires key in Table
    ensures key != "" && Stripped(key)
  {
  }

  /**
   * Every table key is reachable from the prompt: trimming a typed key
   * leaves it intact, and dispatching it gives its response.
   */
  lemma TableKeysReachable(key: string)
    requires key in Table
    ensures Trim(key) == key && Dispatch(Trim(key)) == Respond(Table[key])
  {
    TableKeysStripped(key);
    TrimOfStripped(key);
  }
}
