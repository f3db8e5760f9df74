# Bundler run-on-save: a Dafny model

Bundler2012 is a Visual Studio package. When a `.less`, `.css`, `.js`, `.sass`,
`.coffee` or bundle file of a project is saved, added or renamed, it runs the
`bundler` command script of that project. It then turns the script's
standard-error lines into Output-window lines or Task List items. This project
models the logic of `src/Bundler2012/BundlerRunOnSavePackage.cs` in five
modules:

- `ErrorParsing` models `ProcessErrorString`:
  - it removes ANSI colour sequences (`ESC [ digits m`) from a line;
  - it matches the line against `ParseError: <message> in <path> on line <n>, column ...`;
  - it returns the cleaned line together with the message, the path and the line number.

  `HandleErrorData` models the `ErrorDataReceived` handler, which makes a
  parsed line a task item only when its file exists.
- `FileTypes` models `CheckFilenameExtension` and `DetermineFileType`. They
  classify a file name by its suffix, trying Less, Css, Js and Other in that
  order.
- `CommandSelection` models the decision inside `RunBundler(ProjectItem)`:
  - whether a project item runs a command script at all;
  - if it does, which one: `bundler-less.cmd`, `bundler-css.cmd`, `bundler-js.cmd`, or the generic `bundler.cmd`.
- `Scheduler` models `RunBundler(string)` and the `Exited` handler of the
  processes it starts, as written. It keeps the dictionary from a command's
  full name to its `BundlerProcessInfo` record (Running, Queued, Process).
  It also models the first Output-window line of `RunBundler(string)`, because
  that line can throw before the dictionary is touched.
  - The pure step functions `Trigger` and `Exit` specify the transitions.
  - The class `BundlerScheduler` holds the dictionary in a `map` field that
    its methods update in place.
  - A started process is named by its index in the log of started processes
    (`launches`). `alive` is the set of indices of processes that have not
    exited yet.
- `CorrectedScheduler` models the run bookkeeping as its fields evidently
  intend it. It proves that this version has at most one process per
  command and loses no trigger. See "## Findings".

`Strings` holds the ordinal `StartsWith`, `EndsWith` and `IndexOf` of .NET
strings, and `uint.Parse` restricted to ASCII digits. It also holds the rule
by which `String.Format` with no arguments accepts a format string: every
brace must be doubled. `Wrappers` holds the
`Option` type, which stands for a reference that may be null.

In three places the code does not do what its names and comments suggest. The
model follows the code:

- A malformed line number (for example `on line abc`) is caught inside
  `ProcessErrorString`. Text and path have already been assigned by then, so
  they keep their values, and the line number stays 0 (lines 369-377). The
  line can therefore still become a task item, at line 0, although the
  number could not be read.
- The comment at line 210 says the files must be in the `bundler` folder.
  The code at line 215 does the opposite: it skips an item when any of its
  files lies under that folder.
- The fields Running, Queued and Process suggest that a command runs once at
  a time, with saves during a run coalesced into one rerun. The code never
  sets Running, and it clears Process after the rerun has stored its own
  process; see "## Findings".

## Model

| member | source | states |
|---|---|---|
| Strings.IndexOf | src/Bundler2012/BundlerRunOnSavePackage.cs:361-365 | the result is -1 when the delimiter does not occur at or after the start index; otherwise it is the first index at or after the start where the delimiter occurs |
| Strings.ParseUInt | src/Bundler2012/BundlerRunOnSavePackage.cs:371 | a parsed number comes from a non-empty run of ASCII digits and is its decimal value; every run of one to nine digits parses (that the decimal text of every `uint` parses is `ParseFormatRoundTrip`) |
| Strings.ParseFormatRoundTrip | src/Bundler2012/BundlerRunOnSavePackage.cs:371 | `uint.Parse` of the decimal text of any `uint` gives that number back |
| ErrorParsing.Strip | src/Bundler2012/BundlerRunOnSavePackage.cs:351 | the regex replace of `ESC [ \d+ m` by nothing never lengthens the line |
| ErrorParsing.StripUnchangedIff | src/Bundler2012/BundlerRunOnSavePackage.cs:351 | the line is unchanged exactly when it contains no colour sequence |
| ErrorParsing.StripShortensWhenSgr | src/Bundler2012/BundlerRunOnSavePackage.cs:351 | a line that contains a colour sequence gets strictly shorter |
| ErrorParsing.StripKeepsWhenNoSgr | src/Bundler2012/BundlerRunOnSavePackage.cs:351 | a line without a colour sequence is kept as it is |
| ErrorParsing.StripWithoutEscape | src/Bundler2012/BundlerRunOnSavePackage.cs:351 | a line without an ESC character is unchanged |
| ErrorParsing.StripAfterPlainPrefix | src/Bundler2012/BundlerRunOnSavePackage.cs:351 | text without ESC before the rest of a line is kept, in order, ahead of the cleaned rest |
| ErrorParsing.StripDropsSgr | src/Bundler2012/BundlerRunOnSavePackage.cs:351 | a colour sequence at the start of a line is removed completely |
| ErrorParsing.StripIgnoresInsertedSgr | src/Bundler2012/BundlerRunOnSavePackage.cs:351 | inserting a colour sequence after an ESC-free prefix does not change the cleaned line |
| ErrorParsing.ProcessErrorString | src/Bundler2012/BundlerRunOnSavePackage.cs:340-380 | null in gives null out and no fields; otherwise the returned line is the cleaned line, matched or not; path and text are set together; a non-zero line number means a parsed number; a reported exception leaves the line number 0 with path and text set |
| ErrorParsing.MatchTemplate | src/Bundler2012/BundlerRunOnSavePackage.cs:356-372 | the line is always handed back; path and text are set together; when the template does not match, path, line number and text keep null, 0 and null (which lines match, and what they yield, is stated by `MatchIffDelimitersInOrder`, `MatchDiagnosticLine` and `MatchedLineIsDiagnostic`) |
| ErrorParsing.AssignFields | src/Bundler2012/BundlerRunOnSavePackage.cs:369-377 | text and path are set whatever the parse does; the exception is reported exactly when `uint.Parse` rejects the number field, and the line number is then 0, otherwise the field's decimal value |
| ErrorParsing.MatchIffDelimitersInOrder | src/Bundler2012/BundlerRunOnSavePackage.cs:356-367 | the fields are set exactly when the line starts with `ParseError: ` and `in`, `on line`, `, column` follow in order; otherwise all outputs keep their initial values |
| ErrorParsing.MatchDiagnosticLine | src/Bundler2012/BundlerRunOnSavePackage.cs:356-372 | a line built from the template with delimiter-free fields matches and hands those fields back; nothing after `, column ` is inspected |
| ErrorParsing.MatchedLineIsDiagnostic | src/Bundler2012/BundlerRunOnSavePackage.cs:356-372 | the converse of `MatchDiagnosticLine`: every line the template matches is `ParseError: <text> in <path> on line <number>, column <rest>` for the text and path it hands back and some number, with no ` in ` inside the text, no ` on line ` inside the path and no `, column ` inside the number |
| ErrorParsing.ParseWellFormedDiagnostic | src/Bundler2012/BundlerRunOnSavePackage.cs:356-372 | for a well-formed diagnostic line the outputs are exactly its message, its path and its line number, with no exception |
| ErrorParsing.ParseMalformedNumber | src/Bundler2012/BundlerRunOnSavePackage.cs:369-377 | when the number field does not parse, the exception is reported, text and path keep their values and the line number stays 0 |
| ErrorParsing.ParseIgnoresColour | src/Bundler2012/BundlerRunOnSavePackage.cs:351-372 | a colour sequence inserted into a line before its first ESC changes nothing `ProcessErrorString` hands back |
| ErrorParsing.HandleErrorData | src/Bundler2012/BundlerRunOnSavePackage.cs:312-332 | a null line produces nothing; otherwise an optional exception report, then a task item `ERR: <cleaned line>` exactly when the parsed path is non-empty and the file exists, else a plain `ERR: ` line |
| ErrorParsing.Route | src/Bundler2012/BundlerRunOnSavePackage.cs:322-330 | after the parse's exception report, if any, exactly one event: a task item carrying `ERR: <line>`, the text, the path and the line number exactly when the path is non-empty and the file exists, and otherwise the plain `ERR: <line>` line |
| ErrorParsing.ParseLessDiagnostic | src/Bundler2012/BundlerRunOnSavePackage.cs:356-372 | a LESS diagnostic for `C:\proj\style.less` at line 42 yields message, path and line 42 |
| ErrorParsing.RouteMalformedNumber | src/Bundler2012/BundlerRunOnSavePackage.cs:322-330 | a diagnostic whose number field does not parse is reported as an exception, then becomes a task item at line 0 when its file exists and a plain `ERR: ` line when it does not |
| FileTypes.CheckFilenameExtension | src/Bundler2012/BundlerRunOnSavePackage.cs:149-159 | true exactly when some suffix in the list ends the file name |
| FileTypes.DetermineFileType | src/Bundler2012/BundlerRunOnSavePackage.cs:162-180 | the first of Less, Css, Js, Other whose list matches; Unknown exactly when no suffix of any list matches |
| FileTypes.FileTypeIsOrderIndependent | src/Bundler2012/BundlerRunOnSavePackage.cs:56-59 | no file name matches two of the four lists, so a file has a known type exactly when that type's own list matches it |
| CommandSelection.SpecificCommand | src/Bundler2012/BundlerRunOnSavePackage.cs:217-245 | exactly Less, Css and Js have a dedicated script, and it differs from `bundler.cmd` |
| CommandSelection.CommandFor | src/Bundler2012/BundlerRunOnSavePackage.cs:217-250 | the type's own script when the directory has it; otherwise `bundler.cmd` when present; otherwise no command |
| CommandSelection.SelectCommand | src/Bundler2012/BundlerRunOnSavePackage.cs:191-250 | no command for a null item, an item without a project, an Unknown type, a missing `bundler` directory or an item with a file under that directory; otherwise the choice of `CommandFor` |
| CommandSelection.SelectedCommandIsFound | src/Bundler2012/BundlerRunOnSavePackage.cs:217-250 | a chosen command is always the full name found for `bundler.cmd` or for the type's own script |
| CommandSelection.FallbackIsGenericCommand | src/Bundler2012/BundlerRunOnSavePackage.cs:244-250 | a type whose script is missing gets exactly the choice made for Other, which is `bundler.cmd` or nothing |
| CommandSelection.FilesUnderBundlerDirectoryAreIgnored | src/Bundler2012/BundlerRunOnSavePackage.cs:211-215 | an item with a file under the bundler directory runs nothing |
| CommandSelection.LessPrefersItsOwnCommand | src/Bundler2012/BundlerRunOnSavePackage.cs:191-226 | a `.less` item runs `bundler-less.cmd` whenever it belongs to a project whose bundler directory holds that script and none of its files lies under that directory; `bundler.cmd` need not be present |
| Scheduler.Announces | src/Bundler2012/BundlerRunOnSavePackage.cs:262 | whether the "Running bundler" line (`RunningLine`, with the new line `WriteLine` appends) is written without an exception when used as a format string; a definition without a contract of its own, whose meaning `AnnouncesIff` and `OpenBraceThrows` state |
| Scheduler.AnnouncesIff | src/Bundler2012/BundlerRunOnSavePackage.cs:262 | the announcement is written without an exception exactly when every brace in the command's name is doubled, since the text around the name at line 262, and the new line `WriteLine` appends, hold no brace |
| Strings.FormatsWithoutArguments | src/Bundler2012/OutputWindowWriter.cs:29 | acceptance of a format string by `String.Format` with no arguments: every brace is doubled; a definition without a contract of its own, whose properties `BraceFreeFormats`, `FormatsAfterPlainText` and `FormatsBeforePlainText` state |
| Strings.BraceFreeFormats | src/Bundler2012/OutputWindowWriter.cs:29 | text without braces is always accepted as a format string with no arguments |
| Strings.FormatsAfterPlainText | src/Bundler2012/OutputWindowWriter.cs:25-35 | brace-free text in front of a format string does not change whether `String.Format` with no arguments accepts it |
| Strings.FormatsBeforePlainText | src/Bundler2012/OutputWindowWriter.cs:25-35 | brace-free text after a format string, such as the new line `WriteLine` appends, does not change whether it is accepted |
| Scheduler.OpenBraceThrows | src/Bundler2012/BundlerRunOnSavePackage.cs:262 | a name with a single `{` after brace-free text, such as a path through a directory named `{app}`, makes the announcement throw |
| Scheduler.Trigger | src/Bundler2012/BundlerRunOnSavePackage.cs:259-284 | when the announcement throws, nothing changes; otherwise it adds an entry only when absent and keeps every other entry; a Running entry is marked Queued and nothing starts; otherwise one process of the command starts and is stored, with Running untouched |
| Scheduler.Exit | src/Bundler2012/BundlerRunOnSavePackage.cs:295-309 | the exiting process leaves the live set; Queued gives exactly one restart of the same command when its announcement succeeds; the entry ends not running and not queued, with no process unless the restart threw, which skips Process := null |
| Scheduler.TriggerKeepsNeverRunning | src/Bundler2012/BundlerRunOnSavePackage.cs:276-284 | as written, no entry ever becomes Running or Queued, and every trigger whose announcement succeeds starts a process |
| Scheduler.ExitKeepsNeverRunning | src/Bundler2012/BundlerRunOnSavePackage.cs:297-308 | as written, the exit handler never restarts anything |
| Scheduler.OverlappingRuns | src/Bundler2012/BundlerRunOnSavePackage.cs:276-284 | n triggers of one command whose announcement succeeds start n processes of it, all alive at once |
| Scheduler.UnannouncedNeverRuns | src/Bundler2012/BundlerRunOnSavePackage.cs:259-262 | a command whose announcement throws is never started and never gets an entry, however often it is triggered |
| Scheduler.ProcessClearedWhileRunning | src/Bundler2012/BundlerRunOnSavePackage.cs:302-308 | after two triggers and the first exit, the entry holds no process while the second process still runs |
| Scheduler.BundlerScheduler.constructor | src/Bundler2012/BundlerRunOnSavePackage.cs:61 | the dictionary starts empty, with no process started |
| Scheduler.BundlerScheduler.RunBundler | src/Bundler2012/BundlerRunOnSavePackage.cs:259-337 | the new state is `Trigger` of the old one; a process is started exactly when the announcement succeeds and the entry was not Running, and it runs the given command |
| Scheduler.BundlerScheduler.OnExited | src/Bundler2012/BundlerRunOnSavePackage.cs:295-309 | the new state is `Exit` of the old one, including the nested restart |
| Scheduler.BundlerScheduler.RunBundlerForItem | src/Bundler2012/BundlerRunOnSavePackage.cs:189-257 | nothing changes and nothing starts when no command is selected; otherwise the selected command is triggered, and a process starts exactly when its announcement succeeds and it was not Running |
| CorrectedScheduler.TriggerFixed | src/Bundler2012/BundlerRunOnSavePackage.cs:259-284 | as `Trigger`, but a started process also sets Running, and the name goes to the Output window as an argument, so the announcement never throws |
| CorrectedScheduler.ExitFixed | src/Bundler2012/BundlerRunOnSavePackage.cs:295-309 | the entry is cleared before a queued restart, so the restart's process stays recorded as Running |
| CorrectedScheduler.EmptyIsCoherent | src/Bundler2012/BundlerRunOnSavePackage.cs:61 | the empty dictionary satisfies the coherence invariant |
| CorrectedScheduler.TriggerFixedKeepsCoherent | src/Bundler2012/BundlerRunOnSavePackage.cs:276-284 | a trigger preserves: Queued implies Running, Running iff a process is stored, and every live process is the one stored for its command |
| CorrectedScheduler.ExitFixedKeepsCoherent | src/Bundler2012/BundlerRunOnSavePackage.cs:297-308 | the corrected exit handler preserves the same invariant |
| CorrectedScheduler.OneProcessPerCommand | src/Bundler2012/BundlerRunOnSavePackage.cs:276-284 | in a coherent state, two live processes of the same command are the same process |
| CorrectedScheduler.SavesDuringRunCoalesce | src/Bundler2012/BundlerRunOnSavePackage.cs:278-282 | any number of triggers during a run start nothing and leave the single Queued mark |
| CorrectedScheduler.FirstSaveStarts | src/Bundler2012/BundlerRunOnSavePackage.cs:259-284 | in any coherent state, a trigger of a command that is not Running, whatever its name, starts one process, stores it and marks the command Running with nothing queued |
| CorrectedScheduler.BurstStartsOnce | src/Bundler2012/BundlerRunOnSavePackage.cs:276-284 | in any coherent state, n >= 1 triggers of a command that is not Running start exactly one process, and a rerun is pending exactly when n > 1 |
| CorrectedScheduler.PendingRerunStarts | src/Bundler2012/BundlerRunOnSavePackage.cs:297-306 | in any coherent state, when a process exits with a rerun of its command pending, the rerun starts, is recorded as Running with nothing queued, and is the only live process of that command |
| CorrectedScheduler.LastRunEnds | src/Bundler2012/BundlerRunOnSavePackage.cs:297-308 | in any coherent state, when a process exits with nothing pending, its command is idle and no process of it is live |
| CorrectedScheduler.RerunThenIdle | src/Bundler2012/BundlerRunOnSavePackage.cs:297-308 | a pending rerun gives exactly one more launch of the command, and when that rerun exits the command is idle |
| CorrectedScheduler.BurstOfSaves | src/Bundler2012/BundlerRunOnSavePackage.cs:276-308 | in any coherent state, two or more triggers of a command that is not Running give one run at once and exactly one rerun after it exits, after which the command is idle |

## Left out

- Package lifecycle and IDE event wiring (`Initialize`, `Dispose`, `SolutionLoaded` and the saved, added and renamed handlers, lines 71-137) are host plumbing. A trigger enters the model as a call of `RunBundlerForItem`.
- Messages written to the Output window or the debugger ("Document saved", the `OUT:` lines of standard output at line 311) are not modelled as output. Of the "Running bundler" line at line 262 only whether it throws is modelled. The `OUT:` line also uses the data as a format string and throws on a single brace; that fault is not modelled.
- Of `OutputWindowWriter.cs` only `Write` and `WriteLine` (lines 25-35) are modelled, and only whether `String.Format` throws. The pane is assumed to exist, so the early return at line 27 is not modelled. `AddTaskItem` and its line-number adjustment (line 41) are not modelled.
- When the rerun inside the `Exited` handler throws, the exception leaves the handler (line 305) and line 308 is skipped; `Scheduler.Exit` models that. What the runtime then does with an exception that leaves an event handler is not modelled.
- Process creation is abstracted to "a new index in the launch log": the start options (lines 285-293) and the asynchronous stream reading (lines 335-336) are not modelled. In the model every `Process.Start` succeeds. An exception from it would leave the stored Process in place. For a call from `RunBundler(ProjectItem)` the catch at line 252 would swallow it. For the rerun inside the `Exited` handler (line 305) it would leave the handler and skip line 308.
- `EnableRaisingEvents` is never set, so the runtime raises no `Exited` event for these processes. The model runs the handler's code (`OnExited`) when a process exits, which is what that code does whenever the event is raised.
- Locks (lines 266, 276, 297) and concurrency are left out. The model is sequential, so the accesses outside the lock are not modelled as races: the read of Queued (line 302), the write of Queued (line 304) and the write of Process (line 308).
- Filesystem calls are inputs: `File.Exists` is a set of existing paths; `FileInfo`, `GetDirectories` and `GetFiles` are the `BundlerDirectory` value, which holds the full name found for each script name. Case-insensitive file-name matching belongs to that lookup and is not modelled.
- Other exceptions caught in `RunBundler(ProjectItem)` (line 252), such as a project without a file name, are not modelled; the lookups always succeed.
- The `FileNames`/`FileCount` indexing of the item (lines 211-213) is given directly as a sequence of file names.
- `StartsWith` and `EndsWith` with a string argument, and `IndexOf(string, int)` (lines 361, 363, 365), compare with the current culture in .NET. The model compares ordinally.
- The regex `\d` also matches non-ASCII decimal digits; the model's colour sequences use ASCII digits only.
- Strings.ParseUInt: `uint.Parse` also accepts surrounding white space and a leading sign (with the culture's sign symbols); it is modelled on ASCII digits only.
- The exception report (`ToString` and the stack trace) is reduced to one `ExceptionReport` event.
- `Guids.cs` is not part of this model.
- Scheduler.BundlerScheduler: the class models the code as written; the corrected behaviour lives in `CorrectedScheduler` as pure step functions with their proofs, not as a second class.

## Findings

| source | as written | input that shows it | evidently intended | confidence | as-written member | corrected member |
|---|---|---|---|---|---|---|
| src/Bundler2012/BundlerRunOnSavePackage.cs:276-284 | Running is read but never set to true, so every trigger starts another process of the command | saving the same `.less` file twice while the first bundler run is still going: two processes of the same script run at once | set Running when the process is started, so that a save during a run only marks Queued and causes one rerun; this also needs `EnableRaisingEvents` set, since otherwise the `Exited` handler never clears Running and each command would run once and never again | not executed; high | Scheduler.OverlappingRuns | CorrectedScheduler.OneProcessPerCommand |
| src/Bundler2012/BundlerRunOnSavePackage.cs:302-308 | Process is set to null after the queued rerun, so the handle the rerun just stored is lost; as written it is also cleared while another process of the command still runs | with the `Exited` event raised (it is not, as shipped, since `EnableRaisingEvents` is never set): two saves, then the first process exits; the entry holds no process while the second one runs | clear Running and Process first, then start the queued rerun, so the rerun's process stays recorded | not executed; high | Scheduler.ProcessClearedWhileRunning | CorrectedScheduler.ExitFixedKeepsCoherent |
| src/Bundler2012/BundlerRunOnSavePackage.cs:262 | the command's full name is part of the text handed to `WriteLine`, which uses the whole text as the format string of `String.Format`, so a single brace in the name throws `FormatException` before the dictionary is touched; the catch at line 252 swallows it | saving a `.less` file of a project under `C:\src\{app}\`: the command is never run, however often the file is saved | pass the name as an argument (`WriteLine("Running bundler \"{0}\"", name)`), so that every name is announced and run | not executed; high | Scheduler.OpenBraceThrows | CorrectedScheduler.FirstSaveStarts |
