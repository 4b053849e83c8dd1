# boltbrowser command line front end, in Dafny

boltbrowser is a terminal browser and editor for BoltDB database files. Its
program entry point, `cmd/main.go`, does three things before the browser
starts. Package `init` sets the defaults: a one-second database open timeout
and read-only mode off. `parseArgs` then reads the command line. Any argument
that does not start with `-` is a database file name. `-ro` / `-readonly`
switch read-only mode on, `-no-value` hides values in the left pane,
`-timeout=d` sets the open timeout, and `-help` or an unknown option prints
the usage text. `printUsage` writes that text, plus an error message when it
has one, and does not stop the program, so parsing always goes on to the
last argument.

This project models that front end:

- `wrappers.dfy`: module `Wrappers`, the `Option` type that stands for Go's
  nil-or-value results.
- `time_lib.dfy`: module `TimeLib`, Go's `time.Duration` as a signed 64-bit
  nanosecond count, `time.Second`, and the `(value, error)` shape of
  `time.ParseDuration`.
- `go_strings.dfy`: module `GoStrings`, the parts of Go's `strings` package
  that the parser uses: `HasPrefix`, `Index` and `Split`, the last two for a
  one-character separator. `Split` is proved against `Join` (a round trip)
  and against the number of separators in the string.
- `cli.dfy`: module `Cli`. The globals `boltbrowser.DatabaseFiles` and
  `boltbrowser.AppArgs`, plus the stream of usage reports written to stderr,
  are one object of class `AppState`. Its methods update that object in
  place: `Init`, `PrintUsage`, `ApplyOption` and `ApplyBareFlag` (the two
  `switch` statements), `ParseArg` (one loop iteration) and `ParseArgs`.
  `PrintUsage` states directly that it appends one report and changes
  nothing else. Each of the other methods is proved against a pure function
  over the value `Config`: `InitConfig`, `ApplyKeyValue`, `ApplyFlag`,
  `Step` and `ParseArgsSpec` (the last one built on `Run`). `Classify`
  states how one argument is read.
- `cli_properties.dfy`: module `CliProperties`. The lemmas state the
  parser's promises about one argument (`Step`, `ApplyKeyValue`,
  `ApplyFlag`) and about the whole loop (`Run`, `ParseArgsSpec`). Most of
  the one-argument lemmas give the new configuration as an explicit change
  to the old one. The loop-level lemmas compare `Run` with descriptions of
  the arguments written separately from the parser: `FileArgs`,
  `SetsReadOnly`, `SetsNoValue`, `IsTimeoutOption`, `AllEvents` (built from
  `EventsOf`). `RunCons` and `RunAppend` relate `Run` to itself: how the
  loop splits over a list. Some one-argument lemmas are stated over the
  descriptions `IsUnknownOption` and `IsHelp`.

A usage report is modelled as the `err` argument passed to `printUsage`:
`Usage(None)` for a plain report, or `Usage(Some(message))` for a report
with an error. The text printed is not modelled. `time.ParseDuration` is a
function parameter of type `string -> ParseResult`. The model assigns the
duration it returns exactly where the Go code does, including after a
failed parse. It claims nothing about that value beyond "what the parser
returned".

The bucket tree, navigation, editing and display live in the `boltbrowser`
package imported at cmd/main.go:6, whose source is not part of this model.

## Model

| member | source | states |
|---|---|---|
| `GoStrings.HasPrefix` | cmd/main.go:30 | `strings.HasPrefix(s, prefix)` holds exactly when `s` is `prefix` followed by the rest of `s` |
| `GoStrings.IndexOf` | cmd/main.go:36 | the position found holds the separator and none occurs before it |
| `GoStrings.Split` | cmd/main.go:36 | a split has one piece more than the string has separators, and no piece contains the separator |
| `GoStrings.SplitJoin` | cmd/main.go:36 | joining the pieces with the separator gives back the original string |
| `GoStrings.SplitSecond` | cmd/main.go:36-37 | a string holding the separator splits into at least two pieces, so `pts[1]` exists, and the second piece is the text after the first separator up to the next one |
| `GoStrings.SplitAfterHead` | cmd/main.go:36-37 | `key=rest` with an `=`-free key splits into the key followed by the pieces of `rest` |
| `Cli.Classify` | cmd/main.go:29-37 | an argument is a file name exactly when it lacks the `-` prefix; it is read as `key=value` exactly when it has the prefix and contains `=`, with the key before the first `=` and the value between the first and second `=` (so indexing the second piece is always safe); otherwise it is a bare flag |
| `Cli.AppState.constructor` | cmd/main.go:17-20 | the globals that `init` assigns start at Go zero values: no files, read-only and no-value off, zero timeout, no usage reports |
| `Cli.AppState.Init` | cmd/main.go:17-20 | `init` sets the open timeout to `DefaultDBOpenTimeout` and read-only to false, and leaves the rest of the state unchanged |
| `Cli.AppState.PrintUsage` | cmd/main.go:78-86 | `printUsage` appends one usage report carrying its error, changes nothing else and does not stop the program |
| `Cli.AppState.ApplyOption` | cmd/main.go:38-61 | the `switch key` changes the global state exactly as `ApplyKeyValue` describes, including the `"s"` retry and the assignment after a failed parse |
| `Cli.AppState.ApplyBareFlag` | cmd/main.go:64-73 | the single-word `switch` changes the global state exactly as `ApplyFlag` describes |
| `Cli.AppState.ParseArg` | cmd/main.go:29-74 | one loop iteration changes the global state exactly as `Step` describes |
| `Cli.AppState.ParseArgs` | cmd/main.go:22-76 | `parseArgs` leaves the global state equal to `ParseArgsSpec` of the state before: a plain report when there are no arguments, then every argument in order |
| `Cli.Startup` | cmd/main.go:88-91 | at start-up, the state after `init` and `parseArgs` is `ParseArgsSpec` of the defaults |
| `CliProperties.FileArgs` | cmd/main.go:30-32 | the file name arguments are at most as many as the arguments; each one occurs among them and lacks the `-` prefix |
| `CliProperties.RunCons` | cmd/main.go:28-75 | the loop handles the first argument and then carries on with the rest from the resulting state |
| `CliProperties.RunAppend` | cmd/main.go:28-75 | running the loop over two argument lists one after the other is the same as running it over both joined |
| `CliProperties.ClassifyOption` | cmd/main.go:34-37 | `key=value`, where `key` starts with `-` and has no `=`, is read with that key and with the text of `value` up to its first `=` |
| `CliProperties.OptionKeepsFiles` | cmd/main.go:34-74 | no option argument changes the file list |
| `CliProperties.StepFileName` | cmd/main.go:30-32 | a file name argument is appended to the file list and nothing else changes |
| `CliProperties.RunFiles` | cmd/main.go:28-32 | after the loop, the file list is the old list followed by exactly the file name arguments, in order; its length is the old length plus their number |
| `CliProperties.FileArgsAll` | cmd/main.go:30-32 | when no argument starts with `-`, every argument becomes a file, in order |
| `CliProperties.KeyValueFlags` | cmd/main.go:49-56 | a `key=value` option sets read-only (or no-value) exactly when the key names it and the value is exactly `true`; nothing clears a flag |
| `CliProperties.BareFlags` | cmd/main.go:65-68 | a single-word option sets read-only (or no-value) exactly when it names it |
| `CliProperties.StepReadOnly` | cmd/main.go:49-68 | after one argument, read-only is on iff it was on before or the argument switches it on; the same holds for no-value |
| `CliProperties.RunReadOnly` | cmd/main.go:49-68 | after the loop, read-only is on iff it was on before or some argument switches it on, so it only ever goes from false to true |
| `CliProperties.RunNoValue` | cmd/main.go:53-68 | after the loop, no-value is on iff it was on before or some argument switches it on |
| `CliProperties.ReadOnlyOption` | cmd/main.go:49-52 | `-ro=v` and `-readonly=v` set read-only when `v` is exactly `true` and otherwise change nothing |
| `CliProperties.ReadOnlyFlag` | cmd/main.go:65-66 | bare `-ro` and `-readonly` set read-only and change nothing else |
| `CliProperties.ReadOnlyAlias` | cmd/main.go:49-66 | `-ro` and `-readonly` have the same effect, as single words and as `=v` for every `v` |
| `CliProperties.FlagNotTrue` | cmd/main.go:49-56 | a read-only or no-value option whose value is not exactly `true` leaves the configuration unchanged |
| `CliProperties.ReadOnlyFalse` | cmd/main.go:49-52 | `-ro=false` and `-readonly=false` leave the configuration unchanged |
| `CliProperties.StepUnknown` | cmd/main.go:59-72 | an unknown option, bare or `key=value`, only appends an "Invalid option" usage report |
| `CliProperties.BareTimeoutUnknown` | cmd/main.go:64-72 | bare `-timeout` is an unknown option and only records "Invalid option" |
| `CliProperties.UnknownContinues` | cmd/main.go:59-75 | after an unknown option, parsing goes on with the remaining arguments from the state with the error recorded |
| `CliProperties.StepTimeout` | cmd/main.go:39-48 | for `-timeout=v`, the timeout is the parse of `v` if that succeeds; otherwise it is the parse of `v + "s"`; a usage report with the second error is added only when both parses fail |
| `CliProperties.TimeoutRetryOnlyOnFailure` | cmd/main.go:39-44 | when `v` parses, `v + "s"` is never consulted: two parsers that agree on `v` give the same result |
| `CliProperties.KeyValueIgnoresParser` | cmd/main.go:38-61 | a `key=value` option whose key is not `-timeout` never consults the duration parser and keeps the timeout |
| `CliProperties.StepIgnoresParser` | cmd/main.go:38-73 | an argument other than `-timeout=v` never consults the duration parser and keeps the timeout |
| `CliProperties.RunTimeoutUnchanged` | cmd/main.go:28-75 | without a `-timeout=v` argument, the timeout keeps its value through the loop |
| `CliProperties.StepHelp` | cmd/main.go:57-70 | any argument that asks for help, bare or with a value, only appends a plain usage report |
| `CliProperties.Help` | cmd/main.go:57-70 | `-help` and `-help=anything` only append a plain usage report |
| `CliProperties.KeyValueUsage` | cmd/main.go:38-61 | the usage reports a `key=value` option adds: plain for help, the second parse error for a failing timeout, "Invalid option" for an unknown key, none otherwise |
| `CliProperties.BareUsage` | cmd/main.go:64-73 | the usage reports a single-word option adds: plain for help, "Invalid option" for an unknown flag, none otherwise |
| `CliProperties.StepUsage` | cmd/main.go:29-74 | one argument appends exactly its own usage reports |
| `CliProperties.RunUsage` | cmd/main.go:22-76 | the usage reports after the loop are the earlier ones followed by each argument's reports, in argument order; no error ends parsing |
| `CliProperties.DefaultsAre` | cmd/main.go:15-20 | after `init`, the timeout is one second (10^9 ns) and read-only is off; with the globals starting at Go zero values, there are also no files and no-value is off |
| `CliProperties.NoArguments` | cmd/main.go:24-27 | with only the program name, one plain usage report is recorded and everything else keeps its default |
| `CliProperties.ParseFromDefaults` | cmd/main.go:15-76 | on any command line, starting from zero-valued globals, the files are exactly its file name arguments, and read-only is on iff some argument asks for it |

## Left out

- `main` beyond its first call (cmd/main.go:93-130) is not modelled. That
  covers termbox start-up and shutdown, `bolt.Open` with its lock timeout and
  errors, `os.Exit`, `MainLoop`, `RefreshDatabase` and `DB.Close`. All of
  these are terminal I/O, file I/O or calls into other packages.
- Cli.AppState.constructor: `boltbrowser.DatabaseFiles` and
  `boltbrowser.AppArgs` are declared in the `boltbrowser` package, which is
  not part of this model. They are assumed to start at Go zero values (an
  empty file list, `NoValue` false) before `init` runs. `DefaultsAre`,
  `NoArguments`, `ParseFromDefaults` and `Startup` rest on that assumption
  for the file list and `NoValue`; `init` itself sets only the timeout and
  read-only.
- The `boltbrowser` package (bucket tree, navigation, editing, display) is
  not part of this model. Only its globals `DatabaseFiles` and `AppArgs`
  appear, as fields of `AppState`.
- The text `printUsage` writes to stderr, including the program name, is not
  modelled. Only the fact of a report and its error are kept.
- `time.ParseDuration` is a parameter, not a definition. The duration it
  yields on a failed parse, which Go assigns to the timeout, is whatever the
  parameter returns.
- `Duration` values are only copied, never computed with, so 64-bit overflow
  cannot arise in the model.
- Strings: Go strings, and so the elements of `os.Args`, are byte
  sequences and may be invalid UTF-8. A Dafny `string` is a sequence of
  Unicode scalar values, so an argument that is not valid UTF-8 has no
  counterpart in the model. For example, a file name that is not valid
  UTF-8 can never appear in `files`. The parser looks only at the ASCII
  characters `-` and `=` and compares keys and values with ASCII literals,
  so for valid UTF-8 arguments the classification is the same.
- `GoStrings.Split`: models `strings.Split` for a one-character separator
  only, the only way `parseArgs` calls it.
- `Cli.AppState.ParseArgs` requires at least one argument (the program name).
  `os.Args` is whatever argument vector the operating system delivers, and
  an exec with an empty one is possible on some systems (Linux before 5.18);
  cmd/main.go:27 then panics on `os.Args[1:]`. That panic is not modelled.
- Go's `err` variable is declared once outside the loop. It is only read
  right after being assigned in the same iteration, so the model declares it
  per iteration.
