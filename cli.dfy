/**
 * The command line front end of boltbrowser (cmd/main.go): the package
 * defaults set by `init`, the usage reporter `printUsage` and the argument
 * parser `parseArgs`.
 *
 * The Go program keeps its configuration in package globals
 * (`boltbrowser.AppArgs` and `boltbrowser.DatabaseFiles`) and writes usage
 * text to stderr. Here that state is one `AppState` object whose methods
 * update it in place, and stderr is the ordered list of usage reports the
 * object has recorded. The value of that state is a `Config`; the methods
 * are proved against the pure functions `Step`, `Run` and `ParseArgsSpec`
 * over `Config`, about which the lemmas of module `CliProperties` are stated.
 */
module Cli {
  import opened Wrappers
  import opened GoStrings
  import opened TimeLib

  /**
   * One call of `printUsage(err)`: the error it was given, `None` for a
   * plain usage report. The usage text itself is not modelled.
   */
  datatype UsageEvent = Usage(err: Option<string>)

  /** The observable configuration: the globals plus the usage reports so far. */
  datatype Config = Config(
    files: seq<string>,
    readOnly: bool,
    noValue: bool,
    timeout: Duration,
    usage: seq<UsageEvent>)

  /** `DefaultDBOpenTimeout`. */
  const DefaultDBOpenTimeout: Duration := Second

  /** The message of the error reported for an option the parser does not know. */
  const InvalidOption: string := "Invalid option"

  /** The state before `init` runs: every global at its Go zero value. */
  function ZeroConfig(): Config {
    Config([], false, false, 0, [])
  }

  /** What `init` does to the state: it sets the open timeout and clears read-only. */
  function InitConfig(c: Config): Config {
    c.(timeout := DefaultDBOpenTimeout, readOnly := false)
  }

  /** The state `parseArgs` starts from when the program runs. */
  function Defaults(): Config {
    InitConfig(ZeroConfig())
  }

  /** How the parser sees one argument. */
  datatype Argument =
    | FileName(name: string)
    | KeyValue(key: string, value: string)
    | BareFlag(flag: string)

  /** The text of an option argument before its first `=`. */
  function OptionKey(arg: string): string
    requires '=' in arg
  {
    arg[..IndexOf(arg, '=')]
  }

  /** The text of an option argument after its first `=` and before the next one, if any. */
  function OptionValue(arg: string): string
    requires '=' in arg
  {
    var rest := arg[IndexOf(arg, '=') + 1..];
    if '=' in rest then rest[..IndexOf(rest, '=')] else rest
  }

  /**
   * The classification done at the top of the loop in `parseArgs`. An
   * argument containing `=` is split at every `=`, and the first two pieces
   * are taken as key and value; the split always has at least two pieces.
   */
  function Classify(arg: string): (a: Argument)
    ensures a.FileName? <==> !HasPrefix(arg, "-")
    ensures a.FileName? ==> a.name == arg
    ensures a.KeyValue? <==> HasPrefix(arg, "-") && '=' in arg
    ensures a.KeyValue? ==> a.key == OptionKey(arg) && a.value == OptionValue(arg)
    ensures a.BareFlag? ==> a.flag == arg && '=' !in arg
  {
    if !HasPrefix(arg, "-") then FileName(arg)
    else if '=' in arg then
      var pts := Split(arg, '=');
      SplitFirst(arg, '=');
      SplitSecond(arg, '=');
      KeyValue(pts[0], pts[1])
    else BareFlag(arg)
  }

  /** The effect of a `key=value` argument. */
  function ApplyKeyValue(c: Config, key: string, val: string, parse: DurationParser): Config {
    if key == "-timeout" then
      var first := parse(val);
      if first.err.None? then c.(timeout := first.value)
      else
        var second := parse(val + "s");
        if second.err.None? then c.(timeout := second.value)
        else c.(timeout := second.value, usage := c.usage + [Usage(second.err)])
    else if key == "-readonly" || key == "-ro" then
      if val == "true" then c.(readOnly := true) else c
    else if key == "-no-value" then
      if val == "true" then c.(noValue := true) else c
    else if key == "-help" then c.(usage := c.usage + [Usage(None)])
    else c.(usage := c.usage + [Usage(Some(InvalidOption))])
  }

  /** The effect of a single-word option. */
  function ApplyFlag(c: Config, flag: string): Config {
    if flag == "-readonly" || flag == "-ro" then c.(readOnly := true)
    else if flag == "-no-value" then c.(noValue := true)
    else if flag == "-help" then c.(usage := c.usage + [Usage(None)])
    else c.(usage := c.usage + [Usage(Some(InvalidOption))])
  }

  /** One iteration of the loop in `parseArgs`. */
  function Step(c: Config, arg: string, parse: DurationParser): Config {
    match Classify(arg)
    case FileName(name) => c.(files := c.files + [name])
    case KeyValue(key, val) => ApplyKeyValue(c, key, val, parse)
    case BareFlag(flag) => ApplyFlag(c, flag)
  }

  /** The loop of `parseArgs` over `params`, in order. */
  function Run(c: Config, params: seq<string>, parse: DurationParser): Config
    decreases |params|
  {
    if params == [] then c
    else Step(Run(c, params[..|params| - 1], parse), params[|params| - 1], parse)
  }

  /**
   * The whole of `parseArgs` on `os.Args` (program name first): a plain
   * usage report when there are no arguments, then the loop over the rest.
   */
  function ParseArgsSpec(c: Config, args: seq<string>, parse: DurationParser): Config
    requires |args| >= 1
  {
    var start := if |args| == 1 then c.(usage := c.usage + [Usage(None)]) else c;
    Run(start, args[1..], parse)
  }

  /** The program's global state. */
  class AppState {
    /** `boltbrowser.DatabaseFiles`. */
    var databaseFiles: seq<string>
    /** `boltbrowser.AppArgs.ReadOnly`. */
    var readOnly: bool
    /** `boltbrowser.AppArgs.NoValue`. */
    var noValue: bool
    /** `boltbrowser.AppArgs.DBOpenTimeout`. */
    var dbOpenTimeout: Duration
    /** The usage reports written to stderr so far. */
    var usage: seq<UsageEvent>

    function Snapshot(): Config
      reads this
    {
      Config(databaseFiles, readOnly, noValue, dbOpenTimeout, usage)
    }

    /** The globals as the Go runtime creates them, before any `init`. */
    constructor ()
      ensures Snapshot() == ZeroConfig()
    {
      databaseFiles := [];
      readOnly := false;
      noValue := false;
      dbOpenTimeout := 0;
      usage := [];
    }

    /** `init`: sets the default open timeout and turns read-only off. */
    method Init()
      modifies this
      ensures Snapshot() == InitConfig(old(Snapshot()))
    {
      dbOpenTimeout := DefaultDBOpenTimeout;
      readOnly := false;
    }

    /** `printUsage(err)`: records one usage report and changes nothing else. */
    method PrintUsage(err: Option<string>)
      modifies this`usage
      ensures usage == old(usage) + [Usage(err)]
    {
      usage := usage + [Usage(err)];
    }

    /** The `switch key` of `parseArgs` for a `key=value` argument. */
    method ApplyOption(key: string, val: string, parse: DurationParser)
      modifies this
      ensures Snapshot() == ApplyKeyValue(old(Snapshot()), key, val, parse)
    {
      if key == "-timeout" {
        var r := parse(val);
        dbOpenTimeout := r.value;
        var err := r.err;
        if err.Some? {
          // See if the value parses with an "s" appended
          r := parse(val + "s");
          dbOpenTimeout := r.value;
          err := r.err;
        }
        if err.Some? {
          PrintUsage(err);
        }
      } else if key == "-readonly" || key == "-ro" {
        if val == "true" {
          readOnly := true;
        }
      } else if key == "-no-value" {
        if val == "true" {
          noValue := true;
        }
      } else if key == "-help" {
        PrintUsage(None);
      } else {
        PrintUsage(Some(InvalidOption));
      }
    }

    /** The `switch` of `parseArgs` for a single-word option. */
    method ApplyBareFlag(flag: string)
      modifies this
      ensures Snapshot() == ApplyFlag(old(Snapshot()), flag)
    {
      if flag == "-readonly" || flag == "-ro" {
        readOnly := true;
      } else if flag == "-no-value" {
        noValue := true;
      } else if flag == "-help" {
        PrintUsage(None);
      } else {
        PrintUsage(Some(InvalidOption));
      }
    }

    /** One iteration of the loop in `parseArgs`, on the argument `arg`. */
    method ParseArg(arg: string, parse: DurationParser)
      modifies this
      ensures Snapshot() == Step(old(Snapshot()), arg, parse)
    {
      // All option arguments start with "-"
      if !HasPrefix(arg, "-") {
        databaseFiles := databaseFiles + [arg];
        return;
      }
      if '=' in arg {
        var pts := Split(arg, '=');
        var key, val := pts[0], pts[1];
        ApplyOption(key, val, parse);
      } else {
        ApplyBareFlag(arg);
      }
    }

    /**
     * `parseArgs`, with `os.Args` as `args` and `time.ParseDuration` as
     * `parse`. Go's `os.Args[1:]` needs the program name to be present.
     */
    method ParseArgs(args: seq<string>, parse: DurationParser)
      requires |args| >= 1
      modifies this
      ensures Snapshot() == ParseArgsSpec(old(Snapshot()), args, parse)
    {
      if |args| == 1 {
        PrintUsage(None);
      }
      ghost var start := Snapshot();
      var parms := args[1..];
      for i := 0 to |parms|
        invariant Snapshot() == Run(start, parms[..i], parse)
      {
        assert parms[..i + 1][..i] == parms[..i];
        ParseArg(parms[i], parse);
      }
      assert parms[..|parms|] == parms;
    }
  }

  /**
   * The start of `main`: the globals are created, `init` runs, then
   * `parseArgs`.
   */
  method Startup(args: seq<string>, parse: DurationParser) returns (app: AppState)
    requires |args| >= 1
    ensures fresh(app)
    ensures app.Snapshot() == ParseArgsSpec(Defaults(), args, parse)
  {
    app := new AppState();
    app.Init();
    app.ParseArgs(args, parse);
  }
}
