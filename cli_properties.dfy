/**
 * What `parseArgs` promises, stated over the specification functions that
 * the methods of `AppState` are proved against: one argument (`Step`,
 * `ApplyKeyValue`, `ApplyFlag`) and the whole loop (`Run`). The loop-level
 * properties are given by an independent description of the arguments
 * (which of them are file names, which switch a flag on, which usage
 * reports they cause) and a lemma tying that description to `Run`.
 */
module CliProperties {
  import opened Wrappers
  import opened GoStrings
  import opened TimeLib
  import opened Cli

  /** The option names `-readonly` and its alias `-ro`. */
  const ReadOnlyNames: set<string> := {"-readonly", "-ro"}

  /** The single-word options the parser knows. */
  const BareOptions: set<string> := {"-readonly", "-ro", "-no-value", "-help"}

  /** The `key=value` option keys the parser knows. */
  const KeyedOptions: set<string> := {"-timeout", "-readonly", "-ro", "-no-value", "-help"}

  /** The arguments of `params` that name database files, in their order. */
  function FileArgs(params: seq<string>): (files: seq<string>)
    ensures |files| <= |params|
    ensures forall k :: 0 <= k < |files| ==> files[k] in params && !HasPrefix(files[k], "-")
  {
    if params == [] then []
    else (if HasPrefix(params[0], "-") then [] else [params[0]]) + FileArgs(params[1..])
  }

  /** An argument that switches read-only mode on. */
  predicate SetsReadOnly(arg: string) {
    HasPrefix(arg, "-") &&
    if '=' in arg then OptionKey(arg) in ReadOnlyNames && OptionValue(arg) == "true"
    else arg in ReadOnlyNames
  }

  /** An argument that switches off the display of values. */
  predicate SetsNoValue(arg: string) {
    HasPrefix(arg, "-") &&
    if '=' in arg then OptionKey(arg) == "-no-value" && OptionValue(arg) == "true"
    else arg == "-no-value"
  }

  /** A `-timeout=value` argument. */
  predicate IsTimeoutOption(arg: string) {
    HasPrefix(arg, "-") && '=' in arg && OptionKey(arg) == "-timeout"
  }

  /** An option argument whose name the parser does not know. */
  predicate IsUnknownOption(arg: string) {
    HasPrefix(arg, "-") &&
    if '=' in arg then OptionKey(arg) !in KeyedOptions else arg !in BareOptions
  }

  /** A request for help, bare or with any value. */
  predicate IsHelp(arg: string) {
    HasPrefix(arg, "-") &&
    if '=' in arg then OptionKey(arg) == "-help" else arg == "-help"
  }

  /** The usage reports a `key=value` option causes. */
  function OptionEvents(key: string, val: string, parse: DurationParser): seq<UsageEvent> {
    if key == "-help" then [Usage(None)]
    else if key == "-timeout" then
      if parse(val).err.Some? && parse(val + "s").err.Some? then [Usage(parse(val + "s").err)] else []
    else if key in KeyedOptions then []
    else [Usage(Some(InvalidOption))]
  }

  /** The usage reports a single-word option causes. */
  function FlagEvents(flag: string): seq<UsageEvent> {
    if flag == "-help" then [Usage(None)]
    else if flag in BareOptions then []
    else [Usage(Some(InvalidOption))]
  }

  /** The usage reports one argument causes. */
  function EventsOf(arg: string, parse: DurationParser): seq<UsageEvent> {
    if !HasPrefix(arg, "-") then []
    else if '=' in arg then OptionEvents(OptionKey(arg), OptionValue(arg), parse)
    else FlagEvents(arg)
  }

  /** The usage reports of all of `params`, in order. */
  function AllEvents(params: seq<string>, parse: DurationParser): seq<UsageEvent> {
    if params == [] then [] else EventsOf(params[0], parse) + AllEvents(params[1..], parse)
  }

  /** Running the loop over one argument and then the rest is running it over all. */
  lemma {:induction false} RunCons(c: Config, arg: string, rest: seq<string>, parse: DurationParser)
    ensures Run(c, [arg] + rest, parse) == Run(Step(c, arg, parse), rest, parse)
    decreases |rest|
  {
    if rest != [] {
      var all := [arg] + rest;
      var init, last := rest[..|rest| - 1], rest[|rest| - 1];
      assert all[..|all| - 1] == [arg] + init;
      assert all[|all| - 1] == last;
      RunCons(c, arg, init, parse);
      var mid := Run(Step(c, arg, parse), init, parse);
      assert Run(c, all, parse) == Step(mid, last, parse);
      assert Run(Step(c, arg, parse), rest, parse) == Step(mid, last, parse);
    } else {
      assert [arg] + rest == [arg];
      assert [arg][..0] == [];
    }
  }

  /** Running the loop over two lists one after the other is running it over both. */
  lemma {:induction false} RunAppend(c: Config, front: seq<string>, back: seq<string>, parse: DurationParser)
    ensures Run(c, front + back, parse) == Run(Run(c, front, parse), back, parse)
    decreases |front|
  {
    if front == [] {
      assert front + back == back;
    } else {
      var a, rest := front[0], front[1..];
      var c1 := Step(c, a, parse);
      assert front + back == [a] + (rest + back);
      assert [a] + rest == front;
      RunCons(c, a, rest + back, parse);
      RunAppend(c1, rest, back, parse);
      RunCons(c, a, rest, parse);
    }
  }

  /** An argument of the form `key=value` with an `=`-free key splits at that `=`. */
  lemma ClassifyOption(key: string, val: string)
    requires HasPrefix(key, "-") && '=' !in key
    ensures Classify(key + "=" + val) == KeyValue(key, Split(val, '=')[0])
  {
    var arg := key + "=" + val;
    assert arg == key + ['='] + val;
    assert arg[..|key|] == key;
    assert HasPrefix(arg, "-") by {
      assert arg[..1] == key[..1];
    }
    assert arg[|key|] == '=';
    SplitAfterHead(key, '=', val);
    SplitFirst(arg, '=');
  }

  /** An argument `key=val` with an `=`-free key is handled as that key with `val` up to its first `=`. */
  lemma StepOption(c: Config, key: string, val: string, parse: DurationParser)
    requires HasPrefix(key, "-") && '=' !in key
    ensures Step(c, key + "=" + val, parse) == ApplyKeyValue(c, key, Split(val, '=')[0], parse)
  {
    ClassifyOption(key, val);
  }

  /** A single-word option is handled as a flag. */
  lemma StepFlag(c: Config, flag: string, parse: DurationParser)
    requires HasPrefix(flag, "-") && '=' !in flag
    ensures Step(c, flag, parse) == ApplyFlag(c, flag)
  {
  }

  /** Neither `switch` of the parser touches the file list. */
  lemma SwitchesKeepFiles(c: Config, key: string, val: string, parse: DurationParser)
    ensures ApplyKeyValue(c, key, val, parse).files == c.files
    ensures ApplyFlag(c, key).files == c.files
  {
  }

  /** Options never touch the file list. */
  lemma OptionKeepsFiles(c: Config, arg: string, parse: DurationParser)
    requires HasPrefix(arg, "-")
    ensures Step(c, arg, parse).files == c.files
  {
    match Classify(arg)
    case KeyValue(key, val) =>
      SwitchesKeepFiles(c, key, val, parse);
    case BareFlag(flag) =>
      SwitchesKeepFiles(c, flag, "", parse);
  }

  /** A file name argument is appended to the file list and nothing else changes. */
  lemma StepFileName(c: Config, arg: string, parse: DurationParser)
    requires !HasPrefix(arg, "-")
    ensures Step(c, arg, parse) == c.(files := c.files + [arg])
  {
  }

  /**
   * The file list grows by exactly the file name arguments, in their order;
   * nothing is removed or reordered.
   */
  lemma {:induction false} RunFiles(c: Config, params: seq<string>, parse: DurationParser)
    ensures Run(c, params, parse).files == c.files + FileArgs(params)
    ensures |Run(c, params, parse).files| == |c.files| + |FileArgs(params)|
    decreases |params|
  {
    if params != [] {
      var init, last := params[..|params| - 1], params[|params| - 1];
      var c0 := Run(c, init, parse);
      assert Run(c, params, parse).files == c0.files + FileArgs([last]) by {
        assert [last][1..] == [];
        if HasPrefix(last, "-") {
          OptionKeepsFiles(c0, last, parse);
        } else {
          StepFileName(c0, last, parse);
        }
      }
      RunFiles(c, init, parse);
      assert params == init + [last];
      FileArgsSnoc(init, last);
    }
  }

  /** The file name arguments of a list with one more argument at its end. */
  lemma {:induction false} FileArgsSnoc(init: seq<string>, last: string)
    ensures FileArgs(init + [last]) == FileArgs(init) + FileArgs([last])
    decreases |init|
  {
    if init == [] {
      assert init + [last] == [last];
    } else {
      assert (init + [last])[1..] == init[1..] + [last];
      FileArgsSnoc(init[1..], last);
    }
  }

  /** When every argument names a file, the file list receives all of them. */
  lemma {:induction false} FileArgsAll(params: seq<string>)
    requires forall k :: 0 <= k < |params| ==> !HasPrefix(params[k], "-")
    ensures FileArgs(params) == params
    decreases |params|
  {
    if params != [] {
      FileArgsAll(params[1..]);
    }
  }

  /** A `key=value` option sets a flag exactly when it names it with the value `true`. */
  lemma KeyValueFlags(c: Config, key: string, val: string, parse: DurationParser)
    ensures ApplyKeyValue(c, key, val, parse).readOnly == (c.readOnly || (key in ReadOnlyNames && val == "true"))
    ensures ApplyKeyValue(c, key, val, parse).noValue == (c.noValue || (key == "-no-value" && val == "true"))
  {
  }

  /** A single-word option sets a flag exactly when it names it. */
  lemma BareFlags(c: Config, flag: string)
    ensures ApplyFlag(c, flag).readOnly == (c.readOnly || flag in ReadOnlyNames)
    ensures ApplyFlag(c, flag).noValue == (c.noValue || flag == "-no-value")
  {
  }

  /** One argument sets read-only exactly when it is a read-only option. */
  lemma StepReadOnly(c: Config, arg: string, parse: DurationParser)
    ensures Step(c, arg, parse).readOnly == (c.readOnly || SetsReadOnly(arg))
    ensures Step(c, arg, parse).noValue == (c.noValue || SetsNoValue(arg))
  {
    match Classify(arg)
    case FileName(_) =>
    case KeyValue(key, val) =>
      KeyValueFlags(c, key, val, parse);
    case BareFlag(flag) =>
      BareFlags(c, flag);
  }

  /**
   * Read-only mode is on after the loop exactly when it was on before or
   * some argument switches it on: it never goes from true to false.
   */
  lemma {:induction false} RunReadOnly(c: Config, params: seq<string>, parse: DurationParser)
    ensures Run(c, params, parse).readOnly <==>
      c.readOnly || exists k :: 0 <= k < |params| && SetsReadOnly(params[k])
    decreases |params|
  {
    if params != [] {
      var a := params[0];
      var rest := params[1..];
      assert params == [a] + rest;
      RunCons(c, a, rest, parse);
      StepReadOnly(c, a, parse);
      RunReadOnly(Step(c, a, parse), rest, parse);
      if exists k :: 0 <= k < |rest| && SetsReadOnly(rest[k]) {
        var k :| 0 <= k < |rest| && SetsReadOnly(rest[k]);
        assert params[k + 1] == rest[k];
      }
      if exists k :: 0 <= k < |params| && SetsReadOnly(params[k]) {
        var k :| 0 <= k < |params| && SetsReadOnly(params[k]);
        if k > 0 {
          assert rest[k - 1] == params[k];
        }
      }
    }
  }

  /**
   * Value display is switched off after the loop exactly when it was off
   * before or some argument switches it off.
   */
  lemma {:induction false} RunNoValue(c: Config, params: seq<string>, parse: DurationParser)
    ensures Run(c, params, parse).noValue <==>
      c.noValue || exists k :: 0 <= k < |params| && SetsNoValue(params[k])
    decreases |params|
  {
    if params != [] {
      var a := params[0];
      var rest := params[1..];
      assert params == [a] + rest;
      RunCons(c, a, rest, parse);
      StepReadOnly(c, a, parse);
      RunNoValue(Step(c, a, parse), rest, parse);
      if exists k :: 0 <= k < |rest| && SetsNoValue(rest[k]) {
        var k :| 0 <= k < |rest| && SetsNoValue(rest[k]);
        assert params[k + 1] == rest[k];
      }
      if exists k :: 0 <= k < |params| && SetsNoValue(params[k]) {
        var k :| 0 <= k < |params| && SetsNoValue(params[k]);
        if k > 0 {
          assert rest[k - 1] == params[k];
        }
      }
    }
  }

  /** Both read-only names, as `key=value`, set read-only exactly for the value `true`. */
  lemma ReadOnlyOption(c: Config, key: string, val: string, parse: DurationParser)
    requires key in ReadOnlyNames
    ensures ApplyKeyValue(c, key, val, parse) == if val == "true" then c.(readOnly := true) else c
  {
  }

  /** Both read-only names, as single words, set read-only. */
  lemma ReadOnlyFlag(c: Config, flag: string)
    requires flag in ReadOnlyNames
    ensures ApplyFlag(c, flag) == c.(readOnly := true)
  {
  }

  /** The read-only names are single words that start with `-`. */
  lemma ReadOnlyNameShape(key: string)
    requires key in ReadOnlyNames
    ensures HasPrefix(key, "-") && '=' !in key
  {
    assert key[..1] == "-";
  }

  /**
   * `-ro` and `-readonly` have the same effect, as single words and as
   * `key=v` for every `v`.
   */
  lemma ReadOnlyAlias(c: Config, k1: string, k2: string, val: string, parse: DurationParser)
    requires k1 in ReadOnlyNames && k2 in ReadOnlyNames
    ensures Step(c, k1, parse) == Step(c, k2, parse)
    ensures Step(c, k1 + "=" + val, parse) == Step(c, k2 + "=" + val, parse)
  {
    ReadOnlyNameShape(k1);
    ReadOnlyNameShape(k2);
    StepFlag(c, k1, parse);
    StepFlag(c, k2, parse);
    ReadOnlyFlag(c, k1);
    ReadOnlyFlag(c, k2);
    StepOption(c, k1, val, parse);
    StepOption(c, k2, val, parse);
    var v := Split(val, '=')[0];
    ReadOnlyOption(c, k1, v, parse);
    ReadOnlyOption(c, k2, v, parse);
  }

  /**
   * A read-only or no-value option whose value is anything but exactly
   * `true` changes nothing; in particular `-ro=false`.
   */
  lemma FlagNotTrue(c: Config, arg: string, parse: DurationParser)
    requires HasPrefix(arg, "-") && '=' in arg
    requires OptionKey(arg) in {"-readonly", "-ro", "-no-value"} && OptionValue(arg) != "true"
    ensures Step(c, arg, parse) == c
  {
  }

  /** `-ro=false` and `-readonly=false` leave the configuration as it was. */
  lemma ReadOnlyFalse(c: Config, key: string, parse: DurationParser)
    requires key in ReadOnlyNames
    ensures Step(c, key + "=false", parse) == c
  {
    var v := "false";
    ReadOnlyNameShape(key);
    assert key + "=false" == key + "=" + v;
    assert '=' !in v && v != "true";
    assert Split(v, '=')[0] == v;
    StepOption(c, key, v, parse);
    ReadOnlyOption(c, key, v, parse);
  }

  /** An unknown option only records an "Invalid option" usage report. */
  lemma StepUnknown(c: Config, arg: string, parse: DurationParser)
    requires IsUnknownOption(arg)
    ensures Step(c, arg, parse) == c.(usage := c.usage + [Usage(Some(InvalidOption))])
  {
  }

  /** `-timeout` without a value is an unknown option. */
  lemma BareTimeoutUnknown(c: Config, parse: DurationParser)
    ensures IsUnknownOption("-timeout")
    ensures Step(c, "-timeout", parse) == c.(usage := c.usage + [Usage(Some(InvalidOption))])
  {
    assert "-timeout"[..1] == "-" && '=' !in "-timeout";
    StepFlag(c, "-timeout", parse);
  }

  /** After an unknown option the parser goes on with the remaining arguments. */
  lemma UnknownContinues(c: Config, arg: string, rest: seq<string>, parse: DurationParser)
    requires IsUnknownOption(arg)
    ensures Run(c, [arg] + rest, parse) ==
      Run(c.(usage := c.usage + [Usage(Some(InvalidOption))]), rest, parse)
  {
    RunCons(c, arg, rest, parse);
    StepUnknown(c, arg, parse);
  }

  /**
   * `-timeout=v`: the timeout becomes the parse of `v`; only if that fails
   * is `v + "s"` parsed and its result taken, and only if that fails too is
   * a usage report carrying its error recorded.
   */
  lemma StepTimeout(c: Config, arg: string, parse: DurationParser)
    requires IsTimeoutOption(arg)
    ensures var v := OptionValue(arg);
      parse(v).err.None? ==> Step(c, arg, parse) == c.(timeout := parse(v).value)
    ensures var v := OptionValue(arg);
      parse(v).err.Some? && parse(v + "s").err.None? ==>
        Step(c, arg, parse) == c.(timeout := parse(v + "s").value)
    ensures var v := OptionValue(arg);
      parse(v).err.Some? && parse(v + "s").err.Some? ==>
        Step(c, arg, parse) ==
          c.(timeout := parse(v + "s").value, usage := c.usage + [Usage(parse(v + "s").err)])
  {
  }

  /**
   * `v + "s"` is consulted only when `v` does not parse: two parsers that
   * agree on a successful parse of `v` give the same outcome.
   */
  lemma TimeoutRetryOnlyOnFailure(c: Config, arg: string, p1: DurationParser, p2: DurationParser)
    requires IsTimeoutOption(arg)
    requires p1(OptionValue(arg)) == p2(OptionValue(arg)) && p1(OptionValue(arg)).err.None?
    ensures Step(c, arg, p1) == Step(c, arg, p2)
  {
  }

  /** Options other than `-timeout` never consult the duration parser. */
  lemma KeyValueIgnoresParser(c: Config, key: string, val: string, p1: DurationParser, p2: DurationParser)
    requires key != "-timeout"
    ensures ApplyKeyValue(c, key, val, p1) == ApplyKeyValue(c, key, val, p2)
    ensures ApplyKeyValue(c, key, val, p1).timeout == c.timeout
  {
  }

  /** Arguments other than `-timeout=v` never consult the duration parser. */
  lemma StepIgnoresParser(c: Config, arg: string, p1: DurationParser, p2: DurationParser)
    requires !IsTimeoutOption(arg)
    ensures Step(c, arg, p1) == Step(c, arg, p2)
    ensures Step(c, arg, p1).timeout == c.timeout
  {
    match Classify(arg)
    case FileName(_) =>
    case KeyValue(key, val) =>
      KeyValueIgnoresParser(c, key, val, p1, p2);
    case BareFlag(_) =>
  }

  /** Without a `-timeout=v` argument the timeout keeps its value. */
  lemma {:induction false} RunTimeoutUnchanged(c: Config, params: seq<string>, parse: DurationParser)
    requires forall k :: 0 <= k < |params| ==> !IsTimeoutOption(params[k])
    ensures Run(c, params, parse).timeout == c.timeout
    decreases |params|
  {
    if params != [] {
      var a := params[0];
      assert params == [a] + params[1..];
      RunCons(c, a, params[1..], parse);
      StepIgnoresParser(c, a, parse, parse);
      RunTimeoutUnchanged(Step(c, a, parse), params[1..], parse);
    }
  }

  /** Any request for help only records a plain usage report. */
  lemma StepHelp(c: Config, arg: string, parse: DurationParser)
    requires IsHelp(arg)
    ensures Step(c, arg, parse) == c.(usage := c.usage + [Usage(None)])
  {
    match Classify(arg)
    case KeyValue(key, val) =>
      assert ApplyKeyValue(c, key, val, parse) == c.(usage := c.usage + [Usage(None)]);
    case BareFlag(flag) =>
      assert ApplyFlag(c, flag) == c.(usage := c.usage + [Usage(None)]);
  }

  /** `-help`, bare or with any value, records a plain usage report and changes nothing else. */
  lemma Help(c: Config, val: string, parse: DurationParser)
    ensures Step(c, "-help", parse) == c.(usage := c.usage + [Usage(None)])
    ensures Step(c, "-help=" + val, parse) == c.(usage := c.usage + [Usage(None)])
  {
    assert "-help"[..1] == "-" && '=' !in "-help";
    assert "-help=" + val == "-help" + "=" + val;
    StepFlag(c, "-help", parse);
    StepOption(c, "-help", val, parse);
    var v := Split(val, '=')[0];
    assert ApplyKeyValue(c, "-help", v, parse) == c.(usage := c.usage + [Usage(None)]);
  }

  /** The usage reports a `key=value` option adds. */
  lemma KeyValueUsage(c: Config, key: string, val: string, parse: DurationParser)
    ensures ApplyKeyValue(c, key, val, parse).usage == c.usage + OptionEvents(key, val, parse)
  {
  }

  /** The usage reports a single-word option adds. */
  lemma BareUsage(c: Config, flag: string)
    ensures ApplyFlag(c, flag).usage == c.usage + FlagEvents(flag)
  {
  }

  /** The usage reports one argument adds. */
  lemma StepUsage(c: Config, arg: string, parse: DurationParser)
    ensures Step(c, arg, parse).usage == c.usage + EventsOf(arg, parse)
  {
    match Classify(arg)
    case FileName(_) =>
    case KeyValue(key, val) =>
      KeyValueUsage(c, key, val, parse);
    case BareFlag(flag) =>
      BareUsage(c, flag);
  }

  /**
   * The usage reports after the loop are those before it followed by the
   * reports of every argument, in argument order: no error stops the loop.
   */
  lemma {:induction false} RunUsage(c: Config, params: seq<string>, parse: DurationParser)
    ensures Run(c, params, parse).usage == c.usage + AllEvents(params, parse)
    decreases |params|
  {
    if params != [] {
      var init, last := params[..|params| - 1], params[|params| - 1];
      var c0 := Run(c, init, parse);
      assert Run(c, params, parse).usage == c0.usage + EventsOf(last, parse) by {
        StepUsage(c0, last, parse);
      }
      RunUsage(c, init, parse);
      assert params == init + [last];
      AllEventsSnoc(init, last, parse);
    }
  }

  /** The usage reports of a list with one more argument at its end. */
  lemma {:induction false} AllEventsSnoc(init: seq<string>, last: string, parse: DurationParser)
    ensures AllEvents(init + [last], parse) == AllEvents(init, parse) + EventsOf(last, parse)
    decreases |init|
  {
    if init == [] {
      assert init + [last] == [last];
      assert [last][1..] == [];
    } else {
      assert (init + [last])[1..] == init[1..] + [last];
      AllEventsSnoc(init[1..], last, parse);
    }
  }

  /** Before parsing: no files, read-only off, values shown, a one-second timeout. */
  lemma DefaultsAre()
    ensures Defaults() == Config([], false, false, Second, [])
    ensures Second == 1_000_000_000
  {
  }

  /**
   * With no arguments besides the program name, one plain usage report is
   * recorded and the configuration keeps its defaults.
   */
  lemma NoArguments(program: string, parse: DurationParser)
    ensures ParseArgsSpec(Defaults(), [program], parse) == Defaults().(usage := [Usage(None)])
  {
  }

  /**
   * Startup on any command line: the files are its file name arguments and
   * read-only mode is on exactly when one of its arguments asks for it.
   */
  lemma ParseFromDefaults(args: seq<string>, parse: DurationParser)
    requires |args| >= 1
    ensures ParseArgsSpec(Defaults(), args, parse).files == FileArgs(args[1..])
    ensures ParseArgsSpec(Defaults(), args, parse).readOnly <==>
      exists k :: 1 <= k < |args| && SetsReadOnly(args[k])
  {
    var start := if |args| == 1 then Defaults().(usage := [Usage(None)]) else Defaults();
    RunFiles(start, args[1..], parse);
    RunReadOnly(start, args[1..], parse);
    if exists k :: 1 <= k < |args| && SetsReadOnly(args[k]) {
      var k :| 1 <= k < |args| && SetsReadOnly(args[k]);
      assert args[1..][k - 1] == args[k];
    }
    if exists k :: 0 <= k < |args[1..]| && SetsReadOnly(args[1..][k]) {
      var k :| 0 <= k < |args[1..]| && SetsReadOnly(args[1..][k]);
      assert args[k + 1] == args[1..][k];
    }
  }
}
