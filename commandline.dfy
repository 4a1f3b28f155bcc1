/** The entry point of the root daemon (Program.cs): the argument loop, the
    missing-configuration copy and the watch-directory gate.  The current
    directory, the user name and the file system's answers are inputs. */
module CommandLine {
  import opened RootDaemon

  /** The three settings the arguments can change. */
  datatype Options = Options(configPath: string, watchDirectory: string, agentName: string)

  /** How argument parsing ends: with settings to run on, with a flag that
      lacked its value (the message printed), or with the help text. */
  datatype ParseOutcome = Run(options: Options) | MissingValue(message: string) | Help

  /** The settings before any argument is read (Program.cs:11-13). */
  function Defaults(currentDirectory: string, userName: string): (o: Options)
    ensures o.configPath == "permissions.yaml"
    ensures o.watchDirectory == currentDirectory && o.agentName == userName
  {
    Options("permissions.yaml", currentDirectory, userName)
  }

  /** Reading the rest of the arguments with the settings so far: a
      value-taking flag consumes the next argument verbatim, help stops
      everything, anything unrecognised is passed over. */
  function Parse(args: seq<string>, opts: Options): ParseOutcome
    decreases |args|
  {
    if args == [] then Run(opts)
    else match args[0]
      case "-c" => TakeValue(args, opts.(configPath := if |args| > 1 then args[1] else ""), "Error: --config requires a path", opts)
      case "--config" => TakeValue(args, opts.(configPath := if |args| > 1 then args[1] else ""), "Error: --config requires a path", opts)
      case "-d" => TakeValue(args, opts.(watchDirectory := if |args| > 1 then args[1] else ""), "Error: --directory requires a path", opts)
      case "--directory" => TakeValue(args, opts.(watchDirectory := if |args| > 1 then args[1] else ""), "Error: --directory requires a path", opts)
      case "-a" => TakeValue(args, opts.(agentName := if |args| > 1 then args[1] else ""), "Error: --agent requires a name", opts)
      case "--agent" => TakeValue(args, opts.(agentName := if |args| > 1 then args[1] else ""), "Error: --agent requires a name", opts)
      case "-h" => Help
      case "--help" => Help
      case _ => Parse(args[1..], opts)
  }

  /** A value-taking flag at the head of `args`: with a value, continue after
      it with `updated`; without one, stop with `message`. */
  function TakeValue(args: seq<string>, updated: Options, message: string, opts: Options): ParseOutcome
    requires |args| > 0
    decreases |args|, 0
  {
    if |args| > 1 then Parse(args[2..], updated) else MissingValue(message)
  }

  /** The flag that takes a value, written either way. */
  predicate ValueFlag(a: string)
  {
    a in {"-c", "--config", "-d", "--directory", "-a", "--agent"}
  }

  predicate HelpFlag(a: string)
  {
    a in {"-h", "--help"}
  }

  /** Every setting parsing ends with is its starting value or one of the
      arguments, a missing value is reported only for a value flag at the
      very end, and arguments that are not flags change nothing. */
  lemma {:induction false} ParseTakesSettingsFromArguments(args: seq<string>, opts: Options)
    ensures var r := Parse(args, opts);
      && (r.Run? ==> r.options.configPath == opts.configPath || r.options.configPath in args)
      && (r.Run? ==> r.options.watchDirectory == opts.watchDirectory || r.options.watchDirectory in args)
      && (r.Run? ==> r.options.agentName == opts.agentName || r.options.agentName in args)
      && (r.MissingValue? ==> |args| > 0 && ValueFlag(args[|args| - 1]))
      && ((forall i :: 0 <= i < |args| ==> !ValueFlag(args[i]) && !HelpFlag(args[i])) ==> r == Run(opts))
    decreases |args|
  {
    if args != [] {
      var a := args[0];
      if ValueFlag(a) && |args| > 1 {
        var rest := args[2..];
        assert forall x :: x in rest ==> x in args by {
          forall x | x in rest ensures x in args {
            var k :| 0 <= k < |rest| && rest[k] == x;
            assert args[k + 2] == x;
          }
        }
        assert rest != [] ==> args[|args| - 1] == rest[|rest| - 1];
        if a == "-c" || a == "--config" {
          ParseTakesSettingsFromArguments(rest, opts.(configPath := args[1]));
        } else if a == "-d" || a == "--directory" {
          ParseTakesSettingsFromArguments(rest, opts.(watchDirectory := args[1]));
        } else {
          ParseTakesSettingsFromArguments(rest, opts.(agentName := args[1]));
        }
      } else if !ValueFlag(a) && !HelpFlag(a) {
        var rest := args[1..];
        assert forall x :: x in rest ==> x in args;
        assert rest != [] ==> args[|args| - 1] == rest[|rest| - 1];
        ParseTakesSettingsFromArguments(rest, opts);
      }
    }
  }

  /** The argument loop of Main (Program.cs:15-60), with its index advanced
      inside the body when a flag takes its value. */
  method ParseArguments(args: seq<string>, defaults: Options) returns (outcome: ParseOutcome)
    ensures outcome == Parse(args, defaults)
  {
    var configPath, watchDirectory, agentName := defaults.configPath, defaults.watchDirectory, defaults.agentName;
    var i := 0;
    while i < |args|
      invariant 0 <= i <= |args|
      invariant Parse(args[i..], Options(configPath, watchDirectory, agentName)) == Parse(args, defaults)
      decreases |args| - i
    {
      assert args[i..][1..] == args[i + 1..];
      assert i + 1 < |args| ==> args[i..][1] == args[i + 1] && args[i..][2..] == args[i + 2..];
      match args[i] {
        case "-c" =>
          if i + 1 < |args| {
            i := i + 1;
            configPath := args[i];
          } else {
            return MissingValue("Error: --config requires a path");
          }
        case "--config" =>
          if i + 1 < |args| {
            i := i + 1;
            configPath := args[i];
          } else {
            return MissingValue("Error: --config requires a path");
          }
        case "-d" =>
          if i + 1 < |args| {
            i := i + 1;
            watchDirectory := args[i];
          } else {
            return MissingValue("Error: --directory requires a path");
          }
        case "--directory" =>
          if i + 1 < |args| {
            i := i + 1;
            watchDirectory := args[i];
          } else {
            return MissingValue("Error: --directory requires a path");
          }
        case "-a" =>
          if i + 1 < |args| {
            i := i + 1;
            agentName := args[i];
          } else {
            return MissingValue("Error: --agent requires a name");
          }
        case "--agent" =>
          if i + 1 < |args| {
            i := i + 1;
            agentName := args[i];
          } else {
            return MissingValue("Error: --agent requires a name");
          }
        case "-h" =>
          return Help;
        case "--help" =>
          return Help;
        case _ =>
      }
      i := i + 1;
    }
    assert args[i..] == [];
    outcome := Run(Options(configPath, watchDirectory, agentName));
  }

  /** Parsing a prefix that runs to completion, then the rest, is parsing
      the rest from the settings the prefix left. */
  lemma {:induction false} ParseConcat(a: seq<string>, b: seq<string>, opts: Options, mid: Options)
    requires Parse(a, opts) == Run(mid)
    ensures Parse(a + b, opts) == Parse(b, mid)
    decreases |a|
  {
    if a == [] {
      assert a + b == b;
    } else {
      var ab := a + b;
      assert ab[0] == a[0] && ab[1..] == a[1..] + b;
      if ValueFlag(a[0]) {
        assert |a| > 1;
        assert ab[1] == a[1] && ab[2..] == a[2..] + b;
        var next := match a[0]
          case "-c" => opts.(configPath := a[1])
          case "--config" => opts.(configPath := a[1])
          case "-d" => opts.(watchDirectory := a[1])
          case "--directory" => opts.(watchDirectory := a[1])
          case "-a" => opts.(agentName := a[1])
          case _ => opts.(agentName := a[1]);
        assert Parse(a, opts) == Parse(a[2..], next);
        assert Parse(ab, opts) == Parse(ab[2..], next);
        ParseConcat(a[2..], b, next, mid);
      } else {
        assert !HelpFlag(a[0]);
        ParseConcat(a[1..], b, opts, mid);
      }
    }
  }

  /** A flag's value is taken verbatim, even when it looks like a flag, and
      a later occurrence of the same setting overrides an earlier one. */
  lemma ValueTakenVerbatimAndOverridden(opts: Options, x: string, y: string)
    ensures Parse(["-a", "-h"], opts) == Run(opts.(agentName := "-h"))
    ensures Parse(["-c", x, "--config", y], opts) == Run(opts.(configPath := y))
  {
    var first := ["-a", "-h"];
    assert first[0] == "-a" && first[1] == "-h" && first[2..] == [];
    assert Parse(first, opts) == Parse([], opts.(agentName := "-h"));
    var args := ["-c", x, "--config", y];
    var tail := args[2..];
    assert args[0] == "-c" && args[1] == x && tail == ["--config", y];
    assert tail[0] == "--config" && tail[1] == y && tail[2..] == [];
    var o1 := opts.(configPath := x);
    assert TakeValue(tail, o1.(configPath := y), "Error: --config requires a path", o1) == Parse([], o1.(configPath := y));
    assert Parse(tail, o1) == TakeValue(tail, o1.(configPath := y), "Error: --config requires a path", o1);
    assert o1.(configPath := y) == opts.(configPath := y);
    assert Parse(args, opts) == Parse(tail, opts.(configPath := x));
  }

  /** Help ends parsing wherever it appears after a prefix that parsed
      cleanly: nothing after it is read, not even a flag missing its value. */
  lemma HelpStopsParsing(a: seq<string>, rest: seq<string>, opts: Options, mid: Options)
    requires Parse(a, opts) == Run(mid)
    ensures Parse(a + ["--help"] + rest, opts) == Help
    ensures Parse(a + ["-h"] + rest, opts) == Help
  {
    ParseConcat(a, ["--help"] + rest, opts, mid);
    assert a + ["--help"] + rest == a + (["--help"] + rest);
    ParseConcat(a, ["-h"] + rest, opts, mid);
    assert a + ["-h"] + rest == a + (["-h"] + rest);
  }

  /** A value-taking flag in last position stops with its error. */
  lemma TrailingFlagIsAnError(a: seq<string>, flag: string, opts: Options, mid: Options)
    requires Parse(a, opts) == Run(mid) && ValueFlag(flag)
    ensures Parse(a + [flag], opts).MissingValue?
  {
    ParseConcat(a, [flag], opts, mid);
  }

  /** Unrecognised arguments are skipped without effect. */
  lemma UnknownArgumentSkipped(x: string, rest: seq<string>, opts: Options)
    requires !ValueFlag(x) && !HelpFlag(x)
    ensures Parse([x] + rest, opts) == Parse(rest, opts)
  {
    assert ([x] + rest)[1..] == rest;
  }

  /** How Main ends. */
  datatype LaunchOutcome =
    | Stopped(parse: ParseOutcome)   // help or a missing flag value
    | CopyFailed                      // File.Copy threw and Main ended with it
    | NoDirectory(options: Options)   // the watch directory is missing
    | Started(options: Options)       // the daemon was built and started

  /** Main (Program.cs:8-96) after the arguments: copy the example
      configuration when the configuration file is missing, refuse a
      missing watch directory, and otherwise build and start the daemon.
      The file system's answers are the parameters. */
  method Launch(args: seq<string>, currentDirectory: string, userName: string,
                configExists: string -> bool, copySucceeds: bool, directoryExists: string -> bool,
                load: LoadResult)
    returns (outcome: LaunchOutcome, daemon: PermissionDaemon?)
    ensures !Parse(args, Defaults(currentDirectory, userName)).Run? ==> outcome == Stopped(Parse(args, Defaults(currentDirectory, userName)))
    ensures daemon != null <==> outcome.Started?
    ensures outcome.Started? ==>
      && Parse(args, Defaults(currentDirectory, userName)) == Run(outcome.options)
      && (configExists(outcome.options.configPath) || copySucceeds)
      && directoryExists(outcome.options.watchDirectory)
    ensures daemon != null ==>
      && fresh(daemon)
      && daemon.configPath == outcome.options.configPath
      && daemon.watchDirectory == outcome.options.watchDirectory
      && daemon.agentName == outcome.options.agentName
      && daemon.config == Loaded(load) && daemon.enforcer != null
    ensures var p := Parse(args, Defaults(currentDirectory, userName));
      outcome == CopyFailed <==> p.Run? && !configExists(p.options.configPath) && !copySucceeds
    ensures var p := Parse(args, Defaults(currentDirectory, userName));
      outcome.NoDirectory? <==>
        && p.Run? && (configExists(p.options.configPath) || copySucceeds)
        && !directoryExists(p.options.watchDirectory)
    ensures outcome.NoDirectory? ==> Parse(args, Defaults(currentDirectory, userName)) == Run(outcome.options)
    ensures var p := Parse(args, Defaults(currentDirectory, userName));
      && p.Run? && (configExists(p.options.configPath) || copySucceeds)
      && directoryExists(p.options.watchDirectory)
      ==> outcome == Started(p.options)
  {
    daemon := null;
    var parsed := ParseArguments(args, Defaults(currentDirectory, userName));
    if !parsed.Run? {
      return Stopped(parsed), null;
    }
    var options := parsed.options;
    if !configExists(options.configPath) && !copySucceeds {
      return CopyFailed, null;
    }
    if !directoryExists(options.watchDirectory) {
      return NoDirectory(options), null;
    }
    daemon := new PermissionDaemon(options.configPath, options.watchDirectory, options.agentName);
    daemon.Start(load);
    outcome := Started(options);
  }
}
