/** The delete-guarding daemon of src/PermissionDaemon/Program.cs.  A rule
    names the one user allowed to delete the files its pattern matches.
    Only deletions are checked: the first matching rule naming another user
    records a violation and ends the check.  The glob test against the live
    directory, the current user and the file system's failures are inputs. */
module SimpleDaemon {
  import opened Common

  /** Rule (src/PermissionDaemon/Program.cs:15-19). */
  datatype Rule = Rule(pattern: string, allowedUser: string)

  /** DaemonConfig (src/PermissionDaemon/Program.cs:10-13). */
  datatype DaemonConfig = DaemonConfig(rules: seq<Rule>)

  /** WatcherChangeTypes as the watcher reports them. */
  datatype ChangeType = Created | Deleted | Changed | Renamed

  /** One entry of access_violations.log. */
  datatype Violation = Violation(user: string, filePath: string, pattern: string, operation: string)

  /** What the daemon writes to the console, without timestamps. */
  datatype Report =
    | EventSeen(changeType: ChangeType, relativePath: string)
    | AccessViolation(user: string, relativePath: string, pattern: string, allowedUser: string)
    | ViolationWritten(violation: Violation)
    | LogWriteFailed
    | DeleteAllowed(user: string, relativePath: string)
    | RuleError(pattern: string)
    | OperationAllowed(changeType: ChangeType, relativePath: string)
    | ConfigMissing
    | ConfigLoaded(ruleCount: nat)
    | RuleListed(rule: Rule)
    | ConfigInvalid
    | LoadError
    | DefaultSaved(path: string)
    | SaveFailed
    | ConfigReloaded

  /** One processed event: the current user, the watcher's full path and
      its path relative to the root. */
  datatype Event = Event(user: string, fullPath: string, relativePath: string)

  /** Rule `k` ends the check of a deletion: its pattern matches and it
      names another user (compared ignoring case). */
  predicate RefusesAt(rules: seq<Rule>, k: nat, e: Event, matches: (string, string) -> MatchOutcome)
    requires k < |rules|
  {
    matches(rules[k].pattern, e.fullPath) == Matched && !EqualsIgnoreCase(e.user, rules[k].allowedUser)
  }

  /** The violation rule `rule` records for `e`. */
  function ViolationFor(e: Event, rule: Rule): Violation
  {
    Violation(e.user, e.relativePath, rule.pattern, "delete")
  }

  /** The console lines one rule produces for a deletion, given its glob
      outcome and whether the violation append succeeds. */
  function RuleReports(rule: Rule, e: Event, outcome: MatchOutcome, appended: bool): seq<Report>
  {
    match outcome
    case MatchFailed => [RuleError(rule.pattern)]
    case NotMatched => []
    case Matched =>
      if EqualsIgnoreCase(e.user, rule.allowedUser) then [DeleteAllowed(e.user, e.relativePath)]
      else
        [AccessViolation(e.user, e.relativePath, rule.pattern, rule.allowedUser), ViolationWritten(ViolationFor(e, rule))]
        + (if appended then [] else [LogWriteFailed])
  }

  /** The rule scan of a deletion from rule `k` on: its console lines, the
      violations it appends to the log and the rule that ended it. */
  datatype Scan = Scan(reports: seq<Report>, logged: seq<Violation>, stoppedAt: Option<nat>)

  function ScanFrom(rules: seq<Rule>, k: nat, e: Event, matches: (string, string) -> MatchOutcome, appendOk: nat -> bool): (r: Scan)
    requires k <= |rules|
    ensures r.stoppedAt.Some? ==> k <= r.stoppedAt.value < |rules|
    ensures r.logged == if r.stoppedAt.Some? && appendOk(r.stoppedAt.value) then [ViolationFor(e, rules[r.stoppedAt.value])] else []
    decreases |rules| - k
  {
    if k == |rules| then Scan([], [], None)
    else
      var step := RuleReports(rules[k], e, matches(rules[k].pattern, e.fullPath), appendOk(k));
      if RefusesAt(rules, k, e, matches) then
        Scan(step, if appendOk(k) then [ViolationFor(e, rules[k])] else [], Some(k))
      else
        var rest := ScanFrom(rules, k + 1, e, matches, appendOk);
        Scan(step + rest.reports, rest.logged, rest.stoppedAt)
  }

  /** The scan ends at rule `j` exactly when `j` is the first refusing rule
      from `k` on; matching rules naming the user, rules whose glob test
      throws and failed log appends do not change where it ends. */
  lemma {:induction false} ScanStopsAtFirstRefusal(rules: seq<Rule>, k: nat, e: Event, matches: (string, string) -> MatchOutcome,
                                                  appendOk: nat -> bool, j: nat)
    requires k <= |rules|
    ensures ScanFrom(rules, k, e, matches, appendOk).stoppedAt == Some(j) <==>
      && k <= j < |rules| && RefusesAt(rules, j, e, matches)
      && forall m :: k <= m < j ==> !RefusesAt(rules, m, e, matches)
    ensures ScanFrom(rules, k, e, matches, appendOk).stoppedAt == None <==>
      forall m :: k <= m < |rules| ==> !RefusesAt(rules, m, e, matches)
    decreases |rules| - k
  {
    if k < |rules| && !RefusesAt(rules, k, e, matches) {
      ScanStopsAtFirstRefusal(rules, k + 1, e, matches, appendOk, j);
    }
  }

  /** ProcessFileEvent as a function of the state before it: its console
      lines and the violations it appends. */
  datatype Outcome = Outcome(reports: seq<Report>, logged: seq<Violation>)

  function Process(rules: seq<Rule>, configPath: string, e: Event, changeType: ChangeType,
                   matches: (string, string) -> MatchOutcome, appendOk: nat -> bool): (r: Outcome)
    ensures r.reports == [] <==> EqualsIgnoreCase(e.fullPath, configPath)
    ensures r.reports != [] ==> r.reports[0] == EventSeen(changeType, e.relativePath)
    ensures |r.logged| <= 1
    ensures r.logged != [] ==> changeType == Deleted
  {
    if EqualsIgnoreCase(e.fullPath, configPath) then Outcome([], [])
    else if changeType == Deleted then
      var scan := ScanFrom(rules, 0, e, matches, appendOk);
      Outcome([EventSeen(changeType, e.relativePath)] + scan.reports, scan.logged)
    else Outcome([EventSeen(changeType, e.relativePath), OperationAllowed(changeType, e.relativePath)], [])
  }

  /** Only deletions are checked against the rules: any other change is
      reported as allowed and never logged as a violation, and an event on
      the configuration file, in any letter case, is ignored entirely. */
  lemma OnlyDeletionsAreChecked(rules: seq<Rule>, configPath: string, e: Event, changeType: ChangeType,
                                matches: (string, string) -> MatchOutcome, appendOk: nat -> bool)
    ensures changeType != Deleted ==> Process(rules, configPath, e, changeType, matches, appendOk).logged == []
    ensures EqualsIgnoreCase(e.fullPath, configPath) ==> Process(rules, configPath, e, changeType, matches, appendOk) == Outcome([], [])
    ensures !EqualsIgnoreCase(e.fullPath, configPath) && changeType != Deleted ==>
      Process(rules, configPath, e, changeType, matches, appendOk).reports
        == [EventSeen(changeType, e.relativePath), OperationAllowed(changeType, e.relativePath)]
  {
  }

  /** A violation always ends the check, whether or not it reaches the log
      file, and at most one violation is logged: the one of the first
      refusing rule, when its append succeeds. */
  lemma ViolationEndsCheck(rules: seq<Rule>, configPath: string, e: Event,
                           matches: (string, string) -> MatchOutcome, appendOk: nat -> bool, otherAppend: nat -> bool, j: nat)
    requires !EqualsIgnoreCase(e.fullPath, configPath)
    requires j < |rules| && RefusesAt(rules, j, e, matches)
    requires forall m :: 0 <= m < j ==> !RefusesAt(rules, m, e, matches)
    ensures ScanFrom(rules, 0, e, matches, appendOk).stoppedAt == Some(j)
    ensures ScanFrom(rules, 0, e, matches, otherAppend).stoppedAt == Some(j)
    ensures Process(rules, configPath, e, Deleted, matches, appendOk).logged
      == if appendOk(j) then [ViolationFor(e, rules[j])] else []
  {
    ScanStopsAtFirstRefusal(rules, 0, e, matches, appendOk, j);
    ScanStopsAtFirstRefusal(rules, 0, e, matches, otherAppend, j);
  }

  /** The rule table CreateDefaultConfig builds. */
  function DefaultRules(): seq<Rule>
  {
    [Rule("**/*test*.cs", "tester"), Rule("**/*.cs", "editor"), Rule("**/*.config", "admin")]
  }

  /** Under the default table a tester deleting a test source file that
      both of the first two patterns match passes the first rule but is
      stopped by the second, which names the editor. */
  lemma DefaultTableStopsTesterAtEditorRule(e: Event, matches: (string, string) -> MatchOutcome, appendOk: nat -> bool)
    requires e.user == "tester"
    requires matches("**/*test*.cs", e.fullPath) == Matched && matches("**/*.cs", e.fullPath) == Matched
    ensures ScanFrom(DefaultRules(), 0, e, matches, appendOk).stoppedAt == Some(1)
  {
    assert !RefusesAt(DefaultRules(), 0, e, matches);
    assert RefusesAt(DefaultRules(), 1, e, matches) by {
      assert Lower("tester") != Lower("editor") by {
        assert Lower("tester")[0] == 't' && Lower("editor")[0] == 'e';
      }
    }
    ScanStopsAtFirstRefusal(DefaultRules(), 0, e, matches, appendOk, 1);
  }

  /** What the configuration file yields when it exists: a deserialized
      configuration (null when the JSON is `null`), or an exception. A
      configuration whose rule list is null makes the rule count on
      src/PermissionDaemon/Program.cs:280 throw inside the same try, so it reads as `Threw`. */
  datatype ConfigRead = Deserialized(result: Option<DaemonConfig>) | Threw

  /** The lines listing a loaded configuration's rules. */
  function Listing(rules: seq<Rule>): (r: seq<Report>)
    ensures |r| == |rules| && forall i :: 0 <= i < |rules| ==> r[i] == RuleListed(rules[i])
  {
    if rules == [] then [] else [RuleListed(rules[0])] + Listing(rules[1..])
  }

  /** The console lines of CreateDefaultConfig. */
  function SaveReports(configPath: string, writeSucceeds: bool): seq<Report>
  {
    if writeSucceeds then [DefaultSaved(configPath)] else [SaveFailed]
  }

  /** The daemon's state: the rules in force, the files on disk that the
      model follows, the violation log and the console. */
  class SimplePermissionDaemon {
    const rootDirectory: string
    const configPath: string
    var config: DaemonConfig
    var files: set<string>
    var violationLog: seq<Violation>
    var console: seq<Report>

    /** The constructor (src/PermissionDaemon/Program.cs:30-34). */
    constructor (currentDirectory: string, files: set<string>)
      ensures rootDirectory == currentDirectory
      ensures configPath == Combine(currentDirectory, "permissions.config")
      ensures config == DaemonConfig([]) && this.files == files
      ensures violationLog == [] && console == []
    {
      rootDirectory := currentDirectory;
      configPath := Combine(currentDirectory, "permissions.config");
      config := DaemonConfig([]);
      this.files := files;
      violationLog := [];
      console := [];
    }

    /** CreateDefaultConfig: install the three default rules in order, then
        save them to the configuration file; a failed save is reported and
        changes nothing else. */
    method CreateDefaultConfig(writeSucceeds: bool)
      modifies this`config, this`files, this`console
      ensures config == DaemonConfig(DefaultRules())
      ensures files == if writeSucceeds then old(files) + {configPath} else old(files)
      ensures console == old(console) + SaveReports(configPath, writeSucceeds)
    {
      config := DaemonConfig([]);
      config := config.(rules := config.rules + [Rule("**/*test*.cs", "tester")]);
      config := config.(rules := config.rules + [Rule("**/*.cs", "editor")]);
      config := config.(rules := config.rules + [Rule("**/*.config", "admin")]);
      if writeSucceeds {
        files := files + {configPath};
        console := console + [DefaultSaved(configPath)];
      } else {
        console := console + [SaveFailed];
      }
    }

    /** EnsureConfigExists: a missing configuration file is replaced by the
        default table. */
    method EnsureConfigExists(writeSucceeds: bool)
      modifies this`config, this`files, this`console
      ensures configPath in old(files) ==> config == old(config) && files == old(files) && console == old(console)
      ensures configPath !in old(files) ==>
        && config == DaemonConfig(DefaultRules())
        && (writeSucceeds ==> configPath in files)
        && console == old(console) + [ConfigMissing] + SaveReports(configPath, writeSucceeds)
    {
      if configPath !in files {
        console := console + [ConfigMissing];
        CreateDefaultConfig(writeSucceeds);
      }
    }

    /** The loop listing the rules of a freshly loaded configuration. */
    method ListRules()
      modifies this`console
      ensures console == old(console) + Listing(config.rules)
    {
      var i := 0;
      while i < |config.rules|
        invariant 0 <= i <= |config.rules|
        invariant console == old(console) + Listing(config.rules[..i])
      {
        assert config.rules[..i + 1] == config.rules[..i] + [config.rules[i]];
        ListingAppend(config.rules[..i], config.rules[i]);
        console := console + [RuleListed(config.rules[i])];
        i := i + 1;
      }
      assert config.rules[..i] == config.rules;
    }

    /** LoadConfig: a non-null deserialized configuration is installed and
        listed; a null one, a missing file or an exception installs (and
        saves) the default table. */
    method LoadConfig(read: ConfigRead, writeSucceeds: bool)
      modifies this`config, this`files, this`console
      ensures read.Deserialized? && read.result.Some? && configPath in old(files) ==>
        && config == read.result.value && files == old(files)
        && console == old(console) + [ConfigLoaded(|config.rules|)] + Listing(config.rules)
      ensures !(read.Deserialized? && read.result.Some? && configPath in old(files)) ==>
        && config == DaemonConfig(DefaultRules())
        && files == (if writeSucceeds then old(files) + {configPath} else old(files))
        && console == old(console)
             + [if configPath !in old(files) then ConfigMissing else if read.Threw? then LoadError else ConfigInvalid]
             + SaveReports(configPath, writeSucceeds)
    {
      if configPath in files {
        match read {
          case Deserialized(result) =>
            if result.Some? {
              config := result.value;
              console := console + [ConfigLoaded(|config.rules|)];
              ListRules();
            } else {
              console := console + [ConfigInvalid];
              CreateDefaultConfig(writeSucceeds);
            }
          case Threw =>
            console := console + [LoadError];
            CreateDefaultConfig(writeSucceeds);
        }
      } else {
        console := console + [ConfigMissing];
        CreateDefaultConfig(writeSucceeds);
      }
    }

    /** OnConfigChanged (src/PermissionDaemon/Program.cs:122-135): reload,
        then report it. */
    method OnConfigChanged(read: ConfigRead, writeSucceeds: bool)
      modifies this`config, this`files, this`console
      ensures read.Deserialized? && read.result.Some? && configPath in old(files) ==>
        && config == read.result.value && files == old(files)
        && console == old(console) + [ConfigLoaded(|config.rules|)] + Listing(config.rules) + [ConfigReloaded]
      ensures !(read.Deserialized? && read.result.Some? && configPath in old(files)) ==>
        && config == DaemonConfig(DefaultRules())
        && files == (if writeSucceeds then old(files) + {configPath} else old(files))
        && console == old(console)
             + [if configPath !in old(files) then ConfigMissing else if read.Threw? then LoadError else ConfigInvalid]
             + SaveReports(configPath, writeSucceeds) + [ConfigReloaded]
      ensures violationLog == old(violationLog)
    {
      LoadConfig(read, writeSucceeds);
      console := console + [ConfigReloaded];
    }

    /** LogAccessViolation: the entry goes to the console, then is appended
        to access_violations.log; a failed append is reported and caught
        here, so the caller's check still ends. */
    method LogAccessViolation(v: Violation, appendOk: bool)
      modifies this`console, this`violationLog
      ensures violationLog == old(violationLog) + (if appendOk then [v] else [])
      ensures console == old(console) + [ViolationWritten(v)] + (if appendOk then [] else [LogWriteFailed])
    {
      console := console + [ViolationWritten(v)];
      if appendOk {
        violationLog := violationLog + [v];
      } else {
        console := console + [LogWriteFailed];
      }
    }

    /** One pass of the rule loop over a deletion. */
    method CheckRule(rule: Rule, e: Event, outcome: MatchOutcome, appendOk: bool) returns (stop: bool)
      modifies this`console, this`violationLog
      ensures stop <==> outcome == Matched && !EqualsIgnoreCase(e.user, rule.allowedUser)
      ensures console == old(console) + RuleReports(rule, e, outcome, appendOk)
      ensures violationLog == old(violationLog) + (if stop && appendOk then [ViolationFor(e, rule)] else [])
    {
      stop := false;
      match outcome {
        case MatchFailed =>
          console := console + [RuleError(rule.pattern)];
        case NotMatched =>
        case Matched =>
          if !EqualsIgnoreCase(e.user, rule.allowedUser) {
            console := console + [AccessViolation(e.user, e.relativePath, rule.pattern, rule.allowedUser)];
            LogAccessViolation(ViolationFor(e, rule), appendOk);
            stop := true;
          } else {
            console := console + [DeleteAllowed(e.user, e.relativePath)];
          }
      }
    }

    /** The rule loop of ProcessFileEvent for a deletion. */
    method ScanRules(e: Event, matches: (string, string) -> MatchOutcome, appendOk: nat -> bool)
      modifies this`console, this`violationLog
      ensures console == old(console) + ScanFrom(config.rules, 0, e, matches, appendOk).reports
      ensures violationLog == old(violationLog) + ScanFrom(config.rules, 0, e, matches, appendOk).logged
    {
      ghost var rules := config.rules;
      ghost var whole := ScanFrom(rules, 0, e, matches, appendOk);
      var i := 0;
      while i < |config.rules|
        invariant 0 <= i <= |rules| && config.rules == rules
        invariant violationLog == old(violationLog)
        invariant old(console) + whole.reports == console + ScanFrom(rules, i, e, matches, appendOk).reports
        invariant whole == ScanFrom(rules, i, e, matches, appendOk).(reports := whole.reports)
        decreases |rules| - i
      {
        ghost var before := console;
        var stop := CheckRule(config.rules[i], e, matches(config.rules[i].pattern, e.fullPath), appendOk(i));
        if stop {
          assert ScanFrom(rules, i, e, matches, appendOk).reports == console[|before|..];
          return;
        }
        AppendAssociates(before, RuleReports(rules[i], e, matches(rules[i].pattern, e.fullPath), appendOk(i)),
                         ScanFrom(rules, i + 1, e, matches, appendOk).reports);
        i := i + 1;
      }
      assert ScanFrom(rules, i, e, matches, appendOk) == Scan([], [], None);
    }

    /** ProcessFileEvent: ignore the configuration file, report the event,
        and check deletions against the rules. */
    method ProcessFileEvent(fullPath: string, changeType: ChangeType, currentUser: string,
                            matches: (string, string) -> MatchOutcome, appendOk: nat -> bool)
      modifies this`console, this`violationLog
      ensures var o := Process(config.rules, configPath, Event(currentUser, fullPath, RelativePath(rootDirectory, fullPath)),
                               changeType, matches, appendOk);
        console == old(console) + o.reports && violationLog == old(violationLog) + o.logged
    {
      var e := Event(currentUser, fullPath, RelativePath(rootDirectory, fullPath));
      if EqualsIgnoreCase(fullPath, configPath) {
        return;
      }
      ghost var c0 := console;
      var seen := [EventSeen(changeType, e.relativePath)];
      console := console + seen;
      if changeType == Deleted {
        ScanRules(e, matches, appendOk);
        AppendAssociates(c0, seen, ScanFrom(config.rules, 0, e, matches, appendOk).reports);
      } else {
        console := console + [OperationAllowed(changeType, e.relativePath)];
        assert seen + [OperationAllowed(changeType, e.relativePath)]
          == [EventSeen(changeType, e.relativePath), OperationAllowed(changeType, e.relativePath)];
      }
    }

    /** OnFileRenamed: the old path is processed as a deletion, then the new
        path as a creation. */
    method OnFileRenamed(oldFullPath: string, fullPath: string, currentUser: string,
                         matches: (string, string) -> MatchOutcome, appendOk: nat -> bool)
      modifies this`console, this`violationLog
      ensures var from := Process(config.rules, configPath, Event(currentUser, oldFullPath, RelativePath(rootDirectory, oldFullPath)),
                                  Deleted, matches, appendOk);
              var to := Process(config.rules, configPath, Event(currentUser, fullPath, RelativePath(rootDirectory, fullPath)),
                                Created, matches, appendOk);
        && console == old(console) + from.reports + to.reports
        && violationLog == old(violationLog) + from.logged
    {
      ProcessFileEvent(oldFullPath, Deleted, currentUser, matches, appendOk);
      ProcessFileEvent(fullPath, Created, currentUser, matches, appendOk);
    }
  }

  lemma ListingAppend(rules: seq<Rule>, rule: Rule)
    ensures Listing(rules + [rule]) == Listing(rules) + [RuleListed(rule)]
  {
  }
}
