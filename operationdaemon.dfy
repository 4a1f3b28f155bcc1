/** The operation-rule daemon of src/PermissionDaemon/PermissionDaemon.cs.
    A rule names one user and the operations that user may perform on the
    files its pattern matches.  Every operation on a watched file is checked
    against the rules in order; the first matching rule that refuses the
    current user writes a violation and ends the check, and a refused delete
    is undone from a `.backup` copy.  The glob test against the live
    directory, the current user and the file system's failures are inputs. */
module OperationDaemon {
  import opened Common

  /** Rule (src/PermissionDaemon/PermissionDaemon.cs:16-21). */
  datatype Rule = Rule(pattern: string, user: string, allowedOperations: seq<string>)

  /** DaemonConfig (src/PermissionDaemon/PermissionDaemon.cs:11-14). */
  datatype DaemonConfig = DaemonConfig(rules: seq<Rule>)

  /** `list.Contains(item, StringComparer.OrdinalIgnoreCase)`. */
  function ContainsIgnoreCase(list: seq<string>, item: string): (r: bool)
    ensures r <==> exists i :: 0 <= i < |list| && EqualsIgnoreCase(list[i], item)
  {
    if list == [] then false
    else if EqualsIgnoreCase(list[0], item) then true
    else
      var r := ContainsIgnoreCase(list[1..], item);
      assert forall i :: 0 <= i < |list| - 1 ==> list[1..][i] == list[i + 1];
      r
  }

  /** IsOperationAllowed: the user must be the rule's user up to case; an
      empty operation list then allows everything, otherwise the operation
      must be listed, up to case. */
  function IsOperationAllowed(currentUser: string, rule: Rule, operation: string): (r: bool)
    ensures r <==>
      && EqualsIgnoreCase(currentUser, rule.user)
      && (|rule.allowedOperations| == 0
          || exists i :: 0 <= i < |rule.allowedOperations| && EqualsIgnoreCase(rule.allowedOperations[i], operation))
  {
    if !EqualsIgnoreCase(currentUser, rule.user) then false
    else if |rule.allowedOperations| == 0 then true
    else ContainsIgnoreCase(rule.allowedOperations, operation)
  }

  /** One entry of access_violations.log: who, which relative path, the
      matching rule's pattern and the operation. */
  datatype Violation = Violation(user: string, filePath: string, pattern: string, operation: string)

  /** What the daemon writes to the console, without timestamps. */
  datatype Report =
    | OperationSeen(operation: string, relativePath: string)
    | AccessDenied(user: string, operation: string, relativePath: string, pattern: string)
    | ViolationWritten(violation: Violation)
    | OperationAllowed(user: string, operation: string, relativePath: string)
    | RuleError(pattern: string)
    | Restored(relativePath: string)
    | RestoreFailed
    | ConfigNotFound
    | LoadError
    | ConfigReloaded

  /** One checked operation: the current user, the operation's name, the
      watcher's full path and its path relative to the root. */
  datatype Check = Check(user: string, operation: string, fullPath: string, relativePath: string)

  /** The violation rule `rule` records for `c`. */
  function ViolationFor(c: Check, rule: Rule): Violation
  {
    Violation(c.user, c.relativePath, rule.pattern, c.operation)
  }

  /** Rule `k` ends the check: its pattern matches, it refuses the user,
      and the violation reaches the log (a failed append throws into the
      rule's own handler, and the check goes on). */
  predicate StopsAt(rules: seq<Rule>, k: nat, c: Check, matches: (string, string) -> MatchOutcome, appendOk: nat -> bool)
    requires k < |rules|
  {
    && matches(rules[k].pattern, c.fullPath) == Matched
    && !IsOperationAllowed(c.user, rules[k], c.operation)
    && appendOk(k)
  }

  /** The console lines one rule produces, given its glob outcome and
      whether its violation append succeeds. */
  function RuleReports(rule: Rule, c: Check, outcome: MatchOutcome, appended: bool): seq<Report>
  {
    match outcome
    case MatchFailed => [RuleError(rule.pattern)]
    case NotMatched => []
    case Matched =>
      if IsOperationAllowed(c.user, rule, c.operation) then [OperationAllowed(c.user, c.operation, c.relativePath)]
      else
        [AccessDenied(c.user, c.operation, c.relativePath, rule.pattern), ViolationWritten(ViolationFor(c, rule))]
        + (if appended then [] else [RuleError(rule.pattern)])
  }

  /** The rule scan from rule `k` on: its console lines and the rule that
      ended it, if one did. */
  datatype Scan = Scan(reports: seq<Report>, stoppedAt: Option<nat>)

  function ScanFrom(rules: seq<Rule>, k: nat, c: Check, matches: (string, string) -> MatchOutcome, appendOk: nat -> bool): (r: Scan)
    requires k <= |rules|
    ensures r.stoppedAt.Some? ==> k <= r.stoppedAt.value < |rules|
    decreases |rules| - k
  {
    if k == |rules| then Scan([], None)
    else
      var step := RuleReports(rules[k], c, matches(rules[k].pattern, c.fullPath), appendOk(k));
      if StopsAt(rules, k, c, matches, appendOk) then Scan(step, Some(k))
      else
        var rest := ScanFrom(rules, k + 1, c, matches, appendOk);
        Scan(step + rest.reports, rest.stoppedAt)
  }

  /** The scan ends at rule `j` exactly when `j` is the first rule from `k`
      on that stops it: matching rules that allow the user do not end it,
      and neither do rules whose glob test or violation append throws. */
  lemma {:induction false} ScanStopsAtFirstDenial(rules: seq<Rule>, k: nat, c: Check, matches: (string, string) -> MatchOutcome, appendOk: nat -> bool, j: nat)
    requires k <= |rules|
    ensures ScanFrom(rules, k, c, matches, appendOk).stoppedAt == Some(j) <==>
      && k <= j < |rules| && StopsAt(rules, j, c, matches, appendOk)
      && forall m :: k <= m < j ==> !StopsAt(rules, m, c, matches, appendOk)
    ensures ScanFrom(rules, k, c, matches, appendOk).stoppedAt == None <==>
      forall m :: k <= m < |rules| ==> !StopsAt(rules, m, c, matches, appendOk)
    decreases |rules| - k
  {
    if k < |rules| && !StopsAt(rules, k, c, matches, appendOk) {
      ScanStopsAtFirstDenial(rules, k + 1, c, matches, appendOk, j);
    }
  }

  /** What one call of CheckAndHandleOperation produces: its console lines,
      the entries it appends to the violation log and the files afterwards. */
  datatype Outcome = Outcome(reports: seq<Report>, logged: seq<Violation>, files: set<string>)

  /** What follows a refusal: a refused delete whose `.backup` copy exists
      has the copy moved back onto the path; a failed move is reported and
      changes nothing. */
  function AfterRefusal(files: set<string>, c: Check, moveOk: bool): Outcome
  {
    var backup := c.fullPath + ".backup";
    if c.operation == "delete" && backup in files then
      if moveOk then Outcome([Restored(c.relativePath)], [], files - {backup} + {c.fullPath})
      else Outcome([RestoreFailed], [], files)
    else Outcome([], [], files)
  }

  /** CheckAndHandleOperation as a function of the state before it. */
  function Handle(rules: seq<Rule>, configPath: string, files: set<string>, c: Check,
                  matches: (string, string) -> MatchOutcome, appendOk: nat -> bool, moveOk: bool): (r: Outcome)
    ensures |r.reports| >= 1 && r.reports[0] == OperationSeen(c.operation, c.relativePath)
    ensures |r.logged| <= 1
    ensures r.files != files ==> c.operation == "delete" && c.fullPath + ".backup" in files && moveOk
  {
    var seen := [OperationSeen(c.operation, c.relativePath)];
    if c.fullPath == configPath then Outcome(seen, [], files)
    else
      var scan := ScanFrom(rules, 0, c, matches, appendOk);
      match scan.stoppedAt
      case None => Outcome(seen + scan.reports, [], files)
      case Some(k) =>
        var after := AfterRefusal(files, c, moveOk);
        Outcome(seen + scan.reports + after.reports, [ViolationFor(c, rules[k])], after.files)
  }

  /** The violation log gains exactly one entry when some rule stops the
      check, and that entry names the first such rule; otherwise it is
      unchanged.  The configuration file itself is never checked. */
  lemma HandleLogsFirstDenial(rules: seq<Rule>, configPath: string, files: set<string>, c: Check,
                              matches: (string, string) -> MatchOutcome, appendOk: nat -> bool, moveOk: bool, j: nat)
    ensures |Handle(rules, configPath, files, c, matches, appendOk, moveOk).logged| <= 1
    ensures Handle(rules, configPath, files, c, matches, appendOk, moveOk).logged == [] <==>
      c.fullPath == configPath || forall m :: 0 <= m < |rules| ==> !StopsAt(rules, m, c, matches, appendOk)
    ensures
      && c.fullPath != configPath && j < |rules| && StopsAt(rules, j, c, matches, appendOk)
      && (forall m :: 0 <= m < j ==> !StopsAt(rules, m, c, matches, appendOk))
      ==> Handle(rules, configPath, files, c, matches, appendOk, moveOk).logged == [ViolationFor(c, rules[j])]
  {
    ScanStopsAtFirstDenial(rules, 0, c, matches, appendOk, j);
  }

  /** The files change only when a refused delete finds its `.backup` copy
      and the move succeeds: the copy then takes the deleted file's place. */
  lemma RestoreOnlyAfterRefusedDelete(rules: seq<Rule>, configPath: string, files: set<string>, c: Check,
                                      matches: (string, string) -> MatchOutcome, appendOk: nat -> bool, moveOk: bool)
    ensures var o := Handle(rules, configPath, files, c, matches, appendOk, moveOk);
      o.files != files ==>
        && c.operation == "delete" && |o.logged| == 1 && moveOk
        && c.fullPath + ".backup" in files
        && o.files == files - {c.fullPath + ".backup"} + {c.fullPath}
    ensures var o := Handle(rules, configPath, files, c, matches, appendOk, moveOk);
      c.operation == "delete" && |o.logged| == 1 && moveOk && c.fullPath + ".backup" in files ==>
        c.fullPath in o.files && c.fullPath + ".backup" !in o.files
  {
    var o := Handle(rules, configPath, files, c, matches, appendOk, moveOk);
    if c.operation == "delete" && |o.logged| == 1 && moveOk && c.fullPath + ".backup" in files {
      assert c.fullPath + ".backup" != c.fullPath by {
        assert |c.fullPath + ".backup"| != |c.fullPath|;
      }
    }
  }

  /** An event on the configuration file is logged and nothing else. */
  lemma ConfigFileOnlyLogged(rules: seq<Rule>, configPath: string, files: set<string>, c: Check,
                             matches: (string, string) -> MatchOutcome, appendOk: nat -> bool, moveOk: bool)
    requires c.fullPath == configPath
    ensures Handle(rules, configPath, files, c, matches, appendOk, moveOk)
      == Outcome([OperationSeen(c.operation, c.relativePath)], [], files)
  {
  }

  /** The rule table CreateDefaultConfig builds. */
  function DefaultRules(): seq<Rule>
  {
    [ Rule("**/*test*.cs", "tester", ["read", "create", "change", "delete"]),
      Rule("**/*.cs", "editor", ["read", "create", "change"]),
      Rule("**/*", "admin", ["read", "create", "change", "delete"]) ]
  }

  /** No default rule lets anyone rename: every default rule lists its
      operations, and neither rename operation is among them. */
  lemma DefaultRulesRefuseRenames(user: string)
    ensures |DefaultRules()| == 3
    ensures forall k :: 0 <= k < 3 ==>
      !IsOperationAllowed(user, DefaultRules()[k], "rename_from")
      && !IsOperationAllowed(user, DefaultRules()[k], "rename_to")
  {
    forall k, i | 0 <= k < 3 && 0 <= i < |DefaultRules()[k].allowedOperations|
      ensures !EqualsIgnoreCase(DefaultRules()[k].allowedOperations[i], "rename_from")
      ensures !EqualsIgnoreCase(DefaultRules()[k].allowedOperations[i], "rename_to")
    {
      var op := DefaultRules()[k].allowedOperations[i];
      assert |op| <= 6;
      assert |Lower(op)| != |Lower("rename_from")| && |Lower(op)| != |Lower("rename_to")|;
    }
  }

  /** Under the default table a rename is stopped by the first rule whose
      pattern matches, whoever the user is, once its violation is logged. */
  lemma DefaultRenameStopsAtFirstMatch(c: Check, matches: (string, string) -> MatchOutcome, appendOk: nat -> bool, j: nat)
    requires c.operation in {"rename_from", "rename_to"}
    requires j < 3 && matches(DefaultRules()[j].pattern, c.fullPath) == Matched && appendOk(j)
    requires forall m :: 0 <= m < j ==> matches(DefaultRules()[m].pattern, c.fullPath) != Matched
    ensures ScanFrom(DefaultRules(), 0, c, matches, appendOk).stoppedAt == Some(j)
  {
    DefaultRulesRefuseRenames(c.user);
    ScanStopsAtFirstDenial(DefaultRules(), 0, c, matches, appendOk, j);
  }

  /** What the configuration file yields when it exists: a deserialized
      configuration (null when the JSON is `null`), or an exception. */
  datatype ConfigRead = Deserialized(result: Option<DaemonConfig>) | Threw

  /** The console lines of one LoadConfig: a missing file is reported, and an
      error is reported when reading threw or writing the defaults failed. */
  function LoadReports(configPresent: bool, read: ConfigRead, writeSucceeds: bool): (r: seq<Report>)
    ensures ConfigNotFound in r <==> !configPresent
    ensures LoadError in r <==> if configPresent then read.Threw? else !writeSucceeds
    ensures forall k :: 0 <= k < |r| ==> r[k] in {ConfigNotFound, LoadError}
    ensures |r| <= 2
  {
    (if configPresent then [] else [ConfigNotFound])
    + (if configPresent then (if read.Threw? then [LoadError] else [])
       else (if writeSucceeds then [] else [LoadError]))
  }

  /** The daemon's state: the rules in force, the files on disk that the
      model follows, the violation log and the console. */
  class PermissionDaemon {
    const rootDirectory: string
    const configPath: string
    var config: DaemonConfig
    var files: set<string>
    var violationLog: seq<Violation>
    var console: seq<Report>

    /** The constructor (src/PermissionDaemon/PermissionDaemon.cs:32-36): the
        configuration file is `permissions.config` in the current directory
        and no rules are loaded yet. */
    constructor (currentDirectory: string, files: set<string>)
      ensures rootDirectory == currentDirectory
      ensures configPath == Combine(currentDirectory, "permissions.config")
      ensures config == DaemonConfig([]) && this.files == files
      ensures violationLog == [] && console == []
    {
      rootDirectory := currentDirectory;
      configPath := Combine(currentDirectory, "permissions.config");
      config := DaemonConfig([]);
      this.files := files;
      violationLog := [];
      console := [];
    }

    /** CreateDefaultConfig: a fresh configuration with the three default
        rules added in order. */
    method CreateDefaultConfig()
      modifies this`config
      ensures config == DaemonConfig(DefaultRules())
    {
      config := DaemonConfig([]);
      config := config.(rules := config.rules + [Rule("**/*test*.cs", "tester", ["read", "create", "change", "delete"])]);
      config := config.(rules := config.rules + [Rule("**/*.cs", "editor", ["read", "create", "change"])]);
      config := config.(rules := config.rules + [Rule("**/*", "admin", ["read", "create", "change", "delete"])]);
    }

    /** LoadConfig: a non-null deserialized configuration is installed; a
        null one, a missing file or an exception installs the default table.
        A missing file is also created, unless writing it throws. */
    method LoadConfig(read: ConfigRead, writeSucceeds: bool)
      modifies this`config, this`files, this`console
      ensures read.Deserialized? && read.result.Some? && configPath in old(files)
        ==> config == read.result.value
      ensures !(read.Deserialized? && read.result.Some? && configPath in old(files))
        ==> config == DaemonConfig(DefaultRules())
      ensures files == if configPath !in old(files) && writeSucceeds then old(files) + {configPath} else old(files)
      ensures console == old(console) + LoadReports(configPath in old(files), read, writeSucceeds)
    {
      if configPath in files {
        match read {
          case Deserialized(result) =>
            if result.Some? {
              config := result.value;
            } else {
              CreateDefaultConfig();
            }
          case Threw =>
            console := console + [LoadError];
            CreateDefaultConfig();
        }
      } else {
        console := console + [ConfigNotFound];
        CreateDefaultConfig();
        if writeSucceeds {
          files := files + {configPath};
        } else {
          console := console + [LoadError];
          CreateDefaultConfig();
        }
      }
    }

    /** HandleConfigChange (src/PermissionDaemon/PermissionDaemon.cs:93-106):
        reload, then report it. */
    method HandleConfigChange(read: ConfigRead, writeSucceeds: bool)
      modifies this`config, this`files, this`console
      ensures !(read.Deserialized? && read.result.Some? && configPath in old(files))
        ==> config == DaemonConfig(DefaultRules())
      ensures read.Deserialized? && read.result.Some? && configPath in old(files)
        ==> config == read.result.value
      ensures files == if configPath !in old(files) && writeSucceeds then old(files) + {configPath} else old(files)
      ensures console == old(console) + LoadReports(configPath in old(files), read, writeSucceeds) + [ConfigReloaded]
      ensures violationLog == old(violationLog)
    {
      LoadConfig(read, writeSucceeds);
      console := console + [ConfigReloaded];
    }

    /** LogAccessViolation: the entry goes to the console, then is appended
        to access_violations.log; a failed append throws to the caller. */
    method LogAccessViolation(v: Violation, appendOk: bool) returns (appended: bool)
      modifies this`console, this`violationLog
      ensures console == old(console) + [ViolationWritten(v)]
      ensures violationLog == old(violationLog) + (if appendOk then [v] else [])
      ensures appended == appendOk
    {
      console := console + [ViolationWritten(v)];
      if appendOk {
        violationLog := violationLog + [v];
      }
      appended := appendOk;
    }

    /** One pass of the rule loop: the rule's glob outcome and whether its
        violation append succeeds are given; the result says whether the
        check ends here. */
    method CheckRule(rule: Rule, c: Check, outcome: MatchOutcome, appendOk: bool) returns (stop: bool)
      modifies this`console, this`violationLog
      ensures stop <==> outcome == Matched && !IsOperationAllowed(c.user, rule, c.operation) && appendOk
      ensures console == old(console) + RuleReports(rule, c, outcome, appendOk)
      ensures violationLog == old(violationLog) + (if stop then [ViolationFor(c, rule)] else [])
    {
      stop := false;
      match outcome {
        case MatchFailed =>
          console := console + [RuleError(rule.pattern)];
        case NotMatched =>
        case Matched =>
          if !IsOperationAllowed(c.user, rule, c.operation) {
            console := console + [AccessDenied(c.user, c.operation, c.relativePath, rule.pattern)];
            stop := LogAccessViolation(ViolationFor(c, rule), appendOk);
            if !stop {
              console := console + [RuleError(rule.pattern)];
            }
          } else {
            console := console + [OperationAllowed(c.user, c.operation, c.relativePath)];
          }
      }
    }

    /** The restore attempt after a refusal. */
    method RestoreAfterRefusal(c: Check, moveOk: bool)
      modifies this`files, this`console
      ensures files == AfterRefusal(old(files), c, moveOk).files
      ensures console == old(console) + AfterRefusal(old(files), c, moveOk).reports
    {
      if c.operation == "delete" && c.fullPath + ".backup" in files {
        if moveOk {
          files := files - {c.fullPath + ".backup"} + {c.fullPath};
          console := console + [Restored(c.relativePath)];
        } else {
          console := console + [RestoreFailed];
        }
      }
    }

    /** The rule loop of CheckAndHandleOperation: rules are checked in order
        until one ends the check. */
    method ScanRules(c: Check, matches: (string, string) -> MatchOutcome, appendOk: nat -> bool)
      returns (stoppedAt: Option<nat>)
      modifies this`console, this`violationLog
      ensures stoppedAt == ScanFrom(config.rules, 0, c, matches, appendOk).stoppedAt
      ensures console == old(console) + ScanFrom(config.rules, 0, c, matches, appendOk).reports
      ensures violationLog == old(violationLog) + if stoppedAt.Some? then [ViolationFor(c, config.rules[stoppedAt.value])] else []
    {
      ghost var rules := config.rules;
      ghost var whole := ScanFrom(rules, 0, c, matches, appendOk);
      var i := 0;
      while i < |config.rules|
        invariant 0 <= i <= |rules| && config.rules == rules
        invariant violationLog == old(violationLog)
        invariant old(console) + whole.reports == console + ScanFrom(rules, i, c, matches, appendOk).reports
        invariant whole.stoppedAt == ScanFrom(rules, i, c, matches, appendOk).stoppedAt
        decreases |rules| - i
      {
        ghost var before := console;
        var stop := CheckRule(config.rules[i], c, matches(config.rules[i].pattern, c.fullPath), appendOk(i));
        if stop {
          assert ScanFrom(rules, i, c, matches, appendOk).reports == console[|before|..];
          return Some(i);
        }
        AppendAssociates(before, RuleReports(rules[i], c, matches(rules[i].pattern, c.fullPath), appendOk(i)),
                         ScanFrom(rules, i + 1, c, matches, appendOk).reports);
        i := i + 1;
      }
      assert ScanFrom(rules, i, c, matches, appendOk) == Scan([], None);
      return None;
    }

    /** CheckAndHandleOperation: log the operation, skip the configuration
        file, then scan the rules in order and try to restore a refused
        delete.  The glob test of a rule's pattern against the path, and
        whether rule `k`'s violation append and the backup move succeed, are
        inputs. */
    method CheckAndHandleOperation(fullPath: string, operation: string, currentUser: string,
                                   matches: (string, string) -> MatchOutcome, appendOk: nat -> bool, moveOk: bool)
      modifies this`files, this`violationLog, this`console
      ensures var o := Handle(config.rules, configPath, old(files),
                              Check(currentUser, operation, fullPath, RelativePath(rootDirectory, fullPath)),
                              matches, appendOk, moveOk);
        && console == old(console) + o.reports
        && violationLog == old(violationLog) + o.logged
        && files == o.files
    {
      var c := Check(currentUser, operation, fullPath, RelativePath(rootDirectory, fullPath));
      var seen := [OperationSeen(operation, c.relativePath)];
      console := console + seen;
      if fullPath == configPath {
        return;
      }
      var stoppedAt := ScanRules(c, matches, appendOk);
      ghost var scan := ScanFrom(config.rules, 0, c, matches, appendOk);
      AppendAssociates(old(console), seen, scan.reports);
      if stoppedAt.Some? {
        RestoreAfterRefusal(c, moveOk);
        AppendAssociates(old(console), seen + scan.reports, AfterRefusal(old(files), c, moveOk).reports);
      }
    }

    /** HandleFileRename: the old path is checked as `rename_from`, then the
        new path as `rename_to`, under the same rules. */
    method HandleFileRename(oldFullPath: string, fullPath: string, currentUser: string,
                            matches: (string, string) -> MatchOutcome, appendFrom: nat -> bool, appendTo: nat -> bool)
      modifies this`files, this`violationLog, this`console
      ensures var from := Handle(config.rules, configPath, old(files),
                                 Check(currentUser, "rename_from", oldFullPath, RelativePath(rootDirectory, oldFullPath)),
                                 matches, appendFrom, false);
              var to := Handle(config.rules, configPath, from.files,
                               Check(currentUser, "rename_to", fullPath, RelativePath(rootDirectory, fullPath)),
                               matches, appendTo, false);
        && console == old(console) + from.reports + to.reports
        && violationLog == old(violationLog) + from.logged + to.logged
        && files == old(files)
    {
      ghost var files0 := files;
      CheckAndHandleOperation(oldFullPath, "rename_from", currentUser, matches, appendFrom, false);
      RestoreOnlyAfterRefusedDelete(config.rules, configPath, files0,
        Check(currentUser, "rename_from", oldFullPath, RelativePath(rootDirectory, oldFullPath)), matches, appendFrom, false);
      ghost var files1 := files;
      CheckAndHandleOperation(fullPath, "rename_to", currentUser, matches, appendTo, false);
      RestoreOnlyAfterRefusedDelete(config.rules, configPath, files1,
        Check(currentUser, "rename_to", fullPath, RelativePath(rootDirectory, fullPath)), matches, appendTo, false);
    }
  }
}
