# File permission daemon: a Dafny model

The repository holds three generations of one idea: a daemon that watches a
directory and keeps an agent (a user or a tool) to a table of file-access
rules.

* **The root daemon** (`Program.cs`, `PermissionDaemon.cs`,
  `PermissionEnforcer.cs`, `GlobPatternMatcher.cs`, `Logger.cs`,
  `DaemonConfig.cs`) reads YAML rules. Each rule maps glob patterns to
  per-agent `rwx` strings. The daemon answers "may this agent do this
  action on this file", logs an audit line, and chmods the file to the
  permission of the first matching rule.
* **The operation daemon** (`src/PermissionDaemon/PermissionDaemon.cs`)
  reads JSON rules of the form pattern, user and allowed operations. On a
  refused operation it writes a violation record. After a refused delete it
  moves a `.backup` copy back into place.
* **The simple daemon** (`src/PermissionDaemon/Program.cs`) reads JSON rules
  of the form pattern and allowed user. It checks deletions only, logs the
  first refusing rule, and lists its rules on every load.
* **The polling daemon** (`permission_daemon/daemon.py`) reads
  whitespace-separated `pattern perms` lines. Once a second it walks the tree
  and chmods new or modified files after every rule whose pattern matches the
  base name.

Module by module:

* `Common`: path helpers (`Combine`, `FileName`, `RelativePath`) and ASCII
  case-insensitive comparison.
* `GlobPatternMatcher`: the glob-to-regex translation as a sequence of regex
  tokens, with a matcher for those tokens.
* `Configuration`: the YAML configuration.
* `PermissionEnforcement`: the rule table and the `PermissionEnforcer` class.
* `Logging`: the console logger.
* `RootDaemon`: the `PermissionDaemon` class.
* `CommandLine`: `Main`'s argument loop and start-up gates.
* `OperationDaemon`, `SimpleDaemon` and `PollingDaemon`: the three other
  daemons, each a class whose fields are the source's fields.

Several things outside the program become parameters:
* what the file system answers (existence, a write or move that fails, mtimes);
* what a deserialiser returns;
* what an external glob matcher (`Microsoft.Extensions.FileSystemGlobbing`,
  Python's `fnmatch`) answers.

Each console is a sequence of report values. The chmods issued, the violation
log and the set of files on disk are fields too. A method states its whole
new state through a specification function. Lemmas about those functions say
what the source promises: the first refusing rule wins in the C# daemons, the
last matching rule wins in Python, a failed load allows everything, and so on.

Two comments in the source describe behaviour that the code does not have.
The model follows the code:
* the comment at PermissionEnforcer.cs:248-251 gives the third letter of a
  permission as "execute/delete", but a `Delete` action is in the write
  group (PermissionEnforcer.cs:263-270) and is judged by the second letter;
* the comment at GlobPatternMatcher.cs:55 says `?` matches one character
  other than a slash, but it becomes the regex `.`, which also matches `/`.

Some consequences of the code are easy to miss, and the model states them:
* a path that no rule matches is allowed;
* a configuration that fails to load becomes an empty configuration, which allows everything;
* `LogInfo` writes at the `Verbose` level, so a `Debug` logger hides it;
* in the polling daemon the configuration is never reloaded, because a walked path is `./permissions.conf` and is compared with `permissions.conf`.

## Model

| member | source | states |
|---|---|---|
| Common.CombineJoins | src/PermissionDaemon/PermissionDaemon.cs:35 | a combined path starts with the directory and ends with the name, with a separator between them when the directory is not empty |
| Common.FileName | PermissionEnforcer.cs:61 | the base name of a path holds no separator |
| Common.FileNameIsLastSegment | PermissionEnforcer.cs:61 | the base name is a suffix of the path, preceded by a separator when shorter than the path |
| Common.FileNameOfJoin | permission_daemon/daemon.py:57 | the base name of `root/name` is `name` |
| Common.Lower | PermissionDaemon.cs:137 | lower-casing keeps the length and maps each character |
| Common.EqualsIgnoreCaseIsPointwise | src/PermissionDaemon/PermissionDaemon.cs:219 | an ordinal-ignore-case comparison is equal length and letter-by-letter equality up to case |
| Common.LowerOfLowerCase | PermissionDaemon.cs:137-143 | text without capitals is its own lower-case form |
| GlobPatternMatcher.Normalize | GlobPatternMatcher.cs:19-20 | backslashes become slashes, position by position, and none remain |
| GlobPatternMatcher.Atoms | GlobPatternMatcher.cs:49 | escaping maps each pattern character to one regex atom |
| GlobPatternMatcher.ConvertGlobToRegex | GlobPatternMatcher.cs:46-58 | after the rewrites no raw `*` or `?` token is left: every wildcard has been translated |
| GlobPatternMatcher.IsMatchAny | GlobPatternMatcher.cs:34-44 | true exactly when some pattern of the list matches the path |
| GlobPatternMatcher.ReplaceUnit | GlobPatternMatcher.cs:54-55 | replacing a one-token target rewrites each occurrence in place and keeps the length |
| GlobPatternMatcher.ReplaceNoOccurrence | GlobPatternMatcher.cs:52-55 | a replacement whose target does not occur changes nothing |
| GlobPatternMatcher.ReplaceKeepsHead | GlobPatternMatcher.cs:52-55 | a head token that cannot start the target is kept |
| GlobPatternMatcher.ConvertWithoutDoubleStar | GlobPatternMatcher.cs:46-58 | a pattern without `**` converts character by character: `*` to `[^/]*`, `?` to `.`, the rest literal |
| GlobPatternMatcher.ConvertDirsPrefix | GlobPatternMatcher.cs:52 | a leading `**/` becomes the optional-directories group `(.*/)?` before the rest |
| GlobPatternMatcher.ConvertThreeStarsSlash | GlobPatternMatcher.cs:52-57 | the rewrites run in order, so `***/` becomes `^[^/]*(.*/)?$` |
| GlobPatternMatcher.LiteralsMatch | GlobPatternMatcher.cs:23-25 | literal atoms match their own text, ignoring case, then the rest of the regex matches the remainder |
| GlobPatternMatcher.SegmentRunMatch | GlobPatternMatcher.cs:54 | `[^/]*` matches exactly the texts without a slash |
| GlobPatternMatcher.AnyRunMatch | GlobPatternMatcher.cs:53 | `.*` matches exactly the texts without a newline |
| GlobPatternMatcher.SegmentThenLiterals | GlobPatternMatcher.cs:54 | `[^/]*` followed by a literal matches a slash-free stem followed by that literal |
| GlobPatternMatcher.DirsThenPrefix | GlobPatternMatcher.cs:52 | the optional-directories group absorbs any newline-free prefix that ends in `/` |
| GlobPatternMatcher.DirsPrefix | GlobPatternMatcher.cs:52 | `(.*/)?` followed by a regex matches an empty or `/`-ended prefix followed by a match of that regex |
| GlobPatternMatcher.DirsThenSplits | GlobPatternMatcher.cs:52 | whatever the optional-directories group consumes ends in `/` and holds no newline, and the rest of the regex matches what follows |
| GlobPatternMatcher.NormalizeWithoutBackslash | GlobPatternMatcher.cs:19-20 | text without backslashes is left unchanged |
| GlobPatternMatcher.IsMatchSeparatorInvariant | GlobPatternMatcher.cs:19-20 | matching does not distinguish `\` from `/` in the pattern or in the path |
| GlobPatternMatcher.LiteralPattern | GlobPatternMatcher.cs:16-26 | a pattern without wildcards matches exactly its own text, ignoring case |
| GlobPatternMatcher.StarAlone | GlobPatternMatcher.cs:16-26 | `*` matches exactly the paths with no separator |
| GlobPatternMatcher.DoubleStarAlone | GlobPatternMatcher.cs:16-26 | `**` matches every newline-free path, across directories |
| GlobPatternMatcher.QuestAlone | GlobPatternMatcher.cs:16-26 | `?` matches exactly the one-character paths, `/` included |
| GlobPatternMatcher.OneCharMatch | GlobPatternMatcher.cs:55 | `.` matches exactly one non-newline character |
| GlobPatternMatcher.ConvertLiteralThenWildcard | GlobPatternMatcher.cs:46-58 | a literal followed by one wildcard converts to the literal's atoms and that wildcard's token |
| GlobPatternMatcher.LiteralThenWildcardShape | GlobPatternMatcher.cs:20-23 | the same holds after separator normalisation |
| GlobPatternMatcher.PrefixThenStar | GlobPatternMatcher.cs:16-26 | `w*` matches a path starting with `w` whose remainder has no separator |
| GlobPatternMatcher.PrefixThenQuest | GlobPatternMatcher.cs:16-26 | `w?` matches `w` followed by exactly one non-newline character |
| GlobPatternMatcher.StarThenSuffix | GlobPatternMatcher.cs:16-26 | `*w` matches a slash-free stem followed by `w` |
| GlobPatternMatcher.ConvertStarThenLiteral | GlobPatternMatcher.cs:46-58 | `*w` with a literal `w` converts to the segment run `[^/]*` followed by `w`'s atoms |
| GlobPatternMatcher.AnyDirsPrefix | GlobPatternMatcher.cs:16-26 | `**/q` matches `q`'s matches under any directory prefix, including none (the converse is `AnyDirsPrefixOnly`) |
| GlobPatternMatcher.AnyDirsPrefixOnly | GlobPatternMatcher.cs:16-26 | every match of `**/q` is an empty or `/`-ended, newline-free prefix followed by a match of `q` |
| GlobPatternMatcher.StarThenSuffixPlain | GlobPatternMatcher.cs:16-26 | `*w` on a path without backslashes matches a slash-free stem followed by `w` |
| GlobPatternMatcher.ExtensionTexts | tests/GlobPatternMatcherTests.cs:50-53 | which of the tested names have a slash-free stem before `.txt`, `.cs` or `.js` |
| GlobPatternMatcher.StarExtensionAccepts | tests/GlobPatternMatcherTests.cs:13 | `*.txt` matches `file.txt` |
| GlobPatternMatcher.StarExtensionRejectsOther | tests/GlobPatternMatcherTests.cs:14 | `*.txt` does not match `file.cs` |
| GlobPatternMatcher.StarExtensionStaysInSegment | GlobPatternMatcher.cs:54 | `*.txt` does not match `dir/file.txt`: a single star stays in one segment |
| GlobPatternMatcher.PrefixThenStarPlain | GlobPatternMatcher.cs:16-26 | for a path without backslashes, `w*` matches `w` up to case followed by a slash-free rest |
| GlobPatternMatcher.PrefixThenQuestPlain | GlobPatternMatcher.cs:16-26 | for a path without backslashes, `w?` matches `w` up to case followed by one non-newline character |
| GlobPatternMatcher.PrefixStarAccepts | tests/GlobPatternMatcherTests.cs:21-22 | `test*` matches `test123` and `test` |
| GlobPatternMatcher.PrefixStarRejectsLaterPrefix | tests/GlobPatternMatcherTests.cs:23 | `test*` does not match `pretest` |
| GlobPatternMatcher.PrefixQuestAccepts | tests/GlobPatternMatcherTests.cs:30-31 | `test?` matches `test1` and `testa` |
| GlobPatternMatcher.PrefixQuestRejectsOtherLengths | tests/GlobPatternMatcherTests.cs:32-33 | `test?` matches neither `test12` nor `test` |
| GlobPatternMatcher.DirsExtensionUnder | tests/GlobPatternMatcherTests.cs:40-42 | `**/*.txt` matches `file.txt` at any directory depth |
| GlobPatternMatcher.AnyPatternFinds | tests/GlobPatternMatcherTests.cs:51 | the list `*.txt`, `*.cs`, `*.js` matches `code.cs` |
| Configuration.EmptyConfig | DaemonConfig.cs:5-22 | a fresh configuration has version `1.0`, no rules, the `verbose` level and audit on |
| Configuration.Find | PermissionEnforcer.cs:225-233 | a dictionary lookup finds a value exactly when the key is present, and the value is stored under it |
| Configuration.Values | PermissionEnforcer.cs:116 | the dictionary's values, in order |
| PermissionEnforcement.SlotFor | PermissionEnforcer.cs:241-280 | which letter of `rwx` judges an action: read first, then write or delete, then execute alone; an action with none of these flags is judged by the write letter |
| PermissionEnforcement.IsActionAllowed | PermissionEnforcer.cs:241-280 | a permission shorter than three letters allows nothing; otherwise the action is allowed exactly when its slot holds its letter |
| PermissionEnforcement.DeleteUsesWriteSlot | PermissionEnforcer.cs:254-270 | delete is judged by the write letter, so `rw-` allows it and `r-x` does not |
| PermissionEnforcement.ExecuteUsesExecuteSlot | PermissionEnforcer.cs:273-276 | an execute action is allowed exactly when the third letter is `x`, so `--x` allows it and `rw-` does not |
| PermissionEnforcement.FullAndEmptyPermissions | PermissionEnforcer.cs:241-280 | `rwx` allows every action, and `---` and short strings allow none |
| PermissionEnforcement.FirstThreeLettersDecide | PermissionEnforcer.cs:241-280 | only the first three letters of a permission matter |
| PermissionEnforcement.GetPermissionForAgent | PermissionEnforcer.cs:222-239 | the agent's own entry wins, then `default`, then `---` |
| PermissionEnforcement.FirstOfLengthThree | PermissionEnforcer.cs:116-122 | the first value of length three, when there is one |
| PermissionEnforcement.GetDefaultPermissionForFile | PermissionEnforcer.cs:104-126 | the `default` entry when there is one; otherwise the first three-letter value, or `---` when no value has three letters |
| PermissionEnforcement.ShouldRestrictWrite | PermissionEnforcer.cs:128-140 | a rule restricts writes exactly when none of its values grants `w` |
| PermissionEnforcement.RestrictedRuleDeniesWrites | PermissionEnforcer.cs:128-140 | under such a rule no agent may perform a pure write action |
| PermissionEnforcement.FirstMatchingRule | PermissionEnforcer.cs:36-43 | the index of the first rule with a matching pattern, or none when no rule matches |
| PermissionEnforcement.FirstMatchUnique | PermissionEnforcer.cs:36-37 | the first matching rule is unique |
| PermissionEnforcement.OctalDigit | PermissionEnforcer.cs:213-220 | an octal digit is below 8 |
| PermissionEnforcement.ConvertPermissionToOctal | PermissionEnforcer.cs:213-220 | the digit's bits 4, 2 and 1 are set exactly when the letters are `r`, `w` and `x` |
| PermissionEnforcement.ModeFor | PermissionEnforcer.cs:185-211 | the chmod mode has three digits |
| PermissionEnforcement.ModeForGrantsEveryClass | PermissionEnforcer.cs:198-202 | the mode repeats the one digit for owner, group and others |
| PermissionEnforcement.EnforcementChmods | PermissionEnforcer.cs:56-102 | an existing file whose first name-matching rule gives a three-letter permission gets exactly one chmod with that permission's mode; in every other case there is none |
| PermissionEnforcement.EnforcementSeesOnlyFileName | PermissionEnforcer.cs:61-71 | enforcement depends on the base name alone |
| PermissionEnforcement.MatchedExistingFileWithoutDefaultIsChmodded | PermissionEnforcer.cs:56-102 | an existing file whose first matching rule has no `default` entry is chmodded |
| PermissionEnforcement.PermissionEnforcer.constructor | PermissionEnforcer.cs:16-20 | holds the configuration and the agent, with no chmod yet |
| PermissionEnforcement.PermissionEnforcer.UpdateConfig | PermissionEnforcer.cs:22-25 | replaces the configuration |
| PermissionEnforcement.PermissionEnforcer.HasPermission | PermissionEnforcer.cs:33-50 | an unmatched path is allowed; otherwise the first matching rule's permission for the agent decides |
| PermissionEnforcement.PermissionEnforcer.SetUnixPermissions | PermissionEnforcer.cs:185-211 | records one chmod for a three-letter permission and nothing otherwise |
| PermissionEnforcement.PermissionEnforcer.EnforcePermissions | PermissionEnforcer.cs:56-102 | appends exactly the enforcement chmods for the path: one chmod with the first matching rule's mode, or none |
| PermissionEnforcement.EmptyConfigAllowsEverything | PermissionEnforcer.cs:33-50 | with no rules every action on every path is allowed |
| Logging.Log | Logger.cs:34-42 | a line is written exactly when the level is enabled, tagged with the level's name |
| Logging.LogInfo | Logger.cs:44-47 | info lines are written at the Verbose level, so only Minimal and Verbose loggers show them |
| Logging.LogWarning | Logger.cs:49-52 | warnings are always written, prefixed `WARNING: ` |
| Logging.LogError | Logger.cs:54-57 | errors are always written, prefixed `ERROR: ` |
| Logging.LogDebug | Logger.cs:59-62 | debug lines appear only under a Debug logger |
| Logging.LogAudit | Logger.cs:64-71 | audit lines appear exactly when audit is on |
| Logging.Written | Logger.cs:34-42 | a logging call writes at most one line |
| Logging.ShouldLog | Logger.cs:73-82 | Minimal lines are always written, Verbose lines under every logger except Debug, Debug lines only under Debug |
| Logging.InfoAndDebugExclusive | Logger.cs:44-62 | exactly one of info and debug is shown under any logger |
| Logging.LevelOrder | Logger.cs:6-11 | the levels are ordered Minimal, Verbose, Debug, with distinct ranks |
| RootDaemon.ParseLogLevel | PermissionDaemon.cs:135-144 | `minimal` and `debug`, in any case, select those levels; anything else is Verbose |
| RootDaemon.ParseLogLevelReadsLevelNames | PermissionDaemon.cs:135-144 | the level names read back as their levels |
| RootDaemon.AccessTypeFor | PermissionDaemon.cs:111-118 | `Deleted` maps to Delete; the other watcher events are judged as writes, anything else as a read |
| RootDaemon.Loaded | PermissionDaemon.cs:74-92 | a parsed configuration is installed as is; a failed load leaves the empty configuration, without rules |
| RootDaemon.FailedLoadLogsVerbosely | PermissionDaemon.cs:27-33 | after a failed load the logger is built at the Verbose level with audit on |
| RootDaemon.CountTagAppend | PermissionDaemon.cs:102-133 | counting lines of one tag distributes over concatenation |
| RootDaemon.EventAuditedOnce | PermissionDaemon.cs:102-133 | a judged event writes one audit line when audit is on, and one warning exactly when it is blocked |
| RootDaemon.EventLinesShape | PermissionDaemon.cs:102-133 | an event writes one debug line under a Debug logger, then, when judged, one audit line when audit is on and one warning exactly when it is refused, the warning last |
| RootDaemon.DebugLoggerHidesBanner | PermissionDaemon.cs:35-37 | the start-up banner is empty exactly under a Debug logger |
| RootDaemon.PermissionDaemon.constructor | PermissionDaemon.cs:18-23 | keeps the paths and the agent; no logger, enforcer or output yet |
| RootDaemon.PermissionDaemon.Write | PermissionDaemon.cs:102-133 | appends lines to the console |
| RootDaemon.PermissionDaemon.LoadConfiguration | PermissionDaemon.cs:74-92 | the configuration becomes the load's result, or empty on failure, and the load is logged |
| RootDaemon.PermissionDaemon.Start | PermissionDaemon.cs:25-65 | loads, builds the logger from the configuration and a fresh enforcer with no chmods, and logs the banner |
| RootDaemon.PermissionDaemon.OnConfigFileChanged | PermissionDaemon.cs:94-100 | reloads, hands the new configuration to the same enforcer, and logs the reload |
| RootDaemon.PermissionDaemon.OnMonitoredFileChanged | PermissionDaemon.cs:102-133 | judges the event with the enforcer, logs the audit and block lines, then enforces the chmods |
| RootDaemon.FailedReloadAllowsEverything | PermissionDaemon.cs:74-100 | after a failed reload the enforcer allows every action on every path |
| CommandLine.Defaults | Program.cs:11-13 | the settings start as `permissions.yaml`, the current directory and the user name |
| CommandLine.ParseArguments | Program.cs:15-60 | the argument loop computes the parse of the arguments |
| CommandLine.ParseTakesSettingsFromArguments | Program.cs:15-60 | every parsed setting is its default or one of the arguments; a missing value is reported only for a value flag in last position; arguments with no flag leave the defaults |
| CommandLine.ParseConcat | Program.cs:15-60 | parsing a cleanly parsed prefix and then the rest is parsing the rest from the prefix's settings |
| CommandLine.ValueTakenVerbatimAndOverridden | Program.cs:19-54 | a flag's value is taken verbatim even when it looks like a flag, and a later flag overrides an earlier one |
| CommandLine.HelpStopsParsing | Program.cs:55-58 | help ends parsing whatever follows it |
| CommandLine.TrailingFlagIsAnError | Program.cs:21-53 | a value flag in last position stops with its error |
| CommandLine.UnknownArgumentSkipped | Program.cs:17-59 | unknown arguments are ignored |
| CommandLine.Launch | Program.cs:8-96 | a copy failure and a missing directory occur exactly at their gates, in that order; a clean parse with the configuration present or copied and an existing directory starts the daemon on the parsed settings |
| OperationDaemon.ContainsIgnoreCase | src/PermissionDaemon/PermissionDaemon.cs:227-228 | some listed operation equals the item, ignoring case |
| OperationDaemon.IsOperationAllowed | src/PermissionDaemon/PermissionDaemon.cs:217-229 | allowed exactly for the rule's user, ignoring case, and then for every operation when the list is empty or for a listed one |
| OperationDaemon.ScanFrom | src/PermissionDaemon/PermissionDaemon.cs:152-214 | the scan stops, if at all, at a rule from the starting index |
| OperationDaemon.ScanStopsAtFirstDenial | src/PermissionDaemon/PermissionDaemon.cs:152-214 | the scan stops at rule `j` exactly when `j` matches, refuses and is logged, and no earlier rule does |
| OperationDaemon.HandleLogsFirstDenial | src/PermissionDaemon/PermissionDaemon.cs:140-215 | at most one violation is logged: the first refusing rule's, and none for the configuration file |
| OperationDaemon.Handle | src/PermissionDaemon/PermissionDaemon.cs:140-215 | every operation is reported first; at most one violation is logged; files change only when a refused delete's backup moves back |
| OperationDaemon.RestoreOnlyAfterRefusedDelete | src/PermissionDaemon/PermissionDaemon.cs:188-200 | the file set changes only when a refused delete has a backup that moves back |
| OperationDaemon.ConfigFileOnlyLogged | src/PermissionDaemon/PermissionDaemon.cs:145-149 | the configuration file is reported and nothing else happens |
| OperationDaemon.DefaultRulesRefuseRenames | src/PermissionDaemon/PermissionDaemon.cs:274-301 | none of the default rules lists a rename operation, so a rename is refused |
| OperationDaemon.DefaultRenameStopsAtFirstMatch | src/PermissionDaemon/PermissionDaemon.cs:274-301 | under the defaults a rename stops at the first matching rule |
| OperationDaemon.PermissionDaemon.constructor | src/PermissionDaemon/PermissionDaemon.cs:32-36 | the configuration path is `permissions.config` in the current directory |
| OperationDaemon.PermissionDaemon.CreateDefaultConfig | src/PermissionDaemon/PermissionDaemon.cs:274-301 | the configuration becomes the three default rules |
| OperationDaemon.PermissionDaemon.LoadConfig | src/PermissionDaemon/PermissionDaemon.cs:238-272 | a present, parsed file is taken as is; otherwise the defaults are used, and written when the file was missing |
| OperationDaemon.LoadReports | src/PermissionDaemon/PermissionDaemon.cs:238-272 | a missing file is reported exactly when the file is absent, and an error exactly when reading threw or writing the defaults failed; nothing else is reported |
| OperationDaemon.PermissionDaemon.HandleConfigChange | src/PermissionDaemon/PermissionDaemon.cs:93-106 | reloads as `LoadConfig` does (configuration, files written and console lines) and then reports the reload |
| OperationDaemon.PermissionDaemon.LogAccessViolation | src/PermissionDaemon/PermissionDaemon.cs:303-312 | reports the violation and appends it to the log when the append succeeds |
| OperationDaemon.PermissionDaemon.CheckRule | src/PermissionDaemon/PermissionDaemon.cs:154-213 | a rule stops the scan exactly when it matches, refuses and is logged |
| OperationDaemon.PermissionDaemon.RestoreAfterRefusal | src/PermissionDaemon/PermissionDaemon.cs:188-200 | moves the backup back into place as the refusal outcome says |
| OperationDaemon.PermissionDaemon.ScanRules | src/PermissionDaemon/PermissionDaemon.cs:152-214 | the loop reports and logs exactly what the scan function says |
| OperationDaemon.PermissionDaemon.CheckAndHandleOperation | src/PermissionDaemon/PermissionDaemon.cs:140-215 | the console, the violation log and the files become those of the handling outcome |
| OperationDaemon.PermissionDaemon.HandleFileRename | src/PermissionDaemon/PermissionDaemon.cs:123-138 | checks the old name and then the new one, with no file moved |
| SimpleDaemon.ScanFrom | src/PermissionDaemon/Program.cs:183-216 | a violation is logged only at the stopping rule, and only when its append succeeds |
| SimpleDaemon.ScanStopsAtFirstRefusal | src/PermissionDaemon/Program.cs:183-216 | the scan stops at rule `j` exactly when `j` matches and refuses the user and no earlier rule does |
| SimpleDaemon.OnlyDeletionsAreChecked | src/PermissionDaemon/Program.cs:173-223 | only deletions are checked, and the configuration file is ignored entirely |
| SimpleDaemon.ViolationEndsCheck | src/PermissionDaemon/Program.cs:196-205 | the first refusing rule ends the check, whether or not the log append succeeds |
| SimpleDaemon.Process | src/PermissionDaemon/Program.cs:168-224 | the configuration file gives no lines at all, every other event is reported first; at most one violation, and only for a deletion |
| SimpleDaemon.DefaultTableStopsTesterAtEditorRule | src/PermissionDaemon/Program.cs:307-324 | under the defaults a tester deleting a test `.cs` file passes the first rule and is stopped by the editor rule |
| SimpleDaemon.Listing | src/PermissionDaemon/Program.cs:283-286 | one listing line per rule, in order |
| SimpleDaemon.ListingAppend | src/PermissionDaemon/Program.cs:283-286 | listing one more rule appends one line |
| SimpleDaemon.SimplePermissionDaemon.constructor | src/PermissionDaemon/Program.cs:30-34 | the configuration path is `permissions.config` in the current directory |
| SimpleDaemon.SimplePermissionDaemon.CreateDefaultConfig | src/PermissionDaemon/Program.cs:307-343 | the defaults are installed and saved, or the failed save is reported |
| SimpleDaemon.SimplePermissionDaemon.EnsureConfigExists | src/PermissionDaemon/Program.cs:67-74 | a missing configuration file is reported and replaced by the defaults |
| SimpleDaemon.SimplePermissionDaemon.ListRules | src/PermissionDaemon/Program.cs:283-286 | the loop lists every rule |
| SimpleDaemon.SimplePermissionDaemon.LoadConfig | src/PermissionDaemon/Program.cs:265-305 | a present, parsed file is loaded and listed; otherwise the defaults are used and saved |
| SimpleDaemon.SimplePermissionDaemon.OnConfigChanged | src/PermissionDaemon/Program.cs:122-135 | reloads as `LoadConfig` does (configuration, files written and console lines) and then reports the reload |
| SimpleDaemon.SimplePermissionDaemon.LogAccessViolation | src/PermissionDaemon/Program.cs:345-361 | reports the violation, appends it when possible, and reports a failed append |
| SimpleDaemon.SimplePermissionDaemon.CheckRule | src/PermissionDaemon/Program.cs:185-215 | a rule stops the check exactly when it matches and names another user |
| SimpleDaemon.SimplePermissionDaemon.ScanRules | src/PermissionDaemon/Program.cs:183-216 | the loop reports and logs exactly what the scan function says |
| SimpleDaemon.SimplePermissionDaemon.ProcessFileEvent | src/PermissionDaemon/Program.cs:168-224 | the console and the log become those of processing the event |
| SimpleDaemon.SimplePermissionDaemon.OnFileRenamed | src/PermissionDaemon/Program.cs:152-166 | a rename is a deletion of the old name, which may log, followed by a creation of the new one, which never does |
| PollingDaemon.TrimStart | permission_daemon/daemon.py:11 | leading whitespace removed, and only that: a suffix that starts with a non-space, after a run of white space |
| PollingDaemon.TrimEnd | permission_daemon/daemon.py:11 | trailing whitespace removed, and only that: a prefix that ends with a non-space, before a run of white space |
| PollingDaemon.Strip | permission_daemon/daemon.py:11 | a stripped line neither starts nor ends with whitespace (what surrounds it is stated by `StripRemovesOnlySurroundingSpace`) |
| PollingDaemon.StripRemovesOnlySurroundingSpace | permission_daemon/daemon.py:11 | the stripped line sits inside the original with only white space before and after it |
| PollingDaemon.RunLength | permission_daemon/daemon.py:13 | the length of the leading run of non-space characters |
| PollingDaemon.Words | permission_daemon/daemon.py:13 | splitting yields non-empty words without whitespace (`WordsOfBlank` and `WordsSplitAtSpace` pin which words) |
| PollingDaemon.WordsOfBlank | permission_daemon/daemon.py:13 | a line splits into no words exactly when it is all white space |
| PollingDaemon.WordsSplitAtSpace | permission_daemon/daemon.py:13 | a white-space character separates words: the words of `a c b` are those of `a` followed by those of `b` |
| PollingDaemon.RulesOf | permission_daemon/daemon.py:7-17 | at most one rule per line |
| PollingDaemon.RulesOfAppend | permission_daemon/daemon.py:10-15 | rules are read line by line: the rules of two parts are concatenated |
| PollingDaemon.TwoFieldLine | permission_daemon/daemon.py:11-15 | a `pattern perms` line gives exactly that rule |
| PollingDaemon.StripKeepsTrimmed | permission_daemon/daemon.py:11 | a line without surrounding white space is its own strip |
| PollingDaemon.WordsOfField | permission_daemon/daemon.py:13 | a space-free field splits into itself |
| PollingDaemon.WordsOfTwoFields | permission_daemon/daemon.py:13-14 | two space-free fields joined by a space split back into exactly those two |
| PollingDaemon.CommentLineDropped | permission_daemon/daemon.py:12 | a line starting with `#` gives no rule |
| PollingDaemon.NoRuleLines | permission_daemon/daemon.py:10-15 | lines of which none is a rule line give no rules |
| PollingDaemon.OneRuleAfterComments | permission_daemon/daemon.py:10-15 | comment lines followed by one rule line give that one rule |
| PollingDaemon.DefaultConfigMakesPythonReadOnly | permission_daemon/daemon.py:44-50 | the default file holds the single rule `*.py r`, whose mode is 0o444 |
| PollingDaemon.LoadRules | permission_daemon/daemon.py:7-17 | the loop reads exactly the rules of the file |
| PollingDaemon.ParsePerms | permission_daemon/daemon.py:19-27 | `r` sets the three read bits, `w` the owner and group write bits, `x` the three execute bits, and nothing else is set |
| PollingDaemon.ParsePermsReadsLettersOnly | permission_daemon/daemon.py:19-27 | only the presence of `r`, `w` and `x` matters |
| PollingDaemon.LastMatchWins | permission_daemon/daemon.py:29-37 | the file ends with the mode of the last rule that matches and whose chmod succeeds, or unchanged when there is none |
| PollingDaemon.ModesAfterChmod | permission_daemon/daemon.py:29-37 | a later chmod overrides an earlier one |
| PollingDaemon.ApplyFrom | permission_daemon/daemon.py:29-37 | at most one line per rule, each an applied or failed chmod of that path; the final mode's rule is among the applied lines |
| PollingDaemon.ConfigReloadNeverFires | permission_daemon/daemon.py:69-76 | a walked path starts with `./`, so it never equals `permissions.conf` and the rules are never reloaded |
| PollingDaemon.Reload | permission_daemon/daemon.py:72-76 | only the configuration path can reload; it crashes exactly when its mtime cannot be read, never changes a mode, and a reload installs the file's rules, records the mtime and reports the count |
| PollingDaemon.Visit | permission_daemon/daemon.py:71-92 | a crash needs an unreadable mtime; the console only grows; rules change only on the configuration path |
| PollingDaemon.PollAll | permission_daemon/daemon.py:69-92 | a crash needs some unreadable mtime in the walk; the console only grows; a walk without the configuration path keeps the rules |
| PollingDaemon.VisitBookkeeping | permission_daemon/daemon.py:78-92 | new files are announced, chmodded and recorded; modified ones re-chmodded; vanished ones dropped; a new file that vanished crashes the loop |
| PollingDaemon.Recorded | permission_daemon/daemon.py:54-61 | the start-up table holds exactly the walked files whose mtime could be read, each with the mtime of its last readable walk entry |
| PollingDaemon.Daemon.constructor | permission_daemon/daemon.py:43-63 | loads the configuration or the default file, records the tree, and changes no mode |
| PollingDaemon.Daemon.ApplyPermissions | permission_daemon/daemon.py:29-37 | the modes and the console become those of applying every rule in order |
| PollingDaemon.Daemon.VisitEntry | permission_daemon/daemon.py:71-92 | one walk entry moves the state as the visit function says, or crashes when it says so |
| PollingDaemon.Daemon.Poll | permission_daemon/daemon.py:69-92 | one pass over the walk moves the state as the poll function says, or crashes |

## Left out

- File system watchers, locks, threads, sleeps, the `Start` and `Stop` wait loops, `Cleanup` and the key-press loops are not modelled. Each event handler is a method called once per event.
- Disk access is not modelled. File existence, reads, writes, moves, `File.Copy` (`copySucceeds`) and mtimes are parameters. Mtimes are integers, each read once per walk entry.
- The YAML and JSON deserialisers are parameters: `LoadResult` and `ConfigRead` carry what they would return. A null YAML result and null dictionary values are not modelled.
- `Microsoft.Extensions.FileSystemGlobbing` (`IsPathMatchingPattern`) and Python's `fnmatch` are parameters (`matches`, `fnmatch`). Only the root daemon's own glob matcher is modelled.
- Regex behaviour is the model's token matcher. `$` does not also accept a final newline, and case-insensitive matching folds ASCII letters only.
- Case folding (`ToLower`, `OrdinalIgnoreCase`) and Python's whitespace are ASCII only.
- `Path.GetFileName`, `Path.Combine`, `Path.GetRelativePath` and `os.path.join` are modelled for `/`-separated paths. `RelativePath` never produces `..`.
- Console lines are report values without timestamps or exact wording. `operation.ToUpper()` in messages is not modelled.
- `SetFileReadOnly` is not modelled: it is never called. `ShouldRestrictWrite` is never called either, but it is modelled with its consequence for the permission check.
- `RunChmodCommand` is recorded as one chmod invocation. Its process outcome is not modelled.
- `SetupWatchers` and `HandleFileOperation`, which map watcher events to operation names, and `OnFileEvent` are not modelled. The handlers they call take the operation or change type directly.
- The enforcer's own `Console.WriteLine` lines (`[DEBUG]`, `[PERMISSION ENFORCEMENT]`, `[ERROR]` and the per-agent listing at PermissionEnforcer.cs:58-100, 154-158 and 189-209) bypass the logger and its level filter. They are not in the root daemon's `output`, which holds the logger's lines only.
- The operation daemon installs a deserialized configuration whose rule list is null as is (src/PermissionDaemon/PermissionDaemon.cs:238-271), and every later check then throws at the rule loop on line 152. The model's rule list is never null, so this crash is not modelled. In the simple daemon the same input throws inside the load's try at src/PermissionDaemon/Program.cs:280 and is modelled as `Threw`.
- The polling daemon's "Watching directory" line (daemon.py:63) is not in the console model: the `Report` datatype has no such line.
- `GetCurrentUser` and its `"unknown"` fallback are not modelled. The user is a parameter.
- `PollingDaemon.Daemon.Poll`: does not state the state left after a crash, because the Python loop ends there.
- `GlobPatternMatcher.ExtensionTexts`: the tests for `dir/subdir/file.txt`, `file.txt`, `script.js` and `image.png` through `IsMatchAny` are covered by the general lemmas (`DirsExtensionUnder`, `StarThenSuffixPlain`) and by `ExtensionTexts`. They are not stated as separate concrete lemmas.
- The `Main` methods of the two `src/PermissionDaemon` files and of `daemon.py` are not modelled separately. Their start-up is the constructors and `LoadConfig`/`EnsureConfigExists`.
