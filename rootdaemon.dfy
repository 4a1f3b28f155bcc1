/** The root daemon of PermissionDaemon.cs: configuration loading with its
    empty-configuration fallback, reload, the level parser, and the
    sequence of calls one file event makes.  Reading and deserialising the
    YAML file is an input (`LoadResult`), whether a file exists is a
    parameter, and the console is the sequence of lines the logger wrote. */
module RootDaemon {
  import opened Common
  import opened Logging
  import opened Configuration
  import opened PermissionEnforcement

  /** ParseLogLevel (PermissionDaemon.cs:135-144): the lower-cased name picks
      the level; anything unrecognised means Verbose. */
  function ParseLogLevel(level: string): (r: LogLevel)
    ensures r == Minimal <==> Lower(level) == "minimal"
    ensures r == Debug <==> Lower(level) == "debug"
  {
    var name := Lower(level);
    if name == "minimal" then Minimal
    else if name == "verbose" then Verbose
    else if name == "debug" then Debug
    else Verbose
  }

  /** The level names the logger prints parse back to their level. */
  lemma ParseLogLevelReadsLevelNames(level: LogLevel)
    ensures ParseLogLevel(LevelName(level)) == level
  {
    assert Lower("MINIMAL") == "minimal";
    assert Lower("VERBOSE") == "verbose";
    assert Lower("DEBUG") == "debug";
  }

  /** After a failed load the daemon logs at Verbose with auditing on. */
  lemma FailedLoadLogsVerbosely(message: string)
    ensures ParseLogLevel(Loaded(Failed(message)).logging.level) == Verbose
    ensures Loaded(Failed(message)).logging.audit
  {
    assert Lower("verbose") == "verbose";
  }

  /** The right an event type is checked as (PermissionDaemon.cs:111-118):
      deletions, changes, creations and renames are judged by the write
      letter, every other event type by the read letter. */
  function AccessTypeFor(eventType: string): (r: bv32)
    ensures eventType == "Deleted" ==> r == Delete
    ensures SlotFor(r) == if eventType in {"Deleted", "Changed", "Created", "Renamed"} then 1 else 0
  {
    match eventType
    case "Deleted" => Delete
    case "Changed" => WriteData
    case "Created" => WriteData
    case "Renamed" => WriteData
    case _ => ReadData
  }

  /** The outcome of reading and deserialising the configuration file. */
  datatype LoadResult = Parsed(config: DaemonConfig) | Failed(message: string)

  /** The configuration a load installs: the parsed one, or an empty one. */
  function Loaded(load: LoadResult): (c: DaemonConfig)
    ensures load.Parsed? ==> c == load.config
    ensures load.Failed? ==> c == EmptyConfig() && c.rules == []
  {
    match load
    case Parsed(config) => config
    case Failed(_) => EmptyConfig()
  }

  /** The line LoadConfiguration writes. */
  function LoadLines(logger: ConsoleLogger, configPath: string, load: LoadResult): seq<Line>
  {
    match load
    case Parsed(_) => Written(LogDebug(logger, "Configuration loaded from " + configPath))
    case Failed(message) =>
      Written(LogError(logger, "Failed to load configuration from " + configPath + ": " + message))
  }

  /** The lines Start writes once the logger exists. */
  function StartLines(logger: ConsoleLogger, agentName: string, configPath: string, watchDirectory: string): seq<Line>
  {
    Written(LogInfo(logger, "Permission Daemon starting for agent: " + agentName))
    + Written(LogInfo(logger, "Watching config file: " + configPath))
    + Written(LogInfo(logger, "Watching directory: " + watchDirectory))
    + Written(LogInfo(logger, "Permission Daemon started successfully. Press Ctrl+C to stop."))
  }

  /** The lines a reload writes around the load. */
  function ReloadLines(logger: ConsoleLogger, configPath: string, load: LoadResult): seq<Line>
  {
    Written(LogInfo(logger, "Configuration file changed, reloading..."))
    + LoadLines(logger, configPath, load)
    + Written(LogInfo(logger, "Configuration reloaded successfully."))
  }

  /** `bool.ToString()`. */
  function BoolText(b: bool): string
  {
    if b then "True" else "False"
  }

  function AuditMessage(path: string, eventType: string, agentName: string, allowed: bool): string
  {
    "Access attempt - File: " + path + ", Type: " + eventType + ", Agent: " + agentName + ", Allowed: " + BoolText(allowed)
  }

  function BlockedMessage(path: string, eventType: string, agentName: string): string
  {
    "ACCESS BLOCKED - Agent '" + agentName + "' does not have permission to " + Lower(eventType) + " file: " + path
  }

  /** The debug line every monitored event writes first. */
  function DebugLines(logger: ConsoleLogger, eventType: string, path: string): seq<Line>
  {
    Written(LogDebug(logger, "File " + eventType + ": " + path))
  }

  /** The audit line of a decision, and a warning if access was denied. */
  function DecisionLines(logger: ConsoleLogger, agentName: string, eventType: string, path: string, allowed: bool): seq<Line>
  {
    Written(LogAudit(logger, AuditMessage(path, eventType, agentName, allowed)))
    + if allowed then [] else Written(LogWarning(logger, BlockedMessage(path, eventType, agentName)))
  }

  /** The lines one monitored event writes: the debug line, then, when an
      enforcer gave a decision, the audit line and a warning if denied. */
  function EventLines(logger: ConsoleLogger, agentName: string, eventType: string, path: string, decision: Option<bool>): seq<Line>
  {
    DebugLines(logger, eventType, path)
    + match decision
      case None => []
      case Some(allowed) => DecisionLines(logger, agentName, eventType, path, allowed)
  }

  /** An event writes the debug line only under Debug, then, once a decision
      is made, the audit line only when auditing is on and a closing warning
      exactly when access is denied. */
  lemma EventLinesShape(logger: ConsoleLogger, agentName: string, eventType: string, path: string, decision: Option<bool>)
    ensures decision.None? ==>
      |EventLines(logger, agentName, eventType, path, decision)| == (if logger.logLevel == Debug then 1 else 0)
    ensures decision.Some? ==>
      |EventLines(logger, agentName, eventType, path, decision)|
        == (if logger.logLevel == Debug then 1 else 0) + (if logger.auditEnabled then 1 else 0)
           + (if decision.value then 0 else 1)
    ensures decision == Some(false) ==>
      var r := EventLines(logger, agentName, eventType, path, decision);
      r[|r| - 1] == Line("MINIMAL", "WARNING: " + BlockedMessage(path, eventType, agentName))
  {
  }


  /** The number of lines with a given tag. */
  function CountTag(lines: seq<Line>, tag: string): nat
  {
    if lines == [] then 0 else (if lines[0].tag == tag then 1 else 0) + CountTag(lines[1..], tag)
  }

  lemma {:induction false} CountTagAppend(a: seq<Line>, b: seq<Line>, tag: string)
    ensures CountTag(a + b, tag) == CountTag(a, tag) + CountTag(b, tag)
    decreases |a|
  {
    if a == [] {
      assert a + b == b;
    } else {
      CountTagAppend(a[1..], b, tag);
      assert (a + b)[1..] == a[1..] + b;
    }
  }

  /** A decided event writes exactly one audit line when auditing is on and
      none when it is off, carrying the decision; it writes a warning
      exactly when access was denied; an undecided event writes neither. */
  lemma EventAuditedOnce(logger: ConsoleLogger, agentName: string, eventType: string, path: string, decision: Option<bool>)
    ensures CountTag(EventLines(logger, agentName, eventType, path, decision), "AUDIT")
        == if decision.Some? && logger.auditEnabled then 1 else 0
    ensures CountTag(EventLines(logger, agentName, eventType, path, decision), "MINIMAL")
        == if decision == Some(false) then 1 else 0
    ensures decision.Some? && logger.auditEnabled
        ==> Line("AUDIT", AuditMessage(path, eventType, agentName, decision.value))
            in EventLines(logger, agentName, eventType, path, decision)
  {
    var debug := DebugLines(logger, eventType, path);
    assert CountTag(debug, "AUDIT") == 0 && CountTag(debug, "MINIMAL") == 0;
    match decision
    case None =>
      assert EventLines(logger, agentName, eventType, path, decision) == debug + [];
      CountTagAppend(debug, [], "AUDIT");
      CountTagAppend(debug, [], "MINIMAL");
    case Some(allowed) =>
      var audit := Written(LogAudit(logger, AuditMessage(path, eventType, agentName, allowed)));
      var warn := if allowed then [] else Written(LogWarning(logger, BlockedMessage(path, eventType, agentName)));
      assert EventLines(logger, agentName, eventType, path, decision) == debug + (audit + warn);
      CountTagAppend(debug, audit + warn, "AUDIT");
      CountTagAppend(debug, audit + warn, "MINIMAL");
      CountTagAppend(audit, warn, "AUDIT");
      CountTagAppend(audit, warn, "MINIMAL");
  }

  /** A Debug-configured logger prints none of Start's banner lines. */
  lemma DebugLoggerHidesBanner(logger: ConsoleLogger, agentName: string, configPath: string, watchDirectory: string)
    ensures StartLines(logger, agentName, configPath, watchDirectory) == [] <==> logger.logLevel == Debug
  {
  }

  class PermissionDaemon {
    const configPath: string
    const watchDirectory: string
    const agentName: string
    var config: DaemonConfig
    var enforcer: PermissionEnforcer?
    var logger: Option<ConsoleLogger>
    /** The lines the daemon's logger has written so far, oldest first (the
        enforcer's own console lines are not among them). */
    var output: seq<Line>

    /** The constructor (PermissionDaemon.cs:18-23): nothing is loaded and
        nothing is logged yet. */
    constructor (configPath: string, watchDirectory: string, agentName: string)
      ensures this.configPath == configPath && this.watchDirectory == watchDirectory
      ensures this.agentName == agentName
      ensures enforcer == null && logger == None && output == []
    {
      this.configPath := configPath;
      this.watchDirectory := watchDirectory;
      this.agentName := agentName;
      config := EmptyConfig();
      enforcer := null;
      logger := None;
      output := [];
    }

    /** Appends what the logger, if any, wrote. */
    method Write(lines: seq<Line>)
      modifies this`output
      ensures output == old(output) + lines
    {
      output := output + lines;
    }

    /** LoadConfiguration (PermissionDaemon.cs:74-92): install the parsed
        configuration, or an empty one when reading or parsing failed. */
    method LoadConfiguration(load: LoadResult)
      modifies this`config, this`output
      ensures config == Loaded(load)
      ensures output == old(output) + if logger.Some? then LoadLines(logger.value, configPath, load) else []
    {
      match load {
        case Parsed(c) =>
          config := c;
          if logger.Some? {
            Write(Written(LogDebug(logger.value, "Configuration loaded from " + configPath)));
          }
        case Failed(message) =>
          if logger.Some? {
            Write(Written(LogError(logger.value, "Failed to load configuration from " + configPath + ": " + message)));
          }
          config := EmptyConfig();
      }
    }

    /** Start (PermissionDaemon.cs:25-65), up to the point where it would
        wait forever: load, build the logger from the configuration's
        logging section, build the enforcer on the loaded configuration. */
    method Start(load: LoadResult)
      modifies this
      ensures config == Loaded(load)
      ensures logger == Some(ConsoleLogger(ParseLogLevel(config.logging.level), config.logging.audit))
      ensures enforcer != null && fresh(enforcer)
      ensures enforcer.config == config && enforcer.agentName == agentName && enforcer.chmods == []
      ensures output == old(output)
        + (if old(logger).Some? then LoadLines(old(logger).value, configPath, load) else [])
        + StartLines(logger.value, agentName, configPath, watchDirectory)
    {
      LoadConfiguration(load);
      var lg := ConsoleLogger(ParseLogLevel(config.logging.level), config.logging.audit);
      logger := Some(lg);
      Write(Written(LogInfo(lg, "Permission Daemon starting for agent: " + agentName)));
      Write(Written(LogInfo(lg, "Watching config file: " + configPath)));
      Write(Written(LogInfo(lg, "Watching directory: " + watchDirectory)));
      enforcer := new PermissionEnforcer(config, agentName);
      Write(Written(LogInfo(lg, "Permission Daemon started successfully. Press Ctrl+C to stop.")));
    }

    /** OnConfigFileChanged (PermissionDaemon.cs:94-100): reload and hand the
        new configuration, possibly the empty fallback, to the enforcer. */
    method OnConfigFileChanged(load: LoadResult)
      modifies this`config, this`output, enforcer
      ensures config == Loaded(load)
      ensures enforcer == old(enforcer) && logger == old(logger)
      ensures enforcer != null ==> enforcer.config == config && enforcer.chmods == old(enforcer.chmods)
      ensures output == old(output) + if logger.Some? then ReloadLines(logger.value, configPath, load) else []
    {
      if logger.Some? {
        Write(Written(LogInfo(logger.value, "Configuration file changed, reloading...")));
      }
      LoadConfiguration(load);
      if enforcer != null {
        enforcer.UpdateConfig(config);
      }
      if logger.Some? {
        Write(Written(LogInfo(logger.value, "Configuration reloaded successfully.")));
      }
    }

    /** OnMonitoredFileChanged (PermissionDaemon.cs:102-133): with an
        enforcer, decide, audit, warn on denial, and enforce whatever the
        decision was; without one, only the debug line. */
    method OnMonitoredFileChanged(eventType: string, fullPath: string, fileExists: bool)
      modifies this`output, enforcer
      ensures enforcer == old(enforcer) && logger == old(logger) && config == old(config)
      ensures enforcer == null ==>
        output == old(output) + if logger.Some? then EventLines(logger.value, agentName, eventType, fullPath, None) else []
      ensures enforcer != null ==>
        && enforcer.config == old(enforcer.config)
        && enforcer.chmods == old(enforcer.chmods) + EnforcementChmods(enforcer.config.rules, fullPath, fileExists)
        && var allowed := enforcer.HasPermission(fullPath, AccessTypeFor(eventType));
           output == old(output) + if logger.Some? then EventLines(logger.value, agentName, eventType, fullPath, Some(allowed)) else []
    {
      ghost var before := output;
      if logger.Some? {
        Write(DebugLines(logger.value, eventType, fullPath));
      }
      if enforcer != null {
        var accessType := AccessTypeFor(eventType);
        var hasPermission := enforcer.HasPermission(fullPath, accessType);
        ghost var afterDebug := output;
        if logger.Some? {
          var audit := Written(LogAudit(logger.value, AuditMessage(fullPath, eventType, agentName, hasPermission)));
          Write(audit);
          if !hasPermission {
            var warn := Written(LogWarning(logger.value, BlockedMessage(fullPath, eventType, agentName)));
            Write(warn);
            AppendAssociates(afterDebug, audit, warn);
          } else {
            assert audit == audit + [];
          }
          assert output == afterDebug + DecisionLines(logger.value, agentName, eventType, fullPath, hasPermission);
          AppendAssociates(before, DebugLines(logger.value, eventType, fullPath),
            DecisionLines(logger.value, agentName, eventType, fullPath, hasPermission));
        }
        enforcer.EnforcePermissions(fullPath, fileExists);
      }
    }
  }

  /** After a reload whose read or parse failed, the enforcer allows every
      action on every path. */
  lemma FailedReloadAllowsEverything(d: PermissionDaemon, load: LoadResult, path: string, action: bv32)
    requires load.Failed? && d.enforcer != null && d.enforcer.config == Loaded(load)
    ensures d.enforcer.HasPermission(path, action)
  {
    EmptyConfigAllowsEverything(d.enforcer, path, action);
  }
}
