/** The console logger of Logger.cs.  A logger never changes after it is
    built, so each logging call is a function returning the line it writes
    (its level tag and text, without the timestamp) or nothing. */
module Logging {
  import opened Common

  /** LogLevel (Logger.cs:6-11), in declaration order. */
  datatype LogLevel = Minimal | Verbose | Debug

  /** The enumeration's underlying value, which `<=` compares. */
  function Rank(level: LogLevel): nat
  {
    match level
    case Minimal => 0
    case Verbose => 1
    case Debug => 2
  }

  /** `level.ToString().ToUpper()`. */
  function LevelName(level: LogLevel): string
  {
    match level
    case Minimal => "MINIMAL"
    case Verbose => "VERBOSE"
    case Debug => "DEBUG"
  }

  /** One console line: the bracketed tag and the message. */
  datatype Line = Line(tag: string, text: string)

  /** ConsoleLogger (Logger.cs:23-32): the configured level and whether
      audit lines are written. */
  datatype ConsoleLogger = ConsoleLogger(logLevel: LogLevel, auditEnabled: bool)

  /** ShouldLog (Logger.cs:73-82). */
  function ShouldLog(logger: ConsoleLogger, level: LogLevel): (r: bool)
    ensures level == Minimal ==> r
    ensures level == Verbose ==> (r <==> logger.logLevel != Debug)
    ensures level == Debug ==> (r <==> logger.logLevel == Debug)
  {
    match level
    case Minimal => true
    case Verbose => Rank(logger.logLevel) <= Rank(Verbose)
    case Debug => logger.logLevel == Debug
  }

  /** Log (Logger.cs:34-42): the message, tagged with its level's name, when
      the filter lets that level through. */
  function Log(logger: ConsoleLogger, level: LogLevel, message: string): (r: Option<Line>)
    ensures r.Some? <==> ShouldLog(logger, level)
    ensures r.Some? ==> r.value.tag == LevelName(level) && r.value.text == message
  {
    if ShouldLog(logger, level) then Some(Line(LevelName(level), message)) else None
  }

  /** LogInfo (Logger.cs:44-47): tagged VERBOSE, written unless the logger is
      configured for Debug. */
  function LogInfo(logger: ConsoleLogger, message: string): (r: Option<Line>)
    ensures r.Some? <==> logger.logLevel in {Minimal, Verbose}
    ensures r.Some? ==> r.value == Line("VERBOSE", message)
  {
    Log(logger, Verbose, message)
  }

  /** LogWarning (Logger.cs:49-52): always written, tagged MINIMAL. */
  function LogWarning(logger: ConsoleLogger, message: string): (r: Option<Line>)
    ensures r == Some(Line("MINIMAL", "WARNING: " + message))
  {
    Log(logger, Minimal, "WARNING: " + message)
  }

  /** LogError (Logger.cs:54-57): always written, tagged MINIMAL. */
  function LogError(logger: ConsoleLogger, message: string): (r: Option<Line>)
    ensures r == Some(Line("MINIMAL", "ERROR: " + message))
  {
    Log(logger, Minimal, "ERROR: " + message)
  }

  /** LogDebug (Logger.cs:59-62): written only when the logger is
      configured for Debug. */
  function LogDebug(logger: ConsoleLogger, message: string): (r: Option<Line>)
    ensures r.Some? <==> logger.logLevel == Debug
    ensures r.Some? ==> r.value == Line("DEBUG", "DEBUG: " + message)
  {
    Log(logger, Debug, "DEBUG: " + message)
  }

  /** LogAudit (Logger.cs:64-71): written iff auditing is on, whatever the
      configured level. */
  function LogAudit(logger: ConsoleLogger, message: string): (r: Option<Line>)
    ensures r.Some? <==> logger.auditEnabled
    ensures r.Some? ==> r.value == Line("AUDIT", message)
  {
    if logger.auditEnabled then Some(Line("AUDIT", message)) else None
  }

  /** The lines an optional line contributes to the console. */
  function Written(line: Option<Line>): (r: seq<Line>)
    ensures |r| <= 1 && (r != [] <==> line.Some?)
  {
    if line.Some? then [line.value] else []
  }

  /** Every logger writes exactly one of the two kinds: Minimal and Verbose
      loggers write info lines and no debug lines, a Debug logger writes
      debug lines and no info lines. */
  lemma InfoAndDebugExclusive(logger: ConsoleLogger, a: string, b: string)
    ensures LogInfo(logger, a).Some? != LogDebug(logger, b).Some?
  {
  }

  /** Levels are ordered Minimal < Verbose < Debug. */
  lemma LevelOrder()
    ensures Rank(Minimal) < Rank(Verbose) < Rank(Debug)
    ensures forall a: LogLevel, b: LogLevel :: Rank(a) == Rank(b) ==> a == b
  {
  }
}
