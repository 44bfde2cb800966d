/**
 * The logger of logger.go: InitLogger sets the configured level and chooses
 * where the three loggers write; Log filters a message by level priority and
 * dispatches it to a logger and to the console. The package-level variables
 * are the fields of one Logger object. Opening the log file is an oracle;
 * the clock is the `timestamp` parameter, and the date prefix the Go loggers
 * add to each line is not modelled.
 */
module Logging {
  import opened GoStrings

  /** Where a logger writes; NoSink is a nil *log.Logger. */
  datatype Sink = NoSink | LogFile | Stdout | Stderr

  /** One line written: the destination and the text. */
  datatype Line = Line(sink: Sink, text: string)

  /** The level map of Log; a level it does not list reads as 0, the zero value. */
  function Priority(level: string): nat {
    if level == "debug" then 0
    else if level == "info" then 1
    else if level == "warn" then 2
    else if level == "error" then 3
    else 0
  }

  predicate KnownLevel(level: string) {
    level == "debug" || level == "info" || level == "warn" || level == "error"
  }

  class Logger {
    var logLevel: string
    var logFileOpen: bool
    var infoLogger: Sink
    var warnLogger: Sink
    var errLogger: Sink

    /** The package variables before InitLogger runs: all zero values. */
    constructor ()
      ensures logLevel == "" && !logFileOpen
      ensures infoLogger == NoSink && warnLogger == NoSink && errLogger == NoSink
    {
      logLevel := "";
      logFileOpen := false;
      infoLogger, warnLogger, errLogger := NoSink, NoSink, NoSink;
    }

    /** InitLogger, logger.go:19-45. `openOk` is whether opening `outputFile`
        succeeds. A failed open leaves no file and returns before the loggers
        are set up; with no output file the earlier file, if any, stays. */
    method InitLogger(level: string, outputFile: string, openOk: bool) returns (failed: bool)
      modifies this
      ensures logLevel == ToLower(level)
      ensures failed <==> outputFile != "" && !openOk
      ensures logFileOpen == if outputFile != "" then openOk else old(logFileOpen)
      ensures failed ==> infoLogger == old(infoLogger) && warnLogger == old(warnLogger) && errLogger == old(errLogger)
      ensures !failed && logFileOpen ==> infoLogger == LogFile && warnLogger == LogFile && errLogger == LogFile
      ensures !failed && !logFileOpen ==> infoLogger == Stdout && warnLogger == Stdout && errLogger == Stderr
    {
      logLevel := ToLower(level);
      if outputFile != "" {
        logFileOpen := openOk;
        if !openOk {
          return true;
        }
      }
      if logFileOpen {
        infoLogger, warnLogger, errLogger := LogFile, LogFile, LogFile;
      } else {
        infoLogger, warnLogger, errLogger := Stdout, Stdout, Stderr;
      }
      return false;
    }

    /** Whether Log drops a message of this level. */
    predicate Suppressed(level: string)
      reads this
    {
      Priority(ToLower(level)) < Priority(logLevel)
    }

    /** The lines Log writes, logger.go:53-90: the logger's line, when the
        logger is set, then the console line with the timestamp. */
    function Emissions(level: string, message: string, timestamp: string): seq<Line>
      reads this
    {
      var lower := ToLower(level);
      var console := "[" + timestamp + "] " + message;
      if Suppressed(level) then []
      else if lower == "debug" || lower == "info" then
        (if infoLogger != NoSink then [Line(infoLogger, "[INFO] " + message)] else []) + [Line(Stdout, console)]
      else if lower == "warn" then
        (if warnLogger != NoSink then [Line(warnLogger, "[WARN] " + message)] else []) + [Line(Stdout, console)]
      else if lower == "error" then
        (if errLogger != NoSink then [Line(errLogger, "[ERROR] " + message)] else []) + [Line(Stderr, console)]
      else []
    }

    /** A message is written iff its level is known and its priority is not below
        the configured one; it then reaches the console exactly once, on stderr for
        errors and stdout otherwise, and the level's logger at most once. */
    lemma EmissionsFilter(level: string, message: string, timestamp: string)
      ensures Emissions(level, message, timestamp) != [] <==> KnownLevel(ToLower(level)) && !Suppressed(level)
      ensures Emissions(level, message, timestamp) != [] ==>
        var lines := Emissions(level, message, timestamp);
        && 1 <= |lines| <= 2
        && lines[|lines| - 1] == Line(if ToLower(level) == "error" then Stderr else Stdout, "[" + timestamp + "] " + message)
        && (|lines| == 2 <==>
              || ((ToLower(level) == "debug" || ToLower(level) == "info") && infoLogger != NoSink)
              || (ToLower(level) == "warn" && warnLogger != NoSink)
              || (ToLower(level) == "error" && errLogger != NoSink))
    {
    }

    /** An error is never suppressed, whatever level is configured. */
    lemma ErrorsAlwaysLogged(level: string)
      requires ToLower(level) == "error"
      ensures !Suppressed(level)
    {
    }

    /** Levels are compared case-insensitively: a level and its lower-case form
        produce the same lines. */
    lemma EmissionsCaseInsensitive(level: string, message: string, timestamp: string)
      ensures Emissions(level, message, timestamp) == Emissions(ToLower(level), message, timestamp)
    {
      ToLowerIdempotent(level);
    }

    /** With no output file the loggers write to the console too, so every
        message that passes the filter is written twice: to stderr for an
        error, to stdout otherwise. */
    lemma ConsoleOnlyAfterInit(level: string, message: string, timestamp: string)
      requires !logFileOpen && infoLogger == Stdout && warnLogger == Stdout && errLogger == Stderr
      requires KnownLevel(ToLower(level)) && !Suppressed(level)
      ensures forall l :: l in Emissions(level, message, timestamp) ==> l.sink == (if ToLower(level) == "error" then Stderr else Stdout)
      ensures |Emissions(level, message, timestamp)| == 2
    {
    }
  }
}
