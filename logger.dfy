/**
 * `Logger`: one log call fans a formatted entry out to the console, to the
 * day's log file and to a bounded in-memory buffer. The two dispatch-queue
 * hops of the source are collapsed, so one call is one sequential step.
 */
module Logging {
  import opened Wrappers
  import opened Text
  import opened LogLevels

  /** Capacity of the in-memory buffer (`maxLogLines`). */
  const MaxLogLines: nat := 500

  /**
   * What the logger reads from the application settings: whether the caller
   * tag carries the full file id and the function, whether each call is echoed
   * to the console, and the stored minimum level as an integer.
   */
  datatype AppSettings = AppSettings(fullLoggingString: bool, debugMode: bool, minimumLogLevel: int)

  /** The stored defaults: short tags, console echo on, minimum level 0 (debug). */
  const DefaultSettings := AppSettings(false, true, 0)

  // ---------------------------------------------------------------------------
  // Formatting
  // ---------------------------------------------------------------------------

  /** `callerInfo`: `[file:line function]` in full form, `[name:line]` otherwise. */
  function CallerTag(fullLoggingString: bool, file: string, line: int, functionName: string): (t: string)
    ensures |t| >= 3 && t[0] == '[' && t[|t| - 1] == ']'
    ensures fullLoggingString ==> |t| > |file| + 1 && t[1..|file| + 1] == file
  {
    if fullLoggingString then "[" + file + ":" + IntToString(line) + " " + functionName + "]"
    else "[" + LastComponent(file, '/') + ":" + IntToString(line) + "]"
  }

  /** The short tag names the file by its last path segment, and names a file without `/` whole. */
  lemma ShortCallerTag(file: string, line: int, functionName: string)
    ensures var name := LastComponent(file, '/');
      && CallerTag(false, file, line, functionName) == "[" + name + ":" + IntToString(line) + "]"
      && '/' !in name
      && |name| <= |file| && file[|file| - |name|..] == name
      && (|name| == |file| || file[|file| - |name| - 1] == '/')
      && ('/' !in file ==> name == file)
  {
    LastComponentIsFinalSegment(file, '/');
    if '/' !in file {
      LastComponentWithoutSeparator(file, '/');
    }
  }

  /** A call from line 42 of `Sources/Foo/Bar.swift` gets the short tag `[Bar.swift:42]`. */
  lemma CallerTagExample(file: string, line: int, functionName: string)
    requires file == "Sources/Foo/Bar.swift" && line == 42
    ensures CallerTag(false, file, line, functionName) == "[Bar.swift:42]"
  {
    ExampleLineNumber(line);
    ExampleFileName(file);
  }

  lemma ExampleLineNumber(line: int)
    requires line == 42
    ensures IntToString(line) == "42"
  {
    assert NatToString(4) == "4";
  }

  lemma ExampleFileName(file: string)
    requires file == "Sources/Foo/Bar.swift"
    ensures LastComponent(file, '/') == "Bar.swift"
  {
    LastComponentIsFinalSegment(file, '/');
    assert file[11] == '/';
  }

  /** The console line `[LEVEL] tag message`. */
  function ConsoleLine(level: LogLevel, tag: string, message: string): (r: string)
  {
    "[" + Label(level) + "] " + tag + " " + message
  }

  /** The entry written to the file and the buffer: `[timestamp] [LEVEL] tag message`. */
  function Entry(timestamp: string, level: LogLevel, tag: string, message: string): (r: string)
  {
    "[" + timestamp + "] [" + Label(level) + "] " + tag + " " + message
  }

  /** A console line opens with the bracketed label and closes with the message, the tag in between. */
  lemma ConsoleLineLayout(level: LogLevel, tag: string, message: string)
    ensures var r, n := ConsoleLine(level, tag, message), |Label(level)|;
      && |r| == n + |tag| + |message| + 4
      && r[..n + 2] == "[" + Label(level) + "]"
      && r[n + 3..n + 3 + |tag|] == tag
      && r[|r| - |message|..] == message
  {
    var r := ConsoleLine(level, tag, message);
    assert r == ("[" + Label(level) + "]") + " " + tag + " " + message;
  }

  /** The stored entry is the console line behind a bracketed timestamp. */
  lemma EntryIsStampedConsoleLine(timestamp: string, level: LogLevel, tag: string, message: string)
    ensures Entry(timestamp, level, tag, message) == "[" + timestamp + "] " + ConsoleLine(level, tag, message)
  {
  }

  /** Every entry carries its level's bracketed label, right after the timestamp. */
  lemma EntryCarriesLabel(timestamp: string, level: LogLevel, tag: string, message: string)
    ensures OccursAt(Entry(timestamp, level, tag, message), "[" + Label(level) + "]", |timestamp| + 3)
  {
    var e := Entry(timestamp, level, tag, message);
    var t := "[" + Label(level) + "]";
    assert e == ("[" + timestamp + "] ") + t + (" " + tag + " " + message);
  }

  // ---------------------------------------------------------------------------
  // The file sink
  // ---------------------------------------------------------------------------

  /**
   * The file after a write of `data`: appended when the file exists, created
   * holding exactly `data` when it does not, and unchanged when the I/O call
   * fails (the failure is swallowed). `None` is "no file".
   */
  function AppendedFile(file: Option<string>, data: string, ioSucceeds: bool): (r: Option<string>)
    ensures !ioSucceeds ==> r == file
    ensures ioSucceeds ==> r.Some? && r.value == file.GetOr("") + data
    ensures ioSucceeds && file.None? ==> r == Some(data)
    ensures ioSucceeds && file.Some? ==> |r.value| == |file.value| + |data| && r.value[..|file.value|] == file.value
  {
    match file
    case Some(contents) => if ioSucceeds then Some(contents + data) else file
    case None => if ioSucceeds then Some(data) else None
  }

  // ---------------------------------------------------------------------------
  // The bounded in-memory buffer
  // ---------------------------------------------------------------------------

  /** The last `n` elements of `s` (all of `s` when it is shorter). */
  function KeepLast(s: seq<string>, n: nat): seq<string> {
    if |s| <= n then s else s[|s| - n..]
  }

  /** One buffer update: append, then drop the first element if over capacity. */
  function Remember(buffer: seq<string>, entry: string): (r: seq<string>)
    ensures |r| > 0 && r[|r| - 1] == entry
    ensures |r| == if |buffer| < MaxLogLines then |buffer| + 1 else |buffer|
  {
    var appended := buffer + [entry];
    if |appended| > MaxLogLines then appended[1..] else appended
  }

  /** From a buffer within capacity, one update keeps the newest 500 entries, ending with the new one. */
  lemma RememberKeepsNewest(buffer: seq<string>, entry: string)
    requires |buffer| <= MaxLogLines
    ensures var r := Remember(buffer, entry);
      && r == KeepLast(buffer + [entry], MaxLogLines)
      && |r| <= MaxLogLines
      && |r| > 0 && r[|r| - 1] == entry
  {
  }

  /** The buffer after a series of accepted entries, in order. */
  function RememberAll(buffer: seq<string>, entries: seq<string>): seq<string>
    decreases |entries|
  {
    if entries == [] then buffer else RememberAll(Remember(buffer, entries[0]), entries[1..])
  }

  lemma KeepLastAbsorbs(s: seq<string>, t: seq<string>, n: nat)
    ensures KeepLast(KeepLast(s, n) + t, n) == KeepLast(s + t, n)
  {
    if |s| > n {
      assert KeepLast(s, n) + t == (s + t)[|s| - n..];
    }
  }

  /** After any series of accepted entries the buffer holds the newest 500 of old buffer and entries, in order. */
  lemma {:induction false} RememberAllKeepsNewest(buffer: seq<string>, entries: seq<string>)
    requires |buffer| <= MaxLogLines
    ensures RememberAll(buffer, entries) == KeepLast(buffer + entries, MaxLogLines)
    decreases |entries|
  {
    if entries == [] {
      assert buffer + entries == buffer;
    } else {
      var e, rest := entries[0], entries[1..];
      var next := Remember(buffer, e);
      RememberKeepsNewest(buffer, e);
      assert (buffer + [e]) + rest == buffer + entries by {
        assert entries == [e] + rest;
      }
      calc {
        RememberAll(buffer, entries);
        RememberAll(next, rest);
        { RememberAllKeepsNewest(next, rest); }
        KeepLast(next + rest, MaxLogLines);
        { KeepLastAbsorbs(buffer + [e], rest, MaxLogLines); }
        KeepLast((buffer + [e]) + rest, MaxLogLines);
      }
    }
  }

  /** More than 500 accepted entries into an empty buffer leave exactly the last 500, in call order. */
  lemma FloodKeepsLast500(entries: seq<string>)
    requires |entries| > MaxLogLines
    ensures |RememberAll([], entries)| == MaxLogLines
    ensures RememberAll([], entries) == entries[|entries| - MaxLogLines..]
  {
    RememberAllKeepsNewest([], entries);
    assert [] + entries == entries;
  }

  // ---------------------------------------------------------------------------
  // The logger
  // ---------------------------------------------------------------------------

  class Logger {
    /** The settings store, read afresh at every call. */
    var settings: AppSettings
    var minimumLogLevel: LogLevel
    /** The published buffer of the newest entries, oldest first. */
    var inMemoryLog: seq<string>
    /** Contents of today's log file; `None` while the file does not exist. */
    var logFile: Option<string>
    /** Lines printed to the console, oldest first. */
    var console: seq<string>
    /** Name of the day's log file, fixed at construction. */
    const fileName: string

    ghost predicate Valid()
      reads this
    {
      |inMemoryLog| <= MaxLogLines
    }

    /**
     * `init`: the file name is `<app>_<today>.txt` from the date of
     * construction, and the minimum level is decoded from the stored integer.
     */
    constructor(settings: AppSettings, appName: string, today: string, existingFile: Option<string>)
      ensures Valid()
      ensures this.settings == settings
      ensures fileName == appName + "_" + today + ".txt"
      ensures minimumLogLevel == From(settings.minimumLogLevel)
      ensures inMemoryLog == [] && console == [] && logFile == existingFile
    {
      this.settings := settings;
      fileName := appName + "_" + today + ".txt";
      minimumLogLevel := From(settings.minimumLogLevel);
      inMemoryLog := [];
      logFile := existingFile;
      console := [];
    }

    /**
     * `log`: build the caller tag, echo to the console when the debug flag is
     * set (whatever the level), and, when the level is at least the minimum,
     * append the stamped entry to the file and to the buffer.
     */
    method Log(message: string, level: LogLevel := Info, functionName: string, file: string, line: int,
               timestamp: string, fileWriteSucceeds: bool)
      requires Valid()
      modifies this
      ensures Valid()
      ensures settings == old(settings) && minimumLogLevel == old(minimumLogLevel)
      ensures var tag := CallerTag(settings.fullLoggingString, file, line, functionName);
        console == old(console) + (if settings.debugMode then [ConsoleLine(level, tag, message)] else [])
      ensures var entry := Entry(timestamp, level, CallerTag(settings.fullLoggingString, file, line, functionName), message);
        if AtLeast(level, minimumLogLevel) then
          && logFile == AppendedFile(old(logFile), entry + "\n", fileWriteSucceeds)
          && inMemoryLog == Remember(old(inMemoryLog), entry)
          && inMemoryLog == KeepLast(old(inMemoryLog) + [entry], MaxLogLines)
          && inMemoryLog[|inMemoryLog| - 1] == entry
        else
          logFile == old(logFile) && inMemoryLog == old(inMemoryLog)
    {
      ghost var tag := CallerTag(settings.fullLoggingString, file, line, functionName);
      var callerInfo: string := "";
      if settings.fullLoggingString {
        callerInfo := "[" + file + ":" + IntToString(line) + " " + functionName + "]";
        assert callerInfo == tag;
      } else {
        var parts := Components(file, '/');
        var shortName := if |parts| > 0 then parts[|parts| - 1] else file;
        callerInfo := "[" + shortName + ":" + IntToString(line) + "]";
        assert callerInfo == tag;
      }

      if settings.debugMode {
        var debugEntry := "[" + Label(level) + "] " + callerInfo + " " + message;
        assert debugEntry == ConsoleLine(level, callerInfo, message);
        console := console + [debugEntry];
      }

      var entry := "[" + timestamp + "] [" + Label(level) + "] " + callerInfo + " " + message;
      assert entry == Entry(timestamp, level, callerInfo, message);
      Record(entry, level, fileWriteSucceeds);
    }

    /** The part of `log` on the logging queue: the level filter, then the file and the buffer. */
    method Record(entry: string, level: LogLevel, fileWriteSucceeds: bool)
      requires Valid()
      modifies this`logFile, this`inMemoryLog
      ensures Valid()
      ensures if AtLeast(level, minimumLogLevel) then
          && logFile == AppendedFile(old(logFile), entry + "\n", fileWriteSucceeds)
          && inMemoryLog == Remember(old(inMemoryLog), entry)
          && inMemoryLog == KeepLast(old(inMemoryLog) + [entry], MaxLogLines)
          && inMemoryLog[|inMemoryLog| - 1] == entry
        else
          logFile == old(logFile) && inMemoryLog == old(inMemoryLog)
    {
      if !AtLeast(level, minimumLogLevel) {
        return;
      }

      WriteToFile(entry + "\n", fileWriteSucceeds);
      AppendToBuffer(entry);
    }

    /** The file sink of `log`: append to the file, or create it when it does not exist yet. */
    method WriteToFile(data: string, succeeds: bool)
      modifies this`logFile
      ensures logFile == AppendedFile(old(logFile), data, succeeds)
    {
      match logFile {
        case Some(contents) =>
          if succeeds {
            logFile := Some(contents + data);
          }
        case None =>
          if succeeds {
            logFile := Some(data);
          }
      }
    }

    /** The buffer sink of `log`: append, then drop the oldest entry when over capacity. */
    method AppendToBuffer(entry: string)
      requires Valid()
      modifies this`inMemoryLog
      ensures Valid()
      ensures inMemoryLog == Remember(old(inMemoryLog), entry)
      ensures inMemoryLog == KeepLast(old(inMemoryLog) + [entry], MaxLogLines)
      ensures |inMemoryLog| > 0 && inMemoryLog[|inMemoryLog| - 1] == entry
    {
      RememberKeepsNewest(inMemoryLog, entry);
      inMemoryLog := inMemoryLog + [entry];
      if |inMemoryLog| > MaxLogLines {
        inMemoryLog := inMemoryLog[1..];
      }
    }

    /** `getLogFileURL`, without the documents directory. */
    method GetLogFileURL() returns (name: string)
      ensures name == fileName
    {
      name := fileName;
    }

    /** `clearInMemoryLog`: empties the buffer; the file and everything else stay as they are. */
    method ClearInMemoryLog()
      modifies this`inMemoryLog
      ensures Valid() && inMemoryLog == []
    {
      inMemoryLog := [];
    }
  }

  /** Filtering, clearing and echo seen from a caller, with a warning threshold. */
  method FilterAndClearScenario(appName: string, today: string, ts: string, file: string, caller: string, line: int, message: string)
  {
    var logger := new Logger(AppSettings(false, true, 2), appName, today, None);
    assert logger.minimumLogLevel == Warning;

    logger.Log(message, Info, functionName := caller, file := file, line := line,
               timestamp := ts, fileWriteSucceeds := true);
    assert logger.inMemoryLog == [] && logger.logFile == None;
    assert |logger.console| == 1;

    logger.Log(message, Error, functionName := caller, file := file, line := line,
               timestamp := ts, fileWriteSucceeds := true);
    assert |logger.inMemoryLog| == 1 && logger.logFile.Some?;

    logger.ClearInMemoryLog();
    assert logger.inMemoryLog == [] && logger.logFile.Some?;

    logger.Log(message, Critical, functionName := caller, file := file, line := line,
               timestamp := ts, fileWriteSucceeds := false);
    assert |logger.inMemoryLog| == 1 && |logger.console| == 3;
  }
}
