/**
 * `UserLogBookmark`: a log line promoted to a durable record, and
 * `addBookmark`, which builds one and inserts it into a model context. The
 * persistent store is modelled as a context object holding the inserted
 * records in order.
 */
module Bookmarks {
  import opened Wrappers
  import opened LogLevels

  /** A point in time, supplied by the caller (the clock is not modelled). */
  type Date = int

  class UserLogBookmark {
    var line: string
    var severity: LogLevel
    var file: string
    var functionName: string
    var lineNumber: int
    var taggedByUser: bool
    var savedAt: Date
    var note: Option<string>

    /** `init`: every argument is stored as given; user-tagged and without a note unless told otherwise. */
    constructor(line: string, severity: LogLevel, file: string, functionName: string, lineNumber: int,
                taggedByUser: bool := true, savedAt: Date, note: Option<string> := None)
      ensures this.line == line && this.severity == severity && this.file == file
      ensures this.functionName == functionName && this.lineNumber == lineNumber
      ensures this.taggedByUser == taggedByUser && this.savedAt == savedAt && this.note == note
    {
      this.line := line;
      this.severity := severity;
      this.file := file;
      this.functionName := functionName;
      this.lineNumber := lineNumber;
      this.taggedByUser := taggedByUser;
      this.savedAt := savedAt;
      this.note := note;
    }

    /**
     * `addBookmark`: a new record with the given line, severity, source
     * location and note, tagged by the user and saved at `now`, is inserted
     * into the context; the records already there stay as they were.
     */
    static method AddBookmark(line: string, severity: LogLevel, note: Option<string> := None, context: ModelContext,
                              file: string, functionName: string, lineNumber: int, now: Date)
      modifies context
      ensures |context.inserted| == |old(context.inserted)| + 1
      ensures context.inserted[..|old(context.inserted)|] == old(context.inserted)
      ensures var b := context.inserted[|context.inserted| - 1];
        && fresh(b)
        && b.line == line && b.severity == severity && b.file == file
        && b.functionName == functionName && b.lineNumber == lineNumber
        && b.note == note && b.taggedByUser && b.savedAt == now
    {
      var bookmark := new UserLogBookmark(line, severity, file, functionName, lineNumber, savedAt := now, note := note);
      context.Insert(bookmark);
    }
  }

  /** The model context: the records inserted so far, in order of insertion. */
  class ModelContext {
    var inserted: seq<UserLogBookmark>

    constructor()
      ensures inserted == []
    {
      inserted := [];
    }

    /** `insert`: register a record; one already registered is not added twice. */
    method Insert(b: UserLogBookmark)
      modifies this
      ensures inserted == if b in old(inserted) then old(inserted) else old(inserted) + [b]
    {
      if b !in inserted {
        inserted := inserted + [b];
      }
    }
  }

  /** Two bookmarks added in turn are both kept, in order, with their own lines. */
  method TwoBookmarksScenario(now: Date)
  {
    var context := new ModelContext();
    UserLogBookmark.AddBookmark("first", Error, context := context, file := "A.swift", functionName := "f()",
                                lineNumber := 1, now := now);
    UserLogBookmark.AddBookmark("second", Warning, Some("look"), context, "B.swift", "g()", 2, now);
    assert |context.inserted| == 2;
    assert context.inserted[0].line == "first" && context.inserted[1].note == Some("look");
  }
}
