/**
 * `LogView`'s `color(for:)`: a log line is coloured by the most severe
 * bracketed level label it contains, and green when it contains none.
 */
module LogViewColors {
  import opened Text
  import opened LogLevels
  import opened Palette
  import Logging

  /** `color(for logLine:)`: tests the labels from the most severe down; the first one found decides. */
  function LineColor(logLine: string): (c: Color)
    ensures c != Purple
  {
    if Contains(logLine, "[CRITICAL]") then Red
    else if Contains(logLine, "[ERROR]") then Orange
    else if Contains(logLine, "[WARNING]") then Yellow
    else if Contains(logLine, "[INFO]") then Blue
    else if Contains(logLine, "[DEBUG]") then Gray
    else Green
  }

  /** The bracketed label of a level, as every log line writes it. */
  function Tag(l: LogLevel): (t: string)
    ensures t == "[" + Label(l) + "]"
  {
    match l
    case Debug => "[DEBUG]"
    case Info => "[INFO]"
    case Warning => "[WARNING]"
    case Error => "[ERROR]"
    case Critical => "[CRITICAL]"
  }

  /** The colour a line gets for a level's label when no more severe label is present. */
  function TagColor(l: LogLevel): (c: Color)
    ensures c != Green && c != Purple
  {
    match l
    case Debug => Gray
    case Info => Blue
    case Warning => Yellow
    case Error => Orange
    case Critical => Red
  }

  /** `l` is the most severe level whose label occurs in the line. */
  ghost predicate IsMostSevereTag(logLine: string, l: LogLevel) {
    Contains(logLine, Tag(l)) && forall m :: Less(l, m) ==> !Contains(logLine, Tag(m))
  }

  /**
   * The classifier against its meaning: a line is coloured for the most
   * severe label it contains, whatever less severe labels it also holds, and
   * green exactly when it holds none.
   */
  lemma LineColorFollowsMostSevereTag(logLine: string)
    ensures forall l :: IsMostSevereTag(logLine, l) ==> LineColor(logLine) == TagColor(l)
    ensures LineColor(logLine) == Green <==> forall l :: !Contains(logLine, Tag(l))
  {
    if LineColor(logLine) != Green {
      assert Contains(logLine, Tag(Critical)) || Contains(logLine, Tag(Error)) || Contains(logLine, Tag(Warning))
          || Contains(logLine, Tag(Info)) || Contains(logLine, Tag(Debug));
    }
  }

  /** A line holding `[CRITICAL]` is red, whatever else it holds. */
  lemma CriticalIsRed(logLine: string)
    requires Contains(logLine, "[CRITICAL]")
    ensures LineColor(logLine) == Red
  {
  }

  /** The level colours are pairwise distinct, so the colour names the level it stands for. */
  lemma TagColorInjective(a: LogLevel, b: LogLevel)
    requires TagColor(a) == TagColor(b)
    ensures a == b
  {
  }

  /**
   * A line the logger wrote is never green, and never coloured below its own
   * level: its colour is that of its level or of a more severe label found in
   * the timestamp, tag or message.
   */
  lemma LoggedLineColor(timestamp: string, level: LogLevel, tag: string, message: string)
    ensures var c := LineColor(Logging.Entry(timestamp, level, tag, message));
      && c != Green
      && exists m :: AtLeast(m, level) && c == TagColor(m)
  {
    var e := Logging.Entry(timestamp, level, tag, message);
    Logging.EntryCarriesLabel(timestamp, level, tag, message);
    ContainsAt(e, Tag(level), |timestamp| + 3);
    var c := LineColor(e);
    if Contains(e, "[CRITICAL]") {
      assert c == TagColor(Critical) && AtLeast(Critical, level);
    } else if Contains(e, "[ERROR]") {
      assert c == TagColor(Error) && AtLeast(Error, level);
    } else if Contains(e, "[WARNING]") {
      assert c == TagColor(Warning) && AtLeast(Warning, level);
    } else if Contains(e, "[INFO]") {
      assert c == TagColor(Info) && AtLeast(Info, level);
    } else {
      assert c == TagColor(Debug) && AtLeast(Debug, level);
    }
  }
}
