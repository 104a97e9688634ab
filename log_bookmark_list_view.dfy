/** `LogBookmarkListView`'s `color(for:)`: the colour of a saved bookmark's line, from its severity alone. */
module BookmarkListColors {
  import opened LogLevels
  import opened Palette
  import LogViewColors

  /** `color(for severity:)`: one colour per level. */
  function SeverityColor(severity: LogLevel): (c: Color)
    ensures c != Green && c != Yellow
  {
    match severity
    case Debug => Gray
    case Info => Blue
    case Warning => Orange
    case Error => Red
    case Critical => Purple
  }

  /** The five severities get five different colours, so the mapping is injective. */
  lemma SeverityColorInjective(a: LogLevel, b: LogLevel)
    requires SeverityColor(a) == SeverityColor(b)
    ensures a == b
  {
  }

  /**
   * The bookmark list and the live log view agree on debug and info only:
   * from warning up, the list uses the next colour in its own scale (a warning
   * is orange here and yellow in the log view).
   */
  lemma ViewsAgreeBelowWarning(l: LogLevel)
    ensures SeverityColor(l) == LogViewColors.TagColor(l) <==> Less(l, Warning)
  {
  }
}
