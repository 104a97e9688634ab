/** `LogLevel`: the five severities of the logger, ranked from 0 to 4. */
module LogLevels {

  datatype LogLevel = Debug | Info | Warning | Error | Critical

  /** The integer position of a level in the order (`rank` in the source). */
  function Rank(l: LogLevel): (r: int)
    ensures 0 <= r <= 4
  {
    match l
    case Debug => 0
    case Info => 1
    case Warning => 2
    case Error => 3
    case Critical => 4
  }

  /** `lhs < rhs`: levels compare by rank. */
  predicate Less(a: LogLevel, b: LogLevel)
    ensures Less(a, b) ==> a != b
  {
    Rank(a) < Rank(b)
  }

  /** `lhs >= rhs` as `Comparable` derives it from `<`: not below. */
  predicate AtLeast(a: LogLevel, b: LogLevel)
    ensures a == b ==> AtLeast(a, b)
  {
    !Less(a, b)
  }

  /** `from(_:)`: the level with the given rank; any other integer decodes to `info`. */
  function From(i: int): (l: LogLevel)
    ensures 0 <= i <= 4 ==> Rank(l) == i
    ensures !(0 <= i <= 4) ==> l == Info
  {
    match i
    case 0 => Debug
    case 1 => Info
    case 2 => Warning
    case 3 => Error
    case 4 => Critical
    case _ => Info
  }

  /** Decoding a rank gives back the level it came from. */
  lemma FromRank(l: LogLevel)
    ensures From(Rank(l)) == l
  {
  }

  /** Distinct levels have distinct ranks, so the rank determines the level. */
  lemma RankInjective(a: LogLevel, b: LogLevel)
    requires Rank(a) == Rank(b)
    ensures a == b
  {
    FromRank(a);
    FromRank(b);
  }

  /** `<` is a strict total order: irreflexive, transitive, and any two distinct levels are comparable. */
  lemma LessIsStrictTotalOrder()
    ensures forall a :: !Less(a, a)
    ensures forall a, b, c :: Less(a, b) && Less(b, c) ==> Less(a, c)
    ensures forall a, b :: a != b ==> Less(a, b) || Less(b, a)
    ensures forall a, b :: Less(a, b) ==> !Less(b, a)
  {
    forall a, b | a != b ensures Less(a, b) || Less(b, a) {
      if Rank(a) == Rank(b) {
        RankInjective(a, b);
      }
    }
  }

  /** The order runs debug < info < warning < error < critical. */
  lemma LevelChain()
    ensures Less(Debug, Info) && Less(Info, Warning) && Less(Warning, Error) && Less(Error, Critical)
  {
  }

  /** `>=` is exactly "rank not smaller". */
  lemma AtLeastIsRankComparison(a: LogLevel, b: LogLevel)
    ensures AtLeast(a, b) <==> Rank(a) >= Rank(b)
  {
  }

  /** The raw value of the enum case (its Swift name). */
  function RawValue(l: LogLevel): (r: string)
    ensures |r| > 0 && forall i :: 0 <= i < |r| ==> 'a' <= r[i] <= 'z'
  {
    match l
    case Debug => "debug"
    case Info => "info"
    case Warning => "warning"
    case Error => "error"
    case Critical => "critical"
  }

  function UpperChar(c: char): char {
    if 'a' <= c <= 'z' then (c as int - 'a' as int + 'A' as int) as char else c
  }

  /** `uppercased()` on ASCII text. */
  function Uppercased(s: string): (r: string)
    ensures |r| == |s|
    ensures forall i :: 0 <= i < |s| ==> r[i] == UpperChar(s[i])
  {
    if s == [] then [] else [UpperChar(s[0])] + Uppercased(s[1..])
  }

  /** The label written between brackets in every log line. */
  function Label(l: LogLevel): (r: string)
    ensures |r| > 0 && forall i :: 0 <= i < |r| ==> 'A' <= r[i] <= 'Z'
  {
    match l
    case Debug => "DEBUG"
    case Info => "INFO"
    case Warning => "WARNING"
    case Error => "ERROR"
    case Critical => "CRITICAL"
  }

  /** The label is `level.rawValue.uppercased()`, the case name in capitals. */
  lemma LabelIsUppercasedRawValue(l: LogLevel)
    ensures Label(l) == Uppercased(RawValue(l))
  {
    match l
    case Debug => SpelledAs("debug", "DEBUG");
    case Info => SpelledAs("info", "INFO");
    case Warning => SpelledAs("warning", "WARNING");
    case Error => SpelledAs("error", "ERROR");
    case Critical => SpelledAs("critical", "CRITICAL");
  }

  lemma SpelledAs(s: string, t: string)
    requires |s| == |t|
    requires forall i :: 0 <= i < |s| ==> UpperChar(s[i]) == t[i]
    ensures Uppercased(s) == t
  {
  }

  /** The five labels are pairwise distinct. */
  lemma LabelInjective(a: LogLevel, b: LogLevel)
    requires Label(a) == Label(b)
    ensures a == b
  {
  }
}
