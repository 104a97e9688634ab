/**
 * The few string operations of Swift and Foundation that the core relies on:
 * interpolating an `Int` into a string, `String.contains`, and
 * `components(separatedBy:)`. Strings are sequences of characters; Unicode
 * grapheme clustering is not modelled.
 */
module Text {

  // ---------------------------------------------------------------------------
  // Decimal rendering of integers (what `"\(n)"` produces for an `Int`)
  // ---------------------------------------------------------------------------

  predicate IsDigit(c: char) {
    '0' <= c <= '9'
  }

  function DigitChar(d: nat): (c: char)
    requires d < 10
    ensures IsDigit(c) && c as int - '0' as int == d
  {
    (d + '0' as int) as char
  }

  /** Decimal digits of `n`, most significant first, without leading zeros. */
  function NatToString(n: nat): (s: string)
    ensures |s| > 0
    ensures forall i :: 0 <= i < |s| ==> IsDigit(s[i])
    ensures |s| > 1 ==> s[0] != '0'
    decreases n
  {
    if n < 10 then [DigitChar(n)] else NatToString(n / 10) + [DigitChar(n % 10)]
  }

  function DigitValue(c: char): nat
    requires IsDigit(c)
  {
    c as int - '0' as int
  }

  /** The number a (possibly empty) string of digits denotes. */
  function DigitsValue(s: string): nat
    requires forall i :: 0 <= i < |s| ==> IsDigit(s[i])
  {
    if s == [] then 0
    else DigitsValue(s[..|s| - 1]) * 10 + DigitValue(s[|s| - 1])
  }

  /** Reading the digits back gives the number: the rendering loses nothing. */
  lemma {:induction false} NatToStringRoundTrip(n: nat)
    ensures DigitsValue(NatToString(n)) == n
    decreases n
  {
    if n >= 10 {
      NatToStringRoundTrip(n / 10);
      var s := NatToString(n);
      assert s[..|s| - 1] == NatToString(n / 10);
    }
  }

  /** Swift's rendering of an `Int`: a minus sign for negative values, then the digits. */
  function IntToString(i: int): (s: string)
    ensures |s| > 0
    ensures s[0] == '-' <==> i < 0
    ensures forall k :: 0 < k < |s| ==> IsDigit(s[k])
  {
    if i < 0 then "-" + NatToString(-i) else NatToString(i)
  }

  /** The rendering of integers is one-to-one, so a rendered line number identifies the line. */
  lemma IntToStringInjective(i: int, j: int)
    requires IntToString(i) == IntToString(j)
    ensures i == j
  {
    if i < 0 {
      assert IntToString(i)[1..] == NatToString(-i);
      assert IntToString(j)[1..] == NatToString(-j);
      NatToStringRoundTrip(-i);
      NatToStringRoundTrip(-j);
    } else {
      NatToStringRoundTrip(i);
      NatToStringRoundTrip(j);
    }
  }

  // ---------------------------------------------------------------------------
  // Substring search (`String.contains(_:)` with a string argument)
  // ---------------------------------------------------------------------------

  predicate StartsWith(s: string, prefix: string) {
    |prefix| <= |s| && s[..|prefix|] == prefix
  }

  /**
   * `s.contains(t)`: `t` occurs somewhere in `s`. Unlike Foundation, the
   * empty string is contained in every string; the core only searches for
   * non-empty labels, where the two agree.
   */
  predicate Contains(s: string, t: string)
    decreases |s|
  {
    StartsWith(s, t) || (|s| > 0 && Contains(s[1..], t))
  }

  /** `t` occurs in `s` at position `i`. */
  ghost predicate OccursAt(s: string, t: string, i: int) {
    0 <= i && i + |t| <= |s| && s[i..i + |t|] == t
  }

  /** `Contains` holds exactly when there is a position where `t` occurs. */
  lemma {:induction false} ContainsIffOccurs(s: string, t: string)
    ensures Contains(s, t) <==> exists i :: OccursAt(s, t, i)
    decreases |s|
  {
    if StartsWith(s, t) {
      assert OccursAt(s, t, 0);
    } else if |s| > 0 {
      ContainsIffOccurs(s[1..], t);
      if Contains(s[1..], t) {
        var i :| OccursAt(s[1..], t, i);
        assert s[1..][i..i + |t|] == s[i + 1..i + 1 + |t|];
        assert OccursAt(s, t, i + 1);
      } else {
        forall i | OccursAt(s, t, i) && i > 0 ensures OccursAt(s[1..], t, i - 1) {
          assert s[1..][i - 1..i - 1 + |t|] == s[i..i + |t|];
        }
      }
    }
  }

  /** A witness position is enough to show that `s` contains `t`. */
  lemma ContainsAt(s: string, t: string, i: int)
    requires OccursAt(s, t, i)
    ensures Contains(s, t)
  {
    ContainsIffOccurs(s, t);
  }

  // ---------------------------------------------------------------------------
  // Splitting (`components(separatedBy:)` with a one-character separator)
  // ---------------------------------------------------------------------------

  /**
   * The pieces of `s` between occurrences of `sep`, in order. Like Foundation,
   * the empty string gives one empty piece and adjacent separators give empty
   * pieces, so there is always at least one piece.
   */
  function Components(s: string, sep: char): (parts: seq<string>)
    ensures |parts| >= 1
    ensures forall i :: 0 <= i < |parts| ==> sep !in parts[i]
    decreases |s|
  {
    if s == [] then [""]
    else
      var rest := Components(s[1..], sep);
      if s[0] == sep then [""] + rest
      else [[s[0]] + rest[0]] + rest[1..]
  }

  /** The inverse of `Components`: the pieces glued back with the separator. */
  function Join(parts: seq<string>, sep: char): string
    requires |parts| >= 1
  {
    if |parts| == 1 then parts[0] else parts[0] + [sep] + Join(parts[1..], sep)
  }

  /** Splitting loses nothing: joining the pieces gives the original string back. */
  lemma {:induction false} JoinComponents(s: string, sep: char)
    ensures Join(Components(s, sep), sep) == s
    decreases |s|
  {
    if s != [] {
      JoinComponents(s[1..], sep);
      var rest := Components(s[1..], sep);
      if s[0] != sep && |rest| > 1 {
        assert ([[s[0]] + rest[0]] + rest[1..])[1..] == rest[1..];
      }
    }
  }

  /** The last piece, `components(separatedBy: sep).last`. */
  function LastComponent(s: string, sep: char): string {
    var parts := Components(s, sep);
    parts[|parts| - 1]
  }

  /**
   * The last piece is the longest suffix of `s` without a separator: it is a
   * suffix, holds no separator, and is either all of `s` or preceded by one.
   */
  lemma {:induction false} LastComponentIsFinalSegment(s: string, sep: char)
    ensures var last := LastComponent(s, sep);
      && sep !in last
      && |last| <= |s|
      && s[|s| - |last|..] == last
      && (|last| == |s| || s[|s| - |last| - 1] == sep)
    decreases |s|
  {
    if s != [] {
      LastComponentIsFinalSegment(s[1..], sep);
      var rest := Components(s[1..], sep);
      var tail := rest[|rest| - 1];
      assert s[1..][|s| - 1 - |tail|..] == s[|s| - |tail|..];
      JoinComponents(s[1..], sep);
      if s[0] != sep && |rest| == 1 {
        assert LastComponent(s, sep) == [s[0]] + rest[0];
        assert [s[0]] + rest[0] == s;
      } else {
        assert LastComponent(s, sep) == tail;
        if s[0] != sep {
          assert s[1..][|rest[0]|] == sep;
        }
      }
    }
  }

  /** A string without the separator is its own last piece. */
  lemma LastComponentWithoutSeparator(s: string, sep: char)
    requires sep !in s
    ensures LastComponent(s, sep) == s
  {
    LastComponentIsFinalSegment(s, sep);
  }
}
