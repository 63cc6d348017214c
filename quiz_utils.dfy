/** The frontend's result lookup (web/src/lib/utils/quiz.ts): the text of the first
    "min-max" entry of a result mapping whose range contains the score. */
module QuizUtils {
  import opened Wrappers
  import opened Strings
  import opened Int64
  import Converter

  /** JavaScript's `Number(piece)` on the pieces that occur here: "" is 0, an optionally
      signed run of decimal digits is its value, and anything else is NaN (None). */
  function JsNumber(s: string): Option<int> {
    if s == [] then Some(0)
    else
      var signed := s[0] == '+' || s[0] == '-';
      var digits := if signed then s[1..] else s;
      if digits == [] || !AllDigits(digits) then None
      else if s[0] == '-' then Some(-(DecimalValue(digits) as int))
      else Some(DecimalValue(digits))
  }

  /** `range.split('-').map(Number)` destructured into `[min, max]`: the first two pieces,
      with a missing second piece (undefined) or a NaN piece giving None. */
  function RangeOf(key: string): Option<(int, int)> {
    var parts := SplitOn(key, '-');
    if |parts| < 2 then None
    else
      match (JsNumber(parts[0]), JsNumber(parts[1]))
      case (Some(min), Some(max)) => Some((min, max))
      case _ => None
  }

  /** The entry's range is usable and contains the score. */
  predicate Matches(score: int, key: string) {
    RangeOf(key).Some? && RangeOf(key).value.0 <= score <= RangeOf(key).value.1
  }

  /** getResultText over the mapping's entries in enumeration order: the first matching
      entry's text, skipping unusable ranges, and "Unknown result" when none matches. */
  function GetResultText(score: int, entries: seq<(string, string)>): (text: string)
    ensures text == "Unknown result" || exists k :: 0 <= k < |entries| && text == entries[k].1
    decreases |entries|
  {
    if entries == [] then "Unknown result"
    else if Matches(score, entries[0].0) then entries[0].1
    else GetResultText(score, entries[1..])
  }

  /** getDefaultScore. */
  function GetDefaultScore(): (score: int)
    ensures score == 7
  {
    7
  }

  /** The text returned is that of the first entry whose range contains the score. */
  lemma {:induction false} GetResultTextFirstMatch(score: int, entries: seq<(string, string)>, n: nat)
    requires n < |entries| && Matches(score, entries[n].0)
    requires forall m :: 0 <= m < n ==> !Matches(score, entries[m].0)
    ensures GetResultText(score, entries) == entries[n].1
    decreases n
  {
    if n > 0 {
      GetResultTextFirstMatch(score, entries[1..], n - 1);
    }
  }

  /** With no entry matching, unusable ones included, the text is "Unknown result". */
  lemma {:induction false} GetResultTextNoMatch(score: int, entries: seq<(string, string)>)
    requires forall m :: 0 <= m < |entries| ==> !Matches(score, entries[m].0)
    ensures GetResultText(score, entries) == "Unknown result"
    decreases |entries|
  {
    if entries != [] {
      GetResultTextNoMatch(score, entries[1..]);
    }
  }

  lemma JsNumberFormatInt(v: int)
    ensures JsNumber(FormatInt(v)) == Some(v)
  {
    if v < 0 {
      DigitsValue(-v);
      assert FormatInt(v)[1..] == Digits(-v);
    } else {
      DigitsValue(v);
      assert FormatInt(v)[0] != '+' && FormatInt(v)[0] != '-';
    }
  }

  /** Pieces after the second are ignored: "1-2-3" reads as 1..2. */
  lemma ExtraPiecesIgnored(a: string, b: string, c: string)
    requires '-' !in a && '-' !in b
    ensures RangeOf(a + "-" + b + "-" + c) == RangeOf(a + "-" + b)
  {
    assert a + "-" + b + "-" + c == a + ['-'] + (b + ['-'] + c);
    SplitOnPrefix(a, '-', b + ['-'] + c);
    SplitOnPrefix(b, '-', c);
    SplitOnPrefix(a, '-', b);
    SplitOnNoSep(b, '-');
  }

  /** A key starting with '-' reads its empty first piece as 0: "-1-2" is the range 0..1,
      not -1..2. */
  lemma LeadingDashReadsAsZero(from: int, to: int)
    requires from > 0
    ensures RangeOf(FormatInt(-from) + "-" + FormatInt(to)) == Some((0, from))
  {
    var d := Digits(from);
    Converter.DigitsHaveNoDash(d);
    assert FormatInt(-from) + "-" + FormatInt(to) == [] + ['-'] + (d + ['-'] + FormatInt(to));
    SplitOnPrefix([], '-', d + ['-'] + FormatInt(to));
    SplitOnPrefix(d, '-', FormatInt(to));
    JsNumberFormatInt(from);
  }

  /** For keys the server accepts with non-negative bounds, the page reads the same range as
      the server's parse. */
  lemma AgreesWithServerParse(from: int, to: int)
    requires 0 <= from <= MaxInt64 && 0 <= to <= MaxInt64
    ensures RangeOf(FormatInt(from) + "-" + FormatInt(to)) == Some((from, to))
    ensures Converter.ParseRange(FormatInt(from) + "-" + FormatInt(to)) == Some((from, to))
  {
    Converter.ParseRangeFormat(from, to);
    Converter.DigitsHaveNoDash(FormatInt(from));
    Converter.DigitsHaveNoDash(FormatInt(to));
    SplitOnPrefix(FormatInt(from), '-', FormatInt(to));
    SplitOnNoSep(FormatInt(to), '-');
    JsNumberFormatInt(from);
    JsNumberFormatInt(to);
  }
}
