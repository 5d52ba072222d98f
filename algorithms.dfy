/** `Algorithms.matching_ratio`: how much of a keyword the greedy parts
    found in a text cover, penalised by how many pieces it took. */
module Algorithms {
  import opened Wrappers
  import opened Python
  import opened BasicUtils

  /** `[i for i in matches if len(i) > 1]`: single characters are dropped. */
  function LongMatches(parts: seq<string>): seq<string> {
    if parts == [] then []
    else if |parts[0]| > 1 then [parts[0]] + LongMatches(parts[1..])
    else LongMatches(parts[1..])
  }

  /** The kept parts are exactly the parts longer than one character, each
      as often as it occurs, in their order; they are no longer in total
      than all the parts. */
  lemma {:induction false} LongMatchesFilter(parts: seq<string>)
    ensures forall i :: 0 <= i < |LongMatches(parts)| ==>
      |LongMatches(parts)[i]| > 1 && LongMatches(parts)[i] in parts
    ensures forall i :: 0 <= i < |parts| && |parts[i]| > 1 ==> parts[i] in LongMatches(parts)
    ensures forall w :: multiset(LongMatches(parts))[w] == if |w| > 1 then multiset(parts)[w] else 0
    ensures IsSubsequence(LongMatches(parts), parts)
    ensures TotalLength(LongMatches(parts)) <= TotalLength(parts)
  {
    if parts != [] {
      LongMatchesFilter(parts[1..]);
      var rest := LongMatches(parts[1..]);
      forall i | 0 <= i < |parts| && |parts[i]| > 1
        ensures parts[i] in LongMatches(parts)
      {
        if i > 0 {
          assert parts[i] == parts[1..][i - 1];
        }
      }
      LongMatchesStep(parts, rest);
    }
  }

  /** One step of the filter: the head is kept exactly when it is long. */
  lemma LongMatchesStep(parts: seq<string>, rest: seq<string>)
    requires parts != [] && rest == LongMatches(parts[1..])
    requires forall w :: multiset(rest)[w] == if |w| > 1 then multiset(parts[1..])[w] else 0
    requires IsSubsequence(rest, parts[1..])
    ensures forall w :: multiset(LongMatches(parts))[w] == if |w| > 1 then multiset(parts)[w] else 0
    ensures IsSubsequence(LongMatches(parts), parts)
  {
    assert parts == [parts[0]] + parts[1..];
    assert multiset(parts) == multiset{parts[0]} + multiset(parts[1..]);
    if |parts[0]| > 1 {
      assert multiset([parts[0]] + rest) == multiset{parts[0]} + multiset(rest);
      SubsequenceCons(rest, parts);
    } else {
      SubsequenceSkip(rest, parts);
    }
  }

  /** Every kept part has at least two characters, so they add up to at
      least twice their number. */
  lemma {:induction false} LongMatchesLength(parts: seq<string>)
    ensures TotalLength(LongMatches(parts)) >= 2 * |LongMatches(parts)|
  {
    if parts != [] {
      LongMatchesLength(parts[1..]);
      var rest := LongMatches(parts[1..]);
      if |parts[0]| > 1 {
        assert ([parts[0]] + rest)[1..] == rest;
      }
    }
  }

  /** The matches `matching_ratio` scores. */
  function Matches(text: string, pattern: string): seq<string> {
    LongMatches(GreedyParts(text, pattern, 0))
  }

  /** Python's `/`: dividing by zero raises `ZeroDivisionError`; otherwise
      the quotient times the divisor gives back the dividend. */
  function Divide(a: real, b: real): (r: Result<real, Exception>)
    ensures r.Failure? <==> b == 0.0
    ensures r.Failure? ==> r.error == ZeroDivisionError
    ensures r.Success? ==> r.value * b == a
  {
    if b == 0.0 then Failure(ZeroDivisionError) else Success(a / b)
  }

  /** `matching_ratio(text, pattern)` as Python evaluates it: the joined
      length of the matches over the pattern length, divided by the number
      of matches (at least 1). Only the first division can raise, and only
      for the empty pattern; a score lies in [0, 1]. */
  function MatchingRatioChecked(text: string, pattern: string): (r: Result<real, Exception>)
    ensures r.Failure? <==> |pattern| == 0
    ensures r.Failure? ==> r.error == ZeroDivisionError
    ensures r.Success? ==> 0.0 <= r.value <= 1.0
  {
    var matches := Matches(text, pattern);
    var n := if |matches| > 1 then |matches| else 1;
    match Divide(TotalLength(matches) as real, |pattern| as real)
    case Failure(err) => Failure(err)
    case Success(concat) =>
      GreedyPartsOccur(text, pattern, 0);
      LongMatchesFilter(GreedyParts(text, pattern, 0));
      RatioAtMostOne(TotalLength(matches) as real, |pattern| as real);
      DivideByAtLeastOne(concat, n as real);
      Divide(concat, n as real)
  }

  /** The score of a non-empty pattern, for which `matching_ratio` cannot
      raise. */
  function MatchingRatio(text: string, pattern: string): (score: real)
    requires |pattern| > 0
    ensures 0.0 <= score <= 1.0
  {
    MatchingRatioChecked(text, pattern).value
  }

  /** The score of a non-empty pattern, as the two quotients. */
  lemma MatchingRatioValue(text: string, pattern: string)
    requires |pattern| > 0
    ensures var matches := Matches(text, pattern);
      MatchingRatio(text, pattern) ==
        (TotalLength(matches) as real / |pattern| as real) / (if |matches| > 1 then |matches| else 1) as real
  {
  }

  lemma RatioAtMostOne(a: real, b: real)
    requires 0.0 <= a <= b && b > 0.0
    ensures 0.0 <= a / b <= 1.0
  {
    assert a / b * b == a;
  }

  lemma DivideByAtLeastOne(x: real, n: real)
    requires 0.0 <= x && n >= 1.0
    ensures 0.0 <= x / n <= x
  {
    assert x / n * n == x;
  }

  /** `(a / b) / n` reaches 1 only with nothing lost on either division. */
  lemma RatioOne(a: real, b: real, n: real)
    requires 0.0 <= a <= b && b > 0.0 && n >= 1.0 && (a / b) / n == 1.0
    ensures a == b && n == 1.0
  {
    assert (a / b) / n * n == a / b;
    assert a / b == n;
    assert a / b * b == a;
  }

  /** The score is 0 exactly when no match longer than one character exists. */
  lemma MatchingRatioZero(text: string, pattern: string)
    requires |pattern| > 0
    ensures MatchingRatio(text, pattern) == 0.0 <==> Matches(text, pattern) == []
  {
    var matches := Matches(text, pattern);
    LongMatchesLength(GreedyParts(text, pattern, 0));
    var n := if |matches| > 1 then |matches| else 1;
    var concat := TotalLength(matches) as real / |pattern| as real;
    assert MatchingRatio(text, pattern) == concat / n as real;
    assert matches != [] ==> concat > 0.0;
  }

  /** A pattern of at least two characters that occurs whole in the text is
      a single match covering everything. */
  lemma WholePatternMatches(text: string, pattern: string)
    requires |pattern| >= 2 && Occurs(pattern, text)
    ensures Matches(text, pattern) == [pattern]
  {
    assert pattern[0..|pattern|] == pattern;
    assert LongestEnd(text, pattern, 0, |pattern|) == |pattern|;
    assert GreedyParts(text, pattern, 0) == [pattern] + GreedyParts(text, pattern, |pattern|);
    assert GreedyParts(text, pattern, 0) == [pattern];
    assert LongMatches([pattern]) == [pattern] + LongMatches([]);
  }

  /** Each greedy part is a substring of the pattern. */
  lemma GreedyPartsInPattern(text: string, pattern: string)
    ensures forall i :: 0 <= i < |GreedyParts(text, pattern, 0)| ==>
      Occurs(GreedyParts(text, pattern, 0)[i], pattern)
  {
    GreedyPartsAreSlices(text, pattern, 0);
    var spans := GreedySpans(text, pattern, 0);
    var parts := GreedyParts(text, pattern, 0);
    forall i | 0 <= i < |parts|
      ensures Occurs(parts[i], pattern)
    {
      assert OccursAt(parts[i], pattern, spans[i].lo);
    }
  }

  /** A substring as long as the whole string is the string. */
  lemma OccursFullLength(x: string, p: string)
    requires Occurs(x, p) && |x| == |p|
    ensures x == p
  {
    var i: nat :| i <= |p| && OccursAt(x, p, i);
    assert p[0..|p|] == p;
  }

  /** The score is exactly 1 when, and only when, the whole pattern has at
      least two characters and occurs in the text. */
  lemma MatchingRatioOne(text: string, pattern: string)
    requires |pattern| > 0
    ensures MatchingRatio(text, pattern) == 1.0 <==> |pattern| >= 2 && Occurs(pattern, text)
  {
    if |pattern| >= 2 && Occurs(pattern, text) {
      WholePatternScoresOne(text, pattern);
    }
    if MatchingRatio(text, pattern) == 1.0 {
      ScoreOneSingleMatch(text, pattern);
    }
  }

  /** A whole match of the pattern scores 1. */
  lemma WholePatternScoresOne(text: string, pattern: string)
    requires |pattern| >= 2 && Occurs(pattern, text)
    ensures MatchingRatio(text, pattern) == 1.0
  {
    MatchingRatioValue(text, pattern);
    WholePatternMatches(text, pattern);
    assert TotalLength([pattern]) == |pattern| + TotalLength([]);
    DivideSelf(|pattern| as real);
  }

  lemma DivideSelf(x: real)
    requires x > 0.0
    ensures x / x == 1.0
  {
    assert x / x * x == x;
  }

  /** Score 1 forces a single match of the pattern's whole length, and that
      match is the pattern. */
  lemma ScoreOneSingleMatch(text: string, pattern: string)
    requires |pattern| > 0 && MatchingRatio(text, pattern) == 1.0
    ensures |pattern| >= 2 && Occurs(pattern, text)
  {
    var parts := GreedyParts(text, pattern, 0);
    var matches := Matches(text, pattern);
    GreedyPartsOccur(text, pattern, 0);
    LongMatchesFilter(parts);
    LongMatchesLength(parts);
    var n := if |matches| > 1 then |matches| else 1;
    var total := TotalLength(matches);
    assert total <= |pattern|;
    assert MatchingRatio(text, pattern) == (total as real / |pattern| as real) / n as real;
    RatioOne(total as real, |pattern| as real, n as real);
    assert n == 1 && total == |pattern|;
    assert matches != [];
    assert |matches| == 1;
    assert TotalLength(matches) == |matches[0]| + TotalLength(matches[1..]);
    var m := matches[0];
    assert |m| == |pattern| && |m| > 1;
    var j :| 0 <= j < |parts| && parts[j] == m;
    GreedyPartsInPattern(text, pattern);
    OccursFullLength(m, pattern);
  }

  /** The unit test's case: the whole keyword occurs in the text. */
  lemma MatchingRatioExample()
    ensures MatchingRatio("abcdef", "def") == 1.0
  {
    assert OccursAt("def", "abcdef", 3);
    MatchingRatioOne("abcdef", "def");
  }
}
