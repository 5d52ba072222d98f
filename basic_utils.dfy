/** The string utilities of `BasicUtils`: keyword cleaning, the greedy
    substring decomposition the matcher is built on, and the combinatorial
    query expansion. */
module BasicUtils {

  // ---------------------------------------------------------------------------
  // clean_zero
  // ---------------------------------------------------------------------------

  /** The characters `clean_zero` keeps: ASCII digits and lower-case letters. */
  predicate IsCleanChar(c: char) {
    '0' <= c <= '9' || 'a' <= c <= 'z'
  }

  predicate IsClean(s: string) {
    forall i :: 0 <= i < |s| ==> IsCleanChar(s[i])
  }

  /** What one character contributes to `clean_zero`: Python's `lower()` of
      it, with everything outside [0-9a-zA-Z] removed. Besides 'A'..'Z', two
      characters lower-case to ASCII letters: KELVIN SIGN becomes 'k', and
      LATIN CAPITAL LETTER I WITH DOT ABOVE becomes 'i' followed by a
      combining dot, which the filter then drops. */
  function CleanChar(c: char): (r: string)
    ensures |r| <= 1 && IsClean(r)
    ensures IsCleanChar(c) ==> r == [c]
    ensures 'A' <= c <= 'Z' ==> r == [(c as int + 32) as char]
    ensures !IsCleanChar(c) && !('A' <= c <= 'Z') && c != '\U{212A}' && c != '\U{0130}' ==> r == ""
  {
    if IsCleanChar(c) then [c]
    else if 'A' <= c <= 'Z' then [(c as int + 32) as char]
    else if c == '\U{212A}' then "k"
    else if c == '\U{0130}' then "i"
    else ""
  }

  /** `clean_zero(text)`: lower-case the text and keep only [0-9a-z]. */
  function CleanZero(text: string): (r: string)
    ensures |r| <= |text|
    ensures IsClean(r)
  {
    if text == [] then "" else CleanChar(text[0]) + CleanZero(text[1..])
  }

  /** Cleaning works character by character, so it distributes over
      concatenation: the kept characters stay in their input order. */
  lemma {:induction false} CleanZeroAppend(a: string, b: string)
    ensures CleanZero(a + b) == CleanZero(a) + CleanZero(b)
  {
    if a == [] {
      assert a + b == b;
    } else {
      assert (a + b)[0] == a[0];
      assert (a + b)[1..] == a[1..] + b;
      CleanZeroAppend(a[1..], b);
    }
  }

  /** A string made only of [0-9a-z] is left unchanged. */
  lemma {:induction false} CleanZeroFixesClean(s: string)
    requires IsClean(s)
    ensures CleanZero(s) == s
  {
    if s != [] {
      assert IsClean(s[1..]);
      CleanZeroFixesClean(s[1..]);
    }
  }

  /** Cleaning twice is cleaning once. */
  lemma CleanZeroIdempotent(text: string)
    ensures CleanZero(CleanZero(text)) == CleanZero(text)
  {
    CleanZeroFixesClean(CleanZero(text));
  }

  /** The unit tests' first case: a clean string is kept as it is. */
  lemma CleanZeroKeepsExample()
    ensures CleanZero("abc123") == "abc123"
  {
    var t := "abc123";
    assert t[1..] == "bc123";
    assert t[1..][1..] == "c123";
    assert t[1..][1..][1..] == "123";
    assert t[1..][1..][1..][1..] == "23";
    assert t[1..][1..][1..][1..][1..] == "3";
  }

  lemma CleanZeroDropsExample()
    ensures CleanZero("!@#123") == "123"
  {
    var t := "!@#123";
    assert t[1..] == "@#123";
    assert t[1..][1..] == "#123";
    assert t[1..][1..][1..] == "123";
    assert CleanZero("123") == "123" by {
      assert "123"[1..] == "23";
      assert "23"[1..] == "3";
    }
  }

  /** The unit tests' second case: punctuation is removed. */
  lemma CleanZeroExample()
    ensures CleanZero("abc!@#123") == "abc123"
  {
    var t := "abc!@#123";
    CleanZeroDropsExample();
    assert t[1..] == "bc!@#123";
    assert t[1..][1..] == "c!@#123";
    assert t[1..][1..][1..] == "!@#123";
  }

  // ---------------------------------------------------------------------------
  // find_matching_parts
  // ---------------------------------------------------------------------------

  /** `p` stands in `t` at position `i`. */
  predicate OccursAt(p: string, t: string, i: nat) {
    i + |p| <= |t| && t[i..i + |p|] == p
  }

  /** Python's `p in t` for strings: `p` is a contiguous substring of `t`. */
  predicate Occurs(p: string, t: string) {
    exists i: nat :: i <= |t| && OccursAt(p, t, i)
  }

  /** A substring of an occurring string occurs too. */
  lemma OccursSlice(p: string, t: string, a: nat, b: nat)
    requires Occurs(p, t) && a <= b <= |p|
    ensures Occurs(p[a..b], t)
  {
    var i: nat :| i <= |t| && OccursAt(p, t, i);
    assert forall k :: 0 <= k < b - a ==> p[a..b][k] == t[i..i + |p|][a + k] == t[i + a..i + b][k];
    assert OccursAt(p[a..b], t, i + a);
  }

  /** Nothing occurs in `t` whose first character is absent from `t`. */
  lemma NotOccursFirstChar(p: string, t: string)
    requires |p| > 0 && p[0] !in t
    ensures !Occurs(p, t)
  {
    forall i: nat | i <= |t|
      ensures !OccursAt(p, t, i)
    {
      if i + |p| <= |t| {
        assert t[i] in t;
        assert t[i..i + |p|][0] == t[i] != p[0];
      }
    }
  }

  /** The inner loop of `find_matching_parts`: the largest `e` in
      (start, end] for which `p[start..e]` occurs in `t`, or `start` when
      there is none. */
  function LongestEnd(t: string, p: string, start: nat, end: nat): (e: nat)
    requires start <= end <= |p|
    ensures start <= e <= end
    ensures e > start ==> Occurs(p[start..e], t)
    ensures forall e' :: e < e' <= end ==> !Occurs(p[start..e'], t)
    decreases end
  {
    if end == start then start
    else if Occurs(p[start..end], t) then end
    else LongestEnd(t, p, start, end - 1)
  }

  /** Sum of the lengths of some strings: `len("".join(parts))`. */
  function TotalLength(parts: seq<string>): nat {
    if parts == [] then 0 else |parts[0]| + TotalLength(parts[1..])
  }

  lemma {:induction false} TotalLengthAppend(a: seq<string>, b: seq<string>)
    ensures TotalLength(a + b) == TotalLength(a) + TotalLength(b)
  {
    if a == [] {
      assert a + b == b;
    } else {
      assert (a + b)[1..] == a[1..] + b;
      TotalLengthAppend(a[1..], b);
    }
  }

  /** What `find_matching_parts(t, p)` returns once its cursor stands at
      `start`: at each cursor position the longest occurring slice is taken
      and the cursor jumps past it; a position where nothing occurs is
      skipped. */
  function GreedyParts(t: string, p: string, start: nat): seq<string>
    requires start <= |p|
    decreases |p| - start
  {
    if start == |p| then []
    else
      var e := LongestEnd(t, p, start, |p|);
      if e > start then [p[start..e]] + GreedyParts(t, p, e)
      else GreedyParts(t, p, start + 1)
  }

  /** Every part is a non-empty string that occurs in `t`, and together the
      parts are no longer than the rest of the pattern. */
  lemma {:induction false} GreedyPartsOccur(t: string, p: string, start: nat)
    requires start <= |p|
    ensures forall i :: 0 <= i < |GreedyParts(t, p, start)| ==>
      |GreedyParts(t, p, start)[i]| > 0 && Occurs(GreedyParts(t, p, start)[i], t)
    ensures TotalLength(GreedyParts(t, p, start)) <= |p| - start
    decreases |p| - start
  {
    if start < |p| {
      var e := LongestEnd(t, p, start, |p|);
      if e > start {
        GreedyPartsOccur(t, p, e);
        var rest := GreedyParts(t, p, e);
        assert GreedyParts(t, p, start) == [p[start..e]] + rest;
        assert TotalLength([p[start..e]] + rest) == e - start + TotalLength(rest) by {
          assert ([p[start..e]] + rest)[1..] == rest;
        }
      } else {
        GreedyPartsOccur(t, p, start + 1);
      }
    }
  }

  /** `find_matching_parts(input_string, substring)`, with its while loop over
      the cursor and its inner descending loop over the end position. */
  method FindMatchingParts(inputString: string, substring: string) returns (matchedParts: seq<string>)
    ensures matchedParts == GreedyParts(inputString, substring, 0)
  {
    matchedParts := [];
    var start := 0;
    while start < |substring|
      invariant 0 <= start <= |substring|
      invariant GreedyParts(inputString, substring, 0) == matchedParts + GreedyParts(inputString, substring, start)
      decreases |substring| - start
    {
      ghost var s0 := start;
      var found := false;
      var end := |substring|;
      while end > start
        invariant start == s0 && !found
        invariant start <= end <= |substring|
        invariant LongestEnd(inputString, substring, start, |substring|)
               == LongestEnd(inputString, substring, start, end)
        decreases end
      {
        if Occurs(substring[start..end], inputString) {
          GreedyPartsTake(inputString, substring, start, end);
          matchedParts := matchedParts + [substring[start..end]];
          start := end;
          found := true;
          break;
        }
        end := end - 1;
      }
      if !found {
        GreedyPartsSkip(inputString, substring, start);
        start := start + 1;
      }
      if start >= |substring| {
        break;
      }
    }
  }

  /** A slice the inner loop finds is the part the greedy decomposition
      takes at that cursor. */
  lemma GreedyPartsTake(t: string, p: string, start: nat, end: nat)
    requires start < end <= |p|
    requires LongestEnd(t, p, start, |p|) == LongestEnd(t, p, start, end)
    requires Occurs(p[start..end], t)
    ensures GreedyParts(t, p, start) == [p[start..end]] + GreedyParts(t, p, end)
  {
  }

  /** A cursor where no slice occurs is skipped. */
  lemma GreedyPartsSkip(t: string, p: string, start: nat)
    requires start < |p|
    requires LongestEnd(t, p, start, |p|) == LongestEnd(t, p, start, start)
    ensures GreedyParts(t, p, start) == GreedyParts(t, p, start + 1)
  {
  }

  /** A matched part's position in the pattern: `p[lo..hi]`. */
  datatype Span = Span(lo: nat, hi: nat)

  /** The positions of the parts `GreedyParts` takes. */
  ghost function GreedySpans(t: string, p: string, start: nat): seq<Span>
    requires start <= |p|
    decreases |p| - start
  {
    if start == |p| then []
    else
      var e := LongestEnd(t, p, start, |p|);
      if e > start then [Span(start, e)] + GreedySpans(t, p, e)
      else GreedySpans(t, p, start + 1)
  }

  /** Every span is non-empty and lies inside [start, n]. */
  ghost predicate SpansWithin(spans: seq<Span>, start: nat, n: nat) {
    forall i :: 0 <= i < |spans| ==> start <= spans[i].lo < spans[i].hi <= n
  }

  /** The spans run left to right without overlapping. */
  ghost predicate SpansInOrder(spans: seq<Span>) {
    forall i, j :: 0 <= i < j < |spans| ==> spans[i].hi <= spans[j].lo
  }

  /** Each span occurs in `t` and cannot be extended to the right while still
      occurring. */
  ghost predicate SpansLongest(t: string, p: string, spans: seq<Span>) {
    forall i :: 0 <= i < |spans| && spans[i].lo <= spans[i].hi <= |p| ==>
      && Occurs(p[spans[i].lo..spans[i].hi], t)
      && forall e :: spans[i].hi < e <= |p| ==> !Occurs(p[spans[i].lo..e], t)
  }

  /** Position `j` of the pattern lies inside one of the spans. */
  ghost predicate Covered(spans: seq<Span>, j: nat) {
    exists i :: 0 <= i < |spans| && spans[i].lo <= j < spans[i].hi
  }

  /** At a position from `start` on that no span covers, no slice starting
      there occurs in `t`. */
  ghost predicate GapsUnmatched(t: string, p: string, start: nat, spans: seq<Span>) {
    forall j, e :: start <= j < e <= |p| && !Covered(spans, j) ==> !Occurs(p[j..e], t)
  }

  /** What a greedy cover of `p[start..]` against `t` is, stated without the
      algorithm: non-empty spans inside [start, |p|], left to right and
      non-overlapping, each one occurring in `t` and as long as it can be,
      and nothing occurring at an uncovered position. */
  ghost predicate IsGreedyCover(t: string, p: string, start: nat, spans: seq<Span>) {
    && SpansWithin(spans, start, |p|)
    && SpansInOrder(spans)
    && SpansLongest(t, p, spans)
    && GapsUnmatched(t, p, start, spans)
  }

  /** The parts `find_matching_parts` returns are exactly the slices of the
      pattern at the greedy spans. */
  lemma {:induction false} GreedyPartsAreSlices(t: string, p: string, start: nat)
    requires start <= |p|
    ensures var spans := GreedySpans(t, p, start);
            var parts := GreedyParts(t, p, start);
            && |parts| == |spans|
            && forall i :: 0 <= i < |spans| ==> spans[i].lo <= spans[i].hi <= |p| && parts[i] == p[spans[i].lo..spans[i].hi]
    decreases |p| - start
  {
    if start < |p| {
      var e := LongestEnd(t, p, start, |p|);
      if e > start {
        GreedyPartsAreSlices(t, p, e);
      } else {
        GreedyPartsAreSlices(t, p, start + 1);
      }
    }
  }

  lemma {:induction false} GreedySpansWithin(t: string, p: string, start: nat)
    requires start <= |p|
    ensures SpansWithin(GreedySpans(t, p, start), start, |p|)
    decreases |p| - start
  {
    if start < |p| {
      var e := LongestEnd(t, p, start, |p|);
      if e > start {
        GreedySpansWithin(t, p, e);
        var rest := GreedySpans(t, p, e);
        var spans := [Span(start, e)] + rest;
        forall i | 0 <= i < |spans|
          ensures start <= spans[i].lo < spans[i].hi <= |p|
        {
          if i > 0 {
            assert spans[i] == rest[i - 1];
          }
        }
      } else {
        GreedySpansWithin(t, p, start + 1);
      }
    }
  }

  lemma {:induction false} GreedySpansInOrder(t: string, p: string, start: nat)
    requires start <= |p|
    ensures SpansInOrder(GreedySpans(t, p, start))
    decreases |p| - start
  {
    if start < |p| {
      var e := LongestEnd(t, p, start, |p|);
      if e > start {
        GreedySpansInOrder(t, p, e);
        GreedySpansWithin(t, p, e);
        var rest := GreedySpans(t, p, e);
        var spans := [Span(start, e)] + rest;
        forall i, j | 0 <= i < j < |spans|
          ensures spans[i].hi <= spans[j].lo
        {
          assert spans[j] == rest[j - 1];
          if i > 0 {
            assert spans[i] == rest[i - 1];
          }
        }
      } else {
        GreedySpansInOrder(t, p, start + 1);
      }
    }
  }

  lemma {:induction false} GreedySpansLongest(t: string, p: string, start: nat)
    requires start <= |p|
    ensures SpansLongest(t, p, GreedySpans(t, p, start))
    decreases |p| - start
  {
    if start < |p| {
      var e := LongestEnd(t, p, start, |p|);
      if e > start {
        GreedySpansLongest(t, p, e);
        var rest := GreedySpans(t, p, e);
        assert forall i :: 0 <= i < |rest| ==> ([Span(start, e)] + rest)[i + 1] == rest[i];
      } else {
        GreedySpansLongest(t, p, start + 1);
      }
    }
  }

  lemma {:induction false} GreedySpansGaps(t: string, p: string, start: nat)
    requires start <= |p|
    ensures GapsUnmatched(t, p, start, GreedySpans(t, p, start))
    decreases |p| - start
  {
    if start < |p| {
      var e := LongestEnd(t, p, start, |p|);
      if e > start {
        GreedySpansGaps(t, p, e);
        var rest := GreedySpans(t, p, e);
        var spans := [Span(start, e)] + rest;
        forall j, e2 | start <= j < e2 <= |p| && !Covered(spans, j)
          ensures !Occurs(p[j..e2], t)
        {
          assert spans[0] == Span(start, e);
          CoveredCons(Span(start, e), rest, j);
        }
      } else {
        GreedySpansGaps(t, p, start + 1);
      }
    }
  }

  lemma CoveredCons(s: Span, rest: seq<Span>, j: nat)
    ensures Covered(rest, j) ==> Covered([s] + rest, j)
  {
    if i :| 0 <= i < |rest| && rest[i].lo <= j < rest[i].hi {
      assert ([s] + rest)[i + 1] == rest[i];
    }
  }

  /** A position past the end of the first span that some span covers is
      covered by one of the others. */
  lemma CoveredTail(spans: seq<Span>, j: nat)
    requires spans != [] && spans[0].hi <= j
    ensures Covered(spans, j) ==> Covered(spans[1..], j)
  {
    if m :| 0 <= m < |spans| && spans[m].lo <= j < spans[m].hi {
      assert spans[1..][m - 1] == spans[m];
    }
  }

  /** In spans running left to right, the first one starts leftmost. */
  lemma FirstStartsLeftmost(spans: seq<Span>, i: nat)
    requires SpansInOrder(spans) && 0 <= i < |spans|
    requires forall m :: 0 <= m < |spans| ==> spans[m].lo < spans[m].hi
    ensures spans[0].lo <= spans[i].lo
  {
    if i > 0 {
      assert spans[0].hi <= spans[i].lo;
    }
  }

  /** Spans inside [start, n] need start < n. */
  lemma SpansNeedRoom(spans: seq<Span>, start: nat, n: nat)
    requires SpansWithin(spans, start, n)
    ensures spans != [] ==> start < n
  {
    if spans != [] {
      assert start <= spans[0].lo < spans[0].hi <= n;
    }
  }

  /** A position where a slice occurs is covered by a greedy cover. */
  lemma CoveredWhereOccurs(t: string, p: string, start: nat, spans: seq<Span>, j: nat, e: nat)
    requires GapsUnmatched(t, p, start, spans)
    requires start <= j < e <= |p| && Occurs(p[j..e], t)
    ensures Covered(spans, j)
  {
  }

  /** The greedy spans are a greedy cover. */
  lemma GreedySpansAreGreedyCover(t: string, p: string, start: nat)
    requires start <= |p|
    ensures IsGreedyCover(t, p, start, GreedySpans(t, p, start))
  {
    GreedySpansWithin(t, p, start);
    GreedySpansInOrder(t, p, start);
    GreedySpansLongest(t, p, start);
    GreedySpansGaps(t, p, start);
  }

  /** When something occurs at `start`, a greedy cover's first span starts
      there and is the longest occurring slice. */
  lemma FirstSpanIsLongest(t: string, p: string, start: nat, spans: seq<Span>)
    requires start < |p| && IsGreedyCover(t, p, start, spans)
    requires LongestEnd(t, p, start, |p|) > start
    ensures spans != [] && spans[0] == Span(start, LongestEnd(t, p, start, |p|))
  {
    var e := LongestEnd(t, p, start, |p|);
    CoveredWhereOccurs(t, p, start, spans, start, e);
    var i :| 0 <= i < |spans| && spans[i].lo <= start < spans[i].hi;
    FirstStartsLeftmost(spans, i);
    assert spans[0].lo == start;
    var hi := spans[0].hi;
    assert Occurs(p[start..hi], t);
    assert hi <= e;
    assert e <= hi;
  }

  /** Dropping the first span of a greedy cover leaves a greedy cover of the
      rest of the pattern. */
  lemma CoverTail(t: string, p: string, start: nat, spans: seq<Span>)
    requires IsGreedyCover(t, p, start, spans) && spans != []
    ensures IsGreedyCover(t, p, spans[0].hi, spans[1..])
  {
    CoverTailWithinInOrder(spans, start, |p|);
    CoverTailLongest(t, p, spans);
    CoverTailGaps(t, p, start, spans);
  }

  lemma CoverTailWithinInOrder(spans: seq<Span>, start: nat, n: nat)
    requires SpansWithin(spans, start, n) && SpansInOrder(spans) && spans != []
    ensures SpansWithin(spans[1..], spans[0].hi, n) && SpansInOrder(spans[1..])
  {
    var rest := spans[1..];
    forall m | 0 <= m < |rest|
      ensures spans[0].hi <= rest[m].lo < rest[m].hi <= n
    {
      assert rest[m] == spans[m + 1];
    }
    forall a, b | 0 <= a < b < |rest|
      ensures rest[a].hi <= rest[b].lo
    {
      assert rest[a] == spans[a + 1] && rest[b] == spans[b + 1];
    }
  }

  lemma CoverTailLongest(t: string, p: string, spans: seq<Span>)
    requires SpansLongest(t, p, spans) && spans != []
    ensures SpansLongest(t, p, spans[1..])
  {
    var rest := spans[1..];
    forall m | 0 <= m < |rest| && rest[m].lo <= rest[m].hi <= |p|
      ensures Occurs(p[rest[m].lo..rest[m].hi], t)
      ensures forall e :: rest[m].hi < e <= |p| ==> !Occurs(p[rest[m].lo..e], t)
    {
      assert rest[m] == spans[m + 1];
    }
  }

  lemma CoverTailGaps(t: string, p: string, start: nat, spans: seq<Span>)
    requires GapsUnmatched(t, p, start, spans) && spans != [] && start <= spans[0].hi
    ensures GapsUnmatched(t, p, spans[0].hi, spans[1..])
  {
    forall j, e2 | spans[0].hi <= j < e2 <= |p| && !Covered(spans[1..], j)
      ensures !Occurs(p[j..e2], t)
    {
      CoveredTail(spans, j);
    }
  }

  /** When nothing occurs at `start`, a greedy cover of `p[start..]` is one
      of `p[start + 1..]`. */
  lemma CoverSkip(t: string, p: string, start: nat, spans: seq<Span>)
    requires start < |p| && IsGreedyCover(t, p, start, spans)
    requires LongestEnd(t, p, start, |p|) == start
    ensures IsGreedyCover(t, p, start + 1, spans)
  {
    if spans != [] {
      FirstSpanAfter(t, p, start, spans);
    }
    forall m | 0 <= m < |spans|
      ensures start + 1 <= spans[m].lo < spans[m].hi <= |p|
    {
      FirstStartsLeftmost(spans, m);
    }
    GapsFromLater(t, p, start, start + 1, spans);
  }

  /** Where nothing occurs at `start`, a greedy cover's first span starts
      later. */
  lemma FirstSpanAfter(t: string, p: string, start: nat, spans: seq<Span>)
    requires start <= |p| && SpansWithin(spans, start, |p|) && SpansLongest(t, p, spans) && spans != []
    requires LongestEnd(t, p, start, |p|) == start
    ensures start < spans[0].lo
  {
    LongestEndReachesSpan(t, p, spans);
  }

  lemma GapsFromLater(t: string, p: string, start: nat, later: nat, spans: seq<Span>)
    requires start <= later && GapsUnmatched(t, p, start, spans)
    ensures GapsUnmatched(t, p, later, spans)
  {
  }

  /** The longest occurring slice at a span's start reaches at least to the
      span's end. */
  lemma LongestEndReachesSpan(t: string, p: string, spans: seq<Span>)
    requires SpansLongest(t, p, spans) && spans != [] && spans[0].lo < spans[0].hi <= |p|
    ensures LongestEnd(t, p, spans[0].lo, |p|) >= spans[0].hi
  {
    assert Occurs(p[spans[0].lo..spans[0].hi], t);
  }

  /** A greedy cover is unique: any spans meeting the declarative description
      are the ones `find_matching_parts` finds. */
  lemma {:induction false} GreedyCoverIsUnique(t: string, p: string, start: nat, spans: seq<Span>)
    requires start <= |p|
    requires IsGreedyCover(t, p, start, spans)
    ensures spans == GreedySpans(t, p, start)
    decreases |p| - start
  {
    if start == |p| {
      SpansNeedRoom(spans, start, |p|);
    } else {
      var e := LongestEnd(t, p, start, |p|);
      if e > start {
        FirstSpanIsLongest(t, p, start, spans);
        CoverTail(t, p, start, spans);
        GreedyCoverIsUnique(t, p, e, spans[1..]);
        assert spans == [Span(start, e)] + spans[1..];
      } else {
        CoverSkip(t, p, start, spans);
        GreedyCoverIsUnique(t, p, start + 1, spans);
      }
    }
  }

  /** The unit tests' case where the whole pattern occurs. */
  lemma FindMatchingPartsExample()
    ensures GreedyParts("abcdef", "def", 0) == ["def"]
  {
    assert "abcdef"[3..6] == "def";
    assert OccursAt("def", "abcdef", 3);
    assert "def"[0..3] == "def";
    assert LongestEnd("abcdef", "def", 0, 3) == 3;
  }

  /** A pattern none of whose characters appears in `t` has no matching
      parts. */
  lemma {:induction false} NoSharedCharNoParts(t: string, p: string, start: nat)
    requires start <= |p|
    requires forall k :: 0 <= k < |p| ==> p[k] !in t
    ensures GreedyParts(t, p, start) == []
    decreases |p| - start
  {
    if start < |p| {
      var e := LongestEnd(t, p, start, |p|);
      if e > start {
        assert p[start..e][0] == p[start];
        NotOccursFirstChar(p[start..e], t);
      }
      NoSharedCharNoParts(t, p, start + 1);
    }
  }

  /** The unit tests' case where nothing of the pattern occurs. */
  lemma FindMatchingPartsNoneExample()
    ensures GreedyParts("abcdef", "xyz", 0) == []
  {
    NoSharedCharNoParts("abcdef", "xyz", 0);
  }

  // ---------------------------------------------------------------------------
  // get_all_combinations
  // ---------------------------------------------------------------------------

  /** `itertools.combinations(xs, r)`: the r-element subsequences of `xs`, in
      lexicographic order of their index tuples. */
  function Combinations<T>(xs: seq<T>, r: nat): seq<seq<T>>
    decreases |xs|
  {
    if r == 0 then [[]]
    else if xs == [] then []
    else
      ConsAll(xs[0], Combinations(xs[1..], r - 1)) + Combinations(xs[1..], r)
  }

  /** Every sequence of `cs` with `x` put in front. */
  function ConsAll<T>(x: T, cs: seq<seq<T>>): (r: seq<seq<T>>)
    ensures |r| == |cs| && forall i :: 0 <= i < |cs| ==> r[i] == [x] + cs[i]
  {
    if cs == [] then [] else [[x] + cs[0]] + ConsAll(x, cs[1..])
  }

  function Binomial(n: nat, r: nat): nat {
    if r == 0 then 1 else if n == 0 then 0 else Binomial(n - 1, r - 1) + Binomial(n - 1, r)
  }

  function Pow2(n: nat): nat {
    if n == 0 then 1 else 2 * Pow2(n - 1)
  }

  /** `c` is a subsequence of `xs`: its elements appear in `xs` in this order. */
  ghost predicate IsSubsequence<T>(c: seq<T>, xs: seq<T>)
    decreases |xs|
  {
    c == [] || (xs != [] && ((c[0] == xs[0] && IsSubsequence(c[1..], xs[1..])) || IsSubsequence(c, xs[1..])))
  }

  /** There are C(n, r) combinations of r out of n. */
  lemma {:induction false} CombinationsCount<T>(xs: seq<T>, r: nat)
    ensures |Combinations(xs, r)| == Binomial(|xs|, r)
    decreases |xs|
  {
    if r > 0 && xs != [] {
      CombinationsCount(xs[1..], r - 1);
      CombinationsCount(xs[1..], r);
    }
  }

  /** Every combination in `cs` has r elements, taken from `xs` in order. */
  ghost predicate AllSubsequences<T>(cs: seq<seq<T>>, xs: seq<T>, r: nat) {
    forall k :: 0 <= k < |cs| ==> |cs[k]| == r && IsSubsequence(cs[k], xs)
  }

  /** Every combination of size r has r elements, taken from `xs` in order. */
  lemma {:induction false} CombinationsAreSubsequences<T>(xs: seq<T>, r: nat)
    ensures AllSubsequences(Combinations(xs, r), xs, r)
    decreases |xs|
  {
    if r > 0 && xs != [] {
      CombinationsAreSubsequences(xs[1..], r - 1);
      CombinationsAreSubsequences(xs[1..], r);
      ConsAllSubsequences(xs, Combinations(xs[1..], r - 1), r);
      SkipAllSubsequences(xs, Combinations(xs[1..], r), r);
      AllSubsequencesAppend(ConsAll(xs[0], Combinations(xs[1..], r - 1)), Combinations(xs[1..], r), xs, r);
    }
  }

  lemma AllSubsequencesAppend<T>(a: seq<seq<T>>, b: seq<seq<T>>, xs: seq<T>, r: nat)
    requires AllSubsequences(a, xs, r) && AllSubsequences(b, xs, r)
    ensures AllSubsequences(a + b, xs, r)
  {
    forall k | 0 <= k < |a + b|
      ensures |(a + b)[k]| == r && IsSubsequence((a + b)[k], xs)
    {
      if k < |a| {
        assert (a + b)[k] == a[k];
      } else {
        assert (a + b)[k] == b[k - |a|];
      }
    }
  }

  lemma ConsAllSubsequences<T>(xs: seq<T>, tail: seq<seq<T>>, r: nat)
    requires xs != [] && r > 0
    requires AllSubsequences(tail, xs[1..], r - 1)
    ensures AllSubsequences(ConsAll(xs[0], tail), xs, r)
  {
    var with := ConsAll(xs[0], tail);
    forall j | 0 <= j < |with|
      ensures |with[j]| == r && IsSubsequence(with[j], xs)
    {
      SubsequenceCons(tail[j], xs);
    }
  }

  lemma SkipAllSubsequences<T>(xs: seq<T>, rest: seq<seq<T>>, r: nat)
    requires xs != []
    requires AllSubsequences(rest, xs[1..], r)
    ensures AllSubsequences(rest, xs, r)
  {
    forall k | 0 <= k < |rest|
      ensures |rest[k]| == r && IsSubsequence(rest[k], xs)
    {
      SubsequenceSkip(rest[k], xs);
    }
  }

  lemma SubsequenceCons<T>(c: seq<T>, xs: seq<T>)
    requires xs != [] && IsSubsequence(c, xs[1..])
    ensures IsSubsequence([xs[0]] + c, xs)
  {
    assert ([xs[0]] + c)[1..] == c;
  }

  lemma SubsequenceSkip<T>(c: seq<T>, xs: seq<T>)
    requires xs != [] && IsSubsequence(c, xs[1..])
    ensures IsSubsequence(c, xs)
  {
  }

  /** The combinations of one element are the elements themselves, in order. */
  lemma {:induction false} CombinationsOfOne<T>(xs: seq<T>)
    ensures Combinations(xs, 1) == seq(|xs|, i requires 0 <= i < |xs| => [xs[i]])
    decreases |xs|
  {
    if xs != [] {
      CombinationsOfOne(xs[1..]);
      var c := Combinations(xs, 1);
      assert Combinations(xs[1..], 0) == [[]];
      assert [xs[0]] + [] == [xs[0]];
      assert ConsAll(xs[0], [[]]) == [[xs[0]]];
      assert c == [[xs[0]]] + Combinations(xs[1..], 1);
      forall i | 0 <= i < |xs|
        ensures c[i] == [xs[i]]
      {
        if i > 0 {
          assert c[i] == Combinations(xs[1..], 1)[i - 1];
        }
      }
    }
  }

  /** `" ".join(words)`. */
  function Join(words: seq<string>): string {
    if words == [] then ""
    else if |words| == 1 then words[0]
    else words[0] + " " + Join(words[1..])
  }

  /** The combinations of every size from 1 to `m`, smallest size first: the
      list the `for r` loop of `get_all_combinations` has built after `m`
      rounds. */
  function CombinationsUpTo<T>(xs: seq<T>, m: nat): seq<seq<T>> {
    if m == 0 then [] else CombinationsUpTo(xs, m - 1) + Combinations(xs, m)
  }

  function JoinAll(combos: seq<seq<string>>): (r: seq<string>)
    ensures |r| == |combos| && forall i :: 0 <= i < |combos| ==> r[i] == Join(combos[i])
  {
    seq(|combos|, i requires 0 <= i < |combos| => Join(combos[i]))
  }

  /** The phrases `get_all_combinations(keywords)` returns. */
  function Expand(keywords: seq<string>): seq<string> {
    JoinAll(CombinationsUpTo(keywords, |keywords|))
  }

  /** `get_all_combinations(input_list)`: extend the list with the
      combinations of each size r = 1 .. L, then join each with spaces. */
  method GetAllCombinations(inputList: seq<string>) returns (phrases: seq<string>)
    ensures phrases == Expand(inputList)
  {
    var allCombinations: seq<seq<string>> := [];
    for r := 1 to |inputList| + 1
      invariant allCombinations == CombinationsUpTo(inputList, r - 1)
    {
      allCombinations := allCombinations + Combinations(inputList, r);
    }
    phrases := [];
    for i := 0 to |allCombinations|
      invariant phrases == JoinAll(allCombinations[..i])
    {
      JoinAllSnoc(allCombinations, i);
      phrases := phrases + [Join(allCombinations[i])];
    }
    assert allCombinations[..|allCombinations|] == allCombinations;
  }

  lemma JoinAllSnoc(combos: seq<seq<string>>, i: nat)
    requires i < |combos|
    ensures JoinAll(combos[..i + 1]) == JoinAll(combos[..i]) + [Join(combos[i])]
  {
    var l := JoinAll(combos[..i + 1]);
    var r := JoinAll(combos[..i]) + [Join(combos[i])];
    forall k | 0 <= k < |l|
      ensures l[k] == r[k]
    {
      assert combos[..i + 1][k] == combos[k];
      if k < i {
        assert combos[..i][k] == combos[k];
      }
    }
  }

  /** Sum of C(n, r) for r = 0 .. m. */
  function BinomialSum(n: nat, m: nat): nat {
    if m == 0 then Binomial(n, 0) else BinomialSum(n, m - 1) + Binomial(n, m)
  }

  lemma {:induction false} BinomialAbove(n: nat, r: nat)
    requires r > n
    ensures Binomial(n, r) == 0
  {
    if n > 0 {
      BinomialAbove(n - 1, r - 1);
      BinomialAbove(n - 1, r);
    }
  }

  lemma {:induction false} BinomialSumPascal(n: nat, m: nat)
    requires m >= 1
    ensures BinomialSum(n + 1, m) == BinomialSum(n, m) + BinomialSum(n, m - 1)
  {
    if m > 1 {
      BinomialSumPascal(n, m - 1);
    }
  }

  lemma {:induction false} BinomialSumAll(n: nat)
    ensures BinomialSum(n, n) == Pow2(n)
  {
    if n > 0 {
      BinomialSumAll(n - 1);
      BinomialSumPascal(n - 1, n);
      BinomialAbove(n - 1, n);
    }
  }

  lemma {:induction false} CombinationsUpToCount<T>(xs: seq<T>, m: nat)
    ensures |CombinationsUpTo(xs, m)| + 1 == BinomialSum(|xs|, m)
  {
    if m > 0 {
      CombinationsUpToCount(xs, m - 1);
      CombinationsCount(xs, m);
    }
  }

  /** `L` keywords expand to 2^L - 1 phrases. */
  lemma ExpandCount(keywords: seq<string>)
    ensures |Expand(keywords)| == Pow2(|keywords|) - 1
  {
    CombinationsUpToCount(keywords, |keywords|);
    BinomialSumAll(|keywords|);
  }

  lemma {:induction false} CombinationsUpToPrefix<T>(xs: seq<T>, m: nat)
    requires m >= 1
    ensures |CombinationsUpTo(xs, m)| >= |xs|
    ensures CombinationsUpTo(xs, m)[..|xs|] == Combinations(xs, 1)
  {
    CombinationsOfOne(xs);
    CombinationsCount(xs, 1);
    BinomialOne(|xs|);
    if m > 1 {
      CombinationsUpToPrefix(xs, m - 1);
      var prev := CombinationsUpTo(xs, m - 1);
      assert CombinationsUpTo(xs, m) == prev + Combinations(xs, m);
      assert (prev + Combinations(xs, m))[..|xs|] == prev[..|xs|];
    } else {
      assert CombinationsUpTo(xs, 1) == [] + Combinations(xs, 1);
    }
  }

  lemma {:induction false} BinomialOne(n: nat)
    ensures Binomial(n, 1) == n
  {
    if n > 0 {
      BinomialOne(n - 1);
    }
  }

  /** The first L phrases are the keywords themselves, in their order. */
  lemma ExpandStartsWithKeywords(keywords: seq<string>)
    ensures |Expand(keywords)| >= |keywords|
    ensures Expand(keywords)[..|keywords|] == keywords
  {
    if keywords != [] {
      CombinationsUpToPrefix(keywords, |keywords|);
      CombinationsOfOne(keywords);
      var all := CombinationsUpTo(keywords, |keywords|);
      forall i | 0 <= i < |keywords|
        ensures Expand(keywords)[i] == keywords[i]
      {
        assert all[i] == all[..|keywords|][i] == [keywords[i]];
      }
    }
  }

  /** Every phrase joins a non-empty subsequence of the keywords, at most
      all of them. */
  lemma ExpandPhrases(keywords: seq<string>)
    ensures var all := CombinationsUpTo(keywords, |keywords|);
      |Expand(keywords)| == |all| &&
      forall i :: 0 <= i < |all| ==>
        Expand(keywords)[i] == Join(all[i]) && 1 <= |all[i]| <= |keywords| && IsSubsequence(all[i], keywords)
  {
    CombinationsUpToShape(keywords, |keywords|);
  }

  /** The combinations up to size `m` have between 1 and `m` elements, each
      a subsequence of `xs`. */
  lemma {:induction false} CombinationsUpToShape<T>(xs: seq<T>, m: nat)
    ensures forall k :: 0 <= k < |CombinationsUpTo(xs, m)| ==>
      1 <= |CombinationsUpTo(xs, m)[k]| <= m && IsSubsequence(CombinationsUpTo(xs, m)[k], xs)
  {
    if m > 0 {
      CombinationsUpToShape(xs, m - 1);
      CombinationsAreSubsequences(xs, m);
      var a := CombinationsUpTo(xs, m - 1);
      var b := Combinations(xs, m);
      assert CombinationsUpTo(xs, m) == a + b;
      forall k | 0 <= k < |a + b|
        ensures 1 <= |(a + b)[k]| <= m && IsSubsequence((a + b)[k], xs)
      {
        if k < |a| {
          assert (a + b)[k] == a[k];
        } else {
          assert (a + b)[k] == b[k - |a|];
        }
      }
    }
  }

  /** The combinations come size by size, as `range(1, len + 1)` feeds
      them: along the list, sizes never decrease. */
  lemma {:induction false} CombinationsUpToSorted<T>(xs: seq<T>, m: nat)
    ensures forall i, j :: 0 <= i < j < |CombinationsUpTo(xs, m)| ==>
      |CombinationsUpTo(xs, m)[i]| <= |CombinationsUpTo(xs, m)[j]|
  {
    if m > 0 {
      CombinationsUpToSorted(xs, m - 1);
      CombinationsUpToShape(xs, m - 1);
      CombinationsAreSubsequences(xs, m);
      var a := CombinationsUpTo(xs, m - 1);
      var b := Combinations(xs, m);
      assert CombinationsUpTo(xs, m) == a + b;
      forall i, j | 0 <= i < j < |a + b|
        ensures |(a + b)[i]| <= |(a + b)[j]|
      {
        if j < |a| {
          assert (a + b)[i] == a[i] && (a + b)[j] == a[j];
        } else if i < |a| {
          assert (a + b)[i] == a[i] && (a + b)[j] == b[j - |a|];
        } else {
          assert (a + b)[i] == b[i - |a|] && (a + b)[j] == b[j - |a|];
        }
      }
    }
  }

  /** Every ordered selection of `xs` is one of its combinations of that
      size: `itertools.combinations` leaves none out. */
  lemma {:induction false} CombinationsComplete<T>(xs: seq<T>, c: seq<T>)
    requires IsSubsequence(c, xs)
    ensures c in Combinations(xs, |c|)
    decreases |xs|
  {
    if c != [] {
      SubsequenceUnfold(c, xs);
      var tail := Combinations(xs[1..], |c| - 1);
      var rest := Combinations(xs[1..], |c|);
      CombinationsUnfold(xs, |c|);
      if c[0] == xs[0] && IsSubsequence(c[1..], xs[1..]) {
        CombinationsComplete(xs[1..], c[1..]);
        ConsAllHas(xs[0], tail, c[1..]);
        assert [xs[0]] + c[1..] == c;
      } else {
        CombinationsComplete(xs[1..], c);
      }
    }
  }

  lemma SubsequenceUnfold<T>(c: seq<T>, xs: seq<T>)
    requires IsSubsequence(c, xs) && c != []
    ensures xs != [] && ((c[0] == xs[0] && IsSubsequence(c[1..], xs[1..])) || IsSubsequence(c, xs[1..]))
  {
  }

  lemma CombinationsUnfold<T>(xs: seq<T>, r: nat)
    requires xs != [] && r > 0
    ensures Combinations(xs, r) == ConsAll(xs[0], Combinations(xs[1..], r - 1)) + Combinations(xs[1..], r)
  {
  }

  lemma ConsAllHas<T>(x: T, cs: seq<seq<T>>, t: seq<T>)
    requires t in cs
    ensures [x] + t in ConsAll(x, cs)
  {
    var k :| 0 <= k < |cs| && cs[k] == t;
    assert ConsAll(x, cs)[k] == [x] + t;
  }

  /** An ordered selection is no longer than the sequence it is taken from. */
  lemma {:induction false} SubsequenceLength<T>(c: seq<T>, xs: seq<T>)
    requires IsSubsequence(c, xs)
    ensures |c| <= |xs|
    decreases |xs|
  {
    if c != [] {
      if c[0] == xs[0] && IsSubsequence(c[1..], xs[1..]) {
        SubsequenceLength(c[1..], xs[1..]);
      } else {
        SubsequenceLength(c, xs[1..]);
      }
    }
  }

  /** Every ordered selection of one to `m` items is among the combinations
      up to size `m`. */
  lemma CombinationsUpToComplete<T>(xs: seq<T>, m: nat, c: seq<T>)
    requires IsSubsequence(c, xs) && 1 <= |c| <= m
    ensures c in CombinationsUpTo(xs, m)
  {
    CombinationsComplete(xs, c);
    CombinationsUpToUnfold(xs, |c|);
    CombinationsUpToGrows(xs, |c|, m);
    PrefixHas(CombinationsUpTo(xs, |c|), CombinationsUpTo(xs, m), c);
  }

  lemma CombinationsUpToUnfold<T>(xs: seq<T>, m: nat)
    requires m >= 1
    ensures CombinationsUpTo(xs, m) == CombinationsUpTo(xs, m - 1) + Combinations(xs, m)
  {
  }

  /** Raising the largest size only appends combinations. */
  lemma {:induction false} CombinationsUpToGrows<T>(xs: seq<T>, r: nat, m: nat)
    requires r <= m
    ensures CombinationsUpTo(xs, r) <= CombinationsUpTo(xs, m)
    decreases m
  {
    if r < m {
      CombinationsUpToGrows(xs, r, m - 1);
      CombinationsUpToUnfold(xs, m);
    }
  }

  lemma PrefixHas<T>(a: seq<T>, b: seq<T>, x: T)
    requires a <= b && x in a
    ensures x in b
  {
    var i :| 0 <= i < |a| && a[i] == x;
    assert b[i] == x;
  }

  /** The converse of `ExpandPhrases`: every non-empty ordered selection of
      the keywords, space-joined, is one of the phrases. */
  lemma ExpandComplete(keywords: seq<string>, c: seq<string>)
    requires IsSubsequence(c, keywords) && c != []
    ensures Join(c) in Expand(keywords)
  {
    SubsequenceLength(c, keywords);
    CombinationsUpToComplete(keywords, |keywords|, c);
    var all := CombinationsUpTo(keywords, |keywords|);
    var k :| 0 <= k < |all| && all[k] == c;
    assert Expand(keywords)[k] == Join(c);
  }

  /** The combinations of two items, size by size. */
  lemma CombinationsOfTwo<T>(b: T, c: T)
    ensures Combinations([b, c], 1) == [[b], [c]]
    ensures Combinations([b, c], 2) == [[b, c]]
    ensures Combinations([b, c], 3) == []
  {
    var ys := [b, c];
    var zs := ys[1..];
    assert zs == [c] && zs[1..] == [];
    CombinationsOfOne(ys);
    CombinationsOfOne(zs);
    assert Combinations(zs, 2) == [];
    assert Combinations(zs, 3) == [];
    assert [b] + [c] == [b, c];
  }

  /** The combinations of three items, size by size. */
  lemma CombinationsOfThree<T>(a: T, b: T, c: T)
    ensures Combinations([a, b, c], 1) == [[a], [b], [c]]
    ensures Combinations([a, b, c], 2) == [[a, b], [a, c], [b, c]]
    ensures Combinations([a, b, c], 3) == [[a, b, c]]
  {
    PairsOfThree(a, b, c);
    TripleOfThree(a, b, c);
    var xs := [a, b, c];
    CombinationsOfOne(xs);
  }

  lemma PairsOfThree<T>(a: T, b: T, c: T)
    ensures Combinations([a, b, c], 2) == [[a, b], [a, c], [b, c]]
  {
    var xs := [a, b, c];
    assert xs[1..] == [b, c];
    CombinationsOfTwo(b, c);
    assert [a] + [b] == [a, b] && [a] + [c] == [a, c];
    assert Combinations(xs, 2) == ConsAll(a, [[b], [c]]) + [[b, c]];
  }

  lemma TripleOfThree<T>(a: T, b: T, c: T)
    ensures Combinations([a, b, c], 3) == [[a, b, c]]
  {
    var xs := [a, b, c];
    assert xs[1..] == [b, c];
    CombinationsOfTwo(b, c);
    assert [a] + [b, c] == [a, b, c];
    assert Combinations(xs, 3) == ConsAll(a, [[b, c]]) + [];
  }

  /** All combinations of three items, singles first, then pairs, then the
      triple. */
  lemma CombinationsUpToOfThree<T>(a: T, b: T, c: T)
    ensures CombinationsUpTo([a, b, c], 3) == [[a], [b], [c], [a, b], [a, c], [b, c], [a, b, c]]
  {
    var xs := [a, b, c];
    CombinationsOfThree(a, b, c);
    var c1, c2, c3 := Combinations(xs, 1), Combinations(xs, 2), Combinations(xs, 3);
    assert CombinationsUpTo(xs, 1) == [] + c1;
    assert CombinationsUpTo(xs, 2) == c1 + c2;
    assert CombinationsUpTo(xs, 3) == c1 + c2 + c3;
  }

  /** The unit test's case, for any three keywords: singles, then pairs, then
      the triple, each joined with spaces. */
  lemma ExpandOfThree(a: string, b: string, c: string)
    ensures Expand([a, b, c]) == [a, b, c, a + " " + b, a + " " + c, b + " " + c, a + " " + (b + " " + c)]
  {
    var all := CombinationsUpTo([a, b, c], 3);
    CombinationsUpToOfThree(a, b, c);
    JoinPair(a, b);
    JoinPair(a, c);
    JoinPair(b, c);
    JoinTriple(a, b, c);
    var e := Expand([a, b, c]);
    assert e[0] == Join([a]) && e[1] == Join([b]) && e[2] == Join([c]);
    assert e[3] == Join([a, b]) && e[4] == Join([a, c]) && e[5] == Join([b, c]) && e[6] == Join([a, b, c]);
  }

  lemma JoinPair(x: string, y: string)
    ensures Join([x, y]) == x + " " + y
  {
    assert [x, y][1..] == [y];
  }

  lemma JoinTriple(x: string, y: string, z: string)
    ensures Join([x, y, z]) == x + " " + (y + " " + z)
  {
    assert [x, y, z][1..] == [y, z];
    JoinPair(y, z);
  }

  lemma ExpandExample()
    ensures Expand(["a", "b", "c"]) == ["a", "b", "c", "a b", "a c", "b c", "a b c"]
  {
    ExpandOfThree("a", "b", "c");
    assert "a" + " " + "b" == "a b" && "a" + " " + "c" == "a c" && "b" + " " + "c" == "b c";
    assert "a" + " " + ("b" + " " + "c") == "a b c";
  }
}
