/** `ProductsMatch`: scoring a product record against keywords, and
    reordering a batch of records by their scores. */
module ProductsMatch {
  import opened Wrappers
  import opened Python
  import opened BasicUtils
  import opened Algorithms
  import opened Sorting

  /** A field value of a product record, after `str()` has been applied to
      every non-string value. */
  datatype FieldValue =
    | Scalar(text: string)
    | ListV(items: seq<string>)
    | DictV(entries: seq<(string, string)>)

  /** A product record: its fields in dictionary order. */
  datatype Record = Record(fields: seq<(string, FieldValue)>)

  /** `k_ + str(v_)` for every entry of a dictionary field. */
  function DictParts(entries: seq<(string, string)>): seq<string> {
    seq(|entries|, i requires 0 <= i < |entries| => entries[i].0 + entries[i].1)
  }

  /** The parts one field contributes: a list its elements, a dictionary
      key plus value per entry, anything else field name plus value. */
  function FieldParts(name: string, v: FieldValue): seq<string> {
    match v
    case ListV(items) => items
    case DictV(entries) => DictParts(entries)
    case Scalar(text) => [name + text]
  }

  /** The parts of the fields, in field order. */
  function FieldsParts(fields: seq<(string, FieldValue)>): seq<string> {
    if fields == [] then []
    else
      var last := fields[|fields| - 1];
      FieldsParts(fields[..|fields| - 1]) + FieldParts(last.0, last.1)
  }

  function Parts(r: Record): seq<string> {
    FieldsParts(r.fields)
  }

  /** A record's parts are its fields' parts, concatenated in field order. */
  lemma {:induction false} FieldsPartsAppend(a: seq<(string, FieldValue)>, b: seq<(string, FieldValue)>)
    ensures FieldsParts(a + b) == FieldsParts(a) + FieldsParts(b)
  {
    if b != [] {
      var last := b[|b| - 1];
      assert (a + b)[..|a + b| - 1] == a + b[..|b| - 1];
      FieldsPartsAppend(a, b[..|b| - 1]);
    } else {
      assert a + b == a;
    }
  }

  lemma FieldsPartsSingle(name: string, v: FieldValue)
    ensures FieldsParts([(name, v)]) == FieldParts(name, v)
  {
    assert [(name, v)][..0] == [];
  }

  /** Every keyword is non-empty, so `matching_ratio` can divide by it. */
  predicate NonEmptyKeywords(keywords: seq<string>) {
    forall j :: 0 <= j < |keywords| ==> |keywords[j]| > 0
  }

  /** `[clean_zero(i) for i in keywords]`. */
  function CleanAll(keywords: seq<string>): seq<string> {
    seq(|keywords|, i requires 0 <= i < |keywords| => CleanZero(keywords[i]))
  }

  /** Cleaning already cleaned keywords changes nothing: `sorter_pipe` cleans
      the phrases and `product_keywords` cleans them again. */
  lemma DoubleClean(keywords: seq<string>)
    ensures CleanAll(CleanAll(keywords)) == CleanAll(keywords)
  {
    forall i | 0 <= i < |keywords|
      ensures CleanZero(CleanZero(keywords[i])) == CleanZero(keywords[i])
    {
      CleanZeroIdempotent(keywords[i]);
    }
  }

  /** `part_keyword(clean_zero(part), keyword)`: the matching ratio of one
      keyword in one cleaned part. */
  function PartScore(part: string, keyword: string): (score: real)
    requires |keyword| > 0
    ensures 0.0 <= score <= 1.0
  {
    MatchingRatio(CleanZero(part), keyword)
  }

  /** The scores of one part, one per keyword. */
  function PartRow(part: string, keywords: seq<string>): seq<real>
    requires NonEmptyKeywords(keywords)
  {
    seq(|keywords|, j requires 0 <= j < |keywords| => PartScore(part, keywords[j]))
  }

  /** `part_keywords(part, keywords)`: cleans the part, then scores it
      against each keyword in turn; the first empty keyword makes
      `matching_ratio` divide by zero. */
  method PartKeywords(part: string, keywords: seq<string>) returns (res: Result<seq<real>, Exception>)
    ensures res.Failure? <==> !NonEmptyKeywords(keywords)
    ensures res.Failure? ==> res.error == ZeroDivisionError
    ensures res.Success? ==> |res.value| == |keywords| && forall j :: 0 <= j < |keywords| ==>
      res.value[j] == MatchingRatio(CleanZero(part), keywords[j]) && 0.0 <= res.value[j] <= 1.0
    ensures res.Success? ==> res.value == PartRow(part, keywords)
  {
    var cleaned := CleanZero(part);
    var scores := [];
    for j := 0 to |keywords|
      invariant |scores| == j
      invariant forall i :: 0 <= i < j ==> |keywords[i]| > 0
      invariant forall i :: 0 <= i < j ==>
        scores[i] == MatchingRatio(cleaned, keywords[i]) && 0.0 <= scores[i] <= 1.0
    {
      var score := MatchingRatioChecked(cleaned, keywords[j]);
      if score.Failure? {
        return Failure(score.error);
      }
      scores := scores + [score.value];
    }
    res := Success(scores);
  }

  /** The unit test's case: `"def"` occurs whole in `"abcdef"`, `"xyz"` shares
      no character with it. */
  lemma PartRowExample()
    ensures PartRow("abcdef", ["def", "xyz"]) == [1.0, 0.0]
  {
    PartRowOfTwo("abcdef", "def", "xyz");
    CleanZeroFixesClean("abcdef");
    MatchingRatioExample();
    NoMatchExample();
  }

  lemma NoMatchExample()
    ensures MatchingRatio("abcdef", "xyz") == 0.0
  {
    FindMatchingPartsNoneExample();
    MatchingRatioZero("abcdef", "xyz");
  }

  /** One row of scores per part. */
  function ScoreRows(parts: seq<string>, keywords: seq<string>): seq<seq<real>>
    requires NonEmptyKeywords(keywords)
  {
    seq(|parts|, i requires 0 <= i < |parts| => PartRow(parts[i], keywords))
  }

  lemma ScoreRowsSnoc(parts: seq<string>, part: string, keywords: seq<string>)
    requires NonEmptyKeywords(keywords)
    ensures ScoreRows(parts + [part], keywords) == ScoreRows(parts, keywords) + [PartRow(part, keywords)]
  {
  }

  /** `np.argmax`: the first position of the largest value. */
  function FirstArgMax(col: seq<real>): (m: nat)
    requires |col| > 0
    ensures m < |col|
    ensures forall i :: 0 <= i < |col| ==> col[i] <= col[m]
    ensures forall i :: 0 <= i < m ==> col[i] < col[m]
  {
    if |col| == 1 then 0
    else
      var m := FirstArgMax(col[..|col| - 1]);
      if col[|col| - 1] > col[m] then |col| - 1 else m
  }

  /** Column `j` of the score matrix: keyword `j`'s score in every part. */
  function Column(rows: seq<seq<real>>, j: nat): seq<real>
    requires forall i :: 0 <= i < |rows| ==> j < |rows[i]|
  {
    seq(|rows|, i requires 0 <= i < |rows| => rows[i][j])
  }

  /** The part `np.argmax` picks for keyword `j`. */
  function BestPart(parts: seq<string>, keywords: seq<string>, j: nat): (m: nat)
    requires |parts| > 0 && NonEmptyKeywords(keywords) && j < |keywords|
    ensures m < |parts|
  {
    FirstArgMax(Column(ScoreRows(parts, keywords), j))
  }

  /** The per-keyword result of `product_keywords`: for keyword `j`, the
      score in the part that `np.argmax` picks for column `j`. */
  function KeywordScores(parts: seq<string>, keywords: seq<string>): seq<real>
    requires |parts| > 0 && NonEmptyKeywords(keywords)
  {
    var rows := ScoreRows(parts, keywords);
    seq(|keywords|, j requires 0 <= j < |keywords| => rows[BestPart(parts, keywords, j)][j])
  }

  /** Each keyword's score is the best score it gets in any part: the part
      picked for it scores that much, no part scores more, and every part
      before the picked one scores less. */
  lemma KeywordScoresAreMax(parts: seq<string>, keywords: seq<string>)
    requires |parts| > 0 && NonEmptyKeywords(keywords)
    ensures |KeywordScores(parts, keywords)| == |keywords|
    ensures forall j :: 0 <= j < |keywords| ==>
      PartScore(parts[BestPart(parts, keywords, j)], keywords[j]) == KeywordScores(parts, keywords)[j]
    ensures forall j, i :: 0 <= j < |keywords| && 0 <= i < |parts| ==>
      PartScore(parts[i], keywords[j]) <= KeywordScores(parts, keywords)[j]
    ensures forall j, i :: 0 <= j < |keywords| && 0 <= i < BestPart(parts, keywords, j) ==>
      PartScore(parts[i], keywords[j]) < KeywordScores(parts, keywords)[j]
  {
    forall j | 0 <= j < |keywords|
      ensures PartScore(parts[BestPart(parts, keywords, j)], keywords[j]) == KeywordScores(parts, keywords)[j]
      ensures forall i :: 0 <= i < |parts| ==> PartScore(parts[i], keywords[j]) <= KeywordScores(parts, keywords)[j]
      ensures forall i :: 0 <= i < BestPart(parts, keywords, j) ==> PartScore(parts[i], keywords[j]) < KeywordScores(parts, keywords)[j]
    {
      KeywordScoreAt(parts, keywords, j);
    }
  }

  /** Keyword `j`'s score, read off column `j` at the picked part. */
  lemma KeywordScoreAt(parts: seq<string>, keywords: seq<string>, j: nat)
    requires |parts| > 0 && NonEmptyKeywords(keywords) && j < |keywords|
    ensures PartScore(parts[BestPart(parts, keywords, j)], keywords[j]) == KeywordScores(parts, keywords)[j]
    ensures forall i :: 0 <= i < |parts| ==> PartScore(parts[i], keywords[j]) <= KeywordScores(parts, keywords)[j]
    ensures forall i :: 0 <= i < BestPart(parts, keywords, j) ==> PartScore(parts[i], keywords[j]) < KeywordScores(parts, keywords)[j]
  {
    var rows := ScoreRows(parts, keywords);
    var col := Column(rows, j);
    assert forall i :: 0 <= i < |parts| ==> col[i] == PartScore(parts[i], keywords[j]);
  }

  /** Scores lie between 0 and 1. */
  lemma KeywordScoresBounded(parts: seq<string>, keywords: seq<string>)
    requires |parts| > 0 && NonEmptyKeywords(keywords)
    ensures forall j :: 0 <= j < |KeywordScores(parts, keywords)| ==>
      0.0 <= KeywordScores(parts, keywords)[j] <= 1.0
  {
    KeywordScoresAreMax(parts, keywords);
  }

  /** `np.argmax(rows, axis=0)` over rows of `width` scores: the first row
      holding each column's largest value; with no rows there is nothing to
      pick from and numpy raises `ValueError`. */
  function ArgMaxColumns(rows: seq<seq<real>>, width: nat): (r: Result<seq<nat>, Exception>)
    requires forall i :: 0 <= i < |rows| ==> |rows[i]| == width
    ensures r.Failure? <==> rows == []
    ensures r.Failure? ==> r.error == ValueError
    ensures r.Success? ==> |r.value| == width && forall j :: 0 <= j < width ==> r.value[j] < |rows|
    ensures r.Success? ==> forall j, i :: 0 <= j < width && 0 <= i < |rows| ==>
      rows[i][j] <= rows[r.value[j]][j]
    ensures r.Success? ==> forall j, i :: 0 <= j < width && 0 <= i < r.value[j] ==>
      rows[i][j] < rows[r.value[j]][j]
  {
    if rows == [] then Failure(ValueError)
    else
      var picks := seq(width, j requires 0 <= j < width => FirstArgMax(Column(rows, j)));
      assert forall j, i :: 0 <= j < width && 0 <= i < |rows| ==> Column(rows, j)[i] == rows[i][j];
      Success(picks)
  }

  /** `product_keywords(product, keywords)`: cleans the keywords, scores
      every part of the record, then keeps each keyword's best score. It
      raises what `ProductFailure` names: `ZeroDivisionError` from the first
      part's scoring when a cleaned keyword is empty, `ValueError` from
      `np.argmax` when the record has no part. */
  method ProductKeywords(product: Record, keywords: seq<string>) returns (res: Result<seq<real>, Exception>)
    ensures res.Failure? <==> ProductFailure(product, keywords).Some?
    ensures res.Failure? ==> ProductFailure(product, keywords) == Some(res.error)
    ensures res.Success? ==> Parts(product) != [] && NonEmptyKeywords(CleanAll(keywords))
    ensures res.Success? ==> res.value == KeywordScores(Parts(product), CleanAll(keywords))
  {
    var kws := CleanAll(keywords);
    var fields := product.fields;
    var rows: seq<seq<real>> := [];
    ghost var parts: seq<string> := [];
    for f := 0 to |fields|
      invariant parts == FieldsParts(fields[..f])
      invariant RowsOf(parts, kws, rows)
    {
      var (name, v) := fields[f];
      var r := ScoreField(name, v, kws, rows, parts);
      if r.Failure? {
        FieldHasParts(product, f);
        return Failure(r.error);
      }
      FieldsPartsSnoc(fields, f);
      parts := parts + FieldParts(name, v);
      rows := r.value;
    }
    assert fields[..|fields|] == fields;
    var idx := ArgMaxColumns(rows, |kws|);
    if idx.Failure? {
      return Failure(idx.error);
    }
    var scores := seq(|kws|, j requires 0 <= j < |kws| => rows[idx.value[j]][j]);
    assert forall j :: 0 <= j < |kws| ==> idx.value[j] == BestPart(parts, kws, j);
    res := Success(scores);
  }

  /** `rows` holds one score row per part, and is empty when there are no
      parts (the keywords may then be anything). */
  predicate RowsOf(parts: seq<string>, keywords: seq<string>, rows: seq<seq<real>>) {
    if parts == [] then rows == [] else NonEmptyKeywords(keywords) && rows == ScoreRows(parts, keywords)
  }

  /** One turn of `product_keywords`'s loop over the fields: scores each part
      of field `name, v` and appends its row. The first part scored against
      an empty keyword raises `ZeroDivisionError`. */
  method ScoreField(name: string, v: FieldValue, kws: seq<string>, rows: seq<seq<real>>, ghost parts: seq<string>)
    returns (res: Result<seq<seq<real>>, Exception>)
    requires RowsOf(parts, kws, rows)
    ensures res.Failure? <==> FieldParts(name, v) != [] && !NonEmptyKeywords(kws)
    ensures res.Failure? ==> res.error == ZeroDivisionError
    ensures res.Success? ==> RowsOf(parts + FieldParts(name, v), kws, res.value)
  {
    var out := rows;
    ghost var done := parts;
    match v {
      case ListV(items) =>
        for j := 0 to |items|
          invariant done == parts + items[..j]
          invariant RowsOf(done, kws, out)
        {
          var row := PartKeywords(items[j], kws);
          if row.Failure? {
            return Failure(row.error);
          }
          ScoreRowsSnoc(done, items[j], kws);
          SliceSnoc(items, j);
          done := done + [items[j]];
          out := out + [row.value];
        }
        assert items[..|items|] == items;
      case DictV(entries) =>
        for j := 0 to |entries|
          invariant done == parts + DictParts(entries[..j])
          invariant RowsOf(done, kws, out)
        {
          var part := entries[j].0 + entries[j].1;
          var row := PartKeywords(part, kws);
          if row.Failure? {
            return Failure(row.error);
          }
          ScoreRowsSnoc(done, part, kws);
          DictPartsSnoc(entries, j);
          done := done + [part];
          out := out + [row.value];
        }
        assert entries[..|entries|] == entries;
      case Scalar(text) =>
        var part := name + text;
        var row := PartKeywords(part, kws);
        if row.Failure? {
          return Failure(row.error);
        }
        ScoreRowsSnoc(done, part, kws);
        done := done + [part];
        out := out + [row.value];
    }
    res := Success(out);
  }

  /** The fields up to and including field `f` lead the record's parts, so a
      field with a part gives the record one. */
  lemma FieldHasParts(product: Record, f: nat)
    requires f < |product.fields| && FieldParts(product.fields[f].0, product.fields[f].1) != []
    ensures Parts(product) != []
  {
    var fields := product.fields;
    assert fields[..f + 1] + fields[f + 1..] == fields;
    FieldsPartsAppend(fields[..f + 1], fields[f + 1..]);
    FieldsPartsSnoc(fields, f);
  }

  lemma SliceSnoc<T>(xs: seq<T>, j: nat)
    requires j < |xs|
    ensures xs[..j + 1] == xs[..j] + [xs[j]]
  {
  }

  lemma DictPartsSnoc(entries: seq<(string, string)>, j: nat)
    requires j < |entries|
    ensures DictParts(entries[..j + 1]) == DictParts(entries[..j]) + [entries[j].0 + entries[j].1]
  {
  }

  lemma FieldsPartsSnoc(fields: seq<(string, FieldValue)>, f: nat)
    requires f < |fields|
    ensures FieldsParts(fields[..f + 1]) == FieldsParts(fields[..f]) + FieldParts(fields[f].0, fields[f].1)
  {
    assert fields[..f + 1][..f] == fields[..f];
  }

  /** The unit test's case: the single part `"key1value1"` contains both
      keywords whole. */
  lemma ProductKeywordsExample()
    ensures Parts(Record([("key1", Scalar("value1"))])) == ["key1value1"]
    ensures NonEmptyKeywords(CleanAll(["key", "value"]))
    ensures KeywordScores(["key1value1"], CleanAll(["key", "value"])) == [1.0, 1.0]
  {
    FieldsPartsSingle("key1", Scalar("value1"));
    assert "key1" + "value1" == "key1value1";
    ExampleKeywordsClean();
    KeywordScoresSinglePart("key1value1", ["key", "value"]);
    ExamplePartScores();
  }

  /** With a single part, each keyword's score is that part's score. */
  lemma KeywordScoresSinglePart(part: string, keywords: seq<string>)
    requires NonEmptyKeywords(keywords)
    ensures KeywordScores([part], keywords) == PartRow(part, keywords)
  {
    var rows := ScoreRows([part], keywords);
    forall j | 0 <= j < |keywords|
      ensures BestPart([part], keywords, j) == 0
    {
    }
  }

  lemma ExampleKeywordsClean()
    ensures CleanAll(["key", "value"]) == ["key", "value"]
  {
    CleanAllOfTwo("key", "value");
    CleanZeroFixesClean("key");
    CleanZeroFixesClean("value");
  }

  lemma CleanAllOfTwo(a: string, b: string)
    ensures CleanAll([a, b]) == [CleanZero(a), CleanZero(b)]
  {
  }

  lemma PartRowOfTwo(part: string, a: string, b: string)
    requires |a| > 0 && |b| > 0
    ensures PartRow(part, [a, b]) == [PartScore(part, a), PartScore(part, b)]
  {
  }

  lemma ExamplePartScores()
    ensures PartRow("key1value1", ["key", "value"]) == [1.0, 1.0]
  {
    PartRowOfTwo("key1value1", "key", "value");
    CleanPartExample();
    KeyOccursExample();
    ValueOccursExample();
  }

  lemma CleanPartExample()
    ensures CleanZero("key1value1") == "key1value1"
  {
    CleanZeroFixesClean("key1value1");
  }

  lemma KeyOccursExample()
    ensures MatchingRatio("key1value1", "key") == 1.0
  {
    assert OccursAt("key", "key1value1", 0);
    MatchingRatioOne("key1value1", "key");
  }

  lemma ValueOccursExample()
    ensures MatchingRatio("key1value1", "value") == 1.0
  {
    assert OccursAt("value", "key1value1", 4);
    MatchingRatioOne("key1value1", "value");
  }

  /** Python's `sum` of a list of scores. */
  function Sum(xs: seq<real>): real {
    if xs == [] then 0.0 else Sum(xs[..|xs| - 1]) + xs[|xs| - 1]
  }

  /** A sum of scores in [0, 1] lies between 0 and their number. */
  lemma {:induction false} SumBounds(xs: seq<real>)
    requires forall i :: 0 <= i < |xs| ==> 0.0 <= xs[i] <= 1.0
    ensures 0.0 <= Sum(xs) <= |xs| as real
  {
    if xs != [] {
      SumBounds(xs[..|xs| - 1]);
    }
  }

  /** The exception `product_keywords` ends with, if any: without parts the
      score list is empty and `np.argmax` rejects it; otherwise the first
      keyword that cleans to `""` makes `matching_ratio` divide by zero. */
  function ProductFailure(product: Record, keywords: seq<string>): (e: Option<Exception>)
    ensures e == None <==> Parts(product) != [] && NonEmptyKeywords(CleanAll(keywords))
  {
    if Parts(product) == [] then Some(ValueError)
    else if !NonEmptyKeywords(CleanAll(keywords)) then Some(ZeroDivisionError)
    else None
  }

  /** Every record of the batch can be scored. */
  predicate CanRank(products: seq<Record>, keywords: seq<string>) {
    forall i :: 0 <= i < |products| ==> ProductFailure(products[i], keywords) == None
  }

  /** The exception `sort_products` ends with: that of the first record that
      fails, records being scored in order. */
  function RankFailure(products: seq<Record>, keywords: seq<string>): Option<Exception> {
    if products == [] then None
    else
      var earlier := RankFailure(products[..|products| - 1], keywords);
      if earlier.Some? then earlier else ProductFailure(products[|products| - 1], keywords)
  }

  /** `sort_products` fails exactly when some record cannot be scored. */
  lemma {:induction false} RankFailureNone(products: seq<Record>, keywords: seq<string>)
    ensures RankFailure(products, keywords) == None <==> CanRank(products, keywords)
  {
    if products != [] {
      var init := products[..|products| - 1];
      RankFailureNone(init, keywords);
      assert forall i :: 0 <= i < |init| ==> init[i] == products[i];
    }
  }

  /** A failing batch fails with the exception of its first record that
      cannot be scored: `ValueError` or `ZeroDivisionError`. */
  lemma {:induction false} RankFailureFirst(products: seq<Record>, keywords: seq<string>)
    requires RankFailure(products, keywords).Some?
    ensures exists i :: 0 <= i < |products| && RankFailure(products, keywords) == ProductFailure(products[i], keywords) &&
                        CanRank(products[..i], keywords)
    ensures RankFailure(products, keywords).value in {ValueError, ZeroDivisionError}
  {
    var init := products[..|products| - 1];
    if RankFailure(init, keywords).Some? {
      RankFailureFirst(init, keywords);
      var i :| 0 <= i < |init| && RankFailure(init, keywords) == ProductFailure(init[i], keywords) &&
        CanRank(init[..i], keywords);
      assert products[..i] == init[..i];
    } else {
      RankFailureNone(init, keywords);
      assert products[..|products| - 1] == init;
    }
  }

  /** The first failure of a concatenation is the first failure of its
      first part, or else of its second. */
  lemma {:induction false} RankFailureAppend(a: seq<Record>, b: seq<Record>, keywords: seq<string>)
    ensures RankFailure(a + b, keywords) ==
      if RankFailure(a, keywords).Some? then RankFailure(a, keywords) else RankFailure(b, keywords)
  {
    if b == [] {
      assert a + b == a;
    } else {
      assert (a + b)[..|a + b| - 1] == a + b[..|b| - 1];
      RankFailureAppend(a, b[..|b| - 1], keywords);
    }
  }

  /** The sum of a record's per-keyword best scores. */
  function Total(product: Record, keywords: seq<string>): real
    requires ProductFailure(product, keywords) == None
  {
    Sum(KeywordScores(Parts(product), CleanAll(keywords)))
  }

  /** A record's total lies between 0 and the number of keywords. */
  lemma TotalBounds(product: Record, keywords: seq<string>)
    requires ProductFailure(product, keywords) == None
    ensures 0.0 <= Total(product, keywords) <= |keywords| as real
  {
    KeywordScoresBounded(Parts(product), CleanAll(keywords));
    SumBounds(KeywordScores(Parts(product), CleanAll(keywords)));
  }

  function Totals(products: seq<Record>, keywords: seq<string>): seq<real>
    requires CanRank(products, keywords)
  {
    seq(|products|, i requires 0 <= i < |products| => Total(products[i], keywords))
  }

  /** `np.argsort(scores)[::-1]`. */
  function RerankOrder(products: seq<Record>, keywords: seq<string>): (idx: seq<nat>)
    requires CanRank(products, keywords)
    ensures |idx| == |products| && InRange(idx, |products|)
  {
    var t := Totals(products, keywords);
    ReverseInRange(ArgSort(t), |t|);
    Reverse(ArgSort(t))
  }

  /** The reordered batch `sort_products` returns. */
  function RerankWindow(products: seq<Record>, keywords: seq<string>): seq<Record>
    requires CanRank(products, keywords)
  {
    Select(products, RerankOrder(products, keywords))
  }

  /** The reordered totals `sort_products` returns beside the batch. */
  function RerankScores(products: seq<Record>, keywords: seq<string>): seq<real>
    requires CanRank(products, keywords)
  {
    Select(Totals(products, keywords), RerankOrder(products, keywords))
  }

  /** The reordered batch holds exactly the records of the batch. */
  lemma RerankWindowPermutes(products: seq<Record>, keywords: seq<string>)
    requires CanRank(products, keywords)
    ensures |RerankWindow(products, keywords)| == |products|
    ensures multiset(RerankWindow(products, keywords)) == multiset(products)
  {
    var t := Totals(products, keywords);
    ArgSortPermutes(products, t);
    SelectReverse(products, ArgSort(t));
    ReversePermutes(Select(products, ArgSort(t)));
  }

  /** Along the reordered batch the totals never increase; equal totals come
      out in reverse batch order. Each returned score is its record's
      total. */
  lemma RerankWindowOrdered(products: seq<Record>, keywords: seq<string>)
    requires CanRank(products, keywords)
    ensures var out, scores, idx := RerankWindow(products, keywords), RerankScores(products, keywords), RerankOrder(products, keywords);
      |out| == |scores| == |products| &&
      (forall a :: 0 <= a < |out| ==> out[a] == products[idx[a]] && scores[a] == Total(products[idx[a]], keywords)) &&
      (forall a, b :: 0 <= a < b < |out| ==>
        scores[a] > scores[b] || (scores[a] == scores[b] && idx[a] > idx[b]))
  {
    var t := Totals(products, keywords);
    var idx := RerankOrder(products, keywords);
    ReverseArgSortDescending(t);
    SelectAt(products, idx);
    SelectAt(t, idx);
  }

  /** The reordered batch can itself be scored, record by record, with the
      scores `sort_products` returns. */
  lemma RerankScoresAreTotals(products: seq<Record>, keywords: seq<string>)
    requires CanRank(products, keywords)
    ensures CanRank(RerankWindow(products, keywords), keywords)
    ensures RerankScores(products, keywords) == Totals(RerankWindow(products, keywords), keywords)
  {
    RerankWindowOrdered(products, keywords);
  }

  /** `sort_products(products, keywords)`: scores every record, then orders
      the batch by descending total; fails as the first failing record
      does. */
  method SortProducts(products: seq<Record>, keywords: seq<string>)
    returns (res: Result<(seq<Record>, seq<real>), Exception>)
    ensures res.Failure? <==> !CanRank(products, keywords)
    ensures res.Failure? ==> Some(res.error) == RankFailure(products, keywords)
    ensures res.Success? ==>
      CanRank(products, keywords) &&
      res.value == (RerankWindow(products, keywords), RerankScores(products, keywords))
  {
    var scores: seq<real> := [];
    for i := 0 to |products|
      invariant CanRank(products[..i], keywords)
      invariant scores == Totals(products[..i], keywords)
    {
      var score := ProductKeywords(products[i], keywords);
      if score.Failure? {
        FailureAt(products, keywords, i);
        return Failure(score.error);
      }
      TotalsSnoc(products, keywords, i);
      scores := scores + [Sum(score.value)];
    }
    assert products[..|products|] == products;
    var idx := Reverse(ArgSort(scores));
    ReverseInRange(ArgSort(scores), |scores|);
    res := Success((Select(products, idx), Select(scores, idx)));
  }

  /** The first record that fails decides the batch's exception. */
  lemma FailureAt(products: seq<Record>, keywords: seq<string>, i: nat)
    requires i < |products| && CanRank(products[..i], keywords)
    requires ProductFailure(products[i], keywords).Some?
    ensures !CanRank(products, keywords)
    ensures RankFailure(products, keywords) == ProductFailure(products[i], keywords)
  {
    RankFailureNone(products[..i], keywords);
    assert products[..i + 1][..i] == products[..i];
    assert products[..i + 1][i] == products[i];
    RankFailurePrefix(products, keywords, i + 1);
  }

  /** Scoring one more record extends the totals by its total. */
  lemma TotalsSnoc(products: seq<Record>, keywords: seq<string>, i: nat)
    requires i < |products| && CanRank(products[..i], keywords)
    requires ProductFailure(products[i], keywords) == None
    ensures CanRank(products[..i + 1], keywords)
    ensures Totals(products[..i + 1], keywords) == Totals(products[..i], keywords) + [Total(products[i], keywords)]
  {
    assert products[..i + 1] == products[..i] + [products[i]];
  }

  /** A failure in a prefix is the failure of the whole batch. */
  lemma {:induction false} RankFailurePrefix(products: seq<Record>, keywords: seq<string>, n: nat)
    requires n <= |products| && RankFailure(products[..n], keywords).Some?
    ensures RankFailure(products, keywords) == RankFailure(products[..n], keywords)
  {
    if n < |products| {
      var init := products[..|products| - 1];
      assert init[..n] == products[..n];
      RankFailurePrefix(init, keywords, n);
    } else {
      assert products[..n] == products;
    }
  }
}
