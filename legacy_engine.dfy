/** The top-level `engine.py`: the same pipeline as the packaged engine,
    fronted by a `search` that checks nothing before clamping the cluster
    size and running the stages. */
module LegacyEngine {
  import opened Wrappers
  import opened Python
  import opened ProductsMatch
  import opened Engine

  /** What the unchecked `search` returns. */
  function SearchSpec(e: SearchEngine, keywords: seq<Object>, clusterSize: int, k: int): Result<seq<Record>, Exception> {
    Products(RunStages(e, Stages, Data(keywords, Clamp(clusterSize, k), k, None, None, None)))
  }

  /** `search(keywords, cluster_size, k)` of the top-level engine. */
  method Search(e: SearchEngine, keywords: seq<Object>, clusterSize: int, k: int)
    returns (res: Result<seq<Record>, Exception>)
    ensures res == SearchSpec(e, keywords, clusterSize, k)
  {
    var c := clusterSize;
    if c > k {
      c := k;
    }
    var results := Pipe(e, Data(keywords, c, k, None, None, None));
    res := Products(results);
  }

  /** Without the checks nothing raises `AssertionError`, and no stage misses
      a key; the returned exception is one a stage raised. */
  lemma LegacyNeverAsserts(e: SearchEngine, keywords: seq<Object>, clusterSize: int, k: int)
    ensures var r := SearchSpec(e, keywords, clusterSize, k);
      r.Failure? ==> r.error in {TypeError, ValueError, ZeroDivisionError}
  {
    var c := Clamp(clusterSize, k);
    var d0 := Data(keywords, c, k, None, None, None);
    PipeFindsItsKeys(e, keywords, c, k);
    PipeIsComposition(e, d0);
    var v := VectorizerPipe(d0);
    if v.Success? {
      var cl := ClusterPipe(e, v.value);
      if cl.Success? {
        var d := cl.value;
        if d.clusterSize > 0 {
          var ws := Windows(Fetch(e, d.ids.value), d.clusterSize);
          WindowsFailureIsFirstRecord(ws, CleanAll(d.queries.value));
        }
      }
    }
  }

  /** On input the packaged engine accepts, the two engines return the same
      thing. */
  lemma AgreesWithValidatedSearch(e: SearchEngine, keywords: seq<Object>, clusterSize: int, k: int)
    requires |keywords| > 0 && keywords[0].Str?
    ensures SearchSpec(e, keywords, clusterSize, k) == Engine.SearchSpec(e, List(keywords), Int(clusterSize), Int(k))
  {
    assert ValidSearchInput(List(keywords), Int(clusterSize), Int(k));
  }

  /** The packaged checks turn away an empty keyword list; the top-level
      engine runs the stages on it, with no phrase to rank by. */
  lemma EmptyKeywordsDiffer(e: SearchEngine, clusterSize: int, k: int)
    ensures Engine.SearchSpec(e, List([]), Int(clusterSize), Int(k)) == Failure(AssertionError)
    ensures SearchSpec(e, [], clusterSize, k) != Failure(AssertionError)
  {
    LegacyNeverAsserts(e, [], clusterSize, k);
  }
}
