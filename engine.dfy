/** The search pipeline of `pricegram_search/engine.py`: query expansion,
    top-k retrieval over given similarity scores, and the windowed rerank,
    run in order by `Pipeline.pipe` and fronted by `SearchEngine.search`. */
module Engine {
  import opened Wrappers
  import opened Python
  import opened BasicUtils
  import opened Sorting
  import opened ProductsMatch

  type Id = int

  /** The loaded engine. `ids[i]` is the product id of vector `i`;
      `similarity(queries, i)` is the mean cosine similarity of vector `i`
      to the encoded queries (the TF-IDF encoder and the vectors are not
      modelled); `fetch` is the data fetcher, one record per id. */
  datatype SearchEngine = SearchEngine(
    ids: seq<Id>,
    similarity: (seq<string>, nat) -> real,
    fetch: Id -> Record)

  /** The pipeline's keyword arguments. A key that no stage has added yet is
      `None`; `queries` stands for both `queries` and `encoded`, which the
      vectorizer adds together. */
  datatype Data = Data(
    keywords: seq<Object>,
    clusterSize: int,
    k: int,
    queries: Option<seq<string>>,
    ids: Option<seq<Id>>,
    products: Option<seq<Record>>)

  /** `{new_key: value, **data}`: a key already in `data` keeps its old
      value. */
  function Keep<T>(existing: Option<T>, value: T): (r: Option<T>)
    ensures r.Some? && (existing.Some? ==> r == existing)
  {
    if existing.Some? then existing else Some(value)
  }

  // ---------------------------------------------------------------------------
  // Vectorizer
  // ---------------------------------------------------------------------------

  predicate AllStr(keywords: seq<Object>) {
    forall i :: 0 <= i < |keywords| ==> keywords[i].Str?
  }

  function Strings(keywords: seq<Object>): seq<string>
    requires AllStr(keywords)
  {
    seq(|keywords|, i requires 0 <= i < |keywords| => keywords[i].s)
  }

  /** `vectorizer_pipe`: the phrases of `get_all_combinations`. Joining a
      combination that holds a non-string raises `TypeError`, and every
      keyword is a combination of its own. */
  function VectorizerPipe(data: Data): (r: Result<Data, Exception>)
    ensures r.Failure? <==> !AllStr(data.keywords)
    ensures r.Failure? ==> r.error == TypeError
    ensures r.Success? ==> r.value == data.(queries := r.value.queries)
    ensures r.Success? && data.queries.None? ==> r.value.queries == Some(Expand(Strings(data.keywords)))
    ensures r.Success? && data.queries.Some? ==> r.value.queries == data.queries
  {
    if !AllStr(data.keywords) then Failure(TypeError)
    else Success(data.(queries := Keep(data.queries, Expand(Strings(data.keywords)))))
  }

  // ---------------------------------------------------------------------------
  // Cluster
  // ---------------------------------------------------------------------------

  /** `similarity_scores.mean(axis=0)`: one mean score per vector. */
  function MeanScores(e: SearchEngine, queries: seq<string>): seq<real> {
    seq(|e.ids|, i requires 0 <= i < |e.ids| => e.similarity(queries, i))
  }

  /** The length of the Python slice `xs[:k]` of a list of length `n`: a
      negative `k` counts from the end. */
  function SliceLen(k: int, n: nat): (m: nat)
    ensures m <= n
    ensures 0 <= k ==> m == if k < n then k else n
    ensures k < 0 ==> m == if n + k > 0 then n + k else 0
  {
    if 0 <= k then (if k < n then k else n)
    else if n + k > 0 then n + k else 0
  }

  /** `np.argsort(-scores)[:k]`. */
  function TopIndices(scores: seq<real>, k: int): (idx: seq<nat>)
    ensures InRange(idx, |scores|)
  {
    var all := ArgSort(Negate(scores));
    all[..SliceLen(k, |scores|)]
  }

  /** The top-k indices: as many as the slice keeps, distinct, from the
      highest score down (equal scores by index), and no index left out
      scores higher than one kept, or as high with a smaller index. */
  lemma TopIndicesAreBest(scores: seq<real>, k: int)
    ensures var idx := TopIndices(scores, k);
      |idx| == SliceLen(k, |scores|) &&
      (forall a, b :: 0 <= a < b < |idx| ==>
        idx[a] != idx[b] &&
        (scores[idx[a]] > scores[idx[b]] || (scores[idx[a]] == scores[idx[b]] && idx[a] < idx[b]))) &&
      (forall i, a :: 0 <= i < |scores| && i !in idx && 0 <= a < |idx| ==>
        scores[i] < scores[idx[a]] || (scores[i] == scores[idx[a]] && idx[a] < i))
  {
    TopIndicesOrdered(scores, k);
    TopIndicesExcluded(scores, k);
  }

  lemma TopIndicesOrdered(scores: seq<real>, k: int)
    ensures var idx := TopIndices(scores, k);
      |idx| == SliceLen(k, |scores|) &&
      forall a, b :: 0 <= a < b < |idx| ==>
        scores[idx[a]] > scores[idx[b]] || (scores[idx[a]] == scores[idx[b]] && idx[a] < idx[b])
  {
    var all := ArgSort(Negate(scores));
    var idx := TopIndices(scores, k);
    NegatedArgSortDescending(scores);
    ArgSortIsPermutation(Negate(scores));
    assert |all| == |scores|;
    assert forall a :: 0 <= a < |idx| ==> idx[a] == all[a];
  }

  lemma TopIndicesExcluded(scores: seq<real>, k: int)
    ensures var idx := TopIndices(scores, k);
      forall i, a :: 0 <= i < |scores| && i !in idx && 0 <= a < |idx| ==>
        scores[i] < scores[idx[a]] || (scores[i] == scores[idx[a]] && idx[a] < i)
  {
    var all := ArgSort(Negate(scores));
    var m := SliceLen(k, |scores|);
    var idx := TopIndices(scores, k);
    NegatedArgSortDescending(scores);
    ArgSortIsPermutation(Negate(scores));
    assert |all| == |scores|;
    forall i, a | 0 <= i < |scores| && i !in idx && 0 <= a < |idx|
      ensures scores[i] < scores[idx[a]] || (scores[i] == scores[idx[a]] && idx[a] < i)
    {
      var b := IndexOf(all, Range(|scores|), i);
      PastPrefix(all, m, i, b);
      assert all[a] == idx[a];
    }
  }

  /** A position holding a value missing from the prefix lies past it. */
  lemma PastPrefix(all: seq<nat>, m: nat, i: nat, b: nat)
    requires m <= |all| && b < |all| && all[b] == i && i !in all[..m]
    ensures m <= b
  {
    assert forall j :: 0 <= j < m ==> all[..m][j] == all[j];
  }

  /** An element of a permutation of `range(n)` has a position in it. */
  lemma IndexOf(all: seq<nat>, r: seq<nat>, i: nat) returns (b: nat)
    requires r == Range(|r|) && i < |r| && multiset(all) == multiset(r)
    ensures b < |all| && all[b] == i
  {
    assert r[i] == i;
    assert i in multiset(all);
    b :| 0 <= b < |all| && all[b] == i;
  }

  /** `cluster_pipe`'s ids: `[vectors["ids"][i] for i in idx]`. */
  function ClusterIds(e: SearchEngine, queries: seq<string>, k: int): seq<Id> {
    var idx := TopIndices(MeanScores(e, queries), k);
    Select(e.ids, idx)
  }

  /** The ids `cluster_pipe` keeps are those of the top-k indices, in
      order. */
  lemma ClusterIdsAreTop(e: SearchEngine, queries: seq<string>, k: int)
    ensures var idx := TopIndices(MeanScores(e, queries), k);
      |ClusterIds(e, queries, k)| == SliceLen(k, |e.ids|) &&
      forall j :: 0 <= j < |idx| ==> ClusterIds(e, queries, k)[j] == e.ids[idx[j]]
  {
    var idx := TopIndices(MeanScores(e, queries), k);
    TopIndicesAreBest(MeanScores(e, queries), k);
    SelectAt(e.ids, idx);
  }

  /** `cluster_pipe`: reads the encoded queries and `k`, adds `ids`. */
  function ClusterPipe(e: SearchEngine, data: Data): (r: Result<Data, Exception>)
    ensures r.Failure? <==> data.queries.None?
    ensures r.Failure? ==> r.error == KeyError
    ensures r.Success? ==> r.value == data.(ids := r.value.ids)
    ensures r.Success? && data.ids.None? ==> r.value.ids == Some(ClusterIds(e, data.queries.value, data.k))
    ensures r.Success? && data.ids.Some? ==> r.value.ids == data.ids
  {
    if data.queries.None? then Failure(KeyError)
    else Success(data.(ids := Keep(data.ids, ClusterIds(e, data.queries.value, data.k))))
  }

  // ---------------------------------------------------------------------------
  // Sorter
  // ---------------------------------------------------------------------------

  /** `data_fetcher(ids)`. */
  function Fetch(e: SearchEngine, ids: seq<Id>): seq<Record> {
    seq(|ids|, i requires 0 <= i < |ids| => e.fetch(ids[i]))
  }

  function Min(a: int, b: int): int {
    if a < b then a else b
  }

  /** `len(range(0, n, c))` for `c >= 1`: the number of windows. */
  function WindowCount(n: nat, c: nat): nat
    requires c >= 1
  {
    (n + c - 1) / c
  }

  lemma MulMono(a: nat, b: nat, c: nat)
    requires a <= b
    ensures a * c <= b * c
  {
  }

  /** `ceil(n / c)` windows: the last start lies inside the list and one
      more window would start past its end. */
  lemma WindowCountSpec(n: nat, c: nat)
    requires c >= 1
    ensures WindowCount(n, c) * c >= n
    ensures WindowCount(n, c) > 0 ==> (WindowCount(n, c) - 1) * c < n
  {
    var q, r := (n + c - 1) / c, (n + c - 1) % c;
    assert q * c + r == n + c - 1;
    if q > 0 {
      assert (q - 1) * c == q * c - c;
    }
  }

  /** A start below `n` is the start of an existing window. */
  lemma WindowStartBelow(n: nat, c: nat, w: nat)
    requires c >= 1
    ensures w * c < n <==> w < WindowCount(n, c)
  {
    WindowCountSpec(n, c);
    var m := WindowCount(n, c);
    if w < m {
      MulMono(w, m - 1, c);
    } else {
      MulMono(m, w, c);
    }
  }

  /** `products[i:i + c]` for `i = w * c`. */
  function WindowAt<T>(xs: seq<T>, c: nat, w: nat): seq<T>
    requires c >= 1 && w < WindowCount(|xs|, c)
  {
    WindowStartBelow(|xs|, c, w);
    xs[w * c .. Min(w * c + c, |xs|)]
  }

  /** The windows `sorter_pipe` cuts the fetched records into. */
  function Windows<T>(xs: seq<T>, c: nat): seq<seq<T>>
    requires c >= 1
  {
    seq(WindowCount(|xs|, c), w requires 0 <= w < WindowCount(|xs|, c) => WindowAt(xs, c, w))
  }

  /** Concatenation of a list of lists (`extend` in turn). */
  function Flatten<T>(ws: seq<seq<T>>): seq<T> {
    if ws == [] then [] else Flatten(ws[..|ws| - 1]) + ws[|ws| - 1]
  }

  lemma {:induction false} FlattenAppend<T>(a: seq<seq<T>>, b: seq<seq<T>>)
    ensures Flatten(a + b) == Flatten(a) + Flatten(b)
  {
    if b == [] {
      assert a + b == a;
    } else {
      assert (a + b)[..|a + b| - 1] == a + b[..|b| - 1];
      FlattenAppend(a, b[..|b| - 1]);
    }
  }

  lemma FlattenSnoc<T>(ws: seq<seq<T>>, w: nat)
    requires w < |ws|
    ensures Flatten(ws[..w + 1]) == Flatten(ws[..w]) + ws[w]
  {
    assert ws[..w + 1][..w] == ws[..w];
  }

  /** The windows of the first `w` starts cover the first `w * c` records. */
  lemma {:induction false} WindowsPrefix<T>(xs: seq<T>, c: nat, w: nat)
    requires c >= 1 && w <= WindowCount(|xs|, c)
    ensures Flatten(Windows(xs, c)[..w]) == xs[..Min(w * c, |xs|)]
  {
    if w > 0 {
      WindowsPrefix(xs, c, w - 1);
      WindowStartBelow(|xs|, c, w - 1);
      var lo := (w - 1) * c;
      assert lo + c == w * c;
      WindowsPrefixStep(xs, c, w - 1, lo);
    }
  }

  lemma WindowsPrefixStep<T>(xs: seq<T>, c: nat, w: nat, lo: nat)
    requires c >= 1 && w < WindowCount(|xs|, c) && lo == w * c && lo < |xs|
    requires Flatten(Windows(xs, c)[..w]) == xs[..lo]
    ensures Flatten(Windows(xs, c)[..w + 1]) == xs[..Min(lo + c, |xs|)]
  {
    var ws := Windows(xs, c);
    var hi := Min(lo + c, |xs|);
    FlattenSnoc(ws, w);
    assert ws[w] == xs[lo..hi];
    assert xs[..lo] + xs[lo..hi] == xs[..hi];
  }

  /** Windows are the records cut in order: together they are the whole
      list, there are `ceil(n / c)` of them, each holds `c` records except
      possibly the last, which holds at least one. */
  lemma WindowsPartition<T>(xs: seq<T>, c: nat)
    requires c >= 1
    ensures Flatten(Windows(xs, c)) == xs
    ensures |Windows(xs, c)| == (|xs| + c - 1) / c
    ensures forall w :: 0 <= w < |Windows(xs, c)| ==>
      1 <= |Windows(xs, c)[w]| <= c && (w + 1 < |Windows(xs, c)| ==> |Windows(xs, c)[w]| == c)
  {
    var ws := Windows(xs, c);
    var m := WindowCount(|xs|, c);
    WindowsPrefix(xs, c, m);
    WindowCountSpec(|xs|, c);
    assert ws[..m] == ws;
    forall w | 0 <= w < m
      ensures 1 <= |ws[w]| <= c && (w + 1 < m ==> |ws[w]| == c)
    {
      WindowStartBelow(|xs|, c, w);
      WindowStartBelow(|xs|, c, w + 1);
      assert (w + 1) * c == w * c + c;
    }
  }

  /** The exception of the first window that cannot be ranked, windows
      being ranked in order. */
  function WindowsFailure(ws: seq<seq<Record>>, queries: seq<string>): Option<Exception> {
    if ws == [] then None
    else
      var earlier := WindowsFailure(ws[..|ws| - 1], queries);
      if earlier.Some? then earlier else RankFailure(ws[|ws| - 1], queries)
  }

  /** No window fails exactly when every window can be ranked. */
  lemma {:induction false} WindowsFailureNone(ws: seq<seq<Record>>, queries: seq<string>)
    ensures WindowsFailure(ws, queries) == None <==> forall w :: 0 <= w < |ws| ==> CanRank(ws[w], queries)
  {
    if ws != [] {
      var init, last := ws[..|ws| - 1], ws[|ws| - 1];
      WindowsFailureNone(init, queries);
      RankFailureNone(last, queries);
      assert forall w :: 0 <= w < |init| ==> init[w] == ws[w];
    }
  }

  /** Every window reranked. */
  function Reranked(ws: seq<seq<Record>>, queries: seq<string>): seq<seq<Record>>
    requires forall w :: 0 <= w < |ws| ==> CanRank(ws[w], queries)
  {
    seq(|ws|, w requires 0 <= w < |ws| => RerankWindow(ws[w], queries))
  }

  /** `sort_products` on each window in turn, concatenated in window order;
      the first window that cannot be ranked ends the loop with its
      exception. */
  function RerankAll(ws: seq<seq<Record>>, queries: seq<string>): Result<seq<Record>, Exception> {
    var failure := WindowsFailure(ws, queries);
    if failure.Some? then Failure(failure.value)
    else
      WindowsFailureNone(ws, queries);
      Success(Flatten(Reranked(ws, queries)))
  }

  /** The windowed rerank fails with the exception of the first record, over
      all windows, that cannot be scored: the same one ranking the whole list
      at once would raise, a `ValueError` or a `ZeroDivisionError`. */
  lemma {:induction false} WindowsFailureIsFirstRecord(ws: seq<seq<Record>>, queries: seq<string>)
    ensures WindowsFailure(ws, queries) == RankFailure(Flatten(ws), queries)
    ensures WindowsFailure(ws, queries).Some? ==> WindowsFailure(ws, queries).value in {ValueError, ZeroDivisionError}
  {
    if ws != [] {
      var init, last := ws[..|ws| - 1], ws[|ws| - 1];
      WindowsFailureIsFirstRecord(init, queries);
      RankFailureAppend(Flatten(init), last, queries);
    }
    if RankFailure(Flatten(ws), queries).Some? {
      RankFailureFirst(Flatten(ws), queries);
    }
  }

  /** Once a prefix of the windows fails, the whole list fails alike. */
  lemma {:induction false} WindowsFailurePrefix(ws: seq<seq<Record>>, queries: seq<string>, n: nat)
    requires n <= |ws| && WindowsFailure(ws[..n], queries).Some?
    ensures WindowsFailure(ws, queries) == WindowsFailure(ws[..n], queries)
  {
    if n < |ws| {
      var init := ws[..|ws| - 1];
      assert init[..n] == ws[..n];
      WindowsFailurePrefix(init, queries, n);
    } else {
      assert ws[..n] == ws;
    }
  }

  /** The reranked prefix grows by the next window's rerank. */
  lemma RerankedSnoc(ws: seq<seq<Record>>, queries: seq<string>, w: nat)
    requires w < |ws| && forall u :: 0 <= u <= w ==> CanRank(ws[u], queries)
    ensures Flatten(Reranked(ws[..w + 1], queries)) == Flatten(Reranked(ws[..w], queries)) + RerankWindow(ws[w], queries)
  {
    var next := Reranked(ws[..w + 1], queries);
    var prev := Reranked(ws[..w], queries);
    assert |next[..w]| == |prev|;
    forall u | 0 <= u < w
      ensures next[..w][u] == prev[u]
    {
      assert ws[..w + 1][u] == ws[..w][u];
    }
    assert next[..w] == prev;
    assert next[w] == RerankWindow(ws[w], queries);
    FlattenSnoc(next, w);
    assert next[..w + 1] == next;
  }

  /** Lists of the same sizes flatten to the same length. */
  lemma {:induction false} FlattenSameSizes<T, U>(vs: seq<seq<T>>, ws: seq<seq<U>>)
    requires |vs| == |ws| && forall w :: 0 <= w < |ws| ==> |vs[w]| == |ws[w]|
    ensures |Flatten(vs)| == |Flatten(ws)|
  {
    if vs != [] {
      FlattenSameSizes(vs[..|vs| - 1], ws[..|ws| - 1]);
    }
  }

  /** Lists that hold the same elements position by position flatten to
      lists with the same elements. */
  lemma {:induction false} FlattenPermutes<T>(vs: seq<seq<T>>, ws: seq<seq<T>>)
    requires |vs| == |ws| && forall w :: 0 <= w < |ws| ==> multiset(vs[w]) == multiset(ws[w])
    ensures multiset(Flatten(vs)) == multiset(Flatten(ws))
  {
    if vs != [] {
      FlattenPermutes(vs[..|vs| - 1], ws[..|ws| - 1]);
    }
  }

  /** `c` lists of `c` elements each flatten to `w * c` elements. */
  lemma {:induction false} FlattenFull<T>(vs: seq<seq<T>>, c: nat, w: nat)
    requires w <= |vs| && forall u :: 0 <= u < w ==> |vs[u]| == c
    ensures |Flatten(vs[..w])| == w * c
  {
    if w > 0 {
      FlattenFull(vs, c, w - 1);
      FlattenSnoc(vs, w - 1);
      assert (w - 1) * c + c == w * c;
    }
  }

  /** Lists shaped like the windows of `xs` are the windows of their own
      concatenation. */
  predicate ShapedLike<T, U>(vs: seq<seq<T>>, xs: seq<U>, c: nat)
    requires c >= 1
  {
    |vs| == WindowCount(|xs|, c) && forall w :: 0 <= w < |vs| ==> |vs[w]| == |Windows(xs, c)[w]|
  }

  lemma WindowsOfFlatten<T, U>(vs: seq<seq<T>>, xs: seq<U>, c: nat)
    requires c >= 1 && ShapedLike(vs, xs, c)
    ensures Windows(Flatten(vs), c) == vs
  {
    var out := Flatten(vs);
    WindowsPartition(xs, c);
    FlattenSameSizes(vs, Windows(xs, c));
    forall w | 0 <= w < |vs|
      ensures Windows(out, c)[w] == vs[w]
    {
      WindowOfFlatten(vs, xs, c, w);
    }
  }

  lemma WindowOfFlatten<T, U>(vs: seq<seq<T>>, xs: seq<U>, c: nat, w: nat)
    requires c >= 1 && ShapedLike(vs, xs, c) && w < |vs| && |Flatten(vs)| == |xs|
    ensures w < WindowCount(|Flatten(vs)|, c) && WindowAt(Flatten(vs), c, w) == vs[w]
  {
    var out := Flatten(vs);
    WindowsPartition(xs, c);
    assert forall u :: 0 <= u < w ==> |vs[u]| == c;
    FlattenFull(vs, c, w);
    FlattenMiddle(vs, w);
    WindowStartBelow(|xs|, c, w);
    assert out[w * c .. w * c + |vs[w]|] == vs[w];
  }

  /** `Flatten(vs)` is the part before `vs[w]`, then `vs[w]`, then the rest. */
  lemma FlattenMiddle<T>(vs: seq<seq<T>>, w: nat)
    requires w < |vs|
    ensures Flatten(vs) == Flatten(vs[..w]) + vs[w] + Flatten(vs[w + 1..])
  {
    FlattenSplit(vs, w);
    FlattenCons(vs[w..]);
    assert vs[w..][1..] == vs[w + 1..];
  }

  lemma FlattenSplit<T>(vs: seq<seq<T>>, w: nat)
    requires w <= |vs|
    ensures Flatten(vs) == Flatten(vs[..w]) + Flatten(vs[w..])
  {
    FlattenAppend(vs[..w], vs[w..]);
    assert vs[..w] + vs[w..] == vs;
  }

  lemma FlattenCons<T>(vs: seq<seq<T>>)
    requires vs != []
    ensures Flatten(vs) == vs[0] + Flatten(vs[1..])
  {
    FlattenAppend([vs[0]], vs[1..]);
    assert [vs[0]] + vs[1..] == vs;
    assert [vs[0]][..0] == [];
  }

  /** Reranking window by window keeps every record in its window: the
      output has the same windows, each a reordering of the input window
      with its totals non-increasing, and the output as a whole is a
      reordering of the input. */
  lemma RerankStaysInWindows(products: seq<Record>, queries: seq<string>, c: nat)
    requires c >= 1 && RerankAll(Windows(products, c), queries).Success?
    ensures var out, ws := RerankAll(Windows(products, c), queries).value, Windows(products, c);
      |out| == |products| && multiset(out) == multiset(products) &&
      (forall w :: 0 <= w < |ws| ==> CanRank(ws[w], queries)) &&
      Windows(out, c) == Reranked(ws, queries) &&
      forall w :: 0 <= w < |ws| ==> multiset(Windows(out, c)[w]) == multiset(ws[w])
  {
    var ws := Windows(products, c);
    WindowsFailureNone(ws, queries);
    var vs := Reranked(ws, queries);
    forall w | 0 <= w < |ws|
      ensures |vs[w]| == |ws[w]| && multiset(vs[w]) == multiset(ws[w])
    {
      RerankWindowPermutes(ws[w], queries);
    }
    assert ShapedLike(vs, products, c);
    WindowsOfFlatten(vs, products, c);
    WindowsPartition(products, c);
    FlattenPermutes(vs, ws);
    FlattenSameSizes(vs, ws);
  }

  /** The first window that cannot be ranked decides the exception. */
  lemma SorterFailsAt(ws: seq<seq<Record>>, queries: seq<string>, w: nat)
    requires w < |ws| && (forall u :: 0 <= u < w ==> CanRank(ws[u], queries)) && !CanRank(ws[w], queries)
    ensures RankFailure(ws[w], queries).Some?
    ensures RerankAll(ws, queries) == Failure(RankFailure(ws[w], queries).value)
  {
    RankFailureNone(ws[w], queries);
    WindowsFailureNone(ws[..w], queries);
    assert ws[..w + 1][..w] == ws[..w];
    WindowsFailurePrefix(ws, queries, w + 1);
  }

  /** What `sorter_pipe` returns. */
  function SorterSpec(e: SearchEngine, data: Data): Result<Data, Exception> {
    if data.ids.None? || data.queries.None? then Failure(KeyError)
    else
      var products := Fetch(e, data.ids.value);
      var queries := CleanAll(data.queries.value);
      var c := data.clusterSize;
      if c == 0 then Failure(ValueError)
      else if c < 0 then Success(data.(products := Keep(data.products, [])))
      else
        match RerankAll(Windows(products, c), queries)
        case Failure(err) => Failure(err)
        case Success(out) => Success(data.(products := Keep(data.products, out)))
  }

  /** The window starting at `i = w * c` is window `w`, and the next one
      starts at `(w + 1) * c`. */
  lemma WindowStep<T>(xs: seq<T>, c: nat, w: nat, i: nat)
    requires c >= 1 && i == w * c && i < |xs|
    ensures w < |Windows(xs, c)| && i + c == (w + 1) * c
    ensures Windows(xs, c)[w] == xs[i .. Min(i + c, |xs|)]
  {
    WindowStartBelow(|xs|, c, w);
  }

  /** Once the start passes the end, every window has been seen. */
  lemma WindowsDone<T>(xs: seq<T>, c: nat, w: nat, i: nat)
    requires c >= 1 && i == w * c && i >= |xs| && w <= |Windows(xs, c)|
    ensures Windows(xs, c)[..w] == Windows(xs, c)
  {
    WindowStartBelow(|xs|, c, w);
  }

  /** The first `w` windows can be ranked and `sorted` is their reranks
      concatenated: the state of the `sorter_pipe` loop after `w` windows. */
  ghost predicate RerankedUpTo(ws: seq<seq<Record>>, queries: seq<string>, w: nat, sorted: seq<Record>) {
    w <= |ws| && (forall u :: 0 <= u < w ==> CanRank(ws[u], queries)) &&
    sorted == Flatten(Reranked(ws[..w], queries))
  }

  /** One more window reranked: the loop state advances by its rerank. */
  lemma RerankAdvance(ws: seq<seq<Record>>, queries: seq<string>, w: nat, sorted: seq<Record>, out: seq<Record>)
    requires RerankedUpTo(ws, queries, w, sorted) && w < |ws| && CanRank(ws[w], queries)
    requires out == RerankWindow(ws[w], queries)
    ensures RerankedUpTo(ws, queries, w + 1, sorted + out)
  {
    RerankedSnoc(ws, queries, w);
  }

  /** After every window, the rerank succeeds with the loop's result. */
  lemma RerankAllSucceeds(ws: seq<seq<Record>>, queries: seq<string>, sorted: seq<Record>)
    requires RerankedUpTo(ws, queries, |ws|, sorted)
    ensures RerankAll(ws, queries) == Success(sorted)
  {
    WindowsFailureNone(ws, queries);
    assert ws[..|ws|] == ws;
  }

  /** The window at which the loop stops decides the exception. */
  lemma RerankStops(ws: seq<seq<Record>>, queries: seq<string>, w: nat, sorted: seq<Record>)
    requires RerankedUpTo(ws, queries, w, sorted) && w < |ws| && !CanRank(ws[w], queries)
    ensures RankFailure(ws[w], queries).Some?
    ensures RerankAll(ws, queries) == Failure(RankFailure(ws[w], queries).value)
  {
    SorterFailsAt(ws, queries, w);
  }

  /** The loop of `sorter_pipe`: `sort_products` on `products[i:i + c]` for
      each `i` in `range(0, len(products), c)`, results concatenated, the
      first failing window ending the loop. */
  method RerankWindows(products: seq<Record>, queries: seq<string>, c: int) returns (res: Result<seq<Record>, Exception>)
    requires c > 0
    ensures res == RerankAll(Windows(products, c), queries)
  {
    ghost var ws := Windows(products, c);
    var sorted: seq<Record> := [];
    var i := 0;
    ghost var w := 0;
    while i < |products|
      invariant i == w * c && RerankedUpTo(ws, queries, w, sorted)
      decreases |products| - i
    {
      var batch := products[i .. Min(i + c, |products|)];
      WindowStep(products, c, w, i);
      var r := SortProducts(batch, queries);
      if r.Failure? {
        RerankStops(ws, queries, w, sorted);
        return Failure(r.error);
      }
      RerankAdvance(ws, queries, w, sorted, r.value.0);
      sorted := sorted + r.value.0;
      i := i + c;
      w := w + 1;
    }
    WindowsDone(products, c, w, i);
    RerankAllSucceeds(ws, queries, sorted);
    res := Success(sorted);
  }

  /** `sorter_pipe`: fetches the records, cleans the phrases, and reranks
      the windows `products[i:i + c]` for `i` in `range(0, len(products), c)`
      one after the other. A step of 0 makes `range` raise; a negative step
      gives no window at all. */
  method SorterPipe(e: SearchEngine, data: Data) returns (res: Result<Data, Exception>)
    ensures res == SorterSpec(e, data)
  {
    var c := data.clusterSize;
    if data.ids.None? {
      return Failure(KeyError);
    }
    var products := Fetch(e, data.ids.value);
    if data.queries.None? {
      return Failure(KeyError);
    }
    var queries := CleanAll(data.queries.value);
    if c == 0 {
      return Failure(ValueError);
    }
    var sorted: seq<Record> := [];
    if c > 0 {
      var r := RerankWindows(products, queries, c);
      if r.Failure? {
        return Failure(r.error);
      }
      sorted := r.value;
    }
    res := Success(data.(products := Keep(data.products, sorted)));
  }

  // ---------------------------------------------------------------------------
  // Pipeline.pipe
  // ---------------------------------------------------------------------------

  datatype Stage = Vectorizer | Cluster | Sorter

  /** The stages of `pipe`, in dictionary order. */
  const Stages: seq<Stage> := [Vectorizer, Cluster, Sorter]

  function StageSpec(e: SearchEngine, s: Stage, data: Data): Result<Data, Exception> {
    match s
    case Vectorizer => VectorizerPipe(data)
    case Cluster => ClusterPipe(e, data)
    case Sorter => SorterSpec(e, data)
  }

  method RunStage(e: SearchEngine, s: Stage, data: Data) returns (res: Result<Data, Exception>)
    ensures res == StageSpec(e, s, data)
  {
    match s {
      case Vectorizer => res := VectorizerPipe(data);
      case Cluster => res := ClusterPipe(e, data);
      case Sorter => res := SorterPipe(e, data);
    }
  }

  /** The stages run in turn, each on the previous one's output; the first
      exception ends the run. */
  function RunStages(e: SearchEngine, stages: seq<Stage>, data: Data): Result<Data, Exception> {
    if stages == [] then Success(data)
    else
      match RunStages(e, stages[..|stages| - 1], data)
      case Failure(err) => Failure(err)
      case Success(d) => StageSpec(e, stages[|stages| - 1], d)
  }

  /** `pipe(**data)`. */
  method Pipe(e: SearchEngine, data: Data) returns (res: Result<Data, Exception>)
    ensures res == RunStages(e, Stages, data)
  {
    var current := data;
    for i := 0 to |Stages|
      invariant RunStages(e, Stages[..i], data) == Success(current)
    {
      assert Stages[..i + 1][..i] == Stages[..i];
      var r := RunStage(e, Stages[i], current);
      if r.Failure? {
        StagesFailurePrefix(e, Stages, data, i + 1);
        return r;
      }
      current := r.value;
    }
    assert Stages[..|Stages|] == Stages;
    res := Success(current);
  }

  lemma {:induction false} StagesFailurePrefix(e: SearchEngine, stages: seq<Stage>, data: Data, n: nat)
    requires n <= |stages| && RunStages(e, stages[..n], data).Failure?
    ensures RunStages(e, stages, data) == RunStages(e, stages[..n], data)
  {
    if n < |stages| {
      var init := stages[..|stages| - 1];
      assert init[..n] == stages[..n];
      StagesFailurePrefix(e, init, data, n);
    } else {
      assert stages[..n] == stages;
    }
  }

  /** `pipe` is the vectorizer, then the cluster stage on its output, then
      the sorter on that. */
  lemma PipeIsComposition(e: SearchEngine, data: Data)
    ensures var v := VectorizerPipe(data);
      RunStages(e, Stages, data) ==
        if v.Failure? then Failure(v.error)
        else
          var cl := ClusterPipe(e, v.value);
          if cl.Failure? then Failure(cl.error) else SorterSpec(e, cl.value)
  {
    var one, two := [Vectorizer], [Vectorizer, Cluster];
    assert one[..0] == [];
    assert two[..1] == one;
    assert Stages[..2] == two;
    assert RunStages(e, one, data) == VectorizerPipe(data);
  }

  /** Started from the three arguments of `search`, every stage finds the
      keys it reads: `pipe` never raises `KeyError`, and on success the
      records are there. Each stage's own key is the value it computed. */
  lemma PipeFindsItsKeys(e: SearchEngine, keywords: seq<Object>, c: int, k: int)
    ensures var r := RunStages(e, Stages, Data(keywords, c, k, None, None, None));
      (r.Failure? ==> r.error != KeyError && r.error != AssertionError) &&
      (r.Success? ==> r.value.products.Some?)
  {
    var d0 := Data(keywords, c, k, None, None, None);
    PipeIsComposition(e, d0);
    var v := VectorizerPipe(d0);
    if v.Success? {
      var cl := ClusterPipe(e, v.value);
      if cl.Success? {
        var d := cl.value;
        if d.clusterSize > 0 {
          var ws := Windows(Fetch(e, d.ids.value), d.clusterSize);
          var queries := CleanAll(d.queries.value);
          WindowsFailureIsFirstRecord(ws, queries);
        }
      }
    }
  }

  // ---------------------------------------------------------------------------
  // SearchEngine.search
  // ---------------------------------------------------------------------------

  /** The assertions at the top of `search`: a non-empty list whose first
      element is a string, and integer `cluster_size` and `k`. Later list
      elements are not checked. */
  predicate ValidSearchInput(keywords: Object, clusterSize: Object, k: Object) {
    keywords.List? && |keywords.items| > 0 && keywords.items[0].Str? && IsInt(clusterSize) && IsInt(k)
  }

  /** `if cluster_size > k: cluster_size = k`. */
  function Clamp(clusterSize: int, k: int): (c: int)
    ensures c <= k && c <= clusterSize && (c == clusterSize || c == k)
  {
    if clusterSize > k then k else clusterSize
  }

  /** The records of a finished run, or the exception it ended with. */
  function Products(r: Result<Data, Exception>): Result<seq<Record>, Exception> {
    match r
    case Failure(err) => Failure(err)
    case Success(d) => if d.products.Some? then Success(d.products.value) else Failure(KeyError)
  }

  /** What `search` returns. */
  function SearchSpec(e: SearchEngine, keywords: Object, clusterSize: Object, k: Object): Result<seq<Record>, Exception> {
    if !ValidSearchInput(keywords, clusterSize, k) then Failure(AssertionError)
    else
      var c := Clamp(IntValue(clusterSize), IntValue(k));
      Products(RunStages(e, Stages, Data(keywords.items, c, IntValue(k), None, None, None)))
  }

  /** `search(keywords, cluster_size, k)`. */
  method Search(e: SearchEngine, keywords: Object, clusterSize: Object, k: Object)
    returns (res: Result<seq<Record>, Exception>)
    ensures res == SearchSpec(e, keywords, clusterSize, k)
  {
    if !(keywords.List? && |keywords.items| > 0 && keywords.items[0].Str?) {
      return Failure(AssertionError);
    }
    if !(IsInt(clusterSize) && IsInt(k)) {
      return Failure(AssertionError);
    }
    var c := IntValue(clusterSize);
    var kk := IntValue(k);
    if c > kk {
      c := kk;
    }
    var results := Pipe(e, Data(keywords.items, c, kk, None, None, None));
    res := Products(results);
  }

  /** `search` raises `AssertionError` exactly when its input checks fail;
      nothing later in the pipeline raises it. */
  lemma SearchRejects(e: SearchEngine, keywords: Object, clusterSize: Object, k: Object)
    ensures SearchSpec(e, keywords, clusterSize, k) == Failure(AssertionError) <==>
      !ValidSearchInput(keywords, clusterSize, k)
  {
    if ValidSearchInput(keywords, clusterSize, k) {
      var c := Clamp(IntValue(clusterSize), IntValue(k));
      PipeFindsItsKeys(e, keywords.items, c, IntValue(k));
    }
  }

  /** A keyword after the first that is not a string gets past the checks
      and makes the phrase join raise `TypeError`. */
  lemma SearchTypeError(e: SearchEngine, keywords: Object, clusterSize: Object, k: Object)
    requires ValidSearchInput(keywords, clusterSize, k) && !AllStr(keywords.items)
    ensures SearchSpec(e, keywords, clusterSize, k) == Failure(TypeError)
  {
    PipeIsComposition(e, Data(keywords.items, Clamp(IntValue(clusterSize), IntValue(k)), IntValue(k), None, None, None));
  }

  /** The phrases `search` ranks by: every non-empty combination of the
      keywords. */
  function Phrases(keywords: Object): seq<string>
    requires keywords.List? && AllStr(keywords.items)
  {
    Expand(Strings(keywords.items))
  }

  /** The records `search` fetches: those of the top `k` vectors by mean
      similarity to the phrases. */
  function Retrieved(e: SearchEngine, keywords: Object, k: int): seq<Record>
    requires keywords.List? && AllStr(keywords.items)
  {
    Fetch(e, ClusterIds(e, Phrases(keywords), k))
  }

  /** With valid string keywords, `search` fetches the top-k records and
      reranks them window by window, windows of the clamped cluster size,
      against the cleaned phrases. A clamped size of 0 (for example
      `k = 0`) makes `range` raise `ValueError`; a negative one gives no
      records. */
  lemma SearchRanksWithinWindows(e: SearchEngine, keywords: Object, clusterSize: Object, k: Object)
    requires ValidSearchInput(keywords, clusterSize, k) && AllStr(keywords.items)
    ensures var c := Clamp(IntValue(clusterSize), IntValue(k));
      var fetched := Retrieved(e, keywords, IntValue(k));
      var r := SearchSpec(e, keywords, clusterSize, k);
      (c == 0 ==> r == Failure(ValueError)) &&
      (c < 0 ==> r == Success([])) &&
      (c > 0 ==> r == RerankAll(Windows(fetched, c), CleanAll(Phrases(keywords))))
  {
    var c := Clamp(IntValue(clusterSize), IntValue(k));
    PipeIsComposition(e, Data(keywords.items, c, IntValue(k), None, None, None));
  }

  /** The number of records a successful search returns: `min(k, N)` for
      `k >= 0`, with `N` the number of vectors, whenever the windows
      rerank. */
  lemma SearchReturnsTopK(e: SearchEngine, keywords: Object, clusterSize: Object, k: Object)
    requires ValidSearchInput(keywords, clusterSize, k) && AllStr(keywords.items)
    requires Clamp(IntValue(clusterSize), IntValue(k)) > 0
    requires SearchSpec(e, keywords, clusterSize, k).Success?
    ensures var out := SearchSpec(e, keywords, clusterSize, k).value;
      |out| == SliceLen(IntValue(k), |e.ids|) &&
      multiset(out) == multiset(Retrieved(e, keywords, IntValue(k)))
  {
    var c := Clamp(IntValue(clusterSize), IntValue(k));
    SearchRanksWithinWindows(e, keywords, clusterSize, k);
    RerankStaysInWindows(Retrieved(e, keywords, IntValue(k)), CleanAll(Phrases(keywords)), c);
    ClusterIdsAreTop(e, Phrases(keywords), IntValue(k));
  }
}
