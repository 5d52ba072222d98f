# pricegram_search: retrieval and rerank, modelled in Dafny

This project models the search core of `pricegram_search`. That core turns
a list of keywords into a ranked list of product records.

- **Query expansion.** `get_all_combinations` turns the keywords into every
  non-empty combination, joined with spaces.
- **Retrieval.** The mean similarity of each stored vector to the phrases
  picks the top `k` ids, via `np.argsort` and a Python slice.
- **Windowed rerank.** The fetched records are cut into windows of
  `cluster_size` records. Each window is reordered by `sort_products`.
  `sort_products` scores a record by summing, over the cleaned phrases, the
  best `matching_ratio` of the phrase against any part of the record.
  `matching_ratio` is built on `clean_zero` and the greedy decomposition of
  `find_matching_parts`.
- **Entry points.** `Pipeline.pipe` runs the three stages in order.
  `SearchEngine.search` fronts it: the packaged engine checks its arguments
  first, the top-level legacy engine does not.

Modules, one per layer of the source:

- `BasicUtils`, `Algorithms` and `ProductsMatch` follow the three classes of
  `pricegram_search/utils.py`.
- `Sorting` models the `np.argsort` and list-comprehension index work that
  `utils.py` and `engine.py` share.
- `Engine` is `pricegram_search/engine.py`.
- `LegacyEngine` is the top-level `engine.py`. Its pipeline is identical to
  the packaged one, so it reuses `Engine`'s stages.
- `Python` holds the argument objects `search` inspects and the exceptions a
  call can end with. `Wrappers` holds `Option` and `Result`.

How the model treats the source:

- **Loops stay loops.** `find_matching_parts`, `get_all_combinations`,
  `part_keywords`, `product_keywords`, `sort_products`, the `sorter_pipe`
  loop, `pipe` and `search` are methods. Each is proved equal to a
  specification function, and the lemmas are about those functions.
- **Exceptions are values.** Every exception the core can raise is returned
  as `Failure(e)`:
  - `AssertionError` from the checks in `search`;
  - `TypeError` when `" ".join` meets a non-string keyword;
  - `ValueError` from `range` with step 0, or from `np.argmax` of a record
    with no parts;
  - `ZeroDivisionError` from `matching_ratio` with a keyword that cleans to
    `""`;
  - `KeyError` from a stage reading a key that no earlier stage added.
- **Scores are exact reals.**

## Model

| member | source | states |
|---|---|---|
| BasicUtils.CleanZero | pricegram_search/utils.py:7-8 | the result is no longer than the input and holds only `[0-9a-z]` |
| BasicUtils.CleanChar | pricegram_search/utils.py:7-8 | one character contributes itself if in `[0-9a-z]`, its lower case if in `[A-Z]`, and nothing if it is any other character except the two non-ASCII letters that lower to `k` and `i` |
| BasicUtils.CleanZeroAppend | pricegram_search/utils.py:7-8 | cleaning works character by character, so it distributes over concatenation |
| BasicUtils.CleanZeroFixesClean | pricegram_search/utils.py:7-8 | a string of `[0-9a-z]` only is left unchanged |
| BasicUtils.CleanZeroIdempotent | pricegram_search/utils.py:7-8 | cleaning twice equals cleaning once |
| BasicUtils.CleanZeroKeepsExample | pricegram_search/tests/unit_tests/test_utils.py:15 | `clean_zero("abc123") == "abc123"` |
| BasicUtils.CleanZeroExample | pricegram_search/tests/unit_tests/test_utils.py:16 | `clean_zero("abc!@#123") == "abc123"` |
| BasicUtils.FindMatchingParts | pricegram_search/utils.py:10-25 | the while loop, with its inner loop over end positions from longest to shortest, returns exactly the greedy decomposition `GreedyParts` |
| BasicUtils.GreedyPartsOccur | pricegram_search/utils.py:10-25 | every part is non-empty and occurs in the input string; together the parts are no longer than the pattern |
| BasicUtils.GreedySpansAreGreedyCover | pricegram_search/utils.py:13-22 | the spans of the parts meet a declarative description: they lie within the pattern, in order, each is the longest match at its start, and every skipped position has no match |
| BasicUtils.GreedyCoverIsUnique | pricegram_search/utils.py:13-22 | any spans meeting that description are the ones the loop finds |
| BasicUtils.FindMatchingPartsExample | pricegram_search/tests/unit_tests/test_utils.py:22 | `find_matching_parts("abcdef", "def") == ["def"]` |
| BasicUtils.NoSharedCharNoParts | pricegram_search/utils.py:15-22 | no part is found in a pattern none of whose characters occurs in the input |
| BasicUtils.FindMatchingPartsNoneExample | pricegram_search/tests/unit_tests/test_utils.py:23 | `find_matching_parts("abcdef", "xyz") == []` |
| BasicUtils.CombinationsCount | pricegram_search/utils.py:30 | `itertools.combinations(xs, r)` yields `C(len(xs), r)` tuples |
| BasicUtils.CombinationsAreSubsequences | pricegram_search/utils.py:30 | each combination has `r` elements taken from the list in order |
| BasicUtils.GetAllCombinations | pricegram_search/utils.py:27-31 | the loop over `r = 1 .. L` yields exactly `Expand(input_list)` |
| BasicUtils.ExpandCount | pricegram_search/utils.py:27-31 | `L` keywords give `2^L - 1` phrases |
| BasicUtils.ExpandStartsWithKeywords | pricegram_search/utils.py:29-31 | the first `L` phrases are the keywords themselves, in order |
| BasicUtils.ExpandPhrases | pricegram_search/utils.py:27-31 | every phrase is the space-join of a non-empty, order-preserving selection of the keywords |
| BasicUtils.CombinationsComplete | pricegram_search/utils.py:30 | every order-preserving selection of `r` items is among `itertools.combinations(xs, r)` |
| BasicUtils.ExpandComplete | pricegram_search/utils.py:27-31 | every non-empty order-preserving selection of the keywords, space-joined, is one of the phrases |
| BasicUtils.CombinationsUpToSorted | pricegram_search/utils.py:29-30 | the combinations come size by size: along the list, sizes never decrease |
| BasicUtils.ExpandExample | pricegram_search/tests/unit_tests/test_utils.py:26-36 | `["a","b","c"]` expands to `a, b, c, a b, a c, b c, a b c` |
| Algorithms.LongMatchesFilter | pricegram_search/utils.py:36 | the kept matches are exactly the parts longer than one character, each as often as it occurs among the parts, in the parts' order |
| Algorithms.Divide | pricegram_search/utils.py:38-42 | Python's `/` raises `ZeroDivisionError` exactly for a zero divisor, and otherwise returns the quotient |
| Algorithms.MatchingRatio | pricegram_search/utils.py:34-44 | for a non-empty pattern the score lies in `[0, 1]` |
| Algorithms.MatchingRatioChecked | pricegram_search/utils.py:34-44 | `matching_ratio`, both divisions included, raises `ZeroDivisionError` exactly for an empty pattern; otherwise the score lies in `[0, 1]` |
| Algorithms.MatchingRatioZero | pricegram_search/utils.py:34-44 | the score is 0 exactly when no match longer than one character exists |
| Algorithms.MatchingRatioOne | pricegram_search/utils.py:34-44 | the score is 1 exactly when the pattern has at least two characters and occurs whole in the text |
| Algorithms.MatchingRatioExample | pricegram_search/tests/unit_tests/test_utils.py:39-42 | `matching_ratio("abcdef", "def")` scores 1.0 |
| Sorting.ArgSortSorted | pricegram_search/utils.py:120 | the argsort lists indices in ascending key order, equal keys in index order |
| Sorting.ArgSortIsPermutation | pricegram_search/utils.py:120 | the argsort is a permutation of `range(n)` |
| Sorting.ArgSortPermutes | pricegram_search/utils.py:122-124 | reordering a list by the argsort keeps exactly its elements |
| Sorting.SelectReverse | pricegram_search/utils.py:120-124 | selecting through `idx[::-1]` reverses the selection |
| Sorting.ReverseArgSortDescending | pricegram_search/utils.py:120 | `np.argsort(scores)[::-1]` runs from the largest score down, equal scores in decreasing index order |
| Sorting.NegatedArgSortDescending | pricegram_search/engine.py:53 | `np.argsort(-scores)` runs from the largest score down, equal scores in increasing index order |
| ProductsMatch.FieldsPartsAppend | pricegram_search/utils.py:76-95 | a record's parts are its fields' parts, in field order |
| ProductsMatch.DoubleClean | pricegram_search/engine.py:73 | cleaning the phrases in `sorter_pipe` and again in `product_keywords` equals cleaning once |
| ProductsMatch.PartScore | pricegram_search/utils.py:51-60 | `part_keyword` on a cleaned part scores in `[0, 1]` |
| ProductsMatch.PartKeywords | pricegram_search/utils.py:62-70 | raises `ZeroDivisionError` exactly when a keyword is empty; otherwise entry `j` is the score of the cleaned part against keyword `j`, in `[0, 1]` |
| ProductsMatch.PartRowExample | pricegram_search/tests/unit_tests/test_utils.py:63-66 | `part_keywords("abcdef", ["def", "xyz"])` gives `[1.0, 0.0]` |
| ProductsMatch.FirstArgMax | pricegram_search/utils.py:97 | `np.argmax` returns a position of the largest value, and no earlier position holds it |
| ProductsMatch.ArgMaxColumns | pricegram_search/utils.py:97 | `np.argmax(scores, axis=0)` raises `ValueError` exactly when there are no rows; otherwise it picks, per column, a row holding the column's largest value, with no earlier row holding it |
| ProductsMatch.KeywordScoresAreMax | pricegram_search/utils.py:97-102 | each keyword's score is the score of the part `np.argmax` picks for it; no part scores higher; every earlier part scores lower |
| ProductsMatch.KeywordScoresBounded | pricegram_search/utils.py:97-102 | every keyword score lies in `[0, 1]` |
| ProductsMatch.ScoreField | pricegram_search/utils.py:75-95 | one field of the record raises `ZeroDivisionError` exactly when it has a part and a keyword is empty; otherwise its parts' score rows are appended after the earlier ones |
| ProductsMatch.ProductKeywords | pricegram_search/utils.py:72-105 | raises `ValueError` (from the argmax) exactly when the record has no part, else `ZeroDivisionError` (from the first part's scoring) exactly when a cleaned keyword is empty; otherwise the loops over list, dict and scalar fields and the argmax yield `KeywordScores` of the record's parts against the cleaned keywords |
| ProductsMatch.ProductKeywordsExample | pricegram_search/tests/unit_tests/test_utils.py:69-74 | record `{"key1": "value1"}` against `["key", "value"]` scores `[1.0, 1.0]` |
| ProductsMatch.RankFailureNone | pricegram_search/utils.py:108-118 | `sort_products` raises exactly when some record of the batch cannot be scored |
| ProductsMatch.RankFailureFirst | pricegram_search/utils.py:111-112 | a failing batch raises the exception of its first failing record, a `ValueError` or a `ZeroDivisionError` |
| ProductsMatch.RankFailureAppend | pricegram_search/utils.py:111-112 | the first failure of a concatenation is that of its first part, or else of its second |
| ProductsMatch.TotalBounds | pricegram_search/utils.py:114 | a record's total lies between 0 and the number of keywords |
| ProductsMatch.RerankWindowPermutes | pricegram_search/utils.py:120-124 | the reordered batch holds exactly the records of the batch |
| ProductsMatch.RerankWindowOrdered | pricegram_search/utils.py:120-124 | returned record `a` is input record `idx[a]` with score its total; totals never increase along the output, equal totals in reverse input order |
| ProductsMatch.RerankScoresAreTotals | pricegram_search/utils.py:120-124 | the returned scores are the totals of the returned records |
| ProductsMatch.SortProducts | pricegram_search/utils.py:108-126 | fails exactly when the batch cannot be ranked, raising the first failing record's exception; otherwise returns the reordered batch and its scores |
| Engine.VectorizerPipe | pricegram_search/engine.py:28-44 | raises `TypeError` exactly when a keyword is not a string; otherwise sets `queries` to the phrases of the keywords when it is absent, keeps a `queries` already present, and changes no other key |
| Engine.TopIndicesAreBest | pricegram_search/engine.py:53-56 | the kept indices number `SliceLen(k, n)`, are distinct, run from the highest mean score down with ties by index, and no index left out beats a kept one |
| Engine.ClusterIdsAreTop | pricegram_search/engine.py:59 | the ids are `vectors["ids"]` at the top indices, in order |
| Engine.ClusterPipe | pricegram_search/engine.py:46-64 | raises `KeyError` exactly when no queries were added; otherwise sets `ids` to the top-`k` ids by mean similarity to the queries when it is absent, keeps `ids` already present, and changes no other key |
| Engine.WindowStartBelow | pricegram_search/engine.py:77 | `w * c` is a start of `range(0, n, c)` exactly when `w` is below the window count |
| Engine.WindowsPartition | pricegram_search/engine.py:77-82 | the windows concatenate to the records; there are `ceil(n / c)` of them; each holds 1 to `c` records and all but the last hold exactly `c` |
| Engine.WindowsFailureNone | pricegram_search/engine.py:77-88 | no window fails exactly when every window can be ranked |
| Engine.WindowsFailureIsFirstRecord | pricegram_search/engine.py:77-88 | the windowed loop fails with the exception of the first failing record over all windows, a `ValueError` or a `ZeroDivisionError` |
| Engine.RerankStaysInWindows | pricegram_search/engine.py:77-91 | on success the output is a permutation of the fetched records, and cutting it into windows gives the reranked windows, each a permutation of its input window |
| Engine.RerankWindows | pricegram_search/engine.py:77-91 | the loop equals `RerankAll` of the windows: the first failing window's exception, or the reranked windows concatenated |
| Engine.SorterPipe | pricegram_search/engine.py:66-95 | equals `SorterSpec`: `KeyError` for a missing key, `ValueError` for `cluster_size == 0`, no records for a negative size, otherwise the windowed rerank |
| Engine.Pipe | pricegram_search/engine.py:16-26 | the loop over the stages equals running them in order and stopping at the first exception |
| Engine.PipeIsComposition | pricegram_search/engine.py:16-26 | `pipe` is vectorizer, then cluster, then sorter, each failure passed on |
| Engine.PipeFindsItsKeys | pricegram_search/engine.py:16-95 | started from `search`'s three arguments, no stage raises `KeyError` or `AssertionError`, and success carries the records |
| Engine.Clamp | pricegram_search/engine.py:148-149 | the clamped size is at most both `cluster_size` and `k`, and is one of them |
| Engine.Search | pricegram_search/engine.py:113-157 | equals `SearchSpec`: the input checks, the clamp, then `pipe` and its `products` |
| Engine.SearchRejects | pricegram_search/tests/test_pricegram_search.py:52-98 | `AssertionError` comes out exactly when the input checks fail: a non-list, an empty list, a non-string first keyword, a non-integer size or `k` |
| Engine.SearchTypeError | pricegram_search/engine.py:140-144 | a non-string keyword after the first passes the checks and raises `TypeError` in the join |
| Engine.SearchRanksWithinWindows | pricegram_search/engine.py:148-157 | for valid string keywords: clamped size 0 raises `ValueError`; a negative size returns no records; otherwise the result is the windowed rerank of the top-k records against the cleaned phrases |
| Engine.SearchReturnsTopK | pricegram_search/engine.py:53-90 | with a positive clamped size, a successful search returns `min(k, N)` records for `k >= 0`, a permutation of the retrieved ones |
| LegacyEngine.Search | engine.py:105-115 | equals `LegacyEngine.SearchSpec`: the clamp, then `pipe`, with no input checks |
| LegacyEngine.LegacyNeverAsserts | engine.py:105-115 | the legacy search raises only `TypeError`, `ValueError` or `ZeroDivisionError` |
| LegacyEngine.AgreesWithValidatedSearch | engine.py:9-93 | on integer arguments and a non-empty keyword list starting with a string, the legacy search returns what the packaged search returns |
| LegacyEngine.EmptyKeywordsDiffer | engine.py:105-115 | an empty keyword list is rejected by the packaged search but not by the legacy one |

## Left out

- Loading the engine is not modelled: `Initializer`, `init`, the downloads, the dump path and `engine_instance.py`. They are I/O.
- The TF-IDF vectorizer and `cosine_similarity` are not modelled. `SearchEngine.similarity` stands for the mean similarity of a vector to the queries, a given function. So `queries` also stands for `encoded`.
- The data fetcher is a given function from id to record (`SearchEngine.fetch`).
- scikit-learn raising on an empty query list is not modelled. It matters only for the legacy engine called with no keywords, so LegacyEngine.EmptyKeywordsDiffer does not say which exception that call then ends with.
- `fuzz_ratio` is not modelled. It is unused: `algorithm` always picks `matching_ratio`.
- `algorithm` and `part_keyword` only forward their arguments. They are folded into `PartScore`.
- The `source` debug strings that `matching_ratio`, `part_keywords`, `product_keywords` and `sort_products` build are not modelled. Nothing in the search result depends on them.
- Scores are exact reals, not floating point. Rounding could order two nearly equal totals differently.
- NumPy's default sort is not stable. The model fixes ties in stable order: index order for `np.argsort`, so reverse index order after `[::-1]`.
- Record values are taken after `str()`. A field value is a string, a list of strings or a dictionary of strings. Python's string formatting of other values is not modelled.
- NaN values are not dropped: `str(nan)` becomes a part like any other value.
- `clean_zero` models `str.lower` as ASCII case folding plus the two non-ASCII characters that lower to ASCII letters: `U+212A` (Kelvin sign) and `U+0130`. Other Unicode case mappings are not modelled; no other character can survive the `[0-9a-zA-Z]` filter anyway.
- LegacyEngine.Search: takes `keywords` as a Python list, and `cluster_size` and `k` as Python `int`s; arguments of other types are not modelled. In particular a bare string such as `"laptop"`, which the packaged search rejects, would be expanded by `get_all_combinations` character by character in the legacy search; that path is not modelled.
- The default arguments `cluster_size=50` and `k=100` of both `search` functions are not modelled: every call passes all three arguments.
- `cosine_similarity` raising `ValueError` on an engine with no indexed vectors is not modelled; `SearchEngine.similarity` is total, so an empty index yields no ids.
- Field names and dictionary keys are taken to be strings. With another type, `k + str(v)` and `k_ + str(v_)` in `product_keywords` would raise `TypeError`; that path is not modelled.
- The pipeline's dictionary is a record with one optional field per key. A caller-supplied extra key is not modelled.
