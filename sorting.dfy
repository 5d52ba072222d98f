/** `np.argsort` on a vector of scores, and the index bookkeeping around it.
    NumPy's default sort does not promise an order among equal keys; this
    model fixes one, the stable order: equal keys keep their index order. */
module Sorting {

  /** In a stable ascending argsort of `keys`, index `i` comes before `j`. */
  predicate Before(keys: seq<real>, i: nat, j: nat)
    requires i < |keys| && j < |keys|
  {
    keys[i] < keys[j] || (keys[i] == keys[j] && i < j)
  }

  /** Every entry of `idx` indexes `keys`. */
  predicate InRange(idx: seq<nat>, n: nat) {
    forall k :: 0 <= k < |idx| ==> idx[k] < n
  }

  /** `idx` lists indices of `keys` in stable ascending key order. */
  predicate SortedBy(keys: seq<real>, idx: seq<nat>)
    requires InRange(idx, |keys|)
  {
    forall a, b :: 0 <= a < b < |idx| ==> Before(keys, idx[a], idx[b])
  }

  /** `range(n)` as a list. */
  function Range(n: nat): (r: seq<nat>)
    ensures |r| == n && forall k :: 0 <= k < n ==> r[k] == k
  {
    if n == 0 then [] else Range(n - 1) + [n - 1]
  }

  /** `[xs[i] for i in idx]`. */
  function Select<T>(xs: seq<T>, idx: seq<nat>): (r: seq<T>)
    requires InRange(idx, |xs|)
    ensures |r| == |idx|
  {
    if idx == [] then [] else [xs[idx[0]]] + Select(xs, idx[1..])
  }

  /** The `k`-th selected element is `xs[idx[k]]`. */
  lemma {:induction false} SelectAt<T>(xs: seq<T>, idx: seq<nat>)
    requires InRange(idx, |xs|)
    ensures forall k :: 0 <= k < |idx| ==> Select(xs, idx)[k] == xs[idx[k]]
  {
    if idx != [] {
      SelectAt(xs, idx[1..]);
    }
  }

  /** `idx[::-1]`. */
  function Reverse<T>(xs: seq<T>): (r: seq<T>)
    ensures |r| == |xs| && forall k :: 0 <= k < |xs| ==> r[k] == xs[|xs| - 1 - k]
  {
    seq(|xs|, k requires 0 <= k < |xs| => xs[|xs| - 1 - k])
  }

  /** `-scores`, elementwise. */
  function Negate(scores: seq<real>): (r: seq<real>)
    ensures |r| == |scores| && forall k :: 0 <= k < |scores| ==> r[k] == -scores[k]
  {
    seq(|scores|, k requires 0 <= k < |scores| => -scores[k])
  }

  /** Where index `i` goes among the sorted `idx`: past every entry whose key
      is at most `keys[i]`. */
  function InsertPos(keys: seq<real>, idx: seq<nat>, i: nat): (p: nat)
    requires InRange(idx, |keys|) && i < |keys|
    ensures p <= |idx|
    ensures forall k :: 0 <= k < p ==> keys[idx[k]] <= keys[i]
    ensures p < |idx| ==> keys[idx[p]] > keys[i]
  {
    if idx == [] || keys[idx[0]] > keys[i] then 0
    else 1 + InsertPos(keys, idx[1..], i)
  }

  /** `idx` with `i` placed at its insertion position. */
  function Insert(keys: seq<real>, idx: seq<nat>, i: nat): (r: seq<nat>)
    requires InRange(idx, |keys|) && i < |keys|
    ensures |r| == |idx| + 1
  {
    var p := InsertPos(keys, idx, i);
    idx[..p] + [i] + idx[p..]
  }

  /** Entries before the insertion position stay, `i` sits at it, and the
      rest move up by one. */
  lemma InsertAt(keys: seq<real>, idx: seq<nat>, i: nat)
    requires InRange(idx, |keys|) && i < |keys|
    ensures var p, r := InsertPos(keys, idx, i), Insert(keys, idx, i);
      r[p] == i &&
      (forall k :: 0 <= k < p ==> r[k] == idx[k]) &&
      (forall k :: p < k < |r| ==> r[k] == idx[k - 1])
  {
  }

  /** Inserting an index below `n` into indices below `n` stays below `n`. */
  lemma InsertInRange(keys: seq<real>, idx: seq<nat>, i: nat, n: nat)
    requires InRange(idx, |keys|) && i < |keys| && InRange(idx, n) && i < n
    ensures InRange(Insert(keys, idx, i), n)
  {
    InsertAt(keys, idx, i);
  }

  /** The stable ascending argsort of `keys[..n]`, built by inserting the
      indices 0, 1, ..., n - 1 in turn. */
  function ArgSortPrefix(keys: seq<real>, n: nat): (idx: seq<nat>)
    requires n <= |keys|
    ensures |idx| == n && InRange(idx, n)
  {
    if n == 0 then []
    else
      var prev := ArgSortPrefix(keys, n - 1);
      assert InRange(prev, |keys|);
      InsertInRange(keys, prev, n - 1, n);
      Insert(keys, prev, n - 1)
  }

  /** `np.argsort(keys)`, stable. */
  function ArgSort(keys: seq<real>): (idx: seq<nat>)
    ensures |idx| == |keys| && InRange(idx, |keys|)
  {
    ArgSortPrefix(keys, |keys|)
  }

  /** Inserting the next index into a sorted list keeps it sorted. */
  lemma InsertSorted(keys: seq<real>, idx: seq<nat>, i: nat)
    requires i < |keys| && InRange(idx, i) && SortedBy(keys, idx)
    ensures InRange(Insert(keys, idx, i), i + 1) && SortedBy(keys, Insert(keys, idx, i))
  {
    var p := InsertPos(keys, idx, i);
    var r := Insert(keys, idx, i);
    InsertAt(keys, idx, i);
    InsertInRange(keys, idx, i, i + 1);
    forall a, b | 0 <= a < b < |r|
      ensures Before(keys, r[a], r[b])
    {
      if b == p {
        assert keys[idx[a]] <= keys[i] && idx[a] < i;
      } else if a == p {
        assert keys[idx[p]] > keys[i];
        if p < b - 1 {
          assert Before(keys, idx[p], idx[b - 1]);
        }
      }
    }
  }

  /** The argsort is sorted: keys ascend along it, equal keys by index. */
  lemma {:induction false} ArgSortPrefixSorted(keys: seq<real>, n: nat)
    requires n <= |keys|
    ensures SortedBy(keys, ArgSortPrefix(keys, n))
  {
    if n > 0 {
      ArgSortPrefixSorted(keys, n - 1);
      InsertSorted(keys, ArgSortPrefix(keys, n - 1), n - 1);
    }
  }

  lemma ArgSortSorted(keys: seq<real>)
    ensures SortedBy(keys, ArgSort(keys))
  {
    ArgSortPrefixSorted(keys, |keys|);
  }

  /** Selecting through a concatenation of index lists concatenates. */
  lemma {:induction false} SelectAppend<T>(xs: seq<T>, a: seq<nat>, b: seq<nat>)
    requires InRange(a, |xs|) && InRange(b, |xs|)
    ensures InRange(a + b, |xs|) && Select(xs, a + b) == Select(xs, a) + Select(xs, b)
  {
    assert InRange(a + b, |xs|);
    if a != [] {
      assert (a + b)[0] == a[0] && (a + b)[1..] == a[1..] + b;
      SelectAppend(xs, a[1..], b);
    } else {
      assert a + b == b;
    }
  }

  /** Inserting index `i` adds `xs[i]` to the selected elements. */
  lemma SelectInsert<T>(xs: seq<T>, keys: seq<real>, idx: seq<nat>, i: nat)
    requires |xs| == |keys| && i < |keys| && InRange(idx, |keys|)
    ensures InRange(Insert(keys, idx, i), |xs|)
    ensures multiset(Select(xs, Insert(keys, idx, i))) == multiset(Select(xs, idx)) + multiset{xs[i]}
  {
    var p := InsertPos(keys, idx, i);
    InsertSplit(keys, idx, i);
    SelectSplice(xs, idx[..p], i, idx[p..]);
  }

  /** `Insert` splits `idx` at the insertion position. */
  lemma InsertSplit(keys: seq<real>, idx: seq<nat>, i: nat)
    requires InRange(idx, |keys|) && i < |keys|
    ensures var p := InsertPos(keys, idx, i);
      Insert(keys, idx, i) == idx[..p] + [i] + idx[p..] && idx == idx[..p] + idx[p..]
  {
  }

  /** Splicing index `i` between `a` and `b` adds `xs[i]` to the selection. */
  lemma SelectSplice<T>(xs: seq<T>, a: seq<nat>, i: nat, b: seq<nat>)
    requires InRange(a, |xs|) && i < |xs| && InRange(b, |xs|)
    ensures InRange(a + [i] + b, |xs|) && InRange(a + b, |xs|)
    ensures multiset(Select(xs, a + [i] + b)) == multiset(Select(xs, a + b)) + multiset{xs[i]}
  {
    var sa, sb := Select(xs, a), Select(xs, b);
    assert Select(xs, [i]) == [xs[i]];
    SelectAppend(xs, a, [i]);
    SelectAppend(xs, a + [i], b);
    SelectAppend(xs, a, b);
    assert Select(xs, a + [i] + b) == sa + [xs[i]] + sb;
    assert Select(xs, a + b) == sa + sb;
  }

  /** Selecting through the argsort of `keys[..n]` rearranges `xs[..n]`. */
  lemma {:induction false} ArgSortPrefixPermutes<T>(xs: seq<T>, keys: seq<real>, n: nat)
    requires |xs| == |keys| && n <= |keys|
    ensures InRange(ArgSortPrefix(keys, n), |xs|)
    ensures multiset(Select(xs, ArgSortPrefix(keys, n))) == multiset(xs[..n])
  {
    if n > 0 {
      ArgSortPrefixPermutes(xs, keys, n - 1);
      ArgSortPrefixStep(xs, keys, n);
    }
  }

  /** One insertion of `ArgSortPrefix` adds the next element. */
  lemma ArgSortPrefixStep<T>(xs: seq<T>, keys: seq<real>, n: nat)
    requires |xs| == |keys| && 0 < n <= |keys|
    requires multiset(Select(xs, ArgSortPrefix(keys, n - 1))) == multiset(xs[..n - 1])
    ensures multiset(Select(xs, ArgSortPrefix(keys, n))) == multiset(xs[..n])
  {
    var prev := ArgSortPrefix(keys, n - 1);
    SelectInsert(xs, keys, prev, n - 1);
    PrefixSnoc(xs, n);
    assert ArgSortPrefix(keys, n) == Insert(keys, prev, n - 1);
  }

  /** Growing a prefix by one element adds that element. */
  lemma PrefixSnoc<T>(xs: seq<T>, n: nat)
    requires 0 < n <= |xs|
    ensures multiset(xs[..n]) == multiset(xs[..n - 1]) + multiset{xs[n - 1]}
  {
    assert xs[..n] == xs[..n - 1] + [xs[n - 1]];
  }

  /** Reordering `xs` by the argsort of any keys of the same length keeps
      exactly the same elements: nothing added, nothing dropped. */
  lemma ArgSortPermutes<T>(xs: seq<T>, keys: seq<real>)
    requires |xs| == |keys|
    ensures InRange(ArgSort(keys), |xs|)
    ensures multiset(Select(xs, ArgSort(keys))) == multiset(xs)
  {
    ArgSortPrefixPermutes(xs, keys, |keys|);
    assert xs[..|keys|] == xs;
  }

  /** The argsort is a permutation of `0 .. n - 1`. */
  lemma ArgSortIsPermutation(keys: seq<real>)
    ensures multiset(ArgSort(keys)) == multiset(Range(|keys|))
  {
    var r := Range(|keys|);
    ArgSortPermutes(r, keys);
    SelectAt(r, ArgSort(keys));
    assert Select(r, ArgSort(keys)) == ArgSort(keys);
  }

  /** Reversing keeps the elements. */
  lemma {:induction false} ReversePermutes<T>(xs: seq<T>)
    ensures multiset(Reverse(xs)) == multiset(xs)
  {
    if xs != [] {
      var last := xs[|xs| - 1];
      var init := xs[..|xs| - 1];
      ReversePermutes(init);
      assert Reverse(xs) == [last] + Reverse(init);
      assert xs == init + [last];
    }
  }

  /** Reversing an index list keeps it in range. */
  lemma ReverseInRange(idx: seq<nat>, n: nat)
    requires InRange(idx, n)
    ensures InRange(Reverse(idx), n)
  {
  }

  /** Selecting through reversed indices reverses the selection. */
  lemma SelectReverse<T>(xs: seq<T>, idx: seq<nat>)
    requires InRange(idx, |xs|)
    ensures InRange(Reverse(idx), |xs|) && Select(xs, Reverse(idx)) == Reverse(Select(xs, idx))
  {
    ReverseInRange(idx, |xs|);
    SelectAt(xs, idx);
    SelectAt(xs, Reverse(idx));
  }

  /** Reversed, the argsort runs from the largest key to the smallest, equal
      keys in decreasing index order. */
  lemma ReverseArgSortDescending(keys: seq<real>)
    ensures var r := Reverse(ArgSort(keys));
      InRange(r, |keys|) &&
      forall a, b :: 0 <= a < b < |r| ==>
        keys[r[a]] > keys[r[b]] || (keys[r[a]] == keys[r[b]] && r[a] > r[b])
  {
    ArgSortSorted(keys);
    var idx := ArgSort(keys);
    var r := Reverse(idx);
    forall a, b | 0 <= a < b < |r|
      ensures keys[r[a]] > keys[r[b]] || (keys[r[a]] == keys[r[b]] && r[a] > r[b])
    {
      assert Before(keys, idx[|idx| - 1 - b], idx[|idx| - 1 - a]);
    }
  }

  /** The argsort of the negated scores runs from the highest score to the
      lowest, equal scores in increasing index order. */
  lemma NegatedArgSortDescending(scores: seq<real>)
    ensures var idx := ArgSort(Negate(scores));
      InRange(idx, |scores|) &&
      forall a, b :: 0 <= a < b < |idx| ==>
        scores[idx[a]] > scores[idx[b]] || (scores[idx[a]] == scores[idx[b]] && idx[a] < idx[b])
  {
    var keys := Negate(scores);
    ArgSortSorted(keys);
    var idx := ArgSort(keys);
    forall a, b | 0 <= a < b < |idx|
      ensures scores[idx[a]] > scores[idx[b]] || (scores[idx[a]] == scores[idx[b]] && idx[a] < idx[b])
    {
      assert Before(keys, idx[a], idx[b]);
    }
  }
}
