/** Vector helpers (include/ctranslate2/utils.h) and the two library operations whose tie order the
    source leaves open: sorting indices by a key and selecting the best k scores. */
module Vectors {

  // ----- Gather -----

  ghost predicate Indexes(idx: seq<nat>, n: nat) {
    forall k :: 0 <= k < |idx| ==> idx[k] < n
  }

  function Gather<T>(v: seq<T>, idx: seq<nat>): (r: seq<T>)
    requires Indexes(idx, |v|)
    ensures |r| == |idx| && forall k :: 0 <= k < |idx| ==> r[k] == v[idx[k]]
  {
    seq(|idx|, k requires 0 <= k < |idx| => v[idx[k]])
  }

  /** `index_vector`: one output element per index, in index order. */
  method IndexVector<T>(v: seq<T>, idx: seq<nat>) returns (r: seq<T>)
    requires Indexes(idx, |v|)
    ensures r == Gather(v, idx)
  {
    r := [];
    var i := 0;
    while i < |idx|
      invariant i <= |idx|
      invariant r == Gather(v, idx)[..i]
    {
      r := r + [v[idx[i]]];
      i := i + 1;
    }
  }

  /** The integers below n, as `std::iota` writes them. */
  function Iota(n: nat): (r: seq<nat>)
    ensures |r| == n && forall k :: 0 <= k < n ==> r[k] == k
  {
    seq(n, k => k)
  }

  function Concat<T>(parts: seq<seq<T>>): seq<T> {
    if parts == [] then [] else Concat(parts[..|parts| - 1]) + parts[|parts| - 1]
  }

  lemma ConcatAppend<T>(parts: seq<seq<T>>, p: seq<T>)
    ensures Concat(parts + [p]) == Concat(parts) + p
  {
    assert (parts + [p])[..|parts|] == parts;
  }

  lemma {:induction false} ConcatFront<T>(p: seq<T>, parts: seq<seq<T>>)
    ensures Concat([p] + parts) == p + Concat(parts)
  {
    if parts == [] {
      assert ([p] + parts)[..0] == [];
    } else {
      var m := |parts| - 1;
      ConcatFront(p, parts[..m]);
      assert ([p] + parts)[..m + 1] == [p] + parts[..m];
    }
  }

  // ----- Permutations -----

  ghost predicate Distinct<T>(s: seq<T>) {
    forall j, k :: 0 <= j < k < |s| ==> s[j] != s[k]
  }

  ghost predicate IsPermutation(idx: seq<nat>, n: nat) {
    |idx| == n && Indexes(idx, n) && Distinct(idx)
  }

  ghost function Elements<T>(s: seq<T>): set<T> { set x | x in s }

  ghost function Below(n: nat): (r: set<nat>)
    ensures |r| == n && forall i :: i in r <==> 0 <= i < n
  {
    if n == 0 then {} else Below(n - 1) + {n - 1}
  }

  /** An injection of n indices below n hits every index. */
  lemma PermutationOnto(idx: seq<nat>, n: nat, i: nat)
    requires IsPermutation(idx, n) && i < n
    ensures i in idx
  {
    DistinctCardinality(idx);
    if i !in idx {
      SubsetCardinality(Elements(idx), Below(n) - {i});
    }
  }

  lemma {:induction false} DistinctCardinality<T>(s: seq<T>)
    requires Distinct(s)
    ensures |Elements(s)| == |s|
  {
    if s != [] {
      var m := |s| - 1;
      DistinctCardinality(s[..m]);
      assert Elements(s) == Elements(s[..m]) + {s[m]};
    }
  }

  lemma {:induction false} SubsetCardinality<T>(a: set<T>, b: set<T>)
    requires a <= b
    ensures |a| <= |b|
  {
    if a != {} {
      var x :| x in a;
      SubsetCardinality(a - {x}, b - {x});
    }
  }

  // ----- Sorting indices by key, largest first (std::sort: tie order unspecified) -----

  ghost predicate IsDescending(keys: seq<real>, idx: seq<nat>)
    requires Indexes(idx, |keys|)
  {
    forall j, k :: 0 <= j < k < |idx| ==> keys[idx[j]] >= keys[idx[k]]
  }

  ghost predicate IsDescendingOrder(keys: seq<real>, idx: seq<nat>) {
    IsPermutation(idx, |keys|) && IsDescending(keys, idx)
  }

  ghost predicate SortsDescending(f: seq<real> -> seq<nat>) {
    forall keys :: IsDescendingOrder(keys, f(keys))
  }

  type SortOp = f: seq<real> -> seq<nat> | SortsDescending(f) witness (keys => InsertionOrder(keys, |keys|))

  function Insert(keys: seq<real>, idx: seq<nat>, i: nat): (r: seq<nat>)
    requires Indexes(idx, |keys|) && i < |keys|
    requires IsDescending(keys, idx) && Distinct(idx) && i !in idx
    ensures Indexes(r, |keys|) && IsDescending(keys, r) && Distinct(r)
    ensures |r| == |idx| + 1 && forall x :: x in r <==> x == i || x in idx
  {
    if idx == [] || keys[idx[0]] < keys[i] then [i] + idx
    else
      var rest := Insert(keys, idx[1..], i);
      assert forall k :: 0 <= k < |rest| ==> rest[k] in rest;
      assert forall x :: x in rest ==> keys[idx[0]] >= keys[x];
      [idx[0]] + rest
  }

  /** A sorting operation exists: insert the first n indices one by one. */
  function InsertionOrder(keys: seq<real>, n: nat): (r: seq<nat>)
    requires n <= |keys|
    ensures |r| == n && Indexes(r, n) && Distinct(r) && IsDescending(keys, r)
    ensures n == |keys| ==> IsDescendingOrder(keys, r)
  {
    if n == 0 then []
    else
      var rest := InsertionOrder(keys, n - 1);
      var r := Insert(keys, rest, n - 1);
      assert forall k :: 0 <= k < |r| ==> r[k] in r;
      r
  }

  // ----- Best k scores (ops::TopK: tie order unspecified) -----

  ghost predicate IsTopK(xs: seq<real>, k: nat, ids: seq<nat>) {
    && |ids| == k && Indexes(ids, |xs|) && Distinct(ids)
    && IsDescending(xs, ids)
    && forall j, c :: 0 <= j < |xs| && 0 <= c < k && j !in ids ==> xs[j] <= xs[ids[c]]
  }

  ghost predicate SelectsTop(f: (seq<real>, nat) -> seq<nat>) {
    forall xs, k: nat :: k <= |xs| ==> IsTopK(xs, k, f(xs, k))
  }

  type TopKOp = f: (seq<real>, nat) -> seq<nat> | SelectsTop(f)
    witness ((xs: seq<real>, k: nat) => if k <= |xs| then TakeBest(xs, k) else [])

  function TakeBest(xs: seq<real>, k: nat): (r: seq<nat>)
    requires k <= |xs|
    ensures IsTopK(xs, k, r)
  {
    var order := InsertionOrder(xs, |xs|);
    assert forall j :: 0 <= j < |xs| && j !in order[..k] ==> exists p :: k <= p < |xs| && order[p] == j by {
      forall j | 0 <= j < |xs| && j !in order[..k] ensures exists p :: k <= p < |xs| && order[p] == j {
        PermutationOnto(order, |xs|, j);
        assert order == order[..k] + order[k..];
        var p :| 0 <= p < |order[k..]| && order[k..][p] == j;
        assert order[k + p] == j;
      }
    }
    order[..k]
  }

  /** Any two best-k selections carry the same scores, position by position. */
  lemma TopScoresUnique(xs: seq<real>, k: nat, a: seq<nat>, b: seq<nat>, c: nat)
    requires IsTopK(xs, k, a) && IsTopK(xs, k, b) && c < k
    ensures xs[a[c]] == xs[b[c]]
  {
    TopScoreAtMost(xs, k, a, b, c);
    TopScoreAtMost(xs, k, b, a, c);
  }

  lemma TopScoreAtMost(xs: seq<real>, k: nat, a: seq<nat>, b: seq<nat>, c: nat)
    requires IsTopK(xs, k, a) && IsTopK(xs, k, b) && c < k
    ensures xs[a[c]] <= xs[b[c]]
  {
    // One of a's first c + 1 selections is not among b's first c.
    if forall p :: 0 <= p <= c ==> a[p] in b[..c] {
      DistinctCardinality(a[..c + 1]);
      DistinctCardinality(b[..c]);
      assert forall x :: x in a[..c + 1] ==> x in b[..c];
      SubsetCardinality(Elements(a[..c + 1]), Elements(b[..c]));
      assert false;
    }
    var p :| 0 <= p <= c && a[p] !in b[..c];
    assert xs[a[c]] <= xs[a[p]];
    if a[p] in b {
      var q :| 0 <= q < k && b[q] == a[p];
      assert b == b[..c] + b[c..];
      assert xs[b[q]] <= xs[b[c]];
    }
  }

  // ----- Increasing indices -----

  ghost predicate StrictlyIncreasing(s: seq<nat>) {
    forall j, k :: 0 <= j < k < |s| ==> s[j] < s[k]
  }

  lemma AllIndices(alive: seq<nat>, n: nat)
    requires StrictlyIncreasing(alive) && Indexes(alive, n) && |alive| == n
    ensures alive == Iota(n)
  {
    var k := 0;
    while k < n
      invariant k <= n && forall j :: 0 <= j < k ==> alive[j] >= j
    {
      assert k > 0 ==> alive[k - 1] < alive[k];
      k := k + 1;
    }
    k := n;
    while k > 0
      invariant 0 <= k <= n && forall j :: k <= j < n ==> alive[j] <= j
    {
      k := k - 1;
      assert k + 1 < n ==> alive[k] < alive[k + 1];
    }
  }

  lemma GatherAll<T>(v: seq<T>)
    ensures Gather(v, Iota(|v|)) == v
  {
  }

  lemma GatherHolds<T>(v: seq<T>, idx: seq<nat>, i: nat)
    requires Indexes(idx, |v|) && i < |v|
    ensures i in idx ==> v[i] in Gather(v, idx)
  {
    if i in idx {
      var k :| 0 <= k < |idx| && idx[k] == i;
      assert Gather(v, idx)[k] == v[i];
    }
  }
}
