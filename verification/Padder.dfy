/** Padding removal: src/padder.cc. A [batch, time, ...] tensor is the row-major sequence of its time steps. */
module Padding {
  import opened RowMajor
  import opened Vectors

  /** The total length of the first i sentences. */
  function Offset(lengths: seq<nat>, i: nat): nat
    requires i <= |lengths|
  {
    if i == 0 then 0 else Offset(lengths, i - 1) + lengths[i - 1]
  }

  lemma {:induction false} OffsetMonotone(lengths: seq<nat>, i: nat, j: nat)
    requires i <= j <= |lengths|
    ensures Offset(lengths, i) <= Offset(lengths, j)
  {
    if i < j { OffsetMonotone(lengths, i, j - 1); }
  }

  predicate Uniform(lengths: seq<nat>, maxTime: nat) {
    forall i :: 0 <= i < |lengths| ==> lengths[i] == maxTime
  }

  /** The smallest multiple of m that is at least n. */
  ghost predicate LeastMultiple(r: nat, m: nat, n: nat)
    requires m > 0
  {
    r % m == 0 && n <= r && forall k: nat :: n <= k && k % m == 0 ==> r <= k
  }

  /** Position (b, t) of the padded tensor reads time step min(t, length - 1) of sentence b: an index into
      the flat tensor, -1 only if there is nothing before. */
  ghost function PadIndex(lengths: seq<nat>, b: nat, t: nat): int
    requires b < |lengths|
  {
    if t < lengths[b] then Offset(lengths, b) + t else Offset(lengths, b) + lengths[b] - 1
  }

  /** The flat tensor starts with the real time steps of the first n sentences. */
  ghost predicate RealSteps(lengths: seq<nat>, maxTime: nat, table: seq<nat>, n: nat)
    requires n <= |lengths|
  {
    && Offset(lengths, n) <= |table|
    && forall b, t :: 0 <= b < n && 0 <= t < lengths[b] ==> RealStep(lengths, maxTime, table, b, t)
  }

  ghost predicate RealStep(lengths: seq<nat>, maxTime: nat, table: seq<nat>, b: nat, t: nat)
    requires b < |lengths|
  {
    Offset(lengths, b) + t < |table| && table[Offset(lengths, b) + t] == Flat(b, t, maxTime)
  }

  ghost predicate PaddedSteps(lengths: seq<nat>, maxTime: nat, table: seq<int>, n: nat)
    requires n <= |lengths|
  {
    && |table| == n * maxTime
    && forall b, t :: 0 <= b < n && 0 <= t < maxTime ==> PaddedStep(lengths, maxTime, table, b, t)
  }

  ghost predicate PaddedStep(lengths: seq<nat>, maxTime: nat, table: seq<int>, b: nat, t: nat)
    requires b < |lengths|
  {
    Flat(b, t, maxTime) < |table| && table[Flat(b, t, maxTime)] == PadIndex(lengths, b, t)
  }

  /** The flat tensor is filled up with copies of its last time step. */
  ghost predicate Filled(table: seq<nat>, n: nat) {
    0 < n <= |table| && forall k :: n <= k < |table| ==> table[k] == table[n - 1]
  }

  lemma RealStepKept(lengths: seq<nat>, maxTime: nat, table: seq<nat>, more: seq<nat>, n: nat)
    requires n <= |lengths| && RealSteps(lengths, maxTime, table, n)
    ensures RealSteps(lengths, maxTime, table + more, n)
  {
    forall b, t | 0 <= b < n && 0 <= t < lengths[b] ensures RealStep(lengths, maxTime, table + more, b, t) {
      assert RealStep(lengths, maxTime, table, b, t);
    }
  }

  lemma PaddedStepKept(lengths: seq<nat>, maxTime: nat, table: seq<int>, more: seq<int>, n: nat)
    requires n < |lengths| && PaddedSteps(lengths, maxTime, table, n) && |more| == maxTime
    requires forall t :: 0 <= t < maxTime ==> more[t] == PadIndex(lengths, n, t)
    ensures PaddedSteps(lengths, maxTime, table + more, n + 1)
  {
    forall b, t | 0 <= b < n + 1 && 0 <= t < maxTime ensures PaddedStep(lengths, maxTime, table + more, b, t) {
      if b < n {
        assert PaddedStep(lengths, maxTime, table, b, t);
      }
    }
  }

  /** One sentence of the constructor's loop: its real steps and its padded row. */
  method AddSentence(lengths: seq<nat>, maxTime: nat, i: nat, paddedOffset: nat, flatOffset: nat)
    returns (steps: seq<nat>, row: seq<int>)
    requires i < |lengths| && paddedOffset == Flat(i, 0, maxTime) && flatOffset == Offset(lengths, i)
    ensures |steps| == lengths[i] && forall t :: 0 <= t < lengths[i] ==> steps[t] == Flat(i, t, maxTime)
    ensures |row| == Larger(lengths[i], maxTime) && forall t :: 0 <= t < |row| ==> row[t] == PadIndex(lengths, i, t)
  {
    steps, row := [], [];
    var length := lengths[i];
    var t := 0;
    while t < length
      invariant t == |steps| == |row| <= length
      invariant forall k :: 0 <= k < t ==> steps[k] == Flat(i, k, maxTime) && row[k] == PadIndex(lengths, i, k)
    {
      steps := steps + [paddedOffset + t];
      row := row + [flatOffset + t];
      t := t + 1;
    }
    while t < maxTime
      invariant t == |row| <= Larger(length, maxTime) && length <= t
      invariant forall k :: 0 <= k < t ==> row[k] == PadIndex(lengths, i, k)
    {
      row := row + [flatOffset + length - 1];
      t := t + 1;
    }
  }

  function Larger(a: nat, b: nat): nat { if a < b then b else a }

  /** The first n sentences fit into rows of `maxTime` steps. */
  ghost predicate Fit(lengths: seq<nat>, maxTime: nat, n: nat)
    requires n <= |lengths|
  {
    forall i :: 0 <= i < n ==> lengths[i] <= maxTime
  }

  /** The size of the padded table after n sentences. */
  function PaddedSize(lengths: seq<nat>, maxTime: nat, n: nat): nat
    requires n <= |lengths|
  {
    if n == 0 then 0 else PaddedSize(lengths, maxTime, n - 1) + Larger(lengths[n - 1], maxTime)
  }

  /** The padded table has the size of the padded tensor exactly if all sentences fit. */
  lemma {:induction false} PaddedSizeIff(lengths: seq<nat>, maxTime: nat, n: nat)
    requires n <= |lengths|
    ensures PaddedSize(lengths, maxTime, n) >= n * maxTime
    ensures PaddedSize(lengths, maxTime, n) == n * maxTime <==> Fit(lengths, maxTime, n)
  {
    if n > 0 {
      PaddedSizeIff(lengths, maxTime, n - 1);
      assert n * maxTime == (n - 1) * maxTime + maxTime;
    }
  }

  lemma NextRow(i: nat, maxTime: nat)
    ensures Flat(i + 1, 0, maxTime) == Flat(i, 0, maxTime) + maxTime
  {
  }

  lemma NoSentences(lengths: seq<nat>, maxTime: nat)
    ensures Flat(0, 0, maxTime) == 0 && RealSteps(lengths, maxTime, [], 0) && PaddedSteps(lengths, maxTime, [], 0)
  {
  }

  /** The two tables before the flat one is filled up. */
  method BuildTables(lengths: seq<nat>, maxTime: nat) returns (paddedToFlat: seq<nat>, flatToPadded: seq<int>)
    ensures |flatToPadded| == PaddedSize(lengths, maxTime, |lengths|)
    ensures |paddedToFlat| == Offset(lengths, |lengths|)
    ensures Fit(lengths, maxTime, |lengths|) ==>
              && RealSteps(lengths, maxTime, paddedToFlat, |lengths|)
              && Indexes(paddedToFlat, |lengths| * maxTime)
              && PaddedSteps(lengths, maxTime, flatToPadded, |lengths|)
  {
    hide RealSteps, PaddedSteps, Flat;
    paddedToFlat, flatToPadded := [], [];
    var paddedOffset, flatOffset := 0, 0;
    NoSentences(lengths, maxTime);
    var i := 0;
    while i < |lengths|
      invariant i <= |lengths| && paddedOffset == Flat(i, 0, maxTime) && flatOffset == Offset(lengths, i)
      invariant |paddedToFlat| == flatOffset && |flatToPadded| == PaddedSize(lengths, maxTime, i)
      invariant Fit(lengths, maxTime, i) ==>
                  && RealSteps(lengths, maxTime, paddedToFlat, i) && Indexes(paddedToFlat, i * maxTime)
                  && PaddedSteps(lengths, maxTime, flatToPadded, i)
    {
      var steps, row := AddSentence(lengths, maxTime, i, paddedOffset, flatOffset);
      if Fit(lengths, maxTime, i + 1) {
        SentenceAdded(lengths, maxTime, paddedToFlat, steps, i);
        PaddedStepKept(lengths, maxTime, flatToPadded, row, i);
      }
      NextRow(i, maxTime);
      paddedToFlat, flatToPadded := paddedToFlat + steps, flatToPadded + row;
      paddedOffset := paddedOffset + maxTime;
      flatOffset := flatOffset + lengths[i];
      i := i + 1;
    }
  }

  lemma SentenceAdded(lengths: seq<nat>, maxTime: nat, table: seq<nat>, steps: seq<nat>, i: nat)
    requires i < |lengths| && lengths[i] <= maxTime
    requires |table| == Offset(lengths, i) && RealSteps(lengths, maxTime, table, i) && Indexes(table, i * maxTime)
    requires |steps| == lengths[i] && forall t :: 0 <= t < lengths[i] ==> steps[t] == Flat(i, t, maxTime)
    ensures RealSteps(lengths, maxTime, table + steps, i + 1) && Indexes(table + steps, (i + 1) * maxTime)
  {
    hide Flat, RealStep;
    var all := table + steps;
    StepsInRange(maxTime, table, steps, i);
    RealStepKept(lengths, maxTime, table, steps, i);
    forall b, t | 0 <= b < i + 1 && 0 <= t < lengths[b] ensures RealStep(lengths, maxTime, all, b, t) {
      if b < i {
        assert RealStep(lengths, maxTime, all, b, t);
      } else {
        NewStep(lengths, maxTime, table, steps, i, t);
      }
    }
  }

  lemma NewStep(lengths: seq<nat>, maxTime: nat, table: seq<nat>, steps: seq<nat>, i: nat, t: nat)
    requires i < |lengths| && |table| == Offset(lengths, i) && t < |steps| && steps[t] == Flat(i, t, maxTime)
    ensures RealStep(lengths, maxTime, table + steps, i, t)
  {
  }

  lemma StepsInRange(maxTime: nat, table: seq<nat>, steps: seq<nat>, i: nat)
    requires Indexes(table, i * maxTime) && |steps| <= maxTime
    requires forall t :: 0 <= t < |steps| ==> steps[t] == Flat(i, t, maxTime)
    ensures Indexes(table + steps, (i + 1) * maxTime)
  {
    hide Flat;
    ProductMonotone(i, i + 1, maxTime);
    forall t | 0 <= t < |steps| ensures steps[t] < (i + 1) * maxTime {
      FlatBound(i, t, maxTime, i + 1);
    }
  }

  /** The loop that fills the flat table up to a multiple. */
  method FillUp(table: seq<nat>, multiple: nat) returns (r: seq<nat>)
    requires multiple > 0
    ensures table <= r && LeastMultiple(|r|, multiple, |table|)
    ensures table == [] ==> r == []
    ensures table != [] ==> Filled(r, |table|)
  {
    r := table;
    while |r| % multiple != 0
      invariant table <= r && (table == [] ==> r == []) && (table != [] ==> Filled(r, |table|))
      invariant forall k :: |table| <= k < |r| ==> k % multiple != 0
      decreases if |r| % multiple == 0 then 0 else multiple - |r| % multiple
    {
      NextRemainder(|r|, multiple);
      r := r + [r[|r| - 1]];
    }
  }

  lemma NextRemainder(n: nat, m: nat)
    requires m > 0 && n % m != 0
    ensures (n + 1) % m == 0 || (n + 1) % m == n % m + 1
  {
    var q := n / m;
    assert n == q * m + n % m;
    if n % m + 1 < m {
      FlatParts(q, n % m + 1, m);
    } else {
      assert n + 1 == (q + 1) * m;
      FlatParts(q + 1, 0, m);
    }
  }

  class Padder {
    const batchSize: nat
    const maxTime: nat
    const paddedToFlat: seq<nat>  // empty if there is nothing to remove
    const flatToPadded: seq<int>
    ghost const lengths: seq<nat>
    ghost const multiple: nat

    ghost predicate Valid() {
      && batchSize == |lengths| && multiple > 0
      && (forall i :: 0 <= i < |lengths| ==> lengths[i] <= maxTime)
      && (Uniform(lengths, maxTime) ==> paddedToFlat == [] && flatToPadded == [])
      && (!Uniform(lengths, maxTime) ==>
            && RealSteps(lengths, maxTime, paddedToFlat, |lengths|)
            && PaddedSteps(lengths, maxTime, flatToPadded, |lengths|)
            && LeastMultiple(|paddedToFlat|, multiple, Total())
            && Indexes(paddedToFlat, batchSize * maxTime)
            && (Total() == 0 ==> paddedToFlat == []) && (Total() > 0 ==> Filled(paddedToFlat, Total())))
    }

    ghost function Total(): nat { Offset(lengths, |lengths|) }

    constructor (lengths: seq<nat>, maxTime: nat, ghost multiple: nat, toFlat: seq<nat>, toPadded: seq<int>)
      ensures this.lengths == lengths && this.maxTime == maxTime && this.multiple == multiple
      ensures batchSize == |lengths| && paddedToFlat == toFlat && flatToPadded == toPadded
    {
      this.batchSize, this.maxTime := |lengths|, maxTime;
      this.paddedToFlat, this.flatToPadded := toFlat, toPadded;
      this.lengths, this.multiple := lengths, multiple;
    }

    /** The source's constructor. A negative `time` stands for the longest length. It throws (null) exactly if
        a length exceeds the given time, since the padded table then does not fit its storage. */
    static method Create(lengths: seq<nat>, time: int, multiple: nat) returns (r: Padder?)
      requires multiple > 0 && (time < 0 ==> lengths != [])
      ensures r == null <==> time >= 0 && exists i :: 0 <= i < |lengths| && lengths[i] > time
      ensures r != null ==>
                && r.Valid() && r.lengths == lengths && r.multiple == multiple
                && (if time < 0 then r.maxTime in lengths else r.maxTime == time)
    {
      var max := if time < 0 then 0 else time;
      if time < 0 {
        max := MaxElement(lengths);
      }
      var i := 0;
      while i < |lengths| && lengths[i] == max
        invariant i <= |lengths| && forall k :: 0 <= k < i ==> lengths[k] == max
      {
        i := i + 1;
      }
      var toFlat, toPadded: seq<int> := [], [];
      if i < |lengths| {
        toFlat, toPadded := BuildTables(lengths, max);
        PaddedSizeIff(lengths, max, |lengths|);
        ghost var steps := toFlat;
        toFlat := FillUp(toFlat, multiple);
        if |toPadded| != |lengths| * max {
          return null;
        }
        assert toFlat == steps + toFlat[|steps|..];
        RealStepKept(lengths, max, steps, toFlat[|steps|..], |lengths|);
      }
      r := new Padder(lengths, max, multiple, toFlat, toPadded);
    }

    /** Every index for adding padding points into the flat tensor. */
    ghost predicate InRange() {
      forall k :: 0 <= k < |flatToPadded| ==> 0 <= flatToPadded[k] < |paddedToFlat|
    }

    /** That is so exactly when the first sentence is not empty (or nothing is padded). */
    lemma InRangeIff()
      requires Valid()
      ensures InRange() <==> Uniform(lengths, maxTime) || lengths[0] > 0
    {
      if !Uniform(lengths, maxTime) {
        if lengths[0] == 0 {
          ShorterFirst();
          assert PaddedStep(lengths, maxTime, flatToPadded, 0, 0);
        } else {
          forall k | 0 <= k < |flatToPadded| ensures 0 <= flatToPadded[k] < |paddedToFlat| {
            PositionOf(k, batchSize, maxTime);
            assert PaddedStep(lengths, maxTime, flatToPadded, RowOf(k, maxTime), ColumnOf(k, maxTime));
            PadIndexInRange(lengths, RowOf(k, maxTime), ColumnOf(k, maxTime));
          }
        }
      }
    }

    lemma ShorterFirst()
      requires Valid() && !Uniform(lengths, maxTime) && lengths[0] == 0
      ensures maxTime > 0
    {
      var i :| 0 <= i < |lengths| && lengths[i] != maxTime;
    }

    /** `remove_padding` on a value. */
    ghost function Removed<T>(x: seq<T>): seq<T>
      requires Valid() && |x| == batchSize * maxTime
    {
      if paddedToFlat == [] then x else Gather(x, paddedToFlat)
    }

    ghost function Indices(): (r: seq<nat>)
      requires InRange()
      ensures |r| == |flatToPadded| && forall k :: 0 <= k < |r| ==> r[k] == flatToPadded[k]
    {
      seq(|flatToPadded|, k requires 0 <= k < |flatToPadded| && flatToPadded[k] >= 0 => flatToPadded[k])
    }

    /** `add_padding` on a value. */
    ghost function Added<T>(y: seq<T>): seq<T>
      requires Valid() && InRange()
      requires |y| == if paddedToFlat == [] then batchSize * maxTime else |paddedToFlat|
    {
      if flatToPadded == [] then y else Gather(y, Indices())
    }

    method RemovePadding<T>(x: seq<T>) returns (y: seq<T>)
      requires Valid() && |x| == batchSize * maxTime
      ensures y == Removed(x)
    {
      if paddedToFlat == [] {
        return x;
      }
      y := IndexVector(x, paddedToFlat);
    }

    method AddPadding<T>(y: seq<T>) returns (x: seq<T>)
      requires Valid() && InRange()
      requires |y| == if paddedToFlat == [] then batchSize * maxTime else |paddedToFlat|
      ensures x == Added(y)
    {
      if flatToPadded == [] {
        return y;
      }
      x := [];
      var k := 0;
      while k < |flatToPadded|
        invariant k <= |flatToPadded| && x == Added(y)[..k]
      {
        assert Added(y)[k] == y[flatToPadded[k]];
        x := x + [y[flatToPadded[k]]];
        k := k + 1;
      }
    }

    lemma RemovedAt<T>(x: seq<T>, b: nat, t: nat)
      requires Valid() && |x| == batchSize * maxTime && !Uniform(lengths, maxTime)
      requires b < batchSize && t < lengths[b]
      ensures Flat(b, t, maxTime) < |x| && Offset(lengths, b) + t < |paddedToFlat|
      ensures paddedToFlat != [] && Removed(x)[Offset(lengths, b) + t] == x[Flat(b, t, maxTime)]
    {
      assert RealStep(lengths, maxTime, paddedToFlat, b, t);
      FlatBound(b, t, maxTime, batchSize);
    }

    lemma AddedAt<T>(y: seq<T>, b: nat, t: nat)
      requires Valid() && InRange() && !Uniform(lengths, maxTime) && |y| == |paddedToFlat| > 0
      requires b < batchSize && t < maxTime
      ensures |Added(y)| == batchSize * maxTime
      ensures Flat(b, t, maxTime) < |flatToPadded| && 0 <= PadIndex(lengths, b, t) < |y|
      ensures Added(y)[Flat(b, t, maxTime)] == y[PadIndex(lengths, b, t)]
    {
      assert PaddedStep(lengths, maxTime, flatToPadded, b, t);
    }

    /** Padding added after removal: real steps come back, padding repeats the sentence's last step. */
    lemma AddAfterRemove<T>(x: seq<T>, b: nat, t: nat)
      requires Valid() && InRange() && |x| == batchSize * maxTime && b < batchSize && t < maxTime && lengths[b] > 0
      ensures var last := if t < lengths[b] then t else lengths[b] - 1;
              && Flat(b, t, maxTime) < |Added(Removed(x))| && Flat(b, last, maxTime) < |x|
              && Added(Removed(x))[Flat(b, t, maxTime)] == x[Flat(b, last, maxTime)]
    {
      var last := if t < lengths[b] then t else lengths[b] - 1;
      FlatBound(b, t, maxTime, batchSize);
      FlatBound(b, last, maxTime, batchSize);
      if !Uniform(lengths, maxTime) {
        RemovedAt(x, b, last);
        AddedAt(Removed(x), b, t);
      }
    }

    /** Removal after padding gives back every tensor that removal produces. */
    lemma RemoveAfterAdd<T>(x: seq<T>)
      requires Valid() && InRange() && |x| == batchSize * maxTime
      ensures |Added(Removed(x))| == |x| && Removed(Added(Removed(x))) == Removed(x)
    {
      var y := Removed(x);
      if !Uniform(lengths, maxTime) {
        InRangeIff();
        OffsetMonotone(lengths, 1, |lengths|);
        forall k | 0 <= k < |paddedToFlat| ensures Removed(Added(y))[k] == y[k] {
          StepRestored(x, k);
        }
      }
    }

    lemma StepRestored<T>(x: seq<T>, k: nat)
      requires Valid() && InRange() && |x| == batchSize * maxTime && !Uniform(lengths, maxTime) && Total() > 0
      requires k < |paddedToFlat|
      ensures |Added(Removed(x))| == |x| && Removed(Added(Removed(x)))[k] == Removed(x)[k]
    {
      hide RealSteps, PaddedSteps, LeastMultiple, Flat, Offset, Added, Indices;
      var y := Removed(x);
      var j := if k < Total() then k else Total() - 1;
      var b, t := Locate(lengths, |lengths|, j);
      RemovedAt(x, b, t);
      AddedAt(y, b, t);
      RemovedAt(Added(y), b, t);
      assert paddedToFlat[k] == paddedToFlat[j];
    }
  }

  /** An empty sentence in front of a longer one: its padding reads index -1 of the flat tensor. */
  method EmptyFirst(multiple: nat) returns (p: Padder)
    requires multiple > 0
    ensures p.Valid() && p.lengths == [0, 1] && p.flatToPadded == [-1, 0] && !p.InRange()
  {
    var r := Padder.Create([0, 1], -1, multiple);
    assert r.lengths[1] <= r.maxTime;
    p := r;
    EmptyFirstTable(p);
  }

  lemma EmptyFirstTable(p: Padder)
    requires p.Valid() && p.lengths == [0, 1] && p.maxTime == 1
    ensures p.flatToPadded == [-1, 0] && !p.InRange()
  {
    assert p.lengths[0] != p.maxTime;
    assert Offset([0, 1], 1) == 0;
    assert PaddedStep(p.lengths, 1, p.flatToPadded, 0, 0) && PaddedStep(p.lengths, 1, p.flatToPadded, 1, 0);
  }

  lemma PadIndexInRange(lengths: seq<nat>, b: nat, t: nat)
    requires b < |lengths| && lengths[0] > 0
    ensures 0 <= PadIndex(lengths, b, t) < Offset(lengths, |lengths|)
  {
    OffsetMonotone(lengths, 1, |lengths|);
    OffsetMonotone(lengths, b + 1, |lengths|);
    if b > 0 {
      OffsetMonotone(lengths, 1, b);
    }
  }

  /** The sentence and time step of position j of the flat tensor. */
  lemma {:induction false} Locate(lengths: seq<nat>, n: nat, j: nat) returns (b: nat, t: nat)
    requires n <= |lengths| && j < Offset(lengths, n)
    ensures b < n && t < lengths[b] && j == Offset(lengths, b) + t
  {
    if j < Offset(lengths, n - 1) {
      b, t := Locate(lengths, n - 1, j);
    } else {
      b, t := n - 1, j - Offset(lengths, n - 1);
    }
  }

  /** `std::max_element`. */
  method MaxElement(s: seq<nat>) returns (m: nat)
    requires s != []
    ensures m in s && forall i :: 0 <= i < |s| ==> s[i] <= m
  {
    m := s[0];
    var i := 1;
    while i < |s|
      invariant 1 <= i <= |s| && m in s && forall k :: 0 <= k < i ==> s[k] <= m
    {
      if m < s[i] {
        m := s[i];
      }
      i := i + 1;
    }
  }
}
