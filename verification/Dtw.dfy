/** Dynamic time warping on negated similarities: src/dtw.cc.

    `NegativeDtw` fills the cost and trace tables in place, column by column, and walks the trace
    back. `CostAt` and `Back` are its specification; the lemmas relate them to warping paths. */
module Dtw {

  /** A cost cell. The source starts every cell at float infinity. */
  datatype Cost = Inf | Fin(v: real)

  predicate Less(a: Cost, b: Cost) {
    a.Fin? && (b.Inf? || a.v < b.v)
  }

  function Plus(v: real, c: Cost): Cost {
    if c.Inf? then Inf else Fin(v + c.v)
  }

  /** A row-major tensor of shape n x m. */
  datatype Tensor = Tensor(data: seq<real>, n: nat, m: nat) {
    ghost predicate Valid() { |data| == n * m }

    function At(i: nat, j: nat): real
      requires Valid() && i < n && j < m
    {
      InRange(i, j);
      data[i * m + j]
    }

    lemma InRange(i: nat, j: nat)
      requires i < n && j < m
      ensures i * m + j < n * m
    {
      assert (i + 1) * m <= n * m;
    }
  }

  /** The three-way comparison of the table fill: the chosen predecessor cost and its trace code. */
  function Pick(c0: Cost, c1: Cost, c2: Cost): (Cost, int) {
    if Less(c0, c1) && Less(c0, c2) then (c0, 0)
    else if Less(c1, c0) && Less(c1, c2) then (c1, 1)
    else (c2, 2)
  }

  function CostAt(x: Tensor, i: nat, j: nat): Cost
    requires x.Valid() && i <= x.n && j <= x.m
    decreases i + j
  {
    if i == 0 && j == 0 then Fin(0.0)
    else if i == 0 || j == 0 then Inf
    else Plus(-x.At(i - 1, j - 1), PickAt(x, i, j).0)
  }

  function PickAt(x: Tensor, i: nat, j: nat): (Cost, int)
    requires x.Valid() && 1 <= i <= x.n && 1 <= j <= x.m
    decreases i + j, 0
  {
    Pick(CostAt(x, i - 1, j - 1), CostAt(x, i - 1, j), CostAt(x, i, j - 1))
  }

  /** The trace table after `backtrace` has overwritten row 0 and then column 0. */
  function TraceAt(x: Tensor, i: nat, j: nat): int
    requires x.Valid() && i <= x.n && j <= x.m
  {
    if j == 0 then 1 else if i == 0 then 2 else PickAt(x, i, j).1
  }

  /** The path that the trace table encodes from the origin to cell (i, j). */
  function Back(x: Tensor, i: nat, j: nat): seq<(int, int)>
    requires x.Valid() && i <= x.n && j <= x.m
    decreases i + j
  {
    if i == 0 && j == 0 then []
    else
      var t := TraceAt(x, i, j);
      (if t == 0 then Back(x, i - 1, j - 1) else if t == 1 then Back(x, i - 1, j) else Back(x, i, j - 1))
      + [(i - 1, j - 1)]
  }

  function Reverse<T>(s: seq<T>): seq<T> {
    if s == [] then [] else Reverse(s[1..]) + [s[0]]
  }

  lemma {:induction false} ReverseAppend<T>(s: seq<T>, e: T)
    ensures Reverse(s + [e]) == [e] + Reverse(s)
  {
    if s == [] {
    } else {
      assert (s + [e])[1..] == s[1..] + [e];
      ReverseAppend(s[1..], e);
    }
  }

  /** `std::reverse` on the finished vector. */
  method ReverseInPlace<T>(s: seq<T>) returns (r: seq<T>)
    ensures r == Reverse(s)
  {
    r := [];
    var k := 0;
    while k < |s|
      invariant k <= |s|
      invariant r == Reverse(s[..k])
    {
      assert s[..k + 1] == s[..k] + [s[k]];
      ReverseAppend(s[..k], s[k]);
      r := [s[k]] + r;
      k := k + 1;
    }
    assert s[..k] == s;
  }

  datatype Outcome = Path(path: seq<(int, int)>) | UnexpectedTrace

  /** The trace table holds every choice, and the borders lead along the first row and column. */
  ghost predicate TraceTable(trace: array2<int>, x: Tensor)
    reads trace
    requires x.Valid() && trace.Length0 == x.n + 1 && trace.Length1 == x.m + 1
  {
    forall i, j :: 0 <= i <= x.n && 0 <= j <= x.m && i + j > 0 ==> trace[i, j] == TraceAt(x, i, j)
  }

  /** The two loops that set the borders. */
  method SetBorders(trace: array2<int>, ghost x: Tensor)
    requires x.Valid() && trace.Length0 == x.n + 1 && trace.Length1 == x.m + 1
    requires forall i, j :: 1 <= i <= x.n && 1 <= j <= x.m ==> trace[i, j] == PickAt(x, i, j).1
    modifies trace
    ensures TraceTable(trace, x)
  {
    hide PickAt;
    for k := 0 to trace.Length1
      invariant forall i, j :: 1 <= i <= x.n && 1 <= j <= x.m ==> trace[i, j] == PickAt(x, i, j).1
      invariant forall k' :: 0 <= k' < k ==> trace[0, k'] == 2
    {
      trace[0, k] := 2;
    }
    for k := 0 to trace.Length0
      invariant forall i, j :: 1 <= i <= x.n && 1 <= j <= x.m ==> trace[i, j] == PickAt(x, i, j).1
      invariant forall k' :: 1 <= k' < trace.Length1 ==> trace[0, k'] == 2
      invariant forall k' :: 0 <= k' < k ==> trace[k', 0] == 1
    {
      trace[k, 0] := 1;
    }
  }

  /** Every trace is one of three, and never leads out of the table. */
  lemma TraceKinds(x: Tensor, i: nat, j: nat)
    requires x.Valid() && i <= x.n && j <= x.m && i + j > 0
    ensures var t := TraceAt(x, i, j);
            (t == 0 && i > 0 && j > 0) || (t == 1 && i > 0) || (t == 2 && j > 0)
  {
    hide CostAt;
  }

  lemma BackUnfold(x: Tensor, i: nat, j: nat)
    requires x.Valid() && i <= x.n && j <= x.m && i + j > 0
    ensures var t := TraceAt(x, i, j);
            && ((t == 0 && i > 0 && j > 0) || (t == 1 && i > 0) || (t == 2 && j > 0))
            && Back(x, i, j) == Back(x, if t == 2 then i else i - 1, if t == 1 then j else j - 1) + [(i - 1, j - 1)]
  {
    hide TraceAt;
    TraceKinds(x, i, j);
  }

  /** One step of the path, appended to the reversed result. */
  lemma BackStep(x: Tensor, i: nat, j: nat, before: seq<(int, int)>)
    requires x.Valid() && i <= x.n && j <= x.m && i + j > 0
    ensures var t := TraceAt(x, i, j);
            && ((t == 0 && i > 0 && j > 0) || (t == 1 && i > 0) || (t == 2 && j > 0))
            && Back(x, i, j) + Reverse(before)
               == Back(x, if t == 2 then i else i - 1, if t == 1 then j else j - 1) + Reverse(before + [(i - 1, j - 1)])
  {
    hide TraceAt, Back, Reverse;
    BackUnfold(x, i, j);
    ReverseAppend(before, (i - 1, j - 1));
  }

  /** The backtrace over the filled table. It never meets the "unexpected trace" error. */
  method Backtrace(trace: array2<int>, ghost x: Tensor) returns (r: Outcome)
    requires x.Valid() && trace.Length0 == x.n + 1 && trace.Length1 == x.m + 1
    requires forall i, j :: 1 <= i <= x.n && 1 <= j <= x.m ==> trace[i, j] == PickAt(x, i, j).1
    modifies trace
    ensures r == Path(Back(x, x.n, x.m))
  {
    hide TraceAt, Back, Reverse;
    var i, j := trace.Length0 - 1, trace.Length1 - 1;
    SetBorders(trace, x);
    var result := [];
    NothingYet(x);
    while i > 0 || j > 0
      invariant 0 <= i <= x.n && 0 <= j <= x.m && TraceTable(trace, x)
      invariant Back(x, x.n, x.m) == Back(x, i, j) + Reverse(result)
      decreases i + j
    {
      BackStep(x, i, j, result);
      result := result + [(i - 1, j - 1)];
      var t := trace[i, j];
      if t == 0 {
        i, j := i - 1, j - 1;
      } else if t == 1 {
        i := i - 1;
      } else if t == 2 {
        j := j - 1;
      } else {
        return UnexpectedTrace;
      }
    }
    result := ReverseInPlace(result);
    r := Path(result);
  }

  lemma NothingYet(x: Tensor)
    requires x.Valid()
    ensures Back(x, x.n, x.m) == Back(x, x.n, x.m) + Reverse([]) && Back(x, 0, 0) == []
  {
  }

  method NegativeDtw(x: Tensor) returns (r: Outcome, total: Cost)
    requires x.Valid()
    ensures r == Path(Back(x, x.n, x.m))
    ensures total == CostAt(x, x.n, x.m)
    ensures x.n >= 1 && x.m >= 1 ==>
      IsWarpPath(r.path, x.n, x.m) && Inside(r.path, x) && total == Fin(PathCost(x, r.path))
  {
    var cost := new Cost[x.n + 1, x.m + 1]((_, _) => Inf);
    var trace := new int[x.n + 1, x.m + 1]((_, _) => -1);
    cost[0, 0] := Fin(0.0);
    var j := 1;
    while j < x.m + 1
      invariant 1 <= j <= x.m + 1
      invariant Filled(x, cost, trace, j, 1)
    {
      var i := 1;
      while i < x.n + 1
        invariant 1 <= i <= x.n + 1
        invariant Filled(x, cost, trace, j, i)
      {
        FillCell(x, cost, trace, i, j);
        i := i + 1;
      }
      j := j + 1;
    }
    total := cost[x.n, x.m];
    r := Backtrace(trace, x);
    if x.n >= 1 && x.m >= 1 {
      BackIsPath(x, x.n, x.m);
      WarpPathInside(r.path, x, x.n, x.m);
    }
  }

  /** One iteration of the inner loop. */
  method FillCell(x: Tensor, cost: array2<Cost>, trace: array2<int>, i: nat, j: nat)
    requires x.Valid() && 1 <= i <= x.n && 1 <= j <= x.m
    requires Filled(x, cost, trace, j, i)
    modifies cost, trace
    ensures Filled(x, cost, trace, j, i + 1)
  {
    var c0, c1, c2 := cost[i - 1, j - 1], cost[i - 1, j], cost[i, j - 1];
    assert c0 == CostAt(x, i - 1, j - 1) && c1 == CostAt(x, i - 1, j) && c2 == CostAt(x, i, j - 1);
    var (c, t) := Pick(c0, c1, c2);
    assert (c, t) == PickAt(x, i, j);
    var v := x.At(i - 1, j - 1);
    assert Plus(-v, c) == CostAt(x, i, j);
    cost[i, j] := Plus(-v, c);
    trace[i, j] := t;
  }

  /** Columns before j, the first i - 1 interior cells of column j, and the border are final. */
  ghost predicate Filled(x: Tensor, cost: array2<Cost>, trace: array2<int>, j: int, i: int)
    requires x.Valid()
    reads cost, trace
  {
    && cost.Length0 == trace.Length0 == x.n + 1
    && cost.Length1 == trace.Length1 == x.m + 1
    && (forall i', j' :: 0 <= i' <= x.n && 0 <= j' <= x.m && (i' == 0 || j' < j || (j' == j && i' < i)) ==>
          cost[i', j'] == CostAt(x, i', j'))
    && (forall i', j' :: 1 <= i' <= x.n && 1 <= j' <= x.m && (j' < j || (j' == j && i' < i)) ==>
          trace[i', j'] == PickAt(x, i', j').1)
  }

  // ----- Warping paths -----

  ghost predicate UnitStep(a: (int, int), b: (int, int)) {
    || (b.0 == a.0 + 1 && b.1 == a.1)
    || (b.0 == a.0 && b.1 == a.1 + 1)
    || (b.0 == a.0 + 1 && b.1 == a.1 + 1)
  }

  /** A path from (0, 0) to (i - 1, j - 1) by unit steps right, down or diagonal. */
  ghost predicate IsWarpPath(p: seq<(int, int)>, i: nat, j: nat) {
    && |p| > 0 && p[0] == (0, 0) && p[|p| - 1] == (i - 1, j - 1)
    && forall k :: 0 <= k < |p| - 1 ==> UnitStep(p[k], p[k + 1])
  }

  ghost predicate Inside(p: seq<(int, int)>, x: Tensor) {
    forall k :: 0 <= k < |p| ==> 0 <= p[k].0 < x.n && 0 <= p[k].1 < x.m
  }

  lemma {:induction false} WarpPathInside(p: seq<(int, int)>, x: Tensor, i: nat, j: nat)
    requires IsWarpPath(p, i, j) && i <= x.n && j <= x.m
    ensures Inside(p, x)
  {
    var last := p[|p| - 1];
    if |p| > 1 {
      var init := p[..|p| - 1];
      var l := init[|init| - 1];
      assert UnitStep(p[|p| - 2], p[|p| - 1]);
      PrefixNonNegative(p, |p| - 2);
      WarpPathInside(init, x, l.0 + 1, l.1 + 1);
    }
  }

  lemma {:induction false} PrefixNonNegative(p: seq<(int, int)>, k: nat)
    requires k < |p| && p[0] == (0, 0)
    requires forall k :: 0 <= k < |p| - 1 ==> UnitStep(p[k], p[k + 1])
    ensures p[k].0 >= 0 && p[k].1 >= 0
  {
    if k > 0 {
      PrefixNonNegative(p, k - 1);
      assert UnitStep(p[k - 1], p[k]);
    }
  }

  /** The negated similarity sum along a path (0 for cells outside the tensor, of which there are none). */
  ghost function PathCost(x: Tensor, p: seq<(int, int)>): real
    requires x.Valid()
  {
    if p == [] then 0.0
    else
      var q := p[|p| - 1];
      PathCost(x, p[..|p| - 1])
      - (if 0 <= q.0 < x.n && 0 <= q.1 < x.m then x.At(q.0, q.1) else 0.0)
  }

  lemma PathExtend(x: Tensor, q: seq<(int, int)>, pi: nat, pj: nat, i: nat, j: nat)
    requires x.Valid() && 1 <= i <= x.n && 1 <= j <= x.m && IsWarpPath(q, pi, pj)
    requires UnitStep((pi - 1, pj - 1), (i - 1, j - 1))
    ensures IsWarpPath(q + [(i - 1, j - 1)], i, j)
    ensures PathCost(x, q + [(i - 1, j - 1)]) == PathCost(x, q) - x.At(i - 1, j - 1)
  {
    var p := q + [(i - 1, j - 1)];
    assert p[..|p| - 1] == q;
    forall k | 0 <= k < |p| - 1 ensures UnitStep(p[k], p[k + 1]) {
      if k < |q| - 1 {
        assert p[k] == q[k] && p[k + 1] == q[k + 1];
      }
    }
  }

  lemma {:induction false} CostFinite(x: Tensor, i: nat, j: nat)
    requires x.Valid() && 1 <= i <= x.n && 1 <= j <= x.m
    ensures CostAt(x, i, j).Fin?
    decreases i + j
  {
    if i == 1 && j == 1 {
      assert CostAt(x, 0, 0) == Fin(0.0) && CostAt(x, 0, 1) == Inf && CostAt(x, 1, 0) == Inf;
    } else if j == 1 {
      CostFinite(x, i - 1, j);
      assert CostAt(x, i - 1, 0) == Inf && CostAt(x, i, 0) == Inf;
    } else {
      CostFinite(x, i, j - 1);
    }
    PickFinite(CostAt(x, i - 1, j - 1), CostAt(x, i - 1, j), CostAt(x, i, j - 1));
  }

  lemma PickFinite(c0: Cost, c1: Cost, c2: Cost)
    requires c2.Fin? || (c1.Fin? && c0.Inf?) || (c0.Fin? && c1.Inf?)
    ensures Pick(c0, c1, c2).0.Fin?
  {
  }

  /** The predecessor cell that the trace of an interior cell names. */
  ghost function Pred(x: Tensor, i: nat, j: nat): (r: (nat, nat))
    requires x.Valid() && 1 <= i <= x.n && 1 <= j <= x.m
    ensures r.0 <= x.n && r.1 <= x.m && r.0 + r.1 < i + j
    ensures PickAt(x, i, j).0 == CostAt(x, r.0, r.1)
    ensures Back(x, i, j) == Back(x, r.0, r.1) + [(i - 1, j - 1)]
  {
    var t := PickAt(x, i, j).1;
    assert t == TraceAt(x, i, j);
    if t == 0 then (i - 1, j - 1) else if t == 1 then (i - 1, j) else (i, j - 1)
  }

  lemma PredInterior(x: Tensor, i: nat, j: nat)
    requires x.Valid() && 1 <= i <= x.n && 1 <= j <= x.m
    ensures if i == 1 && j == 1 then Pred(x, i, j) == (0, 0)
            else Pred(x, i, j).0 >= 1 && Pred(x, i, j).1 >= 1
  {
    if i == 1 && j == 1 {
      assert CostAt(x, 0, 0) == Fin(0.0) && CostAt(x, 0, 1) == Inf && CostAt(x, 1, 0) == Inf;
    } else if j == 1 {
      CostFinite(x, i - 1, j);
      assert CostAt(x, i - 1, 0) == Inf && CostAt(x, i, 0) == Inf;
    } else if i == 1 {
      CostFinite(x, i, j - 1);
      assert CostAt(x, 0, j - 1) == Inf && CostAt(x, 0, j) == Inf;
    }
  }

  /** The traced path is a warping path and its negated sum is the tabulated cost. */
  lemma {:induction false} BackIsPath(x: Tensor, i: nat, j: nat)
    requires x.Valid() && 1 <= i <= x.n && 1 <= j <= x.m
    ensures IsWarpPath(Back(x, i, j), i, j)
    ensures CostAt(x, i, j) == Fin(PathCost(x, Back(x, i, j)))
    decreases i + j
  {
    hide Back, IsWarpPath, PathCost, PickAt;
    PredInterior(x, i, j);
    var (pi, pj) := Pred(x, i, j);
    if i == 1 && j == 1 {
      FirstCell(x);
    } else {
      BackIsPath(x, pi, pj);
      PathExtend(x, Back(x, pi, pj), pi, pj, i, j);
    }
  }

  lemma FirstCell(x: Tensor)
    requires x.Valid() && 1 <= x.n && 1 <= x.m
    ensures IsWarpPath(Back(x, 0, 0) + [(0, 0)], 1, 1)
    ensures PathCost(x, Back(x, 0, 0) + [(0, 0)]) == -x.At(0, 0)
  {
    var p: seq<(int, int)> := [(0, 0)];
    assert Back(x, 0, 0) + [(0, 0)] == p && p[..0] == [];
  }

  /** Which path is traced, also among equally cheap ones: it comes from the diagonal or from above only if that is
      strictly cheaper than both others, and else from the left. */
  lemma TraceRule(x: Tensor, i: nat, j: nat)
    requires x.Valid() && 1 <= i <= x.n && 1 <= j <= x.m
    ensures var c0, c1, c2 := CostAt(x, i - 1, j - 1), CostAt(x, i - 1, j), CostAt(x, i, j - 1);
            var diagonal := c0.Fin? && (c1.Inf? || c0.v < c1.v) && (c2.Inf? || c0.v < c2.v);
            var above := c1.Fin? && (c0.Inf? || c1.v < c0.v) && (c2.Inf? || c1.v < c2.v);
            && Back(x, i, j)
               == (if diagonal then Back(x, i - 1, j - 1) else if above then Back(x, i - 1, j) else Back(x, i, j - 1))
                  + [(i - 1, j - 1)]
            && CostAt(x, i, j) == Plus(-x.At(i - 1, j - 1), if diagonal then c0 else if above then c1 else c2)
  {
  }

  // ----- Optimality -----

  ghost predicate Optimal(x: Tensor, i: nat, j: nat)
    requires x.Valid() && 1 <= i <= x.n && 1 <= j <= x.m
  {
    CostAt(x, i, j).Fin? &&
    forall p :: IsWarpPath(p, i, j) ==> CostAt(x, i, j).v <= PathCost(x, p)
  }

  /** The cells where the comparisons skip a tied minimum: c0 == c1 < c2 falls through to c2. */
  ghost predicate TieSkipped(x: Tensor, i: nat, j: nat)
    requires x.Valid() && 1 <= i <= x.n && 1 <= j <= x.m
  {
    CostAt(x, i - 1, j - 1) == CostAt(x, i - 1, j) && Less(CostAt(x, i - 1, j), CostAt(x, i, j - 1))
  }

  lemma {:induction false} PathCostAtLeast(x: Tensor, i: nat, j: nat, p: seq<(int, int)>)
    requires x.Valid() && 1 <= i <= x.n && 1 <= j <= x.m && IsWarpPath(p, i, j)
    requires forall i', j' :: 1 <= i' <= i && 1 <= j' <= j ==> !TieSkipped(x, i', j')
    ensures CostAt(x, i, j).Fin? && CostAt(x, i, j).v <= PathCost(x, p)
    decreases |p|
  {
    CostFinite(x, i, j);
    PredInterior(x, i, j);
    assert !TieSkipped(x, i, j);
    var q := p[..|p| - 1];
    if |p| == 1 {
      assert q == [] && i == 1 && j == 1;
    } else {
      var l := q[|q| - 1];
      assert UnitStep(p[|p| - 2], p[|p| - 1]);
      PrefixNonNegative(p, |p| - 2);
      forall k | 0 <= k < |q| - 1 ensures UnitStep(q[k], q[k + 1]) {
        assert UnitStep(p[k], p[k + 1]);
      }
      PathCostAtLeast(x, l.0 + 1, l.1 + 1, q);
    }
  }

  /** The whole table is optimal exactly when no cell skips a tie. */
  lemma OptimalIffNoTieSkipped(x: Tensor)
    requires x.Valid()
    ensures (forall i, j :: 1 <= i <= x.n && 1 <= j <= x.m ==> Optimal(x, i, j))
       <==> (forall i, j :: 1 <= i <= x.n && 1 <= j <= x.m ==> !TieSkipped(x, i, j))
  {
    if forall i, j :: 1 <= i <= x.n && 1 <= j <= x.m ==> !TieSkipped(x, i, j) {
      forall i, j | 1 <= i <= x.n && 1 <= j <= x.m ensures Optimal(x, i, j) {
        CostFinite(x, i, j);
        forall p | IsWarpPath(p, i, j) ensures CostAt(x, i, j).v <= PathCost(x, p) {
          PathCostAtLeast(x, i, j, p);
        }
      }
    }
    forall i, j | 1 <= i <= x.n && 1 <= j <= x.m && TieSkipped(x, i, j) ensures !Optimal(x, i, j) {
      TieCostsMore(x, i, j);
    }
  }

  lemma TieInterior(x: Tensor, i: nat, j: nat)
    requires x.Valid() && 1 <= i <= x.n && 1 <= j <= x.m && TieSkipped(x, i, j)
    ensures i > 1 && j > 1
  {
  }

  lemma TieCostsMore(x: Tensor, i: nat, j: nat)
    requires x.Valid() && 1 <= i <= x.n && 1 <= j <= x.m && TieSkipped(x, i, j)
    ensures !Optimal(x, i, j)
  {
    CostFinite(x, i, j);
    hide Back, IsWarpPath, PathCost;
    TieInterior(x, i, j);
    BackIsPath(x, i - 1, j - 1);
    PathExtend(x, Back(x, i - 1, j - 1), i - 1, j - 1, i, j);
  }

  /** For the returned path: no skipped tie anywhere makes it a cheapest warping path. */
  lemma ReturnedPathCheapest(x: Tensor, p: seq<(int, int)>)
    requires x.Valid() && x.n >= 1 && x.m >= 1 && IsWarpPath(p, x.n, x.m)
    requires forall i, j :: 1 <= i <= x.n && 1 <= j <= x.m ==> !TieSkipped(x, i, j)
    ensures PathCost(x, Back(x, x.n, x.m)) <= PathCost(x, p)
  {
    BackIsPath(x, x.n, x.m);
    PathCostAtLeast(x, x.n, x.m, p);
  }

  /** A 2 x 2 input on which the returned path is not cheapest. */
  lemma SkippedTieExample()
    ensures var x := Tensor([0.0, 0.0, -1.0, 0.0], 2, 2);
            var p := [(0, 0), (1, 1)];
            x.Valid() && IsWarpPath(p, 2, 2) && PathCost(x, p) < PathCost(x, Back(x, 2, 2))
  {
    hide Back, CostAt;
    var x := Tensor([0.0, 0.0, -1.0, 0.0], 2, 2);
    SkippedTieCosts(x);
    BackIsPath(x, 2, 2);
    DiagonalCost(x);
  }

  lemma DiagonalCost(x: Tensor)
    requires x.Valid() && x.n == x.m == 2 && x.At(0, 0) == x.At(1, 1) == 0.0
    ensures PathCost(x, [(0, 0), (1, 1)]) == 0.0
  {
    var p := [(0, 0), (1, 1)];
    var first: seq<(int, int)> := [(0, 0)];
    assert p[..1] == first && first[..0] == [];
    assert PathCost(x, p[..1]) == 0.0;
  }

  lemma SkippedTieCosts(x: Tensor)
    requires x == Tensor([0.0, 0.0, -1.0, 0.0], 2, 2)
    ensures x.Valid() && x.At(0, 0) == x.At(1, 1) == 0.0 && CostAt(x, 2, 2) == Fin(1.0)
  {
    assert x.At(0, 0) == 0.0 && x.At(0, 1) == 0.0 && x.At(1, 0) == -1.0 && x.At(1, 1) == 0.0;
    assert CostAt(x, 1, 1) == Fin(0.0);
    assert CostAt(x, 1, 2) == Fin(0.0);
    assert CostAt(x, 2, 1) == Fin(1.0);
  }
}
