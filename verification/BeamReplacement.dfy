/** Twice as many candidates as beams: when every finished beam finds an active replacement, and why with a
    single end id it always does. */
module BeamReplacement {
  import opened Options
  import opened RowMajor
  import opened Vectors
  import opened Processors
  import opened Steps
  import opened Beam
  import opened BeamPaths

  /** Candidates j..k that end in an end id. */
  function EndCount(endIds: seq<Token>, cands: seq<Candidate>, j: nat, k: nat): (r: nat)
    requires j <= k <= |cands|
    ensures r <= k - j
  {
    if j == k then 0 else EndCount(endIds, cands, j, k - 1) + if IsEos(cands[k - 1].token, endIds) then 1 else 0
  }

  lemma {:induction false} EndCountSplit(endIds: seq<Token>, cands: seq<Candidate>, i: nat, j: nat, k: nat)
    requires i <= j <= k <= |cands|
    ensures EndCount(endIds, cands, i, k) == EndCount(endIds, cands, i, j) + EndCount(endIds, cands, j, k)
  {
    if j < k { EndCountSplit(endIds, cands, i, j, k - 1); }
  }

  lemma {:induction false} EndCountAll(endIds: seq<Token>, cands: seq<Candidate>, j: nat, k: nat)
    requires j <= k <= |cands| && forall i :: j <= i < k ==> IsEos(cands[i].token, endIds)
    ensures EndCount(endIds, cands, j, k) == k - j
  {
    if j < k { EndCountAll(endIds, cands, j, k - 1); }
  }

  /** A step after the prefix and before the last one: a candidate finishes iff it ends in an end id. */
  predicate Unforced<S>(c: Config<S>, prefix: Option<seq<Token>>, step: nat) {
    step >= PrefixLength(prefix) && !IsLastStep(c, step, prefix)
  }

  /** Active candidates between the beams and position k of the second half. */
  function ActiveCount(endIds: seq<Token>, cands: seq<Candidate>, j: nat, k: nat): nat
    requires j <= k <= |cands|
  {
    k - j - EndCount(endIds, cands, j, k)
  }

  lemma EndsIffFinishes<S>(c: Config<S>, prefix: Option<seq<Token>>, step: nat, x: Candidate)
    requires Unforced(c, prefix, step)
    ensures Finishes(c, prefix, step, x) <==> IsEos(x.token, c.endIds)
  {
  }

  /** The scan over the second half consumes one active candidate per finished beam, while there is one. */
  lemma {:induction false} OffsetConsumes<S>(c: Config<S>, prefix: Option<seq<Token>>, step: nat,
                                             cands: seq<Candidate>, k: nat)
    requires k <= c.beamSize && |cands| == c.NumCandidates() && Unforced(c, prefix, step)
    ensures var ends := EndCount(c.endIds, cands, 0, k);
            var active := ActiveCount(c.endIds, cands, c.beamSize, |cands|);
            ActiveCount(c.endIds, cands, c.beamSize, Offset(c, prefix, step, cands, k))
            == if ends < active then ends else active
  {
    hide NextOffset, Finishes, ActiveCount;
    NoneConsumed(c.endIds, cands, c.beamSize);
    if k > 0 {
      OffsetConsumes(c, prefix, step, cands, k - 1);
      EndsIffFinishes(c, prefix, step, cands[k - 1]);
      ConsumeStep(c.endIds, cands, c.beamSize, Offset(c, prefix, step, cands, k - 1),
                  IsEos(cands[k - 1].token, c.endIds));
    }
  }

  lemma NoneConsumed(endIds: seq<Token>, cands: seq<Candidate>, k: nat)
    requires k <= |cands|
    ensures ActiveCount(endIds, cands, k, k) == 0
  {
  }

  /** One beam's scan consumes an active candidate if the beam ended and there is one. */
  lemma ConsumeStep(endIds: seq<Token>, cands: seq<Candidate>, k: nat, before: nat, finished: bool)
    requires k <= before <= |cands|
    ensures var used := ActiveCount(endIds, cands, k, before);
            var active := ActiveCount(endIds, cands, k, |cands|);
            && used <= active
            && ActiveCount(endIds, cands, k, NextOffset(endIds, cands, finished, before))
               == if finished && used < active then used + 1 else used
  {
    hide FirstActive, ActiveCount;
    ScanStep(endIds, cands, k, before);
  }

  lemma ScanStep(endIds: seq<Token>, cands: seq<Candidate>, k: nat, before: nat)
    requires k <= before <= |cands|
    ensures var j := FirstActive(endIds, cands, before);
            var used := ActiveCount(endIds, cands, k, before);
            var active := ActiveCount(endIds, cands, k, |cands|);
            && used <= active
            && (j < |cands| <==> used < active)
            && (j < |cands| ==> ActiveCount(endIds, cands, k, j + 1) == used + 1)
  {
    var j := FirstActive(endIds, cands, before);
    EndCountAll(endIds, cands, before, j);
    EndCountSplit(endIds, cands, k, before, j);
    EndCountSplit(endIds, cands, k, j, |cands|);
    if j < |cands| {
      EndCountSplit(endIds, cands, j, j + 1, |cands|);
    }
  }

  /** Position k of the next beams is active iff the beams finished before it leave a replacement. */
  lemma ChosenActiveIff<S>(c: Config<S>, prefix: Option<seq<Token>>, step: nat, cands: seq<Candidate>, k: nat)
    requires k < c.beamSize && |cands| == c.NumCandidates() && Unforced(c, prefix, step)
    ensures !IsEos(cands[Chosen(c, prefix, step, cands, k)].token, c.endIds)
            <==> !IsEos(cands[k].token, c.endIds)
                 || EndCount(c.endIds, cands, 0, k) < ActiveCount(c.endIds, cands, c.beamSize, |cands|)
  {
    OffsetConsumes(c, prefix, step, cands, k);
    ScanStep(c.endIds, cands, c.beamSize, Offset(c, prefix, step, cands, k));
  }

  /** No next beam ends in an end id. */
  predicate AllActive<S>(c: Config<S>, prefix: Option<seq<Token>>, step: nat, cands: seq<Candidate>)
    requires |cands| == c.NumCandidates()
  {
    forall k :: 0 <= k < c.beamSize ==> !IsEos(cands[Chosen(c, prefix, step, cands, k)].token, c.endIds)
  }

  lemma {:induction false} LastEnd(endIds: seq<Token>, cands: seq<Candidate>, k: nat) returns (i: nat)
    requires k <= |cands| && EndCount(endIds, cands, 0, k) > 0
    ensures i < k && IsEos(cands[i].token, endIds) && EndCount(endIds, cands, 0, i) + 1 == EndCount(endIds, cands, 0, k)
  {
    if IsEos(cands[k - 1].token, endIds) {
      i := k - 1;
    } else {
      i := LastEnd(endIds, cands, k - 1);
    }
  }

  lemma {:induction false} EndCountBefore(endIds: seq<Token>, cands: seq<Candidate>, i: nat, k: nat)
    requires i < k <= |cands| && IsEos(cands[i].token, endIds)
    ensures EndCount(endIds, cands, 0, i) < EndCount(endIds, cands, 0, k)
  {
    EndCountSplit(endIds, cands, 0, i + 1, k);
  }

  /** Every finished beam is replaced by an active candidate exactly when at most half of the candidates
      end in an end id. */
  lemma AllActiveIffHalf<S>(c: Config<S>, prefix: Option<seq<Token>>, step: nat, cands: seq<Candidate>)
    requires |cands| == c.NumCandidates() && Unforced(c, prefix, step)
    ensures AllActive(c, prefix, step, cands) <==> EndCount(c.endIds, cands, 0, |cands|) <= c.beamSize
  {
    var ends := EndCount(c.endIds, cands, 0, c.beamSize);
    var active := ActiveCount(c.endIds, cands, c.beamSize, |cands|);
    EndCountSplit(c.endIds, cands, 0, c.beamSize, |cands|);
    forall k | 0 <= k < c.beamSize
      ensures ends <= active ==> !IsEos(cands[Chosen(c, prefix, step, cands, k)].token, c.endIds)
    {
      ChosenActiveIff(c, prefix, step, cands, k);
      if IsEos(cands[k].token, c.endIds) {
        EndCountBefore(c.endIds, cands, k, c.beamSize);
      }
    }
    if ends > active {
      var k := LastEnd(c.endIds, cands, c.beamSize);
      ChosenActiveIff(c, prefix, step, cands, k);
    }
  }

  lemma {:induction false} OffsetMonotone<S>(c: Config<S>, prefix: Option<seq<Token>>, step: nat,
                                             cands: seq<Candidate>, j: nat, k: nat)
    requires j <= k <= c.beamSize && |cands| == c.NumCandidates()
    ensures Offset(c, prefix, step, cands, j) <= Offset(c, prefix, step, cands, k)
  {
    hide NextOffset, Finishes;
    if j < k { OffsetMonotone(c, prefix, step, cands, j, k - 1); }
  }

  /** A replacement comes from the part of the second half that its scan consumes. */
  lemma ReplacementConsumed<S>(c: Config<S>, prefix: Option<seq<Token>>, step: nat, cands: seq<Candidate>, k: nat)
    requires k < c.beamSize && |cands| == c.NumCandidates()
    ensures Chosen(c, prefix, step, cands, k) != k ==>
              && Offset(c, prefix, step, cands, k) <= Chosen(c, prefix, step, cands, k)
              && Chosen(c, prefix, step, cands, k) < Offset(c, prefix, step, cands, k + 1)
  {
    hide FirstActive;
  }

  /** No candidate is taken for two beams. */
  lemma ChosenDistinct<S>(c: Config<S>, prefix: Option<seq<Token>>, step: nat, cands: seq<Candidate>, j: nat, k: nat)
    requires j < k < c.beamSize && |cands| == c.NumCandidates()
    ensures Chosen(c, prefix, step, cands, j) != Chosen(c, prefix, step, cands, k)
  {
    hide Chosen, Offset;
    ReplacementConsumed(c, prefix, step, cands, j);
    ReplacementConsumed(c, prefix, step, cands, k);
    OffsetMonotone(c, prefix, step, cands, j + 1, k);
  }

  // ----- End ids and rows -----

  /** The ids among the first k that stand for token e. */
  ghost function EndOrigins(ids: seq<nat>, v: nat, e: Token, k: nat): (r: set<nat>)
    requires k <= |ids| && v > 0
  {
    if k == 0 then {}
    else EndOrigins(ids, v, e, k - 1) + if ColumnOf(ids[k - 1], v) == e then {RowOf(ids[k - 1], v)} else {}
  }

  lemma {:induction false} EndOriginsFrom(ids: seq<nat>, v: nat, e: Token, k: nat, o: nat)
    requires k <= |ids| && v > 0 && o in EndOrigins(ids, v, e, k)
    ensures exists i :: 0 <= i < k && ColumnOf(ids[i], v) == e && RowOf(ids[i], v) == o
  {
    if !(ColumnOf(ids[k - 1], v) == e && RowOf(ids[k - 1], v) == o) {
      EndOriginsFrom(ids, v, e, k - 1, o);
    }
  }

  lemma SameId(a: nat, b: nat, v: nat)
    requires v > 0 && ColumnOf(a, v) == ColumnOf(b, v) && RowOf(a, v) == RowOf(b, v)
    ensures a == b
  {
    assert a == RowOf(a, v) * v + ColumnOf(a, v) && b == RowOf(b, v) * v + ColumnOf(b, v);
  }

  /** Distinct flat ids of one token come from distinct rows. */
  lemma {:induction false} EndsFromDistinctRows(ids: seq<nat>, v: nat, e: Token, cands: seq<Candidate>, k: nat)
    requires k <= |ids| == |cands| && v > 0 && Distinct(ids)
    requires forall i :: 0 <= i < |ids| ==> cands[i].token == ColumnOf(ids[i], v)
    ensures EndCount([e], cands, 0, k) == |EndOrigins(ids, v, e, k)|
  {
    if k > 0 {
      EndsFromDistinctRows(ids, v, e, cands, k - 1);
      var o := RowOf(ids[k - 1], v);
      if ColumnOf(ids[k - 1], v) == e && o in EndOrigins(ids, v, e, k - 1) {
        EndOriginsFrom(ids, v, e, k - 1, o);
        var i :| 0 <= i < k - 1 && ColumnOf(ids[i], v) == e && RowOf(ids[i], v) == o;
        SameId(ids[i], ids[k - 1], v);
      }
    }
  }

  /** The selected candidates of a step before the forced prefix is applied. */
  ghost function Selected<S(!new)>(c: Config<S>, prefix: Option<seq<Token>>, step: nat,
                                   rows: seq<Row<S>>): (r: seq<Candidate>)
    requires ValidConfig(c) && ValidRows(c, rows)
    ensures |r| == c.NumCandidates()
  {
    var scores := FlatScores(c, prefix, step, rows);
    var ids := TopIds(c, prefix, step, rows);
    var n := c.NumCandidates();
    seq(n, k requires 0 <= k < n && |ids| == n && Indexes(ids, |scores|) =>
      MakeCandidate(c, None, step, rows, k, ids[k], scores[ids[k]]))
  }

  lemma SelectedAt<S(!new)>(c: Config<S>, prefix: Option<seq<Token>>, step: nat, rows: seq<Row<S>>, k: nat)
    requires ValidConfig(c) && ValidRows(c, rows) && k < c.NumCandidates()
    ensures var x := Selected(c, prefix, step, rows)[k];
            var id := TopIds(c, prefix, step, rows)[k];
            x.origin == RowOf(id, c.vocabulary) < |rows| && x.token == ColumnOf(id, c.vocabulary)
  {
    hide FlatScores, TopIds, IsTopK, Indexes, Flat, RowOf, ColumnOf;
    TopIdInRange(c, prefix, step, rows, k);
    assert Indexes(TopIds(c, prefix, step, rows), |FlatScores(c, prefix, step, rows)|);
  }

  /** Pigeonhole: at most one selected candidate per row ends in a given token. */
  lemma OneEndPerRow<S(!new)>(c: Config<S>, prefix: Option<seq<Token>>, step: nat, rows: seq<Row<S>>, e: Token)
    requires ValidConfig(c) && ValidRows(c, rows)
    ensures EndCount([e], Selected(c, prefix, step, rows), 0, c.NumCandidates()) <= |rows|
  {
    hide FlatScores, RowScores, Selected, EndCount, EndOrigins, RowOf, ColumnOf, Flat;
    var cands := Selected(c, prefix, step, rows);
    var ids := TopIds(c, prefix, step, rows);
    forall k | 0 <= k < |ids|
      ensures cands[k].token == ColumnOf(ids[k], c.vocabulary) && RowOf(ids[k], c.vocabulary) < |rows|
    {
      SelectedAt(c, prefix, step, rows, k);
    }
    EndsFromDistinctRows(ids, c.vocabulary, e, cands, |ids|);
    var origins := EndOrigins(ids, c.vocabulary, e, |ids|);
    forall o | o in origins ensures o in Below(|rows|) {
      EndOriginsFrom(ids, c.vocabulary, e, |ids|, o);
    }
    SubsetCardinality(origins, Below(|rows|));
  }

  /** Past the prefix a candidate ends only if it was selected so: the penalty adds no end id. */
  lemma EndWasSelected<S(!new)>(c: Config<S>, prefix: Option<seq<Token>>, step: nat, rows: seq<Row<S>>, k: nat)
    requires ValidConfig(c) && ValidRows(c, rows) && k < c.NumCandidates() && step >= PrefixLength(prefix)
    ensures IsEos(Candidates(c, prefix, step, rows)[k].token, c.endIds) ==>
              IsEos(Selected(c, prefix, step, rows)[k].token, c.endIds)
  {
    hide FlatScores, Candidates, Selected, TopIds, RowOf, ColumnOf, IsEos;
    CandidateForced(c, prefix, step, rows, k);
    SelectedAt(c, prefix, step, rows, k);
  }

  lemma {:induction false} EndCountWithin(endIds: seq<Token>, a: seq<Candidate>, b: seq<Candidate>, k: nat)
    requires k <= |a| == |b|
    requires forall i :: 0 <= i < |a| && IsEos(a[i].token, endIds) ==> IsEos(b[i].token, endIds)
    ensures EndCount(endIds, a, 0, k) <= EndCount(endIds, b, 0, k)
  {
    if k > 0 { EndCountWithin(endIds, a, b, k - 1); }
  }

  lemma {:induction false} EndCountSplitIds(endIds: seq<Token>, e: Token, cands: seq<Candidate>, k: nat)
    requires k <= |cands|
    ensures EndCount(endIds + [e], cands, 0, k) <= EndCount(endIds, cands, 0, k) + EndCount([e], cands, 0, k)
    ensures e in endIds ==> EndCount(endIds + [e], cands, 0, k) == EndCount(endIds, cands, 0, k)
  {
    if k > 0 { EndCountSplitIds(endIds, e, cands, k - 1); }
  }

  lemma {:induction false} NoEndIds(cands: seq<Candidate>, k: nat)
    requires k <= |cands|
    ensures EndCount([], cands, 0, k) == 0
  {
    if k > 0 { NoEndIds(cands, k - 1); }
  }

  /** The number of different end ids. */
  ghost function NumEndIds(endIds: seq<Token>): nat { |Elements(endIds)| }

  /** At most one selected candidate per row and end id ends. */
  lemma {:induction false} OneEndPerRowAndId<S(!new)>(c: Config<S>, prefix: Option<seq<Token>>, step: nat,
                                                      rows: seq<Row<S>>, endIds: seq<Token>)
    requires ValidConfig(c) && ValidRows(c, rows)
    ensures EndCount(endIds, Selected(c, prefix, step, rows), 0, c.NumCandidates()) <= NumEndIds(endIds) * |rows|
  {
    hide Selected, EndCount;
    var cands := Selected(c, prefix, step, rows);
    if endIds == [] {
      NoEndIds(cands, |cands|);
    } else {
      var m := |endIds| - 1;
      var rest, e := endIds[..m], endIds[m];
      assert endIds == rest + [e];
      OneEndPerRowAndId(c, prefix, step, rows, rest);
      OneEndPerRow(c, prefix, step, rows, e);
      EndCountSplitIds(rest, e, cands, |cands|);
      OneMoreId(rest, e, |rows|);
    }
  }

  lemma OneMoreId(rest: seq<Token>, e: Token, n: nat)
    ensures e in rest ==> NumEndIds(rest + [e]) == NumEndIds(rest)
    ensures e !in rest ==> NumEndIds(rest + [e]) * n == NumEndIds(rest) * n + n
  {
    assert Elements(rest + [e]) == Elements(rest) + {e};
    if e in rest {
      assert Elements(rest) + {e} == Elements(rest);
    }
  }

  /** Twice the beam is enough: with at most `beam_size` pairs of a row and an end id (one end id, or a single
      unexpanded row and at most `beam_size` end ids), on every step past the forced prefix but the last the
      next beams are distinct candidates and none of them has ended. */
  lemma TwiceTheBeam<S(!new)>(c: Config<S>, prefix: Option<seq<Token>>, step: nat, rows: seq<Row<S>>)
    requires ValidConfig(c) && ValidRows(c, rows) && Unforced(c, prefix, step)
    requires NumEndIds(c.endIds) * |rows| <= c.beamSize
    ensures var cands := Candidates(c, prefix, step, rows);
            && AllActive(c, prefix, step, cands)
            && forall j, k :: 0 <= j < k < c.beamSize ==>
                 Chosen(c, prefix, step, cands, j) != Chosen(c, prefix, step, cands, k)
  {
    hide Candidates, Selected, Chosen, AllActive, EndCount, IsEos;
    var cands, selected := Candidates(c, prefix, step, rows), Selected(c, prefix, step, rows);
    OneEndPerRowAndId(c, prefix, step, rows, c.endIds);
    forall k | 0 <= k < |cands| ensures IsEos(cands[k].token, c.endIds) ==> IsEos(selected[k].token, c.endIds) {
      EndWasSelected(c, prefix, step, rows, k);
    }
    EndCountWithin(c.endIds, cands, selected, |cands|);
    AllActiveIffHalf(c, prefix, step, cands);
    forall j, k | 0 <= j < k < c.beamSize
      ensures Chosen(c, prefix, step, cands, j) != Chosen(c, prefix, step, cands, k)
    {
      ChosenDistinct(c, prefix, step, cands, j, k);
    }
  }

  /** No end id from position `from` on. */
  ghost predicate EndFree(endIds: seq<Token>, hist: seq<Token>, from: nat) {
    forall k :: from <= k < |hist| ==> !IsEos(hist[k], endIds)
  }

  ghost predicate RowsEndFree<S>(c: Config<S>, rows: seq<Row<S>>, from: nat) {
    forall i :: 0 <= i < |rows| ==> EndFree(c.endIds, rows[i].hist, from)
  }

  lemma NextEndFree<S(!new)>(c: Config<S>, prefix: Option<seq<Token>>, step: nat, rows: seq<Row<S>>)
    requires ValidConfig(c) && ValidRows(c, rows) && NumEndIds(c.endIds) <= 1 && !IsLastStep(c, step, prefix)
    requires RowsEndFree(c, rows, PrefixLength(prefix))
    requires forall i :: 0 <= i < |rows| ==> |rows[i].hist| == step
    ensures RowsEndFree(c, NextRows(c, prefix, step, rows), PrefixLength(prefix))
  {
    hide Candidates, Chosen;
    var n := PrefixLength(prefix);
    var cands := Candidates(c, prefix, step, rows);
    if step >= n {
      ProductMonotone(NumEndIds(c.endIds), 1, |rows|);
      TwiceTheBeam(c, prefix, step, rows);
    }
    forall i | 0 <= i < c.beamSize ensures EndFree(c.endIds, NextRows(c, prefix, step, rows)[i].hist, n) {
      var k := Chosen(c, prefix, step, cands, i);
      CandidateOrigin(c, prefix, step, rows, k);
      assert EndFree(c.endIds, rows[cands[k].origin].hist, n);
    }
  }

  /** With at most one end id, over a whole run no alive history ever contains it after the forced prefix. */
  lemma {:induction false} AliveNeverEnded<S(!new)>(c: Config<S>, prefix: Option<seq<Token>>, state: S,
                                                    startId: Token, n: nat)
    requires ValidConfig(c) && NumEndIds(c.endIds) <= 1 && n < OwnMaxStep(c, prefix)
    ensures ValidRows(c, Start(c, state, startId).rows)
    ensures RowsEndFree(c, After(c, prefix, n, Start(c, state, startId)).rows, PrefixLength(prefix))
  {
    hide NextRows, Candidates;
    StartAligned(c, prefix, state, startId);
    if n > 0 {
      AliveNeverEnded(c, prefix, state, startId, n - 1);
      RowLengths(c, prefix, state, startId, n - 1);
      NextEndFree(c, prefix, n - 1, After(c, prefix, n - 1, Start(c, state, startId)).rows);
    }
  }

  /** Two beams, four tokens, three of them end ids, two steps. After token 1 token 0 is likely, and after
      token 0 nothing is. */
  function ThreeEndsConfig(top: TopKOp, sort: SortOp): Config<()> {
    Config(4, (step: nat, token: Token, state: ()) => (),
           (step: nat, token: Token, state: (), hist: seq<Token>, prefix: Option<seq<Token>>) =>
             if hist == [] then [-1.0, -2.0, -4.0, -3.0]
             else if hist == [1] then [-0.5, -9.0, -9.0, -9.0] else [-9.0, -9.0, -9.0, -9.0],
           top, sort, (score: real, length: nat) => score, 2, 2, [1, 2, 3], 0, 2, true, false, true, -1000000.0)
  }

  /** A strictly best id is selected first. */
  lemma SelectedFirst(xs: seq<real>, k: nat, ids: seq<nat>, best: nat)
    requires IsTopK(xs, k, ids) && k > 0 && best < |xs| && forall v :: 0 <= v < |xs| && v != best ==> xs[v] < xs[best]
    ensures ids[0] == best
  {
    if best in ids {
      var p :| 0 <= p < k && ids[p] == best;
    }
  }

  lemma FirstTop(ids: seq<nat>)
    requires IsTopK([-1.0, -2.0, -4.0, -3.0], 4, ids)
    ensures ids[0] == 0 && ids[1] == 1 && ids[2] != 0 && ids[3] != 0
  {
    var xs := [-1.0, -2.0, -4.0, -3.0];
    assert xs[0] == -1.0 && xs[1] == -2.0 && xs[2] == -4.0 && xs[3] == -3.0;
    SelectedFirst(xs, 4, ids, 0);
    PermutationOnto(ids, 4, 1);
    var p :| 0 <= p < 4 && ids[p] == 1;
    assert xs[ids[1]] >= xs[ids[p]];
  }

  lemma ThreeEndsValid(top: TopKOp, sort: SortOp)
    ensures ValidConfig(ThreeEndsConfig(top, sort))
  {
  }

  /** The candidates of the first step. */
  lemma ThreeEndsCandidates(top: TopKOp, sort: SortOp)
    ensures var c := ThreeEndsConfig(top, sort);
            && ValidConfig(c) && ValidRows(c, [Row((), 0, 0.0, [])])
            && var cands := Candidates(c, None, 0, [Row((), 0, 0.0, [])]);
            && cands[0] == Candidate(0, 0, -1.0, [0]) && cands[1] == Candidate(0, 1, -2.0, [1])
            && IsEos(cands[2].token, c.endIds) && IsEos(cands[3].token, c.endIds)
  {
    hide FlatScores, Candidates, TopIds, ValidConfig;
    ThreeEndsValid(top, sort);
    var c := ThreeEndsConfig(top, sort);
    var row := Row((), 0, 0.0, []);
    FlatOne(c, row);
    assert RowScores(c, None, 0, row) == [-1.0, -2.0, -4.0, -3.0];
    FirstTop(TopIds(c, None, 0, [row]));
    forall k: nat | k < 4
      ensures var x, id := Candidates(c, None, 0, [row])[k], TopIds(c, None, 0, [row])[k];
              id < 4 && x == Candidate(0, id, [-1.0, -2.0, -4.0, -3.0][id], [id])
    {
      CandidateForced(c, None, 0, [row], k);
    }
  }

  /** The first step: the second beam finishes and finds no replacement, so it goes on. */
  lemma ThreeEndsFirst(top: TopKOp, sort: SortOp)
    ensures var c := ThreeEndsConfig(top, sort);
            && ValidConfig(c) && ValidRows(c, Start(c, (), 0).rows)
            && !AllActive(c, None, 0, Candidates(c, None, 0, Start(c, (), 0).rows))
            && After(c, None, 1, Start(c, (), 0))
               == Sentence([Row((), 0, -1.0, [0]), Row((), 1, -2.0, [1])], false, [Hypothesis([], -2.0)])
  {
    hide FlatScores, Candidates, Chosen, Registered;
    var c := ThreeEndsConfig(top, sort);
    var s := Start(c, (), 0);
    ThreeEndsCandidates(top, sort);
    var cands := Candidates(c, None, 0, s.rows);
    NoReplacement(c, cands);
    FirstRegistered(c, cands);
    assert NextRows(c, None, 0, s.rows) == [Row((), 0, -1.0, [0]), Row((), 1, -2.0, [1])];
    assert After(c, None, 0, s) == s;
    assert s.hypotheses + Registered(c, None, 0, cands, 2) == [Hypothesis([], -2.0)];
  }

  lemma FirstRegistered(c: Config<()>, cands: seq<Candidate>)
    requires |cands| == 4 && Unforced(c, None, 0) && !c.includeEos
    requires !IsEos(cands[0].token, c.endIds) && IsEos(cands[1].token, c.endIds)
    ensures Registered(c, None, 0, cands, 2) == [Hypothesis([], cands[1].score)]
  {
    assert Registered(c, None, 0, cands, 0) == [];
    assert Registered(c, None, 0, cands, 1) == [];
    assert cands[1].hist[0..0] == [];
  }

  lemma NoReplacement(c: Config<()>, cands: seq<Candidate>)
    requires c.beamSize == 2 && |cands| == 4 && Unforced(c, None, 0)
    requires !IsEos(cands[0].token, c.endIds) && forall k :: 0 < k < 4 ==> IsEos(cands[k].token, c.endIds)
    ensures Chosen(c, None, 0, cands, 0) == 0 && Chosen(c, None, 0, cands, 1) == 1
  {
    hide FirstActive;
    assert Offset(c, None, 0, cands, 0) == 2;
  }

  lemma FlatOne(c: Config<()>, row: Row<()>)
    requires ValidConfig(c)
    ensures FlatScores(c, None, 0, [row]) == RowScores(c, None, 0, row)
  {
    assert [row][..0] == [];
    assert FlatScores(c, None, 0, []) == [];
  }

  lemma FlatTwo(c: Config<()>, a: Row<()>, b: Row<()>)
    requires ValidConfig(c)
    ensures FlatScores(c, None, 1, [a, b]) == RowScores(c, None, 1, a) + RowScores(c, None, 1, b)
  {
    assert [a, b][..1] == [a] && [a][..0] == [];
    assert FlatScores(c, None, 1, []) == [];
    assert FlatScores(c, None, 1, [a]) == RowScores(c, None, 1, a);
  }

  /** The second step: the ended beam offers the best candidate, and all others score at most -9. */
  lemma SecondCandidates(top: TopKOp, sort: SortOp)
    ensures var c := ThreeEndsConfig(top, sort);
            var rows := [Row((), 0, -1.0, [0]), Row((), 1, -2.0, [1])];
            && ValidConfig(c) && ValidRows(c, rows)
            && Candidates(c, None, 1, rows)[0] == Candidate(1, 0, -2.5, [1, 0])
            && Candidates(c, None, 1, rows)[1].score <= -9.0
  {
    hide FlatScores, Candidates, TopIds, ValidConfig;
    ThreeEndsValid(top, sort);
    var c := ThreeEndsConfig(top, sort);
    var a, b := Row((), 0, -1.0, [0]), Row((), 1, -2.0, [1]);
    FlatTwo(c, a, b);
    assert RowScores(c, None, 1, a) == [-10.0, -10.0, -10.0, -10.0];
    assert RowScores(c, None, 1, b) == [-2.5, -11.0, -11.0, -11.0];
    var scores := FlatScores(c, None, 1, [a, b]);
    assert scores == [-10.0, -10.0, -10.0, -10.0, -2.5, -11.0, -11.0, -11.0];
    var ids := TopIds(c, None, 1, [a, b]);
    SelectedFirst(scores, 4, ids, 4);
    SecondBelow(scores, ids);
    CandidateForced(c, None, 1, [a, b], 0);
    CandidateForced(c, None, 1, [a, b], 1);
    assert [1] + [0] == [1, 0];
  }

  lemma SecondBelow(scores: seq<real>, ids: seq<nat>)
    requires IsTopK(scores, 4, ids) && ids[0] == 4 && forall v :: 0 <= v < |scores| && v != 4 ==> scores[v] <= -9.0
    ensures ids[1] < |scores| && scores[ids[1]] <= -9.0
  {
  }

  lemma ThreeEndsSecond(top: TopKOp, sort: SortOp)
    ensures var c := ThreeEndsConfig(top, sort);
            && ValidConfig(c) && ValidRows(c, Start(c, (), 0).rows)
            && var hyps := After(c, None, 2, Start(c, (), 0)).hypotheses;
            && |hyps| == 3 && hyps[0].score == -2.0 && hyps[1] == Hypothesis([1, 0], -2.5) && hyps[2].score <= -9.0
  {
    var c := ThreeEndsConfig(top, sort);
    assert !IsEos(0, c.endIds) && IsLastStep(c, 1, None);
    hide FlatScores, Candidates, IsEos, Registered, ValidConfig, After, Start, IsLastStep;
    ThreeEndsFirst(top, sort);
    SecondCandidates(top, sort);
    var s := After(c, None, 1, Start(c, (), 0));
    ThreeEndsRegistered(c, Candidates(c, None, 1, s.rows));
    MoreHypotheses(c, 1, Start(c, (), 0));
  }

  lemma MoreHypotheses(c: Config<()>, n: nat, s: Sentence<()>)
    requires ValidConfig(c) && ValidRows(c, s.rows)
    ensures var before := After(c, None, n, s);
            After(c, None, n + 1, s).hypotheses
            == before.hypotheses + Registered(c, None, n, Candidates(c, None, n, before.rows), c.beamSize)
  {
    hide Candidates, NextRows, Registered;
  }

  lemma ThreeEndsRegistered(c: Config<()>, cands: seq<Candidate>)
    requires |cands| == 4 && IsLastStep(c, 1, None) && !IsEos(0, c.endIds) && c.returnPrefix
    requires cands[0] == Candidate(1, 0, -2.5, [1, 0])
    ensures var r := Registered(c, None, 1, cands, 2);
            |r| == 2 && r[0] == Hypothesis([1, 0], -2.5) && r[1].score == cands[1].score
  {
    assert cands[0].hist[0..2] == [1, 0];
    assert Registered(c, None, 1, cands, 1) == [Hypothesize(c, None, 1, cands[0])];
  }

  /** With several end ids a beam may find no replacement. Here the ended beam is alive on the second step,
      whether the search may exit early or not, and its continuation is returned: the second result holds an
      end id in front of its last token. */
  lemma ThreeEndsExample(top: TopKOp, sort: SortOp, rule: StopRule)
    requires rule.MaxCandidates? ==> rule.n >= 2
    ensures var c := ThreeEndsConfig(top, sort);
            && ValidConfig(c) && ValidRows(c, Start(c, (), 0).rows)
            && !StopsAfter(c, rule, None, 1, Start(c, (), 0))
            && !RowsEndFree(c, After(c, None, 1, Start(c, (), 0)).rows, 0)
            && var r := BeamRun(c, rule, None, 0, Start(c, (), 0));
               |r| == 2 && r[1].tokens == [1, 0] && IsEos(1, c.endIds)
  {
    hide After, BeamRun, Finalize, Candidates;
    var c := ThreeEndsConfig(top, sort);
    ThreeEndsFirst(top, sort);
    ThreeEndsSecond(top, sort);
    var s := Start(c, (), 0);
    assert IsEos(After(c, None, 1, s).rows[1].hist[0], c.endIds);
    assert !EndFree(c.endIds, After(c, None, 1, s).rows[1].hist, 0);
    var n := RunReached(c, rule, None, s);
    assert n == 2;
    SecondResult(c, After(c, None, 2, s).hypotheses);
  }

  lemma SecondResult(c: Config<()>, hyps: seq<Hypothesis>)
    requires |hyps| == 3 && c.numHypotheses == 2 && hyps[0].score > hyps[1].score > hyps[2].score
    requires forall score, length :: c.normalize(score, length) == score
    ensures |Finalize(c, hyps)| == 2 && Finalize(c, hyps)[1].tokens == hyps[1].tokens
  {
    var keys := Scores(Normalized(c, hyps));
    var idx := c.sort(keys);
    assert IsDescendingOrder(keys, idx);
    assert keys[idx[0]] >= keys[idx[1]] >= keys[idx[2]];
    assert idx[0] != idx[1] && idx[1] != idx[2] && idx[0] != idx[2];
    assert idx[1] == 1;
  }

  // ----- Distinct beams -----

  ghost predicate HistoriesDistinct<S>(rows: seq<Row<S>>) {
    forall i, j :: 0 <= i < j < |rows| ==> rows[i].hist != rows[j].hist
  }

  lemma SameHistorySameId<S(!new)>(c: Config<S>, step: nat, rows: seq<Row<S>>, j: nat, k: nat)
    requires ValidConfig(c) && ValidRows(c, rows) && HistoriesDistinct(rows)
    requires forall i :: 0 <= i < |rows| ==> |rows[i].hist| == step
    requires j < c.NumCandidates() && k < c.NumCandidates()
    requires Candidates(c, None, step, rows)[j].hist == Candidates(c, None, step, rows)[k].hist
    ensures TopIds(c, None, step, rows)[j] == TopIds(c, None, step, rows)[k]
  {
    hide FlatScores, RowScores, Candidates, TopIds, RowOf, ColumnOf, Flat;
    var x, y := Candidates(c, None, step, rows)[j], Candidates(c, None, step, rows)[k];
    CandidateParts(c, None, step, rows, j);
    CandidateParts(c, None, step, rows, k);
    assert x.token == x.hist[step] == y.token;
    assert rows[x.origin].hist == x.hist[..step] == rows[y.origin].hist;
    SameId(TopIds(c, None, step, rows)[j], TopIds(c, None, step, rows)[k], c.vocabulary);
  }

  lemma CandidatesDistinct<S(!new)>(c: Config<S>, step: nat, rows: seq<Row<S>>, j: nat, k: nat)
    requires ValidConfig(c) && ValidRows(c, rows) && HistoriesDistinct(rows)
    requires forall i :: 0 <= i < |rows| ==> |rows[i].hist| == step
    requires j < c.NumCandidates() && k < c.NumCandidates() && j != k
    ensures Candidates(c, None, step, rows)[j].hist != Candidates(c, None, step, rows)[k].hist
  {
    hide FlatScores, Candidates;
    if Candidates(c, None, step, rows)[j].hist == Candidates(c, None, step, rows)[k].hist {
      SameHistorySameId(c, step, rows, j, k);
    }
  }

  /** Unforced beams with different histories keep different histories. */
  lemma NextDistinct<S(!new)>(c: Config<S>, step: nat, rows: seq<Row<S>>)
    requires ValidConfig(c) && ValidRows(c, rows) && HistoriesDistinct(rows)
    requires forall i :: 0 <= i < |rows| ==> |rows[i].hist| == step
    ensures HistoriesDistinct(NextRows(c, None, step, rows))
  {
    hide Candidates, Chosen;
    var cands := Candidates(c, None, step, rows);
    var next := NextRows(c, None, step, rows);
    forall i, j | 0 <= i < j < c.beamSize ensures next[i].hist != next[j].hist {
      ChosenDistinct(c, None, step, cands, i, j);
      CandidatesDistinct(c, step, rows, Chosen(c, None, step, cands, i), Chosen(c, None, step, cands, j));
    }
  }

  /** Over a whole unforced run, once the beams of a sentence hold different histories they always do. */
  lemma {:induction false} StayDistinct<S(!new)>(c: Config<S>, state: S, startId: Token, m: nat, n: nat)
    requires ValidConfig(c) && m <= n
    requires ValidRows(c, Start(c, state, startId).rows)
    requires HistoriesDistinct(After(c, None, m, Start(c, state, startId)).rows)
    ensures HistoriesDistinct(After(c, None, n, Start(c, state, startId)).rows)
  {
    hide NextRows, Candidates, Registered, HistoriesDistinct;
    if m < n {
      StayDistinct(c, state, startId, m, n - 1);
      RowLengths(c, None, state, startId, n - 1);
      NextDistinct(c, n - 1, After(c, None, n - 1, Start(c, state, startId)).rows);
    }
  }

  /** Started unexpanded and unforced, no two beams of a sentence ever hold the same history. */
  lemma BeamsDistinct<S(!new)>(c: Config<S>, state: S, startId: Token, n: nat)
    requires ValidConfig(c) && c.expandAfterFirstStep
    ensures ValidRows(c, Start(c, state, startId).rows)
    ensures HistoriesDistinct(After(c, None, n, Start(c, state, startId)).rows)
  {
    StartAligned(c, None, state, startId);
    StayDistinct(c, state, startId, 0, n);
  }

  lemma RowLengths<S(!new)>(c: Config<S>, prefix: Option<seq<Token>>, state: S, startId: Token, n: nat)
    requires ValidConfig(c)
    ensures ValidRows(c, Start(c, state, startId).rows)
    ensures var rows := After(c, prefix, n, Start(c, state, startId)).rows;
            forall i :: 0 <= i < |rows| ==> |rows[i].hist| == n
  {
    hide After, TrueScore;
    RowsAligned(c, prefix, state, startId, n);
    var rows := After(c, prefix, n, Start(c, state, startId)).rows;
    assert forall i :: 0 <= i < |rows| ==> RowAligned(c, prefix, state, startId, n, rows[i]);
  }
}
