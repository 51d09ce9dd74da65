/** Around the first step: running it on one unexpanded row instead of `beam_size` rows, the first step after a
    forced prefix, and an empty forced prefix instead of none. */
module BeamFirstStep {
  import opened Options
  import opened RowMajor
  import opened Vectors
  import opened Processors
  import opened Steps
  import opened Beam
  import opened BeamPaths
  import opened BeamReplacement

  // ----- Unexpanded and expanded first steps -----

  /** The same search with the rows replicated before the first step. */
  function Expanded<S>(c: Config<S>): Config<S> {
    c.(expandAfterFirstStep := false)
  }

  ghost predicate NonPositive(scores: seq<real>) {
    forall v :: 0 <= v < |scores| ==> scores[v] <= 0.0
  }

  /** The log-probs of the first step on a fresh row. */
  function FirstLogProbs<S>(c: Config<S>, prefix: Option<seq<Token>>, state: S, startId: Token): seq<real> {
    c.logProbs(c.startStep, startId, state, [], prefix)
  }

  /** Row 0 offers `num_candidates` scores above `lowest`, and no log-prob is positive. */
  ghost predicate RealScores<S(!new)>(c: Config<S>, prefix: Option<seq<Token>>, state: S, startId: Token)
    requires ValidConfig(c)
  {
    var scores := FirstLogProbs(c, prefix, state, startId);
    && NonPositive(scores)
    && (forall ids: seq<nat>, k :: IsTopK(scores, c.NumCandidates(), ids) && 0 <= k < |ids| ==>
         scores[ids[k]] > c.lowest)
  }

  /** Only one best-k selection exists: ties, if any, are below the cut. */
  ghost predicate Determined(scores: seq<real>, k: nat) {
    forall a, b :: IsTopK(scores, k, a) && IsTopK(scores, k, b) ==> a == b
  }

  /** The first rows of both searches. */
  lemma FirstRows<S(!new)>(c: Config<S>, state: S, startId: Token)
    requires ValidConfig(c) && c.expandAfterFirstStep
    ensures ValidConfig(Expanded(c))
    ensures ValidRows(c, StartRows(c, state, startId)) && ValidRows(Expanded(c), StartRows(Expanded(c), state, startId))
    ensures StartRows(c, state, startId) == [Row(state, startId, 0.0, [])]
    ensures StartRows(Expanded(c), state, startId)[0] == Row(state, startId, 0.0, [])
    ensures forall k :: 0 < k < c.beamSize ==>
              StartRows(Expanded(c), state, startId)[k] == Row(state, startId, c.lowest, [])
  {
  }

  /** The scores of the unexpanded step are the row's log-probs, and they head the expanded ones. */
  lemma FirstScores<S(!new)>(c: Config<S>, prefix: Option<seq<Token>>, state: S, startId: Token)
    requires ValidConfig(c) && c.expandAfterFirstStep && RealScores(c, prefix, state, startId)
    ensures ValidConfig(Expanded(c))
    ensures var one := FlatScores(c, prefix, 0, StartRows(c, state, startId));
            var all := FlatScores(Expanded(c), prefix, 0, StartRows(Expanded(c), state, startId));
            && one == FirstLogProbs(c, prefix, state, startId)
            && |one| == c.vocabulary && |all| == c.beamSize * c.vocabulary && |one| <= |all|
            && (forall v :: 0 <= v < |one| ==> all[v] == one[v])
            && (forall v :: |one| <= v < |all| ==> all[v] <= c.lowest)
  {
    hide FlatScores;
    FirstRows(c, state, startId);
    var e := Expanded(c);
    var rows := StartRows(e, state, startId);
    var scores := FirstLogProbs(c, prefix, state, startId);
    FlatScoresAt(c, prefix, 0, StartRows(c, state, startId));
    FlatScoresAt(e, prefix, 0, rows);
    ProductMonotone(1, c.beamSize, c.vocabulary);
    var all := FlatScores(e, prefix, 0, rows);
    var one := FlatScores(c, prefix, 0, StartRows(c, state, startId));
    forall v | 0 <= v < c.vocabulary ensures one[v] == scores[v] == all[v] {
      assert Flat(0, v, c.vocabulary) == v;
      assert RowScores(c, prefix, 0, StartRows(c, state, startId)[0])[v] == scores[v];
      assert RowScores(e, prefix, 0, rows[0])[v] == scores[v];
    }
    forall v | c.vocabulary <= v < |all| ensures all[v] <= c.lowest {
      PositionOf(v, c.beamSize, c.vocabulary);
      var b := RowOf(v, c.vocabulary);
      assert b > 0;
      assert RowScores(e, prefix, 0, rows[b])[ColumnOf(v, c.vocabulary)]
          == c.lowest + scores[ColumnOf(v, c.vocabulary)];
    }
  }

  /** A best-k selection from a longer list whose tail scores at most `low` never leaves the front, if the
      front's best k all score above `low`. */
  lemma TopStaysInFront(one: seq<real>, all: seq<real>, k: nat, ids: seq<nat>, low: real, best: seq<nat>)
    requires |one| <= |all| && k <= |one|
    requires forall v :: 0 <= v < |one| ==> all[v] == one[v]
    requires forall v :: |one| <= v < |all| ==> all[v] <= low
    requires IsTopK(all, k, ids) && IsTopK(one, k, best) && forall j :: 0 <= j < k ==> one[best[j]] > low
    ensures IsTopK(one, k, ids)
  {
    forall j | 0 <= j < k ensures ids[j] < |one| {
      if ids[j] >= |one| {
        SomeNotBetter(all, ids, best, j, k);
      }
    }
  }

  /** A selected element outside `best` is at least as good as some element of `best`. */
  lemma SomeNotBetter(all: seq<real>, ids: seq<nat>, best: seq<nat>, j: nat, k: nat)
    requires IsTopK(all, k, ids) && |best| == k && Indexes(best, |all|) && Distinct(best) && j < k && ids[j] !in best
    ensures exists i :: 0 <= i < k && all[best[i]] <= all[ids[j]]
  {
    if forall i :: 0 <= i < k ==> best[i] in ids {
      DistinctCardinality(ids);
      DistinctCardinality(best);
      assert forall x :: x in Elements(best) ==> x in ids;
      SubsetCardinality(Elements(best), Elements(ids) - {ids[j]});
    }
  }

  /** The expanded step selects within row 0: its selection is one that the unexpanded step allows. */
  lemma ExpandedSelection<S(!new)>(c: Config<S>, prefix: Option<seq<Token>>, state: S, startId: Token)
    requires ValidConfig(c) && c.expandAfterFirstStep && RealScores(c, prefix, state, startId)
    ensures ValidConfig(Expanded(c)) && ValidRows(Expanded(c), StartRows(Expanded(c), state, startId))
    ensures IsTopK(FirstLogProbs(c, prefix, state, startId), c.NumCandidates(),
                   TopIds(Expanded(c), prefix, 0, StartRows(Expanded(c), state, startId)))
  {
    hide FlatScores, StartRows;
    FirstRows(c, state, startId);
    FirstScores(c, prefix, state, startId);
    var one := FlatScores(c, prefix, 0, StartRows(c, state, startId));
    var all := FlatScores(Expanded(c), prefix, 0, StartRows(Expanded(c), state, startId));
    TopStaysInFront(one, all, c.NumCandidates(), TopIds(Expanded(c), prefix, 0, StartRows(Expanded(c), state, startId)),
                    c.lowest, TopIds(c, prefix, 0, StartRows(c, state, startId)));
  }

  /** What the first step makes of its k-th selected id when no token is forced. */
  function FirstForm<S>(c: Config<S>, prefix: Option<seq<Token>>, k: nat, id: Token, score: real): Candidate {
    if prefix.Some? && k > 0 && IsEos(id, c.endIds) then Candidate(0, 0, PENALTY, [0])
    else Candidate(0, id, score, [id])
  }

  /** When no token is forced (no prefix, or an empty one because a batch mate has a prefix), both first steps
      select the same scores position by position, and their candidates are the one-token histories of what
      they select. If the scores determine the selection they yield the same candidates. */
  lemma FirstCandidates<S(!new)>(c: Config<S>, prefix: Option<seq<Token>>, state: S, startId: Token)
    requires ValidConfig(c) && c.expandAfterFirstStep && RealScores(c, prefix, state, startId)
    requires PrefixLength(prefix) == 0
    ensures ValidConfig(Expanded(c)) && ValidRows(Expanded(c), StartRows(Expanded(c), state, startId))
    ensures ValidRows(c, StartRows(c, state, startId))
    ensures var scores := FirstLogProbs(c, prefix, state, startId);
            var a := TopIds(c, prefix, 0, StartRows(c, state, startId));
            var b := TopIds(Expanded(c), prefix, 0, StartRows(Expanded(c), state, startId));
            var unexpanded := Candidates(c, prefix, 0, StartRows(c, state, startId));
            var expanded := Candidates(Expanded(c), prefix, 0, StartRows(Expanded(c), state, startId));
            && (forall k :: 0 <= k < c.NumCandidates() ==>
                  && a[k] < |scores| && b[k] < |scores| && scores[a[k]] == scores[b[k]]
                  && unexpanded[k] == FirstForm(c, prefix, k, a[k], scores[a[k]])
                  && expanded[k] == FirstForm(c, prefix, k, b[k], scores[b[k]]))
            && (Determined(scores, c.NumCandidates()) ==> unexpanded == expanded)
            && (a == b ==> unexpanded == expanded)
  {
    hide FlatScores, StartRows, Candidates, FirstLogProbs;
    FirstRows(c, state, startId);
    FirstScores(c, prefix, state, startId);
    ExpandedSelection(c, prefix, state, startId);
    var scores := FirstLogProbs(c, prefix, state, startId);
    var rows := StartRows(c, state, startId);
    var rows' := StartRows(Expanded(c), state, startId);
    var a := TopIds(c, prefix, 0, rows);
    var b := TopIds(Expanded(c), prefix, 0, rows');
    forall k | 0 <= k < c.NumCandidates()
      ensures Candidates(c, prefix, 0, rows)[k] == FirstForm(c, prefix, k, a[k], scores[a[k]])
      ensures Candidates(Expanded(c), prefix, 0, rows')[k] == FirstForm(c, prefix, k, b[k], scores[b[k]])
      ensures scores[a[k]] == scores[b[k]]
    {
      SmallId(a[k], c.vocabulary);
      SmallId(b[k], c.vocabulary);
      FirstCandidate(c, prefix, rows, k);
      FirstCandidate(Expanded(c), prefix, rows', k);
      TopScoresUnique(scores, c.NumCandidates(), a, b, k);
    }
  }

  lemma SmallId(id: nat, v: nat)
    requires id < v
    ensures RowOf(id, v) == 0 && ColumnOf(id, v) == id
  {
  }

  lemma FirstCandidate<S(!new)>(c: Config<S>, prefix: Option<seq<Token>>, rows: seq<Row<S>>, k: nat)
    requires ValidConfig(c) && ValidRows(c, rows) && k < c.NumCandidates() && rows[0].hist == []
    requires TopIds(c, prefix, 0, rows)[k] < c.vocabulary && PrefixLength(prefix) == 0
    ensures var id := TopIds(c, prefix, 0, rows)[k];
            var scores := FlatScores(c, prefix, 0, rows);
            id < |scores| && Candidates(c, prefix, 0, rows)[k] == FirstForm(c, prefix, k, id, scores[id])
  {
    hide FlatScores, Candidates, TopIds;
    SmallId(TopIds(c, prefix, 0, rows)[k], c.vocabulary);
    CandidateForced(c, prefix, 0, rows, k);
  }

  /** A nonempty forced prefix overrides every candidate of the first step, expanded or not. */
  lemma FirstForced<S(!new)>(c: Config<S>, prefix: seq<Token>, state: S, startId: Token)
    requires ValidConfig(c) && c.expandAfterFirstStep && prefix != []
    ensures ValidConfig(Expanded(c)) && ValidRows(Expanded(c), StartRows(Expanded(c), state, startId))
    ensures ValidRows(c, StartRows(c, state, startId))
    ensures Candidates(c, Some(prefix), 0, StartRows(c, state, startId))
            == Candidates(Expanded(c), Some(prefix), 0, StartRows(Expanded(c), state, startId))
  {
    hide FlatScores;
    FirstRows(c, state, startId);
  }

  // ----- After the first step both searches are the same -----

  /** e is c replicated before the first step, and selects alike among the scores of all beams. */
  ghost predicate Alike<S(!new)>(c: Config<S>, e: Config<S>) {
    && e == c.(expandAfterFirstStep := false, top := e.top)
    && forall xs, k :: |xs| == c.beamSize * c.vocabulary ==> e.top(xs, k) == c.top(xs, k)
  }

  lemma {:induction false} SameScores<S(!new)>(c: Config<S>, e: Config<S>, prefix: Option<seq<Token>>, step: nat,
                                               rows: seq<Row<S>>)
    requires Alike(c, e)
    ensures FlatScores(c, prefix, step, rows) == FlatScores(e, prefix, step, rows)
  {
    if rows != [] { SameScores(c, e, prefix, step, rows[..|rows| - 1]); }
  }

  lemma {:induction false} SameRegistered<S(!new)>(c: Config<S>, e: Config<S>, prefix: Option<seq<Token>>, step: nat,
                                                   cands: seq<Candidate>, k: nat)
    requires Alike(c, e) && k <= |cands|
    ensures Registered(c, prefix, step, cands, k) == Registered(e, prefix, step, cands, k)
  {
    if k > 0 { SameRegistered(c, e, prefix, step, cands, k - 1); }
  }

  lemma {:induction false} SameOffset<S(!new)>(c: Config<S>, e: Config<S>, prefix: Option<seq<Token>>, step: nat,
                                               cands: seq<Candidate>, k: nat)
    requires Alike(c, e) && k <= c.beamSize && |cands| == c.NumCandidates()
    ensures Offset(c, prefix, step, cands, k) == Offset(e, prefix, step, cands, k)
  {
    hide Finishes, NextOffset;
    if k > 0 {
      SameOffset(c, e, prefix, step, cands, k - 1);
      SameFinishes(c, e, prefix, step, cands[k - 1]);
    }
  }

  lemma SameFinishes<S(!new)>(c: Config<S>, e: Config<S>, prefix: Option<seq<Token>>, step: nat, x: Candidate)
    requires Alike(c, e)
    ensures Finishes(c, prefix, step, x) == Finishes(e, prefix, step, x)
  {
  }

  lemma SameChosen<S(!new)>(c: Config<S>, e: Config<S>, prefix: Option<seq<Token>>, step: nat, cands: seq<Candidate>,
                            k: nat)
    requires Alike(c, e) && k < c.beamSize && |cands| == c.NumCandidates()
    ensures Chosen(c, prefix, step, cands, k) == Chosen(e, prefix, step, cands, k)
  {
    hide FirstActive, Offset, Finishes;
    SameOffset(c, e, prefix, step, cands, k);
    SameFinishes(c, e, prefix, step, cands[k]);
  }

  lemma SameCandidates<S(!new)>(c: Config<S>, e: Config<S>, prefix: Option<seq<Token>>, step: nat, rows: seq<Row<S>>)
    requires ValidConfig(c) && Alike(c, e) && |rows| == c.beamSize
    ensures ValidConfig(e)
    ensures Candidates(c, prefix, step, rows) == Candidates(e, prefix, step, rows)
  {
    hide FlatScores, RowScores;
    SameScores(c, e, prefix, step, rows);
    EnoughScores(c, prefix, step, rows);
  }

  /** Steps from equal candidates, with the origins at corresponding rows, lead to equal rows. */
  lemma SameNextRows<S(!new)>(c: Config<S>, e: Config<S>, prefix: Option<seq<Token>>, step: nat,
                              rows: seq<Row<S>>, rows': seq<Row<S>>)
    requires ValidConfig(c) && ValidConfig(e) && Alike(c, e) && ValidRows(c, rows) && ValidRows(e, rows')
    requires Candidates(c, prefix, step, rows) == Candidates(e, prefix, step, rows')
    requires rows == rows' || forall i, j :: 0 <= i < |rows| && 0 <= j < |rows'| ==>
               rows[i].state == rows'[j].state && rows[i].input == rows'[j].input
    ensures NextRows(c, prefix, step, rows) == NextRows(e, prefix, step, rows')
  {
    hide Candidates, Chosen;
    var cands := Candidates(c, prefix, step, rows);
    forall k | 0 <= k < c.beamSize
      ensures NextRows(c, prefix, step, rows)[k] == NextRows(e, prefix, step, rows')[k]
    {
      SameChosen(c, e, prefix, step, cands, k);
      CandidateOrigin(c, prefix, step, rows, Chosen(c, prefix, step, cands, k));
      CandidateOrigin(e, prefix, step, rows', Chosen(c, prefix, step, cands, k));
    }
  }

  lemma SameAdvance<S(!new)>(c: Config<S>, e: Config<S>, prefix: Option<seq<Token>>, step: nat, s: Sentence<S>)
    requires ValidConfig(c) && Alike(c, e) && |s.rows| == c.beamSize
    ensures ValidConfig(e)
    ensures Advance(c, prefix, step, s) == Advance(e, prefix, step, s)
  {
    hide Candidates, NextRows;
    SameCandidates(c, e, prefix, step, s.rows);
    SameNextRows(c, e, prefix, step, s.rows, s.rows);
    SameRegistered(c, e, prefix, step, Candidates(c, prefix, step, s.rows), c.beamSize);
  }

  lemma SameEnd<S(!new)>(c: Config<S>, e: Config<S>, rule: StopRule, prefix: Option<seq<Token>>, step: nat,
                         s: Sentence<S>)
    requires Alike(c, e)
    ensures Stops(c, rule, prefix, step, s.topFinished, |s.hypotheses|)
            == Stops(e, rule, prefix, step, s.topFinished, |s.hypotheses|)
    ensures Finalize(c, s.hypotheses) == Finalize(e, s.hypotheses)
  {
  }

  lemma StepsLeft<S(!new)>(c: Config<S>, rule: StopRule, prefix: Option<seq<Token>>, step: nat, s: Sentence<S>)
    requires step < OwnMaxStep(c, prefix) && !Stops(c, rule, prefix, step, s.topFinished, |s.hypotheses|)
    ensures step + 1 < OwnMaxStep(c, prefix)
  {
  }

  lemma {:induction false} SameRun<S(!new)>(c: Config<S>, e: Config<S>, rule: StopRule, prefix: Option<seq<Token>>,
                                            step: nat, s: Sentence<S>)
    requires ValidConfig(c) && Alike(c, e) && |s.rows| == c.beamSize && step < OwnMaxStep(c, prefix)
    ensures ValidConfig(e)
    ensures BeamRun(c, rule, prefix, step, s) == BeamRun(e, rule, prefix, step, s)
    decreases OwnMaxStep(c, prefix) - step
  {
    hide Advance, Stops, Finalize;
    SameAdvance(c, e, prefix, step, s);
    var next := Advance(c, prefix, step, s);
    SameEnd(c, e, rule, prefix, step, next);
    if !Stops(c, rule, prefix, step, next.topFinished, |next.hypotheses|) {
      StepsLeft(c, rule, prefix, step, next);
      SameRun(c, e, rule, prefix, step + 1, next);
    }
  }

  /** Equal first candidates lead to equal next beams and equal results. */
  lemma SameFromStart<S(!new)>(c: Config<S>, e: Config<S>, rule: StopRule, prefix: Option<seq<Token>>,
                               state: S, startId: Token)
    requires ValidConfig(c) && c.expandAfterFirstStep && ValidConfig(e) && Alike(c, e)
    requires ValidRows(c, Start(c, state, startId).rows) && ValidRows(e, Start(e, state, startId).rows)
    requires Candidates(c, prefix, 0, Start(c, state, startId).rows)
             == Candidates(e, prefix, 0, Start(e, state, startId).rows)
    ensures Advance(c, prefix, 0, Start(c, state, startId)) == Advance(e, prefix, 0, Start(e, state, startId))
    ensures BeamRun(c, rule, prefix, 0, Start(c, state, startId))
            == BeamRun(e, rule, prefix, 0, Start(e, state, startId))
  {
    hide Candidates, NextRows, Registered, Finalize, Stops;
    var s, s' := Start(c, state, startId), Start(e, state, startId);
    SameNextRows(c, e, prefix, 0, s.rows, s'.rows);
    SameRegistered(c, e, prefix, 0, Candidates(c, prefix, 0, s.rows), c.beamSize);
    SameFinishes(c, e, prefix, 0, Candidates(c, prefix, 0, s.rows)[0]);
    var next := Advance(c, prefix, 0, s);
    assert next == Advance(e, prefix, 0, s');
    SameEnd(c, e, rule, prefix, 0, next);
    if !Stops(c, rule, prefix, 0, next.topFinished, |next.hypotheses|) {
      StepsLeft(c, rule, prefix, 0, next);
      SameRun(c, e, rule, prefix, 1, next);
    }
  }

  /** The optimisation keeps the meaning: if a prefix forces the first token, or the first scores are real and
      determine the selection, the unexpanded first step gives the same next beams and the same results. */
  lemma UnexpandedFirstStep<S(!new)>(c: Config<S>, rule: StopRule, prefix: Option<seq<Token>>, state: S, startId: Token)
    requires ValidConfig(c) && c.expandAfterFirstStep
    requires PrefixLength(prefix) > 0
             || (RealScores(c, prefix, state, startId)
                 && Determined(FirstLogProbs(c, prefix, state, startId), c.NumCandidates()))
    ensures ValidConfig(Expanded(c)) && ValidRows(Expanded(c), Start(Expanded(c), state, startId).rows)
    ensures ValidRows(c, Start(c, state, startId).rows)
    ensures Advance(c, prefix, 0, Start(c, state, startId))
            == Advance(Expanded(c), prefix, 0, Start(Expanded(c), state, startId))
    ensures BeamRun(c, rule, prefix, 0, Start(c, state, startId))
            == BeamRun(Expanded(c), rule, prefix, 0, Start(Expanded(c), state, startId))
  {
    hide Candidates, Advance, BeamRun, RealScores;
    FirstRows(c, state, startId);
    if PrefixLength(prefix) > 0 {
      FirstForced(c, prefix.value, state, startId);
    } else {
      FirstCandidates(c, prefix, state, startId);
    }
    SameFromStart(c, Expanded(c), rule, prefix, state, startId);
  }

  /** `top`, except for one choice on one list of scores. */
  ghost function Choosing(top: TopKOp, scores: seq<real>, ids: seq<nat>): (r: TopKOp)
    requires IsTopK(scores, |ids|, ids)
    ensures r(scores, |ids|) == ids && forall xs, k :: xs != scores ==> r(xs, k) == top(xs, k)
  {
    (xs: seq<real>, k: nat) => if xs == scores && k == |ids| then ids else top(xs, k)
  }

  /** With ties too: whatever the replicated search selects, some choice among the tied best scores of the
      first step gives the unexpanded search the same next beams and the same results. */
  lemma UnexpandedWithTies<S(!new)>(c: Config<S>, rule: StopRule, prefix: Option<seq<Token>>, state: S, startId: Token)
    returns (top: TopKOp)
    requires ValidConfig(c) && c.expandAfterFirstStep
    requires PrefixLength(prefix) > 0 || RealScores(c, prefix, state, startId)
    ensures ValidConfig(Expanded(c)) && ValidRows(Expanded(c), Start(Expanded(c), state, startId).rows)
    ensures var d := c.(top := top);
            && ValidConfig(d) && ValidRows(d, Start(d, state, startId).rows)
            && (forall xs, k :: xs != FirstLogProbs(c, prefix, state, startId) ==> top(xs, k) == c.top(xs, k))
            && Advance(d, prefix, 0, Start(d, state, startId))
               == Advance(Expanded(c), prefix, 0, Start(Expanded(c), state, startId))
            && BeamRun(d, rule, prefix, 0, Start(d, state, startId))
               == BeamRun(Expanded(c), rule, prefix, 0, Start(Expanded(c), state, startId))
  {
    hide Candidates, Advance, BeamRun, FlatScores, RealScores;
    top := c.top;
    if PrefixLength(prefix) > 0 {
      UnexpandedFirstStep(c, rule, prefix, state, startId);
    } else if c.beamSize == 1 {
      OneBeam(c, rule, prefix, state, startId);
    } else {
      var e := Expanded(c);
      var scores := FirstLogProbs(c, prefix, state, startId);
      FirstRows(c, state, startId);
      ExpandedSelection(c, prefix, state, startId);
      var ids := TopIds(e, prefix, 0, StartRows(e, state, startId));
      top := Choosing(c.top, scores, ids);
      var d := c.(top := top);
      ChoosingSame(c, d, prefix, state, startId, ids);
      SameFromStart(d, e, rule, prefix, state, startId);
    }
    assert c.(top := c.top) == c;
  }

  /** A single beam is replicated once: both searches start from the same row. */
  lemma OneBeam<S(!new)>(c: Config<S>, rule: StopRule, prefix: Option<seq<Token>>, state: S, startId: Token)
    requires ValidConfig(c) && c.expandAfterFirstStep && c.beamSize == 1
    ensures ValidConfig(Expanded(c)) && ValidRows(Expanded(c), Start(Expanded(c), state, startId).rows)
    ensures ValidRows(c, Start(c, state, startId).rows)
    ensures Advance(c, prefix, 0, Start(c, state, startId))
            == Advance(Expanded(c), prefix, 0, Start(Expanded(c), state, startId))
    ensures BeamRun(c, rule, prefix, 0, Start(c, state, startId))
            == BeamRun(Expanded(c), rule, prefix, 0, Start(Expanded(c), state, startId))
  {
    hide Advance, BeamRun;
    assert Start(c, state, startId).rows == Start(Expanded(c), state, startId).rows;
    SameAdvance(c, Expanded(c), prefix, 0, Start(c, state, startId));
    SameRun(c, Expanded(c), rule, prefix, 0, Start(c, state, startId));
  }

  lemma ChoosingSame<S(!new)>(c: Config<S>, d: Config<S>, prefix: Option<seq<Token>>, state: S, startId: Token,
                              ids: seq<nat>)
    requires ValidConfig(c) && c.expandAfterFirstStep && RealScores(c, prefix, state, startId) && c.beamSize > 1
    requires PrefixLength(prefix) == 0
    requires var scores := FirstLogProbs(c, prefix, state, startId);
             && d == c.(top := d.top) && d.top(scores, c.NumCandidates()) == ids
             && forall xs, k :: xs != scores ==> d.top(xs, k) == c.top(xs, k)
    requires ValidRows(Expanded(c), StartRows(Expanded(c), state, startId))
    requires ids == TopIds(Expanded(c), prefix, 0, StartRows(Expanded(c), state, startId))
    ensures ValidConfig(d) && ValidConfig(Expanded(c)) && Alike(d, Expanded(c))
    ensures ValidRows(d, StartRows(d, state, startId))
    ensures Candidates(d, prefix, 0, StartRows(d, state, startId))
            == Candidates(Expanded(c), prefix, 0, StartRows(Expanded(c), state, startId))
  {
    hide FlatScores, Candidates;
    ProductMonotone(2, c.beamSize, c.vocabulary);
    var e, e' := Expanded(c), Expanded(d);
    FirstRows(d, state, startId);
    FirstScores(d, prefix, state, startId);
    SameCandidates(e', e, prefix, 0, StartRows(e, state, startId));
    SameScores(e', e, prefix, 0, StartRows(e, state, startId));
    FirstCandidates(d, prefix, state, startId);
  }

  /** Started replicated with real scores and unforced, from the first step on no two beams of a sentence
      hold the same history. */
  lemma ReplicatedBeamsDistinct<S(!new)>(c: Config<S>, state: S, startId: Token, n: nat)
    requires ValidConfig(c) && c.expandAfterFirstStep && RealScores(c, None, state, startId) && n > 0
    ensures ValidConfig(Expanded(c)) && ValidRows(Expanded(c), Start(Expanded(c), state, startId).rows)
    ensures HistoriesDistinct(After(Expanded(c), None, n, Start(Expanded(c), state, startId)).rows)
  {
    hide Candidates, Chosen;
    var e := Expanded(c);
    FirstRows(c, state, startId);
    ExpandedSelection(c, None, state, startId);
    FirstCandidates(c, None, state, startId);
    var rows := StartRows(e, state, startId);
    var cands, ids := Candidates(e, None, 0, rows), TopIds(e, None, 0, rows);
    forall k | 0 <= k < c.NumCandidates() ensures cands[k].hist == [ids[k]] {
      FirstHistory(e, rows, k, |FirstLogProbs(c, None, state, startId)|);
    }
    var next := NextRows(e, None, 0, rows);
    forall i, j | 0 <= i < j < c.beamSize ensures next[i].hist != next[j].hist {
      ChosenDistinct(e, None, 0, cands, i, j);
    }
    FirstAfter(e, Start(e, state, startId));
    StayDistinct(e, state, startId, 1, n);
  }

  lemma FirstAfter<S(!new)>(c: Config<S>, s: Sentence<S>)
    requires ValidConfig(c) && ValidRows(c, s.rows)
    ensures After(c, None, 1, s).rows == NextRows(c, None, 0, s.rows)
  {
    hide NextRows, Candidates;
    assert After(c, None, 0, s) == s;
  }

  lemma FirstHistory<S(!new)>(c: Config<S>, rows: seq<Row<S>>, k: nat, v: nat)
    requires ValidConfig(c) && ValidRows(c, rows) && rows[0].hist == [] && v == c.vocabulary
    requires k < c.NumCandidates() && Indexes(TopIds(c, None, 0, rows), v)
    ensures Candidates(c, None, 0, rows)[k].hist == [TopIds(c, None, 0, rows)[k]]
  {
    hide Candidates, FlatScores;
    FirstCandidate(c, None, rows, k);
  }

  // ----- The first step after a forced prefix -----

  /** The beams during and right after a nonempty forced prefix: copies of one row, of which only the first
      has a score. */
  ghost predicate Copies<S>(c: Config<S>, rows: seq<Row<S>>) {
    && |rows| == c.beamSize > 0
    && forall k :: 0 <= k < |rows| ==>
         && rows[k].state == rows[0].state && rows[k].input == rows[0].input && rows[k].hist == rows[0].hist
         && rows[k].score == if k == 0 then 0.0 else PENALTY
  }

  lemma ForcedKeepsCopies<S(!new)>(c: Config<S>, prefix: seq<Token>, step: nat, rows: seq<Row<S>>)
    requires ValidConfig(c) && ValidRows(c, rows) && step < |prefix| && step + 1 < OwnMaxStep(c, Some(prefix))
    ensures Copies(c, NextRows(c, Some(prefix), step, rows))
  {
    hide FlatScores;
    var cands := Candidates(c, Some(prefix), step, rows);
    forall k | 0 <= k < c.beamSize ensures Chosen(c, Some(prefix), step, cands, k) == k {
      assert !Finishes(c, Some(prefix), step, cands[k]);
    }
  }

  /** All through a forced prefix, and on the step after it, the beams are such copies. */
  lemma ForcedBeams<S(!new)>(c: Config<S>, prefix: seq<Token>, s: Sentence<S>, n: nat)
    requires ValidConfig(c) && ValidRows(c, s.rows) && 0 < n <= |prefix| && n < OwnMaxStep(c, Some(prefix))
    ensures Copies(c, After(c, Some(prefix), n, s).rows)
  {
    hide NextRows, Candidates, Registered, Copies;
    ForcedKeepsCopies(c, prefix, n - 1, After(c, Some(prefix), n - 1, s).rows);
  }

  /** Row 0 offers `num_candidates` log-probs above the penalty, none positive. */
  ghost predicate ScoresAbovePenalty<S(!new)>(c: Config<S>, scores: seq<real>) {
    && NonPositive(scores)
    && (forall ids: seq<nat>, k :: IsTopK(scores, c.NumCandidates(), ids) && 0 <= k < |ids| ==>
         scores[ids[k]] > PENALTY)
  }

  lemma CopiesScores<S(!new)>(c: Config<S>, prefix: Option<seq<Token>>, step: nat, rows: seq<Row<S>>)
    requires ValidConfig(c) && Copies(c, rows)
    requires NonPositive(c.logProbs(c.startStep + step, rows[0].input, rows[0].state, rows[0].hist, prefix))
    ensures var one := c.logProbs(c.startStep + step, rows[0].input, rows[0].state, rows[0].hist, prefix);
            var all := FlatScores(c, prefix, step, rows);
            && |one| == c.vocabulary && |all| == c.beamSize * c.vocabulary && |one| <= |all|
            && (forall v :: 0 <= v < |one| ==> all[v] == one[v])
            && (forall v :: |one| <= v < |all| ==> all[v] <= PENALTY)
  {
    hide FlatScores;
    var one := c.logProbs(c.startStep + step, rows[0].input, rows[0].state, rows[0].hist, prefix);
    var all := FlatScores(c, prefix, step, rows);
    FlatScoresAt(c, prefix, step, rows);
    ProductMonotone(1, c.beamSize, c.vocabulary);
    forall v | 0 <= v < c.vocabulary ensures all[v] == one[v] {
      assert Flat(0, v, c.vocabulary) == v;
      assert RowScores(c, prefix, step, rows[0])[v] == one[v];
    }
    forall v | c.vocabulary <= v < |all| ensures all[v] <= PENALTY {
      PositionOf(v, c.beamSize, c.vocabulary);
      var b := RowOf(v, c.vocabulary);
      assert b > 0;
      assert RowScores(c, prefix, step, rows[b])[ColumnOf(v, c.vocabulary)] == PENALTY + one[ColumnOf(v, c.vocabulary)];
    }
  }

  /** Copies of a row select only from the first of them, as that row would alone. */
  lemma CopiesSelection<S(!new)>(c: Config<S>, prefix: Option<seq<Token>>, step: nat, rows: seq<Row<S>>)
    requires ValidConfig(c) && ValidRows(c, rows) && Copies(c, rows) && c.NumCandidates() <= c.vocabulary
    requires ScoresAbovePenalty(c, c.logProbs(c.startStep + step, rows[0].input, rows[0].state, rows[0].hist, prefix))
    ensures var one := c.logProbs(c.startStep + step, rows[0].input, rows[0].state, rows[0].hist, prefix);
            var all := FlatScores(c, prefix, step, rows);
            && |one| == c.vocabulary && |one| <= |all| && (forall v :: 0 <= v < |one| ==> all[v] == one[v])
            && IsTopK(one, c.NumCandidates(), TopIds(c, prefix, step, rows))
  {
    hide FlatScores, TopIds, Copies;
    CopiesScores(c, prefix, step, rows);
    var one := c.logProbs(c.startStep + step, rows[0].input, rows[0].state, rows[0].hist, prefix);
    var best := c.top(one, c.NumCandidates());
    assert IsTopK(one, c.NumCandidates(), best);
    TopStaysInFront(one, FlatScores(c, prefix, step, rows), c.NumCandidates(), TopIds(c, prefix, step, rows), PENALTY,
                    best);
  }

  /** Only the first beam is expanded on the first unconstrained step: every candidate descends from it, with
      the score of its token, except that a secondary end id is replaced by a penalised token 0. */
  lemma OnlyFirstBeamExpanded<S(!new)>(c: Config<S>, prefix: seq<Token>, s: Sentence<S>, k: nat)
    requires ValidConfig(c) && ValidRows(c, s.rows) && prefix != [] && |prefix| < OwnMaxStep(c, Some(prefix))
    requires c.NumCandidates() <= c.vocabulary && k < c.NumCandidates()
    requires ScoresAbovePenalty(c, FirstFreeScores(c, prefix, s))
    ensures var rows := After(c, Some(prefix), |prefix|, s).rows;
            var x := Candidates(c, Some(prefix), |prefix|, rows)[k];
            var scores := FirstFreeScores(c, prefix, s);
            && x.origin == 0 && x.token < |scores|
            && (x.score == scores[x.token] || (k > 0 && x.token == 0 && x.score == PENALTY))
            && (k > 0 ==> !IsEos(x.token, c.endIds) || x.token == 0)
  {
    hide FlatScores, Candidates, TopIds, RowOf, ColumnOf, After, ScoresAbovePenalty, IsEos;
    var n := |prefix|;
    ForcedBeams(c, prefix, s, n);
    var rows := After(c, Some(prefix), n, s).rows;
    CopiesSelection(c, Some(prefix), n, rows);
    var id := TopIds(c, Some(prefix), n, rows)[k];
    SmallId(id, c.vocabulary);
    FirstFreeCandidate(c, prefix, rows, k);
  }

  lemma FirstFreeCandidate<S(!new)>(c: Config<S>, prefix: seq<Token>, rows: seq<Row<S>>, k: nat)
    requires ValidConfig(c) && ValidRows(c, rows) && k < c.NumCandidates()
    ensures var x := Candidates(c, Some(prefix), |prefix|, rows)[k];
            var id := TopIds(c, Some(prefix), |prefix|, rows)[k];
            var token := ColumnOf(id, c.vocabulary);
            var scores := FlatScores(c, Some(prefix), |prefix|, rows);
            && id < |scores|
            && if k > 0 && IsEos(token, c.endIds) then x.origin == 0 && x.token == 0 && x.score == PENALTY
               else x.origin == RowOf(id, c.vocabulary) && x.token == token && x.score == scores[id]
  {
    hide FlatScores, Candidates, TopIds, RowOf, ColumnOf;
    CandidateForced(c, Some(prefix), |prefix|, rows, k);
  }

  /** The log-probs that the first unconstrained step sees on the first beam. */
  ghost function FirstFreeScores<S(!new)>(c: Config<S>, prefix: seq<Token>, s: Sentence<S>): seq<real>
    requires ValidConfig(c) && ValidRows(c, s.rows) && prefix != []
  {
    var row := After(c, Some(prefix), |prefix|, s).rows[0];
    c.logProbs(c.startStep + |prefix|, row.input, row.state, row.hist, Some(prefix))
  }

  // ----- An empty forced prefix -----

  /** The row-wise parts treat an empty prefix as none. */
  ghost predicate EmptyAsAbsent<S(!new)>(c: Config<S>) {
    forall step, tok, st, hist :: c.logProbs(step, tok, st, hist, Some([])) == c.logProbs(step, tok, st, hist, None)
  }

  lemma {:induction false} EmptyPrefixScores<S(!new)>(c: Config<S>, step: nat, rows: seq<Row<S>>)
    requires EmptyAsAbsent(c)
    ensures FlatScores(c, Some([]), step, rows) == FlatScores(c, None, step, rows)
  {
    if rows != [] { EmptyPrefixScores(c, step, rows[..|rows| - 1]); }
  }

  /** No candidate but the top one ends in an end id. */
  ghost predicate SecondariesActive<S>(c: Config<S>, cands: seq<Candidate>) {
    forall k :: 1 <= k < |cands| ==> !IsEos(cands[k].token, c.endIds)
  }

  /** Every candidate but the top one that ends is already what the penalty makes of it: token 0 on the
      first row, penalised. */
  ghost predicate PenaltyChangesNothing<S>(c: Config<S>, cands: seq<Candidate>) {
    forall k :: 1 <= k < |cands| && IsEos(cands[k].token, c.endIds) ==>
      cands[k].origin == 0 && cands[k].token == 0 && cands[k].score == PENALTY
  }

  /** Unless token 0 is an end id, the penalty changes nothing only if there is nothing to penalise. */
  lemma PenaltyIffSecondaries<S>(c: Config<S>, cands: seq<Candidate>)
    ensures SecondariesActive(c, cands) ==> PenaltyChangesNothing(c, cands)
    ensures !IsEos(0, c.endIds) && PenaltyChangesNothing(c, cands) ==> SecondariesActive(c, cands)
  {
  }

  /** A sentence without a forced prefix sees an empty one when a batch mate has one. On the first step its
      candidates are the same exactly when the penalty on secondary end ids changes nothing, which unless token
      0 is an end id means that there are none; later they are always the same. */
  lemma EmptyPrefixIff<S(!new)>(c: Config<S>, step: nat, rows: seq<Row<S>>)
    requires ValidConfig(c) && ValidRows(c, rows) && EmptyAsAbsent(c)
    ensures Candidates(c, Some([]), step, rows) == Candidates(c, None, step, rows)
            <==> step > 0 || PenaltyChangesNothing(c, Candidates(c, None, step, rows))
    ensures !IsEos(0, c.endIds) ==>
              (Candidates(c, Some([]), step, rows) == Candidates(c, None, step, rows)
               <==> step > 0 || SecondariesActive(c, Candidates(c, None, step, rows)))
  {
    hide Candidates, PenaltyChangesNothing, SecondariesActive, IsEos;
    PenaltyIffSecondaries(c, Candidates(c, None, step, rows));
    EmptyPrefixPenalty(c, step, rows);
  }

  lemma EmptyPrefixPenalty<S(!new)>(c: Config<S>, step: nat, rows: seq<Row<S>>)
    requires ValidConfig(c) && ValidRows(c, rows) && EmptyAsAbsent(c)
    ensures Candidates(c, Some([]), step, rows) == Candidates(c, None, step, rows)
            <==> step > 0 || PenaltyChangesNothing(c, Candidates(c, None, step, rows))
  {
    hide Candidates;
    var some, none := Candidates(c, Some([]), step, rows), Candidates(c, None, step, rows);
    forall k | 0 <= k < c.NumCandidates()
      ensures some[k] == none[k] <==> step > 0 || k == 0 || !IsEos(none[k].token, c.endIds)
                                      || (none[k].origin == 0 && none[k].token == 0 && none[k].score == PENALTY)
    {
      EmptyPrefixAt(c, step, rows, k);
    }
  }

  lemma EmptyPrefixAt<S(!new)>(c: Config<S>, step: nat, rows: seq<Row<S>>, k: nat)
    requires ValidConfig(c) && ValidRows(c, rows) && EmptyAsAbsent(c) && k < c.NumCandidates()
    ensures var some, none := Candidates(c, Some([]), step, rows)[k], Candidates(c, None, step, rows)[k];
            some == none <==> step > 0 || k == 0 || !IsEos(none.token, c.endIds)
                              || (none.origin == 0 && none.token == 0 && none.score == PENALTY)
  {
    hide FlatScores, Candidates, RowOf, ColumnOf;
    EmptyPrefixScores(c, step, rows);
    CandidateForced(c, None, step, rows, k);
    CandidateForced(c, Some([]), step, rows, k);
  }

  lemma {:induction false} EmptyPrefixRegistered<S>(c: Config<S>, step: nat, cands: seq<Candidate>, k: nat)
    requires k <= |cands|
    ensures Registered(c, Some([]), step, cands, k) == Registered(c, None, step, cands, k)
  {
    if k > 0 { EmptyPrefixRegistered(c, step, cands, k - 1); }
  }

  lemma EmptyPrefixFinishes<S>(c: Config<S>, step: nat, x: Candidate)
    ensures Finishes(c, Some([]), step, x) == Finishes(c, None, step, x)
  {
  }

  lemma {:induction false} EmptyPrefixOffset<S>(c: Config<S>, step: nat, cands: seq<Candidate>, k: nat)
    requires k <= c.beamSize && |cands| == c.NumCandidates()
    ensures Offset(c, Some([]), step, cands, k) == Offset(c, None, step, cands, k)
  {
    hide Finishes, NextOffset;
    if k > 0 {
      EmptyPrefixOffset(c, step, cands, k - 1);
      EmptyPrefixFinishes(c, step, cands[k - 1]);
    }
  }

  lemma EmptyPrefixAdvance<S(!new)>(c: Config<S>, step: nat, s: Sentence<S>)
    requires ValidConfig(c) && ValidRows(c, s.rows)
    requires Candidates(c, Some([]), step, s.rows) == Candidates(c, None, step, s.rows)
    ensures Advance(c, Some([]), step, s) == Advance(c, None, step, s)
  {
    hide Candidates, Registered, Finishes, Offset;
    var cands := Candidates(c, None, step, s.rows);
    EmptyPrefixRegistered(c, step, cands, c.beamSize);
    EmptyPrefixFinishes(c, step, cands[0]);
    forall k | 0 <= k < c.beamSize
      ensures NextRows(c, Some([]), step, s.rows)[k] == NextRows(c, None, step, s.rows)[k]
    {
      EmptyPrefixOffset(c, step, cands, k);
      EmptyPrefixFinishes(c, step, cands[k]);
      CandidateOrigin(c, None, step, s.rows, Chosen(c, None, step, cands, k));
    }
  }

  /** If so, the batch mate's prefix does not change the result. */
  lemma {:induction false} EmptyPrefixAsNone<S(!new)>(c: Config<S>, rule: StopRule, step: nat, s: Sentence<S>)
    requires ValidConfig(c) && ValidRows(c, s.rows) && EmptyAsAbsent(c)
    requires step > 0 || PenaltyChangesNothing(c, Candidates(c, None, step, s.rows))
    requires step < OwnMaxStep(c, None)
    ensures BeamRun(c, rule, Some([]), step, s) == BeamRun(c, rule, None, step, s)
    decreases OwnMaxStep(c, None) - step
  {
    hide Advance, Candidates;
    EmptyPrefixIff(c, step, s.rows);
    EmptyPrefixAdvance(c, step, s);
    var next := Advance(c, None, step, s);
    if !Stops(c, rule, None, step, next.topFinished, |next.hypotheses|) {
      EmptyPrefixAsNone(c, rule, step + 1, next);
    }
  }

  /** Four tokens with fixed log-probs, two beams, end id 3, one step. */
  function SmallConfig(top: TopKOp, sort: SortOp): Config<()> {
    Config(4, (step: nat, token: Token, state: ()) => (),
           (step: nat, token: Token, state: (), hist: seq<Token>, prefix: Option<seq<Token>>) =>
             [-4.0, -1.0, -3.0, -2.0],
           top, sort, (score: real, length: nat) => score, 2, 2, [3], 0, 1, true, false, true, -1000000.0)
  }

  lemma SmallTop(ids: seq<nat>)
    requires IsTopK([-4.0, -1.0, -3.0, -2.0], 4, ids)
    ensures ids[0] == 1 && ids[1] == 3
  {
    PermutationOnto(ids, 4, 1);
    PermutationOnto(ids, 4, 3);
    var p :| 0 <= p < 4 && ids[p] == 1;
    var q :| 0 <= q < 4 && ids[q] == 3;
    var xs := [-4.0, -1.0, -3.0, -2.0];
    assert xs[1] == -1.0 && xs[3] == -2.0 && xs[0] == -4.0 && xs[2] == -3.0;
    assert xs[ids[0]] >= xs[ids[p]];
    assert q != 0;
    assert ids[1] != ids[0] && xs[ids[1]] >= xs[ids[q]];
  }

  /** A batch mate's prefix can change a sentence's second hypothesis. */
  lemma EmptyPrefixExample(top: TopKOp, sort: SortOp)
    ensures var c := SmallConfig(top, sort);
            && ValidConfig(c) && EmptyAsAbsent(c) && ValidRows(c, Start(c, (), 0).rows)
            && !PenaltyChangesNothing(c, Candidates(c, None, 0, Start(c, (), 0).rows))
            && BeamRun(c, EarlyExit, None, 0, Start(c, (), 0)) != BeamRun(c, EarlyExit, Some([]), 0, Start(c, (), 0))
  {
    hide FlatScores, Finalize;
    var c := SmallConfig(top, sort);
    var rows := Start(c, (), 0).rows;
    SmallScores(top, sort, None);
    SmallScores(top, sort, Some([]));
    SmallTop(TopIds(c, None, 0, rows));
    SmallTop(TopIds(c, Some([]), 0, rows));
    var none, some := Candidates(c, None, 0, rows), Candidates(c, Some([]), 0, rows);
    assert none[0] == some[0] == Candidate(0, 1, -1.0, [1]);
    assert none[1] == Candidate(0, 3, -2.0, [3]) && some[1] == Candidate(0, 0, PENALTY, [0]);
    SmallRegistered(c, None, none);
    SmallRegistered(c, Some([]), some);
    FinalizeTwo(c, Registered(c, None, 0, none, 2));
    FinalizeTwo(c, Registered(c, Some([]), 0, some, 2));
    OneStepRun(c, None);
    OneStepRun(c, Some([]));
    assert Registered(c, None, 0, none, 2)[1].score == -2.0;
    assert Registered(c, Some([]), 0, some, 2)[1].score == PENALTY;
  }

  lemma OneStepRun(c: Config<()>, prefix: Option<seq<Token>>)
    requires ValidConfig(c) && IsLastStep(c, 0, prefix) && ValidRows(c, Start(c, (), 0).rows)
    ensures BeamRun(c, EarlyExit, prefix, 0, Start(c, (), 0))
            == Finalize(c, Registered(c, prefix, 0, Candidates(c, prefix, 0, Start(c, (), 0).rows), c.beamSize))
  {
    hide Candidates, NextRows, Registered, Finalize;
    var registered := Registered(c, prefix, 0, Candidates(c, prefix, 0, Start(c, (), 0).rows), c.beamSize);
    assert [] + registered == registered;
  }

  lemma SmallScores(top: TopKOp, sort: SortOp, prefix: Option<seq<Token>>)
    ensures ValidConfig(SmallConfig(top, sort))
    ensures FlatScores(SmallConfig(top, sort), prefix, 0, Start(SmallConfig(top, sort), (), 0).rows)
            == [-4.0, -1.0, -3.0, -2.0]
  {
    var c := SmallConfig(top, sort);
    var rows := Start(c, (), 0).rows;
    assert rows[..0] == [];
    assert FlatScores(c, prefix, 0, rows[..0]) == [];
    assert RowScores(c, prefix, 0, rows[0]) == [-4.0, -1.0, -3.0, -2.0];
  }

  lemma SmallRegistered(c: Config<()>, prefix: Option<seq<Token>>, cands: seq<Candidate>)
    requires |cands| == 4 && IsLastStep(c, 0, prefix)
    ensures Registered(c, prefix, 0, cands, 2)
            == [Hypothesize(c, prefix, 0, cands[0]), Hypothesize(c, prefix, 0, cands[1])]
  {
    assert Registered(c, prefix, 0, cands, 1) == [Hypothesize(c, prefix, 0, cands[0])];
  }

  lemma FinalizeTwo(c: Config<()>, hyps: seq<Hypothesis>)
    requires |hyps| == 2 && c.numHypotheses == 2 && hyps[0].score > hyps[1].score
    requires forall score, length :: c.normalize(score, length) == score
    ensures Finalize(c, hyps) == hyps
  {
    var all := Normalized(c, hyps);
    var idx := c.sort(Scores(all));
    assert IsDescendingOrder(Scores(all), idx);
    assert idx[0] != idx[1];
    assert Scores(all)[idx[0]] >= Scores(all)[idx[1]];
  }
}
