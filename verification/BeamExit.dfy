/** Early exit is sound: with log-probs at most 0 and no penalties, stopping once the top candidate has finished
    does not change the best score, whatever prefix is forced. */
module BeamExit {
  import opened Options
  import opened RowMajor
  import opened Vectors
  import opened Processors
  import opened Steps
  import opened Beam
  import opened BeamPaths
  import opened BeamFirstStep

  ghost predicate LogProbs<S(!new)>(c: Config<S>) {
    forall step, tok, st, hist, prefix, t ::
      0 <= t < |c.logProbs(step, tok, st, hist, prefix)| ==> c.logProbs(step, tok, st, hist, prefix)[t] <= 0.0
  }

  ghost predicate NoPenalties<S(!new)>(c: Config<S>) {
    forall score, length :: c.normalize(score, length) == score
  }

  ghost predicate AtMost<S>(rows: seq<Row<S>>, bound: real) {
    forall i :: 0 <= i < |rows| ==> rows[i].score <= bound
  }

  ghost predicate AllAtMost(cands: seq<Candidate>, bound: real) {
    forall k :: 0 <= k < |cands| ==> cands[k].score <= bound
  }

  /** Every row has a token that scores at least the penalty: so has each log-softmax over fewer than
      e^10000000000 tokens. */
  ghost predicate BestAbovePenalty<S(!new)>(c: Config<S>) {
    forall step, tok, st, hist, prefix :: Reaches(c.logProbs(step, tok, st, hist, prefix), PENALTY)
  }

  ghost predicate Reaches(scores: seq<real>, bound: real) {
    exists t :: 0 <= t < |scores| && scores[t] >= bound
  }

  /** A step on which the forced prefix changes nothing. */
  predicate Free(prefix: Option<seq<Token>>, step: nat) {
    prefix.None? || step > |prefix.value|
  }

  /** Candidates only lose score, and the top one has the best. */
  lemma CandidatesLose<S(!new)>(c: Config<S>, prefix: Option<seq<Token>>, step: nat, rows: seq<Row<S>>, bound: real)
    requires ValidConfig(c) && ValidRows(c, rows) && LogProbs(c) && AtMost(rows, bound) && Free(prefix, step)
    ensures var cands := Candidates(c, prefix, step, rows);
            AllAtMost(cands, bound) && AllAtMost(cands, cands[0].score)
  {
    hide FlatScores, RowScores;
    var cands := Candidates(c, prefix, step, rows);
    forall k | 0 <= k < |cands| ensures cands[k].score <= bound {
      CandidateParts(c, prefix, step, rows, k);
      var id := TopIds(c, prefix, step, rows)[k];
      ScoreLoses(c, prefix, step, rows[RowOf(id, c.vocabulary)], ColumnOf(id, c.vocabulary));
    }
    EnoughScores(c, prefix, step, rows);
  }

  lemma ScoreLoses<S(!new)>(c: Config<S>, prefix: Option<seq<Token>>, step: nat, row: Row<S>, t: nat)
    requires ValidConfig(c) && LogProbs(c) && t < |RowScores(c, prefix, step, row)|
    ensures RowScores(c, prefix, step, row)[t] <= row.score
  {
  }

  /** On the first step after a forced prefix, too, the top candidate has the best score: it is not below
      the penalty of the secondary end ids. */
  lemma FirstFreeBest<S(!new)>(c: Config<S>, prefix: seq<Token>, rows: seq<Row<S>>)
    requires ValidConfig(c) && ValidRows(c, rows) && BestAbovePenalty(c) && rows[0].score == 0.0
    ensures var cands := Candidates(c, Some(prefix), |prefix|, rows); AllAtMost(cands, cands[0].score)
  {
    hide FlatScores, Candidates, TopIds, RowOf, ColumnOf, Flat;
    var n := |prefix|;
    var row := rows[0];
    assert Reaches(c.logProbs(c.startStep + n, row.input, row.state, row.hist, Some(prefix)), PENALTY);
    var t :| 0 <= t < c.vocabulary && RowScores(c, Some(prefix), n, row)[t] >= PENALTY;
    FlatScoresAt(c, Some(prefix), n, rows);
    var scores, ids := FlatScores(c, Some(prefix), n, rows), TopIds(c, Some(prefix), n, rows);
    assert scores[Flat(0, t, c.vocabulary)] >= PENALTY;
    TopIsBest(scores, c.NumCandidates(), ids, Flat(0, t, c.vocabulary));
    var cands := Candidates(c, Some(prefix), n, rows);
    forall k | 0 <= k < |cands| ensures cands[k].score <= cands[0].score {
      FirstFreeCandidate(c, prefix, rows, 0);
      FirstFreeCandidate(c, prefix, rows, k);
    }
  }

  lemma TopIsBest(xs: seq<real>, k: nat, ids: seq<nat>, v: nat)
    requires IsTopK(xs, k, ids) && k > 0 && v < |xs|
    ensures xs[v] <= xs[ids[0]] && forall j :: 0 <= j < k ==> xs[ids[j]] <= xs[ids[0]]
  {
    if v in ids {
      var p :| 0 <= p < k && ids[p] == v;
    }
  }

  lemma RowsLose<S(!new)>(c: Config<S>, prefix: Option<seq<Token>>, step: nat, rows: seq<Row<S>>, bound: real)
    requires ValidConfig(c) && ValidRows(c, rows)
    requires AllAtMost(Candidates(c, prefix, step, rows), bound)
    ensures AtMost(NextRows(c, prefix, step, rows), bound)
  {
    hide Candidates, Chosen;
  }

  lemma {:induction false} RegisteredLose<S>(c: Config<S>, prefix: Option<seq<Token>>, step: nat,
                                             cands: seq<Candidate>, k: nat, bound: real)
    requires k <= |cands| && AllAtMost(cands, bound)
    ensures NoneAbove(Registered(c, prefix, step, cands, k), bound)
  {
    if k > 0 { RegisteredLose(c, prefix, step, cands, k - 1, bound); }
  }

  ghost predicate NoneAbove(hyps: seq<Hypothesis>, bound: real) {
    forall j :: 0 <= j < |hyps| ==> hyps[j].score <= bound
  }

  ghost predicate SomeReaches(hyps: seq<Hypothesis>, bound: real) {
    exists j :: 0 <= j < |hyps| && hyps[j].score >= bound
  }

  /** Some registered hypothesis is at least as good as every beam still alive. */
  ghost predicate Beaten<S>(s: Sentence<S>) {
    exists bound :: SomeReaches(s.hypotheses, bound) && AtMost(s.rows, bound)
  }

  lemma {:induction false} TopRegistered<S>(c: Config<S>, prefix: Option<seq<Token>>, step: nat,
                                            cands: seq<Candidate>, k: nat)
    requires 0 < k <= |cands| && Finishes(c, prefix, step, cands[0])
    ensures SomeReaches(Registered(c, prefix, step, cands, k), cands[0].score)
  {
    if k > 1 {
      TopRegistered(c, prefix, step, cands, k - 1);
      var r := Registered(c, prefix, step, cands, k - 1);
      var j :| 0 <= j < |r| && r[j].score >= cands[0].score;
      assert Registered(c, prefix, step, cands, k)[j] == r[j];
    } else {
      assert Registered(c, prefix, step, cands, 1)[0].score == cands[0].score;
    }
  }

  lemma ReachesExtend(a: seq<Hypothesis>, b: seq<Hypothesis>, bound: real)
    ensures SomeReaches(a + b, bound) <==> SomeReaches(a, bound) || SomeReaches(b, bound)
  {
    if SomeReaches(a, bound) {
      var j :| 0 <= j < |a| && a[j].score >= bound;
      assert (a + b)[j] == a[j];
    }
    if SomeReaches(b, bound) {
      var j :| 0 <= j < |b| && b[j].score >= bound;
      assert (a + b)[|a| + j] == b[j];
    }
  }

  /** Once the top candidate has finished, the alive beams stay beaten. */
  lemma StaysBeaten<S(!new)>(c: Config<S>, prefix: Option<seq<Token>>, step: nat, s: Sentence<S>)
    requires ValidConfig(c) && ValidRows(c, s.rows) && LogProbs(c)
    requires Free(prefix, step)
             || (step == |prefix.value| && !s.topFinished && BestAbovePenalty(c) && s.rows[0].score == 0.0)
    requires s.topFinished ==> Beaten(s)
    ensures Advance(c, prefix, step, s).topFinished ==> Beaten(Advance(c, prefix, step, s))
  {
    hide Candidates, NextRows, Registered;
    var cands := Candidates(c, prefix, step, s.rows);
    var registered := Registered(c, prefix, step, cands, c.beamSize);
    if s.topFinished {
      var bound :| SomeReaches(s.hypotheses, bound) && AtMost(s.rows, bound);
      CandidatesLose(c, prefix, step, s.rows, bound);
      RowsLose(c, prefix, step, s.rows, bound);
      ReachesExtend(s.hypotheses, registered, bound);
    } else if Finishes(c, prefix, step, cands[0]) {
      var bound := cands[0].score;
      TopRegistered(c, prefix, step, cands, c.beamSize);
      if Free(prefix, step) {
        HighestRow(s.rows);
        var b :| AtMost(s.rows, b);
        CandidatesLose(c, prefix, step, s.rows, b);
      } else {
        FirstFreeBest(c, prefix.value, s.rows);
      }
      RowsLose(c, prefix, step, s.rows, bound);
      ReachesExtend(s.hypotheses, registered, bound);
    }
  }

  lemma {:induction false} HighestRow<S>(rows: seq<Row<S>>)
    ensures exists b :: AtMost(rows, b)
  {
    if rows == [] {
      assert AtMost(rows, 0.0);
    } else {
      var m := |rows| - 1;
      HighestRow(rows[..m]);
      var b :| AtMost(rows[..m], b);
      var bound := if b < rows[m].score then rows[m].score else b;
      forall i | 0 <= i < |rows| ensures rows[i].score <= bound {
        if i < m { assert rows[..m][i] == rows[i]; }
      }
      assert AtMost(rows, bound);
    }
  }

  /** Inside a forced prefix no top candidate finishes, and the first row starts from 0 after it. */
  lemma {:induction false} PrefixUnfinished<S(!new)>(c: Config<S>, prefix: Option<seq<Token>>, state: S,
                                                     startId: Token, n: nat)
    requires ValidConfig(c) && n <= PrefixLength(prefix) && n < OwnMaxStep(c, prefix)
    ensures ValidRows(c, Start(c, state, startId).rows)
    ensures var r := After(c, prefix, n, Start(c, state, startId)); !r.topFinished && r.rows[0].score == 0.0
  {
    hide NextRows, Candidates, Registered;
    var s := Start(c, state, startId);
    if n > 0 {
      PrefixUnfinished(c, prefix, state, startId, n - 1);
      ForcedBeams(c, prefix.value, s, n);
      assert !Finishes(c, prefix, n - 1, Candidates(c, prefix, n - 1, After(c, prefix, n - 1, s).rows)[0]);
    }
  }

  lemma {:induction false} AfterBeaten<S(!new)>(c: Config<S>, prefix: Option<seq<Token>>, state: S, startId: Token,
                                                n: nat)
    requires ValidConfig(c) && LogProbs(c) && (prefix.Some? ==> BestAbovePenalty(c)) && n < OwnMaxStep(c, prefix)
    ensures ValidRows(c, Start(c, state, startId).rows)
    ensures var r := After(c, prefix, n, Start(c, state, startId));
            r.topFinished ==> n > PrefixLength(prefix) && Beaten(r)
  {
    hide Advance, Beaten;
    if n <= PrefixLength(prefix) {
      PrefixUnfinished(c, prefix, state, startId, n);
    } else {
      AfterBeaten(c, prefix, state, startId, n - 1);
      if n - 1 == PrefixLength(prefix) {
        PrefixUnfinished(c, prefix, state, startId, n - 1);
      }
      StaysBeaten(c, prefix, n - 1, After(c, prefix, n - 1, Start(c, state, startId)));
    }
  }

  /** No continuation of beaten beams registers anything better than the best registered so far. */
  lemma {:induction false} LaterNotBetter<S(!new)>(c: Config<S>, prefix: Option<seq<Token>>, n: nat, m: nat,
                                                   s: Sentence<S>, bound: real)
    requires ValidConfig(c) && ValidRows(c, s.rows) && LogProbs(c) && n <= m && Free(prefix, n)
    requires AtMost(After(c, prefix, n, s).rows, bound)
    ensures AtMost(After(c, prefix, m, s).rows, bound)
    ensures var early := After(c, prefix, n, s).hypotheses;
            var late := After(c, prefix, m, s).hypotheses;
            early <= late && NoneAbove(late[|early|..], bound)
  {
    hide Candidates, NextRows, Registered;
    if n < m {
      LaterNotBetter(c, prefix, n, m - 1, s, bound);
      var t := After(c, prefix, m - 1, s);
      var cands := Candidates(c, prefix, m - 1, t.rows);
      CandidatesLose(c, prefix, m - 1, t.rows, bound);
      RowsLose(c, prefix, m - 1, t.rows, bound);
      RegisteredLose(c, prefix, m - 1, cands, c.beamSize, bound);
      var early := After(c, prefix, n, s).hypotheses;
      var late := After(c, prefix, m, s).hypotheses;
      assert late == t.hypotheses + Registered(c, prefix, m - 1, cands, c.beamSize);
      assert late[|early|..] == t.hypotheses[|early|..] + Registered(c, prefix, m - 1, cands, c.beamSize);
    }
  }

  ghost predicate BestScore(hyps: seq<Hypothesis>, best: real) {
    SomeReaches(hyps, best) && NoneAbove(hyps, best)
  }

  lemma FinalBest<S(!new)>(c: Config<S>, hyps: seq<Hypothesis>)
    requires NoPenalties(c) && c.numHypotheses > 0 && hyps != []
    ensures Finalize(c, hyps) != [] && BestScore(hyps, Finalize(c, hyps)[0].score)
  {
    hide Finalize;
    FinalizeBest(c, hyps);
    var j := FinalizeOrigin(c, hyps, 0);
    assert forall i :: 0 <= i < |hyps| ==> hyps[i].score == c.normalize(hyps[i].score, |hyps[i].tokens|);
  }

  lemma BestUnchanged(early: seq<Hypothesis>, late: seq<Hypothesis>, bound: real, a: real, b: real)
    requires early <= late && NoneAbove(late[|early|..], bound) && SomeReaches(early, bound)
    requires BestScore(early, a) && BestScore(late, b)
    ensures a == b
  {
    var i :| 0 <= i < |early| && early[i].score >= a;
    assert late[i] == early[i];
    var j :| 0 <= j < |late| && late[j].score >= b;
    if j < |early| {
      assert late[j] == early[j];
    } else {
      assert late[j] == late[|early|..][j - |early|];
    }
  }

  /** The early exit returns the same best score as the search that runs to its last step. */
  lemma EarlyExitSound<S(!new)>(c: Config<S>, prefix: Option<seq<Token>>, state: S, startId: Token)
    requires ValidConfig(c) && LogProbs(c) && NoPenalties(c) && (prefix.Some? ==> BestAbovePenalty(c))
    ensures ValidRows(c, Start(c, state, startId).rows)
    ensures var early := BeamRun(c, EarlyExit, prefix, 0, Start(c, state, startId));
            var full := BeamRun(c, LastStepOnly, prefix, 0, Start(c, state, startId));
            early != [] && full != [] && early[0].score == full[0].score
  {
    hide BeamRun, Finalize, Advance, After;
    StartAligned(c, prefix, state, startId);
    var s := Start(c, state, startId);
    var n := RunReached(c, EarlyExit, prefix, s);
    var m := RunReached(c, LastStepOnly, prefix, s);
    LastStepCount(c, prefix, m, s);
    var late := After(c, prefix, m, s).hypotheses;
    FinalBest(c, late);
    if n < m {
      AfterBeaten(c, prefix, state, startId, n);
      var t := After(c, prefix, n, s);
      var bound :| SomeReaches(t.hypotheses, bound) && AtMost(t.rows, bound);
      LaterNotBetter(c, prefix, n, m, s, bound);
      FinalBest(c, t.hypotheses);
      BestUnchanged(t.hypotheses, late, bound, Finalize(c, t.hypotheses)[0].score, Finalize(c, late)[0].score);
    }
  }
}
