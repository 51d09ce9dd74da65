/** What the rows and hypotheses of a beam search stand for: histories, decoder states, scores, prefixes.

    `After` is a sentence after n steps of `Beam.Advance`; `RunReached` ties it to `Beam.BeamRun`. */
module BeamPaths {
  import opened Options
  import opened RowMajor
  import opened Vectors
  import opened Processors
  import opened Steps
  import opened Beam

  // ----- Runs -----

  ghost function After<S(!new)>(c: Config<S>, prefix: Option<seq<Token>>, n: nat, s: Sentence<S>): (r: Sentence<S>)
    requires ValidConfig(c) && ValidRows(c, s.rows)
    ensures ValidRows(c, r.rows) && (n > 0 ==> |r.rows| == c.beamSize)
  {
    if n == 0 then s else Advance(c, prefix, n - 1, After(c, prefix, n - 1, s))
  }

  ghost predicate StopsAfter<S(!new)>(c: Config<S>, rule: StopRule, prefix: Option<seq<Token>>, n: nat, s: Sentence<S>)
    requires ValidConfig(c) && ValidRows(c, s.rows) && n > 0
  {
    Stops(c, rule, prefix, n - 1, After(c, prefix, n, s).topFinished, |After(c, prefix, n, s).hypotheses|)
  }

  /** A sentence is finalised once, after the first step that stops it, and no later than its own last step. */
  lemma RunReached<S(!new)>(c: Config<S>, rule: StopRule, prefix: Option<seq<Token>>, s: Sentence<S>) returns (n: nat)
    requires ValidConfig(c) && ValidRows(c, s.rows)
    ensures 0 < n <= OwnMaxStep(c, prefix)
    ensures StopsAfter(c, rule, prefix, n, s) && forall m :: 0 < m < n ==> !StopsAfter(c, rule, prefix, m, s)
    ensures BeamRun(c, rule, prefix, 0, s) == Finalize(c, After(c, prefix, n, s).hypotheses)
  {
    n := RunReachedFrom(c, rule, prefix, s, 0);
  }

  lemma {:induction false} RunReachedFrom<S(!new)>(c: Config<S>, rule: StopRule, prefix: Option<seq<Token>>,
                                                   s: Sentence<S>, m: nat)
    returns (n: nat)
    requires ValidConfig(c) && ValidRows(c, s.rows) && m < OwnMaxStep(c, prefix)
    ensures m < n <= OwnMaxStep(c, prefix)
    ensures StopsAfter(c, rule, prefix, n, s) && forall k :: m < k < n ==> !StopsAfter(c, rule, prefix, k, s)
    ensures BeamRun(c, rule, prefix, m, After(c, prefix, m, s)) == Finalize(c, After(c, prefix, n, s).hypotheses)
    decreases OwnMaxStep(c, prefix) - m
  {
    hide Advance, Finalize;
    n := m + 1;
    assert After(c, prefix, n, s) == Advance(c, prefix, m, After(c, prefix, m, s));
    if !StopsAfter(c, rule, prefix, n, s) {
      n := RunReachedFrom(c, rule, prefix, s, m + 1);
    }
  }

  // ----- When a sentence stops, and what it has registered -----

  /** `max_length` steps, after those of a forced prefix that is not returned. */
  function StepLimit<S>(c: Config<S>, prefix: Option<seq<Token>>): nat {
    if prefix.Some? && !c.returnPrefix then |prefix.value| + c.maxLength else c.maxLength
  }

  /** A candidate of a step is finished: an end id after the forced prefix, or the last step. */
  predicate Ended<S>(c: Config<S>, prefix: Option<seq<Token>>, step: nat, x: Candidate) {
    (x.token in c.endIds && (prefix.Some? ==> step >= |prefix.value|)) || step + 1 == StepLimit(c, prefix)
  }

  /** The top candidate of one of the first n steps finished. */
  ghost predicate TopEnded<S(!new)>(c: Config<S>, prefix: Option<seq<Token>>, n: nat, s: Sentence<S>)
    requires ValidConfig(c) && ValidRows(c, s.rows)
  {
    exists j :: 0 <= j < n && TopEndedAt(c, prefix, j, s)
  }

  ghost predicate TopEndedAt<S(!new)>(c: Config<S>, prefix: Option<seq<Token>>, j: nat, s: Sentence<S>)
    requires ValidConfig(c) && ValidRows(c, s.rows)
  {
    Ended(c, prefix, j, Candidates(c, prefix, j, After(c, prefix, j, s).rows)[0])
  }

  /** What the rule demands before a sentence stops ahead of its last step, after n steps. */
  ghost predicate MayStop<S(!new)>(c: Config<S>, rule: StopRule, prefix: Option<seq<Token>>, n: nat, s: Sentence<S>)
    requires ValidConfig(c) && ValidRows(c, s.rows)
  {
    var registered := |After(c, prefix, n, s).hypotheses|;
    match rule
    case EarlyExit => TopEnded(c, prefix, n, s) && registered >= c.numHypotheses
    case MaxCandidates(m) => registered >= m
    case LastStepOnly => false
  }

  lemma {:induction false} TopFlag<S(!new)>(c: Config<S>, prefix: Option<seq<Token>>, n: nat, s: Sentence<S>)
    requires ValidConfig(c) && ValidRows(c, s.rows) && !s.topFinished
    ensures After(c, prefix, n, s).topFinished <==> TopEnded(c, prefix, n, s)
  {
    hide Candidates, NextRows, Registered;
    if n > 0 {
      TopFlag(c, prefix, n - 1, s);
      EndedIff(c, prefix, n - 1, Candidates(c, prefix, n - 1, After(c, prefix, n - 1, s).rows)[0]);
      assert TopEndedAt(c, prefix, n - 1, s)
          <==> Finishes(c, prefix, n - 1, Candidates(c, prefix, n - 1, After(c, prefix, n - 1, s).rows)[0]);
    }
  }

  lemma EndedIff<S>(c: Config<S>, prefix: Option<seq<Token>>, step: nat, x: Candidate)
    ensures Finishes(c, prefix, step, x) <==> Ended(c, prefix, step, x)
  {
  }

  lemma StopsIff<S(!new)>(c: Config<S>, rule: StopRule, prefix: Option<seq<Token>>, n: nat, s: Sentence<S>)
    requires ValidConfig(c) && ValidRows(c, s.rows) && !s.topFinished && n > 0
    ensures StopsAfter(c, rule, prefix, n, s) <==> n == StepLimit(c, prefix) || MayStop(c, rule, prefix, n, s)
  {
    hide After, TopEnded;
    TopFlag(c, prefix, n, s);
  }

  /** The result is what `Finalize` makes of the hypotheses registered by the first n steps, where n is the first
      step count at which the rule lets the sentence stop, and at most its step limit. */
  lemma RunStops<S(!new)>(c: Config<S>, rule: StopRule, prefix: Option<seq<Token>>, state: S, startId: Token)
    returns (n: nat)
    requires ValidConfig(c)
    ensures ValidRows(c, Start(c, state, startId).rows)
    ensures var s := Start(c, state, startId);
            && 0 < n <= StepLimit(c, prefix)
            && (n == StepLimit(c, prefix) || MayStop(c, rule, prefix, n, s))
            && (forall k :: 0 < k < n ==> !MayStop(c, rule, prefix, k, s))
            && BeamRun(c, rule, prefix, 0, s) == Finalize(c, After(c, prefix, n, s).hypotheses)
  {
    hide BeamRun, After, Finalize, MayStop, StopsAfter;
    var s := Start(c, state, startId);
    n := RunReached(c, rule, prefix, s);
    StopsIff(c, rule, prefix, n, s);
    forall k | 0 < k < n ensures !MayStop(c, rule, prefix, k, s) {
      StopsIff(c, rule, prefix, k, s);
    }
  }

  /** x is what the hypothesis of a finished candidate shows: its history from the prefix on (or all of it), without
      a final end id unless that is included, and its score. */
  ghost predicate Shows<S>(c: Config<S>, prefix: Option<seq<Token>>, y: Candidate, x: Hypothesis) {
    var start := if prefix.Some? && !c.returnPrefix then |prefix.value| else 0;
    var end := if y.token in c.endIds && !c.includeEos then |y.hist| - 1 else |y.hist|;
    start <= end && x == Hypothesis(y.hist[start..end], y.score)
  }

  /** The hypotheses of a step: those of exactly the finished candidates among the first k, in order. */
  ghost predicate RegistersEnded<S>(c: Config<S>, prefix: Option<seq<Token>>, step: nat, cands: seq<Candidate>,
                                    k: nat, hyps: seq<Hypothesis>, idx: seq<nat>)
    requires k <= |cands|
  {
    && |hyps| == |idx| && Indexes(idx, k) && StrictlyIncreasing(idx)
    && (forall j :: 0 <= j < k ==> (Ended(c, prefix, step, cands[j]) <==> j in idx))
    && forall i :: 0 <= i < |idx| ==> Shows(c, prefix, cands[idx[i]], hyps[i])
  }

  lemma {:induction false} RegisteredEnded<S(!new)>(c: Config<S>, prefix: Option<seq<Token>>, step: nat,
                                                    cands: seq<Candidate>, k: nat)
    returns (idx: seq<nat>)
    requires k <= |cands| && c.maxLength > 0
    requires forall j :: 0 <= j < |cands| ==> |cands[j].hist| == step + 1
    ensures RegistersEnded(c, prefix, step, cands, k, Registered(c, prefix, step, cands, k), idx)
  {
    hide Ended, Shows, Hypothesize, Finishes;
    if k == 0 {
      idx := [];
    } else {
      idx := RegisteredEnded(c, prefix, step, cands, k - 1);
      EndedIff(c, prefix, step, cands[k - 1]);
      if Finishes(c, prefix, step, cands[k - 1]) {
        EndedShows(c, prefix, step, cands[k - 1]);
        idx := idx + [k - 1];
      }
    }
  }

  lemma EndedShows<S>(c: Config<S>, prefix: Option<seq<Token>>, step: nat, x: Candidate)
    requires Finishes(c, prefix, step, x) && |x.hist| == step + 1 && c.maxLength > 0
    ensures Shows(c, prefix, x, Hypothesize(c, prefix, step, x))
  {
  }

  /** The hypotheses after n + 1 steps: those after n steps, and then those of step n. */
  lemma HypothesesOfStep<S(!new)>(c: Config<S>, prefix: Option<seq<Token>>, state: S, startId: Token, n: nat)
    returns (idx: seq<nat>)
    requires ValidConfig(c)
    ensures ValidRows(c, Start(c, state, startId).rows)
    ensures var s := Start(c, state, startId);
            var before, after := After(c, prefix, n, s), After(c, prefix, n + 1, s);
            && before.hypotheses <= after.hypotheses
            && RegistersEnded(c, prefix, n, Candidates(c, prefix, n, before.rows), c.beamSize,
                              after.hypotheses[|before.hypotheses|..], idx)
  {
    hide Candidates, NextRows, Registered, RegistersEnded;
    StartAligned(c, prefix, state, startId);
    RowsAligned(c, prefix, state, startId, n);
    var before := After(c, prefix, n, Start(c, state, startId));
    var cands := Candidates(c, prefix, n, before.rows);
    forall k | 0 <= k < |cands| ensures |cands[k].hist| == n + 1 {
      CandidateOrigin(c, prefix, n, before.rows, k);
      assert RowAligned(c, prefix, state, startId, n, before.rows[cands[k].origin]);
    }
    idx := RegisteredEnded(c, prefix, n, cands, c.beamSize);
  }

  // ----- What a row stands for -----

  function LastInput(startId: Token, hist: seq<Token>): Token {
    if hist == [] then startId else hist[|hist| - 1]
  }

  /** The decoder state reached by feeding the start token and then hist without its last token. */
  function Fed<S>(c: Config<S>, state: S, startId: Token, hist: seq<Token>): S {
    if hist == [] then state
    else
      var h := hist[..|hist| - 1];
      c.next(c.startStep + |h|, LastInput(startId, h), Fed(c, state, startId, h))
  }

  /** The sum of the model log-probs of a history's tokens from position `from` on. */
  function PathScore<S(!new)>(c: Config<S>, prefix: Option<seq<Token>>, state: S, startId: Token, hist: seq<Token>,
                              from: nat): real
    requires ValidConfig(c)
    requires forall k :: from <= k < |hist| ==> hist[k] < c.vocabulary
  {
    if |hist| <= from then 0.0
    else
      var h := hist[..|hist| - 1];
      PathScore(c, prefix, state, startId, h, from)
      + c.logProbs(c.startStep + |h|, LastInput(startId, h), Fed(c, state, startId, h), h, prefix)[hist[|h|]]
  }

  /** What the score of a history starts from, and from where on its tokens count: the score of the first row
      or of a replicated one and all tokens; 0 or the penalty of the forced tokens and the tokens after the
      prefix; or the penalty of a secondary end id, which became token 0 right after the prefix. */
  predicate IsBase<S>(c: Config<S>, prefix: Option<seq<Token>>, hist: seq<Token>, base: real, from: nat) {
    var n := PrefixLength(prefix);
    || (from == n && base == 0.0)
    || (from == n && (n == 0 || hist == []) && !c.expandAfterFirstStep && base == c.lowest)
    || (from == n && n > 0 && hist != [] && base == PENALTY)
    || (from == n + 1 && prefix.Some? && |hist| > n && hist[n] == 0 && base == PENALTY)
  }

  /** hist starts with the forced prefix as far as it reaches. */
  predicate Forced(prefix: Option<seq<Token>>, hist: seq<Token>) {
    forall k :: 0 <= k < |hist| && k < PrefixLength(prefix) ==> hist[k] == prefix.value[k]
  }

  /** A score is a base plus the true sum of the log-probs of the history's free tokens. */
  ghost predicate TrueScore<S(!new)>(c: Config<S>, prefix: Option<seq<Token>>, state: S, startId: Token,
                                     hist: seq<Token>, score: real)
    requires ValidConfig(c)
  {
    exists base, from :: Scored(c, prefix, state, startId, hist, score, base, from)
  }

  ghost predicate Scored<S(!new)>(c: Config<S>, prefix: Option<seq<Token>>, state: S, startId: Token,
                                  hist: seq<Token>, score: real, base: real, from: nat)
    requires ValidConfig(c)
  {
    && IsBase(c, prefix, hist, base, from)
    && (forall k :: from <= k < |hist| ==> hist[k] < c.vocabulary)
    && score == base + PathScore(c, prefix, state, startId, hist, from)
  }

  /** Row of a sentence at the start of step n. */
  ghost predicate RowAligned<S(!new)>(c: Config<S>, prefix: Option<seq<Token>>, state: S, startId: Token, n: nat,
                                      row: Row<S>)
    requires ValidConfig(c)
  {
    && |row.hist| == n
    && row.state == Fed(c, state, startId, row.hist)
    && row.input == LastInput(startId, row.hist)
    && Forced(prefix, row.hist)
    && TrueScore(c, prefix, state, startId, row.hist, row.score)
  }

  ghost predicate Aligned<S(!new)>(c: Config<S>, prefix: Option<seq<Token>>, state: S, startId: Token, n: nat,
                                   rows: seq<Row<S>>)
    requires ValidConfig(c)
  {
    forall i :: 0 <= i < |rows| ==> RowAligned(c, prefix, state, startId, n, rows[i])
  }

  ghost predicate CandidateAligned<S(!new)>(c: Config<S>, prefix: Option<seq<Token>>, state: S, startId: Token,
                                            n: nat, x: Candidate)
    requires ValidConfig(c)
  {
    && |x.hist| == n + 1 && x.hist[n] == x.token
    && Forced(prefix, x.hist)
    && TrueScore(c, prefix, state, startId, x.hist, x.score)
  }

  /** Candidate k before and after the forced prefix. */
  lemma CandidateParts<S(!new)>(c: Config<S>, prefix: Option<seq<Token>>, step: nat, rows: seq<Row<S>>, k: nat)
    requires ValidConfig(c) && ValidRows(c, rows) && k < c.NumCandidates()
    ensures var x := Candidates(c, prefix, step, rows)[k];
            var id := TopIds(c, prefix, step, rows)[k];
            var origin := RowOf(id, c.vocabulary);
            var token := ColumnOf(id, c.vocabulary);
            && origin < |rows| && token < c.vocabulary && Flat(origin, token, c.vocabulary) == id
            && |RowScores(c, prefix, step, rows[origin])| == c.vocabulary
            && (x.origin, x.token, x.score)
               == Force(c, prefix, step, k, origin, token, RowScores(c, prefix, step, rows[origin])[token])
            && x.origin < |rows| && x.hist == rows[x.origin].hist + [x.token]
  {
    hide FlatScores, RowScores, Force, TopIds, IsTopK, Indexes, Candidates, Flat, RowOf, ColumnOf;
    TopIdInRange(c, prefix, step, rows, k);
    CandidateForced(c, prefix, step, rows, k);
    FlatScoresAt(c, prefix, step, rows);
    CandidateOrigin(c, prefix, step, rows, k);
  }

  /** A free token adds its log-prob. */
  lemma FreeScoreStep<S(!new)>(c: Config<S>, prefix: Option<seq<Token>>, state: S, startId: Token, row: Row<S>,
                               n: nat, token: Token)
    requires ValidConfig(c) && RowAligned(c, prefix, state, startId, n, row) && token < c.vocabulary
    requires n >= PrefixLength(prefix)
    ensures |RowScores(c, prefix, n, row)| == c.vocabulary
    ensures TrueScore(c, prefix, state, startId, row.hist + [token], RowScores(c, prefix, n, row)[token])
  {
    hide Fed;
    var hist := row.hist + [token];
    assert hist[..n] == row.hist;
    var base, from :| Scored(c, prefix, state, startId, row.hist, row.score, base, from);
    assert RowScores(c, prefix, n, row)[token]
        == row.score + c.logProbs(c.startStep + n, row.input, row.state, row.hist, prefix)[token]
        == base + PathScore(c, prefix, state, startId, hist, from);
    assert Scored(c, prefix, state, startId, hist, RowScores(c, prefix, n, row)[token], base, from);
  }

  /** A forced token sets the score to 0 or the penalty. */
  lemma ForcedScoreStep<S(!new)>(c: Config<S>, prefix: Option<seq<Token>>, state: S, startId: Token, hist: seq<Token>,
                                 score: real)
    requires ValidConfig(c) && 0 < |hist| <= PrefixLength(prefix) && (score == 0.0 || score == PENALTY)
    ensures TrueScore(c, prefix, state, startId, hist, score)
  {
    assert Scored(c, prefix, state, startId, hist, score, score, PrefixLength(prefix));
  }

  /** A secondary end id right after the prefix starts again from the penalty. */
  lemma PenalisedScore<S(!new)>(c: Config<S>, prefix: Option<seq<Token>>, state: S, startId: Token, hist: seq<Token>)
    requires ValidConfig(c) && prefix.Some? && |hist| == PrefixLength(prefix) + 1 && hist[|hist| - 1] == 0
    ensures TrueScore(c, prefix, state, startId, hist, PENALTY)
  {
    assert Scored(c, prefix, state, startId, hist, PENALTY, PENALTY, |hist|);
  }

  lemma ForcedStep<S>(c: Config<S>, prefix: Option<seq<Token>>, step: nat, k: nat, origin: nat, token: Token,
                      score: real,
                      hist: seq<Token>)
    requires Forced(prefix, hist) && |hist| == step
    ensures Forced(prefix, hist + [Force(c, prefix, step, k, origin, token, score).1])
  {
  }

  lemma CandidatesAligned<S(!new)>(c: Config<S>, prefix: Option<seq<Token>>, state: S, startId: Token, n: nat,
                                   rows: seq<Row<S>>, k: nat)
    requires ValidConfig(c) && ValidRows(c, rows) && Aligned(c, prefix, state, startId, n, rows)
             && k < c.NumCandidates()
    ensures CandidateAligned(c, prefix, state, startId, n, Candidates(c, prefix, n, rows)[k])
  {
    hide Candidates, TopIds, RowScores, TrueScore, Fed, RowOf, ColumnOf, Flat;
    CandidateParts(c, prefix, n, rows, k);
    var x := Candidates(c, prefix, n, rows)[k];
    var id := TopIds(c, prefix, n, rows)[k];
    var origin, token := RowOf(id, c.vocabulary), ColumnOf(id, c.vocabulary);
    assert RowAligned(c, prefix, state, startId, n, rows[x.origin]);
    ForcedStep(c, prefix, n, k, origin, token, RowScores(c, prefix, n, rows[origin])[token], rows[x.origin].hist);
    if n < PrefixLength(prefix) {
      ForcedScoreStep(c, prefix, state, startId, x.hist, x.score);
    } else {
      FreeScoreStep(c, prefix, state, startId, rows[origin], n, token);
      if prefix.Some? && n == |prefix.value| && k > 0 && IsEos(token, c.endIds) {
        PenalisedScore(c, prefix, state, startId, x.hist);
      }
    }
  }

  /** Beams stay aligned: gathered states, inputs and histories of the next step belong together. */
  lemma NextAligned<S(!new)>(c: Config<S>, prefix: Option<seq<Token>>, state: S, startId: Token, n: nat,
                             rows: seq<Row<S>>)
    requires ValidConfig(c) && ValidRows(c, rows) && Aligned(c, prefix, state, startId, n, rows)
    ensures Aligned(c, prefix, state, startId, n + 1, NextRows(c, prefix, n, rows))
  {
    hide Candidates, Chosen, TrueScore;
    var cands := Candidates(c, prefix, n, rows);
    forall i | 0 <= i < c.beamSize
      ensures RowAligned(c, prefix, state, startId, n + 1, NextRows(c, prefix, n, rows)[i])
    {
      var k := Chosen(c, prefix, n, cands, i);
      CandidateOrigin(c, prefix, n, rows, k);
      CandidatesAligned(c, prefix, state, startId, n, rows, k);
      var x := cands[k];
      assert RowAligned(c, prefix, state, startId, n, rows[x.origin]);
      assert x.hist[..n] == rows[x.origin].hist;
    }
  }

  lemma StartAligned<S(!new)>(c: Config<S>, prefix: Option<seq<Token>>, state: S, startId: Token)
    requires ValidConfig(c)
    ensures ValidRows(c, Start(c, state, startId).rows)
    ensures Aligned(c, prefix, state, startId, 0, Start(c, state, startId).rows)
  {
    forall i | 0 <= i < |Start(c, state, startId).rows|
      ensures RowAligned(c, prefix, state, startId, 0, Start(c, state, startId).rows[i])
    {
      var row := Start(c, state, startId).rows[i];
      assert Scored(c, prefix, state, startId, row.hist, row.score, row.score, PrefixLength(prefix));
    }
  }

  /** At the start of every step: each row's state, input, score and history belong together, and the
      history starts with the forced prefix. The score counts the free tokens only. */
  lemma {:induction false} RowsAligned<S(!new)>(c: Config<S>, prefix: Option<seq<Token>>, state: S, startId: Token,
                                                n: nat)
    requires ValidConfig(c)
    ensures ValidRows(c, Start(c, state, startId).rows)
    ensures Aligned(c, prefix, state, startId, n, After(c, prefix, n, Start(c, state, startId)).rows)
  {
    hide NextRows, Candidates, RowAligned;
    StartAligned(c, prefix, state, startId);
    if n > 0 {
      RowsAligned(c, prefix, state, startId, n - 1);
      NextAligned(c, prefix, state, startId, n - 1, After(c, prefix, n - 1, Start(c, state, startId)).rows);
    }
  }

  // ----- What a hypothesis stands for -----

  /** The finished history behind a hypothesis: it starts with the forced prefix, it ends at the sentence's
      last step or with an end id after the prefix, and the hypothesis shows it from the prefix on, without
      that end id unless it is included. Its score is true. */
  ghost predicate Justifies<S(!new)>(c: Config<S>, prefix: Option<seq<Token>>, state: S, startId: Token,
                                     hist: seq<Token>, x: Hypothesis)
    requires ValidConfig(c)
  {
    && 0 < |hist| <= OwnMaxStep(c, prefix)
    && Forced(prefix, hist)
    && var eos := IsEos(hist[|hist| - 1], c.endIds);
       var start := if c.returnPrefix then 0 else PrefixLength(prefix);
       var end := if eos && !c.includeEos then |hist| - 1 else |hist|;
    && (|hist| == OwnMaxStep(c, prefix) || (eos && |hist| > PrefixLength(prefix)))
    && start <= end && x.tokens == hist[start..end]
    && TrueScore(c, prefix, state, startId, hist, x.score)
  }

  ghost predicate Justified<S(!new)>(c: Config<S>, prefix: Option<seq<Token>>, state: S, startId: Token, x: Hypothesis)
    requires ValidConfig(c)
  {
    exists hist :: Justifies(c, prefix, state, startId, hist, x)
  }

  lemma CandidateJustified<S(!new)>(c: Config<S>, prefix: Option<seq<Token>>, state: S, startId: Token, n: nat,
                                    x: Candidate)
    requires ValidConfig(c) && CandidateAligned(c, prefix, state, startId, n, x) && n < OwnMaxStep(c, prefix)
    requires Finishes(c, prefix, n, x)
    ensures Justified(c, prefix, state, startId, Hypothesize(c, prefix, n, x))
  {
    hide TrueScore;
    assert Justifies(c, prefix, state, startId, x.hist, Hypothesize(c, prefix, n, x));
  }

  lemma {:induction false} RegisteredJustified<S(!new)>(c: Config<S>, prefix: Option<seq<Token>>, state: S,
                                                        startId: Token,
                                                       n: nat, cands: seq<Candidate>, k: nat)
    requires ValidConfig(c) && k <= |cands| && n < OwnMaxStep(c, prefix)
    requires forall j :: 0 <= j < |cands| ==> CandidateAligned(c, prefix, state, startId, n, cands[j])
    ensures forall j :: 0 <= j < |Registered(c, prefix, n, cands, k)| ==>
              Justified(c, prefix, state, startId, Registered(c, prefix, n, cands, k)[j])
  {
    hide CandidateAligned, Hypothesize, Justified;
    if k > 0 {
      RegisteredJustified(c, prefix, state, startId, n, cands, k - 1);
      if Finishes(c, prefix, n, cands[k - 1]) {
        CandidateJustified(c, prefix, state, startId, n, cands[k - 1]);
      }
    }
  }

  /** Every hypothesis registered by any step up to the sentence's last one has such a history. */
  lemma {:induction false} HypothesesJustified<S(!new)>(c: Config<S>, prefix: Option<seq<Token>>, state: S,
                                                        startId: Token, n: nat)
    requires ValidConfig(c) && n <= OwnMaxStep(c, prefix)
    ensures ValidRows(c, Start(c, state, startId).rows)
    ensures var hyps := After(c, prefix, n, Start(c, state, startId)).hypotheses;
            forall j :: 0 <= j < |hyps| ==> Justified(c, prefix, state, startId, hyps[j])
  {
    hide NextRows, Candidates, CandidateAligned, Justified, Registered;
    StartAligned(c, prefix, state, startId);
    if n > 0 {
      HypothesesJustified(c, prefix, state, startId, n - 1);
      RowsAligned(c, prefix, state, startId, n - 1);
      var s := After(c, prefix, n - 1, Start(c, state, startId));
      var cands := Candidates(c, prefix, n - 1, s.rows);
      forall k | 0 <= k < |cands| ensures CandidateAligned(c, prefix, state, startId, n - 1, cands[k]) {
        CandidatesAligned(c, prefix, state, startId, n - 1, s.rows, k);
      }
      RegisteredJustified(c, prefix, state, startId, n - 1, cands, c.beamSize);
    }
  }

  // ----- The result of a run -----

  /** Each result is a registered hypothesis with its score normalised. */
  lemma FinalizeOrigin<S(!new)>(c: Config<S>, hyps: seq<Hypothesis>, k: nat) returns (j: nat)
    requires k < |Finalize(c, hyps)|
    ensures j < |hyps| && Finalize(c, hyps)[k]
            == Hypothesis(hyps[j].tokens, c.normalize(hyps[j].score, |hyps[j].tokens|))
  {
    var all := Normalized(c, hyps);
    var idx := c.sort(Scores(all));
    assert IsDescendingOrder(Scores(all), idx);
    j := idx[k];
  }

  ghost predicate BestFirst(hyps: seq<Hypothesis>) {
    forall j, k :: 0 <= j < k < |hyps| ==> hyps[j].score >= hyps[k].score
  }

  /** Results are the best of the registered hypotheses, best first. */
  lemma FinalizeBest<S(!new)>(c: Config<S>, hyps: seq<Hypothesis>)
    requires c.numHypotheses > 0
    ensures var r := Finalize(c, hyps);
            && |r| == (if |hyps| < c.numHypotheses then |hyps| else c.numHypotheses)
            && BestFirst(r)
            && forall j :: 0 <= j < |hyps| && hyps != [] ==> c.normalize(hyps[j].score, |hyps[j].tokens|) <= r[0].score
  {
    var all := Normalized(c, hyps);
    var keys := Scores(all);
    var idx := c.sort(keys);
    assert IsDescendingOrder(keys, idx);
    forall j | 0 <= j < |hyps| ensures keys[j] <= keys[idx[0]] {
      PermutationOnto(idx, |keys|, j);
      var p :| 0 <= p < |idx| && idx[p] == j;
    }
    assert forall j :: 0 <= j < |hyps| ==> keys[j] == c.normalize(hyps[j].score, |hyps[j].tokens|);
  }

  /** The results are different registered hypotheses with normalised scores, and none that is left out is better. */
  lemma FinalizeSelects<S(!new)>(c: Config<S>, hyps: seq<Hypothesis>) returns (idx: seq<nat>)
    ensures var r := Finalize(c, hyps);
            && |idx| == |r| && Indexes(idx, |hyps|) && Distinct(idx)
            && (forall k :: 0 <= k < |r| ==>
                  r[k] == Hypothesis(hyps[idx[k]].tokens, c.normalize(hyps[idx[k]].score, |hyps[idx[k]].tokens|)))
            && forall j, k :: 0 <= j < |hyps| && j !in idx && 0 <= k < |r| ==>
                 c.normalize(hyps[j].score, |hyps[j].tokens|) <= r[k].score
  {
    var all := Normalized(c, hyps);
    var keys := Scores(all);
    var order := c.sort(keys);
    assert IsDescendingOrder(keys, order);
    idx := if c.numHypotheses < |order| then order[..c.numHypotheses] else order;
    forall j, k | 0 <= j < |hyps| && j !in idx && 0 <= k < |idx| ensures keys[j] <= keys[idx[k]] {
      PermutationOnto(order, |keys|, j);
      var p :| 0 <= p < |order| && order[p] == j;
      assert p >= |idx|;
    }
    assert forall j :: 0 <= j < |hyps| ==> keys[j] == c.normalize(hyps[j].score, |hyps[j].tokens|);
  }

  /** All beams are registered at a sentence's last step. */
  lemma {:induction false} LastStepRegisters<S(!new)>(c: Config<S>, prefix: Option<seq<Token>>, step: nat,
                                                     cands: seq<Candidate>, k: nat)
    requires k <= |cands| && IsLastStep(c, step, prefix)
    ensures |Registered(c, prefix, step, cands, k)| == k
  {
    hide Hypothesize;
    if k > 0 { LastStepRegisters(c, prefix, step, cands, k - 1); }
  }

  /** Beam search returns the smaller of `num_hypotheses` and what was registered, best first; never fewer
      than `num_hypotheses` when that is at most the beam size and the candidate limit. */
  lemma ResultCount<S(!new)>(c: Config<S>, rule: StopRule, prefix: Option<seq<Token>>, state: S, startId: Token)
    requires ValidConfig(c)
    ensures ValidRows(c, Start(c, state, startId).rows)
    ensures var r := BeamRun(c, rule, prefix, 0, Start(c, state, startId));
            && BestFirst(r) && |r| <= c.numHypotheses
            && (c.numHypotheses <= c.beamSize && (rule.MaxCandidates? ==> c.numHypotheses <= rule.n) ==>
                  |r| == c.numHypotheses)
  {
    hide BeamRun, Finalize, Advance, After;
    StartAligned(c, prefix, state, startId);
    var s := Start(c, state, startId);
    var n := RunReached(c, rule, prefix, s);
    FinalizeBest(c, After(c, prefix, n, s).hypotheses);
    if IsLastStep(c, n - 1, prefix) {
      LastStepCount(c, prefix, n, s);
    }
  }

  lemma LastStepCount<S(!new)>(c: Config<S>, prefix: Option<seq<Token>>, n: nat, s: Sentence<S>)
    requires ValidConfig(c) && ValidRows(c, s.rows) && n > 0 && IsLastStep(c, n - 1, prefix)
    ensures |After(c, prefix, n, s).hypotheses| >= c.beamSize
  {
    hide NextRows, Candidates;
    var rows := After(c, prefix, n - 1, s).rows;
    LastStepRegisters(c, prefix, n - 1, Candidates(c, prefix, n - 1, rows), c.beamSize);
  }

  /** Every result shows a finished history from the forced prefix on, within `max_length` tokens. With no
      penalties its score is the true log-prob sum of the history's free tokens (from a base). */
  lemma ResultShowsHistory<S(!new)>(c: Config<S>, rule: StopRule, prefix: Option<seq<Token>>, state: S,
                                    startId: Token, k: nat)
    requires ValidConfig(c)
    requires ValidRows(c, Start(c, state, startId).rows)
    requires k < |BeamRun(c, rule, prefix, 0, Start(c, state, startId))|
    ensures var x := BeamRun(c, rule, prefix, 0, Start(c, state, startId))[k];
            && |x.tokens| <= c.maxLength
            && exists hist, score ::
                 && Justifies(c, prefix, state, startId, hist, Hypothesis(x.tokens, score))
                 && x.score == c.normalize(score, |x.tokens|)
  {
    hide BeamRun, Finalize, Advance, After, TrueScore;
    var s := Start(c, state, startId);
    var n := RunReached(c, rule, prefix, s);
    var hyps := After(c, prefix, n, s).hypotheses;
    HypothesesJustified(c, prefix, state, startId, n);
    var j := FinalizeOrigin(c, hyps, k);
    assert Justified(c, prefix, state, startId, hyps[j]);
    var hist :| Justifies(c, prefix, state, startId, hist, hyps[j]);
    assert hyps[j] == Hypothesis(hyps[j].tokens, hyps[j].score);
  }

  /** A forced prefix that is to be returned is reproduced, as far as `max_length` reaches; an end id
      inside it never finishes a sentence, and only one at the last step is dropped. */
  lemma PrefixReproduced<S(!new)>(c: Config<S>, rule: StopRule, prefix: seq<Token>, state: S, startId: Token, k: nat)
    requires ValidConfig(c) && c.returnPrefix
    requires ValidRows(c, Start(c, state, startId).rows)
    requires k < |BeamRun(c, rule, Some(prefix), 0, Start(c, state, startId))|
    ensures var tokens := BeamRun(c, rule, Some(prefix), 0, Start(c, state, startId))[k].tokens;
            && (|prefix| < c.maxLength ==> prefix <= tokens)
            && (|prefix| >= c.maxLength ==>
                  var dropped := IsEos(prefix[c.maxLength - 1], c.endIds) && !c.includeEos;
                  tokens == prefix[..if dropped then c.maxLength - 1 else c.maxLength])
  {
    hide BeamRun, TrueScore;
    ResultShowsHistory(c, rule, Some(prefix), state, startId, k);
    var x := BeamRun(c, rule, Some(prefix), 0, Start(c, state, startId))[k];
    var hist, score :| Justifies(c, Some(prefix), state, startId, hist, Hypothesis(x.tokens, score))
                       && x.score == c.normalize(score, |x.tokens|);
    if |prefix| < c.maxLength {
      assert forall i :: 0 <= i < |prefix| ==> x.tokens[i] == hist[i] == prefix[i];
    } else {
      assert hist == prefix[..c.maxLength];
    }
  }
}
