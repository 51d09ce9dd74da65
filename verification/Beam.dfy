/** Beam search on one sentence: the specification of `BeamSearch::search` in src/decoding.cc.

    `Candidates` is a step's scoring, selection and forced prefix; `Advance` registers finished
    candidates and picks the next beams; `BeamRun` repeats it until the sentence stops. */
module Beam {
  import opened Options
  import opened RowMajor
  import opened Vectors
  import opened Processors
  import opened Steps

  /** Row-wise parts and options of a beam search (`prefix_bias_beta` is 0). `logProbs` is what one row
      gets from the decoder, the logits processors and the log-softmax. */
  datatype Config<!S> = Config(
    vocabulary: nat,
    next: (nat, Token, S) -> S,
    logProbs: (nat, Token, S, seq<Token>, Option<seq<Token>>) -> seq<real>,
    top: TopKOp, sort: SortOp,
    normalize: (real, nat) -> real,
    beamSize: nat, numHypotheses: nat,
    endIds: seq<Token>, startStep: nat, maxLength: nat,
    returnPrefix: bool, includeEos: bool,
    expandAfterFirstStep: bool,   // CPU, and num_candidates <= vocabulary_size
    lowest: real)
  {
    function NumCandidates(): nat { 2 * beamSize }
  }

  ghost predicate ValidConfig<S(!new)>(c: Config<S>) {
    && c.beamSize > 0 && c.numHypotheses > 0 && c.maxLength > 0 && c.vocabulary >= 2
    && (c.expandAfterFirstStep ==> c.NumCandidates() <= c.vocabulary)
    && (forall step, tok, st, hist, prefix :: |c.logProbs(step, tok, st, hist, prefix)| == c.vocabulary)
  }

  /** One row: decoder state, next input, accumulated score, token history. */
  datatype Row<S> = Row(state: S, input: Token, score: real, hist: seq<Token>)

  datatype Candidate = Candidate(origin: nat, token: Token, score: real, hist: seq<Token>)

  /** One sentence between two steps: a single row before the first step if it runs unexpanded. */
  datatype Sentence<S> = Sentence(rows: seq<Row<S>>, topFinished: bool, hypotheses: seq<Hypothesis>)

  ghost predicate ValidRows<S(!new)>(c: Config<S>, rows: seq<Row<S>>) {
    |rows| == c.beamSize || (|rows| == 1 && c.expandAfterFirstStep)
  }

  function OwnMaxStep<S>(c: Config<S>, prefix: Option<seq<Token>>): nat {
    MaxSteps(c.maxLength, c.returnPrefix, prefix)
  }

  function IsLastStep<S>(c: Config<S>, step: nat, prefix: Option<seq<Token>>): bool {
    step + 1 == OwnMaxStep(c, prefix)
  }

  // ----- Candidates -----

  function AddScore(xs: seq<real>, score: real): (r: seq<real>)
    ensures |r| == |xs| && forall v :: 0 <= v < |xs| ==> r[v] == score + xs[v]
  {
    seq(|xs|, v requires 0 <= v < |xs| => score + xs[v])
  }

  function RowScores<S>(c: Config<S>, prefix: Option<seq<Token>>, step: nat, row: Row<S>): seq<real> {
    AddScore(c.logProbs(c.startStep + step, row.input, row.state, row.hist, prefix), row.score)
  }

  /** The scores of all rows laid end to end. */
  function FlatScores<S>(c: Config<S>, prefix: Option<seq<Token>>, step: nat, rows: seq<Row<S>>): seq<real> {
    if rows == [] then []
    else FlatScores(c, prefix, step, rows[..|rows| - 1]) + RowScores(c, prefix, step, rows[|rows| - 1])
  }

  lemma {:induction false} FlatScoresAt<S(!new)>(c: Config<S>, prefix: Option<seq<Token>>, step: nat, rows: seq<Row<S>>)
    requires ValidConfig(c)
    ensures |FlatScores(c, prefix, step, rows)| == |rows| * c.vocabulary
    ensures forall b, v :: 0 <= b < |rows| && 0 <= v < c.vocabulary ==>
              0 <= Flat(b, v, c.vocabulary) < |rows| * c.vocabulary
              && |RowScores(c, prefix, step, rows[b])| == c.vocabulary
              && FlatScores(c, prefix, step, rows)[Flat(b, v, c.vocabulary)] == RowScores(c, prefix, step, rows[b])[v]
  {
    hide RowScores;
    if rows != [] {
      var m := |rows| - 1;
      FlatScoresAt(c, prefix, step, rows[..m]);
      RowScoresLength(c, prefix, step, rows[m]);
      assert (m + 1) * c.vocabulary == m * c.vocabulary + c.vocabulary;
      forall b, v | 0 <= b < |rows| && 0 <= v < c.vocabulary
        ensures 0 <= Flat(b, v, c.vocabulary) < |rows| * c.vocabulary
                && |RowScores(c, prefix, step, rows[b])| == c.vocabulary
                && FlatScores(c, prefix, step, rows)[Flat(b, v, c.vocabulary)] == RowScores(c, prefix, step, rows[b])[v]
      {
        FlatBound(b, v, c.vocabulary, |rows|);
        if b < m {
          FlatBound(b, v, c.vocabulary, m);
          assert rows[..m][b] == rows[b];
        }
      }
    }
  }

  lemma RowScoresLength<S(!new)>(c: Config<S>, prefix: Option<seq<Token>>, step: nat, row: Row<S>)
    requires ValidConfig(c)
    ensures |RowScores(c, prefix, step, row)| == c.vocabulary
  {
  }

  /** There are enough scores to select `num_candidates` of them. */
  lemma EnoughScores<S(!new)>(c: Config<S>, prefix: Option<seq<Token>>, step: nat, rows: seq<Row<S>>)
    requires ValidConfig(c) && ValidRows(c, rows)
    ensures c.NumCandidates() <= |FlatScores(c, prefix, step, rows)| == |rows| * c.vocabulary
  {
    hide FlatScores;
    FlatScoresAt(c, prefix, step, rows);
    if |rows| == c.beamSize {
      ProductMonotone(2, c.vocabulary, c.beamSize);
    }
  }

  const PENALTY: real := -10000000000.0

  /** `unflatten_ids` and `update_sample_with_prefix` on candidate k of one sentence. */
  function Force<S>(c: Config<S>, prefix: Option<seq<Token>>, step: nat, k: nat, origin: nat, token: Token, score: real)
    : (nat, Token, real)
  {
    if prefix.None? || step > |prefix.value| then (origin, token, score)
    else if step < |prefix.value| then (0, prefix.value[step], if k == 0 then 0.0 else PENALTY)
    else if k > 0 && IsEos(token, c.endIds) then (0, 0, PENALTY)
    else (origin, token, score)
  }

  function MakeCandidate<S>(c: Config<S>, prefix: Option<seq<Token>>, step: nat, rows: seq<Row<S>>, k: nat,
                            flatId: nat, score: real): Candidate
    requires c.vocabulary > 0 && rows != []
  {
    var (origin, token, s) := Force(c, prefix, step, k, RowOf(flatId, c.vocabulary), ColumnOf(flatId, c.vocabulary),
                                    score);
    Candidate(origin, token, s, (if origin < |rows| then rows[origin].hist else []) + [token])
  }

  /** The selected flat ids of a step. */
  ghost function TopIds<S(!new)>(c: Config<S>, prefix: Option<seq<Token>>, step: nat, rows: seq<Row<S>>): (r: seq<nat>)
    requires ValidConfig(c) && ValidRows(c, rows)
    ensures IsTopK(FlatScores(c, prefix, step, rows), c.NumCandidates(), r)
  {
    EnoughScores(c, prefix, step, rows);
    c.top(FlatScores(c, prefix, step, rows), c.NumCandidates())
  }

  ghost function Candidates<S(!new)>(c: Config<S>, prefix: Option<seq<Token>>, step: nat,
                                     rows: seq<Row<S>>): (r: seq<Candidate>)
    requires ValidConfig(c) && ValidRows(c, rows)
    ensures |r| == c.NumCandidates()
  {
    var scores := FlatScores(c, prefix, step, rows);
    var ids := TopIds(c, prefix, step, rows);
    var n := c.NumCandidates();
    seq(n, k requires 0 <= k < n && |ids| == n && Indexes(ids, |scores|) =>
      MakeCandidate(c, prefix, step, rows, k, ids[k], scores[ids[k]]))
  }

  lemma TopIdInRange<S(!new)>(c: Config<S>, prefix: Option<seq<Token>>, step: nat, rows: seq<Row<S>>, k: nat)
    requires ValidConfig(c) && ValidRows(c, rows) && k < c.NumCandidates()
    ensures var ids := TopIds(c, prefix, step, rows);
            && |ids| == c.NumCandidates() && Indexes(ids, |FlatScores(c, prefix, step, rows)|)
            && |FlatScores(c, prefix, step, rows)| == |rows| * c.vocabulary
            && ids[k] < |rows| * c.vocabulary && RowOf(ids[k], c.vocabulary) < |rows|
            && ColumnOf(ids[k], c.vocabulary) < c.vocabulary
            && Flat(RowOf(ids[k], c.vocabulary), ColumnOf(ids[k], c.vocabulary), c.vocabulary) == ids[k]
  {
    hide FlatScores, Flat, RowOf, ColumnOf;
    EnoughScores(c, prefix, step, rows);
    PositionOf(TopIds(c, prefix, step, rows)[k], |rows|, c.vocabulary);
  }

  /** Candidate k is the forced form of the k-th selected flat id and score. */
  lemma CandidateForced<S(!new)>(c: Config<S>, prefix: Option<seq<Token>>, step: nat, rows: seq<Row<S>>, k: nat)
    requires ValidConfig(c) && ValidRows(c, rows) && k < c.NumCandidates()
    ensures var y := Candidates(c, prefix, step, rows)[k];
            var id := TopIds(c, prefix, step, rows)[k];
            && id < |FlatScores(c, prefix, step, rows)| == |rows| * c.vocabulary
            && (y.origin, y.token, y.score)
               == Force(c, prefix, step, k, RowOf(id, c.vocabulary), ColumnOf(id, c.vocabulary),
                        FlatScores(c, prefix, step, rows)[id])
            && y.hist == (if y.origin < |rows| then rows[y.origin].hist else []) + [y.token]
  {
    hide FlatScores, Force, TopIds, IsTopK, Indexes, Flat, RowOf, ColumnOf;
    TopIdInRange(c, prefix, step, rows, k);
    assert Indexes(TopIds(c, prefix, step, rows), |FlatScores(c, prefix, step, rows)|);
  }

  /** Every candidate descends from a row of the sentence. */
  lemma CandidateOrigin<S(!new)>(c: Config<S>, prefix: Option<seq<Token>>, step: nat, rows: seq<Row<S>>, k: nat)
    requires ValidConfig(c) && ValidRows(c, rows) && k < c.NumCandidates()
    ensures var x := Candidates(c, prefix, step, rows)[k];
            x.origin < |rows| && x.hist == rows[x.origin].hist + [x.token]
  {
    hide FlatScores, TopIds, IsTopK, Indexes, Candidates, Flat, RowOf, ColumnOf;
    CandidateForced(c, prefix, step, rows, k);
    TopIdInRange(c, prefix, step, rows, k);
  }

  // ----- Registration and the next beams -----

  predicate Finishes<S>(c: Config<S>, prefix: Option<seq<Token>>, step: nat, x: Candidate) {
    (IsEos(x.token, c.endIds) && step >= PrefixLength(prefix)) || IsLastStep(c, step, prefix)
  }

  /** `build_hypothesis`: the history from the prefix on, without a final end id unless it is included. */
  function Hypothesize<S>(c: Config<S>, prefix: Option<seq<Token>>, step: nat, x: Candidate): Hypothesis {
    var start := if c.returnPrefix then 0 else PrefixLength(prefix);
    var end := if IsEos(x.token, c.endIds) && !c.includeEos then step else step + 1;
    Hypothesis(if start <= end <= |x.hist| then x.hist[start..end] else [], x.score)
  }

  /** The hypotheses registered by the first k candidates. */
  function Registered<S>(c: Config<S>, prefix: Option<seq<Token>>, step: nat, cands: seq<Candidate>,
                         k: nat): seq<Hypothesis>
    requires k <= |cands|
  {
    if k == 0 then []
    else
      Registered(c, prefix, step, cands, k - 1)
      + if Finishes(c, prefix, step, cands[k - 1]) then [Hypothesize(c, prefix, step, cands[k - 1])] else []
  }

  /** The first candidate from j on that is not an end id, or |cands|. */
  function FirstActive(endIds: seq<Token>, cands: seq<Candidate>, j: nat): (r: nat)
    requires j <= |cands|
    ensures j <= r <= |cands|
    ensures forall i :: j <= i < r ==> IsEos(cands[i].token, endIds)
    ensures r < |cands| ==> !IsEos(cands[r].token, endIds)
    decreases |cands| - j
  {
    if j == |cands| || !IsEos(cands[j].token, endIds) then j else FirstActive(endIds, cands, j + 1)
  }

  /** `secondary_candidates_offset` after one beam: past its replacement, if it finished and there is one. */
  function NextOffset(endIds: seq<Token>, cands: seq<Candidate>, finished: bool, before: nat): (r: nat)
    requires before <= |cands|
    ensures before <= r <= |cands|
  {
    var j := FirstActive(endIds, cands, before);
    if finished && j < |cands| then j + 1 else before
  }

  /** `secondary_candidates_offset` after the first k candidates. */
  function Offset<S>(c: Config<S>, prefix: Option<seq<Token>>, step: nat, cands: seq<Candidate>, k: nat): (r: nat)
    requires k <= c.beamSize && |cands| == c.NumCandidates()
    ensures c.beamSize <= r <= |cands|
  {
    if k == 0 then c.beamSize
    else
      NextOffset(c.endIds, cands, Finishes(c, prefix, step, cands[k - 1]), Offset(c, prefix, step, cands, k - 1))
  }

  /** The candidate that takes position k in the next beams: itself, or its replacement. */
  function Chosen<S>(c: Config<S>, prefix: Option<seq<Token>>, step: nat, cands: seq<Candidate>, k: nat): (r: nat)
    requires k < c.beamSize && |cands| == c.NumCandidates()
    ensures r < |cands|
  {
    if !Finishes(c, prefix, step, cands[k]) then k
    else
      var j := FirstActive(c.endIds, cands, Offset(c, prefix, step, cands, k));
      if j < |cands| then j else k
  }

  /** The row that continues a candidate. */
  function Continue<S>(c: Config<S>, step: nat, rows: seq<Row<S>>, x: Candidate): Row<S>
    requires x.origin < |rows|
  {
    var row := rows[x.origin];
    Row(c.next(c.startStep + step, row.input, row.state), x.token, x.score, x.hist)
  }

  ghost function NextRows<S(!new)>(c: Config<S>, prefix: Option<seq<Token>>, step: nat,
                                   rows: seq<Row<S>>): (r: seq<Row<S>>)
    requires ValidConfig(c) && ValidRows(c, rows)
    ensures |r| == c.beamSize
  {
    var cands := Candidates(c, prefix, step, rows);
    seq(c.beamSize, k requires 0 <= k < c.beamSize && |cands| == c.NumCandidates() =>
      CandidateOrigin(c, prefix, step, rows, Chosen(c, prefix, step, cands, k));
      Continue(c, step, rows, cands[Chosen(c, prefix, step, cands, k)]))
  }

  /** One step of a sentence, finished or not. */
  ghost function Advance<S(!new)>(c: Config<S>, prefix: Option<seq<Token>>, step: nat, s: Sentence<S>): (r: Sentence<S>)
    requires ValidConfig(c) && ValidRows(c, s.rows)
    ensures |r.rows| == c.beamSize
  {
    var cands := Candidates(c, prefix, step, s.rows);
    Sentence(NextRows(c, prefix, step, s.rows),
             s.topFinished || Finishes(c, prefix, step, cands[0]),
             s.hypotheses + Registered(c, prefix, step, cands, c.beamSize))
  }

  // ----- Stopping -----

  /** When a sentence stops before its last step: with no penalties once its top candidate has finished
      and there are enough hypotheses; else when `_max_candidates` are registered. `LastStepOnly` is the
      exhaustive search that neither rule cuts short. */
  datatype StopRule = EarlyExit | MaxCandidates(n: nat) | LastStepOnly

  predicate Stops<S>(c: Config<S>, rule: StopRule, prefix: Option<seq<Token>>, step: nat, topFinished: bool,
                     registered: nat) {
    IsLastStep(c, step, prefix) ||
    match rule
    case EarlyExit => topFinished && registered >= c.numHypotheses
    case MaxCandidates(n) => registered >= n
    case LastStepOnly => false
  }

  function Normalized<S>(c: Config<S>, hyps: seq<Hypothesis>): (r: seq<Hypothesis>)
    ensures |r| == |hyps|
    ensures forall k :: 0 <= k < |r| ==>
              r[k] == Hypothesis(hyps[k].tokens, c.normalize(hyps[k].score, |hyps[k].tokens|))
  {
    seq(|hyps|, k requires 0 <= k < |hyps| => Hypothesis(hyps[k].tokens, c.normalize(hyps[k].score, |hyps[k].tokens|)))
  }

  function Scores(hyps: seq<Hypothesis>): (r: seq<real>)
    ensures |r| == |hyps| && forall k :: 0 <= k < |r| ==> r[k] == hyps[k].score
  {
    seq(|hyps|, k requires 0 <= k < |hyps| => hyps[k].score)
  }

  /** `sort_hypotheses`: best first, at most `num_hypotheses` of them. */
  function Sorted<S>(c: Config<S>, hyps: seq<Hypothesis>): seq<Hypothesis> {
    var idx := c.sort(Scores(hyps));
    assert IsDescendingOrder(Scores(hyps), idx);
    Gather(hyps, if c.numHypotheses < |idx| then idx[..c.numHypotheses] else idx)
  }

  function Finalize<S>(c: Config<S>, hyps: seq<Hypothesis>): seq<Hypothesis> {
    Sorted(c, Normalized(c, hyps))
  }

  /** Beam search on one sentence, from a given step on. */
  ghost function BeamRun<S(!new)>(c: Config<S>, rule: StopRule, prefix: Option<seq<Token>>, step: nat, s: Sentence<S>)
    : seq<Hypothesis>
    requires ValidConfig(c) && ValidRows(c, s.rows) && step < OwnMaxStep(c, prefix)
    decreases OwnMaxStep(c, prefix) - step
  {
    var next := Advance(c, prefix, step, s);
    if Stops(c, rule, prefix, step, next.topFinished, |next.hypotheses|) then Finalize(c, next.hypotheses)
    else BeamRun(c, rule, prefix, step + 1, next)
  }

  function StartRows<S>(c: Config<S>, state: S, startId: Token): (r: seq<Row<S>>)
    ensures |r| == if c.expandAfterFirstStep then 1 else c.beamSize
  {
    if c.expandAfterFirstStep then [Row(state, startId, 0.0, [])]
    else seq(c.beamSize, k => Row(state, startId, if k == 0 then 0.0 else c.lowest, []))
  }

  function Start<S>(c: Config<S>, state: S, startId: Token): Sentence<S> {
    Sentence(StartRows(c, state, startId), false, [])
  }
}
