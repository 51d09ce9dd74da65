/** Batched beam search: `BeamSearch::search` in src/decoding.cc.

    `Search` carries the source's arrays: `batch_offset`, the flat `topk_ids` and `topk_scores`, the decoder
    states, `alive_seq`, `top_beam_finished` and `results`. It is proved to return, for every sentence of any
    batch, what `Beam.BeamRun` gives on that sentence. */
module BeamSearch {
  import opened Options
  import opened RowMajor
  import opened Vectors
  import opened Processors
  import opened Steps
  import opened Beam
  import opened BeamPaths
  import opened BeamCandidates
  import opened BeamFinishing

  /** What sentence b yields on its own. */
  ghost function Alone<S(!new)>(c: Config<S>, rule: StopRule, input: Input<S>, b: nat): seq<Hypothesis>
    requires ValidConfig(c) && input.Matching() && b < |input.startIds|
  {
    BeamRun(c, rule, input.Prefix(b), 0, Start(c, input.states[b], input.startIds[b]))
  }

  // ----- Moving to the next step -----

  /** The rows of the kept sentences of a [n, w] tensor. */
  ghost function Kept<T>(v: seq<T>, keep: seq<nat>, w: nat, n: nat): (r: seq<T>)
    requires w > 0 && |v| == n * w && Indexes(keep, n)
    ensures |r| == |keep| * w
    ensures forall q :: 0 <= q < |r| ==> KeptFrom(keep, w, n, q) < |v| && r[q] == v[KeptFrom(keep, w, n, q)]
  {
    seq(|keep| * w, q requires 0 <= q < |keep| * w => v[KeptFrom(keep, w, n, q)])
  }

  ghost function KeptFrom(keep: seq<nat>, w: nat, n: nat, q: nat): (r: nat)
    requires w > 0 && q < |keep| * w && Indexes(keep, n)
    ensures r < n * w
  {
    PositionOf(q, |keep|, w);
    FlatBound(keep[RowOf(q, w)], ColumnOf(q, w), w, n);
    Flat(keep[RowOf(q, w)], ColumnOf(q, w), w)
  }

  /** `gather(data, keep_batches)` on the first dimension of a [n, w] tensor. */
  method GatherSentences<T>(v: seq<T>, keep: seq<nat>, w: nat, ghost n: nat) returns (r: seq<T>)
    requires w > 0 && |v| == n * w && Indexes(keep, n)
    ensures r == Kept(v, keep, w, n)
  {
    r := [];
    var j := 0;
    while j < |keep|
      invariant j <= |keep| && |r| == j * w <= |keep| * w
      invariant r == Kept(v, keep, w, n)[..j * w]
    {
      KeptBlock(v, keep, w, n, j);
      r := r + v[keep[j] * w..(keep[j] + 1) * w];
      j := j + 1;
    }
  }

  lemma KeptBlock<T>(v: seq<T>, keep: seq<nat>, w: nat, n: nat, j: nat)
    requires w > 0 && |v| == n * w && Indexes(keep, n) && j < |keep|
    ensures 0 <= j * w <= (j + 1) * w <= |keep| * w && 0 <= keep[j] * w <= (keep[j] + 1) * w <= |v|
    ensures Kept(v, keep, w, n)[..(j + 1) * w] == Kept(v, keep, w, n)[..j * w] + v[keep[j] * w..(keep[j] + 1) * w]
  {
    ProductMonotone(j + 1, |keep|, w);
    ProductMonotone(keep[j] + 1, n, w);
    assert (j + 1) * w == j * w + w && (keep[j] + 1) * w == keep[j] * w + w;
    var all := Kept(v, keep, w, n);
    forall q | j * w <= q < (j + 1) * w ensures all[q] == v[keep[j] * w..(keep[j] + 1) * w][q - j * w] {
      FlatPosition(j, q - j * w, w, |keep|);
      assert q == Flat(j, q - j * w, w);
    }
  }

  lemma KeptAll<T>(v: seq<T>, w: nat, n: nat)
    requires w > 0 && |v| == n * w
    ensures Kept(v, Iota(n), w, n) == v
  {
    forall q | 0 <= q < |v| ensures Kept(v, Iota(n), w, n)[q] == v[q] {
      PositionOf(q, n, w);
    }
  }

  /** The end of a step: gather the chosen candidates, drop the finished sentences, update the state. */
  ghost predicate MovedOn<S>(c: Config<S>, a: Arrays<S>, x: Choices, alive: seq<seq<Token>>, states: seq<S>,
                             active: seq<nat>, topFinished: seq<bool>, keep: seq<nat>, r: Arrays<S>)
    requires c.beamSize > 0 && x.Sized(|alive|) && Indexes(active, |alive|) && |active| == |a.batchOffset| * c.beamSize
    requires |topFinished| == |a.batchOffset| && Indexes(keep, |a.batchOffset|) && Indexes(x.origins, |states|)
  {
    var n := |a.batchOffset|;
    && r.batchOffset == Gather(a.batchOffset, keep) && r.topFinished == Gather(topFinished, keep)
    && r.width == c.beamSize
    && r.ids == Kept(Gather(x.ids, active), keep, c.beamSize, n)
    && r.scores == Some(Kept(Gather(x.scores, active), keep, c.beamSize, n))
    && r.aliveSeq == Some(Kept(Gather(alive, active), keep, c.beamSize, n))
    && Indexes(Kept(Gather(x.origins, active), keep, c.beamSize, n), |states|)
    && r.states == Gather(states, Kept(Gather(x.origins, active), keep, c.beamSize, n))
  }

  method MoveOn<S(!new)>(c: Config<S>, a: Arrays<S>, x: Choices, alive: seq<seq<Token>>, newStates: seq<S>,
                         active: seq<nat>, finished: seq<bool>, nonFinished: seq<nat>)
    returns (r: Arrays<S>)
    requires c.beamSize > 0 && x.Sized(|alive|) && Indexes(active, |alive|) && |active| == |a.batchOffset| * c.beamSize
    requires |finished| == |a.batchOffset| && Indexes(x.origins, |newStates|)
    requires StrictlyIncreasing(nonFinished) && Indexes(nonFinished, |a.batchOffset|)
    ensures MovedOn(c, a, x, alive, newStates, active, finished, nonFinished, r)
  {
    hide Kept;
    var batchOffset, topFinished := a.batchOffset, finished;
    var gatherIndices := Gather(x.origins, active);
    var topkIds := Gather(x.ids, active);
    var topkScores := Gather(x.scores, active);
    var aliveSeq := Gather(alive, active);
    KeptOrigins(gatherIndices, nonFinished, c.beamSize, |a.batchOffset|, |newStates|);
    if |nonFinished| != |a.batchOffset| {
      batchOffset := IndexVector(batchOffset, nonFinished);
      topFinished := IndexVector(topFinished, nonFinished);
      topkIds := GatherSentences(topkIds, nonFinished, c.beamSize, |a.batchOffset|);
      topkScores := GatherSentences(topkScores, nonFinished, c.beamSize, |a.batchOffset|);
      aliveSeq := GatherSentences(aliveSeq, nonFinished, c.beamSize, |a.batchOffset|);
      gatherIndices := GatherSentences(gatherIndices, nonFinished, c.beamSize, |a.batchOffset|);
    } else {
      AllIndices(nonFinished, |nonFinished|);
      GatherAll(batchOffset);
      GatherAll(topFinished);
      KeptAll(topkIds, c.beamSize, |a.batchOffset|);
      KeptAll(topkScores, c.beamSize, |a.batchOffset|);
      KeptAll(aliveSeq, c.beamSize, |a.batchOffset|);
      KeptAll(gatherIndices, c.beamSize, |a.batchOffset|);
    }
    var states := Gather(newStates, gatherIndices);
    r := Arrays(batchOffset, c.beamSize, topkIds, Some(topkScores), states, Some(aliveSeq), topFinished);
  }

  lemma KeptOrigins(origins: seq<nat>, keep: seq<nat>, w: nat, n: nat, bound: nat)
    requires w > 0 && |origins| == n * w && Indexes(keep, n) && Indexes(origins, bound)
    ensures Indexes(Kept(origins, keep, w, n), bound)
  {
  }

  // ----- One step of the loop -----

  /** What the phases of a step have established before the arrays move on. */
  ghost predicate Prepared<S(!new)>(c: Config<S>, input: Input<S>, step: nat, a: Arrays<S>, x: Choices,
                                   alive: seq<seq<Token>>, states: seq<S>, active: seq<nat>)
    requires ValidConfig(c) && Ready(c, input, step, a)
  {
    && x.Sized(|alive|) && |alive| == |a.batchOffset| * c.NumCandidates() && |states| == |a.states|
    && |active| == |a.batchOffset| * c.beamSize
    && (forall r :: 0 <= r < |alive| ==> CandidateAt(c, input, step, a, x, alive, r))
    && (forall r :: 0 <= r < |states| ==> states[r] == c.next(c.startStep + step, a.ids[r], a.states[r]))
    && (forall r :: 0 <= r < |active| ==> ActiveAt(c, input, step, a, active, r))
  }

  /** A chosen position holds the row that continues its candidate. */
  lemma ChosenRow<S(!new)>(c: Config<S>, input: Input<S>, step: nat, a: Arrays<S>, x: Choices, alive: seq<seq<Token>>,
                           states: seq<S>, active: seq<nat>, i: nat, k: nat)
    requires ValidConfig(c) && Ready(c, input, step, a) && Prepared(c, input, step, a, x, alive, states, active)
    requires i < |a.batchOffset| && k < c.beamSize
    ensures Flat(i, k, c.beamSize) < |active| && active[Flat(i, k, c.beamSize)] < |alive|
    ensures var p := active[Flat(i, k, c.beamSize)];
            && x.origins[p] < |states|
            && Row(states[x.origins[p]], x.ids[p], x.scores[p], alive[p])
               == NextRows(c, PrefixAt(input, a, i), step, a.RowsOf(i))[k]
  {
    hide Candidates, Chosen, Flat, RowOf, ColumnOf;
    var prefix := PrefixAt(input, a, i);
    var rows := a.RowsOf(i);
    var cands := Candidates(c, prefix, step, rows);
    FlatPosition(i, k, c.beamSize, |a.batchOffset|);
    assert ActiveAt(c, input, step, a, active, Flat(i, k, c.beamSize));
    var j := Chosen(c, prefix, step, cands, k);
    FlatPosition(i, j, c.NumCandidates(), |a.batchOffset|);
    var p := Flat(i, j, c.NumCandidates());
    assert CandidateAt(c, input, step, a, x, alive, p);
    CandidateOrigin(c, prefix, step, rows, j);
    var o := cands[j].origin;
    assert rows[o] == a.RowAt(Flat(i, o, a.width));
  }

  lemma ActiveInRange<S(!new)>(c: Config<S>, input: Input<S>, step: nat, a: Arrays<S>, x: Choices,
                               alive: seq<seq<Token>>,
                               states: seq<S>, active: seq<nat>)
    requires ValidConfig(c) && Ready(c, input, step, a) && Prepared(c, input, step, a, x, alive, states, active)
    ensures Indexes(active, |alive|) && Indexes(x.origins, |states|)
  {
    hide Candidates, NextRows, RowOf, ColumnOf, Flat;
    forall r | 0 <= r < |active| ensures active[r] < |alive| {
      PositionOf(r, |a.batchOffset|, c.beamSize);
      ChosenRow(c, input, step, a, x, alive, states, active, RowOf(r, c.beamSize), ColumnOf(r, c.beamSize));
    }
    forall r | 0 <= r < |x.origins| ensures x.origins[r] < |states| {
      assert CandidateAt(c, input, step, a, x, alive, r);
      OriginOf(c, input, step, a, x, alive, r);
    }
  }

  lemma OriginOf<S(!new)>(c: Config<S>, input: Input<S>, step: nat, a: Arrays<S>, x: Choices, alive: seq<seq<Token>>,
                          r: nat)
    requires ValidConfig(c) && Ready(c, input, step, a)
    requires x.Sized(|alive|) && r < |alive| == |a.batchOffset| * c.NumCandidates()
    requires CandidateAt(c, input, step, a, x, alive, r)
    ensures x.origins[r] < |a.ids|
  {
    hide Candidates, RowOf, ColumnOf, Flat;
    PositionOf(r, |a.batchOffset|, c.NumCandidates());
    var i := RowOf(r, c.NumCandidates());
    CandidateOrigin(c, PrefixAt(input, a, i), step, a.RowsOf(i), ColumnOf(r, c.NumCandidates()));
    var o := Candidates(c, PrefixAt(input, a, i), step, a.RowsOf(i))[ColumnOf(r, c.NumCandidates())].origin;
    assert a.RowsOf(i)[o] == a.RowAt(Flat(i, o, a.width));
  }

  /** Row k of kept sentence j is row k of its sentence's next beams. */
  lemma RowMoved<S(!new)>(c: Config<S>, input: Input<S>, step: nat, a: Arrays<S>, x: Choices, alive: seq<seq<Token>>,
                          states: seq<S>, active: seq<nat>, topFinished: seq<bool>, keep: seq<nat>, r: Arrays<S>,
                          j: nat, k: nat)
    requires ValidConfig(c) && Ready(c, input, step, a) && Prepared(c, input, step, a, x, alive, states, active)
    requires Indexes(active, |alive|) && Indexes(x.origins, |states|)
    requires |topFinished| == |a.batchOffset| && Indexes(keep, |a.batchOffset|)
    requires MovedOn(c, a, x, alive, states, active, topFinished, keep, r) && j < |keep| && k < c.beamSize
    ensures r.Shaped() && Flat(j, k, c.beamSize) < |r.ids|
    ensures r.RowAt(Flat(j, k, c.beamSize)) == NextRows(c, PrefixAt(input, a, keep[j]), step, a.RowsOf(keep[j]))[k]
  {
    hide Candidates, NextRows, Flat, RowOf, ColumnOf, Prepared;
    FlatPosition(j, k, c.beamSize, |keep|);
    var q := Flat(j, k, c.beamSize);
    assert KeptFrom(keep, c.beamSize, |a.batchOffset|, q) == Flat(keep[j], k, c.beamSize);
    ChosenRow(c, input, step, a, x, alive, states, active, keep[j], k);
  }

  /** Kept sentence j is its sentence one step further. */
  lemma SentenceMoved<S(!new)>(c: Config<S>, rule: StopRule, input: Input<S>, step: nat, a: Arrays<S>, x: Choices,
                               alive: seq<seq<Token>>, states: seq<S>, active: seq<nat>, before: seq<seq<Hypothesis>>,
                               results: seq<seq<Hypothesis>>, topFinished: seq<bool>, keep: seq<nat>, r: Arrays<S>,
                               j: nat)
    requires ValidConfig(c) && Ready(c, input, step, a) && Prepared(c, input, step, a, x, alive, states, active)
    requires Indexes(active, |alive|) && Indexes(x.origins, |states|) && |before| == |results| == |input.startIds|
    requires |topFinished| == |a.batchOffset| && Indexes(keep, |a.batchOffset|)
    requires MovedOn(c, a, x, alive, states, active, topFinished, keep, r) && j < |keep|
    requires SentenceFinished(c, rule, input, step, a, before, results, keep, topFinished, keep[j])
    ensures Ready(c, input, step + 1, r)
    ensures r.SentenceAt(j, results) == Advance(c, PrefixAt(input, a, keep[j]), step, a.SentenceAt(keep[j], before))
  {
    hide Candidates, NextRows, Registered, Flat, Prepared, Finalize, Stops, Kept;
    assert keep[j] in keep;
    forall k | 0 <= k < c.beamSize
      ensures r.Shaped() && r.RowsOf(j)[k] == NextRows(c, PrefixAt(input, a, keep[j]), step, a.RowsOf(keep[j]))[k]
    {
      RowMoved(c, input, step, a, x, alive, states, active, topFinished, keep, r, j, k);
    }
  }

  // ----- The whole search -----

  /** Between steps: the live sentences are the unfinalised ones, in input order, none past its own last
      step; each is what its own search has reached by now, and continuing it leads to its own result; the
      others have theirs. */
  ghost predicate OnCourse<S(!new)>(c: Config<S>, rule: StopRule, input: Input<S>, step: nat, a: Arrays<S>,
                                    results: seq<seq<Hypothesis>>)
    requires ValidConfig(c)
  {
    && Ready(c, input, step, a) && HistoriesAt(step, a) && |results| == |input.startIds|
    && StrictlyIncreasing(a.batchOffset)
    && (forall i :: 0 <= i < |a.batchOffset| ==> SentenceOnCourse(c, rule, input, step, a, results, i))
    && (forall b :: 0 <= b < |results| && b !in a.batchOffset ==> results[b] == Alone(c, rule, input, b))
  }

  ghost predicate SentenceOnCourse<S(!new)>(c: Config<S>, rule: StopRule, input: Input<S>, step: nat, a: Arrays<S>,
                                            results: seq<seq<Hypothesis>>, i: nat)
    requires ValidConfig(c) && Ready(c, input, step, a) && |results| == |input.startIds| && i < |a.batchOffset|
  {
    && step < OwnMaxStep(c, PrefixAt(input, a, i))
    && ReachedAlone(c, input, step, a, results, i)
    && BeamRun(c, rule, PrefixAt(input, a, i), step, a.SentenceAt(i, results))
       == Alone(c, rule, input, a.batchOffset[i])
  }

  /** Rows, flag and hypotheses of sentence i are those of its own search after the same number of steps. */
  ghost predicate ReachedAlone<S(!new)>(c: Config<S>, input: Input<S>, step: nat, a: Arrays<S>,
                                        results: seq<seq<Hypothesis>>, i: nat)
    requires ValidConfig(c) && Ready(c, input, step, a) && |results| == |input.startIds| && i < |a.batchOffset|
  {
    var b := a.batchOffset[i];
    var start := Start(c, input.states[b], input.startIds[b]);
    && ValidRows(c, start.rows)
    && a.SentenceAt(i, results) == After(c, PrefixAt(input, a, i), step, start)
  }

  lemma FinalIsAlone<S(!new)>(c: Config<S>, rule: StopRule, input: Input<S>, step: nat, a: Arrays<S>,
                              before: seq<seq<Hypothesis>>, results: seq<seq<Hypothesis>>, keep: seq<nat>,
                              topFinished: seq<bool>, i: nat)
    requires ValidConfig(c) && Ready(c, input, step, a) && |results| == |before| == |input.startIds|
    requires i < |a.batchOffset| == |topFinished| && i !in keep
    requires SentenceOnCourse(c, rule, input, step, a, before, i)
    requires SentenceFinished(c, rule, input, step, a, before, results, keep, topFinished, i)
    ensures results[a.batchOffset[i]] == Alone(c, rule, input, a.batchOffset[i])
  {
    hide Advance, Finalize, Alone;
  }

  lemma SurvivorOnCourse<S(!new)>(c: Config<S>, rule: StopRule, input: Input<S>, step: nat, a: Arrays<S>,
                                  before: seq<seq<Hypothesis>>, results: seq<seq<Hypothesis>>, keep: seq<nat>,
                                  topFinished: seq<bool>, r: Arrays<S>, j: nat)
    requires ValidConfig(c) && Ready(c, input, step, a) && |results| == |before| == |input.startIds|
    requires |topFinished| == |a.batchOffset| && Indexes(keep, |a.batchOffset|) && j < |keep|
    requires SentenceOnCourse(c, rule, input, step, a, before, keep[j])
    requires SentenceFinished(c, rule, input, step, a, before, results, keep, topFinished, keep[j])
    requires Ready(c, input, step + 1, r) && r.batchOffset == Gather(a.batchOffset, keep)
    requires r.SentenceAt(j, results) == Advance(c, PrefixAt(input, a, keep[j]), step, a.SentenceAt(keep[j], before))
    ensures SentenceOnCourse(c, rule, input, step + 1, r, results, j)
  {
    hide Advance, Finalize, Alone;
    assert keep[j] in keep;
  }

  lemma HistoriesGrow<S(!new)>(c: Config<S>, input: Input<S>, step: nat, a: Arrays<S>, x: Choices,
                               alive: seq<seq<Token>>,
                               states: seq<S>, active: seq<nat>, topFinished: seq<bool>, keep: seq<nat>, r: Arrays<S>)
    requires ValidConfig(c) && Ready(c, input, step, a) && Prepared(c, input, step, a, x, alive, states, active)
    requires Indexes(active, |alive|) && Indexes(x.origins, |states|) && HistoriesAt(step, a)
    requires |topFinished| == |a.batchOffset| && Indexes(keep, |a.batchOffset|)
    requires MovedOn(c, a, x, alive, states, active, topFinished, keep, r)
    ensures r.Shaped() && HistoriesAt(step + 1, r)
  {
    hide Candidates, Flat, RowOf, ColumnOf, Prepared, Kept;
    forall q | 0 <= q < |r.ids| ensures |r.RowAt(q).hist| == step + 1 {
      PositionOf(q, |keep|, c.beamSize);
      var j, k := RowOf(q, c.beamSize), ColumnOf(q, c.beamSize);
      RowMoved(c, input, step, a, x, alive, states, active, topFinished, keep, r, j, k);
      NextHistory(c, PrefixAt(input, a, keep[j]), step, a.RowsOf(keep[j]), k);
    }
  }

  lemma NextHistory<S(!new)>(c: Config<S>, prefix: Option<seq<Token>>, step: nat, rows: seq<Row<S>>, k: nat)
    requires ValidConfig(c) && ValidRows(c, rows) && k < c.beamSize
    requires forall i :: 0 <= i < |rows| ==> |rows[i].hist| == step
    ensures |NextRows(c, prefix, step, rows)[k].hist| == step + 1
  {
    hide Candidates, Chosen;
    var j := Chosen(c, prefix, step, Candidates(c, prefix, step, rows), k);
    CandidateOrigin(c, prefix, step, rows, j);
  }

  /** The loop body keeps every sentence on course. */
  method StepAndCompact<S(!new)>(c: Config<S>, rule: StopRule, input: Input<S>, step: nat, a: Arrays<S>,
                                 before: seq<seq<Hypothesis>>)
    returns (r: Arrays<S>, results: seq<seq<Hypothesis>>)
    requires ValidConfig(c) && OnCourse(c, rule, input, step, a, before)
    ensures OnCourse(c, rule, input, step + 1, r, results)
  {
    hide CandidateAt, ActiveAt, SentenceFinished, SentenceOnCourse, Alone, Flat, MovedOn;
    var x, alive, states := ChooseAndAppend(c, input, step, a);
    var nonFinished, active, topFinished;
    results, nonFinished, active, topFinished := FinishSentences(c, rule, input, step, a, x, alive, before);
    ActiveInRange(c, input, step, a, x, alive, states, active);
    r := MoveOn(c, a, x, alive, states, active, topFinished, nonFinished);
    StepStaysOnCourse(c, rule, input, step, a, x, alive, states, active, before, results, topFinished, nonFinished, r);
  }

  lemma StepStaysOnCourse<S(!new)>(c: Config<S>, rule: StopRule, input: Input<S>, step: nat, a: Arrays<S>, x: Choices,
                                   alive: seq<seq<Token>>, states: seq<S>, active: seq<nat>,
                                   before: seq<seq<Hypothesis>>,
                                   results: seq<seq<Hypothesis>>, topFinished: seq<bool>, keep: seq<nat>, r: Arrays<S>)
    requires ValidConfig(c) && OnCourse(c, rule, input, step, a, before)
    requires Prepared(c, input, step, a, x, alive, states, active)
    requires Indexes(active, |alive|) && Indexes(x.origins, |states|)
    requires Untouched(a.batchOffset, |a.batchOffset|, before, results, a.topFinished, topFinished)
    requires StrictlyIncreasing(keep) && Indexes(keep, |a.batchOffset|)
    requires forall i :: 0 <= i < |a.batchOffset| ==>
               SentenceFinished(c, rule, input, step, a, before, results, keep, topFinished, i)
    requires MovedOn(c, a, x, alive, states, active, topFinished, keep, r)
    ensures OnCourse(c, rule, input, step + 1, r, results)
  {
    hide CandidateAt, ActiveAt, SentenceFinished, SentenceOnCourse, Alone, Flat, Prepared, Advance, Kept, HistoriesAt;
    HistoriesGrow(c, input, step, a, x, alive, states, active, topFinished, keep, r);
    assert a.batchOffset[..|a.batchOffset|] == a.batchOffset;
    var next := step + 1;
    forall j | 0 <= j < |keep| ensures SentenceOnCourse(c, rule, input, next, r, results, j) {
      SentenceMoved(c, rule, input, step, a, x, alive, states, active, before, results, topFinished, keep, r, j);
      SurvivorOnCourse(c, rule, input, step, a, before, results, keep, topFinished, r, j);
    }
    forall b | 0 <= b < |results| && b !in r.batchOffset ensures results[b] == Alone(c, rule, input, b) {
      if b in a.batchOffset {
        var i :| 0 <= i < |a.batchOffset| && a.batchOffset[i] == b;
        GatherHolds(a.batchOffset, keep, i);
        FinalIsAlone(c, rule, input, step, a, before, results, keep, topFinished, i);
      }
    }
  }

  /** The arrays before the first step. */
  method Initialize<S(!new)>(c: Config<S>, rule: StopRule, input: Input<S>)
    returns (a: Arrays<S>, results: seq<seq<Hypothesis>>)
    requires ValidConfig(c) && input.Matching()
    ensures OnCourse(c, rule, input, 0, a, results)
  {
    hide SentenceOnCourse;
    var n := |input.startIds|;
    results := seq(n, _ => []);
    var topFinished := seq(n, _ => false);
    if c.expandAfterFirstStep {
      a := Arrays(Iota(n), 1, input.startIds, None, input.states, None, topFinished);
    } else {
      // replicate_state, repeat_batch and initialize_beam_scores
      var ids := RepeatBatch(input.startIds, c.beamSize);
      var states := RepeatBatch(input.states, c.beamSize);
      var scores := InitializeBeamScores(n, c.beamSize, c.lowest);
      a := Arrays(Iota(n), c.beamSize, ids, Some(scores), states, None, topFinished);
    }
    forall i | 0 <= i < n ensures SentenceOnCourse(c, rule, input, 0, a, results, i) {
      StartsOnCourse(c, rule, input, a, results, i);
    }
    forall b | 0 <= b < n ensures b in a.batchOffset {
      assert a.batchOffset[b] == b;
    }
  }

  /** `repeat_batch`. */
  method RepeatBatch<T>(v: seq<T>, w: nat) returns (r: seq<T>)
    requires w > 0
    ensures |r| == |v| * w
    ensures forall q :: 0 <= q < |r| ==> RowOf(q, w) < |v| && r[q] == v[RowOf(q, w)]
  {
    r := [];
    var q := 0;
    while q < |v| * w
      invariant q == |r| <= |v| * w
      invariant forall p :: 0 <= p < q ==> RowOf(p, w) < |v| && r[p] == v[RowOf(p, w)]
    {
      PositionOf(q, |v|, w);
      r := r + [v[RowOf(q, w)]];
      q := q + 1;
    }
  }

  /** `initialize_beam_scores`. */
  method InitializeBeamScores(n: nat, w: nat, lowest: real) returns (r: seq<real>)
    requires w > 0
    ensures |r| == n * w
    ensures forall q :: 0 <= q < |r| ==> r[q] == if ColumnOf(q, w) == 0 then 0.0 else lowest
  {
    r := [];
    var q := 0;
    while q < n * w
      invariant q == |r| <= n * w
      invariant forall p :: 0 <= p < q ==> r[p] == if ColumnOf(p, w) == 0 then 0.0 else lowest
    {
      r := r + [if q % w == 0 then 0.0 else lowest];
      q := q + 1;
    }
  }

  lemma StartsOnCourse<S(!new)>(c: Config<S>, rule: StopRule, input: Input<S>, a: Arrays<S>,
                                results: seq<seq<Hypothesis>>, i: nat)
    requires ValidConfig(c) && Ready(c, input, 0, a) && |results| == |input.startIds|
    requires a.batchOffset == Iota(|input.startIds|) && i < |a.batchOffset| && results[i] == [] && !a.topFinished[i]
    requires a.aliveSeq.None? && (a.scores.None? <==> c.expandAfterFirstStep)
    requires forall q :: 0 <= q < |a.ids| ==>
      && RowOf(q, a.width) < |input.startIds|
      && a.ids[q] == input.startIds[RowOf(q, a.width)] && a.states[q] == input.states[RowOf(q, a.width)]
      && (a.scores.Some? ==> a.scores.value[q] == if ColumnOf(q, a.width) == 0 then 0.0 else c.lowest)
    ensures SentenceOnCourse(c, rule, input, 0, a, results, i)
  {
    hide Flat, RowOf, ColumnOf, BeamRun;
    forall k | 0 <= k < a.width ensures a.RowsOf(i)[k] == StartRows(c, input.states[i], input.startIds[i])[k] {
      FlatPosition(i, k, a.width, |a.batchOffset|);
    }
    assert a.RowsOf(i) == StartRows(c, input.states[i], input.startIds[i]);
  }

  /** No sentence is left when the loop ends. */
  lemma AllAlone<S(!new)>(c: Config<S>, rule: StopRule, input: Input<S>, step: nat, a: Arrays<S>,
                          results: seq<seq<Hypothesis>>)
    requires ValidConfig(c) && OnCourse(c, rule, input, step, a, results)
    requires a.batchOffset == [] || forall b :: 0 <= b < |input.startIds| ==> OwnMaxStep(c, input.Prefix(b)) <= step
    ensures |results| == |input.startIds|
    ensures forall b :: 0 <= b < |results| ==> results[b] == Alone(c, rule, input, b)
  {
    hide Alone, BeamRun;
    if a.batchOffset != [] {
      LiveSentence(c, rule, input, step, a, results, 0);
    }
  }

  lemma LiveSentence<S(!new)>(c: Config<S>, rule: StopRule, input: Input<S>, step: nat, a: Arrays<S>,
                              results: seq<seq<Hypothesis>>, i: nat)
    requires ValidConfig(c) && OnCourse(c, rule, input, step, a, results) && i < |a.batchOffset|
    ensures step < OwnMaxStep(c, input.Prefix(a.batchOffset[i]))
  {
    hide Alone, BeamRun;
    assert SentenceOnCourse(c, rule, input, step, a, results, i);
  }

  /** Batched beam search returns, for every sentence of every batch, what that sentence yields alone. */
  method Search<S(!new)>(c: Config<S>, rule: StopRule, input: Input<S>) returns (results: seq<seq<Hypothesis>>)
    requires ValidConfig(c) && input.Matching()
    ensures |results| == |input.startIds|
    ensures forall b :: 0 <= b < |results| ==> results[b] == Alone(c, rule, input, b)
  {
    hide OnCourse, Alone;
    var a;
    a, results := Initialize(c, rule, input);
    var maxStep := GetMaxStep(c.maxLength, c.returnPrefix, input.prefixIds);
    var step := 0;
    while step < maxStep
      invariant step <= maxStep
      invariant OnCourse(c, rule, input, step, a, results)
    {
      a, results := StepAndCompact(c, rule, input, step, a, results);
      step := step + 1;
      if a.batchOffset == [] {
        break;
      }
    }
    AllAlone(c, rule, input, step, a, results);
  }
}
