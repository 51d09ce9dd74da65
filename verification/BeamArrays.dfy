/** What the arrays of batched beam search stand for between steps (src/decoding.cc): `BeamSearch.OnCourse`
    holds whenever the loop is about to take a step, so the promises about one sentence are promises about
    the flat ids, scores, decoder states and histories. Row k of sentence i is at position i * width + k. */
module BeamArrays {
  import opened Options
  import opened RowMajor
  import opened Vectors
  import opened Processors
  import opened Steps
  import opened Beam
  import opened BeamCandidates
  import opened BeamPaths
  import opened BeamReplacement
  import opened BeamFirstStep
  import opened BeamSearch

  /** A live sentence's rows are those of its own search. */
  lemma RowsReached<S(!new)>(c: Config<S>, rule: StopRule, input: Input<S>, step: nat, a: Arrays<S>,
                             results: seq<seq<Hypothesis>>, i: nat)
    requires ValidConfig(c) && OnCourse(c, rule, input, step, a, results) && i < |a.batchOffset|
    ensures var b := a.batchOffset[i];
            var start := Start(c, input.states[b], input.startIds[b]);
            && ValidRows(c, start.rows)
            && step < OwnMaxStep(c, PrefixAt(input, a, i))
            && a.RowsOf(i) == After(c, PrefixAt(input, a, i), step, start).rows
  {
    hide BeamRun, Alone, After, Start;
    assert SentenceOnCourse(c, rule, input, step, a, results, i);
  }

  /** At the start of every step, for every live sentence i and beam k: the decoder state at i * width + k is
      the one reached by feeding the start token and the row's history without its last token, the flat id is
      that last token, the history starts with the forced prefix, and the flat score is the row's base plus the
      log-probs of the free tokens of its history. */
  lemma ArraysAligned<S(!new)>(c: Config<S>, rule: StopRule, input: Input<S>, step: nat, a: Arrays<S>,
                               results: seq<seq<Hypothesis>>, i: nat, k: nat)
    requires ValidConfig(c) && OnCourse(c, rule, input, step, a, results) && i < |a.batchOffset| && k < a.width
    ensures Flat(i, k, a.width) < |a.ids|
    ensures var b := a.batchOffset[i];
            RowAligned(c, PrefixAt(input, a, i), input.states[b], input.startIds[b], step, a.RowAt(Flat(i, k, a.width)))
  {
    hide SentenceOnCourse, Alone, After, RowAligned, Flat;
    var b := a.batchOffset[i];
    RowsReached(c, rule, input, step, a, results, i);
    RowsAligned(c, PrefixAt(input, a, i), input.states[b], input.startIds[b], step);
    assert a.RowsOf(i)[k] == a.RowAt(Flat(i, k, a.width));
  }

  /** With at most one end id, no history in `alive_seq` contains it after the forced prefix at the start of
    any step. */
  lemma ArraysEndFree<S(!new)>(c: Config<S>, rule: StopRule, input: Input<S>, step: nat, a: Arrays<S>,
                               results: seq<seq<Hypothesis>>, i: nat, k: nat)
    requires ValidConfig(c) && OnCourse(c, rule, input, step, a, results) && i < |a.batchOffset| && k < a.width
    requires NumEndIds(c.endIds) <= 1
    ensures Flat(i, k, a.width) < |a.ids|
    ensures EndFree(c.endIds, a.RowAt(Flat(i, k, a.width)).hist, PrefixLength(PrefixAt(input, a, i)))
  {
    hide SentenceOnCourse, Alone, After, Flat, EndFree;
    var b := a.batchOffset[i];
    RowsReached(c, rule, input, step, a, results, i);
    AliveNeverEnded(c, PrefixAt(input, a, i), input.states[b], input.startIds[b], step);
    assert a.RowsOf(i)[k] == a.RowAt(Flat(i, k, a.width));
  }

  /** Started unexpanded and unforced, the rows of a sentence in `alive_seq` always differ. */
  lemma ArraysDistinct<S(!new)>(c: Config<S>, rule: StopRule, input: Input<S>, step: nat, a: Arrays<S>,
                                results: seq<seq<Hypothesis>>, i: nat, j: nat, k: nat)
    requires ValidConfig(c) && OnCourse(c, rule, input, step, a, results) && i < |a.batchOffset| && j < k < a.width
    requires c.expandAfterFirstStep && input.prefixIds.None?
    ensures Flat(i, j, a.width) < |a.ids| && Flat(i, k, a.width) < |a.ids|
    ensures a.RowAt(Flat(i, j, a.width)).hist != a.RowAt(Flat(i, k, a.width)).hist
  {
    hide SentenceOnCourse, Alone, After, Flat;
    var b := a.batchOffset[i];
    RowsReached(c, rule, input, step, a, results, i);
    BeamsDistinct(c, input.states[b], input.startIds[b], step);
    assert a.RowsOf(i)[j] == a.RowAt(Flat(i, j, a.width)) && a.RowsOf(i)[k] == a.RowAt(Flat(i, k, a.width));
  }

  /** All through a forced prefix, and on the step after it, the rows of a sentence are copies of one row, of
      which only the first has a score. */
  lemma ArraysForced<S(!new)>(c: Config<S>, rule: StopRule, input: Input<S>, step: nat, a: Arrays<S>,
                              results: seq<seq<Hypothesis>>, i: nat)
    requires ValidConfig(c) && OnCourse(c, rule, input, step, a, results) && i < |a.batchOffset|
    requires 0 < step <= PrefixLength(PrefixAt(input, a, i))
    ensures Copies(c, a.RowsOf(i))
  {
    hide SentenceOnCourse, Alone, After, Copies;
    var b := a.batchOffset[i];
    RowsReached(c, rule, input, step, a, results, i);
    var prefix := PrefixAt(input, a, i);
    ForcedBeams(c, prefix.value, Start(c, input.states[b], input.startIds[b]), step);
  }
}
