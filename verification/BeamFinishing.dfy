/** The finishing loops of batched beam search (src/decoding.cc): registration of finished beams, the scan
    for their replacements, and the decision which sentences stop. */
module BeamFinishing {
  import opened Options
  import opened RowMajor
  import opened Vectors
  import opened Processors
  import opened Steps
  import opened Beam
  import opened BeamCandidates

  /** The positions of sentence i hold these candidates. */
  ghost predicate HoldsCandidates<S>(c: Config<S>, step: nat, x: Choices, alive: seq<seq<Token>>, i: nat,
                                     cands: seq<Candidate>) {
    && x.Sized(|alive|) && |cands| == c.NumCandidates()
    && forall k :: 0 <= k < |cands| ==>
         && Flat(i, k, c.NumCandidates()) < |alive|
         && x.ids[Flat(i, k, c.NumCandidates())] == cands[k].token
         && x.scores[Flat(i, k, c.NumCandidates())] == cands[k].score
         && alive[Flat(i, k, c.NumCandidates())] == cands[k].hist
         && |cands[k].hist| == step + 1
  }

  /** The scan for an active candidate in the second half. */
  method FindActive<S(!new)>(c: Config<S>, step: nat, x: Choices, ghost alive: seq<seq<Token>>, i: nat, from: nat,
                             ghost cands: seq<Candidate>)
    returns (j: nat)
    requires HoldsCandidates(c, step, x, alive, i, cands) && from <= c.NumCandidates()
    ensures j == FirstActive(c.endIds, cands, from)
  {
    hide Flat;
    j := from;
    while j < c.NumCandidates() && IsEos(x.ids[Flat(i, j, c.NumCandidates())], c.endIds)
      invariant from <= j <= c.NumCandidates() && FirstActive(c.endIds, cands, from) == FirstActive(c.endIds, cands, j)
    {
      j := j + 1;
    }
  }

  /** Registration of one finished beam. */
  method BuildHypothesis<S(!new)>(c: Config<S>, prefix: Option<seq<Token>>, step: nat, hist: seq<Token>, lastId: Token,
                                  score: real, ghost x: Candidate)
    returns (h: Hypothesis)
    requires x.hist == hist && x.token == lastId && x.score == score && |hist| == step + 1
    requires c.maxLength > 0 && Finishes(c, prefix, step, x)
    ensures h == Hypothesize(c, prefix, step, x)
  {
    var ignoreLastToken := IsEos(lastId, c.endIds) && !c.includeEos;
    var start := if c.returnPrefix then 0 else PrefixLength(prefix);
    var end := if ignoreLastToken then step else step + 1;
    h := Hypothesis(hist[start..end], score);
  }

  ghost predicate ChosenBeams<S>(c: Config<S>, prefix: Option<seq<Token>>, step: nat, cands: seq<Candidate>, i: nat,
                                 active: seq<nat>)
    requires |cands| == c.NumCandidates() && |active| <= c.beamSize
  {
    forall k :: 0 <= k < |active| ==> active[k] == Flat(i, Chosen(c, prefix, step, cands, k), c.NumCandidates())
  }

  /** Beam k of sentence i: its hypothesis if it finished, the candidate that takes its place, and where
      the scan for the next replacement starts. */
  method FinishBeam<S(!new)>(c: Config<S>, prefix: Option<seq<Token>>, step: nat, x: Choices, alive: seq<seq<Token>>,
                             i: nat, k: nat, offset: nat, ghost cands: seq<Candidate>)
    returns (finished: bool, h: Hypothesis, nextBeamId: nat, secondaryCandidatesOffset: nat)
    requires ValidConfig(c) && HoldsCandidates(c, step, x, alive, i, cands) && k < c.beamSize
    requires offset == Offset(c, prefix, step, cands, k)
    ensures finished == Finishes(c, prefix, step, cands[k])
    ensures finished ==> h == Hypothesize(c, prefix, step, cands[k])
    ensures nextBeamId == Chosen(c, prefix, step, cands, k)
    ensures secondaryCandidatesOffset == Offset(c, prefix, step, cands, k + 1)
  {
    hide Flat, FirstActive, Hypothesize;
    var position := Flat(i, k, c.NumCandidates());
    var lastId := x.ids[position];
    finished, h, nextBeamId, secondaryCandidatesOffset := false, Hypothesis([], 0.0), k, offset;
    if (IsEos(lastId, c.endIds) && step >= PrefixLength(prefix)) || IsLastStep(c, step, prefix) {
      finished := true;
      h := BuildHypothesis(c, prefix, step, alive[position], lastId, x.scores[position], cands[k]);
      var j := FindActive(c, step, x, alive, i, offset, cands);
      if j < c.NumCandidates() {
        nextBeamId := j;
        secondaryCandidatesOffset := j + 1;
      }
    }
  }

  /** The loop over the beams of sentence i: registers the finished ones and picks the next beams. */
  method FinishBeams<S(!new)>(c: Config<S>, prefix: Option<seq<Token>>, step: nat, x: Choices, alive: seq<seq<Token>>,
                              i: nat, before: seq<Hypothesis>, wasFinished: bool, ghost cands: seq<Candidate>)
    returns (hyps: seq<Hypothesis>, active: seq<nat>, topFinished: bool)
    requires ValidConfig(c) && c.beamSize > 0 && |cands| == c.NumCandidates()
    requires HoldsCandidates(c, step, x, alive, i, cands)
    ensures hyps == before + Registered(c, prefix, step, cands, c.beamSize)
    ensures |active| == c.beamSize && ChosenBeams(c, prefix, step, cands, i, active)
    ensures topFinished <==> wasFinished || Finishes(c, prefix, step, cands[0])
  {
    hide Flat, Hypothesize, Chosen, Finishes, HoldsCandidates, NextOffset, ValidConfig;
    hyps, active, topFinished := before, [], wasFinished;
    var secondaryCandidatesOffset := c.beamSize;
    var k := 0;
    while k < c.beamSize
      invariant k <= c.beamSize
      invariant hyps == before + Registered(c, prefix, step, cands, k)
      invariant |active| == k && ChosenBeams(c, prefix, step, cands, i, active)
      invariant secondaryCandidatesOffset == Offset(c, prefix, step, cands, k)
      invariant topFinished <==> wasFinished || (k > 0 && Finishes(c, prefix, step, cands[0]))
    {
      var finished, h, nextBeamId;
      finished, h, nextBeamId, secondaryCandidatesOffset :=
        FinishBeam(c, prefix, step, x, alive, i, k, secondaryCandidatesOffset, cands);
      if finished {
        if k == 0 {
          topFinished := true;
        }
        hyps := hyps + [h];
      }
      active := active + [Flat(i, nextBeamId, c.NumCandidates())];
      k := k + 1;
    }
  }

  /** The arrays and results after the loop over all sentences, for sentence i. */
  ghost predicate SentenceFinished<S(!new)>(c: Config<S>, rule: StopRule, input: Input<S>, step: nat, a: Arrays<S>,
                                            before: seq<seq<Hypothesis>>, results: seq<seq<Hypothesis>>,
                                            nonFinished: seq<nat>, topFinished: seq<bool>, i: nat)
    requires ValidConfig(c) && Ready(c, input, step, a) && |results| == |before| == |input.startIds|
    requires i < |topFinished| <= |a.batchOffset|
  {
    var b := a.batchOffset[i];
    var next := Advance(c, PrefixAt(input, a, i), step, a.SentenceAt(i, before));
    var stops := Stops(c, rule, PrefixAt(input, a, i), step, next.topFinished, |next.hypotheses|);
    && (i in nonFinished <==> !stops)
    && results[b] == (if stops then Finalize(c, next.hypotheses) else next.hypotheses)
    && topFinished[i] == next.topFinished
  }

  /** Position r of the next beams refers to the candidate chosen for it. */
  ghost predicate ActiveAt<S(!new)>(c: Config<S>, input: Input<S>, step: nat, a: Arrays<S>, active: seq<nat>, r: nat)
    requires ValidConfig(c) && Ready(c, input, step, a) && r < |active| <= |a.batchOffset| * c.beamSize
  {
    PositionOf(r, |a.batchOffset|, c.beamSize);
    var i := RowOf(r, c.beamSize);
    var cands := Candidates(c, PrefixAt(input, a, i), step, a.RowsOf(i));
    active[r] == Flat(i, Chosen(c, PrefixAt(input, a, i), step, cands, ColumnOf(r, c.beamSize)), c.NumCandidates())
  }

  /** The histories have one token per step done. */
  ghost predicate HistoriesAt<S>(step: nat, a: Arrays<S>)
    requires a.Shaped()
  {
    forall r :: 0 <= r < |a.ids| ==> |a.RowAt(r).hist| == step
  }

  lemma SentenceHolds<S(!new)>(c: Config<S>, input: Input<S>, step: nat, a: Arrays<S>, x: Choices,
                               alive: seq<seq<Token>>, i: nat)
    requires ValidConfig(c) && Ready(c, input, step, a) && HistoriesAt(step, a) && i < |a.batchOffset|
    requires x.Sized(|alive|) && |alive| == |a.batchOffset| * c.NumCandidates()
    requires forall r :: 0 <= r < |alive| ==> CandidateAt(c, input, step, a, x, alive, r)
    ensures HoldsCandidates(c, step, x, alive, i, Candidates(c, PrefixAt(input, a, i), step, a.RowsOf(i)))
  {
    hide Candidates, Flat, RowOf, ColumnOf;
    var w := c.NumCandidates();
    var cands := Candidates(c, PrefixAt(input, a, i), step, a.RowsOf(i));
    forall k | 0 <= k < |cands|
      ensures Flat(i, k, w) < |alive|
      ensures x.ids[Flat(i, k, w)] == cands[k].token && x.scores[Flat(i, k, w)] == cands[k].score
      ensures alive[Flat(i, k, w)] == cands[k].hist && |cands[k].hist| == step + 1
    {
      FlatPosition(i, k, w, |a.batchOffset|);
      assert CandidateAt(c, input, step, a, x, alive, Flat(i, k, w));
      CandidateOrigin(c, PrefixAt(input, a, i), step, a.RowsOf(i), k);
      var o := cands[k].origin;
      assert a.RowsOf(i)[o] == a.RowAt(Flat(i, o, a.width));
    }
  }

  lemma ActiveKept<S(!new)>(c: Config<S>, input: Input<S>, step: nat, a: Arrays<S>, active: seq<nat>, beams: seq<nat>,
                            i: nat)
    requires ValidConfig(c) && Ready(c, input, step, a) && i < |a.batchOffset|
    requires |active| == i * c.beamSize <= |a.batchOffset| * c.beamSize && |beams| == c.beamSize
    requires forall r :: 0 <= r < |active| ==> ActiveAt(c, input, step, a, active, r)
    requires ChosenBeams(c, PrefixAt(input, a, i), step, Candidates(c, PrefixAt(input, a, i), step, a.RowsOf(i)), i,
                         beams)
    ensures |active + beams| == (i + 1) * c.beamSize <= |a.batchOffset| * c.beamSize
    ensures forall r :: 0 <= r < |active + beams| ==> ActiveAt(c, input, step, a, active + beams, r)
  {
    hide Candidates, Chosen, Flat;
    var w := c.beamSize;
    FlatRows(i, w);
    FlatRows(i + 1, w);
    ProductMonotone(i + 1, |a.batchOffset|, w);
    forall r | 0 <= r < |active + beams| ensures ActiveAt(c, input, step, a, active + beams, r) {
      if r < |active| {
        assert ActiveAt(c, input, step, a, active, r);
      } else {
        FlatOffset(i, r - |active|, w);
        FlatPosition(i, r - |active|, w, |a.batchOffset|);
      }
    }
  }

  lemma FlatOffset(i: nat, k: nat, w: nat)
    ensures Flat(i, k, w) == i * w + k
  {
  }

  /** What the loop has left untouched: the results of other sentences and the flags of later ones. */
  ghost predicate Untouched(batchOffset: seq<nat>, i: nat, before: seq<seq<Hypothesis>>, results: seq<seq<Hypothesis>>,
                            wasFinished: seq<bool>, topFinished: seq<bool>)
    requires i <= |batchOffset|
  {
    && |results| == |before| && |topFinished| == |wasFinished|
    && (forall b :: 0 <= b < |before| && b !in batchOffset[..i] ==> results[b] == before[b])
    && (forall k :: i <= k < |topFinished| ==> topFinished[k] == wasFinished[k])
  }

  lemma FinishedKept<S(!new)>(c: Config<S>, rule: StopRule, input: Input<S>, step: nat, a: Arrays<S>,
                              before: seq<seq<Hypothesis>>, was: seq<seq<Hypothesis>>, results: seq<seq<Hypothesis>>,
                              wasOpen: seq<nat>, open: seq<nat>, wasFinished: seq<bool>, topFinished: seq<bool>,
                              i: nat, q: nat)
    requires ValidConfig(c) && Ready(c, input, step, a) && StrictlyIncreasing(a.batchOffset)
    requires |was| == |results| == |before| == |input.startIds|
    requires q < i < |a.batchOffset| == |wasFinished| == |topFinished|
    requires results == was[a.batchOffset[i] := results[a.batchOffset[i]]]
    requires topFinished == wasFinished[i := topFinished[i]]
    requires open == wasOpen || open == wasOpen + [i]
    requires SentenceFinished(c, rule, input, step, a, before, was, wasOpen, wasFinished, q)
    ensures SentenceFinished(c, rule, input, step, a, before, results, open, topFinished, q)
  {
    hide Advance, Stops, Finalize;
    assert a.batchOffset[q] < a.batchOffset[i];
  }

  lemma SentenceDone<S(!new)>(c: Config<S>, rule: StopRule, input: Input<S>, step: nat, a: Arrays<S>,
                              before: seq<seq<Hypothesis>>, hyps: seq<Hypothesis>, results: seq<seq<Hypothesis>>,
                              nonFinished: seq<nat>, topFinished: seq<bool>, i: nat)
    requires ValidConfig(c) && Ready(c, input, step, a) && |results| == |before| == |input.startIds|
    requires i < |topFinished| == |a.batchOffset|
    requires var b := a.batchOffset[i];
      var cands := Candidates(c, PrefixAt(input, a, i), step, a.RowsOf(i));
      var stops := Stops(c, rule, PrefixAt(input, a, i), step, topFinished[i], |hyps|);
      && hyps == before[b] + Registered(c, PrefixAt(input, a, i), step, cands, c.beamSize)
      && (topFinished[i] <==> a.topFinished[i] || Finishes(c, PrefixAt(input, a, i), step, cands[0]))
      && (i in nonFinished <==> !stops)
      && results[b] == if stops then Finalize(c, hyps) else hyps
    ensures SentenceFinished(c, rule, input, step, a, before, results, nonFinished, topFinished, i)
  {
    hide Candidates, NextRows, Registered, Finishes, Stops, Finalize;
  }

  /** The outer finishing loop: every sentence is finalised or stays. */
  method FinishSentences<S(!new)>(c: Config<S>, rule: StopRule, input: Input<S>, step: nat, a: Arrays<S>, x: Choices,
                                  alive: seq<seq<Token>>, before: seq<seq<Hypothesis>>)
    returns (results: seq<seq<Hypothesis>>, nonFinished: seq<nat>, active: seq<nat>, topFinished: seq<bool>)
    requires ValidConfig(c) && Ready(c, input, step, a) && HistoriesAt(step, a) && StrictlyIncreasing(a.batchOffset)
    requires x.Sized(|alive|) && |alive| == |a.batchOffset| * c.NumCandidates() && |before| == |input.startIds|
    requires forall r :: 0 <= r < |alive| ==> CandidateAt(c, input, step, a, x, alive, r)
    ensures |topFinished| == |a.batchOffset| && |active| == |a.batchOffset| * c.beamSize
    ensures Untouched(a.batchOffset, |a.batchOffset|, before, results, a.topFinished, topFinished)
    ensures forall i :: 0 <= i < |a.batchOffset| ==>
              SentenceFinished(c, rule, input, step, a, before, results, nonFinished, topFinished, i)
    ensures StrictlyIncreasing(nonFinished) && Indexes(nonFinished, |a.batchOffset|)
    ensures forall r :: 0 <= r < |active| ==> ActiveAt(c, input, step, a, active, r)
  {
    hide SentenceFinished, ActiveAt, CandidateAt, HoldsCandidates, ChosenBeams, Candidates, Registered, Finalize,
         Finishes, Stops;
    results, nonFinished, active, topFinished := before, [], [], a.topFinished;
    var i := 0;
    ProductMonotone(0, |a.batchOffset|, c.beamSize);
    while i < |a.batchOffset|
      invariant i <= |a.batchOffset|
      invariant Untouched(a.batchOffset, i, before, results, a.topFinished, topFinished)
      invariant forall k :: 0 <= k < i ==>
                  SentenceFinished(c, rule, input, step, a, before, results, nonFinished, topFinished, k)
      invariant StrictlyIncreasing(nonFinished) && Indexes(nonFinished, i)
      invariant |active| == i * c.beamSize <= |a.batchOffset| * c.beamSize
      invariant forall r :: 0 <= r < |active| ==> ActiveAt(c, input, step, a, active, r)
    {
      var b := a.batchOffset[i];
      var prefix := PrefixAt(input, a, i);
      assert b !in a.batchOffset[..i];
      ghost var was, wasOpen, wasFinished := results, nonFinished, topFinished;
      SentenceHolds(c, input, step, a, x, alive, i);
      var hyps, beams, finished :=
        FinishBeams(c, prefix, step, x, alive, i, results[b], topFinished[i], Candidates(c, prefix, step, a.RowsOf(i)));
      topFinished := topFinished[i := finished];
      if Stops(c, rule, prefix, step, finished, |hyps|) {
        results := results[b := Finalize(c, hyps)];
      } else {
        results := results[b := hyps];
        nonFinished := nonFinished + [i];
      }
      SentenceDone(c, rule, input, step, a, before, hyps, results, nonFinished, topFinished, i);
      forall k | 0 <= k < i
        ensures SentenceFinished(c, rule, input, step, a, before, results, nonFinished, topFinished, k)
      {
        FinishedKept(c, rule, input, step, a, before, was, results, wasOpen, nonFinished, wasFinished, topFinished, i,
                     k);
      }
      ActiveKept(c, input, step, a, active, beams, i);
      active := active + beams;
      assert a.batchOffset[..i + 1] == a.batchOffset[..i] + [b];
      i := i + 1;
    }
  }
}
