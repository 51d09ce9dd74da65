/** Greedy decoding: `GreedySearch::search` in src/decoding.cc.

    `Search` carries the parallel arrays of the source and compacts them whenever a sentence finishes.
    `Run` decodes one sentence on its own. The method is proved to return, for every sentence of any
    batch, exactly what `Run` gives. */
module Greedy {
  import opened Options
  import opened Vectors
  import opened Processors
  import opened Steps

  /** Row-wise parts of a decoding: what one row of the decoder, of a processor and of the sampler does. */
  datatype Config<!S> = Config(
    vocabulary: nat,
    next: (nat, Token, S) -> S,              // decoder state after a step
    logits: (nat, Token, S) -> seq<real>,    // decoder output of the step
    processors: seq<Processor>,
    logSoftMax: seq<real> -> seq<real>,
    pick: seq<real> -> Token,                // the sampler, one sample per row
    normalize: (real, nat) -> real,          // finalize_hypothesis_score
    endIds: seq<Token>, startStep: nat, maxLength: nat, minLength: nat,
    returnScores: bool, returnPrefix: bool, includeEos: bool,
    lowest: real)

  /** step, logits, history (empty when absent), forced prefix (None when no sentence has one) -> logits */
  type Processor = (nat, seq<real>, seq<Token>, Option<seq<Token>>) -> seq<real>

  ghost predicate KeepsLength(p: Processor) {
    forall step, xs, hist, prefix :: |p(step, xs, hist, prefix)| == |xs|
  }

  ghost predicate ValidConfig<S(!new)>(c: Config<S>) {
    && c.vocabulary > 0
    && c.maxLength > 0
    && (forall step, tok, st :: |c.logits(step, tok, st)| == c.vocabulary)
    && (forall k :: 0 <= k < |c.processors| ==> KeepsLength(c.processors[k]))
    && (forall xs :: |c.logSoftMax(xs)| == |xs|)
    && (forall xs :: xs != [] ==> c.pick(xs) < |xs|)
  }

  // ----- One row -----

  function Disable(xs: seq<real>, ids: seq<Token>, lowest: real): (r: seq<real>)
    ensures |r| == |xs| && forall t :: 0 <= t < |r| ==> r[t] == if t in ids then lowest else xs[t]
  {
    seq(|xs|, t requires 0 <= t < |xs| => if t in ids then lowest else xs[t])
  }

  /** One row of `apply_min_length`. */
  function BelowMinLength<S>(c: Config<S>, step: nat, prefix: Option<seq<Token>>): bool {
    step < c.minLength + if prefix.Some? && !c.returnPrefix then |prefix.value| else 0
  }

  function Process(processors: seq<Processor>, step: nat, xs: seq<real>, hist: seq<Token>,
                   prefix: Option<seq<Token>>): seq<real>
  {
    if processors == [] then xs
    else
      var m := |processors| - 1;
      processors[m](step, Process(processors[..m], step, xs, hist, prefix), hist, prefix)
  }

  /** The processed logits of one row: decoder, minimum length, processors in order. */
  function RowLogits<S>(c: Config<S>, step: nat, tok: Token, st: S, hist: seq<Token>,
                        prefix: Option<seq<Token>>): seq<real> {
    var raw := c.logits(c.startStep + step, tok, st);
    var masked := if BelowMinLength(c, step, prefix) then Disable(raw, c.endIds, c.lowest) else raw;
    Process(c.processors, step, masked, hist, prefix)
  }

  function RowScores<S>(c: Config<S>, logits: seq<real>): seq<real> {
    if c.returnScores then c.logSoftMax(logits) else logits
  }

  /** One row of `update_sample_with_prefix` with a single sample. */
  function Forced(step: nat, prefix: Option<seq<Token>>, id: Token, score: real): (Token, real) {
    if prefix.Some? && step < |prefix.value| then (prefix.value[step], 0.0) else (id, score)
  }

  function OwnMaxStep<S>(c: Config<S>, prefix: Option<seq<Token>>): nat {
    MaxSteps(c.maxLength, c.returnPrefix, prefix)
  }

  function IsLastStep<S>(c: Config<S>, step: nat, prefix: Option<seq<Token>>): bool {
    step + 1 == OwnMaxStep(c, prefix)
  }

  /** One sentence in flight: decoder state, next input, history shown to processors, result so far. */
  datatype Row<S> = Row(state: S, input: Token, hist: seq<Token>, result: Hypothesis)

  /** The sampler and the forced prefix on one row of processed logits. */
  function PickRow<S(!new)>(c: Config<S>, step: nat, logits: seq<real>, prefix: Option<seq<Token>>): (Token, real)
    requires ValidConfig(c) && logits != []
  {
    var scores := RowScores(c, logits);
    var id := c.pick(scores);
    Forced(step, prefix, id, scores[id])
  }

  function Sampled<S(!new)>(c: Config<S>, step: nat, row: Row<S>, prefix: Option<seq<Token>>): (Token, real)
    requires ValidConfig(c)
  {
    RowLength(c, step, row, prefix);
    PickRow(c, step, RowLogits(c, step, row.input, row.state, row.hist, prefix), prefix)
  }

  lemma {:induction false} ProcessLength(processors: seq<Processor>, step: nat, xs: seq<real>, hist: seq<Token>,
                                         prefix: Option<seq<Token>>)
    requires forall k :: 0 <= k < |processors| ==> KeepsLength(processors[k])
    ensures |Process(processors, step, xs, hist, prefix)| == |xs|
  {
    if processors != [] {
      var m := |processors| - 1;
      ProcessLength(processors[..m], step, xs, hist, prefix);
      assert KeepsLength(processors[m]);
    }
  }

  lemma RowLength<S(!new)>(c: Config<S>, step: nat, row: Row<S>, prefix: Option<seq<Token>>)
    requires ValidConfig(c)
    ensures |RowLogits(c, step, row.input, row.state, row.hist, prefix)| == c.vocabulary
  {
    var raw := c.logits(c.startStep + step, row.input, row.state);
    var masked := if BelowMinLength(c, step, prefix) then Disable(raw, c.endIds, c.lowest) else raw;
    ProcessLength(c.processors, step, masked, row.hist, prefix);
  }

  lemma SampledByRow<S(!new)>(c: Config<S>, step: nat, row: Row<S>, prefix: Option<seq<Token>>, logits: seq<real>)
    requires ValidConfig(c) && logits == RowLogits(c, step, row.input, row.state, row.hist, prefix)
    ensures logits != [] && PickRow(c, step, logits, prefix) == Sampled(c, step, row, prefix)
  {
    RowLength(c, step, row, prefix);
  }

  function Extend<S>(c: Config<S>, step: nat, prefix: Option<seq<Token>>, r: Hypothesis, id: Token,
                     score: real): Hypothesis {
    Hypothesis(
      if (!IsEos(id, c.endIds) || c.includeEos) && (c.returnPrefix || step >= PrefixLength(prefix)) then r.tokens + [id]
      else r.tokens,
      if c.returnScores then r.score + score else r.score)
  }

  function Finishes<S>(c: Config<S>, step: nat, prefix: Option<seq<Token>>, id: Token): bool {
    (IsEos(id, c.endIds) && step >= PrefixLength(prefix)) || IsLastStep(c, step, prefix)
  }

  function Finalize<S>(c: Config<S>, r: Hypothesis): Hypothesis {
    if c.returnScores then r.(score := c.normalize(r.score, |r.tokens|)) else r
  }

  /** The row after a step that does not finish it (and, for the result, after any step). */
  function NextRow<S(!new)>(c: Config<S>, step: nat, row: Row<S>, prefix: Option<seq<Token>>): Row<S>
    requires ValidConfig(c)
  {
    var (id, score) := Sampled(c, step, row, prefix);
    Row(c.next(c.startStep + step, row.input, row.state), id,
        if c.processors == [] then [] else row.hist + [id],
        Extend(c, step, prefix, row.result, id, score))
  }

  /** Greedy decoding of one sentence on its own. */
  function Run<S(!new)>(c: Config<S>, prefix: Option<seq<Token>>, step: nat, row: Row<S>): Hypothesis
    requires ValidConfig(c) && step < OwnMaxStep(c, prefix)
    decreases OwnMaxStep(c, prefix) - step
  {
    var next := NextRow(c, step, row, prefix);
    if Finishes(c, step, prefix, next.input) then Finalize(c, next.result)
    else Run(c, prefix, step + 1, next)
  }

  function Start<S>(state: S, startId: Token): Row<S> {
    Row(state, startId, [], Hypothesis([], 0.0))
  }

  // ----- The batched search -----

  /** The arrays of the search between two steps. `aliveSeq` is None until a processor needs it. */
  datatype Arrays<S> = Arrays(batchOffset: seq<nat>, sampleFrom: seq<Token>, states: seq<S>,
                              aliveSeq: Option<seq<seq<Token>>>)
  {
    predicate Shaped() {
      && |sampleFrom| == |states| == |batchOffset|
      && (aliveSeq.Some? ==> |aliveSeq.value| == |batchOffset|)
    }

    function Hist(i: nat): seq<Token>
      requires aliveSeq.Some? ==> i < |aliveSeq.value|
    {
      if aliveSeq.Some? then aliveSeq.value[i] else []
    }

    /** The arrays restricted to the given rows. */
    function Keep(rows: seq<nat>): (r: Arrays<S>)
      requires Indexes(rows, |batchOffset|) && Shaped()
      ensures r.Shaped() && |r.batchOffset| == |rows|
    {
      Arrays(Gather(batchOffset, rows), Gather(sampleFrom, rows), Gather(states, rows),
             if aliveSeq.Some? then Some(Gather(aliveSeq.value, rows)) else None)
    }

    /** Row i of the arrays as one sentence in flight. */
    ghost function RowAt(i: nat, results: seq<Hypothesis>): Row<S>
      requires Shaped() && i < |batchOffset| && batchOffset[i] < |results|
    {
      Row(states[i], sampleFrom[i], Hist(i), results[batchOffset[i]])
    }
  }

  /** What sentence b yields on its own. */
  ghost function Alone<S(!new)>(c: Config<S>, input: Input<S>, b: nat): Hypothesis
    requires ValidConfig(c) && input.Matching() && b < |input.startIds|
  {
    Run(c, input.Prefix(b), 0, Start(input.states[b], input.startIds[b]))
  }

  /** The decoder call: every row advances and yields its logits. */
  method DecodeRows<S(!new)>(c: Config<S>, step: nat, a: Arrays<S>) returns (logits: seq<seq<real>>, states: seq<S>)
    requires a.Shaped()
    ensures |logits| == |states| == |a.states|
    ensures forall i :: 0 <= i < |states| ==> logits[i] == c.logits(c.startStep + step, a.sampleFrom[i], a.states[i])
    ensures forall i :: 0 <= i < |states| ==> states[i] == c.next(c.startStep + step, a.sampleFrom[i], a.states[i])
  {
    logits, states := [], [];
    var i := 0;
    while i < |a.states|
      invariant i == |logits| == |states| <= |a.states|
      invariant forall k :: 0 <= k < i ==>
                  && logits[k] == c.logits(c.startStep + step, a.sampleFrom[k], a.states[k])
                  && states[k] == c.next(c.startStep + step, a.sampleFrom[k], a.states[k])
    {
      logits := logits + [c.logits(c.startStep + step, a.sampleFrom[i], a.states[i])];
      states := states + [c.next(c.startStep + step, a.sampleFrom[i], a.states[i])];
      i := i + 1;
    }
  }

  /** `apply_min_length` and then each processor over all rows. */
  method ProcessRows<S(!new)>(c: Config<S>, step: nat, a: Arrays<S>, raw: seq<seq<real>>,
                              prefixIds: Option<seq<seq<Token>>>)
    returns (logits: seq<seq<real>>)
    requires a.Shaped() && |raw| == |a.states|
    requires forall i :: 0 <= i < |a.states| ==> prefixIds.Some? ==> a.batchOffset[i] < |prefixIds.value|
    requires forall i :: 0 <= i < |raw| ==> raw[i] == c.logits(c.startStep + step, a.sampleFrom[i], a.states[i])
    ensures |logits| == |raw|
    ensures forall i :: 0 <= i < |raw| ==>
              logits[i] == RowLogits(c, step, a.sampleFrom[i], a.states[i], a.Hist(i),
                                     PrefixOf(prefixIds, a.batchOffset[i]))
  {
    var masked: seq<seq<real>> := [];
    var i := 0;
    while i < |raw|
      invariant i == |masked| <= |raw|
      invariant forall k :: 0 <= k < i ==>
                  masked[k] == if BelowMinLength(c, step, PrefixOf(prefixIds, a.batchOffset[k]))
                               then Disable(raw[k], c.endIds, c.lowest) else raw[k]
    {
      masked := masked + [if BelowMinLength(c, step, PrefixOf(prefixIds, a.batchOffset[i]))
                          then Disable(raw[i], c.endIds, c.lowest) else raw[i]];
      i := i + 1;
    }
    logits := masked;
    var p := 0;
    while p < |c.processors|
      invariant p <= |c.processors| && |logits| == |raw|
      invariant forall k :: 0 <= k < |raw| ==>
                  logits[k] == Process(c.processors[..p], step, masked[k], a.Hist(k),
                                       PrefixOf(prefixIds, a.batchOffset[k]))
    {
      assert c.processors[..p + 1][..p] == c.processors[..p];
      logits := seq(|raw|, k requires 0 <= k < |raw| && |logits| == |raw| =>
                      c.processors[p](step, logits[k], a.Hist(k), PrefixOf(prefixIds, a.batchOffset[k])));
      p := p + 1;
    }
    assert c.processors[..p] == c.processors;
  }

  /** The sampler and `update_sample_with_prefix`. */
  method SampleRows<S(!new)>(c: Config<S>, step: nat, batchOffset: seq<nat>, logits: seq<seq<real>>,
                             prefixIds: Option<seq<seq<Token>>>)
    returns (bestIds: seq<Token>, bestProbs: seq<real>)
    requires ValidConfig(c) && |logits| == |batchOffset|
    requires forall i :: 0 <= i < |logits| ==> logits[i] != []
    requires forall i :: 0 <= i < |batchOffset| ==> prefixIds.Some? ==> batchOffset[i] < |prefixIds.value|
    ensures |bestIds| == |bestProbs| == |logits|
    ensures forall i :: 0 <= i < |logits| ==>
              (bestIds[i], bestProbs[i]) == PickRow(c, step, logits[i], PrefixOf(prefixIds, batchOffset[i]))
  {
    bestIds, bestProbs := [], [];
    var i := 0;
    while i < |logits|
      invariant i == |bestIds| == |bestProbs| <= |logits|
      invariant forall k :: 0 <= k < i ==>
                  (bestIds[k], bestProbs[k]) == PickRow(c, step, logits[k], PrefixOf(prefixIds, batchOffset[k]))
    {
      var (bestId, bestProb) := PickRow(c, step, logits[i], PrefixOf(prefixIds, batchOffset[i]));
      bestIds, bestProbs := bestIds + [bestId], bestProbs + [bestProb];
      i := i + 1;
    }
  }

  /** What the finishing loop does with row i. */
  ghost predicate RowFinished<S(!new)>(c: Config<S>, step: nat, batchOffset: seq<nat>, bestIds: seq<Token>,
                                       bestProbs: seq<real>, prefixIds: Option<seq<seq<Token>>>,
                                       before: seq<Hypothesis>, results: seq<Hypothesis>, nonFinished: seq<nat>,
                                       sampleFrom: seq<Token>, i: nat)
    requires i < |batchOffset| == |bestIds| == |bestProbs| == |sampleFrom| && batchOffset[i] < |before| == |results|
    requires prefixIds.Some? ==> |prefixIds.value| == |before|
  {
    var b := batchOffset[i];
    var prefix := PrefixOf(prefixIds, b);
    var r := Extend(c, step, prefix, before[b], bestIds[i], bestProbs[i]);
    if Finishes(c, step, prefix, bestIds[i]) then i !in nonFinished && results[b] == Finalize(c, r)
    else i in nonFinished && results[b] == r && sampleFrom[i] == bestIds[i]
  }

  /** Finishing row i leaves what was done with an earlier row. */
  lemma FinishedKept<S(!new)>(c: Config<S>, step: nat, batchOffset: seq<nat>, bestIds: seq<Token>, bestProbs: seq<real>,
                              prefixIds: Option<seq<seq<Token>>>, before: seq<Hypothesis>,
                              was: seq<Hypothesis>, wasOpen: seq<nat>, wasFrom: seq<Token>,
                              results: seq<Hypothesis>, nonFinished: seq<nat>, sampleFrom: seq<Token>, i: nat, k: nat)
    requires k < i < |batchOffset| == |bestIds| == |bestProbs| == |sampleFrom| == |wasFrom|
    requires StrictlyIncreasing(batchOffset) && Indexes(batchOffset, |before|) && |before| == |was| == |results|
    requires prefixIds.Some? ==> |prefixIds.value| == |before|
    requires results == was[batchOffset[i] := results[batchOffset[i]]] && sampleFrom == wasFrom[i := sampleFrom[i]]
    requires nonFinished == wasOpen || nonFinished == wasOpen + [i]
    requires RowFinished(c, step, batchOffset, bestIds, bestProbs, prefixIds, before, was, wasOpen, wasFrom, k)
    ensures RowFinished(c, step, batchOffset, bestIds, bestProbs, prefixIds, before, results, nonFinished, sampleFrom,
                        k)
  {
    hide Extend, Finishes, Finalize;
    assert batchOffset[k] < batchOffset[i];
  }

  /** The loop over the current rows that extends, finishes or keeps each sentence. */
  method FinishRows<S(!new)>(c: Config<S>, step: nat, batchOffset: seq<nat>, bestIds: seq<Token>, bestProbs: seq<real>,
                             prefixIds: Option<seq<seq<Token>>>, before: seq<Hypothesis>, inputs: seq<Token>)
    returns (results: seq<Hypothesis>, nonFinished: seq<nat>, sampleFrom: seq<Token>)
    requires |batchOffset| == |bestIds| == |bestProbs| == |inputs|
    requires StrictlyIncreasing(batchOffset) && Indexes(batchOffset, |before|)
    requires prefixIds.Some? ==> |prefixIds.value| == |before|
    ensures |results| == |before| && |sampleFrom| == |inputs|
    ensures forall b :: 0 <= b < |before| && b !in batchOffset ==> results[b] == before[b]
    ensures forall i :: 0 <= i < |batchOffset| ==>
              RowFinished(c, step, batchOffset, bestIds, bestProbs, prefixIds, before, results, nonFinished,
                          sampleFrom, i)
    ensures StrictlyIncreasing(nonFinished) && Indexes(nonFinished, |batchOffset|)
  {
    hide Extend, Finishes, Finalize;
    results, nonFinished, sampleFrom := before, [], inputs;
    var i := 0;
    while i < |batchOffset|
      invariant i <= |batchOffset| && |results| == |before| && |sampleFrom| == |inputs|
      invariant forall b :: 0 <= b < |before| && b !in batchOffset[..i] ==> results[b] == before[b]
      invariant forall k :: 0 <= k < i ==>
                  RowFinished(c, step, batchOffset, bestIds, bestProbs, prefixIds, before, results, nonFinished,
                              sampleFrom, k)
      invariant StrictlyIncreasing(nonFinished) && Indexes(nonFinished, i)
    {
      var b := batchOffset[i];
      var prefix := PrefixOf(prefixIds, b);
      assert forall k :: 0 <= k < i ==> batchOffset[k] != b;
      assert batchOffset[..i + 1] == batchOffset[..i] + [b];
      assert results[b] == before[b];
      ghost var was, wasOpen, wasFrom := results, nonFinished, sampleFrom;
      var r := Extend(c, step, prefix, results[b], bestIds[i], bestProbs[i]);
      if Finishes(c, step, prefix, bestIds[i]) {
        results := results[b := Finalize(c, r)];
      } else {
        results := results[b := r];
        nonFinished := nonFinished + [i];
        sampleFrom := sampleFrom[i := bestIds[i]];
      }
      forall k | 0 <= k < i
        ensures RowFinished(c, step, batchOffset, bestIds, bestProbs, prefixIds, before, results, nonFinished,
                            sampleFrom, k)
      {
        FinishedKept(c, step, batchOffset, bestIds, bestProbs, prefixIds, before, was, wasOpen, wasFrom,
                     results, nonFinished, sampleFrom, i, k);
      }
      i := i + 1;
    }
    assert batchOffset[..i] == batchOffset;
  }

  /** Between steps: the live rows are the unfinalised sentences, in input order, none past its own last
      step; continuing a row alone leads to the sentence's own result; the others have theirs. */
  ghost predicate OnCourse<S(!new)>(c: Config<S>, input: Input<S>, step: nat, a: Arrays<S>, results: seq<Hypothesis>)
    requires ValidConfig(c) && input.Matching()
  {
    && a.Shaped() && |results| == |input.startIds| && (c.processors == [] ==> a.aliveSeq.None?)
    && StrictlyIncreasing(a.batchOffset) && Indexes(a.batchOffset, |results|)
    && (forall i :: 0 <= i < |a.batchOffset| ==> RowOnCourse(c, input, step, a, results, i))
    && (forall b :: 0 <= b < |results| && b !in a.batchOffset ==> results[b] == Alone(c, input, b))
  }

  ghost predicate RowOnCourse<S(!new)>(c: Config<S>, input: Input<S>, step: nat, a: Arrays<S>,
                                       results: seq<Hypothesis>, i: nat)
    requires ValidConfig(c) && input.Matching() && a.Shaped() && |results| == |input.startIds|
    requires i < |a.batchOffset| && a.batchOffset[i] < |results|
  {
    var b := a.batchOffset[i];
    && step < OwnMaxStep(c, input.Prefix(b))
    && Run(c, input.Prefix(b), step, a.RowAt(i, results)) == Alone(c, input, b)
  }

  /** Gathering the surviving rows out of every array, unless all survive. */
  method Compact<S(!new)>(a: Arrays<S>, alive: seq<nat>) returns (r: Arrays<S>)
    requires a.Shaped() && Indexes(alive, |a.batchOffset|) && StrictlyIncreasing(alive)
    ensures r == a.Keep(alive)
  {
    if |alive| == |a.batchOffset| {
      AllIndices(alive, |alive|);
      GatherAll(a.batchOffset);
      GatherAll(a.sampleFrom);
      GatherAll(a.states);
      if a.aliveSeq.Some? { GatherAll(a.aliveSeq.value); }
      return a;
    }
    var batchOffset := IndexVector(a.batchOffset, alive);
    var aliveSeq := a.aliveSeq;
    if a.aliveSeq.Some? {
      var gathered := IndexVector(a.aliveSeq.value, alive);
      aliveSeq := Some(gathered);
    }
    var sampleFrom := IndexVector(a.sampleFrom, alive);
    var states := IndexVector(a.states, alive);
    r := Arrays(batchOffset, sampleFrom, states, aliveSeq);
  }

  /** Appending the step's tokens to the histories, if any processor reads them. */
  method AppendStep<S(!new)>(c: Config<S>, a: Arrays<S>,
                             bestIds: seq<Token>) returns (aliveSeq: Option<seq<seq<Token>>>)
    requires a.Shaped() && |bestIds| == |a.batchOffset|
    ensures aliveSeq.Some? ==> |aliveSeq.value| == |bestIds|
    ensures c.processors == [] && a.aliveSeq.None? ==> aliveSeq.None?
    ensures c.processors != [] ==> aliveSeq.Some?
    ensures c.processors != [] ==> forall i :: 0 <= i < |bestIds| ==> aliveSeq.value[i] == a.Hist(i) + [bestIds[i]]
  {
    aliveSeq := a.aliveSeq;
    if c.processors != [] {
      if a.aliveSeq.Some? {
        aliveSeq := Some(seq(|bestIds|, i requires 0 <= i < |bestIds| => a.aliveSeq.value[i] + [bestIds[i]]));
      } else {
        aliveSeq := Some(seq(|bestIds|, i requires 0 <= i < |bestIds| => [bestIds[i]]));
      }
    }
  }

  /** What the step's methods have established about the uncompacted arrays. */
  ghost predicate Stepped<S(!new)>(c: Config<S>, input: Input<S>, step: nat, a: Arrays<S>, before: seq<Hypothesis>,
                                   a': Arrays<S>, results: seq<Hypothesis>, nonFinished: seq<nat>)
    requires ValidConfig(c) && input.Matching() && a.Shaped() && Indexes(a.batchOffset, |before|)
    requires |before| == |input.startIds|
  {
    && a'.Shaped() && a'.batchOffset == a.batchOffset && |results| == |before|
    && (c.processors == [] ==> a'.aliveSeq.None?)
    && StrictlyIncreasing(nonFinished) && Indexes(nonFinished, |a.batchOffset|)
    && (forall b :: 0 <= b < |before| && b !in a.batchOffset ==> results[b] == before[b])
    && (forall i :: 0 <= i < |a.batchOffset| ==> RowStepped(c, input, step, a, before, a', results, nonFinished, i))
  }

  ghost predicate RowStepped<S(!new)>(c: Config<S>, input: Input<S>, step: nat, a: Arrays<S>, before: seq<Hypothesis>,
                                      a': Arrays<S>, results: seq<Hypothesis>, nonFinished: seq<nat>, i: nat)
    requires ValidConfig(c) && input.Matching() && a.Shaped() && Indexes(a.batchOffset, |before|)
    requires |results| == |before| == |input.startIds| && i < |a.batchOffset|
    requires a'.Shaped() && a'.batchOffset == a.batchOffset
  {
    var b := a.batchOffset[i];
    var next := NextRow(c, step, a.RowAt(i, before), input.Prefix(b));
    var finished := Finishes(c, step, input.Prefix(b), next.input);
    && (i in nonFinished <==> !finished)
    && results[b] == (if finished then Finalize(c, next.result) else next.result)
    && (!finished ==> a'.RowAt(i, results) == next)
  }

  /** A step and the compaction after it stay on course. */
  lemma StepStaysOnCourse<S(!new)>(c: Config<S>, input: Input<S>, step: nat, a: Arrays<S>, before: seq<Hypothesis>,
                                   a': Arrays<S>, results: seq<Hypothesis>, nonFinished: seq<nat>, r: Arrays<S>)
    requires ValidConfig(c) && input.Matching() && OnCourse(c, input, step, a, before)
    requires Stepped(c, input, step, a, before, a', results, nonFinished)
    requires r == a'.Keep(nonFinished)
    ensures OnCourse(c, input, step + 1, r, results)
  {
    var next := step + 1;
    forall k | 0 <= k < |nonFinished| ensures RowOnCourse(c, input, next, r, results, k) {
      SurvivorOnCourse(c, input, step, a, before, a', results, nonFinished, r, k);
    }
    forall b | 0 <= b < |results| && b !in r.batchOffset ensures results[b] == Alone(c, input, b) {
      if b in a.batchOffset {
        var i :| 0 <= i < |a.batchOffset| && a.batchOffset[i] == b;
        GatherHolds(a'.batchOffset, nonFinished, i);
        FinishedIsAlone(c, input, step, a, before, a', results, nonFinished, i);
      }
    }
  }

  lemma SurvivorOnCourse<S(!new)>(c: Config<S>, input: Input<S>, step: nat, a: Arrays<S>, before: seq<Hypothesis>,
                                  a': Arrays<S>, results: seq<Hypothesis>, nonFinished: seq<nat>, r: Arrays<S>, k: nat)
    requires ValidConfig(c) && input.Matching() && OnCourse(c, input, step, a, before)
    requires Stepped(c, input, step, a, before, a', results, nonFinished) && k < |nonFinished|
    requires r == a'.Keep(nonFinished)
    ensures RowOnCourse(c, input, step + 1, r, results, k)
  {
    var i := nonFinished[k];
    assert i in nonFinished;
    assert RowOnCourse(c, input, step, a, before, i);
    assert RowStepped(c, input, step, a, before, a', results, nonFinished, i);
    assert r.RowAt(k, results) == a'.RowAt(i, results);
  }

  lemma FinishedIsAlone<S(!new)>(c: Config<S>, input: Input<S>, step: nat, a: Arrays<S>, before: seq<Hypothesis>,
                                 a': Arrays<S>, results: seq<Hypothesis>, nonFinished: seq<nat>, i: nat)
    requires ValidConfig(c) && input.Matching() && OnCourse(c, input, step, a, before)
    requires Stepped(c, input, step, a, before, a', results, nonFinished) && i < |a.batchOffset|
    ensures i !in nonFinished ==> results[a.batchOffset[i]] == Alone(c, input, a.batchOffset[i])
  {
    assert RowOnCourse(c, input, step, a, before, i);
    assert RowStepped(c, input, step, a, before, a', results, nonFinished, i);
  }

  /** One pass of the decoding loop before the compaction. */
  method Step<S(!new)>(c: Config<S>, input: Input<S>, step: nat, a: Arrays<S>, before: seq<Hypothesis>)
    returns (a': Arrays<S>, results: seq<Hypothesis>, nonFinished: seq<nat>)
    requires ValidConfig(c) && input.Matching() && OnCourse(c, input, step, a, before)
    ensures Stepped(c, input, step, a, before, a', results, nonFinished)
  {
    var raw, states := DecodeRows(c, step, a);
    var logits := ProcessRows(c, step, a, raw, input.prefixIds);
    forall i | 0 <= i < |logits| ensures logits[i] != [] {
      SampledByRow(c, step, a.RowAt(i, before), input.Prefix(a.batchOffset[i]), logits[i]);
    }
    var bestIds, bestProbs := SampleRows(c, step, a.batchOffset, logits, input.prefixIds);
    var aliveSeq := AppendStep(c, a, bestIds);
    var sampleFrom;
    results, nonFinished, sampleFrom :=
      FinishRows(c, step, a.batchOffset, bestIds, bestProbs, input.prefixIds, before, a.sampleFrom);
    a' := Arrays(a.batchOffset, sampleFrom, states, aliveSeq);
    forall i | 0 <= i < |a.batchOffset|
      ensures RowStepped(c, input, step, a, before, a', results, nonFinished, i)
    {
      AssembleRow(c, input, step, a, before, a', results, nonFinished, i, logits[i], bestIds, bestProbs);
    }
  }

  /** The phases of a step combine to the step of each row. */
  lemma AssembleRow<S(!new)>(c: Config<S>, input: Input<S>, step: nat, a: Arrays<S>, before: seq<Hypothesis>,
                             a': Arrays<S>, results: seq<Hypothesis>, nonFinished: seq<nat>, i: nat,
                             logits: seq<real>, bestIds: seq<Token>, bestProbs: seq<real>)
    requires ValidConfig(c) && input.Matching() && a.Shaped() && Indexes(a.batchOffset, |before|)
    requires |results| == |before| == |input.startIds| && i < |a.batchOffset| == |bestIds| == |bestProbs|
    requires a'.Shaped() && a'.batchOffset == a.batchOffset
    requires logits == RowLogits(c, step, a.sampleFrom[i], a.states[i], a.Hist(i), input.Prefix(a.batchOffset[i]))
    requires logits != [] && (bestIds[i], bestProbs[i]) == PickRow(c, step, logits, input.Prefix(a.batchOffset[i]))
    requires a'.states[i] == c.next(c.startStep + step, a.sampleFrom[i], a.states[i])
    requires a'.Hist(i) == if c.processors == [] then [] else a.Hist(i) + [bestIds[i]]
    requires RowFinished(c, step, a.batchOffset, bestIds, bestProbs, input.prefixIds, before, results, nonFinished,
                         a'.sampleFrom, i)
    ensures RowStepped(c, input, step, a, before, a', results, nonFinished, i)
  {
    SampledByRow(c, step, a.RowAt(i, before), input.Prefix(a.batchOffset[i]), logits);
  }

  /** The loop body: a step, then the removal of the finished sentences. */
  method StepAndCompact<S(!new)>(c: Config<S>, input: Input<S>, step: nat, a: Arrays<S>, before: seq<Hypothesis>)
    returns (r: Arrays<S>, results: seq<Hypothesis>)
    requires ValidConfig(c) && input.Matching() && OnCourse(c, input, step, a, before)
    ensures OnCourse(c, input, step + 1, r, results)
  {
    var a', nonFinished;
    a', results, nonFinished := Step(c, input, step, a, before);
    StepStaysOnCourse(c, input, step, a, before, a', results, nonFinished, a'.Keep(nonFinished));
    r := Compact(a', nonFinished);
  }

  /** Batched greedy search returns, for every sentence of every batch, what that sentence yields alone. */
  method Search<S(!new)>(c: Config<S>, input: Input<S>) returns (results: seq<Hypothesis>)
    requires ValidConfig(c) && input.Matching()
    ensures |results| == |input.startIds|
    ensures forall b :: 0 <= b < |results| ==> results[b] == Alone(c, input, b)
  {
    results := seq(|input.startIds|, _ => Hypothesis([], 0.0));
    var a := Arrays(Iota(|input.startIds|), input.startIds, input.states, None);
    StartsOnCourse(c, input, a, results);
    var maxStep := GetMaxStep(c.maxLength, c.returnPrefix, input.prefixIds);
    results := Decode(c, input, maxStep, a, results);
  }

  /** The decoding loop. */
  method Decode<S(!new)>(c: Config<S>, input: Input<S>, maxStep: nat, start: Arrays<S>, before: seq<Hypothesis>)
    returns (results: seq<Hypothesis>)
    requires ValidConfig(c) && input.Matching() && OnCourse(c, input, 0, start, before)
    requires forall b :: 0 <= b < |input.startIds| ==> OwnMaxStep(c, input.Prefix(b)) <= maxStep
    ensures |results| == |input.startIds|
    ensures forall b :: 0 <= b < |results| ==> results[b] == Alone(c, input, b)
  {
    var a := start;
    results := before;
    var step := 0;
    while step < maxStep
      invariant step <= maxStep
      invariant OnCourse(c, input, step, a, results)
    {
      a, results := StepAndCompact(c, input, step, a, results);
      step := step + 1;
      if a.batchOffset == [] {
        break;
      }
    }
    AllAlone(c, input, step, a, results);
  }

  /** No sentence is left when the loop ends. */
  lemma AllAlone<S(!new)>(c: Config<S>, input: Input<S>, step: nat, a: Arrays<S>, results: seq<Hypothesis>)
    requires ValidConfig(c) && input.Matching() && OnCourse(c, input, step, a, results)
    requires a.batchOffset == [] || forall b :: 0 <= b < |input.startIds| ==> OwnMaxStep(c, input.Prefix(b)) <= step
    ensures |results| == |input.startIds|
    ensures forall b :: 0 <= b < |results| ==> results[b] == Alone(c, input, b)
  {
    if a.batchOffset != [] {
      LiveRow(c, input, step, a, results, 0);
    }
  }

  lemma StartsOnCourse<S(!new)>(c: Config<S>, input: Input<S>, a: Arrays<S>, results: seq<Hypothesis>)
    requires ValidConfig(c) && input.Matching()
    requires a == Arrays(Iota(|input.startIds|), input.startIds, input.states, None)
    requires |results| == |input.startIds| && forall b :: 0 <= b < |results| ==> results[b] == Hypothesis([], 0.0)
    ensures OnCourse(c, input, 0, a, results)
  {
    forall i | 0 <= i < |a.batchOffset| ensures RowOnCourse(c, input, 0, a, results, i) {
      RowStarts(c, input, a, results, i);
    }
    forall b | 0 <= b < |results| ensures b in a.batchOffset {
      assert a.batchOffset[b] == b;
    }
  }

  lemma RowStarts<S(!new)>(c: Config<S>, input: Input<S>, a: Arrays<S>, results: seq<Hypothesis>, i: nat)
    requires ValidConfig(c) && input.Matching() && i < |input.startIds|
    requires a == Arrays(Iota(|input.startIds|), input.startIds, input.states, None)
    requires |results| == |input.startIds| && results[i] == Hypothesis([], 0.0)
    ensures RowOnCourse(c, input, 0, a, results, i)
  {
    assert a.batchOffset[i] == i;
    assert a.RowAt(i, results) == Start(input.states[i], input.startIds[i]);
  }

  lemma LiveRow<S(!new)>(c: Config<S>, input: Input<S>, step: nat, a: Arrays<S>, results: seq<Hypothesis>, i: nat)
    requires ValidConfig(c) && input.Matching() && OnCourse(c, input, step, a, results) && i < |a.batchOffset|
    ensures step < OwnMaxStep(c, input.Prefix(a.batchOffset[i]))
  {
    assert RowOnCourse(c, input, step, a, results, i);
  }
}
