/** The arrays of batched beam search and a step's candidates (src/decoding.cc): decoding, the sampler on the
    reshaped scores, `unflatten_ids`, `update_sample_with_prefix`, `append_step_output`.

    A [batch, beam, ...] tensor is the row-major sequence of its rows, so splitting and merging the first two
    dimensions leaves it as it is. `CandidateAt` says that a position of the arrays holds the candidate its
    sentence has there on its own; `ChooseAndAppend` establishes it for every position. */
module BeamCandidates {
  import opened Options
  import opened RowMajor
  import opened Vectors
  import opened Processors
  import opened Steps
  import opened Beam

  // ----- Arrays -----

  /** The arrays between two steps; `width` rows per sentence. `scores` and `aliveSeq` are None until there
      are any. */
  datatype Arrays<S> = Arrays(batchOffset: seq<nat>, width: nat, ids: seq<Token>, scores: Option<seq<real>>,
                              states: seq<S>, aliveSeq: Option<seq<seq<Token>>>, topFinished: seq<bool>)
  {
    ghost predicate Shaped() {
      && width > 0
      && |ids| == |states| == |batchOffset| * width
      && |topFinished| == |batchOffset|
      && (scores.Some? ==> |scores.value| == |ids|)
      && (aliveSeq.Some? ==> |aliveSeq.value| == |ids|)
    }

    function RowAt(r: nat): Row<S>
      requires Shaped() && r < |ids|
    {
      Row(states[r], ids[r], if scores.Some? then scores.value[r] else 0.0,
          if aliveSeq.Some? then aliveSeq.value[r] else [])
    }

    ghost function RowsOf(i: nat): (rows: seq<Row<S>>)
      requires Shaped() && i < |batchOffset|
      ensures |rows| == width
      ensures forall k :: 0 <= k < width ==> Flat(i, k, width) < |ids| && rows[k] == RowAt(Flat(i, k, width))
    {
      assert forall k :: 0 <= k < width ==> Flat(i, k, width) < |ids| by {
        forall k | 0 <= k < width ensures Flat(i, k, width) < |ids| { FlatBound(i, k, width, |batchOffset|); }
      }
      seq(width, k requires 0 <= k < width && Flat(i, k, width) < |ids| => RowAt(Flat(i, k, width)))
    }

    /** Sentence i of the arrays. */
    ghost function SentenceAt(i: nat, results: seq<seq<Hypothesis>>): Sentence<S>
      requires Shaped() && i < |batchOffset| && batchOffset[i] < |results|
    {
      Sentence(RowsOf(i), topFinished[i], results[batchOffset[i]])
    }
  }

  predicate IsExpanded<S>(c: Config<S>, step: nat) {
    !c.expandAfterFirstStep || step > 0
  }

  function WidthAt<S>(c: Config<S>, step: nat): nat {
    if IsExpanded(c, step) then c.beamSize else 1
  }

  /** Arrays that a step can start from. */
  ghost predicate Ready<S(!new)>(c: Config<S>, input: Input<S>, step: nat, a: Arrays<S>) {
    && a.Shaped() && a.width == WidthAt(c, step)
    && input.Matching() && Indexes(a.batchOffset, |input.startIds|)
  }

  function PrefixAt<S(!new)>(input: Input<S>, a: Arrays<S>, i: nat): Option<seq<Token>>
    requires i < |a.batchOffset| && (input.prefixIds.Some? ==> a.batchOffset[i] < |input.prefixIds.value|)
  {
    input.Prefix(a.batchOffset[i])
  }

  // ----- Decoding and selection -----

  ghost predicate RowScored<S(!new)>(c: Config<S>, input: Input<S>, step: nat, a: Arrays<S>,
                                     scores: seq<seq<real>>, states: seq<S>, r: nat)
    requires Ready(c, input, step, a) && |scores| >= |states| && r < |states| <= |a.ids|
  {
    PositionOf(r, |a.batchOffset|, a.width);
    && scores[r] == RowScores(c, PrefixAt(input, a, RowOf(r, a.width)), step, a.RowAt(r))
    && states[r] == c.next(c.startStep + step, a.ids[r], a.states[r])
  }

  /** The decoder, the processors and the log-softmax, then the beam scores added to every row. */
  method ScoreRows<S(!new)>(c: Config<S>, input: Input<S>, step: nat, a: Arrays<S>)
    returns (scores: seq<seq<real>>, states: seq<S>)
    requires Ready(c, input, step, a)
    ensures |scores| == |states| == |a.ids|
    ensures forall r :: 0 <= r < |a.ids| ==> RowScored(c, input, step, a, scores, states, r)
  {
    scores, states := [], [];
    var r := 0;
    while r < |a.ids|
      invariant r == |scores| == |states| <= |a.ids|
      invariant forall q :: 0 <= q < r ==> RowScored(c, input, step, a, scores, states, q)
    {
      PositionOf(r, |a.batchOffset|, a.width);
      ghost var scored, stepped := scores, states;
      var prefix := PrefixAt(input, a, RowOf(r, a.width));
      var row := a.RowAt(r);
      var logProbs := c.logProbs(c.startStep + step, row.input, row.state, row.hist, prefix);
      if a.scores.Some? {
        logProbs := AddScore(logProbs, a.scores.value[r]);
      }
      assert logProbs == RowScores(c, prefix, step, row);
      scores := scores + [logProbs];
      states := states + [c.next(c.startStep + step, row.input, row.state)];
      forall q | 0 <= q < r ensures RowScored(c, input, step, a, scores, states, q) {
        assert RowScored(c, input, step, a, scored, stepped, q);
      }
      r := r + 1;
    }
  }

  /** One sentence of the reshape to [batch, beam * vocabulary]. */
  method FlattenSentence<S(!new)>(c: Config<S>, step: nat, prefix: Option<seq<Token>>, scores: seq<seq<real>>, i: nat,
                                  width: nat, ghost rows: seq<Row<S>>)
    returns (flat: seq<real>)
    requires |rows| == width
    requires forall k :: 0 <= k < width ==>
               Flat(i, k, width) < |scores| && scores[Flat(i, k, width)] == RowScores(c, prefix, step, rows[k])
    ensures flat == FlatScores(c, prefix, step, rows)
  {
    hide RowScores, Flat;
    flat := [];
    var k := 0;
    while k < width
      invariant k <= width && flat == FlatScores(c, prefix, step, rows[..k])
    {
      flat := flat + scores[Flat(i, k, width)];
      assert rows[..k + 1][..k] == rows[..k];
      k := k + 1;
    }
    assert rows[..k] == rows;
  }

  /** Position r holds what the sampler selects. */
  ghost predicate SelectedAt<S(!new)>(c: Config<S>, input: Input<S>, step: nat, a: Arrays<S>, ids: seq<nat>,
                                      scores: seq<real>, r: nat)
    requires ValidConfig(c) && Ready(c, input, step, a) && r < |ids| == |scores|
    requires |ids| <= |a.batchOffset| * c.NumCandidates()
  {
    PositionOf(r, |a.batchOffset|, c.NumCandidates());
    var i := RowOf(r, c.NumCandidates());
    var prefix := PrefixAt(input, a, i);
    var rows := a.RowsOf(i);
    && ids[r] == TopIds(c, prefix, step, rows)[ColumnOf(r, c.NumCandidates())]
    && scores[r] == FlatScores(c, prefix, step, rows)[ids[r]]
  }

  /** Selection for one sentence. */
  method SelectSentence<S(!new)>(c: Config<S>, input: Input<S>, step: nat, a: Arrays<S>, rowScores: seq<seq<real>>,
                                 ghost states: seq<S>, i: nat)
    returns (ids: seq<nat>, scores: seq<real>)
    requires ValidConfig(c) && Ready(c, input, step, a) && i < |a.batchOffset|
    requires |rowScores| == |states| == |a.ids|
    requires forall r :: 0 <= r < |a.ids| ==> RowScored(c, input, step, a, rowScores, states, r)
    ensures |ids| == |scores| == c.NumCandidates()
    ensures ids == TopIds(c, PrefixAt(input, a, i), step, a.RowsOf(i))
    ensures forall k :: 0 <= k < |ids| ==> ids[k] < |FlatScores(c, PrefixAt(input, a, i), step, a.RowsOf(i))|
    ensures forall k :: 0 <= k < |ids| ==>
              scores[k] == FlatScores(c, PrefixAt(input, a, i), step, a.RowsOf(i))[ids[k]]
  {
    hide FlatScores, RowScores, Flat, RowOf, ColumnOf;
    ghost var rows := a.RowsOf(i);
    assert forall k :: 0 <= k < |rows| ==> Flat(i, k, a.width) < |a.ids|;
    forall k | 0 <= k < a.width
      ensures rowScores[Flat(i, k, a.width)] == RowScores(c, PrefixAt(input, a, i), step, a.RowsOf(i)[k])
    {
      FlatPosition(i, k, a.width, |a.batchOffset|);
      assert RowScored(c, input, step, a, rowScores, states, Flat(i, k, a.width));
    }
    var flat := FlattenSentence(c, step, PrefixAt(input, a, i), rowScores, i, a.width, a.RowsOf(i));
    EnoughScores(c, PrefixAt(input, a, i), step, a.RowsOf(i));
    ids := c.top(flat, c.NumCandidates());
    assert IsTopK(flat, c.NumCandidates(), ids);
    scores := Gather(flat, ids);
  }

  /** The first i sentences have been laid out. */
  ghost predicate Ordered<S>(c: Config<S>, a: Arrays<S>, ids: seq<nat>, i: nat) {
    |ids| == i * c.NumCandidates() <= |a.batchOffset| * c.NumCandidates()
  }

  lemma SelectedKept<S(!new)>(c: Config<S>, input: Input<S>, step: nat, a: Arrays<S>,
                                                 ids: seq<nat>, scores: seq<real>, ids': seq<nat>, scores': seq<real>,
                                                 i: nat)
    requires ValidConfig(c) && Ready(c, input, step, a) && i < |a.batchOffset|
    requires Ordered(c, a, ids, i) && |scores| == |ids| && |ids'| == |scores'| == c.NumCandidates()
    requires forall r :: 0 <= r < |ids| ==> SelectedAt(c, input, step, a, ids, scores, r)
    requires ids' == TopIds(c, PrefixAt(input, a, i), step, a.RowsOf(i))
    requires forall k :: 0 <= k < |ids'| ==> ids'[k] < |FlatScores(c, PrefixAt(input, a, i), step, a.RowsOf(i))|
    requires forall k :: 0 <= k < |ids'| ==>
             scores'[k] == FlatScores(c, PrefixAt(input, a, i), step, a.RowsOf(i))[ids'[k]]
    ensures Ordered(c, a, ids + ids', i + 1)
    ensures forall r :: 0 <= r < |ids + ids'| ==> SelectedAt(c, input, step, a, ids + ids', scores + scores', r)
  {
    hide FlatScores, TopIds, IsTopK, RowOf, ColumnOf;
    var w := c.NumCandidates();
    assert (i + 1) * w == i * w + w;
    ProductMonotone(i + 1, |a.batchOffset|, w);
    forall r | 0 <= r < |ids + ids'| ensures SelectedAt(c, input, step, a, ids + ids', scores + scores', r) {
      if r < |ids| {
        assert SelectedAt(c, input, step, a, ids, scores, r);
      } else {
        assert r == Flat(i, r - |ids|, w);
        FlatPosition(i, r - |ids|, w, |a.batchOffset|);
      }
    }
  }

  /** The sampler: `num_candidates` flat ids and scores for each sentence. */
  method Select<S(!new)>(c: Config<S>, input: Input<S>, step: nat, a: Arrays<S>, rowScores: seq<seq<real>>,
                         ghost states: seq<S>)
    returns (ids: seq<nat>, scores: seq<real>)
    requires ValidConfig(c) && Ready(c, input, step, a)
    requires |rowScores| == |states| == |a.ids|
    requires forall r :: 0 <= r < |a.ids| ==> RowScored(c, input, step, a, rowScores, states, r)
    ensures |ids| == |scores| == |a.batchOffset| * c.NumCandidates()
    ensures forall r :: 0 <= r < |ids| ==> SelectedAt(c, input, step, a, ids, scores, r)
  {
    hide SelectedAt, RowScored;
    ids, scores := [], [];
    var i := 0;
    ProductMonotone(0, |a.batchOffset|, c.NumCandidates());
    while i < |a.batchOffset|
      invariant i <= |a.batchOffset| && Ordered(c, a, ids, i) && |scores| == |ids|
      invariant forall r :: 0 <= r < |ids| ==> SelectedAt(c, input, step, a, ids, scores, r)
    {
      var ids', scores' := SelectSentence(c, input, step, a, rowScores, states, i);
      SelectedKept(c, input, step, a, ids, scores, ids', scores', i);
      ids, scores := ids + ids', scores + scores';
      i := i + 1;
    }
  }

  // ----- Origins and forced prefixes -----

  /** `unflatten_ids`: position r keeps its token and the row it comes from. */
  method UnflattenIds(flatIds: seq<nat>, numCandidates: nat, beamSize: nat, vocabulary: nat, isExpanded: bool)
    returns (ids: seq<Token>, origins: seq<nat>)
    requires numCandidates > 0 && vocabulary > 0
    ensures |ids| == |origins| == |flatIds|
    ensures forall r :: 0 <= r < |flatIds| ==>
              && ids[r] == ColumnOf(flatIds[r], vocabulary)
              && origins[r] == (if isExpanded
                                then Flat(RowOf(r, numCandidates), RowOf(flatIds[r], vocabulary), beamSize)
                                else RowOf(r, numCandidates))
  {
    hide RowOf;
    ids, origins := [], [];
    var r := 0;
    while r < |flatIds|
      invariant r == |ids| == |origins| <= |flatIds|
      invariant forall q :: 0 <= q < r ==>
                  && ids[q] == ColumnOf(flatIds[q], vocabulary)
                  && origins[q] == (if isExpanded
                                    then Flat(RowOf(q, numCandidates), RowOf(flatIds[q], vocabulary), beamSize)
                                    else RowOf(q, numCandidates))
    {
      var batchId := RowOf(r, numCandidates);
      ids := ids + [ColumnOf(flatIds[r], vocabulary)];
      origins := origins + [if isExpanded then batchId * beamSize + RowOf(flatIds[r], vocabulary) else batchId];
      r := r + 1;
    }
  }

  /** The candidate rows of a step, one position per candidate of each sentence. */
  datatype Choices = Choices(ids: seq<Token>, scores: seq<real>, origins: seq<nat>) {
    ghost predicate Sized(n: nat) { |ids| == |scores| == |origins| == n }
  }

  /** Position r after the forced prefix, given the origin, token and score it had. */
  ghost predicate ForcedAt<S(!new)>(c: Config<S>, input: Input<S>, step: nat, a: Arrays<S>, local: seq<nat>,
                                    before: Choices, after: Choices, r: nat)
    requires ValidConfig(c) && Ready(c, input, step, a)
    requires before.Sized(|local|) && after.Sized(|local|) && r < |local| == |a.batchOffset| * c.NumCandidates()
  {
    PositionOf(r, |a.batchOffset|, c.NumCandidates());
    var i := RowOf(r, c.NumCandidates());
    var (origin, token, score) :=
      Force(c, PrefixAt(input, a, i), step, ColumnOf(r, c.NumCandidates()), local[r], before.ids[r], before.scores[r]);
    after.origins[r] == Flat(i, origin, a.width) && after.ids[r] == token && after.scores[r] == score
  }

  /** The origins refer to rows of the candidates' own sentences. */
  ghost predicate LocalOrigins<S>(c: Config<S>, a: Arrays<S>, local: seq<nat>, x: Choices)
    requires c.beamSize > 0
  {
    && |local| == |a.batchOffset| * c.NumCandidates() && x.Sized(|local|)
    && forall r :: 0 <= r < |local| ==> x.origins[r] == Flat(RowOf(r, c.NumCandidates()), local[r], a.width)
  }

  ghost predicate SameFrom(x: Choices, y: Choices, from: nat) {
    && |x.ids| == |x.scores| == |x.origins| == |y.ids| == |y.scores| == |y.origins|
    && forall r :: from <= r < |x.ids| ==>
         x.ids[r] == y.ids[r] && x.scores[r] == y.scores[r] && x.origins[r] == y.origins[r]
  }

  lemma UnforcedAt<S(!new)>(c: Config<S>, input: Input<S>, step: nat, a: Arrays<S>, local: seq<nat>, before: Choices,
                            after: Choices, i: nat, r: nat)
    requires ValidConfig(c) && Ready(c, input, step, a) && LocalOrigins(c, a, local, before) && after.Sized(|local|)
    requires i < |a.batchOffset| && Flat(i, 0, c.NumCandidates()) <= r < Flat(i + 1, 0, c.NumCandidates())
    requires step > PrefixLength(PrefixAt(input, a, i)) || PrefixAt(input, a, i).None?
    requires SameFrom(before, after, Flat(i, 0, c.NumCandidates())) && r < |local|
    ensures ForcedAt(c, input, step, a, local, before, after, r)
  {
    PositionInBlock(i, r, c.NumCandidates(), |a.batchOffset|);
  }

  lemma PositionInBlock(i: nat, r: nat, w: nat, n: nat)
    requires w > 0 && i < n && Flat(i, 0, w) <= r < Flat(i + 1, 0, w)
    ensures r < n * w && RowOf(r, w) == i && r == Flat(i, ColumnOf(r, w), w)
  {
    FlatPosition(i, r - i * w, w, n);
  }

  /** `update_sample_with_prefix` on the candidates of one sentence. */
  method ForceSentence<S(!new)>(c: Config<S>, input: Input<S>, step: nat, a: Arrays<S>, ghost local: seq<nat>,
                                ghost before: Choices, x: Choices, i: nat, prefix: seq<Token>)
    returns (y: Choices)
    requires ValidConfig(c) && Ready(c, input, step, a) && LocalOrigins(c, a, local, before)
    requires i < |a.batchOffset| && SameFrom(before, x, Flat(i, 0, c.NumCandidates()))
    requires PrefixAt(input, a, i) == Some(prefix) && step <= |prefix|
    requires forall r :: 0 <= r < Flat(i, 0, c.NumCandidates()) && r < |local| ==>
             ForcedAt(c, input, step, a, local, before, x, r)
    ensures SameFrom(before, y, Flat(i + 1, 0, c.NumCandidates()))
    ensures forall r :: 0 <= r < Flat(i + 1, 0, c.NumCandidates()) && r < |local| ==>
              ForcedAt(c, input, step, a, local, before, y, r)
  {
    hide Flat, RowOf, ColumnOf, ForcedAt, Force;
    y := x;
    var isExpanded := IsExpanded(c, step);
    var k := 0;
    FlatNext(i, 0, c.NumCandidates());
    while k < c.NumCandidates()
      invariant k <= c.NumCandidates() && SameFrom(before, y, Flat(i, k, c.NumCandidates()))
      invariant forall r :: 0 <= r < Flat(i, k, c.NumCandidates()) && r < |local| ==>
                  ForcedAt(c, input, step, a, local, before, y, r)
    {
      FlatPosition(i, k, c.NumCandidates(), |a.batchOffset|);
      FlatNext(i, k, c.NumCandidates());
      var flatIndex := Flat(i, k, c.NumCandidates());
      var id := y.ids[flatIndex];
      var newId: int, newScore: real := -1, 0.0;
      if step < |prefix| {
        newId := prefix[step];
        newScore := if k == 0 then 0.0 else PENALTY;
      } else if k > 0 && IsEos(id, c.endIds) {
        newId := 0;
        newScore := PENALTY;
      }
      ghost var was := y;
      if newId >= 0 {
        FirstRowOf(i, a.width, c.beamSize, isExpanded);
        y := Choices(y.ids[flatIndex := newId], y.scores[flatIndex := newScore],
                     y.origins[flatIndex := if isExpanded then i * c.beamSize else i]);
      }
      ForceOne(c, input, step, a, local, before, was, y, i, k, prefix, newId, newScore);
      k := k + 1;
    }
  }

  lemma FirstRowOf(i: nat, width: nat, beamSize: nat, isExpanded: bool)
    requires width == if isExpanded then beamSize else 1
    ensures Flat(i, 0, width) == if isExpanded then i * beamSize else i
  {
  }

  lemma FlatNext(i: nat, k: nat, w: nat)
    ensures Flat(i, k + 1, w) == Flat(i, k, w) + 1 && Flat(i, w, w) == Flat(i + 1, 0, w)
  {
  }

  lemma ForceOne<S(!new)>(c: Config<S>, input: Input<S>, step: nat, a: Arrays<S>, local: seq<nat>, before: Choices,
                          x: Choices, y: Choices, i: nat, k: nat, prefix: seq<Token>, newId: int, newScore: real)
    requires ValidConfig(c) && Ready(c, input, step, a) && LocalOrigins(c, a, local, before)
    requires i < |a.batchOffset| && k < c.NumCandidates() && x.Sized(|local|) && y.Sized(|local|)
    requires var f := Flat(i, k, c.NumCandidates());
      && f < |local| && SameFrom(before, x, f)
      && y == (if newId >= 0
               then Choices(x.ids[f := newId], x.scores[f := newScore], x.origins[f := Flat(i, 0, a.width)]) else x)
      && newId == (if step < |prefix| then prefix[step] else if k > 0 && IsEos(x.ids[f], c.endIds) then 0 else -1)
      && newScore == (if step < |prefix| then (if k == 0 then 0.0 else PENALTY)
                      else if k > 0 && IsEos(x.ids[f], c.endIds) then PENALTY else 0.0)
    requires PrefixAt(input, a, i) == Some(prefix) && step <= |prefix|
    requires forall r :: 0 <= r < Flat(i, k, c.NumCandidates()) && r < |local| ==>
             ForcedAt(c, input, step, a, local, before, x, r)
    ensures SameFrom(before, y, Flat(i, k, c.NumCandidates()) + 1)
    ensures forall r :: 0 <= r < Flat(i, k, c.NumCandidates()) + 1 && r < |local| ==>
              ForcedAt(c, input, step, a, local, before, y, r)
  {
    hide Flat, RowOf, ColumnOf;
    var f := Flat(i, k, c.NumCandidates());
    FlatPosition(i, k, c.NumCandidates(), |a.batchOffset|);
    forall r | 0 <= r < f + 1 && r < |local| ensures ForcedAt(c, input, step, a, local, before, y, r) {
      if r < f {
        assert ForcedAt(c, input, step, a, local, before, x, r);
      }
    }
  }

  /** `update_sample_with_prefix`. */
  method UpdateSampleWithPrefix<S(!new)>(c: Config<S>, input: Input<S>, step: nat, a: Arrays<S>, ghost local: seq<nat>,
                                         before: Choices)
    returns (y: Choices)
    requires ValidConfig(c) && Ready(c, input, step, a) && LocalOrigins(c, a, local, before)
    requires input.prefixIds.Some?
    ensures y.Sized(|local|)
    ensures forall r :: 0 <= r < |local| ==> ForcedAt(c, input, step, a, local, before, y, r)
  {
    hide Flat, RowOf, ColumnOf, ForcedAt;
    y := before;
    var i := 0;
    FlatRows(0, c.NumCandidates());
    while i < |a.batchOffset|
      invariant i <= |a.batchOffset| && SameFrom(before, y, Flat(i, 0, c.NumCandidates()))
      invariant forall r :: 0 <= r < Flat(i, 0, c.NumCandidates()) && r < |local| ==>
                  ForcedAt(c, input, step, a, local, before, y, r)
    {
      var prefix := input.prefixIds.value[a.batchOffset[i]];
      if step > |prefix| {
        forall r | Flat(i, 0, c.NumCandidates()) <= r < Flat(i + 1, 0, c.NumCandidates()) && r < |local|
          ensures ForcedAt(c, input, step, a, local, before, y, r)
        {
          UnforcedAt(c, input, step, a, local, before, y, i, r);
        }
        FlatRows(i, c.NumCandidates());
        SameFromLater(before, y, Flat(i, 0, c.NumCandidates()), Flat(i + 1, 0, c.NumCandidates()));
      } else {
        y := ForceSentence(c, input, step, a, local, before, y, i, prefix);
      }
      i := i + 1;
    }
    FlatRows(i, c.NumCandidates());
  }

  lemma SameFromLater(x: Choices, y: Choices, from: nat, later: nat)
    requires SameFrom(x, y, from) && from <= later
    ensures SameFrom(x, y, later)
  {
  }

  lemma FlatRows(i: nat, w: nat)
    ensures Flat(i, 0, w) == i * w && Flat(i + 1, 0, w) == Flat(i, 0, w) + w
  {
  }

  // ----- Candidates of all sentences -----

  /** `append_step_output`: gathered histories, each with its new token. */
  method AppendStepOutput(aliveSeq: Option<seq<seq<Token>>>, ids: seq<Token>,
                          origins: seq<nat>) returns (r: seq<seq<Token>>)
    requires |ids| == |origins| && (aliveSeq.Some? ==> Indexes(origins, |aliveSeq.value|))
    ensures |r| == |ids|
    ensures forall k :: 0 <= k < |r| ==> r[k] == (if aliveSeq.Some? then aliveSeq.value[origins[k]] else []) + [ids[k]]
  {
    if aliveSeq.Some? {
      var history := Gather(aliveSeq.value, origins);
      r := seq(|ids|, k requires 0 <= k < |ids| && |history| == |ids| => history[k] + [ids[k]]);
    } else {
      r := seq(|ids|, k requires 0 <= k < |ids| => [ids[k]]);
    }
  }

  /** Position r holds the candidate that its sentence has there on its own. */
  ghost predicate CandidateAt<S(!new)>(c: Config<S>, input: Input<S>, step: nat, a: Arrays<S>, x: Choices,
                                       alive: seq<seq<Token>>, r: nat)
    requires ValidConfig(c) && Ready(c, input, step, a)
    requires x.Sized(|alive|) && r < |alive| == |a.batchOffset| * c.NumCandidates()
  {
    PositionOf(r, |a.batchOffset|, c.NumCandidates());
    var i := RowOf(r, c.NumCandidates());
    var y := Candidates(c, PrefixAt(input, a, i), step, a.RowsOf(i))[ColumnOf(r, c.NumCandidates())];
    x.ids[r] == y.token && x.scores[r] == y.score && x.origins[r] == Flat(i, y.origin, a.width) && alive[r] == y.hist
  }

  /** The same without the history. */
  ghost predicate ChoiceAt<S(!new)>(c: Config<S>, input: Input<S>, step: nat, a: Arrays<S>, x: Choices, r: nat)
    requires ValidConfig(c) && Ready(c, input, step, a)
    requires x.Sized(|a.batchOffset| * c.NumCandidates()) && r < |x.ids|
  {
    PositionOf(r, |a.batchOffset|, c.NumCandidates());
    var i := RowOf(r, c.NumCandidates());
    var y := Candidates(c, PrefixAt(input, a, i), step, a.RowsOf(i))[ColumnOf(r, c.NumCandidates())];
    x.ids[r] == y.token && x.scores[r] == y.score && x.origins[r] == Flat(i, y.origin, a.width)
  }

  /** Where the candidates come from, before the forced prefix. */
  ghost function Locals(flatIds: seq<nat>, v: nat): (r: seq<nat>)
    requires v > 0
    ensures |r| == |flatIds| && forall k :: 0 <= k < |r| ==> r[k] == RowOf(flatIds[k], v)
  {
    seq(|flatIds|, k requires 0 <= k < |flatIds| => RowOf(flatIds[k], v))
  }

  lemma UnflattenedLocal<S(!new)>(c: Config<S>, input: Input<S>, step: nat, a: Arrays<S>, flatIds: seq<nat>,
                                  scores: seq<real>, x: Choices)
    requires ValidConfig(c) && Ready(c, input, step, a)
    requires |flatIds| == |scores| == |a.batchOffset| * c.NumCandidates() && x.Sized(|flatIds|)
    requires forall r :: 0 <= r < |flatIds| ==> SelectedAt(c, input, step, a, flatIds, scores, r)
    requires forall r :: 0 <= r < |flatIds| ==>
              x.origins[r] == (if IsExpanded(c, step)
                               then Flat(RowOf(r, c.NumCandidates()), RowOf(flatIds[r], c.vocabulary), c.beamSize)
                               else RowOf(r, c.NumCandidates()))
    ensures LocalOrigins(c, a, Locals(flatIds, c.vocabulary), x)
  {
    hide FlatScores, TopIds, Flat, RowOf, ColumnOf, Candidates;
    forall r | 0 <= r < |flatIds|
      ensures x.origins[r] == Flat(RowOf(r, c.NumCandidates()), RowOf(flatIds[r], c.vocabulary), a.width)
    {
      if !IsExpanded(c, step) {
        assert SelectedAt(c, input, step, a, flatIds, scores, r);
        PositionOf(r, |a.batchOffset|, c.NumCandidates());
        var i := RowOf(r, c.NumCandidates());
        CandidateForced(c, PrefixAt(input, a, i), step, a.RowsOf(i), ColumnOf(r, c.NumCandidates()));
        SingleRowOrigin(flatIds[r], c.vocabulary, i);
      }
    }
  }

  lemma SingleRowOrigin(id: nat, v: nat, i: nat)
    requires id < 1 * v
    ensures RowOf(id, v) == 0 && Flat(i, 0, 1) == i
  {
  }

  lemma ChoiceHolds<S(!new)>(c: Config<S>, input: Input<S>, step: nat, a: Arrays<S>, flatIds: seq<nat>,
                             scores: seq<real>,
                             x: Choices, y: Choices, r: nat)
    requires ValidConfig(c) && Ready(c, input, step, a)
    requires |flatIds| == |scores| == |a.batchOffset| * c.NumCandidates() && x.Sized(|flatIds|) && y.Sized(|flatIds|)
    requires r < |flatIds| && SelectedAt(c, input, step, a, flatIds, scores, r)
    requires x.ids[r] == ColumnOf(flatIds[r], c.vocabulary) && x.scores == scores
    requires ForcedAt(c, input, step, a, Locals(flatIds, c.vocabulary), x, y, r)
    ensures ChoiceAt(c, input, step, a, y, r)
  {
    hide FlatScores, TopIds, Flat, RowOf, ColumnOf, Candidates, Force;
    PositionOf(r, |a.batchOffset|, c.NumCandidates());
    var i := RowOf(r, c.NumCandidates());
    CandidateForced(c, PrefixAt(input, a, i), step, a.RowsOf(i), ColumnOf(r, c.NumCandidates()));
  }

  lemma NothingForced<S(!new)>(c: Config<S>, input: Input<S>, step: nat, a: Arrays<S>, local: seq<nat>, x: Choices,
                               r: nat)
    requires ValidConfig(c) && Ready(c, input, step, a) && LocalOrigins(c, a, local, x) && input.prefixIds.None?
    requires r < |local|
    ensures ForcedAt(c, input, step, a, local, x, x, r)
  {
    hide RowOf, ColumnOf, Flat;
    PositionOf(r, |a.batchOffset|, c.NumCandidates());
  }

  /** The candidates of every sentence: selection, `unflatten_ids`, `update_sample_with_prefix`. */
  method Choose<S(!new)>(c: Config<S>, input: Input<S>, step: nat, a: Arrays<S>, rowScores: seq<seq<real>>,
                         ghost states: seq<S>)
    returns (x: Choices)
    requires ValidConfig(c) && Ready(c, input, step, a)
    requires |rowScores| == |states| == |a.ids|
    requires forall r :: 0 <= r < |a.ids| ==> RowScored(c, input, step, a, rowScores, states, r)
    ensures x.Sized(|a.batchOffset| * c.NumCandidates())
    ensures forall r :: 0 <= r < |x.ids| ==> ChoiceAt(c, input, step, a, x, r)
  {
    hide SelectedAt, RowScored, ForcedAt, ChoiceAt, Flat, RowOf;
    var flatIds, scores := Select(c, input, step, a, rowScores, states);
    var ids, origins := UnflattenIds(flatIds, c.NumCandidates(), c.beamSize, c.vocabulary, IsExpanded(c, step));
    ghost var before := Choices(ids, scores, origins);
    ghost var local := Locals(flatIds, c.vocabulary);
    UnflattenedLocal(c, input, step, a, flatIds, scores, before);
    x := Choices(ids, scores, origins);
    if input.prefixIds.Some? {
      x := UpdateSampleWithPrefix(c, input, step, a, local, x);
    }
    forall r | 0 <= r < |x.ids| ensures ChoiceAt(c, input, step, a, x, r) {
      if input.prefixIds.None? {
        NothingForced(c, input, step, a, local, before, r);
      }
      ChoiceHolds(c, input, step, a, flatIds, scores, before, x, r);
    }
  }

  lemma OriginInRange<S(!new)>(c: Config<S>, input: Input<S>, step: nat, a: Arrays<S>, x: Choices, r: nat)
    requires ValidConfig(c) && Ready(c, input, step, a)
    requires x.Sized(|a.batchOffset| * c.NumCandidates()) && r < |x.ids| && ChoiceAt(c, input, step, a, x, r)
    ensures x.origins[r] < |a.ids|
    ensures var i := RowOf(r, c.NumCandidates());
            var k := ColumnOf(r, c.NumCandidates());
            && i < |a.batchOffset|
            && var y := Candidates(c, PrefixAt(input, a, i), step, a.RowsOf(i))[k];
            && y.origin < a.width && a.RowAt(x.origins[r]) == a.RowsOf(i)[y.origin]
            && y.hist == a.RowAt(x.origins[r]).hist + [x.ids[r]]
  {
    hide Candidates, RowOf, ColumnOf, Flat;
    PositionOf(r, |a.batchOffset|, c.NumCandidates());
    var i := RowOf(r, c.NumCandidates());
    CandidateOrigin(c, PrefixAt(input, a, i), step, a.RowsOf(i), ColumnOf(r, c.NumCandidates()));
  }

  /** The step up to `append_step_output`. */
  method ChooseAndAppend<S(!new)>(c: Config<S>, input: Input<S>, step: nat, a: Arrays<S>)
    returns (x: Choices, alive: seq<seq<Token>>, states: seq<S>)
    requires ValidConfig(c) && Ready(c, input, step, a)
    ensures x.Sized(|alive|) && |alive| == |a.batchOffset| * c.NumCandidates() && |states| == |a.states|
    ensures forall r :: 0 <= r < |alive| ==> CandidateAt(c, input, step, a, x, alive, r)
    ensures forall r :: 0 <= r < |states| ==> states[r] == c.next(c.startStep + step, a.ids[r], a.states[r])
  {
    hide ChoiceAt, CandidateAt, RowOf, ColumnOf, RowScores;
    var rowScores;
    rowScores, states := ScoreRows(c, input, step, a);
    x := Choose(c, input, step, a, rowScores, states);
    forall r | 0 <= r < |x.ids| ensures x.origins[r] < |a.ids| {
      OriginInRange(c, input, step, a, x, r);
    }
    alive := AppendStepOutput(a.aliveSeq, x.ids, x.origins);
    forall r | 0 <= r < |alive| ensures CandidateAt(c, input, step, a, x, alive, r) {
      AppendedAt(c, input, step, a, x, alive, r);
    }
    forall r | 0 <= r < |states| ensures states[r] == c.next(c.startStep + step, a.ids[r], a.states[r]) {
      assert RowScored(c, input, step, a, rowScores, states, r);
    }
  }

  lemma AppendedAt<S(!new)>(c: Config<S>, input: Input<S>, step: nat, a: Arrays<S>, x: Choices,
                            alive: seq<seq<Token>>, r: nat)
    requires ValidConfig(c) && Ready(c, input, step, a)
    requires x.Sized(|alive|) && |alive| == |a.batchOffset| * c.NumCandidates() && r < |alive|
    requires ChoiceAt(c, input, step, a, x, r) && x.origins[r] < |a.ids|
    requires alive[r] == (if a.aliveSeq.Some? then a.aliveSeq.value[x.origins[r]] else []) + [x.ids[r]]
    ensures CandidateAt(c, input, step, a, x, alive, r)
  {
    hide Candidates, RowOf, ColumnOf, Flat;
    OriginInRange(c, input, step, a, x, r);
  }
}
