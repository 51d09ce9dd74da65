/** What greedy decoding promises about a sentence: length, forced prefix, stopping, bans.

    `Greedy.Search` returns `Greedy.Run` for each sentence; these lemmas are about `Run` and the token
    history behind it. */
module GreedyProperties {
  import opened Options
  import opened Processors
  import opened Steps
  import opened Greedy

  /** The token of every step from here to the end of the run. */
  ghost function History<S(!new)>(c: Config<S>, prefix: Option<seq<Token>>, step: nat, row: Row<S>): seq<Token>
    requires ValidConfig(c) && step < OwnMaxStep(c, prefix)
    decreases OwnMaxStep(c, prefix) - step
  {
    var next := NextRow(c, step, row, prefix);
    if Finishes(c, step, prefix, next.input) then [next.input]
    else [next.input] + History(c, prefix, step + 1, next)
  }

  /** The tokens without the end ids, unless those are to be included. */
  ghost function WithoutEos<S>(c: Config<S>, tokens: seq<Token>): seq<Token> {
    if tokens == [] then []
    else (if IsEos(tokens[0], c.endIds) && !c.includeEos then [] else [tokens[0]]) + WithoutEos(c, tokens[1..])
  }

  // ----- Stopping -----

  /** `max_length` tokens, after the forced prefix if that is not returned. */
  function StepLimit<S>(c: Config<S>, prefix: Option<seq<Token>>): nat {
    if prefix.Some? && !c.returnPrefix then |prefix.value| + c.maxLength else c.maxLength
  }

  /** The tokens h of steps `step`, `step + 1`, ...: they follow the forced prefix, stay within the
      sentence's own last step, and an end id stops them exactly when it comes after the prefix. */
  ghost predicate Shape<S>(c: Config<S>, prefix: Option<seq<Token>>, step: nat, h: seq<Token>) {
    && 1 <= |h| <= StepLimit(c, prefix) - step
    && (forall k :: 0 <= k < |h| && step + k < PrefixLength(prefix) ==> h[k] == prefix.value[step + k])
    && (forall k :: 0 <= k < |h| - 1 && step + k >= PrefixLength(prefix) ==> h[k] !in c.endIds)
    && (step + |h| == StepLimit(c, prefix)
        || (h[|h| - 1] in c.endIds && step + |h| - 1 >= PrefixLength(prefix)))
  }

  lemma ShapeCons<S>(c: Config<S>, prefix: Option<seq<Token>>, step: nat, id: Token, rest: seq<Token>)
    requires Shape(c, prefix, step + 1, rest) && !Finishes(c, step, prefix, id)
    requires step < PrefixLength(prefix) ==> id == prefix.value[step]
    ensures Shape(c, prefix, step, [id] + rest)
  {
    var h := [id] + rest;
    forall k | 0 <= k < |h| && step + k < PrefixLength(prefix) ensures h[k] == prefix.value[step + k] {
      assert k > 0 ==> h[k] == rest[k - 1] && prefix.value[step + k] == prefix.value[step + 1 + (k - 1)];
    }
    forall k | 0 <= k < |h| - 1 && step + k >= PrefixLength(prefix) ensures !IsEos(h[k], c.endIds) {
      assert k > 0 ==> h[k] == rest[k - 1] && step + 1 + (k - 1) >= PrefixLength(prefix);
    }
    assert h[|h| - 1] == rest[|rest| - 1];
  }

  lemma NextForced<S(!new)>(c: Config<S>, step: nat, row: Row<S>, prefix: Option<seq<Token>>)
    requires ValidConfig(c)
    ensures step < PrefixLength(prefix) ==> NextRow(c, step, row, prefix).input == prefix.value[step]
  {
  }

  lemma {:induction false} HistoryShape<S(!new)>(c: Config<S>, prefix: Option<seq<Token>>, step: nat, row: Row<S>)
    requires ValidConfig(c) && step < OwnMaxStep(c, prefix)
    ensures Shape(c, prefix, step, History(c, prefix, step, row))
    decreases OwnMaxStep(c, prefix) - step
  {
    hide NextRow;
    var next := NextRow(c, step, row, prefix);
    NextForced(c, step, row, prefix);
    if !Finishes(c, step, prefix, next.input) {
      HistoryShape(c, prefix, step + 1, next);
      ShapeCons(c, prefix, step, next.input, History(c, prefix, step + 1, next));
    }
  }

  lemma {:induction false} WithoutEosLength<S>(c: Config<S>, tokens: seq<Token>)
    ensures |WithoutEos(c, tokens)| <= |tokens|
  {
    if tokens != [] { WithoutEosLength(c, tokens[1..]); }
  }

  lemma {:induction false} WithoutEosNone<S>(c: Config<S>, tokens: seq<Token>)
    requires forall k :: 0 <= k < |tokens| ==> !IsEos(tokens[k], c.endIds)
    ensures WithoutEos(c, tokens) == tokens
  {
    if tokens != [] { WithoutEosNone(c, tokens[1..]); }
  }

  lemma {:induction false} WithoutEosAppend<S>(c: Config<S>, a: seq<Token>, b: seq<Token>)
    ensures WithoutEos(c, a + b) == WithoutEos(c, a) + WithoutEos(c, b)
  {
    if a == [] {
      assert a + b == b;
    } else {
      assert (a + b)[1..] == a[1..] + b;
      WithoutEosAppend(c, a[1..], b);
    }
  }

  /** The part of the history that a hypothesis shows. */
  ghost function Shown<S>(c: Config<S>, prefix: Option<seq<Token>>, step: nat, h: seq<Token>): seq<Token> {
    if c.returnPrefix || step >= PrefixLength(prefix) then h
    else if PrefixLength(prefix) - step <= |h| then h[PrefixLength(prefix) - step..] else []
  }

  lemma ShownOne<S>(c: Config<S>, prefix: Option<seq<Token>>, step: nat, id: Token)
    ensures WithoutEos(c, Shown(c, prefix, step, [id]))
            == if (!IsEos(id, c.endIds) || c.includeEos) && (c.returnPrefix || step >= PrefixLength(prefix)) then [id]
               else []
  {
    assert WithoutEos(c, [id]) == if IsEos(id, c.endIds) && !c.includeEos then [] else [id];
    if !c.returnPrefix && step + 1 == PrefixLength(prefix) {
      assert [id][1..] == [];
    }
  }

  /** A forced token is not shown. */
  lemma ShownForced<S>(c: Config<S>, prefix: Option<seq<Token>>, step: nat, id: Token, rest: seq<Token>)
    requires !c.returnPrefix && step < PrefixLength(prefix)
    ensures Shown(c, prefix, step, [id] + rest) == Shown(c, prefix, step + 1, rest)
  {
    var d := PrefixLength(prefix) - step;
    var h := [id] + rest;
    if d == 1 {
      assert h[1..] == rest;
    } else if d <= |h| {
      assert h[d..] == rest[d - 1..];
    }
  }

  lemma ShownCons<S>(c: Config<S>, prefix: Option<seq<Token>>, step: nat, id: Token, rest: seq<Token>)
    ensures WithoutEos(c, Shown(c, prefix, step, [id] + rest))
            == WithoutEos(c, Shown(c, prefix, step, [id])) + WithoutEos(c, Shown(c, prefix, step + 1, rest))
  {
    hide Shown, PrefixLength;
    if c.returnPrefix || step >= PrefixLength(prefix) {
      ShownAll(c, prefix, step, id, rest);
      WithoutEosAppend(c, [id], rest);
    } else {
      ShownForced(c, prefix, step, id, rest);
      ShownOne(c, prefix, step, id);
    }
  }

  lemma ShownAll<S>(c: Config<S>, prefix: Option<seq<Token>>, step: nat, id: Token, rest: seq<Token>)
    requires c.returnPrefix || step >= PrefixLength(prefix)
    ensures Shown(c, prefix, step, [id] + rest) == [id] + rest
    ensures Shown(c, prefix, step, [id]) == [id] && Shown(c, prefix, step + 1, rest) == rest
  {
  }

  /** The last step of a run, and a step before it. */
  lemma RunUnrolled<S(!new)>(c: Config<S>, prefix: Option<seq<Token>>, step: nat, row: Row<S>)
    requires ValidConfig(c) && step < OwnMaxStep(c, prefix)
    ensures var next := NextRow(c, step, row, prefix);
            if Finishes(c, step, prefix, next.input) then
              && Run(c, prefix, step, row).tokens == next.result.tokens
              && History(c, prefix, step, row) == [next.input]
            else
              && step + 1 < OwnMaxStep(c, prefix)
              && Run(c, prefix, step, row) == Run(c, prefix, step + 1, next)
              && History(c, prefix, step, row) == [next.input] + History(c, prefix, step + 1, next)
  {
    hide NextRow, IsEos;
  }

  lemma {:induction false} RunShows<S(!new)>(c: Config<S>, prefix: Option<seq<Token>>, step: nat, row: Row<S>)
    requires ValidConfig(c) && step < OwnMaxStep(c, prefix)
    ensures Run(c, prefix, step, row).tokens
            == row.result.tokens + WithoutEos(c, Shown(c, prefix, step, History(c, prefix, step, row)))
    decreases OwnMaxStep(c, prefix) - step
  {
    hide NextRow, WithoutEos, Shown, Shape, Finishes, Run, History, OwnMaxStep;
    var next := NextRow(c, step, row, prefix);
    NextTokens(c, step, row, prefix);
    RunUnrolled(c, prefix, step, row);
    if !Finishes(c, step, prefix, next.input) {
      RunShows(c, prefix, step + 1, next);
      ShownCons(c, prefix, step, next.input, History(c, prefix, step + 1, next));
    }
  }

  lemma NextTokens<S(!new)>(c: Config<S>, step: nat, row: Row<S>, prefix: Option<seq<Token>>)
    requires ValidConfig(c)
    ensures var next := NextRow(c, step, row, prefix);
            next.result.tokens == row.result.tokens + WithoutEos(c, Shown(c, prefix, step, [next.input]))
  {
    hide WithoutEos, Shown, RowLogits;
    ShownOne(c, prefix, step, NextRow(c, step, row, prefix).input);
  }

  /** The whole hypothesis: the history, or its part after the forced prefix, without end ids unless
      they are included. It has at most `max_length` tokens. */
  lemma HypothesisTokens<S(!new)>(c: Config<S>, prefix: Option<seq<Token>>, state: S, startId: Token)
    requires ValidConfig(c)
    ensures var h := History(c, prefix, 0, Start(state, startId));
            var tokens := Run(c, prefix, 0, Start(state, startId)).tokens;
            && (c.returnPrefix ==> tokens == WithoutEos(c, h))
            && (!c.returnPrefix ==> |h| > PrefixLength(prefix) && tokens == WithoutEos(c, h[PrefixLength(prefix)..]))
            && |tokens| <= c.maxLength
  {
    var row := Start(state, startId);
    var h := History(c, prefix, 0, row);
    HistoryShape(c, prefix, 0, row);
    RunShows(c, prefix, 0, row);
    WithoutEosLength(c, Shown(c, prefix, 0, h));
  }

  /** A forced prefix is reproduced, up to the maximum length. */
  lemma PrefixReproduced<S(!new)>(c: Config<S>, prefix: seq<Token>, state: S, startId: Token)
    requires ValidConfig(c) && c.returnPrefix
    ensures var n := if |prefix| < c.maxLength then |prefix| else c.maxLength;
            WithoutEos(c, prefix[..n]) <= Run(c, Some(prefix), 0, Start(state, startId)).tokens
    ensures (forall t :: t in prefix ==> !IsEos(t, c.endIds)) && |prefix| <= c.maxLength ==>
              prefix <= Run(c, Some(prefix), 0, Start(state, startId)).tokens
  {
    hide Run, History, NextRow;
    var n := if |prefix| < c.maxLength then |prefix| else c.maxLength;
    var row := Start(state, startId);
    var h := History(c, Some(prefix), 0, row);
    HistoryShape(c, Some(prefix), 0, row);
    HypothesisTokens(c, Some(prefix), state, startId);
    PrefixFollowed(c, prefix, h, n);
    assert h == h[..n] + h[n..];
    WithoutEosAppend(c, h[..n], h[n..]);
    if (forall t :: t in prefix ==> !IsEos(t, c.endIds)) && |prefix| <= c.maxLength {
      assert prefix[..n] == prefix;
      WithoutEosNone(c, prefix);
    }
  }

  lemma PrefixFollowed<S>(c: Config<S>, prefix: seq<Token>, h: seq<Token>, n: nat)
    requires Shape(c, Some(prefix), 0, h) && c.returnPrefix && n <= |prefix| && n <= c.maxLength
    ensures n <= |h| && h[..n] == prefix[..n]
  {
    forall k | 0 <= k < n && k < |h| ensures h[k] == prefix[k] {
      assert 0 + k < PrefixLength(Some(prefix));
    }
  }

  // ----- Logits -----

  /** The logits that the minimum length leaves: exactly the end ids are at the disabled value, exactly as long as
      the hypothesis (which may not show the prefix) is too short. */
  ghost predicate EndsDisabled<S>(c: Config<S>, prefix: Option<seq<Token>>, step: nat, raw: seq<real>,
                                  masked: seq<real>) {
    var hidden := if prefix.Some? && !c.returnPrefix then |prefix.value| else 0;
    |masked| == |raw| && forall t :: 0 <= t < |raw| ==>
      masked[t] == if t in c.endIds && step < c.minLength + hidden then c.lowest else raw[t]
  }

  ghost predicate Stages(processors: seq<Processor>, step: nat, hist: seq<Token>, prefix: Option<seq<Token>>,
                         stages: seq<seq<real>>) {
    && |stages| == |processors| + 1
    && forall k :: 0 <= k < |processors| ==> stages[k + 1] == processors[k](step, stages[k], hist, prefix)
  }

  lemma {:induction false} ProcessStages(processors: seq<Processor>, step: nat, xs: seq<real>, hist: seq<Token>,
                                         prefix: Option<seq<Token>>)
    returns (stages: seq<seq<real>>)
    ensures Stages(processors, step, hist, prefix, stages) && stages[0] == xs
    ensures Process(processors, step, xs, hist, prefix) == stages[|processors|]
  {
    if processors == [] {
      stages := [xs];
    } else {
      var m := |processors| - 1;
      var before := ProcessStages(processors[..m], step, xs, hist, prefix);
      stages := before + [processors[m](step, before[m], hist, prefix)];
    }
  }

  /** The logits of a row are the decoder's own with the end ids disabled, sent through the processors in order. */
  lemma LogitsStages<S(!new)>(c: Config<S>, step: nat, tok: Token, st: S, hist: seq<Token>,
                              prefix: Option<seq<Token>>)
    returns (stages: seq<seq<real>>)
    requires ValidConfig(c)
    ensures Stages(c.processors, step, hist, prefix, stages)
    ensures EndsDisabled(c, prefix, step, c.logits(c.startStep + step, tok, st), stages[0])
    ensures RowLogits(c, step, tok, st, hist, prefix) == stages[|c.processors|]
  {
    hide Stages, Process;
    var raw := c.logits(c.startStep + step, tok, st);
    var masked := if BelowMinLength(c, step, prefix) then Disable(raw, c.endIds, c.lowest) else raw;
    stages := ProcessStages(c.processors, step, masked, hist, prefix);
    StagesLength(c.processors, step, hist, prefix, stages);
  }

  lemma StagesLength(processors: seq<Processor>, step: nat, hist: seq<Token>, prefix: Option<seq<Token>>,
                     stages: seq<seq<real>>)
    requires Stages(processors, step, hist, prefix, stages)
    ensures |stages| == |processors| + 1
  {
  }

  /** Without processors: the decoder's own logits from `min_length` on (after a prefix that is not shown), and
      before that the same with exactly the end ids disabled. */
  lemma MinLengthExact<S(!new)>(c: Config<S>, step: nat, tok: Token, st: S, hist: seq<Token>,
                                prefix: Option<seq<Token>>)
    requires ValidConfig(c) && c.processors == []
    ensures var raw := c.logits(c.startStep + step, tok, st);
            var logits := RowLogits(c, step, tok, st, hist, prefix);
            var hidden := if prefix.Some? && !c.returnPrefix then |prefix.value| else 0;
            && (step >= c.minLength + hidden ==> logits == raw)
            && (step < c.minLength + hidden ==>
                  |logits| == |raw|
                  && forall t :: 0 <= t < |raw| ==> logits[t] == if t in c.endIds then c.lowest else raw[t])
  {
    var stages := LogitsStages(c, step, tok, st, hist, prefix);
  }

  // ----- What is sampled -----

  /** h are the forced tokens as far as the prefix reaches, and then what the sampler picks from the scores of each
      step, when the decoder is fed these tokens: the log-softmax of the logits if scores are returned, else the
      logits. */
  ghost predicate FollowsSampler<S(!new)>(c: Config<S>, prefix: Option<seq<Token>>, step: nat, state: S, input: Token,
                                          hist: seq<Token>, h: seq<Token>)
    requires ValidConfig(c)
    decreases |h|
  {
    h != [] ==>
      var logits := RowLogits(c, step, input, state, hist, prefix);
      && h[0] == (if prefix.Some? && step < |prefix.value| then prefix.value[step]
                  else c.pick(if c.returnScores then c.logSoftMax(logits) else logits))
      && FollowsSampler(c, prefix, step + 1, c.next(c.startStep + step, input, state), h[0],
                        if c.processors == [] then [] else hist + [h[0]], h[1..])
  }

  lemma StepSampled<S(!new)>(c: Config<S>, step: nat, row: Row<S>, prefix: Option<seq<Token>>)
    requires ValidConfig(c)
    ensures var next := NextRow(c, step, row, prefix);
            var logits := RowLogits(c, step, row.input, row.state, row.hist, prefix);
            && next.input == (if prefix.Some? && step < |prefix.value| then prefix.value[step]
                              else c.pick(if c.returnScores then c.logSoftMax(logits) else logits))
            && next.state == c.next(c.startStep + step, row.input, row.state)
            && next.hist == if c.processors == [] then [] else row.hist + [next.input]
  {
    hide RowLogits;
    SampledByRow(c, step, row, prefix, RowLogits(c, step, row.input, row.state, row.hist, prefix));
  }

  /** A run takes exactly what the sampler picks. */
  lemma {:induction false} HistorySampled<S(!new)>(c: Config<S>, prefix: Option<seq<Token>>, step: nat, row: Row<S>)
    requires ValidConfig(c) && step < OwnMaxStep(c, prefix)
    ensures FollowsSampler(c, prefix, step, row.state, row.input, row.hist, History(c, prefix, step, row))
    decreases OwnMaxStep(c, prefix) - step
  {
    hide NextRow, Finishes, History, OwnMaxStep, RowLogits, FollowsSampler, Run;
    var next := NextRow(c, step, row, prefix);
    RunUnrolled(c, prefix, step, row);
    if !Finishes(c, step, prefix, next.input) {
      HistorySampled(c, prefix, step + 1, next);
      SampledCons(c, prefix, step, row, History(c, prefix, step + 1, next));
    } else {
      NothingSampled(c, prefix, step + 1, next);
      SampledCons(c, prefix, step, row, []);
      assert [next.input] + [] == [next.input];
    }
  }

  lemma NothingSampled<S(!new)>(c: Config<S>, prefix: Option<seq<Token>>, step: nat, row: Row<S>)
    requires ValidConfig(c)
    ensures FollowsSampler(c, prefix, step, row.state, row.input, row.hist, [])
  {
  }

  lemma SampledCons<S(!new)>(c: Config<S>, prefix: Option<seq<Token>>, step: nat, row: Row<S>, rest: seq<Token>)
    requires ValidConfig(c)
    requires var next := NextRow(c, step, row, prefix);
             FollowsSampler(c, prefix, step + 1, next.state, next.input, next.hist, rest)
    ensures FollowsSampler(c, prefix, step, row.state, row.input, row.hist,
                           [NextRow(c, step, row, prefix).input] + rest)
  {
    hide NextRow, RowLogits;
    StepSampled(c, step, row, prefix);
    assert ([NextRow(c, step, row, prefix).input] + rest)[1..] == rest;
  }

  /** No other tokens do so and stop where a run stops. */
  lemma {:induction false} SampledIsHistory<S(!new)>(c: Config<S>, prefix: Option<seq<Token>>, step: nat, row: Row<S>,
                                                     h: seq<Token>)
    requires ValidConfig(c) && step < OwnMaxStep(c, prefix) && Shape(c, prefix, step, h)
    requires FollowsSampler(c, prefix, step, row.state, row.input, row.hist, h)
    ensures h == History(c, prefix, step, row)
    decreases OwnMaxStep(c, prefix) - step
  {
    hide NextRow, RowLogits, Shape, Finishes, History, OwnMaxStep, Run, FollowsSampler;
    var next := NextRow(c, step, row, prefix);
    RunUnrolled(c, prefix, step, row);
    ShapeHead(c, prefix, step, h);
    SampledHead(c, prefix, step, row, h);
    if |h| > 1 {
      SampledIsHistory(c, prefix, step + 1, next, h[1..]);
      assert h == [h[0]] + h[1..];
    } else {
      assert h == [h[0]];
    }
  }

  lemma SampledHead<S(!new)>(c: Config<S>, prefix: Option<seq<Token>>, step: nat, row: Row<S>, h: seq<Token>)
    requires ValidConfig(c) && h != [] && FollowsSampler(c, prefix, step, row.state, row.input, row.hist, h)
    ensures var next := NextRow(c, step, row, prefix);
            h[0] == next.input && FollowsSampler(c, prefix, step + 1, next.state, next.input, next.hist, h[1..])
  {
    hide NextRow, RowLogits;
    StepSampled(c, step, row, prefix);
  }

  lemma ShapeHead<S>(c: Config<S>, prefix: Option<seq<Token>>, step: nat, h: seq<Token>)
    requires Shape(c, prefix, step, h)
    ensures h != [] && (|h| == 1 <==> Finishes(c, step, prefix, h[0]))
    ensures |h| > 1 ==> Shape(c, prefix, step + 1, h[1..])
  {
    if |h| > 1 {
      var rest := h[1..];
      forall k | 0 <= k < |rest| && step + 1 + k < PrefixLength(prefix)
        ensures rest[k] == prefix.value[step + 1 + k]
      {
        assert rest[k] == h[k + 1];
      }
      forall k | 0 <= k < |rest| - 1 && step + 1 + k >= PrefixLength(prefix) ensures rest[k] !in c.endIds {
        assert rest[k] == h[k + 1];
      }
    }
  }

  ghost predicate BestPick<S>(c: Config<S>) {
    && (forall xs :: xs != [] ==> IsBest(xs, c.pick(xs)))
    && (forall xs :: OrderKept(xs, c.logSoftMax(xs)))
  }

  ghost predicate IsBest(xs: seq<real>, id: Token) {
    id < |xs| && forall t :: 0 <= t < |xs| ==> xs[t] <= xs[id]
  }

  /** Log-softmax subtracts one number from all of a row. */
  ghost predicate OrderKept(xs: seq<real>, ys: seq<real>) {
    |xs| == |ys| && forall s, t :: 0 <= s < |xs| && 0 <= t < |xs| && xs[s] < xs[t] ==> ys[s] < ys[t]
  }

  /** With the best-score sampler each free token has the greatest logit of its row. */
  ghost predicate FollowsBest<S(!new)>(c: Config<S>, prefix: Option<seq<Token>>, step: nat, state: S, input: Token,
                                       hist: seq<Token>, h: seq<Token>)
    decreases |h|
  {
    h != [] ==>
      && (step >= PrefixLength(prefix) ==> IsBest(RowLogits(c, step, input, state, hist, prefix), h[0]))
      && FollowsBest(c, prefix, step + 1, c.next(c.startStep + step, input, state), h[0],
                     if c.processors == [] then [] else hist + [h[0]], h[1..])
  }

  lemma {:induction false} SampledIsBest<S(!new)>(c: Config<S>, prefix: Option<seq<Token>>, step: nat, row: Row<S>,
                                                  h: seq<Token>)
    requires ValidConfig(c) && BestPick(c)
    requires FollowsSampler(c, prefix, step, row.state, row.input, row.hist, h)
    ensures FollowsBest(c, prefix, step, row.state, row.input, row.hist, h)
    decreases |h|
  {
    hide RowLogits;
    if h != [] {
      var logits := RowLogits(c, step, row.input, row.state, row.hist, prefix);
      RowLength(c, step, row, prefix);
      assert OrderKept(logits, c.logSoftMax(logits));
      assert IsBest(logits, c.pick(logits)) && IsBest(c.logSoftMax(logits), c.pick(c.logSoftMax(logits)));
      SampledIsBest(c, prefix, step + 1,
                    Row(c.next(c.startStep + step, row.input, row.state), h[0],
                        if c.processors == [] then [] else row.hist + [h[0]], row.result), h[1..]);
    }
  }

  // ----- Scores -----

  /** The score of given tokens when the model is fed those tokens: forced ones count nothing, each other one
      its (log-softmax) score. */
  ghost function TeacherForced<S>(c: Config<S>, prefix: Option<seq<Token>>, step: nat, state: S, input: Token,
                                  hist: seq<Token>, tokens: seq<Token>): real
    decreases |tokens|
  {
    if tokens == [] then 0.0
    else
      var scores := RowScores(c, RowLogits(c, step, input, state, hist, prefix));
      (if step < PrefixLength(prefix) || tokens[0] >= |scores| then 0.0 else scores[tokens[0]])
      + TeacherForced(c, prefix, step + 1, c.next(c.startStep + step, input, state), tokens[0],
                      if c.processors == [] then [] else hist + [tokens[0]], tokens[1..])
  }

  lemma StepScored<S(!new)>(c: Config<S>, step: nat, row: Row<S>, prefix: Option<seq<Token>>)
    requires ValidConfig(c) && c.returnScores
    ensures var next := NextRow(c, step, row, prefix);
            && next.state == c.next(c.startStep + step, row.input, row.state)
            && next.hist == (if c.processors == [] then [] else row.hist + [next.input])
            && var scores := RowScores(c, RowLogits(c, step, row.input, row.state, row.hist, prefix));
            next.result.score == row.result.score
              + if step < PrefixLength(prefix) || next.input >= |scores| then 0.0 else scores[next.input]
  {
    hide RowLogits;
    var logits := RowLogits(c, step, row.input, row.state, row.hist, prefix);
    SampledByRow(c, step, row, prefix, logits);
  }

  lemma FinalScore<S(!new)>(c: Config<S>, prefix: Option<seq<Token>>, step: nat, row: Row<S>)
    requires ValidConfig(c) && step < OwnMaxStep(c, prefix) && c.returnScores
    ensures var next := NextRow(c, step, row, prefix);
            Finishes(c, step, prefix, next.input) ==>
              Run(c, prefix, step, row).score == c.normalize(next.result.score, |Run(c, prefix, step, row).tokens|)
  {
    hide NextRow, Finishes;
  }

  /** The score of a run is the normalised teacher-forced score of the tokens it chose. */
  lemma {:induction false} RunScore<S(!new)>(c: Config<S>, prefix: Option<seq<Token>>, step: nat, row: Row<S>)
    requires ValidConfig(c) && step < OwnMaxStep(c, prefix) && c.returnScores
    ensures var r := Run(c, prefix, step, row);
            r.score == c.normalize(row.result.score + TeacherForced(c, prefix, step, row.state, row.input, row.hist,
                                                                    History(c, prefix, step, row)), |r.tokens|)
    decreases OwnMaxStep(c, prefix) - step
  {
    hide NextRow, Finishes, Run, History, OwnMaxStep, RowLogits, RowScores;
    var next := NextRow(c, step, row, prefix);
    var h := History(c, prefix, step, row);
    StepScored(c, step, row, prefix);
    RunUnrolled(c, prefix, step, row);
    FinalScore(c, prefix, step, row);
    assert h[0] == next.input;
    if !Finishes(c, step, prefix, next.input) {
      RunScore(c, prefix, step + 1, next);
      assert h[1..] == History(c, prefix, step + 1, next);
    } else {
      assert h[1..] == [];
    }
  }

  /** Without scores to return the score stays what it was. */
  lemma {:induction false} NoScore<S(!new)>(c: Config<S>, prefix: Option<seq<Token>>, step: nat, row: Row<S>)
    requires ValidConfig(c) && step < OwnMaxStep(c, prefix) && !c.returnScores
    ensures Run(c, prefix, step, row).score == row.result.score
    decreases OwnMaxStep(c, prefix) - step
  {
    hide RowLogits;
    var next := NextRow(c, step, row, prefix);
    if !Finishes(c, step, prefix, next.input) {
      NoScore(c, prefix, step + 1, next);
    }
  }

  // ----- Batch mates with a prefix -----

  ghost predicate EmptyAsAbsent(p: Processor) {
    forall step, xs, hist :: p(step, xs, hist, Some([])) == p(step, xs, hist, None)
  }

  lemma {:induction false} ProcessEmptyAsAbsent(processors: seq<Processor>, step: nat, xs: seq<real>, hist: seq<Token>)
    requires forall k :: 0 <= k < |processors| ==> EmptyAsAbsent(processors[k])
    ensures Process(processors, step, xs, hist, Some([])) == Process(processors, step, xs, hist, None)
  {
    if processors != [] {
      var m := |processors| - 1;
      ProcessEmptyAsAbsent(processors[..m], step, xs, hist);
      assert EmptyAsAbsent(processors[m]);
    }
  }

  lemma EmptyPrefixLogits<S(!new)>(c: Config<S>, step: nat, row: Row<S>)
    requires forall k :: 0 <= k < |c.processors| ==> EmptyAsAbsent(c.processors[k])
    ensures RowLogits(c, step, row.input, row.state, row.hist, Some([]))
            == RowLogits(c, step, row.input, row.state, row.hist, None)
  {
    var raw := c.logits(c.startStep + step, row.input, row.state);
    var masked := if BelowMinLength(c, step, None) then Disable(raw, c.endIds, c.lowest) else raw;
    ProcessEmptyAsAbsent(c.processors, step, masked, row.hist);
  }

  lemma EmptyPrefixStep<S(!new)>(c: Config<S>, step: nat, row: Row<S>)
    requires ValidConfig(c) && forall k :: 0 <= k < |c.processors| ==> EmptyAsAbsent(c.processors[k])
    ensures NextRow(c, step, row, Some([])) == NextRow(c, step, row, None)
  {
    hide RowLogits, RowScores;
    EmptyPrefixLogits(c, step, row);
  }

  /** A sentence without a forced prefix decodes the same whether or not its batch mates have one. */
  lemma {:induction false} EmptyPrefixAsNone<S(!new)>(c: Config<S>, step: nat, row: Row<S>)
    requires ValidConfig(c) && step < c.maxLength
    requires forall k :: 0 <= k < |c.processors| ==> EmptyAsAbsent(c.processors[k])
    ensures Run(c, Some([]), step, row) == Run(c, None, step, row)
    decreases c.maxLength - step
  {
    hide NextRow, Finalize;
    EmptyPrefixStep(c, step, row);
    var next := NextRow(c, step, row, None);
    if !Finishes(c, step, None, next.input) {
      EmptyPrefixAsNone(c, step + 1, next);
    }
  }

  // ----- Bans over whole runs -----

  /** Every sampled token of the run, from the end of the forced prefix on, was enabled: its processed logit is
      not the disabled value. */
  ghost predicate EnabledRun<S(!new)>(c: Config<S>, prefix: Option<seq<Token>>, step: nat, row: Row<S>)
    requires ValidConfig(c) && step < OwnMaxStep(c, prefix)
    decreases OwnMaxStep(c, prefix) - step
  {
    var next := NextRow(c, step, row, prefix);
    && (step >= PrefixLength(prefix) ==>
          EnabledToken(c, RowLogits(c, step, row.input, row.state, row.hist, prefix), next.input))
    && (Finishes(c, step, prefix, next.input) || EnabledRun(c, prefix, step + 1, next))
  }

  ghost predicate EnabledToken<S>(c: Config<S>, logits: seq<real>, t: Token) {
    t < |logits| && logits[t] != c.lowest
  }

  /** Some token is above the disabled value at every step from the end of the forced prefix on. */
  ghost predicate ChoiceLeft<S(!new)>(c: Config<S>, prefix: Option<seq<Token>>, step: nat, row: Row<S>)
    requires ValidConfig(c) && step < OwnMaxStep(c, prefix)
    decreases OwnMaxStep(c, prefix) - step
  {
    var logits := RowLogits(c, step, row.input, row.state, row.hist, prefix);
    var next := NextRow(c, step, row, prefix);
    && (step >= PrefixLength(prefix) ==> exists t :: 0 <= t < |logits| && logits[t] > c.lowest)
    && (Finishes(c, step, prefix, next.input) || ChoiceLeft(c, prefix, step + 1, next))
  }

  lemma BestPickStep<S(!new)>(c: Config<S>, prefix: Option<seq<Token>>, step: nat, row: Row<S>, t: nat)
    requires ValidConfig(c) && BestPick(c) && step >= PrefixLength(prefix)
    requires var logits := RowLogits(c, step, row.input, row.state, row.hist, prefix);
             t < |logits| && logits[t] > c.lowest
    ensures EnabledToken(c, RowLogits(c, step, row.input, row.state, row.hist, prefix),
                         NextRow(c, step, row, prefix).input)
  {
    hide RowLogits;
    var logits := RowLogits(c, step, row.input, row.state, row.hist, prefix);
    SampledByRow(c, step, row, prefix, logits);
    var scores := RowScores(c, logits);
    assert IsBest(scores, c.pick(scores)) && OrderKept(logits, c.logSoftMax(logits));
    assert scores[t] <= scores[c.pick(scores)];
  }

  /** The best-score sampler never picks a disabled token while a choice is left, also after a forced prefix. */
  lemma {:induction false} BestPickEnabled<S(!new)>(c: Config<S>, prefix: Option<seq<Token>>, step: nat, row: Row<S>)
    requires ValidConfig(c) && step < OwnMaxStep(c, prefix) && BestPick(c)
    requires ChoiceLeft(c, prefix, step, row)
    ensures EnabledRun(c, prefix, step, row)
    decreases OwnMaxStep(c, prefix) - step
  {
    hide NextRow, RowLogits, EnabledToken;
    var logits := RowLogits(c, step, row.input, row.state, row.hist, prefix);
    if step >= PrefixLength(prefix) {
      var t :| 0 <= t < |logits| && logits[t] > c.lowest;
      BestPickStep(c, prefix, step, row, t);
    }
    var next := NextRow(c, step, row, prefix);
    if !Finishes(c, step, prefix, next.input) {
      BestPickEnabled(c, prefix, step + 1, next);
    }
  }

  /** Processed logits put every banned token at the disabled value. */
  ghost predicate Enforces<S(!new)>(c: Config<S>, banned: (seq<Token>, Token) -> bool) {
    forall step: nat, tok: Token, st: S, hist: seq<Token>, prefix: Option<seq<Token>>, t: Token ::
      banned(hist, t) && 0 <= t < |RowLogits(c, step, tok, st, hist, prefix)| ==>
        RowLogits(c, step, tok, st, hist, prefix)[t] == c.lowest
  }

  ghost predicate ProcessorBans(p: Processor, lowest: real, banned: (seq<Token>, Token) -> bool) {
    forall step: nat, xs: seq<real>, hist: seq<Token>, prefix: Option<seq<Token>>, t: Token ::
      banned(hist, t) && t < |p(step, xs, hist, prefix)| ==> p(step, xs, hist, prefix)[t] == lowest
  }

  ghost predicate KeepsDisabled(p: Processor, lowest: real) {
    forall step: nat, xs: seq<real>, hist: seq<Token>, prefix: Option<seq<Token>>, t: Token ::
      t < |xs| && t < |p(step, xs, hist, prefix)| && xs[t] == lowest ==> p(step, xs, hist, prefix)[t] == lowest
  }

  /** A banning processor is enforced if no later processor re-enables tokens. */
  lemma ProcessorEnforced<S(!new)>(c: Config<S>, i: nat, banned: (seq<Token>, Token) -> bool)
    requires ValidConfig(c) && i < |c.processors| && ProcessorBans(c.processors[i], c.lowest, banned)
    requires forall k :: i < k < |c.processors| ==> KeepsDisabled(c.processors[k], c.lowest)
    ensures Enforces(c, banned)
  {
    forall step: nat, tok: Token, st: S, hist: seq<Token>, prefix: Option<seq<Token>>, t: Token |
      banned(hist, t) && 0 <= t < |RowLogits(c, step, tok, st, hist, prefix)|
      ensures RowLogits(c, step, tok, st, hist, prefix)[t] == c.lowest
    {
      var raw := c.logits(c.startStep + step, tok, st);
      var masked := if BelowMinLength(c, step, prefix) then Disable(raw, c.endIds, c.lowest) else raw;
      ProcessLength(c.processors, step, masked, hist, prefix);
      ProcessBans(c, c.processors, i, step, masked, hist, prefix, banned, t);
    }
  }

  lemma {:induction false} ProcessBans<S(!new)>(c: Config<S>, processors: seq<Processor>, i: nat, step: nat,
                                                xs: seq<real>, hist: seq<Token>, prefix: Option<seq<Token>>,
                                                banned: (seq<Token>, Token) -> bool, t: Token)
    requires i < |processors| && ProcessorBans(processors[i], c.lowest, banned) && banned(hist, t)
    requires forall k :: 0 <= k < |processors| ==> KeepsLength(processors[k])
    requires forall k :: i < k < |processors| ==> KeepsDisabled(processors[k], c.lowest)
    requires t < |xs|
    ensures |Process(processors, step, xs, hist, prefix)| == |xs|
    ensures Process(processors, step, xs, hist, prefix)[t] == c.lowest
  {
    var m := |processors| - 1;
    ProcessLength(processors, step, xs, hist, prefix);
    ProcessLength(processors[..m], step, xs, hist, prefix);
    if i < m {
      ProcessBans(c, processors[..m], i, step, xs, hist, prefix, banned, t);
      assert KeepsDisabled(processors[m], c.lowest);
    }
  }

  /** A property of histories that survives every unbanned token. */
  ghost predicate Guards(good: seq<Token> -> bool, banned: (seq<Token>, Token) -> bool) {
    forall hist: seq<Token>, t: Token :: good(hist) && !banned(hist, t) ==> good(hist + [t])
  }

  lemma NextHist<S(!new)>(c: Config<S>, prefix: Option<seq<Token>>, step: nat, row: Row<S>)
    requires ValidConfig(c) && c.processors != []
    ensures NextRow(c, step, row, prefix).hist == row.hist + [NextRow(c, step, row, prefix).input]
  {
  }

  /** Over a whole unforced run of enabled tokens, what the bans guard is kept. */
  lemma {:induction false} RunStaysGood<S(!new)>(c: Config<S>, prefix: Option<seq<Token>>, step: nat, row: Row<S>,
                                                 good: seq<Token> -> bool, banned: (seq<Token>, Token) -> bool)
    requires ValidConfig(c) && step < OwnMaxStep(c, prefix) && c.processors != []
    requires Enforces(c, banned) && Guards(good, banned) && good(row.hist)
    requires EnabledRun(c, prefix, step, row) && step >= PrefixLength(prefix)
    ensures good(row.hist + History(c, prefix, step, row))
    decreases OwnMaxStep(c, prefix) - step
  {
    hide NextRow, RowLogits, Finalize, IsEos;
    var next := NextRow(c, step, row, prefix);
    NextHist(c, prefix, step, row);
    assert EnabledToken(c, RowLogits(c, step, row.input, row.state, row.hist, prefix), next.input);
    assert good(next.hist);
    if !Finishes(c, step, prefix, next.input) {
      RunStaysGood(c, prefix, step + 1, next, good, banned);
      assert next.hist + History(c, prefix, step + 1, next) == row.hist + History(c, prefix, step, row);
    }
  }

  ghost function RepeatBan(n: nat): (seq<Token>, Token) -> bool { (hist: seq<Token>,
                           t: Token) => Recreates(hist, n, t) }
  ghost function RepeatFree(n: nat): seq<Token> -> bool { (hist: seq<Token>) => NoRepeat(hist, n) }

  /** With `NoRepeatNgram` enforced, an unforced greedy output never repeats an n-gram. */
  lemma OutputNeverRepeats<S(!new)>(c: Config<S>, prefix: Option<seq<Token>>, state: S, startId: Token, n: nat)
    requires ValidConfig(c) && c.processors != [] && PrefixLength(prefix) == 0 && n >= 1
    requires Enforces(c, RepeatBan(n)) && EnabledRun(c, prefix, 0, Start(state, startId))
    ensures NoRepeat(Run(c, prefix, 0, Start(state, startId)).tokens, n)
  {
    hide Run, History, EnabledRun, Enforces, Recreates, NoRepeat, Shape, WithoutEos, IsEos;
    forall hist: seq<Token>, t: Token | RepeatFree(n)(hist) && !RepeatBan(n)(hist, t)
      ensures RepeatFree(n)(hist + [t])
    {
      NoRepeatAppend(hist, n, t);
    }
    var row := Start(state, startId);
    NoRepeatEmpty(n);
    RunStaysGood(c, prefix, 0, row, RepeatFree(n), RepeatBan(n));
    var h := History(c, prefix, 0, row);
    assert row.hist + h == h;
    UnforcedOutput(c, prefix, state, startId);
    NoRepeatPrefix(h, |h| - 1, n);
  }

  lemma NoRepeatEmpty(n: nat)
    requires n >= 1
    ensures NoRepeat([], n)
  {
  }

  lemma NoRepeatPrefix(h: seq<Token>, m: nat, n: nat)
    requires m <= |h| && NoRepeat(h, n)
    ensures NoRepeat(h[..m], n)
  {
    forall p, q | 0 <= p < q && q + n <= m ensures Window(h[..m], p, n) != Window(h[..m], q, n) {
      assert Window(h[..m], p, n) == Window(h, p, n) && Window(h[..m], q, n) == Window(h, q, n);
    }
  }

  ghost function SequenceBan(sequence: seq<Token>): (seq<Token>, Token) -> bool {
    (hist: seq<Token>, t: Token) => Completes(hist, sequence, t)
  }
  ghost function FreeOf(sequence: seq<Token>): seq<Token> -> bool { (hist: seq<Token>) => !Contains(hist, sequence) }

  /** With `SuppressSequences` enforced, an unforced greedy output never contains a banned sequence. */
  lemma OutputNeverContains<S(!new)>(c: Config<S>, prefix: Option<seq<Token>>, state: S, startId: Token,
                                     sequence: seq<Token>)
    requires ValidConfig(c) && c.processors != [] && PrefixLength(prefix) == 0 && sequence != []
    requires Enforces(c, SequenceBan(sequence)) && EnabledRun(c, prefix, 0, Start(state, startId))
    ensures !Contains(Run(c, prefix, 0, Start(state, startId)).tokens, sequence)
  {
    hide Run, History, EnabledRun, Enforces, Contains, Completes, Shape, WithoutEos, IsEos;
    forall hist: seq<Token>, t: Token | FreeOf(sequence)(hist) && !SequenceBan(sequence)(hist, t)
      ensures FreeOf(sequence)(hist + [t])
    {
      ContainsAppend(hist, sequence, t);
    }
    var row := Start(state, startId);
    ContainsEmpty(sequence);
    RunStaysGood(c, prefix, 0, row, FreeOf(sequence), SequenceBan(sequence));
    var h := History(c, prefix, 0, row);
    assert row.hist + h == h;
    UnforcedOutput(c, prefix, state, startId);
    if Contains(h[..|h| - 1], sequence) {
      ContainsExtends(h, |h| - 1, sequence);
    }
  }

  lemma ContainsEmpty(sequence: seq<Token>)
    requires sequence != []
    ensures !Contains([], sequence)
  {
  }

  lemma ContainsExtends(h: seq<Token>, m: nat, sequence: seq<Token>)
    requires m <= |h| && Contains(h[..m], sequence)
    ensures Contains(h, sequence)
  {
    var p :| MatchAt(h[..m], p, sequence);
    assert h[p..p + |sequence|] == h[..m][p..p + |sequence|];
    assert MatchAt(h, p, sequence);
  }

  /** Without a forced prefix the hypothesis is the history, apart from a dropped final end id. */
  lemma UnforcedOutput<S(!new)>(c: Config<S>, prefix: Option<seq<Token>>, state: S, startId: Token)
    requires ValidConfig(c) && PrefixLength(prefix) == 0
    ensures History(c, prefix, 0, Start(state, startId)) != []
    ensures var h := History(c, prefix, 0, Start(state, startId));
            var tokens := Run(c, prefix, 0, Start(state, startId)).tokens;
            tokens == if IsEos(h[|h| - 1], c.endIds) && !c.includeEos then h[..|h| - 1] else h
  {
    hide Run, History, NextRow, WithoutEos;
    var row := Start(state, startId);
    var h := History(c, prefix, 0, row);
    HistoryShape(c, prefix, 0, row);
    HypothesisTokens(c, prefix, state, startId);
    assert h[0..] == h;
    FinalEosDropped(c, h);
  }

  lemma FinalEosDropped<S>(c: Config<S>, h: seq<Token>)
    requires h != [] && forall k :: 0 <= k < |h| - 1 ==> !IsEos(h[k], c.endIds)
    ensures WithoutEos(c, h) == if IsEos(h[|h| - 1], c.endIds) && !c.includeEos then h[..|h| - 1] else h
  {
    var m := |h| - 1;
    WithoutEosNone(c, h[..m]);
    WithoutEosAppend(c, h[..m], [h[m]]);
    assert h == h[..m] + [h[m]];
  }

  // ----- The processors themselves -----

  /** A processor that bans row by row. */
  ghost predicate IsBanningProcessor(p: Processor, lowest: real, banned: (seq<Token>, Token) -> bool) {
    forall step: nat, xs: seq<real>, hist: seq<Token>, prefix: Option<seq<Token>> ::
      RowBanned(xs, p(step, xs, hist, prefix), lowest, (t: Token) => banned(hist, t))
  }

  /** Such a processor bans, keeps the row's length and re-enables nothing. */
  lemma BanningProcessor(p: Processor, lowest: real, banned: (seq<Token>, Token) -> bool)
    requires IsBanningProcessor(p, lowest, banned)
    ensures ProcessorBans(p, lowest, banned) && KeepsLength(p) && KeepsDisabled(p, lowest)
  {
    forall step: nat, xs: seq<real>, hist: seq<Token>, prefix: Option<seq<Token>>
      ensures |p(step, xs, hist, prefix)| == |xs|
      ensures forall t: Token :: 0 <= t < |xs| ==>
                p(step, xs, hist, prefix)[t] == if banned(hist, t) then lowest else xs[t]
    {
      assert RowBanned(xs, p(step, xs, hist, prefix), lowest, (t: Token) => banned(hist, t));
    }
  }

  /** `NoRepeatNgram` on a batch is that processor on every row, with the n-gram ban. */
  lemma NoRepeatNgramIsRowWise(original: seq<real>, lowest: real, disabled: set<nat>, banned: seq<set<Token>>,
                               sequences: seq<seq<Token>>, n: nat, v: nat, b: nat)
    requires Bans(disabled, {}, banned, v) && NgramBans(banned, sequences, n) && n >= 1
    requires forall b', k :: 0 <= b' < |sequences| && 0 <= k < |sequences[b']| ==> sequences[b'][k] < v
    requires b < |sequences| && (b + 1) * v <= |original|
    ensures RowBanned(FlatRow(original, b, v), FlatRow(Fill(original, disabled, lowest), b, v), lowest,
                      (t: Token) => RepeatBan(n)(sequences[b], t))
  {
    hide FlatRow, Bans, Fill, Recreates;
    forall b', t | 0 <= b' < |banned| && t in banned[b'] ensures t < v {
      RecreatedBelow(sequences[b'], n, t, v);
    }
    FillIsRowWise(original, lowest, disabled, banned, v, b);
    assert forall t: Token :: t in banned[b] <==> RepeatBan(n)(sequences[b], t);
    SameBans(FlatRow(original, b, v), FlatRow(Fill(original, disabled, lowest), b, v), lowest,
             (t: Token) => t in banned[b], (t: Token) => RepeatBan(n)(sequences[b], t));
  }

  lemma SameBans(xs: seq<real>, ys: seq<real>, lowest: real, f: Token -> bool, g: Token -> bool)
    requires RowBanned(xs, ys, lowest, f) && forall t: Token :: f(t) == g(t)
    ensures RowBanned(xs, ys, lowest, g)
  {
  }

  lemma RecreatedBelow(row: seq<Token>, n: nat, t: Token, v: nat)
    requires n >= 1 && Recreates(row, n, t) && forall k :: 0 <= k < |row| ==> row[k] < v
    ensures t < v
  {
    RecreatedInRow(row, n);
  }

  /** Greedy search with the best-score sampler and `NoRepeatNgram` anywhere in its processors: no n-gram
      is ever repeated, as long as every step leaves a choice and later processors re-enable nothing. */
  lemma NoRepeatNgramOutput<S(!new)>(c: Config<S>, i: nat, n: nat, state: S, startId: Token)
    requires ValidConfig(c) && BestPick(c) && n >= 1 && i < |c.processors|
    requires IsBanningProcessor(c.processors[i], c.lowest, RepeatBan(n))
    requires forall k :: i < k < |c.processors| ==> KeepsDisabled(c.processors[k], c.lowest)
    requires ChoiceLeft(c, None, 0, Start(state, startId))
    ensures NoRepeat(Run(c, None, 0, Start(state, startId)).tokens, n)
  {
    hide Run, ChoiceLeft, EnabledRun, NoRepeat, Enforces, ProcessorBans;
    BanningProcessor(c.processors[i], c.lowest, RepeatBan(n));
    ProcessorEnforced(c, i, RepeatBan(n));
    BestPickEnabled(c, None, 0, Start(state, startId));
    OutputNeverRepeats(c, None, state, startId, n);
  }

  ghost function AnySequenceBan(all: seq<seq<Token>>): (seq<Token>, Token) -> bool {
    (hist: seq<Token>, t: Token) => CompletesNonempty(hist, all, t)
  }

  /** The same for `SuppressSequences`. */
  lemma SuppressSequencesIsRowWise(original: seq<real>, lowest: real, disabled: set<nat>, banned: seq<set<Token>>,
                                   sequences: seq<seq<Token>>, all: seq<seq<Token>>, v: nat, b: nat)
    requires Bans(disabled, {}, banned, v) && SequenceBans(banned, sequences, all)
    requires forall s, k :: s in all && 0 <= k < |s| ==> s[k] < v
    requires b < |sequences| && (b + 1) * v <= |original|
    ensures RowBanned(FlatRow(original, b, v), FlatRow(Fill(original, disabled, lowest), b, v), lowest,
                      (t: Token) => AnySequenceBan(all)(sequences[b], t))
  {
    hide FlatRow, Bans, Fill, Completes;
    forall b', t | 0 <= b' < |banned| && t in banned[b'] ensures t < v {
      var s :| s in all && s != [] && Completes(sequences[b'], s, t);
      CompletesTail(sequences[b'], s);
    }
    FillIsRowWise(original, lowest, disabled, banned, v, b);
    assert forall t: Token :: t in banned[b] <==> AnySequenceBan(all)(sequences[b], t);
    SameBans(FlatRow(original, b, v), FlatRow(Fill(original, disabled, lowest), b, v), lowest,
             (t: Token) => t in banned[b], (t: Token) => AnySequenceBan(all)(sequences[b], t));
  }

  lemma AnyBansEach<S(!new)>(c: Config<S>, all: seq<seq<Token>>, sequence: seq<Token>)
    requires Enforces(c, AnySequenceBan(all)) && sequence in all && sequence != []
    ensures Enforces(c, SequenceBan(sequence))
  {
    hide RowLogits, Completes;
    forall step: nat, tok: Token, st: S, hist: seq<Token>, prefix: Option<seq<Token>>, t: Token |
      SequenceBan(sequence)(hist, t) && 0 <= t < |RowLogits(c, step, tok, st, hist, prefix)|
      ensures RowLogits(c, step, tok, st, hist, prefix)[t] == c.lowest
    {
      assert AnySequenceBan(all)(hist, t);
    }
  }

  /** With `SuppressSequences` among the processors, no banned sequence is ever contained in the output. */
  lemma SuppressSequencesOutput<S(!new)>(c: Config<S>, i: nat, all: seq<seq<Token>>, sequence: seq<Token>, state: S,
                                         startId: Token)
    requires ValidConfig(c) && BestPick(c) && i < |c.processors| && sequence in all && sequence != []
    requires IsBanningProcessor(c.processors[i], c.lowest, AnySequenceBan(all))
    requires forall k :: i < k < |c.processors| ==> KeepsDisabled(c.processors[k], c.lowest)
    requires ChoiceLeft(c, None, 0, Start(state, startId))
    ensures !Contains(Run(c, None, 0, Start(state, startId)).tokens, sequence)
  {
    hide Run, ChoiceLeft, EnabledRun, Contains, Enforces, ProcessorBans;
    BanningProcessor(c.processors[i], c.lowest, AnySequenceBan(all));
    ProcessorEnforced(c, i, AnySequenceBan(all));
    AnyBansEach(c, all, sequence);
    BestPickEnabled(c, None, 0, Start(state, startId));
    OutputNeverContains(c, None, state, startId, sequence);
  }

  // ----- Minimum length -----

  /** While `apply_min_length` holds and no processor re-enables tokens, end ids stay disabled. */
  lemma EarlyEndDisabled<S(!new)>(c: Config<S>, step: nat, row: Row<S>, prefix: Option<seq<Token>>, e: Token)
    requires ValidConfig(c) && BelowMinLength(c, step, prefix) && e in c.endIds && e < c.vocabulary
    requires forall k :: 0 <= k < |c.processors| ==> KeepsDisabled(c.processors[k], c.lowest)
    ensures !EnabledToken(c, RowLogits(c, step, row.input, row.state, row.hist, prefix), e)
  {
    var raw := c.logits(c.startStep + step, row.input, row.state);
    ProcessKeeps(c, c.processors, step, Disable(raw, c.endIds, c.lowest), row.hist, prefix, e);
  }

  lemma {:induction false} ProcessKeeps<S(!new)>(c: Config<S>, processors: seq<Processor>, step: nat, xs: seq<real>,
                                                 hist: seq<Token>, prefix: Option<seq<Token>>, t: Token)
    requires forall k :: 0 <= k < |processors| ==> KeepsLength(processors[k]) && KeepsDisabled(processors[k], c.lowest)
    requires t < |xs| && xs[t] == c.lowest
    ensures |Process(processors, step, xs, hist, prefix)| == |xs|
    ensures Process(processors, step, xs, hist, prefix)[t] == c.lowest
  {
    ProcessLength(processors, step, xs, hist, prefix);
    if processors != [] {
      var m := |processors| - 1;
      ProcessKeeps(c, processors[..m], step, xs, hist, prefix, t);
      assert KeepsDisabled(processors[m], c.lowest);
    }
  }

  /** No end id among the free tokens h of steps `step`, `step + 1`, ... below the minimum length. */
  ghost predicate NoEndBelowMin<S>(c: Config<S>, prefix: Option<seq<Token>>, step: nat, h: seq<Token>) {
    forall k :: 0 <= k < |h| && step + k >= PrefixLength(prefix) && BelowMinLength(c, step + k, prefix) ==>
      !IsEos(h[k], c.endIds)
  }

  lemma NoEndCons<S>(c: Config<S>, prefix: Option<seq<Token>>, step: nat, id: Token, rest: seq<Token>)
    requires NoEndBelowMin(c, prefix, step + 1, rest)
    requires step >= PrefixLength(prefix) && BelowMinLength(c, step, prefix) ==> !IsEos(id, c.endIds)
    ensures NoEndBelowMin(c, prefix, step, [id] + rest)
  {
    var h := [id] + rest;
    forall k | 0 <= k < |h| && step + k >= PrefixLength(prefix) && BelowMinLength(c, step + k, prefix)
      ensures !IsEos(h[k], c.endIds)
    {
      if k > 0 {
        assert h[k] == rest[k - 1] && BelowMinLength(c, step + 1 + (k - 1), prefix);
      }
    }
  }

  lemma {:induction false} NoEarlyEnd<S(!new)>(c: Config<S>, prefix: Option<seq<Token>>, step: nat, row: Row<S>)
    requires ValidConfig(c) && step < OwnMaxStep(c, prefix) && EnabledRun(c, prefix, step, row)
    requires forall k :: 0 <= k < |c.processors| ==> KeepsDisabled(c.processors[k], c.lowest)
    ensures NoEndBelowMin(c, prefix, step, History(c, prefix, step, row))
    decreases OwnMaxStep(c, prefix) - step
  {
    hide NextRow, RowLogits;
    var next := NextRow(c, step, row, prefix);
    RowLength(c, step, row, prefix);
    if step >= PrefixLength(prefix) && BelowMinLength(c, step, prefix) && IsEos(next.input, c.endIds) {
      assert EnabledToken(c, RowLogits(c, step, row.input, row.state, row.hist, prefix), next.input);
      EarlyEndDisabled(c, step, row, prefix, next.input);
    }
    if !Finishes(c, step, prefix, next.input) {
      NoEarlyEnd(c, prefix, step + 1, next);
      NoEndCons(c, prefix, step, next.input, History(c, prefix, step + 1, next));
    }
  }

  /** A hypothesis that does not show a prefix has at least `min_length` tokens. */
  lemma AtLeastMinLength<S(!new)>(c: Config<S>, prefix: Option<seq<Token>>, state: S, startId: Token)
    requires ValidConfig(c) && c.minLength <= c.maxLength && (prefix.None? || !c.returnPrefix)
    requires EnabledRun(c, prefix, 0, Start(state, startId))
    requires forall k :: 0 <= k < |c.processors| ==> KeepsDisabled(c.processors[k], c.lowest)
    ensures |Run(c, prefix, 0, Start(state, startId)).tokens| >= c.minLength
  {
    hide Run, History, NextRow, EnabledRun, WithoutEos;
    var row := Start(state, startId);
    var h := History(c, prefix, 0, row);
    NoEarlyEnd(c, prefix, 0, row);
    HistoryShape(c, prefix, 0, row);
    HypothesisTokens(c, prefix, state, startId);
    var p := PrefixLength(prefix);
    assert h[0..] == h;
    var shown := h[p..];
    assert |h| >= p + c.minLength;
    KeptAtLeast(c, shown, c.minLength);
  }

  lemma KeptAtLeast<S>(c: Config<S>, shown: seq<Token>, n: nat)
    requires n <= |shown| && forall k :: 0 <= k < n ==> !IsEos(shown[k], c.endIds)
    ensures |WithoutEos(c, shown)| >= n
  {
    assert shown == shown[..n] + shown[n..];
    WithoutEosNone(c, shown[..n]);
    WithoutEosAppend(c, shown[..n], shown[n..]);
  }
}
