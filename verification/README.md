# CTranslate2: verified models of decoding, scheduling and batching

This project models parts of CTranslate2, an inference engine for Transformer models, in Dafny and proves what
they promise. Everything numeric that the source delegates (the neural decoder, softmax, the random or best
sampler, `std::sort`, `ops::TopK`) is an arbitrary function with the contract the source relies on; scores are
reals. Loops, queues, index tables and in-place updates are modelled as the source writes them.

| File | Component |
|---|---|
| `Dtw.dfy` | dynamic time warping: table fill and backtrace |
| `Batching.dfy` | the batch reader and `rebatch_input` |
| `ReplicaPool.dfy` | promises, futures and the order of results in the replica pool |
| `ThreadPool.dfy` | the job queue, the workers and the pool as a state machine over atomic steps |
| `PoolRuns.dfy` | the jobs of the replica pool on that state machine: which schedules of set calls it produces |
| `Buffered.dfy` | the buffered translation wrapper |
| `Processors.dfy` | `DisableTokens`, `NoRepeatNgram`, `SuppressSequences` |
| `Steps.dfy`, `Greedy.dfy`, `GreedyProperties.dfy` | greedy search: the batched method, the search on one sentence, and what the latter promises |
| `Beam.dfy`, `BeamCandidates.dfy`, `BeamFinishing.dfy`, `BeamSearch.dfy` | beam search on one sentence, and the batched method that refines it |
| `BeamPaths.dfy`, `BeamReplacement.dfy`, `BeamExit.dfy`, `BeamFirstStep.dfy` | what beam search promises: alignment, scores, prefixes, counts; twice the beam; early exit; the unexpanded first step |
| `BeamArrays.dfy` | the same promises about the flat arrays of the batched loop at the start of every step |
| `Parallel.dfy`, `Transpose.dfy`, `Padder.dfy` | index arithmetic: loop chunks, 4-D transposition, padding removal |
| `Vectors.dfy`, `RowMajor.dfy`, `Options.dfy` | shared vector helpers, row-major positions, `Option` |

Both searches have the same shape. A function (`Greedy.Run`, `Beam.BeamRun`) decodes one sentence on its own; a
method (`Greedy.Search`, `BeamSearch.Search`) carries the parallel arrays of the source, permutes, expands and
compacts them on every step, and is proved to return for each sentence of any batch exactly what the function
gives. The promises of decoding are then proved of the function.

## Findings

* `negative_dtw` is not always optimal: where `c0 == c1 < c2` its comparisons fall through to `c2`.
  `Dtw.OptimalIffNoTieSkipped` says exactly when every cell is optimal, `Dtw.SkippedTieExample` is an input on
  which the returned path is not cheapest.
* A job posted before the pool is closed can be lost: a post that still waits for a free slot at the close may
  put its job when every worker has left. `ThreadPool.BlockedPostLost` is such a run: both posts precede the
  close, both have returned in the end, and the second job never runs. `ThreadPool.ClosesSafelyIff` says exactly
  when a close is safe: all jobs have run at the join, however the run goes on, if and only if no poster is
  inside `put` when the pool is closed. `ThreadPool.JoinedRunIff` is the same for a given run.
* Beam search on a sentence without a forced prefix can change when a batch mate has one, because the sentence
  then has an empty prefix and end ids among its secondary candidates are penalised on the first step.
  `BeamFirstStep.EmptyPrefixIff` says exactly when the candidates of a step change, for any end ids (if token 0 is
  none, exactly when a secondary candidate ends);
  `BeamFirstStep.EmptyPrefixAsNone` that unchanged first candidates mean unchanged results (the converse is not
  claimed), and `BeamFirstStep.EmptyPrefixExample` is a search whose results change. Greedy search
  has no such dependence (`GreedyProperties.EmptyPrefixAsNone`).
* With several end ids, twice the beam may not be enough: every finished beam is replaced by an active candidate
  exactly when at most half of the candidates end (`BeamReplacement.AllActiveIffHalf`). A caller can rely on it
  when the number of different end ids times the number of rows is at most the beam size
  (`BeamReplacement.TwiceTheBeam`), so on every step with one end id. `BeamReplacement.ThreeEndsExample` is a
  search with two beams and three end ids that does not stop at such a step: the beam without a replacement goes
  on, and a result comes to hold an end id in front of its last token.
* Given a length of 0, the padding indices may leave their range: exactly when some sentence is padded and the
  first one is empty (`Padding.Padder.InRangeIff`). With lengths 0 and 1 the first index is -1
  (`Padding.EmptyFirst`).
* `rebatch_input` delivers every example exactly when none is without streams (`Batching.CoversIffNoEmpty`); the
  promises of the others are never set (`ReplicaPool.AnySchedule`). `Batching.HiddenExample` is an input with an
  example that has a stream and is not delivered.

## Model

| member | source | states |
|---|---|---|
| Dtw.NegativeDtw | src/dtw.cc:40-80 | on every matrix the search ends in a path, never in "Unexpected trace"; for n, m >= 1 it is a warping path from (0, 0) to (n-1, m-1) inside the matrix and its negated sum is the total |
| Dtw.FillCell | src/dtw.cc:54-75 | one cell update extends the filled part of both tables by that cell and changes no other |
| Dtw.Backtrace | src/dtw.cc:8-38 | follows the table to the origin and reverses; the error branch is never taken |
| Dtw.SetBorders | src/dtw.cc:11-14 | the two border loops leave row 0 leading left, column 0 leading up, and the interior as it was |
| Dtw.BackIsPath | src/dtw.cc:16-38 | the traced path of every cell is a warping path and its negated sum is the tabulated cost |
| Dtw.TraceRule | src/dtw.cc:57-75 | which path is traced, also among equally cheap ones: from the diagonal or from above only if that is strictly cheaper than both others, else from the left |
| Dtw.WarpPathInside | src/dtw.cc:18-19 | no warping path has a negative or too large index |
| Dtw.PathCostAtLeast | src/dtw.cc:61-70 | where no tie is skipped, no warping path is cheaper than the tabulated cost |
| Dtw.OptimalIffNoTieSkipped | src/dtw.cc:61-70 | all tabulated costs are minimal iff no cell has c0 = c1 < c2 |
| Dtw.TieCostsMore | src/dtw.cc:67-70 | a cell with c0 = c1 < c2 has a cheaper path than its tabulated cost |
| Dtw.ReturnedPathCheapest | src/dtw.cc:40-80 | without skipped ties the returned path costs no more than any warping path |
| Dtw.SkippedTieExample | src/dtw.cc:61-70 | a 2 x 2 input whose returned path is not the cheapest |
| Batching.VectorReader.GetNext | src/batch_reader.cc:82-103 | rejects a zero size; else delivers the longest prefix of the remaining examples within the limit (their number, or on their first streams the sum of the lengths, or with padding the number times each length), at least one, and the rest remains |
| Batching.VectorReader.FillFixed | src/batch_reader.cc:38-58 | the batch is the greedy cut under count x longest, a first example always fits |
| Batching.VectorReader.FillVariable | src/batch_reader.cc:60-80 | the batch is the greedy cut under the total size |
| Batching.GreedyCutIff | src/batch_reader.cc:18-80 | a greedy cut by the compared size is exactly the longest prefix within the limit, measured on the first streams |
| Batching.VectorReader.GetNextExample | src/batch_reader.cc:117-121 | the next stored example, or an empty one at the end |
| Batching.RebatchInput | src/batch_reader.cc:174-227 | the concatenated indices list the order from the longest first stream to the shortest, each batch holds the examples its indices name, and the batches cut the sorted list from the left, each as long as the caller's limit and type allow (one batch without a limit) |
| Batching.SplitByLimit | src/batch_reader.cc:181-185 | greedy cuts under the effective limit and type are the longest parts within the caller's limit |
| Batching.CoversIffNoEmpty | src/batch_reader.cc:208-212 | the batches cover the whole permutation iff no example is empty |
| Batching.HiddenExample | src/batch_reader.cc:187-212 | a sort may put an example without streams in front of one with an empty stream, and neither is delivered |
| Batching.GreedyIsSplit | src/batch_reader.cc:38-58 | greedy cuts form a split in which each batch of more than one example fits the limit |
| Batching.GreedyMinimal | src/batch_reader.cc:174-227 | no other order-preserving split of the sorted list under the limit has fewer batches |
| Batching.ZeroLimitOneBatch | src/batch_reader.cc:181-185 | a limit of 0, which stands for the number of all examples, means one batch with everything delivered |
| Vectors.IndexVector | include/ctranslate2/utils.h:35-43 | output k is the element at index k |
| ReplicaPool.PostExamples | include/ctranslate2/replica_pool.h:173-189 | the jobs hold the examples from the longest to the shortest, cut by the caller's batch limit and type, each with its own promises; no promise is moved from twice |
| ReplicaPool.SetOnce | include/ctranslate2/replica_pool.h:287-291 | the first set call stores its outcome and no other, a second one is an error |
| ReplicaPool.MovePromises | include/ctranslate2/replica_pool.h:180-183 | takes exactly the promises the index names and leaves the others available |
| ReplicaPool.RunJob | include/ctranslate2/replica_pool.h:277-293 | sets all promises of the job in order, to its results or to its exception |
| ReplicaPool.PartialSchedule | include/ctranslate2/replica_pool.h:277-293 | after any part of any interleaving of all jobs' set calls, no promise has been set twice and exactly the called ones are set, each to its own result |
| ReplicaPool.AnySchedule | include/ctranslate2/replica_pool.h:173-189 | under every schedule, batch limit and type, future i holds the result at the position of example i in the batch that holds it (which may depend on the whole batch), or the exception of that batch; futures of examples that no batch holds are never set |
| ReplicaPool.PopResults | include/ctranslate2/replica_pool.h:200-208 | written results and queued futures stay the outcomes of the examples read, in order; a call that throws stops in front of an exception, another one pops all futures ready at the front, or all when blocking |
| ReplicaPool.ConsumeBatches | include/ctranslate2/replica_pool.h:191-226 | each round reads as many examples as the read size allows and posts them cut by the batch limit; results are written in input order whichever futures are ready, each the one at its example's own position of one of the posted jobs, which together hold each example read once: all of them, or exactly those before the first future that holds an exception, which needs a failing batch; two zero sizes are rejected |
| ReplicaPool.FuturesJoin | include/ctranslate2/replica_pool.h:210-220 | the futures of two rounds queued one behind the other are those of all their jobs |
| ReplicaPool.WrittenRowWise | include/ctranslate2/replica_pool.h:191-226 | if the function treats each example of a batch alone, what is written are the functions of the examples in input order |
| ThreadPool.CountUpdate | src/thread_pool.cc:37-76 | moving one thread changes each thread count by that thread alone |
| ThreadPool.StepCounts | src/thread_pool.cc:37-64 | every step keeps: sleeping workers imply jobs <= awake workers + pending notifications, and the mirror claim for posters and free slots |
| ThreadPool.CloseWakesStep | src/thread_pool.cc:66-76 | every step keeps: after the close has notified, no worker sleeps |
| ThreadPool.AccountedStep | src/thread_pool.cc:7-15 | every step keeps: a posted job is in exactly one of waiting, queued, held, destroyed, and the counter counts the first three |
| ThreadPool.OrderStep | src/thread_pool.cc:37-61 | every step keeps: the queue is within its maximum and jobs are taken in put order |
| ThreadPool.Safety | src/thread_pool.cc:37-162 | all of these hold after every interleaving from the start |
| ThreadPool.NoStall | src/thread_pool.cc:37-64 | a queued job never sits with every live worker asleep and no notification pending |
| ThreadPool.ExactlyOnePlace | src/thread_pool.cc:159-162 | after any interleaving each posted job is in one place and has run at most once |
| ThreadPool.JoinedAllRan | src/thread_pool.cc:148-152 | if no poster is inside `put` at the close and nothing is posted afterwards, every job has run exactly once when the destructor has joined |
| ThreadPool.ClosesSafelyIff | src/thread_pool.cc:37-76 | every continuation of a close, without further posts, to the join has run all jobs iff no poster is inside `put` at the close |
| ThreadPool.JoinedRunIff | src/thread_pool.cc:148-162 | in a joined pool all posted jobs have run iff no job was put after the last worker left and no poster is left waiting |
| ThreadPool.BlockedPostLost | src/thread_pool.cc:37-76 | a run in which a job posted before the close and blocked on the full queue never runs |
| ThreadPool.Drain | src/thread_pool.cc:109-124 | after the close the workers alone can run to their ends, whoever waits to put a job |
| ThreadPool.RestsOnlyWhenDone | src/thread_pool.cc:109-124 | a pool with a worker and a slot in which nothing can happen has run all its jobs and blocks no poster, unless a job was put after the close; after a close all its workers have left |
| ThreadPool.RunsAreBounded | src/thread_pool.cc:109-124 | an interleaving with finitely many posts and spurious wake-ups is finite |
| ThreadPool.ProceedsUntilQuiet | src/thread_pool.cc:37-76 | short of rest the pool can always take a step of its own |
| ThreadPool.AnyoneMayWake | src/thread_pool.cc:37-64 | a notification may wake any sleeper and none only if nobody sleeps; every sleeper may wake spuriously; whoever wakes looks again |
| PoolRuns.NeverSetTwice | include/ctranslate2/replica_pool.h:277-293 | at any time of any interleaving of pool steps and set calls, no promise has been set twice and exactly the called ones are set, each to its own result |
| PoolRuns.TakenBeforeCalls | src/thread_pool.cc:109-124 | in any run the calls of a job are made only after a worker has taken it from the queue |
| PoolRuns.RunIsSchedule | src/thread_pool.cc:109-124 | when the pool has run all its jobs, the set calls made are a complete schedule: every call of every job once |
| PoolRuns.RestFulfils | include/ctranslate2/replica_pool.h:173-189 | a pool with a worker and a slot that comes to rest without late puts has set every future of the posted jobs to its own result |
| PoolRuns.JoinedFulfils | src/thread_pool.cc:148-152 | so has a pool destroyed with the jobs posted and nobody inside `post`, when the destructor has joined, whatever the interleaving |
| PoolRuns.ProceedsUntilQuiet | include/ctranslate2/replica_pool.h:277-293 | short of rest a set call or a step of the pool's own is possible |
| PoolRuns.RunsAreBounded | src/thread_pool.cc:109-124 | a run has at most one set call per promise besides the bounded steps of the pool |
| Buffering.BufferedTranslationWrapper.TranslateAsync | src/buffered_translation_wrapper.cc:29-50 | the request and its promise are queued last, and a full buffer is notified |
| Buffering.BufferedTranslationWrapper.LoopPass | src/buffered_translation_wrapper.cc:68-111 | flushes everything, or all but the remainder of full batches before the stop; a pass that sees the stop empties both queues |
| Buffering.BufferedTranslationWrapper.Take | src/buffered_translation_wrapper.cc:83-93 | pops the same number from both queues, in order |
| Buffering.FullBatches | src/buffered_translation_wrapper.cc:78-81 | the part flushed before the stop is a positive multiple of the batch size |
| Buffering.Serve | src/buffered_translation_wrapper.cc:68-111 | for any arrival and timeout schedule accepted requests are the flushed and then the pending ones, in arrival order, and each flush is proper |
| Buffering.Destroy | src/buffered_translation_wrapper.cc:20-27 | after the join both queues are empty and the flushes hold every accepted request in order |
| Buffering.FlushedOnce | src/buffered_translation_wrapper.cc:83-93 | each request is flushed at exactly one place, with its own promise |
| Buffering.RunFlushes | src/buffered_translation_wrapper.cc:95-105 | each flush is posted cut by the batch size in examples; every accepted request gets the result at its own position of one posted batch, and no promise is set twice |
| Processors.LowerBound | include/ctranslate2/decoding_utils.h:50 | the first position whose element is not below x |
| Processors.DisableTokens.Add | include/ctranslate2/decoding_utils.h:41-54 | one more pending ban, written at once or kept in a sorted list without duplicates |
| Processors.DisableTokens.AddAll | include/ctranslate2/decoding_utils.h:57-60 | the token is banned in every row and nothing else is |
| Processors.DisableTokens.Apply | src/decoding_utils.cc:19-35 | both devices end with the original logits filled at exactly the banned positions |
| Processors.NgramFinalTokens | src/decoding_utils.cc:85-106 | the collected set is exactly the tokens whose append would recreate an n-gram of the row |
| Processors.NoRepeatAppend | src/decoding_utils.cc:75-107 | a row stays free of repeated n-grams iff it was and the appended token is not one of those |
| Processors.ApplyNoRepeatNgram | src/decoding_utils.cc:75-107 | on a batch, exactly these tokens are banned, each in its own row |
| Processors.SuppressSequences.constructor | src/decoding_utils.cc:110-119 | splits into single tokens and longer sequences and drops empty ones, losing nothing else |
| Processors.SuppressSequences.BannedTokens | src/decoding_utils.cc:137-151 | the tokens banned for a row are exactly those that complete some banned sequence |
| Processors.ContainsAppend | src/decoding_utils.cc:142-151 | a row comes to contain a banned sequence iff the appended token completes it |
| Processors.ApplySuppressSequences | src/decoding_utils.cc:121-153 | on a batch, exactly these tokens are banned, each in its own row |
| Processors.FillIsRowWise | src/decoding_utils.cc:19-35 | filling the flat positions acts on each row by that row's bans only |
| Steps.GetMaxStep | src/decoding.cc:359-375 | the least step count that no sentence's own last step exceeds |
| Greedy.Search | src/decoding.cc:816-974 | every sentence of any batch, whatever finishes when, gets exactly the tokens and score it gets alone |
| Greedy.StepAndCompact | src/decoding.cc:844-971 | one step and the compaction keep: live rows are the unfinalised sentences in input order, none past its own last step, each on course for its own result |
| Greedy.Compact | src/decoding.cc:961-970 | every array keeps exactly the surviving rows |
| Greedy.FinishRows | src/decoding.cc:899-953 | each sentence is extended and then finalised or kept, others are untouched |
| Greedy.ProcessRows | src/decoding.cc:852-866 | minimum length and processors act on each row by its own step, history and prefix |
| Greedy.SampleRows | src/decoding.cc:880-882 | sampling and forced prefix act on each row alone |
| GreedyProperties.HistoryShape | src/decoding.cc:922-923 | the tokens of a run follow the prefix, stop at the sentence's last step or at the first end id after the prefix, and nowhere else |
| GreedyProperties.HistorySampled | src/decoding.cc:844-882 | every token of a run is the forced one as far as the prefix reaches, and else what the sampler picks from that step's scores (log-softmax of the processed logits, or these) when the decoder is fed the tokens so far |
| GreedyProperties.SampledIsHistory | src/decoding.cc:844-953 | no other sequence of tokens does so and stops where it must |
| GreedyProperties.SampledIsBest | src/decoding.cc:880 | with the best-score sampler each free token has the greatest logit of its row |
| GreedyProperties.LogitsStages | src/decoding.cc:853-866 | the logits sampled from are the decoder's own with exactly the end ids disabled exactly below the minimum length, sent through the processors in order |
| GreedyProperties.MinLengthExact | src/decoding.cc:384-408 | without processors the logits are the decoder's own from min_length on (after a prefix that is not shown), and before that exactly the end ids are disabled |
| GreedyProperties.HypothesisTokens | src/decoding.cc:910-917 | a hypothesis is the history, or its part after the prefix, without end ids unless included, of at most max_length tokens |
| GreedyProperties.PrefixReproduced | src/decoding.cc:21-67 | a forced prefix that is returned is reproduced, up to max_length |
| GreedyProperties.RunScore | src/decoding.cc:919-920 | the score is the normalised sum of the model's scores when it is fed the chosen tokens, forced ones counting nothing |
| GreedyProperties.NoScore | src/decoding.cc:919-920 | without scores to return the score stays as it was |
| GreedyProperties.EmptyPrefixAsNone | src/decoding.cc:29-33 | batch mates' prefixes do not change a sentence without one |
| GreedyProperties.BestPickEnabled | src/decoding.cc:866-880 | the best-score sampler never picks a disabled token while a choice is left, from the end of the forced prefix on |
| GreedyProperties.ProcessorEnforced | src/decoding.cc:863-866 | a banning processor is enforced if no later one re-enables tokens |
| GreedyProperties.NoRepeatNgramIsRowWise | src/decoding_utils.cc:75-107 | on the flat logits of a batch the processor is a row-wise n-gram ban |
| GreedyProperties.NoRepeatNgramOutput | src/decoding_utils.cc:75-107 | with that processor no greedy output repeats an n-gram |
| GreedyProperties.OutputNeverRepeats | src/decoding.cc:852-893 | the same for any run that samples only enabled tokens |
| GreedyProperties.SuppressSequencesIsRowWise | src/decoding_utils.cc:121-153 | on the flat logits of a batch the processor is a row-wise ban |
| GreedyProperties.SuppressSequencesOutput | src/decoding_utils.cc:121-153 | with that processor no greedy output contains a banned sequence |
| GreedyProperties.OutputNeverContains | src/decoding.cc:852-893 | the same for any run that samples only enabled tokens |
| GreedyProperties.NoEarlyEnd | src/decoding.cc:384-408 | after the forced prefix, whatever it holds, no end id below the minimum length |
| GreedyProperties.AtLeastMinLength | src/decoding.cc:384-408 | a hypothesis that shows no prefix has at least min_length tokens |
| Vectors.TopScoresUnique | src/decoding.cc:561-562 | any two best-k selections have the same scores, position by position |
| BeamSearch.Search | src/decoding.cc:424-721 | every sentence of any batch gets exactly the hypotheses it gets alone |
| BeamSearch.StepAndCompact | src/decoding.cc:493-718 | one step keeps: batch_offset is strictly increasing and lists the unfinalised sentences, none past its own last step, each exactly where its own search is after that many steps and on course for its own result |
| BeamSearch.Initialize | src/decoding.cc:459-474 | replicated or not, the arrays hold each sentence's own first rows |
| BeamCandidates.ScoreRows | src/decoding.cc:497-557 | every row advances by its own state, input, history and prefix, and beam scores are added to their own rows |
| BeamCandidates.Select | src/decoding.cc:558-562 | each sentence's candidates are the best of its own rows laid end to end |
| BeamCandidates.UnflattenIds | src/decoding.cc:95-115 | positions get their token and the flat index of the row they come from |
| BeamCandidates.UpdateSampleWithPrefix | src/decoding.cc:21-67 | each position gets what the forced prefix makes of its own candidate, others stay |
| BeamCandidates.AppendStepOutput | src/decoding.cc:117-130 | each candidate's history is its origin's history and its own token |
| BeamFinishing.FinishBeams | src/decoding.cc:614-649 | the finished beams are registered in order and each place goes to the beam itself or its replacement |
| BeamFinishing.FindActive | src/decoding.cc:637-645 | the scan finds the first active candidate from the offset on |
| BeamFinishing.BuildHypothesis | src/decoding.cc:624-630 | the slice of the history is always in range and is the specified hypothesis |
| BeamFinishing.FinishSentences | src/decoding.cc:605-670 | every sentence is finalised with all its hypotheses, or keeps them and stays |
| BeamSearch.GatherSentences | src/decoding.cc:698-701 | a gather on the batch dimension keeps whole sentences |
| BeamSearch.MoveOn | src/decoding.cc:683-710 | ids, scores, histories, flags and decoder states are gathered to the same rows |
| BeamSearch.SentenceMoved | src/decoding.cc:683-714 | after the gathers and the compaction, each kept sentence is its own search one step further |
| BeamArrays.ArraysAligned | src/decoding.cc:493-717 | at the start of every step of the batched loop, for every live sentence i and beam k: the decoder state at i * width + k is the one reached by feeding the start token and its history without the last token, the flat id is that last token, the history starts with the forced prefix, and the flat score is a base plus the log-probs of the history's free tokens; the base is 0 or `lowest` without forced tokens, 0 or the penalty after them, or the penalty of a secondary end id, which counts from the token after it |
| BeamArrays.ArraysEndFree | src/decoding.cc:598-717 | with one end id no history in alive_seq ever contains it after the forced prefix |
| BeamArrays.ArraysDistinct | src/decoding.cc:598-717 | the histories of a sentence in alive_seq always differ (no prefix, unexpanded first step) |
| BeamArrays.ArraysForced | src/decoding.cc:41-45 | all through a forced prefix a sentence's rows are copies of one row, of which only the first has a score |
| Beam.CandidateForced | src/decoding.cc:558-580 | candidate k is the forced form of the k-th selected flat id and score |
| BeamPaths.RunReached | src/decoding.cc:651-669 | a sentence is finalised once, after the first step that stops it and no later than its own last step |
| BeamPaths.RunStops | src/decoding.cc:651-669 | the result is what is made of the hypotheses of the first n steps, where n is the step limit, or the first step count at which at least the candidate limit is registered, or (early exit) the top candidate of some step has finished and num_hypotheses are registered |
| BeamPaths.HypothesesOfStep | src/decoding.cc:607-630 | a step registers exactly the finished candidates among the first beam_size, in order, each with its history from the prefix on and its score |
| BeamPaths.RowsAligned | src/decoding.cc:493-717 | the alignment of rows at the start of every step of a sentence's own search |
| BeamPaths.CandidatesAligned | src/decoding.cc:543-588 | the same of every candidate's history and score |
| BeamPaths.HypothesesJustified | src/decoding.cc:616-630 | every registered hypothesis shows a finished history, from the prefix on, and its score is the base plus the true sum of that history's free tokens |
| BeamPaths.ResultShowsHistory | src/decoding.cc:206-235 | so does every result, within max_length tokens and with its score normalised |
| BeamPaths.PrefixReproduced | src/decoding.cc:567-577 | a returned forced prefix is reproduced up to max_length, without its last token exactly if that is a dropped end id at the last step; end ids inside it finish nothing |
| BeamPaths.FinalizeBest | src/decoding.cc:206-235 | results are sorted best first, as many as asked for or registered, and the first is the best registered |
| BeamPaths.FinalizeSelects | src/decoding.cc:206-255 | the results are different registered hypotheses with normalised scores, and none left out is better |
| BeamPaths.ResultCount | src/decoding.cc:651-669 | exactly num_hypotheses results when that is at most the beam size and the candidate limit |
| BeamReplacement.AllActiveIffHalf | src/decoding.cc:614-649 | every next beam is active iff at most half of the candidates end in an end id |
| BeamReplacement.ChosenActiveIff | src/decoding.cc:614-649 | a next beam is active iff its candidate is or a replacement is left for it |
| BeamReplacement.ChosenDistinct | src/decoding.cc:614-649 | no candidate is taken for two beams |
| BeamReplacement.OneEndPerRow | src/decoding.cc:558-565 | at most one selected candidate per origin row ends in a given token |
| BeamReplacement.OneEndPerRowAndId | src/decoding.cc:558-565 | at most one selected candidate per origin row and end id ends |
| BeamReplacement.EndWasSelected | src/decoding.cc:47-57 | past the prefix a candidate ends only if it was selected so: the penalty adds no end id, even if token 0 is one |
| BeamReplacement.TwiceTheBeam | src/decoding.cc:447-449 | with at most beam_size pairs of a row and an end id (so always with one end id), on every step past the forced prefix but the last the next beams are distinct candidates and none has ended |
| BeamReplacement.ThreeEndsExample | src/decoding.cc:614-649 | a search of two steps in which a finished beam finds no replacement, the sentence does not stop, the beam goes on, and its continuation is returned with the end id inside |
| BeamReplacement.AliveNeverEnded | src/decoding.cc:598-717 | with at most one end id, over a whole run no alive history of a sentence contains it after the forced prefix |
| BeamReplacement.BeamsDistinct | src/decoding.cc:598-717 | started unexpanded, over a whole run no two beams of a sentence hold the same history |
| BeamFirstStep.ReplicatedBeamsDistinct | src/decoding.cc:598-717 | the same from the first step on when the rows are replicated before it |
| BeamExit.StaysBeaten | src/decoding.cc:616-649 | once the top candidate has finished, some registered hypothesis stays at least as good as every beam |
| BeamExit.LaterNotBetter | src/decoding.cc:598-670 | no continuation of such beams registers anything better |
| BeamExit.FirstFreeBest | src/decoding.cc:47-57 | on the first step after a forced prefix the top candidate keeps the best score in spite of the penalties |
| BeamExit.EarlyExitSound | src/decoding.cc:456-457 | with log-probs at most 0 and no penalties the early exit returns the same best score as the search that runs to the last step, whatever prefix is forced (with one, if every row has a token not below the penalty of -1e10, as a log-softmax has) |
| BeamFirstStep.ExpandedSelection | src/decoding.cc:83-93 | with scores (0, lowest, ..., lowest) the expanded first step selects only from row 0, and a selection the unexpanded step allows, with or without a prefix |
| BeamFirstStep.FirstCandidates | src/decoding.cc:549-577 | without a forced first token (no prefix, or an empty one next to a batch mate's) both first steps select the same scores position by position, from row 0, and give the same candidates if the scores determine the selection |
| BeamFirstStep.FirstForced | src/decoding.cc:567-577 | with a forced prefix both first steps always give the same candidates |
| BeamFirstStep.ForcedBeams | src/decoding.cc:41-45 | all through a forced prefix the beams are copies of one row, of which only the first has a score |
| BeamFirstStep.OnlyFirstBeamExpanded | src/decoding.cc:47-57 | on the first unconstrained step every candidate descends from the first beam and has its token's score, except that a secondary end id becomes a penalised token 0 |
| BeamFirstStep.UnexpandedFirstStep | src/decoding.cc:451-474 | for no, an empty or a nonempty prefix: if a first token is forced, or the first scores are real and determine the selection, running the first step unexpanded keeps the next rows (states, scores, histories) and the results |
| BeamFirstStep.UnexpandedWithTies | src/decoding.cc:451-474 | for every prefix and any ties, some choice among the first step's tied best scores makes the unexpanded search equal to the replicated one |
| BeamFirstStep.EmptyPrefixIff | src/decoding.cc:50-57 | an empty prefix gives the candidates of no prefix iff it is a later step or the penalty on secondary end ids changes nothing, for any end ids; unless token 0 is one, that is iff no secondary candidate ends |
| BeamFirstStep.EmptyPrefixAsNone | src/decoding.cc:50-57 | then the whole search gives the same results |
| BeamFirstStep.EmptyPrefixExample | src/decoding.cc:50-57 | a search whose result a batch mate's prefix changes |
| Parallel.ChunksPartition | src/cpu/parallel.h:55-68 | each index is in the chunk of exactly one thread, for every range, grain size and team |
| Parallel.ChunksByGrain | src/cpu/parallel.h:55-68 | a thread has work only if the team has it and the grains before it do not cover the loop |
| Parallel.ChunksBalanced | src/cpu/parallel.h:55-68 | the chunks are the smallest that cover the loop with that many threads |
| Parallel.CeilDivideLeast | include/ctranslate2/utils.h:83-86 | the least number of parts that hold x |
| Transpose.Transpose4d | src/cpu/primitives.cc:493-541 | both paths write the transposition, whatever the number of threads and the order of their chunks |
| Transpose.TransposeChunk | src/cpu/primitives.cc:517-540 | the strided loops write exactly the slots of their outer indices, each with its element |
| Transpose.TransposeHeads | src/cpu/primitives.cc:497-515 | the block copies write the same slots with the same elements |
| Transpose.BlockDestination | src/cpu/primitives.cc:505-509 | an element of a copied block goes where the strides would put it |
| Transpose.StridesFind | src/cpu/primitives.cc:517-535 | the permuted strides find an element and its destination, for all sizes and permutations |
| Transpose.SourceDestination | src/cpu/primitives.cc:526-540 | every slot has one source and every element one destination |
| Transpose.TransposedAt | src/cpu/primitives.cc:493-541 | the element at an index is found at the permuted index |
| Transpose.TransposedBack | src/cpu/primitives.cc:493-541 | transposing by the inverse permutation restores the input |
| Padding.Padder.Create | src/padder.cc:7-52 | throws exactly if a length exceeds the given time; else there are no tables without padding, or tables of the real steps and of min(t, length - 1), the flat one filled up to the least sufficient multiple with in-range indices |
| Padding.FillUp | src/padder.cc:44-47 | repeats the last entry up to the least multiple |
| Padding.Padder.RemovePadding | src/padder.cc:54-61 | gathers the flat steps, or leaves the tensor |
| Padding.Padder.AddPadding | src/padder.cc:63-71 | gathers the padded steps, or leaves the tensor |
| Padding.Padder.AddAfterRemove | src/padder.cc:54-71 | padding after removal gives x[b][min(t, length - 1)] at every position |
| Padding.Padder.RemoveAfterAdd | src/padder.cc:54-71 | removal after padding restores every tensor that removal produces |
| Padding.Padder.InRangeIff | src/padder.cc:33-41 | the stored indices are in range iff nothing is padded or the first sentence is not empty |
| Padding.EmptyFirst | src/padder.cc:33-41 | with lengths 0 and 1 the padding of the first sentence reads index -1 |

## Left out

- Floating-point rounding and infinities: scores are reals, `lowest` is an ordinary number, -1e10 is exact.
- The decoder, log-softmax, samplers: arbitrary row-wise functions. A random sampler is outside (one deterministic sample per row).
- Decoder state that is not replicated over beams (`replicate_state` false): the state of a row is one value; the state that the search leaves behind is not returned.
- Greedy search with `num_hypotheses` > 1, which repeats the batch and sorts the samples.
- Attention histories, coverage penalty, `logits_vocab`, step callbacks, `decode_alternatives`, biased decoding (`prefix_bias_beta`), restricted vocabularies (`convert_to_original_word_ids`).
- Beam search with a minimum length and a prefix that is not returned: the source disables tokens by sentence instead of beam row. Without a prefix the minimum length is part of the row function.
- Repetition penalty, other logits processors, and bans that a GPU defers until all processors have run: processors act in order, as on CPU.
- BeamExit.EarlyExitSound: is about the best score; the other returned hypotheses may differ from the full search.
- BeamFirstStep.UnexpandedFirstStep: with ties at the cut the selection is unspecified; `UnexpandedWithTies` then gives the results for some choice among them.
- Moved-from objects: a moved promise or example is taken as gone; exceptions other than those of a batch function are not modelled.
- The pool's thread affinity, local workers and `idle` callback; the pool is a state machine over atomic steps rather than threads.
- Buffered wrapper: the mutex makes each call one step, and the loop may wake at any time, so the timeout itself is not modelled; requests after the join are outside.
- ReplicaPool.ConsumeBatches: runs the jobs of each round one after the other; by `AnySchedule` and `PoolRuns` every run of the pool sets the same futures, so the interleaving is not visible in the loop.
- Padding.Padder.Create: a multiple of 0 and a longest length of no sentences at all are excluded.
- Buffered wrapper: a maximum batch size of 0, by which the source would divide, is excluded.
- Decoding options: `beam_size`, `num_hypotheses` and `max_length` are positive, as `validate_decoding_options` demands, and the vocabulary has at least two tokens, so that the replicated beams offer `2 * beam_size` candidates.
- `transpose_2d` and `transpose_3d`, which use the same strided loop with fewer dimensions; the block scheduling of builds without OpenMP.
- `parallel_for` inside a parallel region runs the whole range as one chunk, which is `ChunkOf` with a team of one.
- File readers, parallel readers, token maps and vocabularies, storage, devices, kernels, quantisation, serialisation, logging.
