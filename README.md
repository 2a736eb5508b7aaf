# rxstream operators in Dafny

A model of the operator engine of `rxstream`, a Rust library of Rx-style stream operators.
Every operator is a small state machine that is polled by its consumer. On each poll it polls
its upstreams and answers with an item, the end, "not ready" or an error. The model covers
two groups of operators.

- **Combinators**, written against the futures 0.1 protocol:
  - `combine_latest`, two upstreams and a vector of upstreams;
  - `with_latest_from`;
  - `race`;
  - `concat_vec` (`ChainVec`);
  - `fork_join`.
  
  A poll answers `Item`, `End`, `NotReady` or `Err`, and errors are tagged `Left`/`Right` by
  the upstream they came from.
- **The buffered-stream family**, written against futures 0.3, where a poll answers `Item`,
  `End` or `Pending`:
  - `pairwise`;
  - the `BufferedStream` engine with its pluggable buffers: the count buffer, the
    control-stream ("time") buffer, and the overlapped buffer with its count- and time-based
    openers and creators;
  - the older futures 0.1 `BufferedStream` with its own count buffer.

An upstream is a scripted source. Its i-th poll answers the i-th entry of a script, and once the
script is used up it keeps answering "not ready". The library's `Fuse` wrapper is a value
holding the script and a `done` flag (`Futures01.PollFuse`, `Futures03.PollFuse`). Once it has
answered `End`, every later poll answers `End` without touching the script.

Each operator gets three things:
- a state datatype;
- a pure step function giving the rule of one poll, with that rule stated in its `ensures`;
- a class with the source's fields, whose methods update them in place and are proved to
  follow the step function.

Run functions collect what a consumer sees over `n` polls. The lemmas about them state the
behaviour over whole runs:
- concatenation;
- sampling;
- last-value join;
- count batches partitioning the input;
- windows of the overlapped buffer;
- the worked examples of the repository's tests.

The time openers read a natural-number clock `now`, given as a parameter. Timers are scripts of
ticks and `Pending`s.

The older count buffer in `buffer.rs` (lines 18-42) behaves exactly like the current one in
`simple_count_buffer.rs` (lines 6-30). Both are modelled by `CountBufferPolicy`, which the older
engine `LegacyBuffer` reuses.

## Model

| member | source | states |
|---|---|---|
| CombineLatestOp.NewPair | src/operators/combination/combine_latest.rs:40-53 | both upstreams are fused and both latest-value slots start empty |
| CombineLatestOp.PairStep | src/operators/combination/combine_latest.rs:66-102 | s1 is polled first on every call, and s2 next unless s1 failed; a new item overwrites its slot and a slot is never cleared; an s1 error is answered `Left` before s2 is polled, an s2 error `Right`; a pair is emitted iff both slots are filled and an upstream yielded on this call, and it is the two slots after this call's updates; otherwise the answer is the end iff both upstreams are done or one is done with its slot empty |
| CombineLatestOp.CombineLatest.constructor | src/operators/combination/combine_latest.rs:40-53 | the fields equal `NewPair` of the two upstreams |
| CombineLatestOp.CombineLatest.Poll | src/operators/combination/combine_latest.rs:66-102 | the in-place poll answers and leaves the fields exactly as `PairStep` says |
| CombineLatestOp.TwoTimersExample | tests/test_combine_operators.rs:9-14 | two interleaved timers of 3 and 4 ticks, the first ticking first, combine to [(0,0),(1,0),(1,1),(2,1),(2,2),(2,3)] |
| CombineLatestOp.EmptyFirstEndsAtOnce | tests/test_combine_operators.rs:16-22 | an upstream that ends before any item ends the combination on the first poll, so the run is empty |
| CombineLatestOp.NewVec | src/operators/combination/combine_latest.rs:128-138 | one fused upstream and one empty slot per stream |
| CombineLatestOp.AllFilled | src/operators/combination/combine_latest.rs:170-180 | the slot vector is returned iff every slot is filled; it has one value per slot, equal to that slot |
| CombineLatestOp.CloneAll | src/operators/combination/combine_latest.rs:171-179 | the clone loop returns `AllFilled` of the slots: every value in order, or nothing at the first empty slot |
| CombineLatestOp.VecScanShape | src/operators/combination/combine_latest.rs:152-189 | the scan from upstream `i`: upstreams `i..k` are polled in order, where `k` is the first that yields, fails or ends with an empty slot; later ones are not polled; only slot `k` can change; the answer is decided by what `k` answered, or by whether every polled upstream ended |
| CombineLatestOp.VecScan | src/operators/combination/combine_latest.rs:152-189 | the scan keeps the state valid and the slot vector's size |
| CombineLatestOp.VecStepRule | src/operators/combination/combine_latest.rs:149-190 | one poll of the vector form: index-order polling up to the first upstream that stops the scan, none after it; an item fills its slot and the answer is the whole slot vector (one value per upstream) iff every slot is filled, else NotReady; an end with an empty slot ends the combinator; with no stop the answer is the end iff every upstream ended, else NotReady; an empty vector ends on its first poll |
| CombineLatestOp.VecStep | src/operators/combination/combine_latest.rs:149-190 | one poll of the vector form keeps the state valid and the slot vector's size |
| CombineLatestOp.CombineLatestVec.constructor | src/operators/combination/combine_latest.rs:128-138 | the fields equal `NewVec` of the streams |
| CombineLatestOp.CombineLatestVec.Poll | src/operators/combination/combine_latest.rs:149-190 | the in-place loop with `done_count` and early returns answers and updates the fields exactly as `VecStep` says |
| WithLatestFromOp.NewLatest | src/operators/combination/with_latest_from.rs:27-39 | both streams are fused and neither slot holds a value |
| WithLatestFromOp.LatestStep | src/operators/combination/with_latest_from.rs:51-82 | the source is polled first on every call, the other stream next unless the source failed; a new item of the other stream always refreshes the cache; errors are tagged `Left`/`Right`; the end comes whenever the source is done or the other stream is done with an empty cache, before any emission; a pair is emitted iff the source yielded on this call and the cache is filled, the source slot then being emptied and the cache kept; a source item finding the cache empty is parked and answered NotReady |
| WithLatestFromOp.NoLateEmission | src/operators/combination/with_latest_from.rs:52-56 | a poll whose source did not yield emits nothing, and an emitted pair carries the source item of that same poll, so a parked item is never emitted later |
| WithLatestFromOp.EndOfSourceIsFinal | src/operators/combination/with_latest_from.rs:68-71 | once the source is done, every run emits nothing more |
| WithLatestFromOp.TickedRun | src/operators/combination/with_latest_from.rs:51-82 | against an other stream that ticks 0, 1, 2, … on every poll, each source item is paired with the tick of its own poll, in order, until the source ends |
| WithLatestFromOp.IntervalExample | tests/test_combine_operators.rs:110-116 | a source ticking every fifth poll three times, sampled against a per-poll ticker, gives [(0,4),(1,9),(2,14)] |
| WithLatestFromOp.WithLatestFrom.constructor | src/operators/combination/with_latest_from.rs:27-39 | the fields equal `NewLatest` |
| WithLatestFromOp.WithLatestFrom.Poll | src/operators/combination/with_latest_from.rs:51-82 | the in-place poll answers and updates the fields exactly as `LatestStep` says |
| RaceOp.NewRace | src/operators/combination/race.rs:16-20 | the race starts undecided, holding both upstreams |
| RaceOp.RaceStep | src/operators/combination/race.rs:31-58 | while undecided, s1 is polled first and any answer other than NotReady commits to s1 and is returned as it is; otherwise s2 is polled and the same holds for it; the race stays undecided, answering NotReady, iff both answered NotReady; once committed, only the picked upstream is polled and forwarded; the `Temp` placeholder is never the state between polls |
| RaceOp.PickEmit | src/operators/combination/race.rs:55 | a committed race over an upstream that answers at once yields exactly its items |
| RaceOp.FirstWins | src/operators/combination/race.rs:33-43 | when both upstreams are silent until poll `k` and s1 then answers anything, the rest of the run is s1's from there on |
| RaceOp.SecondWins | src/operators/combination/race.rs:44-53 | when both are silent until poll `k`, s1 is still silent and s2 answers, the rest of the run is s2's from there on |
| RaceOp.QuickWinsExample | tests/test_combine_operators.rs:82-94 | a quicker upstream of odd numbers beats a slower one and yields [1,3,5,7,9,11] |
| RaceOp.EmptyWinsExample | tests/test_combine_operators.rs:96-108 | an upstream that ends at once wins the race, and the race is empty |
| RaceOp.Race.constructor | src/operators/combination/race.rs:16-20 | the state equals `NewRace` |
| RaceOp.Race.Poll | src/operators/combination/race.rs:31-58 | the in-place poll, including the `mem::replace` through `Temp`, answers and sets the state exactly as `RaceStep` says |
| ConcatOp.NewChain | src/operators/combination/concat.rs:16-18 | the cursor starts on the first upstream |
| ConcatOp.ChainStep | src/operators/combination/concat.rs:33-51 | the cursor never decreases and stays within the vector; the stream ends exactly when the vector is empty or the cursor reaches its length; otherwise the next poll is allowed again |
| ConcatOp.ChainStepShape | src/operators/combination/concat.rs:38-50 | every upstream the cursor moves past answered `End` on this call; upstreams before the cursor or after the new one are untouched; any other answer is the current upstream's answer, returned as it is |
| ConcatOp.ChainRunClean | src/operators/combination/concat.rs:33-51 | over upstreams from the cursor on that each have an end and no error before it, with NotReady anywhere among their answers, and one poll more than those answers: the output is the items before each end, in vector order, and one of the polls answers the end |
| ConcatOp.ChainRunEmits | src/operators/combination/concat.rs:33-51 | over upstreams that answer at once, the output is the concatenation of their items in vector order, one per poll, and the poll after the last item answers the end |
| ConcatOp.ConcatExample | tests/test_combine_operators.rs:65-72 | three upstreams counting from 0, 1 and 2, three items each, give [0,1,2,1,2,3,2,3,4] |
| ConcatOp.EmptyVecEnds | src/operators/combination/concat.rs:34-37 | an empty vector ends on the first poll and stays as it is |
| ConcatOp.ChainVec.constructor | src/operators/combination/concat.rs:16-18 | the fields equal `NewChain` |
| ConcatOp.ChainVec.Poll | src/operators/combination/concat.rs:33-51 | the in-place cursor loop answers and updates the fields exactly as `ChainStep` says |
| ForkJoinOp.KeepLast | src/operators/combination/fork_join.rs:13-14 | the fold closure replaces the accumulator with the latest item |
| ForkJoinOp.LastOr | src/operators/combination/fork_join.rs:13-14 | folding with `KeepLast` gives the last item, or the starting accumulator when there is none |
| ForkJoinOp.FoldStep | src/operators/combination/fork_join.rs:13-14 | a poll of the fold future never grows the upstream's script, and a ready answer is the accumulator |
| ForkJoinOp.FoldStepClean | src/operators/combination/fork_join.rs:13-14 | over an upstream that ends cleanly, each poll of the fold either settles to the last item or consumes part of the script and keeps the value it will settle to |
| ForkJoinOp.JoinStep | src/operators/combination/fork_join.rs:13-15 | the join polls both folds; a failure is tagged `Left` (checked first) or `Right`; otherwise each side advances, and the join is ready iff both sides have finished, with their two values |
| ForkJoinOp.PollSide | src/operators/combination/fork_join.rs:13-15 | a finished side is not polled again; a running side reports exactly its fold's failure, or else advances |
| ForkJoinOp.Advance | src/operators/combination/fork_join.rs:13-15 | a side that did not fail: a finished side stays as it is; a running side finishes exactly when its fold is ready, with the fold's value, and otherwise keeps folding from the fold's new state |
| ForkJoinOp.AdvanceClean | src/operators/combination/fork_join.rs:13-15 | a side over a cleanly ending upstream never fails, keeps the value it settles to, and gets closer to finishing on every poll |
| ForkJoinOp.NewForkJoin | src/operators/combination/fork_join.rs:12-16 | both upstreams start folding from `None` |
| ForkJoinOp.ForkJoinStep | src/operators/combination/fork_join.rs:25-39 | after the joined future answered, every poll ends; while it is pending the poll is NotReady and the future is kept; any other answer drops the future; an error is passed on, and a pair is emitted iff both sides have a last item, that pair being the two last items |
| ForkJoinOp.OneShot | src/operators/combination/fork_join.rs:32-33 | at most one pair; a pair exactly when both sides have a last value, and then it is those two values |
| ForkJoinOp.ForkJoinSettles | src/operators/combination/fork_join.rs:25-39 | over upstreams that end without failing, the run is `OneShot` of their last values: one pair of last items, or nothing when either side had none |
| ForkJoinOp.JoinTwoExample | tests/test_combine_operators.rs:40-46 | inputs 1,2 and 3,4,5,6 give [(2,6)] |
| ForkJoinOp.JoinEmptyExample | tests/test_combine_operators.rs:57-63 | an empty side gives [] |
| ForkJoinOp.ForkJoin.constructor | src/operators/combination/fork_join.rs:12-16 | the field equals `NewForkJoin` |
| ForkJoinOp.ForkJoin.Poll | src/operators/combination/fork_join.rs:25-39 | the in-place poll, setting the field to `None` after any final answer, follows `ForkJoinStep` |
| PairwiseOp.NewPairwise | src/operators/transform/pairwise.rs:19-24 | the upstream is fused and no previous item is held |
| PairwiseOp.PairwiseStep | src/operators/transform/pairwise.rs:30-55 | a first item is stored and the upstream is polled once more at once; each later item emits (previous, current) and becomes the previous one; an upstream end ends the output even with an unpaired item held; Pending is answered with the held item kept |
| PairwiseOp.Pairs | src/operators/transform/pairwise.rs:43-51 | the reference pairing: for n items, max(0, n-1) pairs, pair i being items i and i+1, so neighbouring pairs share an item |
| PairwiseOp.HeldStep | src/operators/transform/pairwise.rs:42-54 | with an item held, the next item is paired with it and replaces it, and an end ends the output |
| PairwiseOp.PairwiseRunClean | src/operators/transform/pairwise.rs:30-55 | over any upstream with an end, Pending anywhere before it, with or without an item held, and one poll more than the answers before the end: the output is `Pairs` of the held item followed by the upstream's items, and one of the polls answers the end |
| PairwiseOp.PairwiseRunEmit | src/operators/transform/pairwise.rs:30-55 | over an upstream that answers at once, the output is `Pairs` of its items, and then the stream ends |
| PairwiseOp.PairwiseExample | tests/test_transform_operators.rs:9-13 | [0,1,2] gives [(0,1),(1,2)] |
| PairwiseOp.Pairwise.constructor | src/operators/transform/pairwise.rs:19-24 | the fields equal `NewPairwise` |
| PairwiseOp.Pairwise.PollNext | src/operators/transform/pairwise.rs:30-55 | the in-place poll, with its `mem::replace` of `previous`, follows `PairwiseStep` |
| CountBufferPolicy.CountInsert | src/operators/transform/simple_count_buffer.rs:21-23 | the item is appended at the end and nothing else changes |
| CountBufferPolicy.CountPoll | src/operators/transform/simple_count_buffer.rs:24-30 | a batch iff exactly `max_count` items are held; the batch is all of them in insertion order, has length `max_count`, and empties the buffer; otherwise the buffer is unchanged |
| CountBufferPolicy.CountAfterDone | src/operators/transform/simple_count_buffer.rs:31-37 | the leftover is handed out iff it is non-empty, and the buffer is emptied; otherwise the buffer is unchanged |
| CountBufferPolicy.AfterDoneOnce | src/operators/transform/simple_count_buffer.rs:31-37 | a second after-done call has nothing to hand out |
| CountBufferPolicy.CountStaysBelow | src/operators/transform/simple_count_buffer.rs:21-30 | from fewer than `max_count` held, an insert reaches at most `max_count`, and the poll after it leaves fewer than `max_count` |
| CountBufferPolicy.SimpleCountBuffer.constructor | src/operators/transform/simple_count_buffer.rs:12-17 | nothing is held, and the buffer keeps the configured `max_count` |
| CountBufferPolicy.NewCountBuffer | src/operators/transform/simple_count_buffer.rs:12-17 | nothing is held, and the buffer keeps the given `max_count` |
| CountBufferPolicy.SimpleCountBuffer.Insert | src/operators/transform/simple_count_buffer.rs:21-23 | the in-place push follows `CountInsert` |
| CountBufferPolicy.SimpleCountBuffer.PollBuffer | src/operators/transform/simple_count_buffer.rs:24-30 | the in-place `mem::replace` follows `CountPoll` |
| CountBufferPolicy.SimpleCountBuffer.PollBufferAfterDone | src/operators/transform/simple_count_buffer.rs:31-37 | the in-place drain follows `CountAfterDone` |
| TimeBufferPolicy.TimeInsert | src/operators/transform/simple_time_buffer.rs:17-19 | the item is appended at the end and the timer is untouched |
| TimeBufferPolicy.TimePoll | src/operators/transform/simple_time_buffer.rs:20-25 | the control stream is polled exactly once; any ready answer, tick or end, hands out the whole accumulation (possibly empty) and clears it; Pending hands out nothing and keeps it |
| TimeBufferPolicy.TimePollKeepsOrder | src/operators/transform/simple_time_buffer.rs:17-25 | what a poll hands out, followed by what stays held, is exactly what was held: nothing lost or reordered |
| TimeBufferPolicy.StreamControlledBuffer.constructor | src/operators/transform/simple_time_buffer.rs:31-36 | nothing is held, and the buffer is driven by the given timer |
| TimeBufferPolicy.NewTimeBuffer | src/operators/transform/simple_time_buffer.rs:31-36 | nothing is held, and the buffer is driven by the given timer |
| TimeBufferPolicy.StreamControlledBuffer.Insert | src/operators/transform/simple_time_buffer.rs:17-19 | the in-place push follows `TimeInsert` |
| TimeBufferPolicy.StreamControlledBuffer.PollBuffer | src/operators/transform/simple_time_buffer.rs:20-25 | the in-place poll follows `TimePoll` |
| CountOpenerPolicy.CountCheckOpen | src/operators/transform/overlapped_count_buffer.rs:15-23 | the count goes up by one, and the answer is true exactly when it reaches `skip`, the count then going back to 0 |
| CountOpenerPolicy.CountOpenerBounded | src/operators/transform/overlapped_count_buffer.rs:15-23 | with `skip >= 1` the count stays below `skip` between calls; with `skip == 0` no call opens |
| CountOpenerPolicy.CountToOpening | src/operators/transform/overlapped_count_buffer.rs:15-23 | from a count of `c`, the next `skip - c` calls do not open except the last, after which the count is 0 |
| CountOpenerPolicy.CountOpensPeriodic | src/operators/transform/overlapped_count_buffer.rs:15-23 | from a fresh count, exactly every `skip`-th call opens: the answers repeat with period `skip` |
| CountOpenerPolicy.ZeroSkipNeverOpens | src/operators/transform/overlapped_count_buffer.rs:16-19 | with `skip == 0`, no call in any run of calls opens a window |
| CountOpenerPolicy.CountBufferOpener.constructor | src/operators/transform/overlapped_count_buffer.rs:36-38 | the opener starts with the given `skip` and a count of 0 |
| CountOpenerPolicy.CountBufferOpener.CheckOpen | src/operators/transform/overlapped_count_buffer.rs:15-23 | the in-place count update follows `CountCheckOpen` |
| CountOpenerPolicy.CountNewBuffer | src/operators/transform/overlapped_count_buffer.rs:27-29 | every new count window is empty and has the creator's `max_count` |
| TimeOpenerPolicy.NewTimeOpener | src/operators/transform/overlapped_time_buffer.rs:17-22 | the last opening counts as having happened at construction time |
| TimeOpenerPolicy.TimeCheckOpen | src/operators/transform/overlapped_time_buffer.rs:26-34 | opens iff `now >= last_check + period`, and then sets `last_check` to `now`; otherwise nothing changes |
| TimeOpenerPolicy.OpenTimesSpaced | src/operators/transform/overlapped_time_buffer.rs:26-34 | whatever the clock readings, the first opening is at least `period` after the construction time and consecutive openings are at least `period` apart |
| TimeOpenerPolicy.TimeBufferOpener.constructor | src/operators/transform/overlapped_time_buffer.rs:17-22 | the fields equal `NewTimeOpener` |
| TimeOpenerPolicy.TimeBufferOpener.CheckOpen | src/operators/transform/overlapped_time_buffer.rs:26-34 | the in-place update of `last_check` follows `TimeCheckOpen` |
| TimeOpenerPolicy.TimeNewBuffer | src/operators/transform/overlapped_time_buffer.rs:37-41 | every new time window is empty and driven by the creator's next fresh timer, which the creator then gives up; with none left, by a timer that never ticks; the time span is kept |
| OverlappedPolicy.LeafInsert | src/operators/transform/buffered_stream.rs:10 | a window of either kind appends the item and keeps its kind |
| OverlappedPolicy.LeafPoll | src/operators/transform/buffered_stream.rs:11 | a window hands out exactly what it holds and empties, or hands out nothing and keeps it |
| OverlappedPolicy.LeafAfterDone | src/operators/transform/buffered_stream.rs:15-17 | the after-done call hands out what is held or nothing; a time window, having no override, answers as its ordinary poll |
| OverlappedPolicy.CountLeafAfterDone | src/operators/transform/simple_count_buffer.rs:31-37 | a count window hands out its leftover after the end exactly when it holds something |
| OverlappedPolicy.CheckOpen | src/operators/transform/overlapped_buffer.rs:4-6 | the opener follows the count opener's rule or, reading the clock, the time opener's rule, and keeps its kind |
| OverlappedPolicy.InsertAll | src/operators/transform/overlapped_buffer.rs:34-36 | every queued window gets the item, in queue order |
| OverlappedPolicy.OverlappedInsert | src/operators/transform/overlapped_buffer.rs:33-40 | every queued window gets a copy of the item; then the opener is asked once, and if it says so one fresh empty window is appended at the back without the triggering item; the queue grows by at most one |
| OverlappedPolicy.OverlappedPoll | src/operators/transform/overlapped_buffer.rs:41-55 | an empty queue hands out nothing; otherwise only the oldest window is asked, and if it hands out a batch it leaves the queue; all other windows are untouched |
| OverlappedPolicy.OverlappedAfterDone | src/operators/transform/overlapped_buffer.rs:57-69 | nothing only when the queue is empty; otherwise the oldest window leaves the queue and hands out its after-done batch, or an empty batch if it had none |
| OverlappedPolicy.DrainOnePerWindow | src/operators/transform/overlapped_buffer.rs:57-69 | the after-done drain hands out one batch per queued window, oldest first, then nothing |
| OverlappedPolicy.OverlappedBuffer.Internal | src/operators/transform/overlapped_buffer.rs:21-27 | no window yet, with the given opener and creator |
| OverlappedPolicy.OverlappedBuffer.CountWindows | src/operators/transform/overlapped_count_buffer.rs:35-45 | exactly one empty count window, a count opener at 0 and a creator of windows of `max_count` |
| OverlappedPolicy.OverlappedBuffer.TimeWindows | src/operators/transform/overlapped_time_buffer.rs:46-53 | exactly one empty time window driven by the first fresh timer, and a time opener whose last opening is the construction time |
| OverlappedPolicy.NewBuffer | src/operators/transform/overlapped_buffer.rs:8-11 | asks the creator for a window: a count creator gives `CountNewBuffer` and stays as it is, a time creator gives `TimeNewBuffer` and moves on to its next timer |
| OverlappedPolicy.NewInternal | src/operators/transform/overlapped_buffer.rs:21-27 | no window yet, with the given opener and creator |
| OverlappedPolicy.NewOverlappedCount | src/operators/transform/overlapped_count_buffer.rs:35-45 | one window from the creator of `max_count`, with a count opener at 0 |
| OverlappedPolicy.NewOverlappedTime | src/operators/transform/overlapped_time_buffer.rs:46-53 | one window from the time creator, with a time opener whose last opening is the construction time |
| OverlappedPolicy.OverlappedBuffer.Insert | src/operators/transform/overlapped_buffer.rs:33-40 | the in-place loop over the queue and the `push_back` follow `OverlappedInsert` |
| OverlappedPolicy.OverlappedBuffer.PollBuffer | src/operators/transform/overlapped_buffer.rs:41-55 | the in-place `pop_front` follows `OverlappedPoll` |
| OverlappedPolicy.OverlappedBuffer.PollBufferAfterDone | src/operators/transform/overlapped_buffer.rs:57-69 | the in-place `pop_front` follows `OverlappedAfterDone` |
| BufferedStreamEngine.BufInsert | src/operators/transform/buffered_stream.rs:52 | the engine's `buffer.insert` (the trait method at src/operators/transform/buffered_stream.rs:10) goes to the buffer's own insert: a simple buffer's `LeafInsert` or an overlapped buffer's `OverlappedInsert`, and the buffer keeps its kind |
| BufferedStreamEngine.BufPoll | src/operators/transform/buffered_stream.rs:48 | the engine's `poll_buffer` (the trait method at src/operators/transform/buffered_stream.rs:11) answers what the buffer's own poll answers, `LeafPoll` or `OverlappedPoll`, and the buffer keeps its kind |
| BufferedStreamEngine.BufAfterDone | src/operators/transform/buffered_stream.rs:40-43 | the engine's `poll_buffer_after_done` (the trait method at src/operators/transform/buffered_stream.rs:15-17) answers what the buffer's own after-the-end call answers, `LeafAfterDone` or `OverlappedAfterDone`, and the buffer keeps its kind |
| BufferedStreamEngine.Answer | src/operators/transform/buffered_stream.rs:40-43 | a batch from the buffer is answered as an item; no batch means the end |
| BufferedStreamEngine.EngineLoop | src/operators/transform/buffered_stream.rs:47-60 | the loop only consumes a prefix of the upstream's script and keeps the buffer's kind; it answers the end only once the upstream is done, and Pending only while it is not |
| BufferedStreamEngine.EngineStep | src/operators/transform/buffered_stream.rs:32-62 | once the upstream is done, a poll answers the after-done batch or the end and never touches the upstream; before that it is the loop; it answers the end only with the upstream done |
| BufferedStreamEngine.LoopTurnReady | src/operators/transform/buffered_stream.rs:48-50 | a batch the buffer has ready is answered before the upstream is polled |
| BufferedStreamEngine.LoopTurnItem | src/operators/transform/buffered_stream.rs:51-52 | otherwise an upstream item is inserted and the loop goes on |
| BufferedStreamEngine.LoopTurnPending | src/operators/transform/buffered_stream.rs:51 | an upstream Pending makes the whole poll Pending |
| BufferedStreamEngine.LoopTurnEnd | src/operators/transform/buffered_stream.rs:53-58 | on the upstream's end the after-done call is made once in the same poll; its batch is answered, or the end |
| BufferedStreamEngine.LoopConserves | src/operators/transform/buffered_stream.rs:47-60 | over a simple buffer the loop loses and duplicates nothing: what was held, then the upstream items still to come, equals the batch answered, then what is held after, then the items still to come |
| BufferedStreamEngine.SimpleConserves | src/operators/transform/buffered_stream.rs:32-62 | every poll over a simple buffer conserves items in that same sense |
| BufferedStreamEngine.ChunksPartition | src/operators/transform/simple_count_buffer.rs:24-37 | the reference batching: laid end to end the batches are the input, every batch but the last has `max_count` items, and the last has between 1 and `max_count` |
| BufferedStreamEngine.CountBatches | src/operators/transform/simple_count_buffer.rs:24-37 | a count stream with `max_count >= 1` over any upstream with an end, Pending anywhere before it, polled two times more than the answers before the end, hands out exactly the reference batches `Chunks` of the upstream's items (full batches in order, then the leftover if any), and one of the polls answers the end |
| BufferedStreamEngine.CountRunClean | src/operators/transform/simple_count_buffer.rs:24-37 | the same from any count stream holding fewer than `max_count` items: the held items come first in the batches |
| BufferedStreamEngine.CountHoldBound | src/operators/transform/simple_count_buffer.rs:24-30 | with `max_count >= 1`, the count buffer holds fewer than `max_count` items between polls |
| BufferedStreamEngine.ZeroCountNeverPulls | src/operators/transform/simple_count_buffer.rs:24-30 | with `max_count == 0` every poll hands out an empty batch and never polls the upstream |
| BufferedStreamEngine.TimeLeftoverNeedsTick | src/operators/transform/simple_time_buffer.rs:20-25 | after the upstream ended, a time buffer's leftover is handed out only if its timer is ready; with the timer Pending the stream ends and the leftover is dropped |
| BufferedStreamEngine.DoneRunDrains | src/operators/transform/buffered_stream.rs:39-43 | once the upstream has ended, an overlapped stream hands out what draining its queue does |
| BufferedStreamEngine.DoneRunOnePerWindow | src/operators/transform/overlapped_buffer.rs:57-69 | with enough polls after the end, exactly one batch per window still queued, oldest first; with one poll more than windows, one of the polls answers the end |
| BufferedStreamEngine.NewCountStream | src/operators/transform/simple_count_buffer.rs:43-48 | a fused upstream and an empty count buffer |
| BufferedStreamEngine.NewTimeStream | src/operators/transform/simple_time_buffer.rs:38-48 | a fused upstream and an empty time buffer driven by the given timer |
| BufferedStreamEngine.NewOverlappedCountStream | src/operators/transform/overlapped_count_buffer.rs:50-55 | a fused upstream, one empty count window, a count opener at 0 and a creator of windows of `max_count` |
| BufferedStreamEngine.NewOverlappedTimeStream | src/operators/transform/overlapped_time_buffer.rs:58-63 | a fused upstream, one empty time window driven by the first fresh timer, a time opener whose last opening is the construction time, and the remaining timers kept for later windows |
| BufferedStreamEngine.BufferedStream.constructor | src/operators/transform/buffered_stream.rs:23-27 | the fields are the fused upstream and the given buffer |
| BufferedStreamEngine.BufferedStream.PollNext | src/operators/transform/buffered_stream.rs:32-62 | the in-place loop, inserting into the buffer and polling the upstream, follows `EngineStep` |
| OverlappedCountStream.WinsInsert | src/operators/transform/overlapped_buffer.rs:33-40 | an insert into count windows appends the item to every window, and on every `skip`-th insert opens one new empty window at the back |
| OverlappedCountStream.WinsPoll | src/operators/transform/overlapped_buffer.rs:41-55 | the oldest count window hands out its batch exactly when it is full, and then leaves the queue |
| OverlappedCountStream.WinsAfterDone | src/operators/transform/overlapped_buffer.rs:57-69 | after the end the count windows are drained oldest first, each handing out its contents |
| OverlappedCountStream.WinLoopBridge | src/operators/transform/buffered_stream.rs:47-60 | the engine's loop over count windows is the plain-sequence loop `WinLoop` |
| OverlappedCountStream.WinEndedRun | src/operators/transform/buffered_stream.rs:39-43 | once the upstream has ended, the stream hands out the contents of every window still queued, in order |
| OverlappedCountStream.WinRunBridge | src/operators/transform/buffered_stream.rs:32-62 | the engine's run of an overlapped count stream is the plain-sequence run `WinRun` |
| OverlappedCountStream.NewIsWinStream | src/operators/transform/overlapped_count_buffer.rs:50-55 | a new overlapped count stream is a single empty window with the opener at 0 |
| OverlappedCountStream.Slide3By2 | src/operators/transform/overlapped_count_buffer.rs:15-23 | windows of 3 opened every 2 items overlap by one item, e.g. [x0,x1,x2],[x2,x3,x4],[x4,x5], and the window opened by the last item drains empty |
| OverlappedCountStream.Skip2By3 | src/operators/transform/overlapped_count_buffer.rs:15-23 | windows of 2 opened every 3 items leave every third item out: [x0,x1],[x3,x4],[x6] |
| OverlappedCountStream.OpenedPush | src/operators/transform/overlapped_buffer.rs:33-40 | while no window is full, one more item goes to the end of every window, and a new empty window opens exactly when the position reaches a multiple of `skip` |
| OverlappedCountStream.WinLoopSpec | src/operators/transform/buffered_stream.rs:47-60 | at position `p` with the oldest window opened at `front`: the loop hands out that window as soon as it holds `max_count` items, pulling only the items that takes; if the upstream ends first, it hands the window out with what it has and the upstream is ended; with no window left and none to open before the end, it reports the end |
| OverlappedCountStream.WinRunSpec | src/operators/transform/buffered_stream.rs:32-62 | with a poll per window, the run hands out every window from `front` on, whole or cut short by the end, in the order they were opened |
| OverlappedCountStream.SlidingWindowsAre | src/operators/transform/overlapped_count_buffer.rs:15-23 | the windows the queue opens over `xs` are, for every `k` up to `|xs| / skip`, the window that starts at item `k * skip` and holds at most `max_count` items |
| OverlappedCountStream.SlidingWindowsRun | src/operators/transform/overlapped_count_buffer.rs:49-56 | for `max_count >= 1` and `skip >= 1`, over a finite upstream that answers every poll at once (never Pending), with `|xs| / skip + 1` polls, the stream hands out exactly `seq(|xs| / skip + 1, k => xs[k * skip .. min(k * skip + max_count, |xs|)])`, one window per poll, in the order opened |
| LegacyBuffer.NewLegacy | src/operators/transform/buffer.rs:74-80 | the raw upstream, not fused, and an empty count buffer of `max_count` |
| LegacyBuffer.LastChance | src/operators/transform/buffer.rs:63-67 | the answer when the upstream ends: the batch of the last `poll_buffer` call as an item, or the end when there is none |
| LegacyBuffer.LegacyPoll | src/operators/transform/buffer.rs:55-70 | `max_count` is kept and the upstream never grows; every batch has exactly `max_count` items and leaves the buffer empty |
| LegacyBuffer.TurnReady | src/operators/transform/buffer.rs:57-59 | a full buffer hands out its batch before the upstream is polled |
| LegacyBuffer.TurnItem | src/operators/transform/buffer.rs:60-61 | otherwise an upstream item is inserted in arrival order and the loop goes on |
| LegacyBuffer.TurnEnd | src/operators/transform/buffer.rs:62-67 | at the upstream's end only `poll_buffer` is asked once more, so the answer is the end and the partial batch stays held |
| LegacyBuffer.TurnOther | src/operators/transform/buffer.rs:60 | NotReady and errors of the upstream pass through with the buffer kept |
| LegacyBuffer.PollConserves | src/operators/transform/buffer.rs:55-70 | every poll loses and duplicates nothing: what was held, then the items it pulled, equals the batch answered, then what is held after |
| LegacyBuffer.EndKeepsLeftover | src/operators/transform/buffer.rs:62-67 | an end keeps everything: the items held before and those pulled on this poll |
| LegacyBuffer.FullChunksPartition | src/operators/transform/buffer.rs:35-41 | the reference batching: the full batches followed by the leftover are the input, every batch has `max_count` items, and the leftover has fewer |
| LegacyBuffer.PollFills | src/operators/transform/buffer.rs:56-61 | when the next upstream items fill the buffer, one poll hands out what was held followed by them |
| LegacyBuffer.PollEndsShort | src/operators/transform/buffer.rs:62-67 | when the upstream ends before the buffer is full, the poll answers the end and holds everything |
| LegacyBuffer.LegacyRun | src/operators/transform/buffer.rs:55-70 | over any upstream with an end and enough polls: the full batches of the items before the end, in order, each on the poll that pulls its last item; the upstream's NotReady and errors passed on in between, in order; then the end with the leftover still held; then whatever the raw upstream gives after its end |
| LegacyBuffer.LegacyRunFrom | src/operators/transform/buffer.rs:55-70 | the same from a buffer already holding fewer than `max_count` items: the answers before the end are those of the reference `AnswersOver` |
| LegacyBuffer.AnswersOverBatches | src/operators/transform/buffer.rs:55-70 | the reference answers lose, duplicate and reorder nothing: their batches are the full batches of the held items followed by the stretch's items, what stays held is the leftover, and their other answers are exactly the stretch's NotReady, errors and ends, in order |
| LegacyBuffer.FiniteUpstream | src/operators/transform/buffer.rs:46-49 | the unfused upstream that answers at once: the full batches, then the end, and a partial trailing batch is never handed out; a further poll re-polls the spent upstream, which the model's used-up script answers with NotReady (a real spent iterator stream would answer its end again) |
| LegacyBuffer.TakeThreeBatches | tests/test_transform_operators.rs:15-19 | an upstream counting x0..x8 with count 3, taken 3 times, gives [[x0,x1,x2],[x3,x4,x5],[x6,x7,x8]] |
| LegacyBuffer.ZeroCountNeverPulls | src/operators/transform/buffer.rs:35-41 | with `max_count == 0` every poll hands out an empty batch and never polls the upstream |
| LegacyBuffer.BufferedStream.constructor | src/operators/transform/buffer.rs:74-80 | the fields equal `NewLegacy` |
| LegacyBuffer.BufferedStream.Poll | src/operators/transform/buffer.rs:55-70 | the in-place loop, inserting into the buffer and polling the upstream, follows `LegacyPoll` |

## Left out

- `merge`, `concat` (two streams), `combine_all` and `concat_all`, and the `RxStreamEx` glue in `src/operators/mod.rs` and `src/operators/combination/concat.rs`. They only wrap library combinators (`select`, `chain`, `collect` + `flatten_stream`) whose code is not part of this model.
- `src/source.rs`, `src/main.rs` and `src/lib.rs`. Their timers and iterator sources appear only as scripts of poll outcomes.
- Wakers, `Context`, pinning and real time. A clock reading is a `nat` parameter, and a timer is a script of ticks and `Pending`s. One poll of an engine sees one clock reading.
- The `Fuse` and `Fold`/`Join` futures of the futures library are modelled from their documented behaviour: `Futures01.PollFuse`, `Futures03.PollFuse`, `ForkJoinOp.FoldStep` and `ForkJoinOp.JoinStep`. Their code is not part of this model.
- An exhausted script answers "not ready" forever. A real upstream would stay pending until woken.
- Error values carry no meaning beyond their tag. Integer widths (`usize`, `u64`) are unbounded `nat`.
- `ConcatOp.ChainStep`: polling again after the end would index past the vector and panic. The model forbids that call by a precondition (`Pollable`) instead of modelling the panic.
- The unused `ControlledBufferValue` enum (`src/operators/transform/buffer.rs:7-11`).
- The `Buffer`, `BufferOpener` and `BufferCreator` traits are closed datatypes with one variant per implementation in the library: `Leaf`, `Opener`, `Creator` and `Buf`. A user-defined buffer is not modelled.
- Windows inside `OverlappedPolicy.OverlappedBuffer` and the engine's buffer inside `BufferedStreamEngine.BufferedStream` are values, not separate objects. The library owns them exclusively, so no aliasing is lost.
- `OverlappedPolicy.OverlappedPoll` and `OverlappedAfterDone` ask a window without a `cx`. The library's trait signature differs there, and the evident behaviour is modelled.
- `TimeBufferCreator` leaves out the associated type in the library. The model builds the evident time window.
- `TimeOpenerPolicy.TimeNewBuffer`: the fresh interval timer of `time_span` becomes the next given script. Without one it gets an empty script, which never ticks.
- `OverlappedCountStream.SlidingWindowsRun`: the whole-run equality with `SlidingWindows` is proved only for an upstream that never answers Pending (a script built by `Emit`). For an upstream that answers Pending before its end, the model proves only the engine's per-poll rule for Pending (`BufferedStreamEngine.LoopTurnPending`: the Pending is passed on as the answer of that poll) and the drain after the end (`DoneRunOnePerWindow`). The order of the windows over such a run is not proved.
- The overlapped time stream has its per-poll rules and the drain after the end (`DoneRunOnePerWindow`), but no whole-run lemma. Its windows depend on real timer wake-ups.
- `LegacyBuffer.LastChance`: no `ensures` of its own. Its rule is stated by `TurnEnd` and `EndKeepsLeftover`.
- `LegacyBuffer.LegacyPoll`: its ensures states only the frame (`max_count` kept, batch size, upstream consumed). The per-case rules are the `Turn*` lemmas, and conservation is `PollConserves`.
- `CombineLatestOp.VecStep` and `VecScan` state only that the slot vector keeps its size. Their rule is stated by `VecScanShape` and `VecStepRule`.
- `OverlappedPolicy.NewBuffer`: no `ensures` of its own. What it builds is stated by `CountNewBuffer` and `TimeNewBuffer`.
- `OverlappedPolicy.NewInternal`: no `ensures` of its own. Its result is stated by `OverlappedBuffer.Internal`.
- `OverlappedPolicy.NewOverlappedCount`: no `ensures` of its own. Its result is stated by `OverlappedBuffer.CountWindows` and `BufferedStreamEngine.NewOverlappedCountStream`.
- `OverlappedPolicy.NewOverlappedTime`: no `ensures` of its own. Its result is stated by `OverlappedBuffer.TimeWindows` and `BufferedStreamEngine.NewOverlappedTimeStream`.
