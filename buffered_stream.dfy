/** `BufferedStream`: a fused upstream and a buffer. Before the upstream has ended, each poll
    alternates between asking the buffer for a batch and pulling one item into it, until a batch
    is ready, the upstream is `Pending`, or the upstream ends (then the buffer has one last say).
    Once the upstream has ended, each poll only asks the buffer for what it has left, and nothing
    left means the end. The buffer is one of the library's buffers: a simple count or time
    buffer, or an overlapped one. */
module BufferedStreamEngine {
  import opened Wrappers
  import opened Futures03
  import opened CountBufferPolicy
  import opened TimeBufferPolicy
  import opened CountOpenerPolicy
  import opened TimeOpenerPolicy
  import opened OverlappedPolicy

  datatype Buf<V> = Simple(leaf: Leaf<V>) | Windows(windows: Overlapped<V>)

  function BufInsert<V>(b: Buf<V>, v: V, now: nat): (r: Buf<V>)
    ensures b.Simple? ==> r == Simple(LeafInsert(b.leaf, v))
    ensures b.Windows? ==> r == Windows(OverlappedInsert(b.windows, v, now))
  {
    match b
    case Simple(l) => Simple(LeafInsert(l, v))
    case Windows(o) => Windows(OverlappedInsert(o, v, now))
  }

  function BufPoll<V>(b: Buf<V>): (r: (Option<seq<V>>, Buf<V>))
    ensures b.Simple? ==> r == (LeafPoll(b.leaf).0, Simple(LeafPoll(b.leaf).1))
    ensures b.Windows? ==> r == (OverlappedPoll(b.windows).0, Windows(OverlappedPoll(b.windows).1))
  {
    match b
    case Simple(l) => var (o, l') := LeafPoll(l); (o, Simple(l'))
    case Windows(w) => var (o, w') := OverlappedPoll(w); (o, Windows(w'))
  }

  function BufAfterDone<V>(b: Buf<V>): (r: (Option<seq<V>>, Buf<V>))
    ensures b.Simple? ==> r == (LeafAfterDone(b.leaf).0, Simple(LeafAfterDone(b.leaf).1))
    ensures b.Windows? ==> r == (OverlappedAfterDone(b.windows).0, Windows(OverlappedAfterDone(b.windows).1))
  {
    match b
    case Simple(l) => var (o, l') := LeafAfterDone(l); (o, Simple(l'))
    case Windows(w) => var (o, w') := OverlappedAfterDone(w); (o, Windows(w'))
  }

  datatype Engine<V> = Engine(s: Fuse<V>, buffer: Buf<V>)

  /** A batch, or the end when the buffer has nothing. */
  function Answer<V>(o: Option<seq<V>>): (p: Poll<seq<V>>)
    ensures o.Some? ==> p == Item(o.value)
    ensures o.None? ==> p == End
  {
    if o.Some? then Item(o.value) else End
  }

  /** The pulling loop of `poll_next`, entered while the upstream has not ended. Each turn first
      asks the buffer; an item goes into the buffer and the loop goes on; `Pending` is passed on;
      the end of the upstream gives the buffer its after-the-end call, whose batch or absence is
      the answer. The loop only ever consumes a prefix of the upstream's script. */
  function EngineLoop<V>(st: Engine<V>, now: nat): (r: (Poll<seq<V>>, Engine<V>))
    requires !st.s.done
    ensures |r.1.s.script| <= |st.s.script|
    ensures r.1.s.script == st.s.script[|st.s.script| - |r.1.s.script|..]
    ensures r.1.buffer.Simple? == st.buffer.Simple?
    ensures r.0.End? ==> r.1.s.done
    ensures r.0.Pending? ==> !r.1.s.done
    decreases |st.s.script|
  {
    var (out, b1) := BufPoll(st.buffer);
    if out.Some? then (Item(out.value), Engine(st.s, b1))
    else
      var (p, f) := PollFuse(st.s);
      match p
      case Pending => (Pending, Engine(f, b1))
      case Item(v) => EngineLoop(Engine(f, BufInsert(b1, v, now)), now)
      case End => var (last, b2) := BufAfterDone(b1); (Answer(last), Engine(f, b2))
  }

  /** `BufferedStream::poll_next`, with `now` the clock reading the time openers see during this
      poll. Once the upstream has ended it is never polled again and the answer is never
      `Pending`; `End` is only ever answered with the upstream ended. */
  function EngineStep<V>(st: Engine<V>, now: nat): (r: (Poll<seq<V>>, Engine<V>))
    ensures st.s.done ==> r.1.s == st.s && !r.0.Pending?
    ensures st.s.done ==> r == (Answer(BufAfterDone(st.buffer).0), Engine(st.s, BufAfterDone(st.buffer).1))
    ensures !st.s.done ==> r == EngineLoop(st, now)
    ensures r.0.End? ==> r.1.s.done
    ensures r.1.buffer.Simple? == st.buffer.Simple?
    ensures |r.1.s.script| <= |st.s.script|
  {
    if st.s.done then
      var (last, b) := BufAfterDone(st.buffer);
      (Answer(last), Engine(st.s, b))
    else EngineLoop(st, now)
  }

  /** The batches handed out by successive polls at clock readings `ts`, up to the end. */
  function EngineRun<V>(st: Engine<V>, ts: seq<nat>): seq<seq<V>>
    decreases |ts|
  {
    if ts == [] then []
    else
      var (p, st') := EngineStep(st, ts[0]);
      match p
      case Item(b) => [b] + EngineRun(st', ts[1..])
      case End => []
      case Pending => EngineRun(st', ts[1..])
  }

  // Constructors of the buffered streams.

  /** `SimpleCountBufferedStream::new`. */
  function NewCountStream<V>(upstream: Script<V>, maxCount: nat): (st: Engine<V>)
    ensures st.s == Fused(upstream) && st.buffer == Simple(CountLeaf(CountBuffer([], maxCount)))
  {
    Engine(Fused(upstream), Simple(CountLeaf(NewCountBuffer(maxCount))))
  }

  /** `SimpleTimeBufferredStream::new` and `new_with_timer_stream`: the timer is given as the
      script of its answers. */
  function NewTimeStream<V>(upstream: Script<V>, timer: Timer): (st: Engine<V>)
    ensures st.s == Fused(upstream) && st.buffer == Simple(TimeLeaf(TimeBuffer([], timer)))
  {
    Engine(Fused(upstream), Simple(TimeLeaf(NewTimeBuffer(timer))))
  }

  /** `OverlappedCountBufferedStream::new`. */
  function NewOverlappedCountStream<V>(upstream: Script<V>, maxCount: nat, skip: nat): (st: Engine<V>)
    ensures st.s == Fused(upstream) && st.buffer.Windows?
    ensures st.buffer.windows.buffers == [CountLeaf(CountBuffer([], maxCount))]
    ensures st.buffer.windows.opener == CountOpen(CountOpener(skip, 0)) && st.buffer.windows.creator == CountCreate(maxCount)
  {
    Engine(Fused(upstream), Windows(NewOverlappedCount(maxCount, skip)))
  }

  /** `OverlappedTimeBufferedStream::new`, constructed at clock reading `now`. */
  function NewOverlappedTimeStream<V>(upstream: Script<V>, timeSpan: nat, creationInterval: nat, now: nat, timers: seq<Timer>): (st: Engine<V>)
    ensures st.s == Fused(upstream) && st.buffer.Windows?
    ensures st.buffer.windows.buffers == [TimeLeaf(TimeBuffer([], if timers == [] then [] else timers[0]))]
    ensures st.buffer.windows.opener == TimeOpen(TimeOpener(creationInterval, now))
    ensures st.buffer.windows.creator == TimeCreate(TimeCreator(timeSpan, if timers == [] then [] else timers[1..]))
  {
    Engine(Fused(upstream), Windows(NewOverlappedTime(timeSpan, creationInterval, now, timers)))
  }

  // Simple buffers lose, duplicate and reorder nothing while the upstream runs.

  function Batch<V>(p: Poll<seq<V>>): seq<V>
  {
    if p.Item? then p.value else []
  }

  // The four ways a turn of the loop can go.

  lemma LoopTurnReady<V>(st: Engine<V>, now: nat)
    requires !st.s.done && BufPoll(st.buffer).0.Some?
    ensures EngineLoop(st, now) == (Item(BufPoll(st.buffer).0.value), Engine(st.s, BufPoll(st.buffer).1))
  {
  }

  lemma LoopTurnItem<V>(st: Engine<V>, now: nat)
    requires !st.s.done && BufPoll(st.buffer).0.None? && PollFuse(st.s).0.Item?
    ensures EngineLoop(st, now)
      == EngineLoop(Engine(PollFuse(st.s).1, BufInsert(BufPoll(st.buffer).1, PollFuse(st.s).0.value, now)), now)
  {
  }

  lemma LoopTurnPending<V>(st: Engine<V>, now: nat)
    requires !st.s.done && BufPoll(st.buffer).0.None? && PollFuse(st.s).0.Pending?
    ensures EngineLoop(st, now) == (Pending, Engine(PollFuse(st.s).1, BufPoll(st.buffer).1))
  {
  }

  lemma LoopTurnEnd<V>(st: Engine<V>, now: nat)
    requires !st.s.done && BufPoll(st.buffer).0.None? && PollFuse(st.s).0.End?
    ensures EngineLoop(st, now)
      == (Answer(BufAfterDone(BufPoll(st.buffer).1).0), Engine(PollFuse(st.s).1, BufAfterDone(BufPoll(st.buffer).1).1))
  {
  }

  /** Pulling one entry off a script moves its item, if any, out of the items still to come. */
  lemma ItemsOfPull<V>(f: Fuse<V>)
    requires !f.done
    ensures ItemsOf(f.script) == (if PollFuse(f).0.Item? then [PollFuse(f).0.value] else []) + ItemsOf(PollFuse(f).1.script)
  {
  }

  /** Conservation over one poll's outcome `r` from state `st`. */
  ghost predicate Conserved<V>(st: Engine<V>, r: (Poll<seq<V>>, Engine<V>))
  {
    st.buffer.Simple? && r.1.buffer.Simple?
    && Held(st.buffer.leaf) + ItemsOf(st.s.script) == Batch(r.0) + Held(r.1.buffer.leaf) + ItemsOf(r.1.s.script)
  }

  lemma ConservesReady<V>(st: Engine<V>, now: nat)
    requires !st.s.done && st.buffer.Simple? && BufPoll(st.buffer).0.Some?
    ensures Conserved(st, EngineLoop(st, now))
  {
    LoopTurnReady(st, now);
  }

  /** Pulling an item into a simple buffer keeps the conserved sum: it leaves what is still to
      come and joins what is held. */
  lemma ConservesItem<V>(st: Engine<V>, now: nat, r: (Poll<seq<V>>, Engine<V>))
    requires !st.s.done && st.buffer.Simple? && BufPoll(st.buffer).0.None? && PollFuse(st.s).0.Item?
    requires Conserved(Engine(PollFuse(st.s).1, BufInsert(BufPoll(st.buffer).1, PollFuse(st.s).0.value, now)), r)
    ensures Conserved(st, r)
  {
    var v := PollFuse(st.s).0.value;
    var b1 := BufPoll(st.buffer).1;
    var st1 := Engine(PollFuse(st.s).1, BufInsert(b1, v, now));
    ItemsOfPull(st.s);
    var h, rest := Held(st.buffer.leaf), ItemsOf(st1.s.script);
    assert Held(st1.buffer.leaf) == h + [v];
    assert h + ([v] + rest) == (h + [v]) + rest;
  }

  lemma ConservesPending<V>(st: Engine<V>, now: nat)
    requires !st.s.done && st.buffer.Simple? && BufPoll(st.buffer).0.None? && PollFuse(st.s).0.Pending?
    ensures Conserved(st, EngineLoop(st, now))
  {
    LoopTurnPending(st, now);
    ItemsOfPull(st.s);
  }

  lemma ConservesEnd<V>(st: Engine<V>, now: nat)
    requires !st.s.done && st.buffer.Simple? && BufPoll(st.buffer).0.None? && PollFuse(st.s).0.End?
    ensures Conserved(st, EngineLoop(st, now))
  {
    LoopTurnEnd(st, now);
    ItemsOfPull(st.s);
  }

  /** Over a simple buffer, the loop conserves items: what was held followed by what the upstream
      has still to give equals what is handed out, followed by what is held afterwards, followed
      by what the upstream has still to give afterwards. */
  lemma {:induction false} LoopConserves<V>(st: Engine<V>, now: nat)
    requires !st.s.done && st.buffer.Simple?
    ensures Conserved(st, EngineLoop(st, now))
    decreases |st.s.script|
  {
    if BufPoll(st.buffer).0.Some? {
      ConservesReady(st, now);
    } else {
      var q := PollFuse(st.s).0;
      if q.Item? {
        var st1 := Engine(PollFuse(st.s).1, BufInsert(BufPoll(st.buffer).1, q.value, now));
        LoopConserves(st1, now);
        LoopTurnItem(st, now);
        ConservesItem(st, now, EngineLoop(st1, now));
      } else if q.Pending? {
        ConservesPending(st, now);
      } else {
        ConservesEnd(st, now);
      }
    }
  }

  /** Every poll of a stream over a simple buffer conserves items in the same sense: nothing is
      lost, duplicated or reordered while the upstream runs and after it has ended. */
  lemma SimpleConserves<V>(st: Engine<V>, now: nat)
    requires st.buffer.Simple?
    ensures Conserved(st, EngineStep(st, now))
  {
    if !st.s.done {
      LoopConserves(st, now);
    }
  }

  // Count buffers.

  /** The batches a count buffer of `m` should make of `xs`: full batches of `m` and, at the end,
      whatever is left, if anything. */
  function Chunks<T>(xs: seq<T>, m: nat): (cs: seq<seq<T>>)
    requires m >= 1
    decreases |xs|
  {
    if xs == [] then []
    else if |xs| <= m then [xs]
    else [xs[..m]] + Chunks(xs[m..], m)
  }

  /** `Chunks` partitions its input: laid end to end the batches are `xs`, all have `m` items
      but the last, which has between 1 and `m`. */
  lemma {:induction false} ChunksPartition<T>(xs: seq<T>, m: nat)
    requires m >= 1
    ensures Flatten(Chunks(xs, m)) == xs
    ensures forall i :: 0 <= i < |Chunks(xs, m)| - 1 ==> |Chunks(xs, m)[i]| == m
    ensures |Chunks(xs, m)| > 0 ==> 1 <= |Chunks(xs, m)[|Chunks(xs, m)| - 1]| <= m
    decreases |xs|
  {
    if |xs| > m {
      var cs := Chunks(xs, m);
      ChunksPartition(xs[m..], m);
      assert cs[1..] == Chunks(xs[m..], m);
      assert xs == xs[..m] + xs[m..];
    }
  }

  /** A count stream holding `h`, over the upstream script `s`. */
  function CountStream<V>(h: seq<V>, s: Script<V>, m: nat): Engine<V>
  {
    Engine(Fused(s), Simple(CountLeaf(CountBuffer(h, m))))
  }

  lemma EmitTail<V>(ys: seq<V>)
    requires ys != []
    ensures PollFuse(Fused(Emit(ys))) == (Item(ys[0]), Fused(Emit(ys[1..])))
  {
    assert Emit(ys)[1..] == Emit(ys[1..]);
  }

  /** One of the polls at clock readings `ts` answers the end. */
  predicate EngineEnds<V>(st: Engine<V>, ts: seq<nat>)
    decreases |ts|
  {
    ts != [] && (EngineStep(st, ts[0]).0.End? || EngineEnds(EngineStep(st, ts[0]).1, ts[1..]))
  }

  /** A poll that hands out a batch contributes it to the run. */
  lemma RunItem<V>(st: Engine<V>, ts: seq<nat>, b: seq<V>, st': Engine<V>)
    requires ts != [] && EngineStep(st, ts[0]) == (Item(b), st')
    ensures EngineRun(st, ts) == [b] + EngineRun(st', ts[1..])
    ensures EngineEnds(st, ts) == EngineEnds(st', ts[1..])
  {
  }

  /** A `Pending` poll contributes nothing to the run. */
  lemma RunPending<V>(st: Engine<V>, ts: seq<nat>, st': Engine<V>)
    requires ts != [] && EngineStep(st, ts[0]) == (Pending, st')
    ensures EngineRun(st, ts) == EngineRun(st', ts[1..])
    ensures EngineEnds(st, ts) == EngineEnds(st', ts[1..])
  {
  }

  /** A poll that answers the end ends the run. */
  lemma RunEnd<V>(st: Engine<V>, ts: seq<nat>)
    requires ts != [] && EngineStep(st, ts[0]).0 == End
    ensures EngineRun(st, ts) == [] && EngineEnds(st, ts)
  {
  }

  /** Two states whose next poll goes alike have the same run. */
  lemma RunSame<V>(st: Engine<V>, st1: Engine<V>, ts: seq<nat>)
    requires ts != [] && EngineStep(st, ts[0]) == EngineStep(st1, ts[0])
    ensures EngineRun(st, ts) == EngineRun(st1, ts)
    ensures EngineEnds(st, ts) == EngineEnds(st1, ts)
  {
  }

  lemma ChunksStep<T>(xs: seq<T>, m: nat)
    requires 1 <= m <= |xs|
    ensures Chunks(xs, m) == [xs[..m]] + Chunks(xs[m..], m)
  {
    if |xs| == m {
      assert xs[..m] == xs;
      assert xs[m..] == [];
    }
  }

  /** The count stream that has met the end of its upstream and has handed out everything. */
  function CountEnded<V>(rest: Script<V>, m: nat): Engine<V>
  {
    Engine(Fuse(rest, true), Simple(CountLeaf(CountBuffer([], m))))
  }

  lemma CountEndedEnds<V>(rest: Script<V>, m: nat, ts: seq<nat>)
    requires ts != []
    ensures EngineRun(CountEnded(rest, m), ts) == [] && EngineEnds(CountEnded(rest, m), ts)
  {
    assert EngineStep(CountEnded(rest, m), ts[0]).0 == End;
    RunEnd(CountEnded(rest, m), ts);
  }

  // The ways a poll of a count stream that is not full can go, by the next upstream answer.

  /** An item that does not fill the batch goes in, and the same poll goes on. */
  lemma CountTurn<V>(h: seq<V>, s: Script<V>, m: nat, now: nat)
    requires |h| + 1 < m && s != [] && s[0].Item?
    ensures EngineStep(CountStream(h, s, m), now) == EngineStep(CountStream(h + [s[0].value], s[1..], m), now)
  {
    LoopTurnItem(CountStream(h, s, m), now);
  }

  /** An item that fills the batch: the batch is handed out. */
  lemma CountFill<V>(h: seq<V>, s: Script<V>, m: nat, now: nat)
    requires |h| + 1 == m && s != [] && s[0].Item?
    ensures EngineStep(CountStream(h, s, m), now) == (Item(h + [s[0].value]), CountStream([], s[1..], m))
  {
    LoopTurnItem(CountStream(h, s, m), now);
    LoopTurnReady(CountStream(h + [s[0].value], s[1..], m), now);
  }

  lemma CountPending<V>(h: seq<V>, s: Script<V>, m: nat, now: nat)
    requires |h| < m && s != [] && s[0].Pending?
    ensures EngineStep(CountStream(h, s, m), now) == (Pending, CountStream(h, s[1..], m))
  {
    LoopTurnPending(CountStream(h, s, m), now);
  }

  /** The end of the upstream: the leftover is handed out, if there is one, and otherwise the
      stream ends. */
  lemma CountEnd<V>(h: seq<V>, s: Script<V>, m: nat, now: nat)
    requires |h| < m && s != [] && s[0].End?
    ensures EngineStep(CountStream(h, s, m), now) == (if h == [] then End else Item(h), CountEnded(s[1..], m))
  {
    LoopTurnEnd(CountStream(h, s, m), now);
  }

  /** A count stream holding `h` over a finite upstream, with two polls more than the upstream
      has answers before its end: it hands out the `Chunks` of the held items followed by the
      upstream's items, whatever `Pending`s come between them, and then ends. */
  lemma {:induction false} CountRunClean<V>(h: seq<V>, s: Script<V>, m: nat, ts: seq<nat>)
    requires |h| < m && HasEnd(s) && |ts| >= |BeforeEnd(s)| + 2
    ensures EngineRun(CountStream(h, s, m), ts) == Chunks(h + ItemsOf(BeforeEnd(s)), m)
    ensures EngineEnds(CountStream(h, s, m), ts)
    decreases |s|
  {
    var st := CountStream(h, s, m);
    if s[0].End? {
      CountEnd(h, s, m, ts[0]);
      assert h + ItemsOf(BeforeEnd(s)) == h;
      CountEndedEnds(s[1..], m, ts[1..]);
      if h == [] {
        RunEnd(st, ts);
      } else {
        RunItem(st, ts, h, CountEnded(s[1..], m));
      }
    } else {
      var rest := ItemsOf(BeforeEnd(s[1..]));
      assert BeforeEnd(s) == [s[0]] + BeforeEnd(s[1..]);
      ItemsOfAppend([s[0]], BeforeEnd(s[1..]));
      if s[0].Pending? {
        CountPending(h, s, m, ts[0]);
        RunPending(st, ts, CountStream(h, s[1..], m));
        CountRunClean(h, s[1..], m, ts[1..]);
        assert ItemsOf(BeforeEnd(s)) == rest;
      } else {
        var h' := h + [s[0].value];
        assert ItemsOf(BeforeEnd(s)) == [s[0].value] + rest;
        assert h + ItemsOf(BeforeEnd(s)) == h' + rest;
        if |h'| < m {
          CountTurn(h, s, m, ts[0]);
          RunSame(st, CountStream(h', s[1..], m), ts);
          CountRunClean(h', s[1..], m, ts);
        } else {
          CountFill(h, s, m, ts[0]);
          RunItem(st, ts, h', CountStream([], s[1..], m));
          CountRunClean([], s[1..], m, ts[1..]);
          assert [] + rest == rest;
          assert (h' + rest)[..m] == h' && (h' + rest)[m..] == rest;
          ChunksStep(h' + rest, m);
        }
      }
    }
  }

  /** A count stream of `m >= 1` over any finite upstream, polled two times more than the
      upstream has answers before its end, hands out exactly `Chunks` of the upstream's items:
      full batches of `m`, in order, then the leftover if there is one, and then ends. */
  lemma CountBatches<V>(s: Script<V>, m: nat, ts: seq<nat>)
    requires m >= 1 && HasEnd(s) && |ts| >= |BeforeEnd(s)| + 2
    ensures EngineRun(NewCountStream(s, m), ts) == Chunks(ItemsOf(BeforeEnd(s)), m)
    ensures EngineEnds(NewCountStream(s, m), ts)
  {
    assert [] + ItemsOf(BeforeEnd(s)) == ItemsOf(BeforeEnd(s));
    CountRunClean([], s, m, ts);
  }

  /** Between polls a count buffer of `m >= 1` holds fewer than `m` items. */
  lemma {:induction false} CountHoldBound<V>(st: Engine<V>, now: nat)
    requires st.buffer.Simple? && st.buffer.leaf.CountLeaf?
    requires 1 <= st.buffer.leaf.count.maxCount && |st.buffer.leaf.count.vec| < st.buffer.leaf.count.maxCount
    ensures var st' := EngineStep(st, now).1;
      st'.buffer.Simple? && st'.buffer.leaf.CountLeaf?
      && st'.buffer.leaf.count.maxCount == st.buffer.leaf.count.maxCount
      && |st'.buffer.leaf.count.vec| < st'.buffer.leaf.count.maxCount
    decreases |st.s.script|
  {
    if !st.s.done {
      var (p, f) := PollFuse(st.s);
      var c := st.buffer.leaf.count;
      if p.Item? {
        var c' := CountInsert(c, p.value);
        if |c'.vec| < c.maxCount {
          CountHoldBound(Engine(f, Simple(CountLeaf(c'))), now);
        } else {
          assert EngineLoop(Engine(f, Simple(CountLeaf(c'))), now).1.buffer.leaf.count.vec == [];
        }
      }
    }
  }

  /** `buffer(0)`: a count stream of size zero hands out an empty batch on every poll and never
      pulls its upstream. */
  lemma ZeroCountNeverPulls<V>(f: Fuse<V>, now: nat)
    requires !f.done
    ensures EngineStep(Engine(f, Simple(CountLeaf(CountBuffer([], 0)))), now)
      == (Item([]), Engine(f, Simple(CountLeaf(CountBuffer([], 0)))))
  {
  }

  // Time buffers.

  /** After the upstream ends, a time buffer's leftover is handed out only if its timer is ready
      at that poll; if the timer is `Pending`, the stream ends and the held items are dropped. */
  lemma TimeLeftoverNeedsTick<V>(s: Fuse<V>, b: TimeBuffer<V>, now: nat)
    requires s.done
    ensures var (p, _) := EngineStep(Engine(s, Simple(TimeLeaf(b))), now);
      (Pull(b.control).0.Pending? ==> p == End)
      && (!Pull(b.control).0.Pending? ==> p == Item(b.vec))
  {
  }

  // Overlapped buffers.

  /** Once the upstream has ended, an overlapped stream hands out what draining its queue does. */
  lemma {:induction false} DoneRunDrains<V>(s: Fuse<V>, o: Overlapped<V>, ts: seq<nat>)
    requires s.done
    ensures EngineRun(Engine(s, Windows(o)), ts) == Drain(o, |ts|)
    decreases |ts|
  {
    if ts != [] && o.buffers != [] {
      DoneRunDrains(s, o.(buffers := o.buffers[1..]), ts[1..]);
    }
  }

  /** ... so with enough polls it hands out exactly one batch per window still open at the end,
      oldest first, each its leftover or empty, and then ends. */
  lemma DoneRunOnePerWindow<V>(s: Fuse<V>, o: Overlapped<V>, ts: seq<nat>)
    requires s.done && |ts| >= |o.buffers|
    ensures |EngineRun(Engine(s, Windows(o)), ts)| == |o.buffers|
    ensures forall i :: 0 <= i < |o.buffers| ==>
      EngineRun(Engine(s, Windows(o)), ts)[i] == (if LeafAfterDone(o.buffers[i]).0.Some? then Held(o.buffers[i]) else [])
    ensures |ts| > |o.buffers| ==> EngineEnds(Engine(s, Windows(o)), ts)
  {
    DoneRunDrains(s, o, ts);
    DrainOnePerWindow(o, |ts|);
    if |ts| > |o.buffers| {
      DoneEnds(s, o, ts);
    }
  }

  /** Once the upstream has ended, an overlapped stream polled more times than it has windows
      answers the end on one of those polls. */
  lemma {:induction false} DoneEnds<V>(s: Fuse<V>, o: Overlapped<V>, ts: seq<nat>)
    requires s.done && |ts| > |o.buffers|
    ensures EngineEnds(Engine(s, Windows(o)), ts)
    decreases |ts|
  {
    if o.buffers != [] {
      DoneEnds(s, o.(buffers := o.buffers[1..]), ts[1..]);
    }
  }

  class BufferedStream<V> {
    var s: Fuse<V>
    var buffer: Buf<V>

    function State(): Engine<V>
      reads this
    {
      Engine(s, buffer)
    }

    constructor (upstream: Script<V>, buffer: Buf<V>)
      ensures State() == Engine(Fused(upstream), buffer)
    {
      s := Fused(upstream);
      this.buffer := buffer;
    }

    method PollNext(now: nat) returns (r: Poll<seq<V>>)
      modifies this
      ensures (r, State()) == EngineStep(old(State()), now)
    {
      if s.done {
        var (last, b) := BufAfterDone(buffer);
        buffer := b;
        return Answer(last);
      }
      while true
        invariant !s.done
        invariant EngineLoop(State(), now) == EngineStep(old(State()), now)
        decreases |s.script|
      {
        var st := State();
        var (out, b1) := BufPoll(buffer);
        buffer := b1;
        if out.Some? {
          LoopTurnReady(st, now);
          return Item(out.value);
        }
        var (p, f) := PollFuse(s);
        s := f;
        match p {
          case Pending =>
            LoopTurnPending(st, now);
            return Pending;
          case Item(v) =>
            buffer := BufInsert(buffer, v, now);
            LoopTurnItem(st, now);
          case End =>
            var (last, b2) := BufAfterDone(buffer);
            buffer := b2;
            LoopTurnEnd(st, now);
            return Answer(last);
        }
      }
    }
  }
}
