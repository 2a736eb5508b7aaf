/** `OverlappedBuffer`: a queue of child windows. Every inserted item goes to every open window;
    the opener decides, per insert, whether a new window opens behind them; only the oldest
    window is ever asked for its batch. The children, openers and creators form the closed sets
    the library instantiates: count windows with a count opener, time windows with a time
    opener. */
module OverlappedPolicy {
  import opened Wrappers
  import opened Futures03
  import opened CountBufferPolicy
  import opened TimeBufferPolicy
  import opened CountOpenerPolicy
  import opened TimeOpenerPolicy

  /** A leaf buffer: `SimpleCountBuffer` or `SimpleTimeBuffer`. */
  datatype Leaf<V> = CountLeaf(count: CountBuffer<V>) | TimeLeaf(time: TimeBuffer<V>)

  /** What a leaf holds. */
  function Held<V>(b: Leaf<V>): seq<V>
  {
    match b
    case CountLeaf(c) => c.vec
    case TimeLeaf(t) => t.vec
  }

  function LeafInsert<V>(b: Leaf<V>, v: V): (r: Leaf<V>)
    ensures Held(r) == Held(b) + [v]
    ensures r.CountLeaf? == b.CountLeaf?
  {
    match b
    case CountLeaf(c) => CountLeaf(CountInsert(c, v))
    case TimeLeaf(t) => TimeLeaf(TimeInsert(t, v))
  }

  function LeafPoll<V>(b: Leaf<V>): (r: (Option<seq<V>>, Leaf<V>))
    ensures r.1.CountLeaf? == b.CountLeaf?
    ensures r.0.Some? ==> r.0.value == Held(b) && Held(r.1) == []
    ensures r.0.None? ==> Held(r.1) == Held(b)
  {
    match b
    case CountLeaf(c) => var (o, c') := CountPoll(c); (o, CountLeaf(c'))
    case TimeLeaf(t) => var (o, t') := TimePoll(t); (o, TimeLeaf(t'))
  }

  /** `poll_buffer_after_done`: the count buffer's own, and for the time buffer the trait's
      default, which is its `poll_buffer`. */
  function LeafAfterDone<V>(b: Leaf<V>): (r: (Option<seq<V>>, Leaf<V>))
    ensures r.1.CountLeaf? == b.CountLeaf?
    ensures r.0.Some? ==> r.0.value == Held(b) && Held(r.1) == []
    ensures r.0.None? ==> Held(r.1) == Held(b)
    ensures b.TimeLeaf? ==> r == LeafPoll(b)
  {
    match b
    case CountLeaf(c) => var (o, c') := CountAfterDone(c); (o, CountLeaf(c'))
    case TimeLeaf(t) => var (o, t') := TimePoll(t); (o, TimeLeaf(t'))
  }

  /** A count leaf hands out its leftover after the end exactly when it holds something. */
  lemma CountLeafAfterDone<V>(c: CountBuffer<V>)
    ensures LeafAfterDone(CountLeaf(c)).0.Some? <==> |c.vec| > 0
  {
  }

  datatype Opener = CountOpen(count: CountOpener) | TimeOpen(time: TimeOpener)

  /** `check_open`; only the time opener reads the clock. */
  function CheckOpen(o: Opener, now: nat): (r: (bool, Opener))
    ensures o.CountOpen? ==> r == (CountCheckOpen(o.count).0, CountOpen(CountCheckOpen(o.count).1))
    ensures o.TimeOpen? ==> r == (TimeCheckOpen(o.time, now).0, TimeOpen(TimeCheckOpen(o.time, now).1))
  {
    match o
    case CountOpen(c) => var (b, c') := CountCheckOpen(c); (b, CountOpen(c'))
    case TimeOpen(t) => var (b, t') := TimeCheckOpen(t, now); (b, TimeOpen(t'))
  }

  datatype Creator = CountCreate(maxCount: nat) | TimeCreate(tc: TimeCreator)

  /** `new_buffer`: always an empty window. */
  function NewBuffer<V>(c: Creator): (Leaf<V>, Creator)
  {
    match c
    case CountCreate(m) => (CountLeaf(CountNewBuffer(m)), c)
    case TimeCreate(t) => var (b, t') := TimeNewBuffer(t); (TimeLeaf(b), TimeCreate(t'))
  }

  datatype Overlapped<V> = Overlapped(buffers: seq<Leaf<V>>, opener: Opener, creator: Creator)

  /** `OverlappedBuffer::new_internal`: no window yet. */
  function NewInternal<V>(opener: Opener, creator: Creator): Overlapped<V>
  {
    Overlapped([], opener, creator)
  }

  /** Every child gets the item. */
  function InsertAll<V>(bs: seq<Leaf<V>>, v: V): (r: seq<Leaf<V>>)
    ensures |r| == |bs| && forall i :: 0 <= i < |bs| ==> r[i] == LeafInsert(bs[i], v)
  {
    seq(|bs|, i requires 0 <= i < |bs| => LeafInsert(bs[i], v))
  }

  /** `insert`: a copy of the item to every window, in queue order; then the opener is asked once,
      and on yes a fresh empty window (which has not seen this item) joins at the back. */
  function OverlappedInsert<V>(o: Overlapped<V>, v: V, now: nat): (r: Overlapped<V>)
    ensures var (opens, opener') := CheckOpen(o.opener, now);
      r.opener == opener'
      && |r.buffers| == |o.buffers| + (if opens then 1 else 0)
      && (opens ==> r.buffers[|o.buffers|] == NewBuffer<V>(o.creator).0 && Held(r.buffers[|o.buffers|]) == []
                    && r.creator == NewBuffer<V>(o.creator).1)
      && (!opens ==> r.creator == o.creator)
    ensures forall i :: 0 <= i < |o.buffers| ==> r.buffers[i] == LeafInsert(o.buffers[i], v)
  {
    var bs := InsertAll(o.buffers, v);
    var (opens, opener') := CheckOpen(o.opener, now);
    if opens then
      var (b, creator') := NewBuffer(o.creator);
      Overlapped(bs + [b], opener', creator')
    else Overlapped(bs, opener', o.creator)
  }

  /** `poll_buffer`: only the oldest window is asked; when it hands out a batch it leaves the
      queue, otherwise it stays at the front; nothing else changes. An empty queue has nothing. */
  function OverlappedPoll<V>(o: Overlapped<V>): (r: (Option<seq<V>>, Overlapped<V>))
    ensures o.buffers == [] ==> r == (None, o)
    ensures o.buffers != [] ==> r.0 == LeafPoll(o.buffers[0]).0
    ensures o.buffers != [] && r.0.Some? ==> r.1 == o.(buffers := o.buffers[1..])
    ensures o.buffers != [] && r.0.None? ==> r.1 == o.(buffers := [LeafPoll(o.buffers[0]).1] + o.buffers[1..])
  {
    if o.buffers == [] then (None, o)
    else
      var (res, front') := LeafPoll(o.buffers[0]);
      if res.Some? then (res, o.(buffers := o.buffers[1..]))
      else (None, o.(buffers := [front'] + o.buffers[1..]))
  }

  /** `poll_buffer_after_done`: the oldest window leaves the queue and hands out its leftover, or
      an empty batch if it has none, so that draining goes on to the next window; only an empty
      queue has nothing. */
  function OverlappedAfterDone<V>(o: Overlapped<V>): (r: (Option<seq<V>>, Overlapped<V>))
    ensures o.buffers == [] ==> r == (None, o)
    ensures o.buffers != [] ==> r.1 == o.(buffers := o.buffers[1..])
    ensures o.buffers != [] ==> r.0.Some?
    ensures o.buffers != [] ==> r.0.value == (if LeafAfterDone(o.buffers[0]).0.Some? then Held(o.buffers[0]) else [])
  {
    if o.buffers == [] then (None, o)
    else
      var (res, _) := LeafAfterDone(o.buffers[0]);
      (Some(if res.Some? then res.value else []), o.(buffers := o.buffers[1..]))
  }

  /** `OverlappedCountBuffer::new`: one empty count window, a count opener at zero. */
  function NewOverlappedCount<V>(maxCount: nat, skip: nat): Overlapped<V>
  {
    var r := NewInternal(CountOpen(CountOpener(skip, 0)), CountCreate(maxCount));
    var (b, c) := NewBuffer(r.creator);
    r.(buffers := r.buffers + [b], creator := c)
  }

  /** `OverlappedTimeBuffer::new`: one empty time window, and a time opener whose last opening is
      the construction time. */
  function NewOverlappedTime<V>(timeSpan: nat, creationInterval: nat, now: nat, timers: seq<Timer>): Overlapped<V>
  {
    var r := NewInternal(TimeOpen(NewTimeOpener(creationInterval, now)), TimeCreate(TimeCreator(timeSpan, timers)));
    var (b, c) := NewBuffer(r.creator);
    r.(buffers := r.buffers + [b], creator := c)
  }

  /** The batches `n` drain calls hand out. */
  function Drain<V>(o: Overlapped<V>, n: nat): seq<seq<V>>
    decreases n
  {
    if n == 0 then []
    else
      var (r, o') := OverlappedAfterDone(o);
      if r.None? then [] else [r.value] + Drain(o', n - 1)
  }

  /** Draining hands out one batch per queued window, oldest first, then nothing. */
  lemma {:induction false} DrainOnePerWindow<V>(o: Overlapped<V>, n: nat)
    requires n >= |o.buffers|
    ensures |Drain(o, n)| == |o.buffers|
    ensures forall i :: 0 <= i < |o.buffers| ==>
      Drain(o, n)[i] == (if LeafAfterDone(o.buffers[i]).0.Some? then Held(o.buffers[i]) else [])
    decreases n
  {
    if n > 0 && o.buffers != [] {
      var o' := o.(buffers := o.buffers[1..]);
      DrainOnePerWindow(o', n - 1);
      forall i | 0 < i < |o.buffers|
        ensures Drain(o, n)[i] == (if LeafAfterDone(o.buffers[i]).0.Some? then Held(o.buffers[i]) else [])
      {
        assert Drain(o, n)[i] == Drain(o', n - 1)[i - 1];
        assert o'.buffers[i - 1] == o.buffers[i];
      }
    }
  }

  class OverlappedBuffer<V> {
    var buffers: seq<Leaf<V>>
    var opener: Opener
    var creator: Creator

    function Model(): Overlapped<V>
      reads this
    {
      Overlapped(buffers, opener, creator)
    }

    constructor Internal(opener: Opener, creator: Creator)
      ensures Model() == NewInternal(opener, creator)
      ensures buffers == [] && this.opener == opener && this.creator == creator
    {
      buffers := [];
      this.opener := opener;
      this.creator := creator;
    }

    constructor CountWindows(maxCount: nat, skip: nat)
      ensures Model() == NewOverlappedCount(maxCount, skip)
      ensures buffers == [CountLeaf(CountBuffer([], maxCount))]
      ensures opener == CountOpen(CountOpener(skip, 0)) && creator == CountCreate(maxCount)
    {
      buffers := [];
      opener := CountOpen(CountOpener(skip, 0));
      creator := CountCreate(maxCount);
      new;
      var (b, c) := NewBuffer(creator);
      creator := c;
      buffers := buffers + [b];
    }

    constructor TimeWindows(timeSpan: nat, creationInterval: nat, now: nat, timers: seq<Timer>)
      ensures Model() == NewOverlappedTime(timeSpan, creationInterval, now, timers)
      ensures buffers == [TimeLeaf(TimeBuffer([], if timers == [] then [] else timers[0]))]
      ensures opener == TimeOpen(NewTimeOpener(creationInterval, now))
      ensures creator == TimeCreate(TimeCreator(timeSpan, if timers == [] then [] else timers[1..]))
    {
      buffers := [];
      opener := TimeOpen(NewTimeOpener(creationInterval, now));
      creator := TimeCreate(TimeCreator(timeSpan, timers));
      new;
      var (b, c) := NewBuffer(creator);
      creator := c;
      buffers := buffers + [b];
    }

    method Insert(v: V, now: nat)
      modifies this
      ensures Model() == OverlappedInsert(old(Model()), v, now)
    {
      for i := 0 to |buffers|
        invariant opener == old(opener) && creator == old(creator)
        invariant |buffers| == |old(buffers)|
        invariant forall j :: 0 <= j < i ==> buffers[j] == LeafInsert(old(buffers)[j], v)
        invariant forall j :: i <= j < |buffers| ==> buffers[j] == old(buffers)[j]
      {
        buffers := buffers[i := LeafInsert(buffers[i], v)];
      }
      assert buffers == InsertAll(old(buffers), v);
      var (opens, opener') := CheckOpen(opener, now);
      opener := opener';
      if opens {
        var (b, creator') := NewBuffer(creator);
        creator := creator';
        buffers := buffers + [b];
      }
    }

    method PollBuffer() returns (r: Option<seq<V>>)
      modifies this
      ensures (r, Model()) == OverlappedPoll(old(Model()))
    {
      if buffers == [] {
        return None;
      }
      var (res, front') := LeafPoll(buffers[0]);
      buffers := buffers[0 := front'];
      r := res;
      if r.Some? {
        buffers := buffers[1..];
      } else {
        assert buffers == [front'] + old(buffers)[1..];
      }
    }

    method PollBufferAfterDone() returns (r: Option<seq<V>>)
      modifies this
      ensures (r, Model()) == OverlappedAfterDone(old(Model()))
    {
      if buffers == [] {
        return None;
      }
      var front := buffers[0];
      buffers := buffers[1..];
      var (res, _) := LeafAfterDone(front);
      if res.Some? {
        r := res;
      } else {
        r := Some([]);
      }
    }
  }
}
