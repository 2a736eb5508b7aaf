/** `WithLatestFrom`: a fused source stream and a fused "other" stream whose latest item is cached.
    Only a fresh source item can cause an emission; an item of the other stream only refreshes the
    cache. */
module WithLatestFromOp {
  import opened Wrappers
  import opened Futures01

  datatype LatestState<A, B, E1, E2> =
    LatestState(source: Fuse<A, E1>, other: Fuse<B, E2>, queuedSource: Option<A>, queuedOther: Option<B>)

  type LatestPoll<A, B, E1, E2> = Poll<(A, B), Either<E1, E2>>

  /** `WithLatestFrom::new`: both streams fused, nothing queued. */
  function NewLatest<A, B, E1, E2>(stream1: Script<A, E1>, stream2: Script<B, E2>): (st: LatestState<A, B, E1, E2>)
    ensures st.source == Fused(stream1) && st.other == Fused(stream2)
    ensures st.queuedSource.None? && st.queuedOther.None?
  {
    LatestState(Fused(stream1), Fused(stream2), None, None)
  }

  /** The rule of one `WithLatestFrom::poll` call. */
  function LatestStep<A, B, E1, E2>(st: LatestState<A, B, E1, E2>): (r: (LatestPoll<A, B, E1, E2>, LatestState<A, B, E1, E2>))
    // the source is polled on every call, first; the other stream next unless the source failed
    ensures r.1.source == PollFuse(st.source).1
    ensures r.1.other == if PollFuse(st.source).0.Err? then st.other else PollFuse(st.other).1
    // a new item of the other stream always refreshes the cache, whatever is answered
    ensures var p1, p2 := PollFuse(st.source).0, PollFuse(st.other).0;
      r.1.queuedOther == if !p1.Err? && p2.Item? then Some(p2.value) else st.queuedOther
    // errors are tagged with their origin, the source first
    ensures var p1 := PollFuse(st.source).0;
      p1.Err? ==> r.0 == Err(Left(p1.error))
    ensures var p1, p2 := PollFuse(st.source).0, PollFuse(st.other).0;
      !p1.Err? && p2.Err? ==> r.0 == Err(Right(p2.error))
    ensures var p1, p2 := PollFuse(st.source).0, PollFuse(st.other).0;
      r.0.Err? <==> p1.Err? || p2.Err?
    // the end: whenever the source is done, or the other stream is done with an empty cache;
    // this is checked before any emission
    ensures !r.0.Err? ==>
      (r.0.End? <==> r.1.source.done || (r.1.other.done && r.1.queuedOther.None?))
    // a pair is emitted only for a source item of this very call, with the cached other value,
    // which is kept while the source slot is emptied
    ensures var p1 := PollFuse(st.source).0;
      r.0.Item? <==> !r.0.Err? && !r.0.End? && p1.Item? && r.1.queuedOther.Some?
    ensures r.0.Item? ==>
      r.0.value == (PollFuse(st.source).0.value, r.1.queuedOther.value) && r.1.queuedSource.None?
    // a source item that finds the cache empty is parked in its slot and answered with NotReady
    ensures var p1 := PollFuse(st.source).0;
      !r.0.Err? && !r.0.Item? ==> r.1.queuedSource == if p1.Item? then Some(p1.value) else st.queuedSource
  {
    var (p1, f1) := PollFuse(st.source);
    if p1.Err? then (Err(Left(p1.error)), st.(source := f1))
    else
      var qs := if p1.Item? then Some(p1.value) else st.queuedSource;
      var (p2, f2) := PollFuse(st.other);
      if p2.Err? then (Err(Right(p2.error)), st.(source := f1, other := f2, queuedSource := qs))
      else
        var qo := if p2.Item? then Some(p2.value) else st.queuedOther;
        var st' := LatestState(f1, f2, qs, qo);
        if f1.done || (f2.done && qo.None?) then (End, st')
        else if p1.Item? then
          if qo.Some? then (Item((qs.value, qo.value)), st'.(queuedSource := None))
          else (NotReady, st')
        else (NotReady, st')
  }

  /** The pairs a consumer collects in `n` polls, stopping at the first end or error. */
  function LatestRun<A, B, E1, E2>(st: LatestState<A, B, E1, E2>, n: nat): seq<(A, B)>
    decreases n
  {
    if n == 0 then []
    else
      var (p, st') := LatestStep(st);
      match p
      case Item(v) => [v] + LatestRun(st', n - 1)
      case NotReady => LatestRun(st', n - 1)
      case End => []
      case Err(_) => []
  }

  /** A source item is never emitted by a later call: whatever was parked in the source slot, the
      answer of a call only ever pairs the source item of that call. In particular a call on which
      the source has nothing new emits nothing, however the cache changes. */
  lemma NoLateEmission<A, B, E1, E2>(st: LatestState<A, B, E1, E2>)
    ensures !PollFuse(st.source).0.Item? ==> !LatestStep(st).0.Item?
    ensures LatestStep(st).0.Item? ==> LatestStep(st).0.value.0 == PollFuse(st.source).0.value
  {
  }

  /** Once the source has ended, every later call ends (or reports an error of the other stream). */
  lemma EndOfSourceIsFinal<A, B, E1, E2>(st: LatestState<A, B, E1, E2>, n: nat)
    requires st.source.done
    ensures LatestRun(st, n) == []
  {
  }

  /** An "other" stream that answers every poll with the next tick number: 0, 1, ..., n - 1. */
  function Ticking<E>(n: nat): Script<int, E>
  {
    seq(n, i => Item(i))
  }

  /** The source answers only items and `NotReady` before poll `m`, and ends at poll `m`. */
  ghost predicate QuietUntilEnd<A, E>(src: Script<A, E>, m: nat)
  {
    m < |src| && src[m] == End && forall j :: 0 <= j < m ==> src[j].Item? || src[j].NotReady?
  }

  /** The source items from poll `k` up to poll `m`, each paired with the number of its poll. */
  function Stamped<A, E>(src: Script<A, E>, k: nat, m: nat): seq<(A, int)>
    requires m <= |src|
    decreases m - k
  {
    if k >= m then []
    else (if src[k].Item? then [(src[k].value, k)] else []) + Stamped(src, k + 1, m)
  }

  /** The state after `k` polls of a source against a ticking other stream. */
  function TickedState<A, E1, E2>(src: Script<A, E1>, n: nat, k: nat): LatestState<A, int, E1, E2>
    requires k <= |src| && k <= n
  {
    LatestState(Fuse(src[k..], false), Fuse(Ticking(n)[k..], false), None, if k == 0 then None else Some(k - 1))
  }

  lemma TickedStep<A, E1, E2>(src: Script<A, E1>, n: nat, m: nat, k: nat)
    requires QuietUntilEnd(src, m) && m < n && k < m
    ensures LatestStep(TickedState<A, E1, E2>(src, n, k)) ==
      (if src[k].Item? then Item((src[k].value, k)) else NotReady, TickedState<A, E1, E2>(src, n, k + 1))
  {
    assert src[k..][1..] == src[k + 1..];
    assert Ticking<E2>(n)[k..][1..] == Ticking<E2>(n)[k + 1..];
  }

  /** Sampling: when the other stream produces a new tick on every poll, each source item is paired
      with the tick of the very poll that delivered it, and the run stops when the source ends. */
  lemma {:induction false} TickedRun<A, E1, E2>(src: Script<A, E1>, n: nat, m: nat, k: nat)
    requires QuietUntilEnd(src, m) && m < n && k <= m
    ensures LatestRun(TickedState<A, E1, E2>(src, n, k), m + 1 - k) == Stamped(src, k, m)
    decreases m - k
  {
    if k == m {
      TickedEnd<A, E1, E2>(src, n, m);
    } else {
      TickedRun<A, E1, E2>(src, n, m, k + 1);
      TickedRunStep<A, E1, E2>(src, n, m, k);
    }
  }

  lemma TickedEnd<A, E1, E2>(src: Script<A, E1>, n: nat, m: nat)
    requires QuietUntilEnd(src, m) && m < n
    ensures LatestRun(TickedState<A, E1, E2>(src, n, m), 1) == Stamped(src, m, m)
  {
    assert src[m..][0] == End;
  }

  lemma TickedRunStep<A, E1, E2>(src: Script<A, E1>, n: nat, m: nat, k: nat)
    requires QuietUntilEnd(src, m) && m < n && k < m
    requires LatestRun(TickedState<A, E1, E2>(src, n, k + 1), m - k) == Stamped(src, k + 1, m)
    ensures LatestRun(TickedState<A, E1, E2>(src, n, k), m + 1 - k) == Stamped(src, k, m)
  {
    TickedStep<A, E1, E2>(src, n, m, k);
  }

  /** A source ticking every 5 time units three times, the other stream every unit: the pairs are
      the source's value with the other stream's latest value at that instant. */
  const Source: Script<int, bool> :=
    [NotReady, NotReady, NotReady, NotReady, Item(0), NotReady, NotReady, NotReady, NotReady, Item(1),
     NotReady, NotReady, NotReady, NotReady, Item(2), End]

  lemma SourceIsQuiet()
    ensures QuietUntilEnd(Source, 15)
  {
    forall j | 0 <= j < 15
      ensures Source[j].Item? || Source[j].NotReady?
    {
    }
  }

  lemma SourceStamps()
    ensures Stamped(Source, 0, 15) == [(0, 4), (1, 9), (2, 14)]
  {
    assert Stamped(Source, 14, 15) == [(2, 14)];
    assert Stamped(Source, 10, 15) == [(2, 14)];
    assert Stamped(Source, 9, 15) == [(1, 9), (2, 14)];
    assert Stamped(Source, 5, 15) == [(1, 9), (2, 14)];
    assert Stamped(Source, 4, 15) == [(0, 4), (1, 9), (2, 14)];
  }

  lemma IntervalExample()
    ensures LatestRun(NewLatest(Source, Ticking<bool>(16)), 16) == [(0, 4), (1, 9), (2, 14)]
  {
    SourceIsQuiet();
    SourceStamps();
    TickedRun<int, bool, bool>(Source, 16, 15, 0);
    assert TickedState<int, bool, bool>(Source, 16, 0) == NewLatest(Source, Ticking<bool>(16));
  }

  class WithLatestFrom<A, B, E1, E2> {
    var source: Fuse<A, E1>
    var other: Fuse<B, E2>
    var queuedSource: Option<A>
    var queuedOther: Option<B>

    function State(): LatestState<A, B, E1, E2>
      reads this
    {
      LatestState(source, other, queuedSource, queuedOther)
    }

    constructor (stream1: Script<A, E1>, stream2: Script<B, E2>)
      ensures State() == NewLatest(stream1, stream2)
    {
      source := Fused(stream1);
      other := Fused(stream2);
      queuedSource := None;
      queuedOther := None;
    }

    method Poll() returns (r: LatestPoll<A, B, E1, E2>)
      modifies this
      ensures (r, State()) == LatestStep(old(State()))
    {
      var (p1, f1) := PollFuse(source);
      source := f1;
      var sourceReady: bool;
      match p1 {
        case Item(item1) =>
          queuedSource := Some(item1);
          sourceReady := true;
        case End =>
          sourceReady := false;
        case NotReady =>
          sourceReady := false;
        case Err(e) =>
          return Err(Left(e));
      }
      var (p2, f2) := PollFuse(other);
      other := f2;
      match p2 {
        case Item(item2) =>
          queuedOther := Some(item2);
        case End =>
        case NotReady =>
        case Err(e) =>
          return Err(Right(e));
      }
      if source.done || (other.done && queuedOther.None?) {
        r := End;
      } else if sourceReady {
        if queuedOther.Some? {
          var taken := queuedSource.value;
          queuedSource := None;
          r := Item((taken, queuedOther.value));
        } else {
          r := NotReady;
        }
      } else {
        r := NotReady;
      }
    }
  }
}
