/** `CombineLatest` (two upstreams) and `CombineLatestVec` (a vector of upstreams).

    Each keeps one "latest value" slot per fused upstream. A poll polls the upstreams in a fixed
    order, overwrites the slot of every upstream that produced an item, and emits the slots (cloned,
    not cleared) once every slot is filled and something new arrived in this call. */
module CombineLatestOp {
  import opened Wrappers
  import opened Futures01

  // ---------------------------------------------------------------------------------------------
  // Two upstreams

  datatype PairState<A, B, E1, E2> =
    PairState(s1: Fuse<A, E1>, s2: Fuse<B, E2>, queued1: Option<A>, queued2: Option<B>)

  type PairPoll<A, B, E1, E2> = Poll<(A, B), Either<E1, E2>>

  /** `CombineLatest::new`: both upstreams fused, both slots empty. */
  function NewPair<A, B, E1, E2>(stream1: Script<A, E1>, stream2: Script<B, E2>): (st: PairState<A, B, E1, E2>)
    ensures st.s1 == Fused(stream1) && st.s2 == Fused(stream2)
    ensures st.queued1.None? && st.queued2.None?
  {
    PairState(Fused(stream1), Fused(stream2), None, None)
  }

  /** The rule of one `CombineLatest::poll` call, as a function of the state before the call. */
  function PairStep<A, B, E1, E2>(st: PairState<A, B, E1, E2>): (r: (PairPoll<A, B, E1, E2>, PairState<A, B, E1, E2>))
    // s1 is polled on every call, first
    ensures r.1.s1 == PollFuse(st.s1).1
    // s2 is polled next, unless s1 failed
    ensures r.1.s2 == if PollFuse(st.s1).0.Err? then st.s2 else PollFuse(st.s2).1
    // a new item overwrites its slot; a slot is never cleared
    ensures var p1 := PollFuse(st.s1).0;
      r.1.queued1 == if p1.Item? then Some(p1.value) else st.queued1
    ensures var p1, p2 := PollFuse(st.s1).0, PollFuse(st.s2).0;
      r.1.queued2 == if !p1.Err? && p2.Item? then Some(p2.value) else st.queued2
    // errors are tagged with their origin, s1 first
    ensures var p1, p2 := PollFuse(st.s1).0, PollFuse(st.s2).0;
      r.0.Err? <==> p1.Err? || p2.Err?
    ensures var p1 := PollFuse(st.s1).0;
      p1.Err? ==> r.0 == Err(Left(p1.error))
    ensures var p1, p2 := PollFuse(st.s1).0, PollFuse(st.s2).0;
      !p1.Err? && p2.Err? ==> r.0 == Err(Right(p2.error))
    // a pair is emitted exactly when both slots are filled and one of the upstreams yielded now
    ensures var p1, p2 := PollFuse(st.s1).0, PollFuse(st.s2).0;
      r.0.Item? <==> !r.0.Err? && r.1.queued1.Some? && r.1.queued2.Some? && (p1.Item? || p2.Item?)
    ensures r.0.Item? ==> r.0.value == (r.1.queued1.value, r.1.queued2.value)
    // otherwise: end when both are done, or one is done while its slot is still empty
    ensures r.0.End? <==>
      !r.0.Err? && !r.0.Item? &&
      ((r.1.s1.done && r.1.s2.done) ||
       (r.1.s1.done && r.1.queued1.None?) ||
       (r.1.s2.done && r.1.queued2.None?))
  {
    var (p1, f1) := PollFuse(st.s1);
    if p1.Err? then (Err(Left(p1.error)), st.(s1 := f1))
    else
      var q1 := if p1.Item? then Some(p1.value) else st.queued1;
      var (p2, f2) := PollFuse(st.s2);
      if p2.Err? then (Err(Right(p2.error)), st.(s1 := f1, s2 := f2, queued1 := q1))
      else
        var q2 := if p2.Item? then Some(p2.value) else st.queued2;
        var st' := PairState(f1, f2, q1, q2);
        if q1.Some? && q2.Some? && (p1.Item? || p2.Item?) then (Item((q1.value, q2.value)), st')
        else if f1.done && f2.done then (End, st')
        else if (f1.done && q1.None?) || (f2.done && q2.None?) then (End, st')
        else (NotReady, st')
  }

  /** The pairs a consumer collects in `n` polls, stopping at the first end or error. */
  function PairRun<A, B, E1, E2>(st: PairState<A, B, E1, E2>, n: nat): seq<(A, B)>
    decreases n
  {
    if n == 0 then []
    else
      var (p, st') := PairStep(st);
      match p
      case Item(v) => [v] + PairRun(st', n - 1)
      case NotReady => PairRun(st', n - 1)
      case End => []
      case Err(_) => []
  }

  /** Two interval timers taken 3 and 4 times, the first ticking first, polled whenever either
      ticks: the first answers 0, 1, 2 and then ends, the second 0, 1, 2, 3 and then ends. */
  const Timer1: Script<int, bool> := [Item(0), NotReady, Item(1), NotReady, Item(2), NotReady, End]
  const Timer2: Script<int, bool> := [NotReady, Item(0), NotReady, Item(1), NotReady, Item(2), NotReady, Item(3), End]

  /** The pair state after `i` polls of the first timer and `j` of the second. */
  function Timers(i: nat, d1: bool, j: nat, q1: Option<int>, q2: Option<int>): PairState<int, int, bool, bool>
    requires i <= |Timer1| && j <= |Timer2|
  {
    PairState(Fuse(Timer1[i..], d1), Fuse(Timer2[j..], false), q1, q2)
  }

  lemma TimersEarly()
    ensures PairStep(NewPair(Timer1, Timer2)) == (NotReady, Timers(1, false, 1, Some(0), None))
    ensures PairStep(Timers(1, false, 1, Some(0), None)) == (Item((0, 0)), Timers(2, false, 2, Some(0), Some(0)))
    ensures PairStep(Timers(2, false, 2, Some(0), Some(0))) == (Item((1, 0)), Timers(3, false, 3, Some(1), Some(0)))
    ensures PairStep(Timers(3, false, 3, Some(1), Some(0))) == (Item((1, 1)), Timers(4, false, 4, Some(1), Some(1)))
  {
  }

  lemma TimersLate()
    ensures PairStep(Timers(4, false, 4, Some(1), Some(1))) == (Item((2, 1)), Timers(5, false, 5, Some(2), Some(1)))
    ensures PairStep(Timers(5, false, 5, Some(2), Some(1))) == (Item((2, 2)), Timers(6, false, 6, Some(2), Some(2)))
    ensures PairStep(Timers(6, false, 6, Some(2), Some(2))) == (NotReady, Timers(7, true, 7, Some(2), Some(2)))
    ensures PairStep(Timers(7, true, 7, Some(2), Some(2))) == (Item((2, 3)), Timers(7, true, 8, Some(2), Some(3)))
    ensures PairStep(Timers(7, true, 8, Some(2), Some(3))).0 == End
  {
  }

  /** One poll of a run that answers an item. */
  lemma PairRunItem<A, B, E1, E2>(st: PairState<A, B, E1, E2>, n: nat, v: (A, B), st': PairState<A, B, E1, E2>)
    requires n >= 1 && PairStep(st) == (Item(v), st')
    ensures PairRun(st, n) == [v] + PairRun(st', n - 1)
  {
  }

  /** One poll of a run that answers `NotReady`. */
  lemma PairRunQuiet<A, B, E1, E2>(st: PairState<A, B, E1, E2>, n: nat, st': PairState<A, B, E1, E2>)
    requires n >= 1 && PairStep(st) == (NotReady, st')
    ensures PairRun(st, n) == PairRun(st', n - 1)
  {
  }

  /** The last five polls of the two-timer example, whatever the states hold. */
  lemma TimersRunTail<A, B, E1, E2>(s4: PairState<A, B, E1, E2>, s5: PairState<A, B, E1, E2>,
                                    s6: PairState<A, B, E1, E2>, s7: PairState<A, B, E1, E2>,
                                    s8: PairState<A, B, E1, E2>, v3: (A, B), v4: (A, B), v5: (A, B), n: nat)
    requires n >= 5
    requires PairStep(s4) == (Item(v3), s5)
    requires PairStep(s5) == (Item(v4), s6)
    requires PairStep(s6) == (NotReady, s7)
    requires PairStep(s7) == (Item(v5), s8)
    requires PairStep(s8).0 == End
    ensures PairRun(s4, n) == [v3, v4, v5]
  {
    assert PairRun(s8, n - 4) == [];
    PairRunItem(s7, n - 3, v5, s8);
    PairRunQuiet(s6, n - 2, s7);
    PairRunItem(s5, n - 1, v4, s6);
    PairRunItem(s4, n, v3, s5);
  }

  /** The first four polls of the two-timer example, whatever the states hold. */
  lemma TimersRunHead<A, B, E1, E2>(s0: PairState<A, B, E1, E2>, s1: PairState<A, B, E1, E2>,
                                    s2: PairState<A, B, E1, E2>, s3: PairState<A, B, E1, E2>,
                                    s4: PairState<A, B, E1, E2>, v0: (A, B), v1: (A, B), v2: (A, B), n: nat)
    requires n >= 4
    requires PairStep(s0) == (NotReady, s1)
    requires PairStep(s1) == (Item(v0), s2)
    requires PairStep(s2) == (Item(v1), s3)
    requires PairStep(s3) == (Item(v2), s4)
    ensures PairRun(s0, n) == [v0, v1, v2] + PairRun(s4, n - 4)
  {
    PairRunItem(s3, n - 3, v2, s4);
    PairRunItem(s2, n - 2, v1, s3);
    PairRunItem(s1, n - 1, v0, s2);
    PairRunQuiet(s0, n, s1);
  }

  lemma TwoTimersHead(n: nat)
    requires n >= 4
    ensures PairRun(NewPair(Timer1, Timer2), n) ==
            [(0, 0), (1, 0), (1, 1)] + PairRun(Timers(4, false, 4, Some(1), Some(1)), n - 4)
  {
    TimersEarly();
    TimersRunHead(NewPair(Timer1, Timer2), Timers(1, false, 1, Some(0), None),
                  Timers(2, false, 2, Some(0), Some(0)), Timers(3, false, 3, Some(1), Some(0)),
                  Timers(4, false, 4, Some(1), Some(1)), (0, 0), (1, 0), (1, 1), n);
  }

  lemma TwoTimersTail(n: nat)
    requires n >= 5
    ensures PairRun(Timers(4, false, 4, Some(1), Some(1)), n) == [(2, 1), (2, 2), (2, 3)]
  {
    TimersLate();
    TimersRunTail(Timers(4, false, 4, Some(1), Some(1)), Timers(5, false, 5, Some(2), Some(1)),
                  Timers(6, false, 6, Some(2), Some(2)), Timers(7, true, 7, Some(2), Some(2)),
                  Timers(7, true, 8, Some(2), Some(3)), (2, 1), (2, 2), (2, 3), n);
  }

  lemma TwoTimersExample(n: nat)
    requires n >= 9
    ensures PairRun(NewPair(Timer1, Timer2), n) == [(0, 0), (1, 0), (1, 1), (2, 1), (2, 2), (2, 3)]
  {
    TwoTimersHead(n);
    TwoTimersTail(n - 4);
  }

  /** An upstream that ends before ever producing an item ends the combination at once, whatever
      the other upstream does (short of failing on that same poll). */
  lemma EmptyFirstEndsAtOnce<B, E1, E2>(t2: Script<B, E2>, n: nat)
    requires t2 == [] || !t2[0].Err?
    ensures n > 0 ==> PairStep(NewPair<B, B, E1, E2>([End], t2)).0 == End
    ensures PairRun(NewPair<B, B, E1, E2>([End], t2), n) == []
  {
  }

  class CombineLatest<A, B, E1, E2> {
    var s1: Fuse<A, E1>
    var s2: Fuse<B, E2>
    var queued1: Option<A>
    var queued2: Option<B>

    function State(): PairState<A, B, E1, E2>
      reads this
    {
      PairState(s1, s2, queued1, queued2)
    }

    constructor (stream1: Script<A, E1>, stream2: Script<B, E2>)
      ensures State() == NewPair(stream1, stream2)
    {
      s1 := Fused(stream1);
      s2 := Fused(stream2);
      queued1 := None;
      queued2 := None;
    }

    method Poll() returns (r: PairPoll<A, B, E1, E2>)
      modifies this
      ensures (r, State()) == PairStep(old(State()))
    {
      var (p1, f1) := PollFuse(s1);
      s1 := f1;
      var s1Ready: bool;
      match p1 {
        case Item(item1) =>
          queued1 := Some(item1);
          s1Ready := true;
        case End =>
          s1Ready := false;
        case NotReady =>
          s1Ready := false;
        case Err(e) =>
          return Err(Left(e));
      }
      var (p2, f2) := PollFuse(s2);
      s2 := f2;
      var s2Ready: bool;
      match p2 {
        case Item(item2) =>
          queued2 := Some(item2);
          s2Ready := true;
        case End =>
          s2Ready := false;
        case NotReady =>
          s2Ready := false;
        case Err(e) =>
          return Err(Right(e));
      }
      if queued1.Some? && queued2.Some? && (s1Ready || s2Ready) {
        r := Item((queued1.value, queued2.value));
      } else if s1.done && s2.done {
        r := End;
      } else if (s1.done && queued1.None?) || (s2.done && queued2.None?) {
        r := End;
      } else {
        r := NotReady;
      }
    }
  }

  // ---------------------------------------------------------------------------------------------
  // A vector of upstreams

  datatype VecState<T, E> = VecState(sList: seq<Fuse<T, E>>, queuedList: seq<Option<T>>)
  {
    /** One slot per upstream. */
    predicate Valid() {
      |sList| == |queuedList|
    }
  }

  /** `CombineLatestVec::new`: every upstream fused, one empty slot per upstream. */
  function NewVec<T, E>(streams: seq<Script<T, E>>): (st: VecState<T, E>)
    ensures st.Valid() && |st.sList| == |streams|
    ensures forall i :: 0 <= i < |streams| ==> st.sList[i] == Fused(streams[i]) && st.queuedList[i].None?
  {
    VecState(seq(|streams|, i requires 0 <= i < |streams| => Fused(streams[i])),
             seq(|streams|, i => None))
  }

  /** The full slot vector, if every slot is filled. */
  function AllFilled<T>(q: seq<Option<T>>): (r: Option<seq<T>>)
    ensures r.Some? <==> forall j :: 0 <= j < |q| ==> q[j].Some?
    ensures r.Some? ==> |r.value| == |q| && forall j :: 0 <= j < |q| ==> q[j] == Some(r.value[j])
  {
    if forall j :: 0 <= j < |q| ==> q[j].Some? then Some(seq(|q|, j requires 0 <= j < |q| => q[j].value))
    else None
  }

  /** Whether the poll of upstream `j` stops the scan of a poll call: it produced an item or an
      error, or it ended while its slot is still empty. */
  predicate Stops<T, E>(st: VecState<T, E>, j: nat)
    requires st.Valid() && j < |st.sList|
  {
    var p := PollFuse(st.sList[j]).0;
    p.Item? || p.Err? || (p.End? && st.queuedList[j].None?)
  }

  /** The first upstream at or after `i` whose poll stops the scan, or the upstream count. */
  function StopAt<T, E>(st: VecState<T, E>, i: nat): (k: nat)
    requires st.Valid() && i <= |st.sList|
    ensures i <= k <= |st.sList|
    ensures forall j :: i <= j < k ==> !Stops(st, j)
    ensures k < |st.sList| ==> Stops(st, k)
    decreases |st.sList| - i
  {
    if i == |st.sList| then i else if Stops(st, i) then i else StopAt(st, i + 1)
  }

  /** The scan of `CombineLatestVec::poll` from upstream `i` on, `doneCount` of the upstreams
      before `i` having answered `End` in this call. */
  function VecScan<T, E>(st: VecState<T, E>, i: nat, doneCount: nat): (r: (Poll<seq<T>, E>, VecState<T, E>))
    requires st.Valid() && doneCount <= i <= |st.sList|
    ensures r.1.Valid() && |r.1.sList| == |st.sList|
    decreases |st.sList| - i
  {
    if i == |st.sList| then (if doneCount == |st.sList| then End else NotReady, st)
    else
      var (p, f) := PollFuse(st.sList[i]);
      var st1 := st.(sList := st.sList[i := f]);
      match p
      case Item(x) =>
        var st2 := st1.(queuedList := st.queuedList[i := Some(x)]);
        (match AllFilled(st2.queuedList) case Some(v) => Item(v) case None => NotReady, st2)
      case End =>
        if st.queuedList[i].None? then (End, st1) else VecScan(st1, i + 1, doneCount + 1)
      case NotReady =>
        VecScan(st1, i + 1, doneCount)
      case Err(e) =>
        (Err(e), st1)
  }

  /** One `CombineLatestVec::poll` call. */
  function VecStep<T, E>(st: VecState<T, E>): (r: (Poll<seq<T>, E>, VecState<T, E>))
    requires st.Valid()
    ensures r.1.Valid() && |r.1.sList| == |st.sList|
  {
    VecScan(st, 0, 0)
  }

  /** Where the scan stops depends only on the upstreams and slots from `i` on. */
  lemma {:induction false} StopAtFrom<T, E>(st: VecState<T, E>, st': VecState<T, E>, i: nat)
    requires st.Valid() && st'.Valid() && |st.sList| == |st'.sList| && i <= |st.sList|
    requires forall j :: i <= j < |st.sList| ==> st.sList[j] == st'.sList[j] && st.queuedList[j] == st'.queuedList[j]
    ensures StopAt(st, i) == StopAt(st', i)
    decreases |st.sList| - i
  {
    if i < |st.sList| && !Stops(st, i) {
      StopAtFrom(st, st', i + 1);
    }
  }

  /** What the scan from upstream `i` does, with `k` the upstream that stops it: the upstreams
      `i..k` are polled, the others are not; only slot `k` can change; the answer is decided by
      what upstream `k` answered, or, when none stops the scan, by whether all ended. */
  lemma VecScanShape<T, E>(st: VecState<T, E>, i: nat, doneCount: nat)
    requires st.Valid() && doneCount <= i <= |st.sList|
    ensures var r, k := VecScan(st, i, doneCount), StopAt(st, i);
      (forall j :: 0 <= j < |st.sList| && (j < i || k < j) ==> r.1.sList[j] == st.sList[j]) &&
      (forall j :: i <= j <= k && j < |st.sList| ==> r.1.sList[j] == PollFuse(st.sList[j]).1) &&
      (forall j :: 0 <= j < |st.sList| && j != k ==> r.1.queuedList[j] == st.queuedList[j])
    ensures var r, k := VecScan(st, i, doneCount), StopAt(st, i);
      k < |st.sList| ==>
        var p := PollFuse(st.sList[k]).0;
        (p.Item? ==> r.1.queuedList[k] == Some(p.value) &&
                     r.0 == match AllFilled(r.1.queuedList) case Some(v) => Item(v) case None => NotReady) &&
        (!p.Item? ==> r.1.queuedList[k] == st.queuedList[k]) &&
        (p.Err? ==> r.0 == Err(p.error)) &&
        (p.End? ==> r.0 == End)
    ensures var r := VecScan(st, i, doneCount);
      StopAt(st, i) == |st.sList| ==>
        (r.0.End? || r.0.NotReady?) &&
        (r.0.End? <==> doneCount == i && forall j :: i <= j < |st.sList| ==> PollFuse(st.sList[j]).0.End?)
  {
    VecScanFrame(st, i, doneCount);
    VecScanStopped(st, i, doneCount);
    VecScanUnstopped(st, i, doneCount);
  }

  /** Which upstreams and slots the scan from `i` touches. */
  lemma VecScanFrame<T, E>(st: VecState<T, E>, i: nat, doneCount: nat)
    requires st.Valid() && doneCount <= i <= |st.sList|
    ensures var r, k := VecScan(st, i, doneCount), StopAt(st, i);
      (forall j :: 0 <= j < |st.sList| && (j < i || k < j) ==> r.1.sList[j] == st.sList[j]) &&
      (forall j :: i <= j <= k && j < |st.sList| ==> r.1.sList[j] == PollFuse(st.sList[j]).1) &&
      (forall j :: 0 <= j < |st.sList| && j != k ==> r.1.queuedList[j] == st.queuedList[j])
  {
    VecScanUnpolled(st, i, doneCount);
    VecScanPolled(st, i, doneCount);
    VecScanSlots(st, i, doneCount);
  }

  /** An upstream that does not stop the scan: the scan goes on from the next one, and stops
      where it would have. */
  lemma ScanOn<T, E>(st: VecState<T, E>, i: nat, doneCount: nat)
    requires st.Valid() && doneCount <= i < |st.sList| && !Stops(st, i)
    ensures var p := PollFuse(st.sList[i]).0;
      var st1 := st.(sList := st.sList[i := PollFuse(st.sList[i]).1]);
      var d := if p.End? then doneCount + 1 else doneCount;
      VecScan(st, i, doneCount) == VecScan(st1, i + 1, d) && StopAt(st, i) == StopAt(st1, i + 1)
  {
    var (p, f) := PollFuse(st.sList[i]);
    var st1 := st.(sList := st.sList[i := f]);
    StopAtFrom(st, st1, i + 1);
  }

  lemma {:induction false} VecScanUnpolled<T, E>(st: VecState<T, E>, i: nat, doneCount: nat)
    requires st.Valid() && doneCount <= i <= |st.sList|
    ensures var r, k := VecScan(st, i, doneCount), StopAt(st, i);
      forall j :: 0 <= j < |st.sList| && (j < i || k < j) ==> r.1.sList[j] == st.sList[j]
    decreases |st.sList| - i
  {
    if i < |st.sList| && !Stops(st, i) {
      var (p, f) := PollFuse(st.sList[i]);
      var st1 := st.(sList := st.sList[i := f]);
      var d := if p.End? then doneCount + 1 else doneCount;
      ScanOn(st, i, doneCount);
      VecScanUnpolled(st1, i + 1, d);
      var r, k := VecScan(st1, i + 1, d), StopAt(st, i);
      forall j | 0 <= j < |st.sList| && (j < i || k < j)
        ensures r.1.sList[j] == st.sList[j]
      {
        assert r.1.sList[j] == st1.sList[j];
      }
    }
  }

  lemma {:induction false} VecScanPolled<T, E>(st: VecState<T, E>, i: nat, doneCount: nat)
    requires st.Valid() && doneCount <= i <= |st.sList|
    ensures var r, k := VecScan(st, i, doneCount), StopAt(st, i);
      forall j :: i <= j <= k && j < |st.sList| ==> r.1.sList[j] == PollFuse(st.sList[j]).1
    decreases |st.sList| - i
  {
    if i < |st.sList| && !Stops(st, i) {
      var (p, f) := PollFuse(st.sList[i]);
      var st1 := st.(sList := st.sList[i := f]);
      var d := if p.End? then doneCount + 1 else doneCount;
      ScanOn(st, i, doneCount);
      VecScanPolled(st1, i + 1, d);
      VecScanUnpolled(st1, i + 1, d);
      var r, k := VecScan(st1, i + 1, d), StopAt(st, i);
      forall j | i <= j <= k && j < |st.sList|
        ensures r.1.sList[j] == PollFuse(st.sList[j]).1
      {
        if j == i {
          assert r.1.sList[i] == st1.sList[i];
        } else {
          assert st1.sList[j] == st.sList[j];
        }
      }
    }
  }

  lemma {:induction false} VecScanSlots<T, E>(st: VecState<T, E>, i: nat, doneCount: nat)
    requires st.Valid() && doneCount <= i <= |st.sList|
    ensures var r, k := VecScan(st, i, doneCount), StopAt(st, i);
      forall j :: 0 <= j < |st.sList| && j != k ==> r.1.queuedList[j] == st.queuedList[j]
    decreases |st.sList| - i
  {
    if i < |st.sList| && !Stops(st, i) {
      var (p, f) := PollFuse(st.sList[i]);
      var st1 := st.(sList := st.sList[i := f]);
      var d := if p.End? then doneCount + 1 else doneCount;
      ScanOn(st, i, doneCount);
      VecScanSlots(st1, i + 1, d);
    }
  }

  /** The answer and slot `k` when upstream `k` stops the scan from `i`. */
  lemma {:induction false} VecScanStopped<T, E>(st: VecState<T, E>, i: nat, doneCount: nat)
    requires st.Valid() && doneCount <= i <= |st.sList|
    ensures var r, k := VecScan(st, i, doneCount), StopAt(st, i);
      k < |st.sList| ==>
        var p := PollFuse(st.sList[k]).0;
        (p.Item? ==> r.1.queuedList[k] == Some(p.value) &&
                     r.0 == match AllFilled(r.1.queuedList) case Some(v) => Item(v) case None => NotReady) &&
        (!p.Item? ==> r.1.queuedList[k] == st.queuedList[k]) &&
        (p.Err? ==> r.0 == Err(p.error)) &&
        (p.End? ==> r.0 == End)
    decreases |st.sList| - i
  {
    if i < |st.sList| && !Stops(st, i) {
      var (p, f) := PollFuse(st.sList[i]);
      var st1 := st.(sList := st.sList[i := f]);
      var d := if p.End? then doneCount + 1 else doneCount;
      ScanOn(st, i, doneCount);
      VecScanStopped(st1, i + 1, d);
    }
  }

  /** The answer when no upstream from `i` on stops the scan. */
  lemma {:induction false} VecScanUnstopped<T, E>(st: VecState<T, E>, i: nat, doneCount: nat)
    requires st.Valid() && doneCount <= i <= |st.sList|
    ensures var r := VecScan(st, i, doneCount);
      StopAt(st, i) == |st.sList| ==>
        (r.0.End? || r.0.NotReady?) &&
        (r.0.End? <==> doneCount == i && forall j :: i <= j < |st.sList| ==> PollFuse(st.sList[j]).0.End?)
    decreases |st.sList| - i
  {
    if i < |st.sList| && !Stops(st, i) {
      var (p, f) := PollFuse(st.sList[i]);
      var st1 := st.(sList := st.sList[i := f]);
      var d := if p.End? then doneCount + 1 else doneCount;
      ScanOn(st, i, doneCount);
      StopAtFrom(st, st1, i + 1);
      VecScanUnstopped(st1, i + 1, d);
    }
  }

  /** The rule of one `CombineLatestVec::poll` call. With `k` the first upstream that stops the
      scan: upstreams are polled in index order up to `k` and the later ones are not polled; an
      item from `k` fills its slot and the answer is the whole slot vector, one value per upstream,
      or `NotReady` while a slot is empty; an end from `k` (its slot empty) ends the combinator.
      When no upstream stops the scan, the combinator ends exactly when every upstream answered
      `End`, so an empty vector ends on its first poll. */
  lemma VecStepRule<T, E>(st: VecState<T, E>)
    requires st.Valid()
    ensures var r, k := VecStep(st), StopAt(st, 0);
      (forall j :: k < j < |st.sList| ==> r.1.sList[j] == st.sList[j]) &&
      (forall j :: 0 <= j <= k && j < |st.sList| ==> r.1.sList[j] == PollFuse(st.sList[j]).1) &&
      (forall j :: 0 <= j < |st.sList| && j != k ==> r.1.queuedList[j] == st.queuedList[j])
    ensures var r := VecStep(st);
      r.0.Item? ==>
        StopAt(st, 0) < |st.sList| && PollFuse(st.sList[StopAt(st, 0)]).0.Item? &&
        |r.0.value| == |st.sList| &&
        (forall j :: 0 <= j < |st.sList| ==> r.1.queuedList[j] == Some(r.0.value[j]))
    ensures var r, k := VecStep(st), StopAt(st, 0);
      k < |st.sList| && PollFuse(st.sList[k]).0.Item? ==>
        (r.0.Item? <==> forall j :: 0 <= j < |st.sList| ==> r.1.queuedList[j].Some?)
    ensures var r, k := VecStep(st), StopAt(st, 0);
      k < |st.sList| && !PollFuse(st.sList[k]).0.Item? ==>
        r.0 == (if PollFuse(st.sList[k]).0.Err? then Err(PollFuse(st.sList[k]).0.error) else End)
    ensures var r := VecStep(st);
      StopAt(st, 0) == |st.sList| ==>
        (r.0.End? || r.0.NotReady?) &&
        (r.0.End? <==> forall j :: 0 <= j < |st.sList| ==> PollFuse(st.sList[j]).0.End?)
    ensures |st.sList| == 0 ==> VecStep(st).0.End?
  {
    VecScanShape(st, 0, 0);
  }

  /** The clone loop of `CombineLatestVec::poll`: copy every slot out, or give up at the first
      empty one. */
  method CloneAll<T>(queued: seq<Option<T>>) returns (r: Option<seq<T>>)
    ensures r == AllFilled(queued)
  {
    var out: seq<T> := [];
    var i := 0;
    while i < |queued|
      invariant 0 <= i <= |queued| && |out| == i
      invariant forall j :: 0 <= j < i ==> queued[j] == Some(out[j])
    {
      if queued[i].None? {
        return None;
      }
      out := out + [queued[i].value];
      i := i + 1;
    }
    assert AllFilled(queued).value == out;
    r := Some(out);
  }

  class CombineLatestVec<T, E> {
    var sList: seq<Fuse<T, E>>
    var queuedList: seq<Option<T>>

    function State(): VecState<T, E>
      reads this
    {
      VecState(sList, queuedList)
    }

    constructor (streams: seq<Script<T, E>>)
      ensures State() == NewVec(streams)
    {
      sList := seq(|streams|, i requires 0 <= i < |streams| => Fused(streams[i]));
      queuedList := seq(|streams|, i => None);
    }

    method Poll() returns (r: Poll<seq<T>, E>)
      requires State().Valid()
      modifies this
      ensures (r, State()) == VecStep(old(State()))
    {
      var doneCount := 0;
      var len := |sList|;
      var i := 0;
      while i < len
        invariant 0 <= doneCount <= i <= len == |sList| == |queuedList|
        invariant VecScan(State(), i, doneCount) == VecStep(old(State()))
      {
        var (p, f) := PollFuse(sList[i]);
        sList := sList[i := f];
        var hasNew: bool;
        match p {
          case Item(item1) =>
            queuedList := queuedList[i := Some(item1)];
            hasNew := true;
          case End =>
            doneCount := doneCount + 1;
            if queuedList[i].None? {
              return End;
            }
            hasNew := false;
          case NotReady =>
            hasNew := false;
          case Err(e) =>
            return Err(e);
        }
        if hasNew {
          var all := CloneAll(queuedList);
          match all {
            case None =>
              return NotReady;
            case Some(v) =>
              return Item(v);
          }
        }
        i := i + 1;
      }
      if doneCount == len {
        r := End;
      } else {
        r := NotReady;
      }
    }
  }
}
