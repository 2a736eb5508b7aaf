/** `fork_join`: each upstream is folded to its last item (none if it produced none); the two folds
    are joined, and the joined result is turned into a stream that emits at most one pair. */
module ForkJoinOp {
  import opened Wrappers
  import opened Futures01

  /** One poll of a future: done with a value, not yet, or failed. */
  datatype FuturePoll<V, E> = Ready(value: V) | NotYet | Failed(error: E)

  /** The closure `|_, x| future::ok(Some(x))`: the accumulator is replaced by the latest item. */
  function KeepLast<T>(acc: Option<T>, x: T): (r: Option<T>)
    ensures r == Some(x)
  {
    Some(x)
  }

  /** `stream.fold(None, KeepLast)`: the upstream not yet consumed and the accumulator. */
  datatype FoldState<T, E> = FoldState(script: Script<T, E>, last: Option<T>)

  /** One poll of the fold future (futures 0.1 `Fold`): it takes items as long as the upstream has
      them ready, and answers when the upstream ends, fails or is not ready. */
  function FoldStep<T, E>(f: FoldState<T, E>): (r: (FuturePoll<Option<T>, E>, FoldState<T, E>))
    ensures |r.1.script| <= |f.script|
    ensures r.0.Ready? ==> r.0.value == r.1.last
    decreases |f.script|
  {
    var (p, rest) := Pull(f.script);
    match p
    case Item(x) => FoldStep(FoldState(rest, KeepLast(f.last, x)))
    case End => (Ready(f.last), FoldState(rest, f.last))
    case NotReady => (NotYet, FoldState(rest, f.last))
    case Err(e) => (Failed(e), FoldState(rest, f.last))
  }

  /** The last of `xs`, or `acc` when there is none: what folding `xs` with `KeepLast` from `acc`
      should give. */
  function LastOr<T>(xs: seq<T>, acc: Option<T>): (r: Option<T>)
    ensures xs == [] ==> r == acc
    ensures xs != [] ==> r == Some(xs[|xs| - 1])
  {
    if xs == [] then acc else Some(xs[|xs| - 1])
  }

  /** The upstream answers items and `NotReady` only, until it ends at poll `e`. */
  ghost predicate EndsCleanAt<T, E>(s: Script<T, E>, e: nat)
  {
    e < |s| && s[e] == End && forall j :: 0 <= j < e ==> s[j].Item? || s[j].NotReady?
  }

  /** What the fold of such an upstream settles to. */
  function Settle<T, E>(s: Script<T, E>, e: nat, acc: Option<T>): Option<T>
    requires e <= |s|
  {
    LastOr(ItemsOf(s[..e]), acc)
  }

  lemma SettleItem<T, E>(s: Script<T, E>, e: nat, acc: Option<T>)
    requires 0 < e <= |s| && s[0].Item?
    ensures Settle(s[1..], e - 1, Some(s[0].value)) == Settle(s, e, acc)
  {
    assert s[1..][..e - 1] == s[..e][1..];
  }

  lemma SettleSkip<T, E>(s: Script<T, E>, e: nat, acc: Option<T>)
    requires 0 < e <= |s| && s[0].NotReady?
    ensures Settle(s[1..], e - 1, acc) == Settle(s, e, acc)
  {
    assert s[1..][..e - 1] == s[..e][1..];
  }

  /** Fold-to-last, one poll at a time: a poll of the fold either settles to the last item before
      the end (or the initial accumulator if there was none), or consumes part of the upstream,
      leaving a fold that still settles to the same value. */
  lemma {:induction false} FoldStepClean<T, E>(s: Script<T, E>, e: nat, acc: Option<T>) returns (j: nat)
    requires EndsCleanAt(s, e)
    ensures var r := FoldStep(FoldState(s, acc));
      r.0 == Ready(Settle(s, e, acc))
      || (r.0.NotYet? && 0 < j <= e && r.1.script == s[j..] && EndsCleanAt(s[j..], e - j)
          && Settle(s[j..], e - j, r.1.last) == Settle(s, e, acc))
    decreases e
  {
    if s[0].Item? {
      assert e > 0;
      var x := s[0].value;
      assert FoldStep(FoldState(s, acc)) == FoldStep(FoldState(s[1..], Some(x)));
      var j' := FoldStepClean(s[1..], e - 1, Some(x));
      SettleItem(s, e, acc);
      j := j' + 1;
      if FoldStep(FoldState(s, acc)).0.NotYet? {
        assert s[1..][j'..] == s[j..];
      }
    } else if s[0].NotReady? {
      assert e > 0;
      SettleSkip(s, e, acc);
      j := 1;
    } else {
      assert e == 0;
      j := 0;
    }
  }

  /** One side of the join: still folding, or finished with its value. */
  datatype Side<T, E> = Running(fold: FoldState<T, E>) | Finished(result: Option<T>)

  datatype JoinState<A, B, E1, E2> = JoinState(a: Side<A, E1>, b: Side<B, E2>)

  type JoinPoll<A, B, E1, E2> = FuturePoll<(Option<A>, Option<B>), Either<E1, E2>>

  /** One poll of the joined future (futures 0.1 `Join` over the two folds, each with its error
      mapped by `map_err`): the first side is polled unless finished, then the second; a failure of
      either is the failure of the join, tagged with its side; the join is ready once both are. */
  function JoinStep<A, B, E1, E2>(j: JoinState<A, B, E1, E2>): (r: (JoinPoll<A, B, E1, E2>, JoinState<A, B, E1, E2>))
    ensures j.a.Running? && FoldStep(j.a.fold).0.Failed? ==> r.0 == Failed(Left(FoldStep(j.a.fold).0.error))
    ensures !(j.a.Running? && FoldStep(j.a.fold).0.Failed?) && j.b.Running? && FoldStep(j.b.fold).0.Failed? ==>
      r.0 == Failed(Right(FoldStep(j.b.fold).0.error))
    ensures r.0.Failed? <==>
      (j.a.Running? && FoldStep(j.a.fold).0.Failed?) || (j.b.Running? && FoldStep(j.b.fold).0.Failed?)
    ensures !r.0.Failed? ==> r.1 == JoinState(Advance(j.a), Advance(j.b))
    ensures !r.0.Failed? ==>
      (r.0.Ready? <==> Advance(j.a).Finished? && Advance(j.b).Finished?)
    ensures r.0.Ready? ==> r.0.value == (Advance(j.a).result, Advance(j.b).result)
  {
    var (ra, a') := PollSide(j.a);
    if ra.Some? then (Failed(Left(ra.value)), JoinState(a', j.b))
    else
      var (rb, b') := PollSide(j.b);
      if rb.Some? then (Failed(Right(rb.value)), JoinState(a', b'))
      else if a'.Finished? && b'.Finished? then (Ready((a'.result, b'.result)), JoinState(a', b'))
      else (NotYet, JoinState(a', b'))
  }

  /** `MaybeDone::poll` of one side: a finished side is not polled again. The answer is the error
      the fold failed with, if any. */
  function PollSide<T, E>(side: Side<T, E>): (r: (Option<E>, Side<T, E>))
    ensures side.Finished? ==> r == (None, side)
    ensures side.Running? ==> (r.0.Some? <==> FoldStep(side.fold).0.Failed?)
    ensures r.0.None? ==> r.1 == Advance(side)
  {
    match side
    case Finished(_) => (None, side)
    case Running(f) =>
      var (p, f') := FoldStep(f);
      match p
      case Ready(v) => (None, Finished(v))
      case NotYet => (None, Running(f'))
      case Failed(e) => (Some(e), Running(f'))
  }

  /** Where a side that did not fail stands after one poll. */
  function Advance<T, E>(side: Side<T, E>): (r: Side<T, E>)
    ensures side.Finished? ==> r == side
    ensures side.Running? ==> (r.Finished? <==> FoldStep(side.fold).0.Ready?)
    ensures side.Running? && r.Finished? ==> r.result == FoldStep(side.fold).0.value
    ensures r.Running? ==> r.fold == FoldStep(side.fold).1
  {
    match side
    case Finished(_) => side
    case Running(f) =>
      var (p, f') := FoldStep(f);
      if p.Ready? then Finished(p.value) else Running(f')
  }

  /** `ForkJoinFromJoinedFuturesIntoStream`: the joined future until it has answered. */
  type ForkJoinState<A, B, E1, E2> = Option<JoinState<A, B, E1, E2>>

  /** `fork_join`: both upstreams start folding from `None`. */
  function NewForkJoin<A, B, E1, E2>(s1: Script<A, E1>, s2: Script<B, E2>): (st: ForkJoinState<A, B, E1, E2>)
    ensures st == Some(JoinState(Running(FoldState(s1, None)), Running(FoldState(s2, None))))
  {
    Some(JoinState(Running(FoldState(s1, None)), Running(FoldState(s2, None))))
  }

  type ForkJoinPoll<A, B, E1, E2> = Poll<(A, B), Either<E1, E2>>

  /** The rule of one `poll` call of the fork-join stream. */
  function ForkJoinStep<A, B, E1, E2>(st: ForkJoinState<A, B, E1, E2>): (r: (ForkJoinPoll<A, B, E1, E2>, ForkJoinState<A, B, E1, E2>))
    // once the joined future has answered, every poll ends
    ensures st.None? ==> r == (End, None)
    // while it has not, the poll is not ready and the joined future is kept
    ensures st.Some? && JoinStep(st.value).0.NotYet? ==> r == (NotReady, Some(JoinStep(st.value).1))
    // any other answer is the last one: the future is dropped
    ensures r.0.NotReady? <==> st.Some? && JoinStep(st.value).0.NotYet?
    ensures !r.0.NotReady? ==> r.1.None?
    // a failure is passed on, a pair is emitted only when both sides have a last item
    ensures st.Some? && JoinStep(st.value).0.Failed? ==> r.0 == Err(JoinStep(st.value).0.error)
    ensures r.0.Item? <==> (st.Some? && JoinStep(st.value).0.Ready?
      && JoinStep(st.value).0.value.0.Some? && JoinStep(st.value).0.value.1.Some?)
    ensures r.0.Item? ==>
      r.0.value == (JoinStep(st.value).0.value.0.value, JoinStep(st.value).0.value.1.value)
  {
    match st
    case None => (End, None)
    case Some(j) =>
      var (p, j') := JoinStep(j);
      match p
      case NotYet => (NotReady, Some(j'))
      case Failed(e) => (Err(e), None)
      case Ready(v) =>
        if v.0.Some? && v.1.Some? then (Item((v.0.value, v.1.value)), None) else (End, None)
  }

  /** The pairs a consumer collects in `n` polls, stopping at the first end or error. */
  function ForkJoinRun<A, B, E1, E2>(st: ForkJoinState<A, B, E1, E2>, n: nat): seq<(A, B)>
    decreases n
  {
    if n == 0 then []
    else
      var (p, st') := ForkJoinStep(st);
      match p
      case Item(v) => [v] + ForkJoinRun(st', n - 1)
      case NotReady => ForkJoinRun(st', n - 1)
      case End => []
      case Err(_) => []
  }

  /** A side whose upstream will end cleanly at poll `e` of what is left of it. */
  ghost predicate SideClean<T, E>(side: Side<T, E>, e: nat)
  {
    side.Finished? || EndsCleanAt(side.fold.script, e)
  }

  /** The value such a side settles to, and how many more polls it may take at most. */
  ghost function SideValue<T, E>(side: Side<T, E>, e: nat): Option<T>
    requires SideClean(side, e)
  {
    if side.Finished? then side.result else Settle(side.fold.script, e, side.fold.last)
  }

  ghost function Bound<T, E>(side: Side<T, E>, e: nat): nat
  {
    if side.Finished? then 0 else e + 1
  }

  /** One poll of a clean side: it does not fail, it keeps the value it settles to, and it comes
      strictly closer to finishing. */
  lemma AdvanceClean<T, E>(side: Side<T, E>, e: nat) returns (e': nat)
    requires SideClean(side, e)
    ensures side.Running? ==> !FoldStep(side.fold).0.Failed?
    ensures SideClean(Advance(side), e') && SideValue(Advance(side), e') == SideValue(side, e)
    ensures side.Running? ==> Bound(Advance(side), e') < Bound(side, e)
    ensures side.Finished? ==> Advance(side) == side && e' == e
  {
    if side.Running? {
      var j := FoldStepClean(side.fold.script, e, side.fold.last);
      if FoldStep(side.fold).0.Ready? {
        e' := 0;
      } else {
        e' := e - j;
      }
    } else {
      e' := e;
    }
  }

  /** The one-shot pair: both last values when both sides had one, nothing otherwise. */
  function OneShot<A, B>(v1: Option<A>, v2: Option<B>): (r: seq<(A, B)>)
    ensures |r| <= 1
    ensures r != [] <==> v1.Some? && v2.Some?
    ensures r != [] ==> r[0] == (v1.value, v2.value)
  {
    if v1.Some? && v2.Some? then [(v1.value, v2.value)] else []
  }

  /** Fork-join: over upstreams that end without failing, the stream emits one pair of their last
      items, or nothing when either produced no item, and then ends. */
  lemma {:induction false} ForkJoinSettles<A, B, E1, E2>(a: Side<A, E1>, ea: nat, b: Side<B, E2>, eb: nat, n: nat)
    requires SideClean(a, ea) && SideClean(b, eb)
    requires n > Bound(a, ea) && n > Bound(b, eb)
    ensures ForkJoinRun(Some(JoinState(a, b)), n) == OneShot(SideValue(a, ea), SideValue(b, eb))
    decreases Bound(a, ea) + Bound(b, eb)
  {
    var ea' := AdvanceClean(a, ea);
    var eb' := AdvanceClean(b, eb);
    if Advance(a).Finished? && Advance(b).Finished? {
      SettlesNow(a, ea, b, eb, n, ea', eb');
    } else {
      assert a.Running? || b.Running?;
      ForkJoinSettles(Advance(a), ea', Advance(b), eb', n - 1);
      SettlesLater(a, ea, b, eb, n, ea', eb');
    }
  }

  /** Both sides finish on this poll: the one-shot answer, and then the end. */
  lemma SettlesNow<A, B, E1, E2>(a: Side<A, E1>, ea: nat, b: Side<B, E2>, eb: nat, n: nat, ea': nat, eb': nat)
    requires SideClean(a, ea) && SideClean(b, eb) && n >= 1
    requires a.Running? ==> !FoldStep(a.fold).0.Failed?
    requires b.Running? ==> !FoldStep(b.fold).0.Failed?
    requires SideClean(Advance(a), ea') && SideValue(Advance(a), ea') == SideValue(a, ea)
    requires SideClean(Advance(b), eb') && SideValue(Advance(b), eb') == SideValue(b, eb)
    requires Advance(a).Finished? && Advance(b).Finished?
    ensures ForkJoinRun(Some(JoinState(a, b)), n) == OneShot(SideValue(a, ea), SideValue(b, eb))
  {
    var j := JoinState(a, b);
    assert JoinStep(j).0 == Ready((SideValue(a, ea), SideValue(b, eb)));
    assert ForkJoinRun<A, B, E1, E2>(None, n - 1) == [];
  }

  /** Some side is still folding after this poll: the answer is `NotReady`, and the run goes on
      from the advanced sides, which settle to the same values. */
  lemma SettlesLater<A, B, E1, E2>(a: Side<A, E1>, ea: nat, b: Side<B, E2>, eb: nat, n: nat, ea': nat, eb': nat)
    requires SideClean(a, ea) && SideClean(b, eb) && n >= 1
    requires a.Running? ==> !FoldStep(a.fold).0.Failed?
    requires b.Running? ==> !FoldStep(b.fold).0.Failed?
    requires SideClean(Advance(a), ea') && SideValue(Advance(a), ea') == SideValue(a, ea)
    requires SideClean(Advance(b), eb') && SideValue(Advance(b), eb') == SideValue(b, eb)
    requires !(Advance(a).Finished? && Advance(b).Finished?)
    requires ForkJoinRun(Some(JoinState(Advance(a), Advance(b))), n - 1)
      == OneShot(SideValue(Advance(a), ea'), SideValue(Advance(b), eb'))
    ensures ForkJoinRun(Some(JoinState(a, b)), n) == OneShot(SideValue(a, ea), SideValue(b, eb))
  {
    var j := JoinState(a, b);
    assert JoinStep(j) == (NotYet, JoinState(Advance(a), Advance(b)));
  }

  /** The items before the end of `Emit(xs)` are `xs`. */
  lemma {:induction false} ItemsOfEmitPrefix<T, E>(xs: seq<T>)
    ensures ItemsOf(Emit<T, E>(xs)[..|xs|]) == xs
  {
    if xs != [] {
      var p := Emit<T, E>(xs)[..|xs|];
      assert ItemsOf(Emit<T, E>(xs[1..])[..|xs| - 1]) == xs[1..] by { ItemsOfEmitPrefix<T, E>(xs[1..]); }
      assert p[0] == Item(xs[0]) && p[1..] == Emit<T, E>(xs[1..])[..|xs| - 1] by {
        assert Emit<T, E>(xs) == [Item(xs[0])] + Emit<T, E>(xs[1..]);
      }
      assert ItemsOf(p) == [xs[0]] + ItemsOf(p[1..]);
    }
  }

  /** A side over a finite upstream that answers at once settles to the last of its items. */
  lemma EmitSide<T, E>(xs: seq<T>)
    ensures SideClean(Running(FoldState(Emit<T, E>(xs), None)), |xs|)
    ensures SideValue(Running(FoldState(Emit<T, E>(xs), None)), |xs|) == LastOr(xs, None)
  {
    ItemsOfEmitPrefix<T, E>(xs);
  }

  /** `of(1..3)` against `of(3..).take(4)`: the pair of last items. */
  lemma JoinTwoExample()
    ensures ForkJoinRun(NewForkJoin(Emit<int, bool>([1, 2]), Emit<int, bool>([3, 4, 5, 6])), 6) == [(2, 6)]
  {
    var s1, s2 := Emit<int, bool>([1, 2]), Emit<int, bool>([3, 4, 5, 6]);
    EmitSide<int, bool>([1, 2]);
    EmitSide<int, bool>([3, 4, 5, 6]);
    ForkJoinSettles(Running(FoldState(s1, None)), 2, Running(FoldState(s2, None)), 4, 6);
  }

  /** An empty upstream: nothing is emitted. */
  lemma JoinEmptyExample()
    ensures ForkJoinRun(NewForkJoin(Emit<int, bool>([]), Emit<int, bool>([3, 4, 5, 6])), 6) == []
  {
    var s1, s2 := Emit<int, bool>([]), Emit<int, bool>([3, 4, 5, 6]);
    EmitSide<int, bool>([]);
    EmitSide<int, bool>([3, 4, 5, 6]);
    ForkJoinSettles(Running(FoldState(s1, None)), 0, Running(FoldState(s2, None)), 4, 6);
  }

  class ForkJoin<A, B, E1, E2> {
    var fut: ForkJoinState<A, B, E1, E2>

    constructor (s1: Script<A, E1>, s2: Script<B, E2>)
      ensures fut == NewForkJoin(s1, s2)
    {
      fut := NewForkJoin(s1, s2);
    }

    method Poll() returns (r: ForkJoinPoll<A, B, E1, E2>)
      modifies this
      ensures (r, fut) == ForkJoinStep(old(fut))
    {
      var ret: ForkJoinPoll<A, B, E1, E2>;
      match fut {
        case None =>
          return End;
        case Some(f) =>
          var (p, f') := JoinStep(f);
          fut := Some(f');
          match p {
            case NotYet =>
              return NotReady;
            case Failed(e) =>
              ret := Err(e);
            case Ready(v) =>
              if v.0.Some? && v.1.Some? {
                ret := Item((v.0.value, v.1.value));
              } else {
                ret := End;
              }
          }
      }
      fut := None;
      return ret;
    }
  }
}
