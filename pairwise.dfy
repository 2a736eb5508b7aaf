/** `Pairwise` (futures 0.3): emits each item of a fused upstream together with the item before
    it, so `n` items give `n - 1` overlapping pairs. */
module PairwiseOp {
  import opened Wrappers
  import opened Futures03

  datatype PairwiseState<T> = PairwiseState(s: Fuse<T>, previous: Option<T>)

  /** `Pairwise::new`. */
  function NewPairwise<T>(s: Script<T>): (st: PairwiseState<T>)
    ensures st.s == Fused(s) && st.previous.None?
  {
    PairwiseState(Fused(s), None)
  }

  /** The rule of one `Pairwise::poll_next` call. */
  function PairwiseStep<T>(st: PairwiseState<T>): (r: (Poll<(T, T)>, PairwiseState<T>))
    // with a previous item, one poll: a new item is paired with it and becomes the previous one
    ensures st.previous.Some? ==>
      var (p, f) := PollFuse(st.s);
      (p.Item? ==> r == (Item((st.previous.value, p.value)), PairwiseState(f, Some(p.value))))
      && (!p.Item? ==> r.1 == PairwiseState(f, st.previous) && (r.0.End? <==> p.End?) && !r.0.Item?)
    // without one, a first poll that does not give an item is the answer
    ensures st.previous.None? ==>
      var (p, f) := PollFuse(st.s);
      !p.Item? ==> r.1 == PairwiseState(f, None) && (r.0.End? <==> p.End?) && !r.0.Item?
    // and a first poll that gives an item stores it and polls once more at once
    ensures st.previous.None? ==>
      var (p, f) := PollFuse(st.s);
      var (q, g) := PollFuse(f);
      p.Item? ==>
        (q.Item? ==> r == (Item((p.value, q.value)), PairwiseState(g, Some(q.value))))
        && (!q.Item? ==> r.1 == PairwiseState(g, Some(p.value)) && (r.0.End? <==> q.End?) && !r.0.Item?)
  {
    var (p, f) := PollFuse(st.s);
    if st.previous.None? && !p.Item? then (if p.End? then End else Pending, PairwiseState(f, None))
    else
      var prev := if st.previous.None? then p.value else st.previous.value;
      var (q, g) := if st.previous.None? then PollFuse(f) else (p, f);
      if q.Item? then (Item((prev, q.value)), PairwiseState(g, Some(q.value)))
      else (if q.End? then End else Pending, PairwiseState(g, Some(prev)))
  }

  /** The pairs a consumer collects in `n` polls, stopping at the end. */
  function PairwiseRun<T>(st: PairwiseState<T>, n: nat): seq<(T, T)>
    decreases n
  {
    if n == 0 then []
    else
      var (p, st') := PairwiseStep(st);
      match p
      case Item(v) => [v] + PairwiseRun(st', n - 1)
      case Pending => PairwiseRun(st', n - 1)
      case End => []
  }

  /** The overlapping pairs of neighbours in `xs`. */
  function Pairs<T>(xs: seq<T>): (ps: seq<(T, T)>)
    ensures |ps| == if |xs| == 0 then 0 else |xs| - 1
    ensures forall i :: 0 <= i < |ps| ==> ps[i] == (xs[i], xs[i + 1])
  {
    if |xs| < 2 then [] else [(xs[0], xs[1])] + Pairs(xs[1..])
  }

  /** One poll with `p` held over an upstream that answers `ys` at once. */
  lemma HeldStep<T>(p: T, ys: seq<T>)
    ensures ys == [] ==> PairwiseStep(PairwiseState(Fused(Emit(ys)), Some(p))).0 == End
    ensures ys != [] ==>
      PairwiseStep(PairwiseState(Fused(Emit(ys)), Some(p)))
        == (Item((p, ys[0])), PairwiseState(Fused(Emit(ys[1..])), Some(ys[0])))
  {
    if ys != [] {
      assert Emit(ys)[1..] == Emit(ys[1..]);
    }
  }

  /** One of the `n` polls answers the end. */
  predicate PairwiseEnds<T>(st: PairwiseState<T>, n: nat)
    decreases n
  {
    n > 0 && (PairwiseStep(st).0.End? || PairwiseEnds(PairwiseStep(st).1, n - 1))
  }

  /** The item held from an earlier poll, if any. */
  function Kept<T>(previous: Option<T>): seq<T>
  {
    if previous.Some? then [previous.value] else []
  }

  /** Pairwise over any finite upstream, with or without an item already held: with one poll more
      than the upstream has answers before its end, the stream pairs every item with the one
      before it, the held one first, whatever `Pending`s come between them, and then ends. */
  lemma {:induction false} PairwiseRunClean<T>(st: PairwiseState<T>, n: nat)
    requires !st.s.done && HasEnd(st.s.script) && n > |BeforeEnd(st.s.script)|
    ensures PairwiseRun(st, n) == Pairs(Kept(st.previous) + ItemsOf(BeforeEnd(st.s.script)))
    ensures PairwiseEnds(st, n)
    decreases |st.s.script|
  {
    var s := st.s.script;
    if !s[0].End? {
      var rest := ItemsOf(BeforeEnd(s[1..]));
      BeforeEndItems(s);
      if s[0].Pending? {
        var st' := PairwiseState(Fused(s[1..]), st.previous);
        PendingStep(st);
        PairwiseRunClean(st', n - 1);
        assert ItemsOf(BeforeEnd(s)) == [] + rest == rest;
        assert PairwiseRun(st', n - 1) == Pairs(Kept(st.previous) + rest);
        assert PairwiseRun(st, n) == PairwiseRun(st', n - 1);
      } else if st.previous.Some? {
        var st' := PairwiseState(Fused(s[1..]), Some(s[0].value));
        HeldItemStep(st);
        PairwiseRunClean(st', n - 1);
        PairsCons(st.previous.value, s[0].value, rest);
        assert Kept(st.previous) + ItemsOf(BeforeEnd(s)) == [st.previous.value] + ([s[0].value] + rest);
      } else {
        var st1 := PairwiseState(Fused(s[1..]), Some(s[0].value));
        FirstItemStep(st);
        PairwiseRunClean(st1, n);
        assert Kept(st.previous) + ItemsOf(BeforeEnd(s)) == [s[0].value] + rest == Kept(st1.previous) + rest;
        assert PairwiseRun(st, n) == PairwiseRun(st1, n);
      }
    }
  }

  /** The items a finite upstream gives before its end: the first answer's item, then the rest's. */
  lemma BeforeEndItems<T>(s: Script<T>)
    requires HasEnd(s) && !s[0].End?
    ensures |BeforeEnd(s)| == |BeforeEnd(s[1..])| + 1
    ensures ItemsOf(BeforeEnd(s)) == (if s[0].Item? then [s[0].value] else []) + ItemsOf(BeforeEnd(s[1..]))
  {
    assert BeforeEnd(s) == [s[0]] + BeforeEnd(s[1..]);
    ItemsOfAppend([s[0]], BeforeEnd(s[1..]));
  }

  /** A `Pending` upstream makes the poll `Pending` and keeps what is held. */
  lemma PendingStep<T>(st: PairwiseState<T>)
    requires !st.s.done && st.s.script != [] && st.s.script[0].Pending?
    ensures PairwiseStep(st) == (Pending, PairwiseState(Fused(st.s.script[1..]), st.previous))
    ensures forall n: nat :: n > 0 ==> PairwiseRun(st, n) == PairwiseRun(PairwiseState(Fused(st.s.script[1..]), st.previous), n - 1)
    ensures forall n: nat :: n > 0 ==> PairwiseEnds(st, n) == PairwiseEnds(PairwiseState(Fused(st.s.script[1..]), st.previous), n - 1)
  {
  }

  /** With an item held, the next item is paired with it and held instead. */
  lemma HeldItemStep<T>(st: PairwiseState<T>)
    requires !st.s.done && st.s.script != [] && st.s.script[0].Item? && st.previous.Some?
    ensures var st' := PairwiseState(Fused(st.s.script[1..]), Some(st.s.script[0].value));
      PairwiseStep(st) == (Item((st.previous.value, st.s.script[0].value)), st')
      && (forall n: nat :: n > 0 ==> PairwiseRun(st, n) == [(st.previous.value, st.s.script[0].value)] + PairwiseRun(st', n - 1))
      && (forall n: nat :: n > 0 ==> PairwiseEnds(st, n) == PairwiseEnds(st', n - 1))
  {
  }

  /** Without an item held, a first item is held and the same poll goes on as if it had been. */
  lemma FirstItemStep<T>(st: PairwiseState<T>)
    requires !st.s.done && st.s.script != [] && st.s.script[0].Item? && st.previous.None?
    ensures var st1 := PairwiseState(Fused(st.s.script[1..]), Some(st.s.script[0].value));
      PairwiseStep(st) == PairwiseStep(st1)
      && (forall n: nat :: PairwiseRun(st, n) == PairwiseRun(st1, n))
      && (forall n: nat :: PairwiseEnds(st, n) == PairwiseEnds(st1, n))
  {
    var st1 := PairwiseState(Fused(st.s.script[1..]), Some(st.s.script[0].value));
    assert PairwiseStep(st) == PairwiseStep(st1);
  }

  lemma PairsCons<T>(p: T, v: T, rest: seq<T>)
    ensures Pairs([p] + ([v] + rest)) == [(p, v)] + Pairs([v] + rest)
  {
    var xs := [p] + ([v] + rest);
    assert xs[0] == p && xs[1] == v && xs[1..] == [v] + rest;
  }

  /** Pairwise over an upstream that answers at once: every pair of neighbours, in order, one per
      poll, then the end; one item or none gives no pair at all. */
  lemma PairwiseRunEmit<T>(xs: seq<T>, n: nat)
    requires n >= |xs| + 1
    ensures PairwiseRun(NewPairwise(Emit(xs)), n) == Pairs(xs)
    ensures PairwiseEnds(NewPairwise(Emit(xs)), n)
  {
    EmitBeforeEnd(xs);
    PairwiseRunClean(NewPairwise(Emit(xs)), n);
    assert Kept<T>(None) + xs == xs;
  }

  /** `of(0..).take(3).pairwise()`. */
  lemma PairwiseExample()
    ensures PairwiseRun(NewPairwise(Emit([0, 1, 2])), 4) == [(0, 1), (1, 2)]
  {
    PairwiseRunEmit([0, 1, 2], 4);
  }

  class Pairwise<T> {
    var s: Fuse<T>
    var previous: Option<T>

    function State(): PairwiseState<T>
      reads this
    {
      PairwiseState(s, previous)
    }

    constructor (upstream: Script<T>)
      ensures State() == NewPairwise(upstream)
    {
      s := Fused(upstream);
      previous := None;
    }

    method PollNext() returns (r: Poll<(T, T)>)
      modifies this
      ensures (r, State()) == PairwiseStep(old(State()))
    {
      if previous.None? {
        var (p, f) := PollFuse(s);
        s := f;
        match p {
          case Pending => return Pending;
          case Item(item) => previous := Some(item);
          case End => return End;
        }
      }
      var (q, g) := PollFuse(s);
      s := g;
      match q {
        case Pending => return Pending;
        case Item(item) =>
          var current := item;
          var prev := previous.value;
          previous := Some(item);
          return Item((prev, current));
        case End => return End;
      }
    }
  }
}
