/** The older futures 0.1 `BufferedStream` with its `SimpleCountBuffer`.

    The count buffer itself behaves as the newer one (`CountBufferPolicy`): `insert` appends and
    `poll_buffer` hands out the whole batch exactly when `max_count` items are held. The engine
    differs: its upstream is not fused, errors and `NotReady` pass through, and at the upstream's
    end only `poll_buffer` is asked once more, so a partial trailing batch is kept, never handed
    out. */
module LegacyBuffer {
  import opened Wrappers
  import opened Futures01
  import CB = CountBufferPolicy
  import F3 = Futures03

  /** `BufferedStream { s, buffer }` with its count buffer; `s` is the raw upstream. */
  datatype Legacy<V, E> = Legacy(s: Script<V, E>, buffer: CB.CountBuffer<V>)

  /** `SimpleCountBufferedStream::new`: the upstream as it is, and an empty buffer. */
  function NewLegacy<V, E>(upstream: Script<V, E>, maxCount: nat): (st: Legacy<V, E>)
    ensures st.s == upstream && st.buffer.vec == [] && st.buffer.maxCount == maxCount
  {
    Legacy(upstream, CB.NewCountBuffer(maxCount))
  }

  /** `BufferedStream::poll`: a full batch is handed out first; otherwise one raw poll of the
      upstream, whose item is inserted before the loop goes round again, and whose `NotReady` or
      error is passed on. At the end, `poll_buffer` is asked once more. */
  function LegacyPoll<V, E>(st: Legacy<V, E>): (r: (Poll<seq<V>, E>, Legacy<V, E>))
    ensures r.1.buffer.maxCount == st.buffer.maxCount
    ensures |r.1.s| <= |st.s|
    ensures r.0.Item? ==> |r.0.value| == st.buffer.maxCount
    ensures r.0.Item? ==> r.1.buffer.vec == []
    decreases |st.s|
  {
    var (out, b) := CB.CountPoll(st.buffer);
    if out.Some? then (Item(out.value), Legacy(st.s, b))
    else
      var (p, rest) := Pull(st.s);
      match p
      case Item(v) => LegacyPoll(Legacy(rest, CB.CountInsert(b, v)))
      case NotReady => (NotReady, Legacy(rest, b))
      case Err(e) => (Err(e), Legacy(rest, b))
      case End =>
        var (last, b') := CB.CountPoll(b);
        (LastChance(last), Legacy(rest, b'))
  }

  /** The answer made of the last call to `poll_buffer`: its batch, or the end. This is the
      futures 0.1 counterpart of `BufferedStreamEngine.Answer`, over this protocol's poll type. */
  function LastChance<V, E>(last: Option<seq<V>>): Poll<seq<V>, E>
  {
    match last
    case Some(b) => Item(b)
    case None => End
  }

  /** The answers of `n` successive polls. The stream is not fused, so polling goes on after an
      end, and what it then answers is whatever the raw upstream answers. */
  function LegacyTrace<V, E>(st: Legacy<V, E>, n: nat): (ps: seq<Poll<seq<V>, E>>)
    ensures |ps| == n
    decreases n
  {
    if n == 0 then [] else [LegacyPoll(st).0] + LegacyTrace(LegacyPoll(st).1, n - 1)
  }

  function Batch<V, E>(p: Poll<seq<V>, E>): seq<V>
  {
    if p.Item? then p.value else []
  }

  // The ways one poll can go.

  lemma TurnReady<V, E>(st: Legacy<V, E>)
    requires |st.buffer.vec| == st.buffer.maxCount
    ensures LegacyPoll(st) == (Item(st.buffer.vec), Legacy(st.s, st.buffer.(vec := [])))
  {
  }

  lemma TurnItem<V, E>(st: Legacy<V, E>)
    requires |st.buffer.vec| != st.buffer.maxCount && st.s != [] && st.s[0].Item?
    ensures LegacyPoll(st) == LegacyPoll(Legacy(st.s[1..], CB.CountInsert(st.buffer, st.s[0].value)))
  {
  }

  /** The end of the upstream: the last call to `poll_buffer` sees the buffer the first call has
      just refused, so it refuses it too, and the held items stay where they are. */
  lemma TurnEnd<V, E>(st: Legacy<V, E>)
    requires |st.buffer.vec| != st.buffer.maxCount && st.s != [] && st.s[0].End?
    ensures LegacyPoll(st) == (End, Legacy(st.s[1..], st.buffer))
  {
  }

  lemma TurnOther<V, E>(st: Legacy<V, E>)
    requires |st.buffer.vec| != st.buffer.maxCount && (st.s == [] || st.s[0].NotReady? || st.s[0].Err?)
    ensures st.s == [] ==> LegacyPoll(st) == (NotReady, st)
    ensures st.s != [] && st.s[0].NotReady? ==> LegacyPoll(st) == (NotReady, Legacy(st.s[1..], st.buffer))
    ensures st.s != [] && st.s[0].Err? ==> LegacyPoll(st) == (Err(st.s[0].error), Legacy(st.s[1..], st.buffer))
  {
  }

  /** Every poll keeps the items: those held before, followed by the items it pulled from the
      upstream, are the batch it hands out followed by those held after. */
  lemma {:induction false} PollConserves<V, E>(st: Legacy<V, E>)
    ensures var r := LegacyPoll(st);
      st.buffer.vec + ItemsOf(st.s[..|st.s| - |r.1.s|]) == Batch(r.0) + r.1.buffer.vec
    decreases |st.s|
  {
    var r := LegacyPoll(st);
    if |st.buffer.vec| == st.buffer.maxCount {
      TurnReady(st);
      assert st.s[..|st.s| - |r.1.s|] == [];
    } else if st.s == [] || st.s[0].NotReady? || st.s[0].Err? || st.s[0].End? {
      if st.s == [] {
        TurnOther(st);
      } else {
        if st.s[0].End? { TurnEnd(st); } else { TurnOther(st); }
        ItemsOfOne(st.s, |r.1.s|);
      }
    } else {
      var st' := Legacy(st.s[1..], CB.CountInsert(st.buffer, st.s[0].value));
      TurnItem(st);
      PollConserves(st');
      ConservesItem(st, st', r);
    }
  }

  /** A stretch made of one non-item answer has no items. */
  lemma ItemsOfOne<V, E>(s: Script<V, E>, k: nat)
    requires s != [] && !s[0].Item? && k == |s| - 1
    ensures ItemsOf(s[..|s| - k]) == []
  {
    assert s[..|s| - k] == [s[0]];
    assert ItemsOf([s[0]]) == [] + ItemsOf<V, E>([]);
  }

  /** The step of `PollConserves` for an item: only sequence bookkeeping. */
  lemma ConservesItem<V, E>(st: Legacy<V, E>, st': Legacy<V, E>, r: (Poll<seq<V>, E>, Legacy<V, E>))
    requires st.s != [] && st.s[0].Item?
    requires st' == Legacy(st.s[1..], CB.CountInsert(st.buffer, st.s[0].value))
    requires |r.1.s| <= |st'.s|
    requires st'.buffer.vec + ItemsOf(st'.s[..|st'.s| - |r.1.s|]) == Batch(r.0) + r.1.buffer.vec
    ensures st.buffer.vec + ItemsOf(st.s[..|st.s| - |r.1.s|]) == Batch(r.0) + r.1.buffer.vec
  {
    var pulled := st.s[..|st.s| - |r.1.s|];
    assert pulled == [st.s[0]] + st'.s[..|st'.s| - |r.1.s|];
    assert pulled[0] == st.s[0] && pulled[1..] == st'.s[..|st'.s| - |r.1.s|];
    assert ItemsOf(pulled) == [st.s[0].value] + ItemsOf(st'.s[..|st'.s| - |r.1.s|]);
  }

  /** An end answered by the stream keeps everything it holds: the items held before and those
      just pulled are all still in the buffer, none handed out. */
  lemma EndKeepsLeftover<V, E>(st: Legacy<V, E>)
    requires LegacyPoll(st).0.End?
    ensures LegacyPoll(st).1.buffer.vec == st.buffer.vec + ItemsOf(st.s[..|st.s| - |LegacyPoll(st).1.s|])
  {
    PollConserves(st);
  }

  // A finite upstream, from start to end.

  /** The script of `xs`'s items, with nothing after them. */
  function Items<V, E>(xs: seq<V>): Script<V, E>
  {
    seq(|xs|, i requires 0 <= i < |xs| => Item(xs[i]))
  }

  /** The full batches of `m` that `xs` makes, in order; what is left over is fewer than `m`. */
  function FullChunks<V>(xs: seq<V>, m: nat): seq<seq<V>>
    requires m >= 1
    decreases |xs|
  {
    if |xs| < m then [] else [xs[..m]] + FullChunks(xs[m..], m)
  }

  function Leftover<V>(xs: seq<V>, m: nat): seq<V>
    requires m >= 1
    decreases |xs|
  {
    if |xs| < m then xs else Leftover(xs[m..], m)
  }

  /** The full batches followed by the leftover are `xs`; every batch has `m` items and the
      leftover fewer than `m`. */
  lemma FullChunksPartition<V>(xs: seq<V>, m: nat)
    requires m >= 1
    ensures F3.Flatten(FullChunks(xs, m)) + Leftover(xs, m) == xs
    ensures forall i :: 0 <= i < |FullChunks(xs, m)| ==> |FullChunks(xs, m)[i]| == m
    ensures |Leftover(xs, m)| < m
  {
    FullChunksFlatten(xs, m);
    FullChunksSized(xs, m);
    LeftoverShort(xs, m);
  }

  lemma {:induction false} FullChunksFlatten<V>(xs: seq<V>, m: nat)
    requires m >= 1
    ensures F3.Flatten(FullChunks(xs, m)) + Leftover(xs, m) == xs
    decreases |xs|
  {
    if |xs| >= m {
      var cs := FullChunks(xs[m..], m);
      var l := Leftover(xs[m..], m);
      assert F3.Flatten(cs) + l == xs[m..] by { FullChunksFlatten(xs[m..], m); }
      assert F3.Flatten(FullChunks(xs, m)) == xs[..m] + F3.Flatten(cs) by { FlattenCons(xs[..m], cs); }
      Regroup(xs, m, F3.Flatten(cs), l);
    }
  }

  lemma Regroup<V>(xs: seq<V>, m: nat, f: seq<V>, l: seq<V>)
    requires m <= |xs| && f + l == xs[m..]
    ensures xs[..m] + f + l == xs
  {
    assert xs[..m] + f + l == xs[..m] + (f + l);
    assert xs == xs[..m] + xs[m..];
  }

  lemma FlattenCons<V>(b: seq<V>, cs: seq<seq<V>>)
    ensures F3.Flatten([b] + cs) == b + F3.Flatten(cs)
  {
    assert ([b] + cs)[1..] == cs;
  }

  lemma {:induction false} FullChunksSized<V>(xs: seq<V>, m: nat)
    requires m >= 1
    ensures forall i :: 0 <= i < |FullChunks(xs, m)| ==> |FullChunks(xs, m)[i]| == m
    decreases |xs|
  {
    if |xs| >= m {
      FullChunksSized(xs[m..], m);
      assert FullChunks(xs, m) == [xs[..m]] + FullChunks(xs[m..], m);
    }
  }

  lemma {:induction false} LeftoverShort<V>(xs: seq<V>, m: nat)
    requires m >= 1
    ensures |Leftover(xs, m)| < m
    decreases |xs|
  {
    if |xs| >= m {
      LeftoverShort(xs[m..], m);
    }
  }

  /** The answers that hand out `bs`, one batch per poll. */
  function Answers<V, E>(bs: seq<seq<V>>): seq<Poll<seq<V>, E>>
  {
    seq(|bs|, i requires 0 <= i < |bs| => Item(bs[i]))
  }

  lemma ItemsSplit<V, E>(ys: seq<V>, rest: Script<V, E>)
    requires ys != []
    ensures (Items<V, E>(ys) + rest)[0] == Item(ys[0])
    ensures (Items<V, E>(ys) + rest)[1..] == Items<V, E>(ys[1..]) + rest
  {
  }

  /** One poll with `vec` held and the items `ys` next in the upstream, when they fill the
      buffer exactly: the batch `vec + ys`, with the upstream just past them. */
  lemma {:induction false} PollFills<V, E>(vec: seq<V>, m: nat, ys: seq<V>, rest: Script<V, E>)
    requires |vec| + |ys| == m
    ensures LegacyPoll(Legacy(Items(ys) + rest, CB.CountBuffer(vec, m)))
      == (Item(vec + ys), Legacy(rest, CB.CountBuffer([], m)))
    decreases |ys|
  {
    var st := Legacy(Items<V, E>(ys) + rest, CB.CountBuffer(vec, m));
    if ys == [] {
      assert Items<V, E>(ys) + rest == rest;
      assert vec + ys == vec;
      TurnReady(st);
    } else {
      ItemsSplit(ys, rest);
      TurnItem(st);
      PollFills(vec + [ys[0]], m, ys[1..], rest);
      assert vec + [ys[0]] + ys[1..] == vec + ys;
    }
  }

  /** One poll with `vec` held when the upstream ends after the items `ys` before the buffer is
      full: the end, with all of `vec + ys` still held. */
  lemma {:induction false} PollEndsShort<V, E>(vec: seq<V>, m: nat, ys: seq<V>, rest: Script<V, E>)
    requires |vec| + |ys| < m
    ensures LegacyPoll(Legacy(Items(ys) + ([End] + rest), CB.CountBuffer(vec, m)))
      == (End, Legacy(rest, CB.CountBuffer(vec + ys, m)))
    decreases |ys|
  {
    var st := Legacy(Items<V, E>(ys) + ([End] + rest), CB.CountBuffer(vec, m));
    if ys == [] {
      assert Items<V, E>(ys) + ([End] + rest) == [End] + rest;
      TurnEnd(st);
      assert vec + ys == vec;
    } else {
      ItemsSplit(ys, [End] + rest);
      TurnItem(st);
      PollEndsShort(vec + [ys[0]], m, ys[1..], rest);
      assert vec + [ys[0]] + ys[1..] == vec + ys;
    }
  }

  lemma TraceStep<V, E>(st: Legacy<V, E>, n: nat, p: Poll<seq<V>, E>, st': Legacy<V, E>)
    requires n >= 1 && LegacyPoll(st) == (p, st')
    ensures LegacyTrace(st, n) == [p] + LegacyTrace(st', n - 1)
  {
  }

  /** The answers of an upstream that are not items, in order, with the item type forgotten. */
  function Signals<T, E>(s: Script<T, E>): (r: seq<Poll<(), E>>)
    ensures |r| <= |s|
    ensures forall i :: 0 <= i < |r| ==> !r[i].Item?
  {
    if s == [] then []
    else (if s[0].Item? then [] else [Signal(s[0])]) + Signals(s[1..])
  }

  function Signal<T, E>(p: Poll<T, E>): Poll<(), E>
  {
    match p
    case Item(_) => Item(())
    case End => End
    case NotReady => NotReady
    case Err(e) => Err(e)
  }

  /** A non-item answer of the upstream, passed on by the stream. */
  function Forward<V, E>(p: Poll<V, E>): (q: Poll<seq<V>, E>)
    requires !p.Item?
    ensures !q.Item? && Signal(q) == Signal(p)
  {
    match p
    case End => End
    case NotReady => NotReady
    case Err(e) => Err(e)
  }

  /** What the stream answers while its upstream gives the stretch `u`, from `h` held: each item
      is held, the poll that pulls the `m`-th one hands the batch out, and every other answer of
      the upstream is passed on as it comes. With what is held afterwards. */
  function AnswersOver<V, E>(h: seq<V>, u: Script<V, E>, m: nat): (r: (seq<Poll<seq<V>, E>>, seq<V>))
    requires |h| < m
    ensures |r.1| < m
    decreases |u|
  {
    if u == [] then ([], h)
    else if u[0].Item? then
      if |h| + 1 == m then
        var r' := AnswersOver([], u[1..], m);
        ([Item(h + [u[0].value])] + r'.0, r'.1)
      else AnswersOver(h + [u[0].value], u[1..], m)
    else
      var r' := AnswersOver(h, u[1..], m);
      ([Forward(u[0])] + r'.0, r'.1)
  }

  /** `AnswersOver` loses, duplicates and reorders nothing: its batches are the full batches of
      `m` made of the held items followed by the stretch's items, what is held afterwards is the
      leftover, and its other answers are exactly the stretch's non-item answers, in order. */
  lemma {:induction false} AnswersOverBatches<V, E>(h: seq<V>, u: Script<V, E>, m: nat)
    requires |h| < m
    ensures Accounted(h, u, m)
    decreases |u|
  {
    if u == [] {
      assert h + ItemsOf(u) == h;
    } else if u[0].Item? {
      if |h| + 1 == m {
        AnswersOverBatches([], u[1..], m);
        FillCase(h, u, m);
      } else {
        AnswersOverBatches(h + [u[0].value], u[1..], m);
        HoldCase(h, u, m);
      }
    } else {
      AnswersOverBatches(h, u[1..], m);
      OtherCase(h, u, m);
    }
  }

  /** What `AnswersOverBatches` states of one stretch. */
  ghost predicate Accounted<V, E>(h: seq<V>, u: Script<V, E>, m: nat)
    requires |h| < m
  {
    var r := AnswersOver(h, u, m);
    ItemsOf(r.0) == FullChunks(h + ItemsOf(u), m) && r.1 == Leftover(h + ItemsOf(u), m)
    && Signals(r.0) == Signals(u)
  }

  lemma FillCase<V, E>(h: seq<V>, u: Script<V, E>, m: nat)
    requires |h| + 1 == m && u != [] && u[0].Item? && Accounted([], u[1..], m)
    ensures Accounted(h, u, m)
  {
    var h' := h + [u[0].value];
    var items := ItemsOf(u[1..]);
    var r' := AnswersOver([], u[1..], m);
    assert AnswersOver(h, u, m) == ([Item(h')] + r'.0, r'.1);
    assert ItemsOf(u) == [u[0].value] + items;
    assert Signals(u) == Signals(u[1..]);
    assert [] + items == items;
    assert h + ItemsOf(u) == h' + items;
    HeadAnswer(Item(h'), r'.0);
    assert (h' + items)[..m] == h' && (h' + items)[m..] == items;
  }

  lemma HoldCase<V, E>(h: seq<V>, u: Script<V, E>, m: nat)
    requires |h| + 1 < m && u != [] && u[0].Item? && Accounted(h + [u[0].value], u[1..], m)
    ensures Accounted(h, u, m)
  {
    var items := ItemsOf(u[1..]);
    assert AnswersOver(h, u, m) == AnswersOver(h + [u[0].value], u[1..], m);
    assert ItemsOf(u) == [u[0].value] + items;
    assert Signals(u) == Signals(u[1..]);
    assert h + ItemsOf(u) == h + [u[0].value] + items;
  }

  lemma OtherCase<V, E>(h: seq<V>, u: Script<V, E>, m: nat)
    requires |h| < m && u != [] && !u[0].Item? && Accounted(h, u[1..], m)
    ensures Accounted(h, u, m)
  {
    var r' := AnswersOver(h, u[1..], m);
    assert AnswersOver(h, u, m) == ([Forward(u[0])] + r'.0, r'.1);
    assert ItemsOf(u) == ItemsOf(u[1..]);
    assert Signals(u) == [Signal(u[0])] + Signals(u[1..]);
    HeadAnswer(Forward(u[0]), r'.0);
  }

  lemma HeadAnswer<V, E>(p: Poll<seq<V>, E>, ps: seq<Poll<seq<V>, E>>)
    ensures ItemsOf([p] + ps) == (if p.Item? then [p.value] else []) + ItemsOf(ps)
    ensures Signals([p] + ps) == (if p.Item? then [] else [Signal(p)]) + Signals(ps)
  {
    assert ([p] + ps)[0] == p && ([p] + ps)[1..] == ps;
  }

  lemma TraceSame<V, E>(st: Legacy<V, E>, st1: Legacy<V, E>, n: nat)
    requires LegacyPoll(st) == LegacyPoll(st1)
    ensures LegacyTrace(st, n) == LegacyTrace(st1, n)
  {
  }

  /** The upstream past the end of a finite script. */
  function AfterEnd<V, E>(s: Script<V, E>): Script<V, E>
    requires HasEnd(s)
  {
    s[|BeforeEnd(s)| + 1..]
  }

  /** A finite upstream, from `h` held, with enough polls: the stream answers what `AnswersOver`
      says of the stretch before the end, then the end while keeping the leftover, and from then
      on whatever the rest of the upstream gives, since nothing is fused. */
  lemma {:induction false} LegacyRunFrom<V, E>(h: seq<V>, s: Script<V, E>, m: nat, n: nat)
    requires |h| < m && HasEnd(s)
    ensures RunsAsAnswered(h, s, m, n)
    decreases |s|
  {
    if s[0].End? {
      EndRun(h, s, m, n);
    } else if s[0].Item? {
      if |h| + 1 < m {
        LegacyRunFrom(h + [s[0].value], s[1..], m, n);
        HoldRun(h, s, m, n);
      } else if n >= 1 {
        LegacyRunFrom([], s[1..], m, n - 1);
        FillRun(h, s, m, n);
      }
    } else if n >= 1 {
      LegacyRunFrom(h, s[1..], m, n - 1);
      OtherRun(h, s, m, n);
    }
  }

  /** What `LegacyRunFrom` states of one upstream and one number of polls. */
  ghost predicate RunsAsAnswered<V, E>(h: seq<V>, s: Script<V, E>, m: nat, n: nat)
    requires |h| < m && HasEnd(s)
  {
    var r := AnswersOver(h, BeforeEnd(s), m);
    n > |r.0| ==>
      LegacyTrace(Legacy(s, CB.CountBuffer(h, m)), n)
        == r.0 + [End] + LegacyTrace(Legacy(AfterEnd(s), CB.CountBuffer(r.1, m)), n - |r.0| - 1)
  }

  lemma EndRun<V, E>(h: seq<V>, s: Script<V, E>, m: nat, n: nat)
    requires |h| < m && HasEnd(s) && s[0].End?
    ensures RunsAsAnswered(h, s, m, n)
  {
    var st := Legacy(s, CB.CountBuffer(h, m));
    assert BeforeEnd(s) == [] && AfterEnd(s) == s[1..];
    if n >= 1 {
      TurnEnd(st);
      TraceStep(st, n, End, Legacy(s[1..], st.buffer));
    }
  }

  lemma SplitEnd<V, E>(s: Script<V, E>)
    requires HasEnd(s) && !s[0].End?
    ensures HasEnd(s[1..]) && BeforeEnd(s) == [s[0]] + BeforeEnd(s[1..])
    ensures AfterEnd(s) == AfterEnd(s[1..])
  {
  }

  lemma HoldRun<V, E>(h: seq<V>, s: Script<V, E>, m: nat, n: nat)
    requires |h| + 1 < m && HasEnd(s) && s[0].Item?
    requires HasEnd(s[1..]) && RunsAsAnswered(h + [s[0].value], s[1..], m, n)
    ensures RunsAsAnswered(h, s, m, n)
  {
    SplitEnd(s);
    var u := BeforeEnd(s);
    assert u[0] == s[0] && u[1..] == BeforeEnd(s[1..]);
    assert AnswersOver(h, u, m) == AnswersOver(h + [s[0].value], BeforeEnd(s[1..]), m);
    var st := Legacy(s, CB.CountBuffer(h, m));
    TurnItem(st);
    TraceSame(st, Legacy(s[1..], CB.CountBuffer(h + [s[0].value], m)), n);
  }

  lemma FillAnswers<V, E>(h: seq<V>, s: Script<V, E>, m: nat)
    requires |h| + 1 == m && HasEnd(s) && s[0].Item?
    ensures HasEnd(s[1..])
    ensures var r' := AnswersOver([], BeforeEnd(s[1..]), m);
      AnswersOver(h, BeforeEnd(s), m) == ([Item(h + [s[0].value])] + r'.0, r'.1)
  {
    SplitEnd(s);
    var u := BeforeEnd(s);
    assert u[0] == s[0] && u[1..] == BeforeEnd(s[1..]);
  }

  lemma FillRun<V, E>(h: seq<V>, s: Script<V, E>, m: nat, n: nat)
    requires |h| + 1 == m && HasEnd(s) && s[0].Item? && n >= 1
    requires HasEnd(s[1..]) && RunsAsAnswered([], s[1..], m, n - 1)
    ensures RunsAsAnswered(h, s, m, n)
  {
    FillAnswers(h, s, m);
    SplitEnd(s);
    var h' := h + [s[0].value];
    var r' := AnswersOver([], BeforeEnd(s[1..]), m);
    var ps := [Item(h')] + r'.0;
    if n > |ps| {
      var st := Legacy(s, CB.CountBuffer(h, m));
      var st1 := Legacy(s[1..], CB.CountBuffer(h', m));
      var st2 := Legacy(s[1..], CB.CountBuffer([], m));
      var tail := LegacyTrace(Legacy(AfterEnd(s), CB.CountBuffer(r'.1, m)), n - |ps| - 1);
      assert LegacyPoll(st) == LegacyPoll(st1) by {
        TurnItem(st);
      }
      TraceSame(st, st1, n);
      TurnReady(st1);
      ConsRun(st1, st2, n, Item(h'), r'.0, tail);
    }
  }

  lemma OtherAnswers<V, E>(h: seq<V>, s: Script<V, E>, m: nat)
    requires |h| < m && HasEnd(s) && (s[0].NotReady? || s[0].Err?)
    ensures HasEnd(s[1..])
    ensures var r' := AnswersOver(h, BeforeEnd(s[1..]), m);
      AnswersOver(h, BeforeEnd(s), m) == ([Forward(s[0])] + r'.0, r'.1)
  {
    SplitEnd(s);
    var u := BeforeEnd(s);
    assert u[0] == s[0] && u[1..] == BeforeEnd(s[1..]);
  }

  /** A poll answering `p` ahead of a run that answers `ps`, the end and then `tail`. */
  lemma ConsRun<V, E>(st: Legacy<V, E>, st1: Legacy<V, E>, n: nat, p: Poll<seq<V>, E>,
                      ps: seq<Poll<seq<V>, E>>, tail: seq<Poll<seq<V>, E>>)
    requires n >= 1 && LegacyPoll(st) == (p, st1) && LegacyTrace(st1, n - 1) == ps + [End] + tail
    ensures LegacyTrace(st, n) == [p] + ps + [End] + tail
  {
    TraceStep(st, n, p, st1);
    assert [p] + (ps + [End] + tail) == [p] + ps + [End] + tail;
  }

  lemma PollOther<V, E>(st: Legacy<V, E>)
    requires |st.buffer.vec| != st.buffer.maxCount && st.s != [] && (st.s[0].NotReady? || st.s[0].Err?)
    ensures LegacyPoll(st) == (Forward(st.s[0]), Legacy(st.s[1..], st.buffer))
  {
    TurnOther(st);
    if st.s[0].NotReady? {
      assert Forward(st.s[0]) == NotReady;
    } else {
      assert Forward(st.s[0]) == Err(st.s[0].error);
    }
  }

  lemma OtherRun<V, E>(h: seq<V>, s: Script<V, E>, m: nat, n: nat)
    requires |h| < m && HasEnd(s) && (s[0].NotReady? || s[0].Err?) && n >= 1
    requires HasEnd(s[1..]) && RunsAsAnswered(h, s[1..], m, n - 1)
    ensures RunsAsAnswered(h, s, m, n)
  {
    OtherAnswers(h, s, m);
    SplitEnd(s);
    var r' := AnswersOver(h, BeforeEnd(s[1..]), m);
    var ps := [Forward(s[0])] + r'.0;
    if n > |ps| {
      var st := Legacy(s, CB.CountBuffer(h, m));
      var st1 := Legacy(s[1..], st.buffer);
      var tail := LegacyTrace(Legacy(AfterEnd(s), CB.CountBuffer(r'.1, m)), n - |ps| - 1);
      PollOther(st);
      ConsRun(st, st1, n, Forward(s[0]), r'.0, tail);
    }
  }

  /** `SimpleCountBufferedStream::new(upstream, m)` over a finite upstream: the full batches of
      its items are handed out in order, each on the poll that pulls its last item, with the
      upstream's `NotReady`s and errors passed on in between as they come; then the end, while
      the partial trailing batch stays held; and from then on whatever the spent upstream gives. */
  lemma LegacyRun<V, E>(s: Script<V, E>, m: nat, n: nat)
    requires m >= 1 && HasEnd(s) && n > |AnswersOver([], BeforeEnd(s), m).0|
    ensures var r := AnswersOver([], BeforeEnd(s), m);
      LegacyTrace(NewLegacy(s, m), n) == r.0 + [End] + LegacyTrace(Legacy(AfterEnd(s), CB.CountBuffer(r.1, m)), n - |r.0| - 1)
    ensures var r := AnswersOver([], BeforeEnd(s), m);
      ItemsOf(r.0) == FullChunks(ItemsOf(BeforeEnd(s)), m) && r.1 == Leftover(ItemsOf(BeforeEnd(s)), m)
      && Signals(r.0) == Signals(BeforeEnd(s))
  {
    LegacyRunFrom([], s, m, n);
    assert RunsAsAnswered([], s, m, n);
    AnswersOverBatches([], BeforeEnd(s), m);
    assert [] + ItemsOf(BeforeEnd(s)) == ItemsOf(BeforeEnd(s));
  }

  /** Answers with no signal among them are all batches. */
  lemma {:induction false} AllBatches<V, E>(ps: seq<Poll<seq<V>, E>>)
    requires Signals(ps) == []
    ensures ps == Answers(ItemsOf(ps))
  {
    if ps != [] {
      AllBatches(ps[1..]);
    }
  }

  /** `SimpleCountBufferedStream::new(upstream, m)` over a finite upstream that answers at once:
      the full batches, then the end, and a further poll re-polls the spent upstream, which has
      nothing more to say. */
  lemma FiniteUpstream<V, E>(xs: seq<V>, m: nat)
    requires m >= 1
    ensures LegacyTrace(NewLegacy(Emit<V, E>(xs), m), |FullChunks(xs, m)| + 2)
      == Answers(FullChunks(xs, m)) + [End, NotReady]
  {
    var s := Emit<V, E>(xs);
    var n := |FullChunks(xs, m)| + 2;
    var ps := Answers<V, E>(FullChunks(xs, m));
    EmitAnswers<V, E>(xs, m);
    RunAnswering(s, m, n, ps, Leftover(xs, m));
    LeftoverShort(xs, m);
    SpentTail(NewLegacy(s, m), ps, AfterEnd(s), Leftover(xs, m), m, n);
  }

  /** `LegacyRun` once what the stream answers before the end is known to be `ps`, keeping `l`. */
  lemma RunAnswering<V, E>(s: Script<V, E>, m: nat, n: nat, ps: seq<Poll<seq<V>, E>>, l: seq<V>)
    requires m >= 1 && HasEnd(s) && AnswersOver([], BeforeEnd(s), m) == (ps, l) && n > |ps|
    ensures LegacyTrace(NewLegacy(s, m), n)
      == ps + [End] + LegacyTrace(Legacy(AfterEnd(s), CB.CountBuffer(l, m)), n - |ps| - 1)
  {
    LegacyRun(s, m, n);
  }

  /** A run that has answered `ps` and the end, leaving a spent upstream and a short buffer,
      answers `NotReady` on the next poll. */
  lemma SpentTail<V, E>(st: Legacy<V, E>, ps: seq<Poll<seq<V>, E>>, rest: Script<V, E>, l: seq<V>, m: nat, n: nat)
    requires n == |ps| + 2 && rest == [] && |l| < m
    requires LegacyTrace(st, n) == ps + [End] + LegacyTrace(Legacy(rest, CB.CountBuffer(l, m)), n - |ps| - 1)
    ensures LegacyTrace(st, n) == ps + [End, NotReady]
  {
    var spent := Legacy(rest, CB.CountBuffer(l, m));
    SpentUpstream(spent);
    assert ps + [End] + [NotReady] == ps + [End, NotReady];
  }

  /** What the stream answers before the end of an upstream that answers at once. */
  lemma EmitAnswers<V, E>(xs: seq<V>, m: nat)
    requires m >= 1
    ensures HasEnd(Emit<V, E>(xs)) && AfterEnd(Emit<V, E>(xs)) == []
    ensures AnswersOver([], BeforeEnd(Emit<V, E>(xs)), m) == (Answers(FullChunks(xs, m)), Leftover(xs, m))
  {
    var s := Emit<V, E>(xs);
    EmitBeforeEnd(xs, s);
    var u := BeforeEnd(s);
    NoSignals(xs, s);
    var (ps, l) := AnswersOver([], u, m);
    AnswersOverBatches([], u, m);
    assert [] + ItemsOf(u) == xs;
    AllBatches(ps);
  }

  /** Before its end, the upstream that answers at once gives only items. */
  lemma {:induction false} NoSignals<V, E>(xs: seq<V>, s: Script<V, E>)
    requires s == Emit(xs)
    ensures HasEnd(s) && Signals(BeforeEnd(s)) == []
  {
    if xs != [] {
      assert s[1..] == Emit(xs[1..]);
      NoSignals(xs[1..], s[1..]);
      assert BeforeEnd(s) == [s[0]] + BeforeEnd(s[1..]);
    }
  }

  /** Once the upstream's script is spent and the buffer is not full, a poll answers `NotReady`. */
  lemma SpentUpstream<V, E>(st: Legacy<V, E>)
    requires st.s == [] && |st.buffer.vec| != st.buffer.maxCount
    ensures LegacyTrace(st, 1) == [NotReady]
  {
    TurnOther(st);
  }

  /** Three batches of three from an upstream counting 0, 1, 2, …: `[[0,1,2],[3,4,5],[6,7,8]]`,
      whatever the upstream does after its ninth item. */
  lemma TakeThreeBatches<V, E>(x0: V, x1: V, x2: V, x3: V, x4: V, x5: V, x6: V, x7: V, x8: V, rest: Script<V, E>)
    ensures LegacyTrace(NewLegacy(Items<V, E>([x0, x1, x2, x3, x4, x5, x6, x7, x8]) + rest, 3), 3)
      == [Item([x0, x1, x2]), Item([x3, x4, x5]), Item([x6, x7, x8])]
  {
    var s0 := Items<V, E>([x0, x1, x2]) + (Items<V, E>([x3, x4, x5]) + (Items<V, E>([x6, x7, x8]) + rest));
    assert Items<V, E>([x0, x1, x2, x3, x4, x5, x6, x7, x8]) + rest == s0;
    var s1 := Items<V, E>([x3, x4, x5]) + (Items<V, E>([x6, x7, x8]) + rest);
    var s2 := Items<V, E>([x6, x7, x8]) + rest;
    PollFills<V, E>([], 3, [x0, x1, x2], s1);
    PollFills<V, E>([], 3, [x3, x4, x5], s2);
    PollFills<V, E>([], 3, [x6, x7, x8], rest);
    assert [] + [x0, x1, x2] == [x0, x1, x2];
    assert [] + [x3, x4, x5] == [x3, x4, x5];
    assert [] + [x6, x7, x8] == [x6, x7, x8];
    var e: CB.CountBuffer<V> := CB.CountBuffer([], 3);
    TraceStep(Legacy(s0, e), 3, Item([x0, x1, x2]), Legacy(s1, e));
    TraceStep(Legacy(s1, e), 2, Item([x3, x4, x5]), Legacy(s2, e));
    TraceStep(Legacy(s2, e), 1, Item([x6, x7, x8]), Legacy(rest, e));
  }

  /** With `max_count == 0` the empty buffer is always "full": every poll hands out an empty batch
      and the upstream is never polled. */
  lemma ZeroCountNeverPulls<V, E>(st: Legacy<V, E>)
    requires st.buffer.maxCount == 0 && st.buffer.vec == []
    ensures LegacyPoll(st) == (Item([]), st)
  {
  }

  /** `BufferedStream`, with its upstream and buffer updated in place by `poll`. */
  class BufferedStream<V, E> {
    var s: Script<V, E>
    var buffer: CB.CountBuffer<V>

    function State(): Legacy<V, E>
      reads this
    {
      Legacy(s, buffer)
    }

    constructor (upstream: Script<V, E>, maxCount: nat)
      ensures State() == NewLegacy(upstream, maxCount)
    {
      s := upstream;
      buffer := CB.NewCountBuffer(maxCount);
    }

    method Poll() returns (r: Poll<seq<V>, E>)
      modifies this
      ensures (r, State()) == LegacyPoll(old(State()))
    {
      while true
        invariant LegacyPoll(State()) == LegacyPoll(old(State()))
        decreases |s|
      {
        var st := State();
        var (out, b) := CB.CountPoll(buffer);
        buffer := b;
        if out.Some? {
          TurnReady(st);
          return Item(out.value);
        }
        var (p, rest) := Pull(s);
        s := rest;
        match p {
          case Item(v) =>
            buffer := CB.CountInsert(buffer, v);
            TurnItem(st);
          case NotReady =>
            TurnOther(st);
            return NotReady;
          case Err(e) =>
            TurnOther(st);
            return Err(e);
          case End =>
            TurnEnd(st);
            var (last, b') := CB.CountPoll(buffer);
            buffer := b';
            return LastChance(last);
        }
      }
    }
  }
}
