/** `ChainVec` (`concat_vec`): raw upstreams polled one after the other; an upstream that ends
    moves the cursor to the next one within the same call. */
module ConcatOp {
  import opened Futures01
  import Futures03

  datatype ChainState<T, E> = ChainState(sVec: seq<Script<T, E>>, current: nat)
  {
    /** The states a poll is defined on: polling once more after the last upstream ended indexes
        past the end of the vector, which panics. */
    predicate Pollable()
    {
      |sVec| == 0 || current < |sVec|
    }
  }

  /** `concat_vec`: the cursor on the first upstream. */
  function NewChain<T, E>(sVec: seq<Script<T, E>>): (st: ChainState<T, E>)
    ensures st.sVec == sVec && st.current == 0 && st.Pollable()
  {
    ChainState(sVec, 0)
  }

  /** The rule of one `ChainVec::poll` call. */
  function ChainStep<T, E>(st: ChainState<T, E>): (r: (Poll<T, E>, ChainState<T, E>))
    requires st.Pollable()
    ensures |r.1.sVec| == |st.sVec|
    ensures st.current <= r.1.current <= |st.sVec| || (|st.sVec| == 0 && r.1 == st)
    // the stream ends exactly when the vector is empty or its last upstream ended
    ensures r.0.End? <==> |st.sVec| == 0 || r.1.current == |st.sVec|
    ensures !r.0.End? ==> r.1.Pollable()
    decreases |st.sVec| - st.current
  {
    if |st.sVec| == 0 then (End, st)
    else
      var (p, rest) := Pull(st.sVec[st.current]);
      var sVec' := st.sVec[st.current := rest];
      if p.End? then
        if st.current + 1 == |st.sVec| then (End, ChainState(sVec', st.current + 1))
        else ChainStep(ChainState(sVec', st.current + 1))
      else (p, ChainState(sVec', st.current))
  }

  /** What one call does, upstream by upstream: each upstream it moves past answered `End` once
      and had that answer consumed; the upstream it stops at had its answer consumed and that
      answer is the result, unless the call ends the whole stream; all others are untouched. */
  lemma {:induction false} ChainStepShape<T, E>(st: ChainState<T, E>)
    requires st.Pollable() && |st.sVec| > 0
    ensures var r := ChainStep(st);
      forall j :: 0 <= j < |st.sVec| && (j < st.current || j > r.1.current) ==>
        r.1.sVec[j] == st.sVec[j]
    ensures var r := ChainStep(st);
      forall j :: st.current <= j < r.1.current ==>
        Pull(st.sVec[j]).0.End? && r.1.sVec[j] == Pull(st.sVec[j]).1
    ensures var r := ChainStep(st);
      !r.0.End? ==> r.0 == Pull(st.sVec[r.1.current]).0 && r.1.sVec[r.1.current] == Pull(st.sVec[r.1.current]).1
    decreases |st.sVec| - st.current
  {
    var (p, rest) := Pull(st.sVec[st.current]);
    var st1 := ChainState(st.sVec[st.current := rest], st.current + 1);
    if p.End? && st.current + 1 < |st.sVec| {
      assert ChainStep(st) == ChainStep(st1);
      ChainStepShape(st1);
      var r := ChainStep(st);
      forall j | st.current <= j < r.1.current
        ensures Pull(st.sVec[j]).0.End? && r.1.sVec[j] == Pull(st.sVec[j]).1
      {
        if j > st.current {
          assert st1.sVec[j] == st.sVec[j];
        }
      }
    }
  }

  /** The items a consumer collects in `n` polls, stopping at the first end or error. */
  function ChainRun<T, E>(st: ChainState<T, E>, n: nat): seq<T>
    requires st.Pollable()
    decreases n
  {
    if n == 0 then []
    else
      var (p, st') := ChainStep(st);
      match p
      case Item(v) => [v] + ChainRun(st', n - 1)
      case NotReady => ChainRun(st', n - 1)
      case End => []
      case Err(_) => []
  }

  /** One of the `n` polls answers the end, none before it failing. */
  predicate ChainEnds<T, E>(st: ChainState<T, E>, n: nat)
    requires st.Pollable()
    decreases n
  {
    n > 0 &&
    var (p, st') := ChainStep(st);
    p.End? || ((p.Item? || p.NotReady?) && ChainEnds(st', n - 1))
  }

  /** Finite upstreams from index `i` on, none failing before its end. */
  ghost predicate CleanFrom<T, E>(sVec: seq<Script<T, E>>, i: nat)
  {
    forall j :: i <= j < |sVec| ==> HasEnd(sVec[j]) && NoErr(BeforeEnd(sVec[j]))
  }

  /** What the upstreams from index `i` on answer before their ends, laid end to end. */
  function Ahead<T, E>(sVec: seq<Script<T, E>>, i: nat): Script<T, E>
    requires CleanFrom(sVec, i)
    decreases |sVec| - i
  {
    if i >= |sVec| then [] else BeforeEnd(sVec[i]) + Ahead(sVec, i + 1)
  }

  lemma {:induction false} AheadFrame<T, E>(sVec: seq<Script<T, E>>, sVec': seq<Script<T, E>>, i: nat)
    requires |sVec| == |sVec'| && CleanFrom(sVec, i)
    requires forall j :: i <= j < |sVec| ==> sVec[j] == sVec'[j]
    ensures CleanFrom(sVec', i) && Ahead(sVec, i) == Ahead(sVec', i)
    decreases |sVec| - i
  {
    CleanFrame(sVec, sVec', i);
    if i < |sVec| {
      CleanFrame(sVec, sVec', i + 1);
      AheadFrame(sVec, sVec', i + 1);
      assert sVec[i] == sVec'[i];
    }
  }

  lemma CleanFrame<T, E>(sVec: seq<Script<T, E>>, sVec': seq<Script<T, E>>, i: nat)
    requires |sVec| == |sVec'| && CleanFrom(sVec, i)
    requires forall j :: i <= j < |sVec| ==> sVec[j] == sVec'[j]
    ensures CleanFrom(sVec', i)
  {
    forall j | i <= j < |sVec'|
      ensures HasEnd(sVec'[j]) && NoErr(BeforeEnd(sVec'[j]))
    {
      assert sVec'[j] == sVec[j];
    }
  }

  /** A poll at an upstream that has ended, short of the last one, acts as a poll at the next. */
  lemma SkipEnded<T, E>(st: ChainState<T, E>, n: nat)
    requires st.current + 1 < |st.sVec| && CleanFrom(st.sVec, st.current)
    requires st.sVec[st.current][0].End?
    ensures var st1 := ChainState(st.sVec[st.current := st.sVec[st.current][1..]], st.current + 1);
      CleanFrom(st1.sVec, st1.current) && Ahead(st.sVec, st.current) == Ahead(st1.sVec, st1.current)
      && ChainRun(st, n) == ChainRun(st1, n) && ChainEnds(st, n) == ChainEnds(st1, n)
  {
    var c := st.current;
    var s := st.sVec[c];
    var sVec' := st.sVec[c := s[1..]];
    AheadFrame(st.sVec, sVec', c + 1);
    var st1 := ChainState(sVec', c + 1);
    assert ChainStep(st) == ChainStep(st1);
    assert BeforeEnd(s) == [];
  }

  /** A poll at an upstream that has not ended answers its head and moves past it. */
  lemma TakeHead<T, E>(st: ChainState<T, E>)
    requires st.current < |st.sVec| && CleanFrom(st.sVec, st.current)
    requires !st.sVec[st.current][0].End?
    ensures var s := st.sVec[st.current];
      var st' := ChainState(st.sVec[st.current := s[1..]], st.current);
      CleanFrom(st'.sVec, st'.current) && Ahead(st.sVec, st.current) == [s[0]] + Ahead(st'.sVec, st'.current)
      && ChainStep(st) == (s[0], st') && !s[0].Err?
  {
    var c := st.current;
    var s := st.sVec[c];
    var sVec' := st.sVec[c := s[1..]];
    AheadFrame(st.sVec, sVec', c + 1);
    assert BeforeEnd(s) == [s[0]] + BeforeEnd(s[1..]);
    assert NoErr(BeforeEnd(s[1..])) by {
      forall i | 0 <= i < |BeforeEnd(s[1..])|
        ensures !BeforeEnd(s[1..])[i].Err?
      {
        assert BeforeEnd(s[1..])[i] == BeforeEnd(s)[i + 1];
      }
    }
    assert BeforeEnd(s)[0] == s[0];
    assert CleanFrom(sVec', c);
    assert Ahead(sVec', c) == BeforeEnd(s[1..]) + Ahead(sVec', c + 1);
  }

  /** Concatenation: over finite upstreams that fail nowhere before their ends, with one poll
      more than they have answers before their ends, the stream yields the items of every
      upstream in vector order, whatever `NotReady`s come between them, and then ends. */
  lemma {:induction false} ChainRunClean<T, E>(st: ChainState<T, E>, n: nat)
    requires st.current < |st.sVec| && CleanFrom(st.sVec, st.current)
    requires n > |Ahead(st.sVec, st.current)|
    ensures ChainRun(st, n) == ItemsOf(Ahead(st.sVec, st.current))
    ensures ChainEnds(st, n)
    decreases |Ahead(st.sVec, st.current)|, |st.sVec| - st.current
  {
    var c := st.current;
    var s := st.sVec[c];
    var sVec' := st.sVec[c := s[1..]];
    if s[0].End? {
      if c + 1 < |st.sVec| {
        SkipEnded(st, n);
        ChainRunClean(ChainState(sVec', c + 1), n);
      } else {
        AheadFrame(st.sVec, sVec', c + 1);
      }
    } else {
      TakeHead(st);
      var st' := ChainState(sVec', c);
      ChainRunClean(st', n - 1);
      ItemsOfAppend([s[0]], Ahead(sVec', c));
    }
  }

  /** Upstreams that answer at once, from the cursor on: the `j`-th one from the cursor emits
      `xss[j]`. */
  ghost predicate EmitsFrom<T, E>(st: ChainState<T, E>, xss: seq<seq<T>>)
  {
    st.current < |st.sVec| && |st.sVec| - st.current == |xss|
    && forall j :: st.current <= j < |st.sVec| ==> st.sVec[j] == Emit(xss[j - st.current])
  }

  lemma {:induction false} AheadEmits<T, E>(st: ChainState<T, E>, xss: seq<seq<T>>, i: nat)
    requires EmitsFrom(st, xss) && st.current <= i <= |st.sVec|
    ensures CleanFrom(st.sVec, i)
    ensures |Ahead(st.sVec, i)| == |Futures03.Flatten(xss[i - st.current..])|
    ensures ItemsOf(Ahead(st.sVec, i)) == Futures03.Flatten(xss[i - st.current..])
    decreases |st.sVec| - i
  {
    var k := i - st.current;
    if i < |st.sVec| {
      AheadEmits(st, xss, i + 1);
      EmitsAt(st, xss, i);
      AheadCons(st.sVec, i, xss[k]);
      FlattenDrop(xss, k);
    } else {
      assert xss[k..] == [];
    }
  }

  lemma EmitsAt<T, E>(st: ChainState<T, E>, xss: seq<seq<T>>, i: nat)
    requires EmitsFrom(st, xss) && st.current <= i < |st.sVec|
    ensures st.sVec[i] == Emit(xss[i - st.current])
  {
  }

  /** One more upstream that answers `xs` at once, ahead of clean ones. */
  lemma AheadCons<T, E>(sVec: seq<Script<T, E>>, i: nat, xs: seq<T>)
    requires i < |sVec| && sVec[i] == Emit(xs) && CleanFrom(sVec, i + 1)
    ensures CleanFrom(sVec, i)
    ensures |Ahead(sVec, i)| == |xs| + |Ahead(sVec, i + 1)|
    ensures ItemsOf(Ahead(sVec, i)) == xs + ItemsOf(Ahead(sVec, i + 1))
  {
    var s := sVec[i];
    EmitBeforeEnd(xs, s);
    assert CleanFrom(sVec, i) by {
      forall j | i <= j < |sVec|
        ensures HasEnd(sVec[j]) && NoErr(BeforeEnd(sVec[j]))
      {
        if j > i {
          assert i + 1 <= j;
        }
      }
    }
    var rest := Ahead(sVec, i + 1);
    assert Ahead(sVec, i) == BeforeEnd(s) + rest;
    ItemsOfAppend(BeforeEnd(s), rest);
  }

  lemma FlattenDrop<T>(xss: seq<seq<T>>, k: nat)
    requires k < |xss|
    ensures Futures03.Flatten(xss[k..]) == xss[k] + Futures03.Flatten(xss[k + 1..])
  {
    assert xss[k..][0] == xss[k] && xss[k..][1..] == xss[k + 1..];
  }

  /** Over upstreams that answer at once, the stream yields the items of every upstream in
      vector order, one item per poll, and the poll after the last item answers the end. */
  lemma ChainRunEmits<T, E>(st: ChainState<T, E>, xss: seq<seq<T>>)
    requires EmitsFrom(st, xss)
    ensures ChainRun(st, |Futures03.Flatten(xss)| + 1) == Futures03.Flatten(xss)
    ensures ChainEnds(st, |Futures03.Flatten(xss)| + 1)
  {
    AheadEmits(st, xss, st.current);
    assert xss[0..] == xss;
    ChainRunClean(st, |Futures03.Flatten(xss)| + 1);
  }

  const Counted: seq<Script<int, bool>> := [Emit([0, 1, 2]), Emit([1, 2, 3]), Emit([2, 3, 4])]

  lemma ConcatExample()
    ensures ChainRun(NewChain(Counted), 10) == [0, 1, 2, 1, 2, 3, 2, 3, 4]
  {
    var xss := [[0, 1, 2], [1, 2, 3], [2, 3, 4]];
    assert Futures03.Flatten(xss) == [0, 1, 2, 1, 2, 3, 2, 3, 4] by {
      assert Futures03.Flatten(xss[2..]) == [2, 3, 4];
      assert Futures03.Flatten(xss[1..]) == [1, 2, 3, 2, 3, 4];
    }
    assert EmitsFrom(NewChain(Counted), xss);
    ChainRunEmits(NewChain(Counted), xss);
  }

  /** An empty vector ends at once, and every later poll ends again. */
  lemma EmptyVecEnds<T, E>()
    ensures ChainStep(NewChain<T, E>([])) == (End, NewChain([]))
  {
  }

  class ChainVec<T, E> {
    var sVec: seq<Script<T, E>>
    var current: nat

    function State(): ChainState<T, E>
      reads this
    {
      ChainState(sVec, current)
    }

    constructor (streams: seq<Script<T, E>>)
      ensures State() == NewChain(streams)
    {
      sVec := streams;
      current := 0;
    }

    method Poll() returns (r: Poll<T, E>)
      requires State().Pollable()
      modifies this
      ensures (r, State()) == ChainStep(old(State()))
    {
      var len := |sVec|;
      if len == 0 {
        return End;
      }
      while true
        invariant current < len == |sVec|
        invariant ChainStep(State()) == ChainStep(old(State()))
        decreases len - current
      {
        var (p, rest) := Pull(sVec[current]);
        sVec := sVec[current := rest];
        if p.End? {
          current := current + 1;
          if len == current {
            return End;
          }
        } else {
          return p;
        }
      }
    }
  }
}
