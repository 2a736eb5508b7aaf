/** `Race`: of two upstreams, the first to answer anything but `NotReady` (an item, the end or an
    error) is picked and from then on forwarded alone; the other is dropped. Both upstreams are
    raw, not fused. */
module RaceOp {
  import opened Futures01

  /** `Temp` is the placeholder the state holds for the instant of a `mem::replace`. */
  datatype RaceState<T, E> = Pending(s1: Script<T, E>, s2: Script<T, E>) | Pick(s: Script<T, E>) | Temp

  /** `Race::new`. */
  function NewRace<T, E>(stream1: Script<T, E>, stream2: Script<T, E>): (st: RaceState<T, E>)
    ensures st.Pending? && st.s1 == stream1 && st.s2 == stream2
  {
    Pending(stream1, stream2)
  }

  /** The rule of one `Race::poll` call. */
  function RaceStep<T, E>(st: RaceState<T, E>): (r: (Poll<T, E>, RaceState<T, E>))
    requires !st.Temp?
    ensures !r.1.Temp?
    // a picked upstream is forwarded as it is, and stays picked
    ensures st.Pick? ==> r.1.Pick? && r.0 == Pull(st.s).0 && r.1.s == Pull(st.s).1
    // the first upstream is polled first: whatever it answers other than NotReady wins
    ensures st.Pending? && !Pull(st.s1).0.NotReady? ==> r == (Pull(st.s1).0, Pick(Pull(st.s1).1))
    // otherwise the second one is polled, and whatever it answers other than NotReady wins
    ensures st.Pending? && Pull(st.s1).0.NotReady? && !Pull(st.s2).0.NotReady? ==>
      r == (Pull(st.s2).0, Pick(Pull(st.s2).1))
    // the race goes on, answering NotReady, exactly while both answer NotReady
    ensures st.Pending? ==>
      (r.1.Pending? <==> Pull(st.s1).0.NotReady? && Pull(st.s2).0.NotReady?)
    ensures st.Pending? && r.1.Pending? ==>
      r.0.NotReady? && r.1.s1 == Pull(st.s1).1 && r.1.s2 == Pull(st.s2).1
  {
    match st
    case Pending(s1, s2) =>
      var (p1, rest1) := Pull(s1);
      if !p1.NotReady? then (p1, Pick(rest1))
      else
        var (p2, rest2) := Pull(s2);
        if !p2.NotReady? then (p2, Pick(rest2)) else (NotReady, Pending(rest1, rest2))
    case Pick(s) =>
      var (p, rest) := Pull(s);
      (p, Pick(rest))
  }

  /** The items a consumer collects in `n` polls, stopping at the first end or error. */
  function RaceRun<T, E>(st: RaceState<T, E>, n: nat): seq<T>
    requires !st.Temp?
    decreases n
  {
    if n == 0 then []
    else
      var (p, st') := RaceStep(st);
      match p
      case Item(v) => [v] + RaceRun(st', n - 1)
      case NotReady => RaceRun(st', n - 1)
      case End => []
      case Err(_) => []
  }

  /** A picked upstream that answers at once yields all its items. */
  lemma {:induction false} PickEmit<T, E>(xs: seq<T>)
    ensures RaceRun(Pick(Emit<T, E>(xs)), |xs| + 1) == xs
  {
    if xs != [] {
      assert Emit<T, E>(xs)[1..] == Emit<T, E>(xs[1..]);
      PickEmit<T, E>(xs[1..]);
    }
  }

  /** The first upstream wins at poll `k` when both were silent before it and the first one answers
      at poll `k`: the race then yields exactly what the first upstream yields from poll `k` on, the
      second upstream's remaining answers are never looked at. */
  lemma {:induction false} FirstWins<T, E>(s1: Script<T, E>, s2: Script<T, E>, k: nat, n: nat)
    requires k < |s1| && k <= |s2| && !s1[k].NotReady?
    requires forall j :: 0 <= j < k ==> s1[j].NotReady? && s2[j].NotReady?
    ensures RaceRun(Pending(s1, s2), k + n) == RaceRun(Pick(s1[k..]), n)
    decreases k
  {
    if k > 0 {
      assert RaceStep(Pending(s1, s2)) == (NotReady, Pending(s1[1..], s2[1..]));
      assert s1[1..][k - 1..] == s1[k..];
      FirstWins(s1[1..], s2[1..], k - 1, n);
    }
  }

  /** The second upstream wins at poll `k` when both were silent before it, the first one is still
      silent at poll `k` and the second one answers: the race then yields exactly what the second
      upstream yields from poll `k` on. */
  lemma {:induction false} SecondWins<T, E>(s1: Script<T, E>, s2: Script<T, E>, k: nat, n: nat)
    requires k < |s1| && k < |s2| && s1[k].NotReady? && !s2[k].NotReady?
    requires forall j :: 0 <= j < k ==> s1[j].NotReady? && s2[j].NotReady?
    ensures RaceRun(Pending(s1, s2), k + n) == RaceRun(Pick(s2[k..]), n)
    decreases k
  {
    if k > 0 {
      assert RaceStep(Pending(s1, s2)) == (NotReady, Pending(s1[1..], s2[1..]));
      assert s2[1..][k - 1..] == s2[k..];
      SecondWins(s1[1..], s2[1..], k - 1, n);
    }
  }

  /** A slow upstream whose first item comes at poll 3, against a quick one whose first item comes
      at poll 1: the quick one's items are the whole answer. */
  const Slow: Script<int, bool> := NotReadys(3) + Emit([0, 2, 4])
  const Quick: Script<int, bool> := [NotReady] + Emit([1, 3, 5, 7, 9, 11])

  lemma QuickWinsExample()
    ensures RaceRun(NewRace(Slow, Quick), 8) == [1, 3, 5, 7, 9, 11]
  {
    SecondWins(Slow, Quick, 1, 7);
    assert Quick[1..] == Emit([1, 3, 5, 7, 9, 11]);
    PickEmit<int, bool>([1, 3, 5, 7, 9, 11]);
  }

  /** An upstream that ends at once wins the race too, and the race is empty. */
  lemma EmptyWinsExample()
    ensures RaceRun(NewRace(Slow, Emit([])), 5) == []
  {
    assert RaceStep(NewRace(Slow, Emit<int, bool>([]))).0 == End;
  }

  class Race<T, E> {
    var state: RaceState<T, E>

    predicate Valid()
      reads this
    {
      !state.Temp?
    }

    constructor (stream1: Script<T, E>, stream2: Script<T, E>)
      ensures Valid() && state == NewRace(stream1, stream2)
    {
      state := Pending(stream1, stream2);
    }

    method Poll() returns (r: Poll<T, E>)
      requires Valid()
      modifies this
      ensures Valid() && (r, state) == RaceStep(old(state))
    {
      match state {
        case Pending(s1, s2) =>
          var (p1, rest1) := Pull(s1);
          if !p1.NotReady? {
            // the pair is moved out through the placeholder, and the winner kept
            state := Temp;
            state := Pick(rest1);
            return p1;
          }
          var (p2, rest2) := Pull(s2);
          if p2.NotReady? {
            state := Pending(rest1, rest2);
            return NotReady;
          }
          state := Temp;
          state := Pick(rest2);
          return p2;
        case Pick(s) =>
          var (p, rest) := Pull(s);
          state := Pick(rest);
          return p;
      }
    }
  }
}
