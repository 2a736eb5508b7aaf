/** The count-based opener and creator of the overlapped buffer: a new window is opened on every
    `skip`-th inserted item, and every window is a fresh count buffer of `maxCount` items. */
module CountOpenerPolicy {
  import opened CountBufferPolicy

  datatype CountOpener = CountOpener(skip: nat, skipCount: nat)

  /** `CountBufferOpener::check_open`: counts the call, and answers true exactly when the count
      reaches `skip`, starting the count again from zero. */
  function CountCheckOpen(o: CountOpener): (r: (bool, CountOpener))
    ensures r.0 <==> o.skipCount + 1 == o.skip
    ensures r.1.skip == o.skip
    ensures r.1.skipCount == if r.0 then 0 else o.skipCount + 1
  {
    var c := o.skipCount + 1;
    if c == o.skip then (true, o.(skipCount := 0)) else (false, o.(skipCount := c))
  }

  /** With `skip >= 1` the count stays below `skip` between calls; with `skip == 0` it never
      opens. */
  lemma CountOpenerBounded(o: CountOpener)
    ensures o.skip >= 1 && o.skipCount < o.skip ==> CountCheckOpen(o).1.skipCount < o.skip
    ensures o.skip == 0 ==> !CountCheckOpen(o).0
  {
  }

  /** The answers of `n` consecutive calls, and the opener after them. */
  function CountOpens(o: CountOpener, n: nat): (bs: seq<bool>)
    ensures |bs| == n
    decreases n
  {
    if n == 0 then [] else [CountCheckOpen(o).0] + CountOpens(CountCheckOpen(o).1, n - 1)
  }

  function CountAfter(o: CountOpener, n: nat): (o': CountOpener)
    ensures o'.skip == o.skip
    decreases n
  {
    if n == 0 then o else CountAfter(CountCheckOpen(o).1, n - 1)
  }

  lemma {:induction false} CountOpensSplit(o: CountOpener, a: nat, b: nat)
    ensures CountOpens(o, a + b) == CountOpens(o, a) + CountOpens(CountAfter(o, a), b)
    decreases a
  {
    if a > 0 {
      CountOpensSplit(CountCheckOpen(o).1, a - 1, b);
    }
  }

  /** One period: `skip - 1` calls that do not open, then one that does. */
  function Period(skip: nat): (bs: seq<bool>)
    requires skip >= 1
    ensures |bs| == skip && forall i :: 0 <= i < skip ==> (bs[i] <==> i == skip - 1)
  {
    seq(skip, i => i == skip - 1)
  }

  /** From a count of `c`, the calls up to the next opening: none opens but the last, and the
      count is back at zero. */
  lemma {:induction false} CountToOpening(skip: nat, c: nat)
    requires c < skip
    ensures CountOpens(CountOpener(skip, c), skip - c) == Period(skip)[c..]
    ensures CountAfter(CountOpener(skip, c), skip - c) == CountOpener(skip, 0)
    decreases skip - c
  {
    if c + 1 < skip {
      CountToOpening(skip, c + 1);
      assert Period(skip)[c..] == [false] + Period(skip)[c + 1..];
    } else {
      assert Period(skip)[c..] == [true];
    }
  }

  /** Every `skip`-th call opens: from a fresh count the answers repeat with period `skip`. */
  lemma CountOpensPeriodic(skip: nat, n: nat)
    requires skip >= 1
    ensures CountOpens(CountOpener(skip, 0), skip + n) == Period(skip) + CountOpens(CountOpener(skip, 0), n)
  {
    CountOpensSplit(CountOpener(skip, 0), skip, n);
    CountToOpening(skip, 0);
  }

  /** A zero `skip` never opens a window. */
  lemma {:induction false} ZeroSkipNeverOpens(o: CountOpener, n: nat, i: nat)
    requires o.skip == 0 && i < n
    ensures !CountOpens(o, n)[i]
    decreases n
  {
    if i > 0 {
      ZeroSkipNeverOpens(CountCheckOpen(o).1, n - 1, i - 1);
    }
  }

  /** `CountBufferCreator::new_buffer`: an empty count buffer of the configured size. */
  function CountNewBuffer<V>(maxCount: nat): (b: CountBuffer<V>)
    ensures b.vec == [] && b.maxCount == maxCount
  {
    NewCountBuffer(maxCount)
  }

  class CountBufferOpener {
    var skip: nat
    var skipCount: nat

    function Model(): CountOpener
      reads this
    {
      CountOpener(skip, skipCount)
    }

    constructor (skip: nat)
      ensures Model() == CountOpener(skip, 0)
    {
      this.skip := skip;
      skipCount := 0;
    }

    method CheckOpen() returns (r: bool)
      modifies this
      ensures (r, Model()) == CountCheckOpen(old(Model()))
    {
      skipCount := skipCount + 1;
      if skipCount == skip {
        skipCount := 0;
        r := true;
      } else {
        r := false;
      }
    }
  }
}
