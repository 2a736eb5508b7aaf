/** The time-based opener and creator of the overlapped buffer: a new window is opened by an insert
    that comes at least `period` time units after the last opening, and every window is a fresh
    time buffer. The clock is an input: `now` is the reading of the monotonic clock at the call. */
module TimeOpenerPolicy {
  import opened Futures03
  import opened TimeBufferPolicy

  datatype TimeOpener = TimeOpener(period: nat, lastCheck: nat)

  /** `TimeBufferOpener::new`: the last opening counts as having happened at construction time. */
  function NewTimeOpener(period: nat, now: nat): (o: TimeOpener)
    ensures o.period == period && o.lastCheck == now
  {
    TimeOpener(period, now)
  }

  /** `TimeBufferOpener::check_open`: opens exactly when at least `period` has passed since the last
      opening, and then remembers this instant. */
  function TimeCheckOpen(o: TimeOpener, now: nat): (r: (bool, TimeOpener))
    ensures r.0 <==> now >= o.lastCheck + o.period
    ensures r.1 == if r.0 then o.(lastCheck := now) else o
  {
    if now >= o.lastCheck + o.period then (true, o.(lastCheck := now)) else (false, o)
  }

  /** The instants, among the clock readings `ts` of consecutive calls, at which a window opens. */
  function OpenTimes(o: TimeOpener, ts: seq<nat>): seq<nat>
    decreases |ts|
  {
    if ts == [] then []
    else
      var (b, o') := TimeCheckOpen(o, ts[0]);
      (if b then [ts[0]] else []) + OpenTimes(o', ts[1..])
  }

  /** Openings are spaced: the first comes at least `period` after the last one before, and any two
      consecutive openings are at least `period` apart. */
  lemma {:induction false} OpenTimesSpaced(o: TimeOpener, ts: seq<nat>)
    ensures var ot := OpenTimes(o, ts);
      (|ot| > 0 ==> ot[0] >= o.lastCheck + o.period)
      && forall k :: 0 <= k < |ot| - 1 ==> ot[k] + o.period <= ot[k + 1]
    decreases |ts|
  {
    if ts != [] {
      var (b, o') := TimeCheckOpen(o, ts[0]);
      OpenTimesSpaced(o', ts[1..]);
      var rest := OpenTimes(o', ts[1..]);
      if b {
        assert OpenTimes(o, ts) == [ts[0]] + rest;
      } else {
        assert OpenTimes(o, ts) == rest;
      }
    }
  }

  /** The creator of time windows. Each window is driven by a fresh timer of `timeSpan`; the
      answers of the successive fresh timers are the scripts in `timers` (a used-up list gives a
      timer that never fires). */
  datatype TimeCreator = TimeCreator(timeSpan: nat, timers: seq<Timer>)

  /** `TimeBufferCreator::new_buffer`: an empty time buffer driven by the next fresh timer. */
  function TimeNewBuffer<V>(c: TimeCreator): (r: (TimeBuffer<V>, TimeCreator))
    ensures r.0.vec == [] && r.1.timeSpan == c.timeSpan
    ensures c.timers == [] ==> r.0.control == [] && r.1 == c
    ensures c.timers != [] ==> r.0.control == c.timers[0] && r.1.timers == c.timers[1..]
  {
    if c.timers == [] then (NewTimeBuffer([]), c) else (NewTimeBuffer(c.timers[0]), c.(timers := c.timers[1..]))
  }

  class TimeBufferOpener {
    var period: nat
    var lastCheck: nat

    function Model(): TimeOpener
      reads this
    {
      TimeOpener(period, lastCheck)
    }

    constructor (period: nat, now: nat)
      ensures Model() == NewTimeOpener(period, now)
    {
      this.period := period;
      lastCheck := now;
    }

    method CheckOpen(now: nat) returns (r: bool)
      modifies this
      ensures (r, Model()) == TimeCheckOpen(old(Model()), now)
    {
      if now >= lastCheck + period {
        lastCheck := now;
        r := true;
      } else {
        r := false;
      }
    }
  }
}
