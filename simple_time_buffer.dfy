/** `StreamControlledBuffer` (the simple time buffer): items are held until the control stream (a
    timer) answers anything but `Pending`; then everything held is handed out, possibly nothing.
    The timer is a scripted control stream: its i-th poll gives its i-th scripted answer. */
module TimeBufferPolicy {
  import opened Wrappers
  import opened Futures03

  /** A timer stream yields the tick number. */
  type Timer = Script<nat>

  datatype TimeBuffer<V> = TimeBuffer(vec: seq<V>, control: Timer)

  /** `new_simple_time_buffer`, and the buffer `SimpleTimeBufferredStream::new` and
      `new_with_timer_stream` build: nothing held, driven by the given timer. */
  function NewTimeBuffer<V>(control: Timer): (b: TimeBuffer<V>)
    ensures b.vec == [] && b.control == control
  {
    TimeBuffer([], control)
  }

  /** `insert`: the item goes at the end. */
  function TimeInsert<V>(b: TimeBuffer<V>, v: V): (r: TimeBuffer<V>)
    ensures r.vec == b.vec + [v] && r.control == b.control
  {
    b.(vec := b.vec + [v])
  }

  /** `poll_buffer`: the control stream is polled exactly once; any ready answer (a tick or its
      end) hands out everything held and empties the buffer; `Pending` leaves what is held. */
  function TimePoll<V>(b: TimeBuffer<V>): (r: (Option<seq<V>>, TimeBuffer<V>))
    ensures r.1.control == Pull(b.control).1
    ensures r.0.Some? <==> !Pull(b.control).0.Pending?
    ensures r.0.Some? ==> r.0.value == b.vec && r.1.vec == []
    ensures r.0.None? ==> r.1.vec == b.vec
  {
    var (p, rest) := Pull(b.control);
    if p.Pending? then (None, TimeBuffer(b.vec, rest)) else (Some(b.vec), TimeBuffer([], rest))
  }

  /** Nothing is lost or reordered by the time buffer: what it hands out followed by what it
      still holds is what it held before. */
  lemma TimePollKeepsOrder<V>(b: TimeBuffer<V>)
    ensures var (r, b') := TimePoll(b);
      (if r.Some? then r.value else []) + b'.vec == b.vec
  {
  }

  class StreamControlledBuffer<V> {
    var vec: seq<V>
    var s: Timer

    function Model(): TimeBuffer<V>
      reads this
    {
      TimeBuffer(vec, s)
    }

    constructor (control: Timer)
      ensures Model() == NewTimeBuffer(control)
    {
      vec := [];
      s := control;
    }

    method Insert(v: V)
      modifies this
      ensures Model() == TimeInsert(old(Model()), v)
    {
      vec := vec + [v];
    }

    method PollBuffer() returns (r: Option<seq<V>>)
      modifies this
      ensures (r, Model()) == TimePoll(old(Model()))
    {
      var (p, rest) := Pull(s);
      s := rest;
      match p {
        case Pending =>
          r := None;
        case _ =>
          r := Some(vec);
          vec := [];
      }
    }
  }
}
