/** `SimpleCountBuffer`: items are held until exactly `maxCount` of them are there, and then handed
    out as one batch; after the upstream has ended, whatever is left is handed out. */
module CountBufferPolicy {
  import opened Wrappers
  import opened Futures03

  datatype CountBuffer<V> = CountBuffer(vec: seq<V>, maxCount: nat)

  /** `SimpleCountBuffer::new`: nothing held. */
  function NewCountBuffer<V>(maxCount: nat): (b: CountBuffer<V>)
    ensures b.vec == [] && b.maxCount == maxCount
  {
    CountBuffer([], maxCount)
  }

  /** `insert`: the item goes at the end. */
  function CountInsert<V>(b: CountBuffer<V>, v: V): (r: CountBuffer<V>)
    ensures r.vec == b.vec + [v] && r.maxCount == b.maxCount
    ensures |r.vec| == |b.vec| + 1 && r.vec[|b.vec|] == v
  {
    b.(vec := b.vec + [v])
  }

  /** `poll_buffer`: a batch exactly when `maxCount` items are held: all of them, in insertion
      order, leaving the buffer empty; otherwise nothing, and the buffer is left as it was. */
  function CountPoll<V>(b: CountBuffer<V>): (r: (Option<seq<V>>, CountBuffer<V>))
    ensures r.0.Some? <==> |b.vec| == b.maxCount
    ensures r.0.Some? ==> r.0.value == b.vec && |r.0.value| == b.maxCount && r.1 == b.(vec := [])
    ensures r.0.None? ==> r.1 == b
  {
    if |b.vec| == b.maxCount then (Some(b.vec), b.(vec := [])) else (None, b)
  }

  /** `poll_buffer_after_done`: the leftover, if there is any, leaving the buffer empty. */
  function CountAfterDone<V>(b: CountBuffer<V>): (r: (Option<seq<V>>, CountBuffer<V>))
    ensures r.0.Some? <==> |b.vec| > 0
    ensures r.0.Some? ==> r.0.value == b.vec && r.1 == b.(vec := [])
    ensures r.0.None? ==> r.1 == b
  {
    if |b.vec| > 0 then (Some(b.vec), b.(vec := [])) else (None, b)
  }

  /** The leftover is handed out once: a second call after the end has nothing. */
  lemma AfterDoneOnce<V>(b: CountBuffer<V>)
    ensures CountAfterDone(CountAfterDone(b).1).0.None?
  {
  }

  /** Between polls the buffer holds fewer than `maxCount` items: an insert then reaches at most
      `maxCount`, and a poll at `maxCount` flushes. */
  lemma CountStaysBelow<V>(b: CountBuffer<V>, v: V)
    requires |b.vec| < b.maxCount
    ensures |CountInsert(b, v).vec| <= b.maxCount
    ensures |CountPoll(CountInsert(b, v)).1.vec| < b.maxCount
  {
  }

  class SimpleCountBuffer<V> {
    var vec: seq<V>
    var maxCount: nat

    function Model(): CountBuffer<V>
      reads this
    {
      CountBuffer(vec, maxCount)
    }

    constructor (maxCount: nat)
      ensures Model() == NewCountBuffer(maxCount)
    {
      vec := [];
      this.maxCount := maxCount;
    }

    method Insert(v: V)
      modifies this
      ensures Model() == CountInsert(old(Model()), v)
    {
      vec := vec + [v];
    }

    method PollBuffer() returns (r: Option<seq<V>>)
      modifies this
      ensures (r, Model()) == CountPoll(old(Model()))
    {
      if |vec| == maxCount {
        r := Some(vec);
        vec := [];
      } else {
        r := None;
      }
    }

    method PollBufferAfterDone() returns (r: Option<seq<V>>)
      modifies this
      ensures (r, Model()) == CountAfterDone(old(Model()))
    {
      if |vec| > 0 {
        r := Some(vec);
        vec := [];
      } else {
        r := None;
      }
    }
  }
}
