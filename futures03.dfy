/** The futures 0.3 stream protocol that `Pairwise` and the buffered-stream family are written
    against: `poll_next` answers `Ready(Some(x))`, `Ready(None)` or `Pending`, here `Item(x)`,
    `End` and `Pending`; there is no error channel. An upstream is a scripted source whose i-th
    poll returns the i-th entry of its script; a used-up script stays `Pending`.

    `Fused`, `PollFuse`, `ItemsOf`, `ItemsOfAppend` and `BeforeEnd` repeat their `Futures01`
    namesakes on purpose: the two protocols have different poll types (no error channel here), so
    each protocol keeps its own copy. */
module Futures03 {

  import opened Wrappers

  datatype Poll<T> = Item(value: T) | End | Pending

  type Script<T> = seq<Poll<T>>

  /** One poll of a raw scripted upstream. */
  function Pull<T>(s: Script<T>): (r: (Poll<T>, Script<T>))
    ensures s == [] ==> r == (Pending, [])
    ensures s != [] ==> r.0 == s[0] && r.1 == s[1..]
  {
    if s == [] then (Pending, []) else (s[0], s[1..])
  }

  /** `futures::stream::Fuse` (0.3): an upstream with its "has ended" flag. */
  datatype Fuse<T> = Fuse(script: Script<T>, done: bool)

  function Fused<T>(s: Script<T>): (f: Fuse<T>)
    ensures !f.done && f.script == s
  {
    Fuse(s, false)
  }

  /** One poll of a fused upstream: after the first `End`, every poll answers `End` and leaves the
      script alone; `is_done()` is the flag. */
  function PollFuse<T>(f: Fuse<T>): (r: (Poll<T>, Fuse<T>))
    ensures f.done ==> r == (End, f)
    ensures !f.done ==> r.0 == Pull(f.script).0 && r.1.script == Pull(f.script).1
    ensures r.1.done <==> f.done || r.0.End?
  {
    if f.done then (End, f)
    else
      var (p, rest) := Pull(f.script);
      (p, Fuse(rest, p.End?))
  }

  /** The script of a finite upstream that answers at once: the items of `xs`, then the end. */
  function Emit<T>(xs: seq<T>): (s: Script<T>)
    ensures |s| == |xs| + 1 && s[|xs|] == End
    ensures forall i :: 0 <= i < |xs| ==> s[i] == Item(xs[i])
  {
    if xs == [] then [End] else [Item(xs[0])] + Emit(xs[1..])
  }

  /** The items among the answers of a script, in order. */
  function ItemsOf<T>(s: Script<T>): (xs: seq<T>)
    ensures |xs| <= |s|
  {
    if s == [] then [] else (if s[0].Item? then [s[0].value] else []) + ItemsOf(s[1..])
  }

  /** The items of the scripted finite upstream are the emitted ones. */
  lemma {:induction false} ItemsOfEmit<T>(xs: seq<T>)
    ensures ItemsOf(Emit(xs)) == xs
  {
    if xs != [] {
      assert Emit(xs)[1..] == Emit(xs[1..]);
      ItemsOfEmit(xs[1..]);
    }
  }

  lemma {:induction false} ItemsOfAppend<T>(s: Script<T>, t: Script<T>)
    ensures ItemsOf(s + t) == ItemsOf(s) + ItemsOf(t)
  {
    if s != [] {
      assert (s + t)[0] == s[0] && (s + t)[1..] == s[1..] + t;
      ItemsOfAppend(s[1..], t);
    } else {
      assert s + t == t;
    }
  }

  /** The script answers `End` at some point: a finite upstream. */
  predicate HasEnd<T>(s: Script<T>)
  {
    s != [] && (s[0].End? || HasEnd(s[1..]))
  }

  /** What a finite upstream answers before its first `End`: items and `Pending`s. */
  function BeforeEnd<T>(s: Script<T>): (b: Script<T>)
    requires HasEnd(s)
    ensures |b| < |s| && b == s[..|b|] && s[|b|].End?
    ensures forall i :: 0 <= i < |b| ==> !b[i].End?
  {
    if s[0].End? then [] else [s[0]] + BeforeEnd(s[1..])
  }

  /** The upstream that answers at once ends right after its items. */
  lemma {:induction false} EmitBeforeEnd<T>(xs: seq<T>)
    ensures HasEnd(Emit(xs)) && |BeforeEnd(Emit(xs))| == |xs| && ItemsOf(BeforeEnd(Emit(xs))) == xs
  {
    if xs != [] {
      assert Emit(xs)[1..] == Emit(xs[1..]);
      EmitBeforeEnd(xs[1..]);
      assert BeforeEnd(Emit(xs)) == [Emit(xs)[0]] + BeforeEnd(Emit(xs)[1..]);
    }
  }

  /** All the batches of a buffered stream laid end to end. */
  function Flatten<T>(xss: seq<seq<T>>): (r: seq<T>)
    ensures xss == [] ==> r == []
  {
    if xss == [] then [] else xss[0] + Flatten(xss[1..])
  }

  lemma {:induction false} FlattenAppend<T>(xss: seq<seq<T>>, yss: seq<seq<T>>)
    ensures Flatten(xss + yss) == Flatten(xss) + Flatten(yss)
  {
    if xss == [] {
      assert xss + yss == yss;
    } else {
      assert (xss + yss)[1..] == xss[1..] + yss;
      FlattenAppend(xss[1..], yss);
    }
  }
}
