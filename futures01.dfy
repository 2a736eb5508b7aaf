/** The futures 0.1 stream protocol that the combination operators are written against.

    A poll of a 0.1 stream answers `Ok(Ready(Some(x)))`, `Ok(Ready(None))`, `Ok(NotReady)` or
    `Err(e)`; here these are `Item(x)`, `End`, `NotReady` and `Err(e)`. An upstream is a scripted
    source: its i-th poll returns the i-th entry of its script, and once the script is used up
    nothing more is scheduled, so it stays `NotReady`. The library's `Fuse` wrapper is a value
    holding the script and a `done` flag. `Futures03` has its own copy of the script helpers for
    the other poll type. */
module Futures01 {

  import opened Wrappers

  /** `either::Either`, used to tag an error with the upstream it came from. */
  datatype Either<L, R> = Left(left: L) | Right(right: R)

  datatype Poll<T, E> = Item(value: T) | End | NotReady | Err(error: E)

  type Script<T, E> = seq<Poll<T, E>>

  /** One poll of a raw scripted upstream: its next scripted answer and what is left of the script. */
  function Pull<T, E>(s: Script<T, E>): (r: (Poll<T, E>, Script<T, E>))
    ensures s == [] ==> r == (NotReady, [])
    ensures s != [] ==> r.0 == s[0] && r.1 == s[1..]
  {
    if s == [] then (NotReady, []) else (s[0], s[1..])
  }

  /** `futures::stream::Fuse`: an upstream together with its "has ended" flag. */
  datatype Fuse<T, E> = Fuse(script: Script<T, E>, done: bool)

  /** `stream.fuse()`: a fresh wrapper that has not seen the end yet. */
  function Fused<T, E>(s: Script<T, E>): (f: Fuse<T, E>)
    ensures !f.done && f.script == s
  {
    Fuse(s, false)
  }

  /** One poll of a fused upstream. Once the wrapped upstream has answered `End`, every later poll
      answers `End` again without consuming its script. Errors pass through and do not end it. */
  function PollFuse<T, E>(f: Fuse<T, E>): (r: (Poll<T, E>, Fuse<T, E>))
    ensures f.done ==> r == (End, f)
    ensures !f.done ==> r.0 == Pull(f.script).0 && r.1.script == Pull(f.script).1
    ensures r.1.done <==> f.done || r.0.End?
  {
    if f.done then (End, f)
    else
      var (p, rest) := Pull(f.script);
      (p, Fuse(rest, p.End?))
  }

  /** `Emit(xs)` is the script of a finite upstream that answers every poll at once: the items of
      `xs` in order, then the end. */
  function Emit<T, E>(xs: seq<T>): (s: Script<T, E>)
    ensures |s| == |xs| + 1 && s[|xs|] == End
    ensures forall i :: 0 <= i < |xs| ==> s[i] == Item(xs[i])
  {
    if xs == [] then [End] else [Item(xs[0])] + Emit(xs[1..])
  }

  /** A run of `n` polls that all answer `NotReady`. */
  function NotReadys<T, E>(n: nat): seq<Poll<T, E>>
  {
    seq(n, _ => NotReady)
  }

  /** The values of the items of a stretch of script. */
  function ItemsOf<T, E>(s: Script<T, E>): (xs: seq<T>)
    ensures |xs| <= |s|
  {
    if s == [] then []
    else (if s[0].Item? then [s[0].value] else []) + ItemsOf(s[1..])
  }

  lemma {:induction false} ItemsOfAppend<T, E>(s: Script<T, E>, t: Script<T, E>)
    ensures ItemsOf(s + t) == ItemsOf(s) + ItemsOf(t)
  {
    if s != [] {
      assert (s + t)[0] == s[0] && (s + t)[1..] == s[1..] + t;
      ItemsOfAppend(s[1..], t);
    } else {
      assert s + t == t;
    }
  }

  /** The script answers `End` at some point: a finite upstream. */
  predicate HasEnd<T, E>(s: Script<T, E>)
  {
    s != [] && (s[0].End? || HasEnd(s[1..]))
  }

  /** What a finite upstream answers before its first `End`. */
  function BeforeEnd<T, E>(s: Script<T, E>): (b: Script<T, E>)
    requires HasEnd(s)
    ensures |b| < |s| && b == s[..|b|] && s[|b|].End?
    ensures forall i :: 0 <= i < |b| ==> !b[i].End?
  {
    if s[0].End? then [] else [s[0]] + BeforeEnd(s[1..])
  }

  /** A stretch of script without errors. */
  predicate NoErr<T, E>(s: Script<T, E>)
  {
    forall i :: 0 <= i < |s| ==> !s[i].Err?
  }

  /** The upstream that answers at once ends after its items, with no error before. */
  lemma {:induction false} EmitBeforeEnd<T, E>(xs: seq<T>, s: Script<T, E>)
    requires s == Emit(xs)
    ensures HasEnd(s) && NoErr(BeforeEnd(s))
    ensures |BeforeEnd(s)| == |xs| && ItemsOf(BeforeEnd(s)) == xs
  {
    if xs != [] {
      assert s[1..] == Emit(xs[1..]);
      EmitBeforeEnd(xs[1..], s[1..]);
      assert BeforeEnd(s) == [s[0]] + BeforeEnd(s[1..]);
    }
  }
}
