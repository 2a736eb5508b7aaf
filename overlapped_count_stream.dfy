/** `OverlappedCountBufferedStream` as a whole: the engine driving a queue of count windows.
    The queue is described by the contents of its windows; the loop over it is restated on plain
    sequences, and over any finite upstream the batches are shown to be the sliding windows. */
module OverlappedCountStream {
  import opened Wrappers
  import opened Futures03
  import opened CountBufferPolicy
  import opened CountOpenerPolicy
  import opened OverlappedPolicy
  import opened BufferedStreamEngine

  /** The queue of count windows of size `m` holding `vs`, oldest first, with the opener at `sc`. */
  function Wins<V>(vs: seq<seq<V>>, m: nat, skip: nat, sc: nat): (o: Overlapped<V>)
    ensures |o.buffers| == |vs|
  {
    Overlapped(seq(|vs|, i requires 0 <= i < |vs| => CountLeaf(CountBuffer(vs[i], m))), CountOpen(CountOpener(skip, sc)), CountCreate(m))
  }

  /** Every window gets `v`. */
  function AppendAll<V>(vs: seq<seq<V>>, v: V): (ws: seq<seq<V>>)
    ensures |ws| == |vs| && forall i :: 0 <= i < |vs| ==> ws[i] == vs[i] + [v]
  {
    seq(|vs|, i requires 0 <= i < |vs| => vs[i] + [v])
  }

  /** An insert into count windows: every window gets the item, and on every `skip`-th insert an
      empty window joins at the back. */
  lemma WinsInsert<V>(vs: seq<seq<V>>, m: nat, skip: nat, sc: nat, v: V, now: nat)
    ensures OverlappedInsert(Wins(vs, m, skip, sc), v, now)
      == if sc + 1 == skip then Wins(AppendAll(vs, v) + [[]], m, skip, 0) else Wins(AppendAll(vs, v), m, skip, sc + 1)
  {
    var o := Wins(vs, m, skip, sc);
    var r := OverlappedInsert(o, v, now);
    var ws := AppendAll(vs, v) + (if sc + 1 == skip then [[]] else []);
    assert r.buffers == Wins(ws, m, skip, 0).buffers;
  }

  /** Polling count windows: the oldest hands out its batch exactly when it is full. */
  lemma WinsPoll<V>(vs: seq<seq<V>>, m: nat, skip: nat, sc: nat)
    ensures vs == [] ==> OverlappedPoll(Wins(vs, m, skip, sc)) == (None, Wins(vs, m, skip, sc))
    ensures vs != [] && |vs[0]| == m ==> OverlappedPoll(Wins(vs, m, skip, sc)) == (Some(vs[0]), Wins(vs[1..], m, skip, sc))
    ensures vs != [] && |vs[0]| != m ==> OverlappedPoll(Wins(vs, m, skip, sc)) == (None, Wins(vs, m, skip, sc))
  {
    if vs != [] {
      var o := Wins(vs, m, skip, sc);
      assert o.buffers[1..] == Wins(vs[1..], m, skip, sc).buffers;
      if |vs[0]| != m {
        assert LeafPoll(o.buffers[0]).1 == o.buffers[0];
        assert [LeafPoll(o.buffers[0]).1] + o.buffers[1..] == o.buffers;
      }
    }
  }

  /** After the end, count windows are drained oldest first, each handing out its contents. */
  lemma WinsAfterDone<V>(vs: seq<seq<V>>, m: nat, skip: nat, sc: nat)
    ensures vs == [] ==> OverlappedAfterDone(Wins(vs, m, skip, sc)) == (None, Wins(vs, m, skip, sc))
    ensures vs != [] ==> OverlappedAfterDone(Wins(vs, m, skip, sc)) == (Some(vs[0]), Wins(vs[1..], m, skip, sc))
  {
    if vs != [] {
      assert Wins(vs, m, skip, sc).buffers[1..] == Wins(vs[1..], m, skip, sc).buffers;
    }
  }

  /** What the loop makes of count windows holding `vs` over the upstream items `ys`: the batch
      handed out, if any, the windows and opener count after it, the items not yet pulled, and
      whether the end was met. */
  function WinLoop<V>(vs: seq<seq<V>>, m: nat, skip: nat, sc: nat, ys: seq<V>): (Option<seq<V>>, seq<seq<V>>, nat, seq<V>, bool)
    decreases |ys|
  {
    if vs != [] && |vs[0]| == m then (Some(vs[0]), vs[1..], sc, ys, false)
    else if ys == [] then (if vs == [] then (None, [], sc, [], true) else (Some(vs[0]), vs[1..], sc, [], true))
    else if sc + 1 == skip then WinLoop(AppendAll(vs, ys[0]) + [[]], m, skip, 0, ys[1..])
    else WinLoop(AppendAll(vs, ys[0]), m, skip, sc + 1, ys[1..])
  }

  /** The overlapped count stream over the rest `ys` of a finite upstream. */
  function WinStream<V>(vs: seq<seq<V>>, m: nat, skip: nat, sc: nat, ys: seq<V>): Engine<V>
  {
    Engine(Fused(Emit(ys)), Windows(Wins(vs, m, skip, sc)))
  }

  /** The same stream once its upstream has ended. */
  function WinEnded<V>(vs: seq<seq<V>>, m: nat, skip: nat, sc: nat): Engine<V>
  {
    Engine(Fuse([], true), Windows(Wins(vs, m, skip, sc)))
  }

  function WinAfter<V>(c: (Option<seq<V>>, seq<seq<V>>, nat, seq<V>, bool), m: nat, skip: nat): (Poll<seq<V>>, Engine<V>)
  {
    if !c.4 then (Answer(c.0), WinStream(c.1, m, skip, c.2, c.3))
    else (Answer(c.0), WinEnded(c.1, m, skip, c.2))
  }

  lemma WinTurnReady<V>(vs: seq<seq<V>>, m: nat, skip: nat, sc: nat, ys: seq<V>, now: nat)
    requires vs != [] && |vs[0]| == m
    ensures EngineLoop(WinStream(vs, m, skip, sc, ys), now) == (Item(vs[0]), WinStream(vs[1..], m, skip, sc, ys))
  {
    WinsPoll(vs, m, skip, sc);
    LoopTurnReady(WinStream(vs, m, skip, sc, ys), now);
  }

  lemma WinTurnEnd<V>(vs: seq<seq<V>>, m: nat, skip: nat, sc: nat, now: nat)
    requires vs == [] || |vs[0]| != m
    ensures EngineLoop(WinStream(vs, m, skip, sc, []), now) == WinAfter(WinLoop(vs, m, skip, sc, []), m, skip)
  {
    WinsPoll(vs, m, skip, sc);
    WinsAfterDone(vs, m, skip, sc);
    LoopTurnEnd(WinStream(vs, m, skip, sc, []), now);
  }

  lemma WinTurnItem<V>(vs: seq<seq<V>>, m: nat, skip: nat, sc: nat, ys: seq<V>, now: nat)
    requires (vs == [] || |vs[0]| != m) && ys != []
    ensures EngineLoop(WinStream(vs, m, skip, sc, ys), now)
      == if sc + 1 == skip then EngineLoop(WinStream(AppendAll(vs, ys[0]) + [[]], m, skip, 0, ys[1..]), now)
         else EngineLoop(WinStream(AppendAll(vs, ys[0]), m, skip, sc + 1, ys[1..]), now)
  {
    WinsPoll(vs, m, skip, sc);
    EmitTail(ys);
    WinsInsert(vs, m, skip, sc, ys[0], now);
    LoopTurnItem(WinStream(vs, m, skip, sc, ys), now);
  }

  /** The engine's loop over count windows is `WinLoop`. */
  lemma {:induction false} WinLoopBridge<V>(vs: seq<seq<V>>, m: nat, skip: nat, sc: nat, ys: seq<V>, now: nat)
    ensures EngineLoop(WinStream(vs, m, skip, sc, ys), now) == WinAfter(WinLoop(vs, m, skip, sc, ys), m, skip)
    decreases |ys|
  {
    if vs != [] && |vs[0]| == m {
      WinTurnReady(vs, m, skip, sc, ys, now);
    } else if ys == [] {
      WinTurnEnd(vs, m, skip, sc, now);
    } else {
      WinTurnItem(vs, m, skip, sc, ys, now);
      if sc + 1 == skip {
        WinLoopBridge(AppendAll(vs, ys[0]) + [[]], m, skip, 0, ys[1..], now);
      } else {
        WinLoopBridge(AppendAll(vs, ys[0]), m, skip, sc + 1, ys[1..], now);
      }
    }
  }

  /** Once the upstream has ended, the stream hands out the contents of every window still in the
      queue, oldest first, and then ends. */
  lemma WinEndedRun<V>(vs: seq<seq<V>>, m: nat, skip: nat, sc: nat, ts: seq<nat>)
    requires |ts| >= |vs|
    ensures EngineRun(WinEnded(vs, m, skip, sc), ts) == vs
  {
    var o := Wins(vs, m, skip, sc);
    DoneRunOnePerWindow(Fuse([], true), o, ts);
    var r := EngineRun(WinEnded(vs, m, skip, sc), ts);
    forall i | 0 <= i < |vs|
      ensures r[i] == vs[i]
    {
      assert o.buffers[i] == CountLeaf(CountBuffer(vs[i], m));
    }
  }

  /** The batches `n` polls hand out, on plain sequences; `ended` says the upstream has ended. */
  function WinRun<V>(vs: seq<seq<V>>, m: nat, skip: nat, sc: nat, ys: seq<V>, ended: bool, n: nat): seq<seq<V>>
    decreases n
  {
    if n == 0 then []
    else if ended then (if vs == [] then [] else [vs[0]] + WinRun(vs[1..], m, skip, sc, ys, true, n - 1))
    else
      var c := WinLoop(vs, m, skip, sc, ys);
      if c.0.None? then [] else [c.0.value] + WinRun(c.1, m, skip, c.2, c.3, c.4, n - 1)
  }

  function WinState<V>(vs: seq<seq<V>>, m: nat, skip: nat, sc: nat, ys: seq<V>, ended: bool): Engine<V>
  {
    if ended then WinEnded(vs, m, skip, sc) else WinStream(vs, m, skip, sc, ys)
  }

  /** One poll, on plain sequences. */
  lemma WinStep<V>(vs: seq<seq<V>>, m: nat, skip: nat, sc: nat, ys: seq<V>, ended: bool, now: nat)
    ensures var r := EngineStep(WinState(vs, m, skip, sc, ys, ended), now);
      if ended then
        r == (if vs == [] then End else Item(vs[0]), WinEnded(if vs == [] then [] else vs[1..], m, skip, sc))
      else
        var c := WinLoop(vs, m, skip, sc, ys);
        r == (Answer(c.0), WinState(c.1, m, skip, c.2, c.3, c.4))
  {
    if ended {
      WinsAfterDone(vs, m, skip, sc);
    } else {
      WinLoopBridge(vs, m, skip, sc, ys, now);
    }
  }

  lemma WinRunBridgeEnded<V>(vs: seq<seq<V>>, m: nat, skip: nat, sc: nat, ys: seq<V>, ts: seq<nat>)
    requires ts != [] && vs != []
    requires EngineRun(WinEnded(vs[1..], m, skip, sc), ts[1..]) == WinRun(vs[1..], m, skip, sc, ys, true, |ts| - 1)
    ensures EngineRun(WinEnded(vs, m, skip, sc), ts) == WinRun(vs, m, skip, sc, ys, true, |ts|)
  {
    WinStep(vs, m, skip, sc, ys, true, ts[0]);
    RunItem(WinEnded(vs, m, skip, sc), ts, vs[0], WinEnded(vs[1..], m, skip, sc));
  }

  lemma WinRunBridgeLive<V>(vs: seq<seq<V>>, m: nat, skip: nat, sc: nat, ys: seq<V>, ts: seq<nat>)
    requires ts != []
    requires var c := WinLoop(vs, m, skip, sc, ys);
      c.0.Some? ==> EngineRun(WinState(c.1, m, skip, c.2, c.3, c.4), ts[1..]) == WinRun(c.1, m, skip, c.2, c.3, c.4, |ts| - 1)
    ensures EngineRun(WinStream(vs, m, skip, sc, ys), ts) == WinRun(vs, m, skip, sc, ys, false, |ts|)
  {
    var c := WinLoop(vs, m, skip, sc, ys);
    WinStep(vs, m, skip, sc, ys, false, ts[0]);
    if c.0.None? {
      RunEnd(WinStream(vs, m, skip, sc, ys), ts);
    } else {
      RunItem(WinStream(vs, m, skip, sc, ys), ts, c.0.value, WinState(c.1, m, skip, c.2, c.3, c.4));
    }
  }

  /** Once the upstream has ended, the stream's run is the drain of its windows. */
  lemma {:induction false} WinRunBridgeDone<V>(vs: seq<seq<V>>, m: nat, skip: nat, sc: nat, ys: seq<V>, ts: seq<nat>)
    ensures EngineRun(WinEnded(vs, m, skip, sc), ts) == WinRun(vs, m, skip, sc, ys, true, |ts|)
    decreases |ts|
  {
    if ts != [] {
      if vs == [] {
        WinStep(vs, m, skip, sc, ys, true, ts[0]);
        RunEnd(WinEnded(vs, m, skip, sc), ts);
      } else {
        WinRunBridgeDone(vs[1..], m, skip, sc, ys, ts[1..]);
        WinRunBridgeEnded(vs, m, skip, sc, ys, ts);
      }
    }
  }

  /** The engine's run of an overlapped count stream is `WinRun`. */
  lemma {:induction false} WinRunBridge<V>(vs: seq<seq<V>>, m: nat, skip: nat, sc: nat, ys: seq<V>, ts: seq<nat>)
    ensures EngineRun(WinStream(vs, m, skip, sc, ys), ts) == WinRun(vs, m, skip, sc, ys, false, |ts|)
    decreases |ts|
  {
    if ts != [] {
      var c := WinLoop(vs, m, skip, sc, ys);
      if c.0.Some? {
        if c.4 {
          WinRunBridgeDone(c.1, m, skip, c.2, c.3, ts[1..]);
        } else {
          WinRunBridge(c.1, m, skip, c.2, c.3, ts[1..]);
        }
      }
      WinRunBridgeLive(vs, m, skip, sc, ys, ts);
    }
  }

  /** One item pulled into windows that have no full batch. */
  lemma WinPush<V>(vs: seq<seq<V>>, m: nat, skip: nat, sc: nat, y: V, ys: seq<V>, ws: seq<seq<V>>)
    requires vs == [] || |vs[0]| != m
    requires ws == AppendAll(vs, y) + (if sc + 1 == skip then [[]] else [])
    ensures WinLoop(vs, m, skip, sc, [y] + ys) == WinLoop(ws, m, skip, if sc + 1 == skip then 0 else sc + 1, ys)
  {
    assert ([y] + ys)[0] == y && ([y] + ys)[1..] == ys;
    if sc + 1 != skip {
      assert ws == AppendAll(vs, y);
    }
  }

  lemma AppendOne<V>(w: seq<V>, v: V)
    ensures AppendAll([w], v) == [w + [v]]
  {
  }

  lemma AppendTwo<V>(w: seq<V>, u: seq<V>, v: V)
    ensures AppendAll([w, u], v) == [w + [v], u + [v]]
  {
  }

  // Sliding windows of 3 items, a new one every 2 items, over six items.

  lemma Slide3By2Loop1<V>(x0: V, x1: V, x2: V, x3: V, x4: V, x5: V)
    ensures WinLoop([[]], 3, 2, 0, [x0, x1, x2, x3, x4, x5]) == (Some([x0, x1, x2]), [[x2]], 1, [x3, x4, x5], false)
  {
    AppendOne([], x0);
    assert [] + [x0] == [x0];
    assert [x0, x1, x2, x3, x4, x5] == [x0] + [x1, x2, x3, x4, x5];
    WinPush([[]], 3, 2, 0, x0, [x1, x2, x3, x4, x5], [[x0]]);
    AppendOne([x0], x1);
    assert [x0] + [x1] == [x0, x1];
    assert [x1, x2, x3, x4, x5] == [x1] + [x2, x3, x4, x5];
    WinPush([[x0]], 3, 2, 1, x1, [x2, x3, x4, x5], [[x0, x1], []]);
    AppendTwo([x0, x1], [], x2);
    assert [x0, x1] + [x2] == [x0, x1, x2] && [] + [x2] == [x2];
    assert [x2, x3, x4, x5] == [x2] + [x3, x4, x5];
    WinPush([[x0, x1], []], 3, 2, 0, x2, [x3, x4, x5], [[x0, x1, x2], [x2]]);
    assert [[x0, x1, x2], [x2]][1..] == [[x2]];
  }

  lemma Slide3By2Loop2<V>(x2: V, x3: V, x4: V, x5: V)
    ensures WinLoop([[x2]], 3, 2, 1, [x3, x4, x5]) == (Some([x2, x3, x4]), [[x4]], 1, [x5], false)
  {
    AppendOne([x2], x3);
    assert [x2] + [x3] == [x2, x3];
    assert [x3, x4, x5] == [x3] + [x4, x5];
    WinPush([[x2]], 3, 2, 1, x3, [x4, x5], [[x2, x3], []]);
    AppendTwo([x2, x3], [], x4);
    assert [x2, x3] + [x4] == [x2, x3, x4] && [] + [x4] == [x4];
    assert [x4, x5] == [x4] + [x5];
    WinPush([[x2, x3], []], 3, 2, 0, x4, [x5], [[x2, x3, x4], [x4]]);
    assert [[x2, x3, x4], [x4]][1..] == [[x4]];
  }

  lemma Slide3By2Loop3<V>(x4: V, x5: V)
    ensures WinLoop([[x4]], 3, 2, 1, [x5]) == (Some([x4, x5]), [[]], 0, [], true)
  {
    AppendOne([x4], x5);
    assert [x4] + [x5] == [x4, x5];
    assert [x5] == [x5] + [];
    WinPush([[x4]], 3, 2, 1, x5, [], [[x4, x5], []]);
    assert [[x4, x5], []][1..] == [[]];
  }

  /** A freshly built overlapped count stream is a single empty window with the opener at zero. */
  lemma NewIsWinStream<V>(xs: seq<V>, m: nat, skip: nat)
    ensures NewOverlappedCountStream(Emit(xs), m, skip) == WinStream([[]], m, skip, 0, xs)
  {
    assert Wins<V>([[]], m, skip, 0).buffers == [CountLeaf(NewCountBuffer<V>(m))];
  }

  lemma Slide3By2Run<V>(x0: V, x1: V, x2: V, x3: V, x4: V, x5: V, n: nat)
    requires n >= 4
    ensures WinRun([[]], 3, 2, 0, [x0, x1, x2, x3, x4, x5], false, n) == [[x0, x1, x2], [x2, x3, x4], [x4, x5], []]
  {
    Slide3By2Loop1(x0, x1, x2, x3, x4, x5);
    Slide3By2Loop2(x2, x3, x4, x5);
    Slide3By2Loop3(x4, x5);
    assert WinRun([[]], 3, 2, 0, [x0, x1, x2, x3, x4, x5], false, n)
      == [[x0, x1, x2]] + WinRun([[x2]], 3, 2, 1, [x3, x4, x5], false, n - 1);
    assert WinRun([[x2]], 3, 2, 1, [x3, x4, x5], false, n - 1)
      == [[x2, x3, x4]] + WinRun([[x4]], 3, 2, 1, [x5], false, n - 2);
    assert WinRun([[x4]], 3, 2, 1, [x5], false, n - 2)
      == [[x4, x5]] + WinRun<V>([[]], 3, 2, 0, [], true, n - 3);
    assert WinRun<V>([[]], 3, 2, 0, [], true, n - 3) == [[]] + WinRun<V>([], 3, 2, 0, [], true, n - 4);
  }

  /** Windows of 3 opened every 2 items overlap by one item; the window opened by the last item
      has seen nothing and is handed out empty before the end. */
  lemma Slide3By2<V>(x0: V, x1: V, x2: V, x3: V, x4: V, x5: V, ts: seq<nat>)
    requires |ts| >= 4
    ensures EngineRun(NewOverlappedCountStream(Emit([x0, x1, x2, x3, x4, x5]), 3, 2), ts)
      == [[x0, x1, x2], [x2, x3, x4], [x4, x5], []]
  {
    NewIsWinStream([x0, x1, x2, x3, x4, x5], 3, 2);
    WinRunBridge([[]], 3, 2, 0, [x0, x1, x2, x3, x4, x5], ts);
    Slide3By2Run(x0, x1, x2, x3, x4, x5, |ts|);
  }

  // Windows of 2 items, a new one every 3 items, over seven items.

  lemma Skip2By3Loop1<V>(x0: V, x1: V, x2: V, x3: V, x4: V, x5: V, x6: V)
    ensures WinLoop([[]], 2, 3, 0, [x0, x1, x2, x3, x4, x5, x6]) == (Some([x0, x1]), [], 2, [x2, x3, x4, x5, x6], false)
  {
    AppendOne([], x0);
    assert [] + [x0] == [x0];
    assert [x0, x1, x2, x3, x4, x5, x6] == [x0] + [x1, x2, x3, x4, x5, x6];
    WinPush([[]], 2, 3, 0, x0, [x1, x2, x3, x4, x5, x6], [[x0]]);
    AppendOne([x0], x1);
    assert [x0] + [x1] == [x0, x1];
    assert [x1, x2, x3, x4, x5, x6] == [x1] + [x2, x3, x4, x5, x6];
    WinPush([[x0]], 2, 3, 1, x1, [x2, x3, x4, x5, x6], [[x0, x1]]);
    assert [[x0, x1]][1..] == [];
  }

  lemma Skip2By3Loop2<V>(x2: V, x3: V, x4: V, x5: V, x6: V)
    ensures WinLoop([], 2, 3, 2, [x2, x3, x4, x5, x6]) == (Some([x3, x4]), [], 2, [x5, x6], false)
  {
    assert AppendAll([], x2) + [[]] == [[]];
    assert [x2, x3, x4, x5, x6] == [x2] + [x3, x4, x5, x6];
    WinPush([], 2, 3, 2, x2, [x3, x4, x5, x6], [[]]);
    AppendOne([], x3);
    assert [] + [x3] == [x3];
    assert [x3, x4, x5, x6] == [x3] + [x4, x5, x6];
    WinPush([[]], 2, 3, 0, x3, [x4, x5, x6], [[x3]]);
    AppendOne([x3], x4);
    assert [x3] + [x4] == [x3, x4];
    assert [x4, x5, x6] == [x4] + [x5, x6];
    WinPush([[x3]], 2, 3, 1, x4, [x5, x6], [[x3, x4]]);
    assert [[x3, x4]][1..] == [];
  }

  lemma Skip2By3Loop3<V>(x5: V, x6: V)
    ensures WinLoop([], 2, 3, 2, [x5, x6]) == (Some([x6]), [], 1, [], true)
  {
    assert AppendAll([], x5) + [[]] == [[]];
    assert [x5, x6] == [x5] + [x6];
    WinPush([], 2, 3, 2, x5, [x6], [[]]);
    AppendOne([], x6);
    assert [] + [x6] == [x6];
    assert [x6] == [x6] + [];
    WinPush([[]], 2, 3, 0, x6, [], [[x6]]);
    assert [[x6]][1..] == [];
  }

  lemma Skip2By3Run<V>(x0: V, x1: V, x2: V, x3: V, x4: V, x5: V, x6: V, n: nat)
    requires n >= 4
    ensures WinRun([[]], 2, 3, 0, [x0, x1, x2, x3, x4, x5, x6], false, n) == [[x0, x1], [x3, x4], [x6]]
  {
    Skip2By3Loop1(x0, x1, x2, x3, x4, x5, x6);
    Skip2By3Loop2(x2, x3, x4, x5, x6);
    Skip2By3Loop3(x5, x6);
    assert WinRun([[]], 2, 3, 0, [x0, x1, x2, x3, x4, x5, x6], false, n)
      == [[x0, x1]] + WinRun([], 2, 3, 2, [x2, x3, x4, x5, x6], false, n - 1);
    assert WinRun([], 2, 3, 2, [x2, x3, x4, x5, x6], false, n - 1)
      == [[x3, x4]] + WinRun([], 2, 3, 2, [x5, x6], false, n - 2);
    assert WinRun([], 2, 3, 2, [x5, x6], false, n - 2)
      == [[x6]] + WinRun<V>([], 2, 3, 1, [], true, n - 3);
    assert WinRun<V>([], 2, 3, 1, [], true, n - 3) == [];
  }

  /** Windows of 2 opened every 3 items leave out every third item: the third and sixth of seven
      are in no batch. */
  lemma Skip2By3<V>(x0: V, x1: V, x2: V, x3: V, x4: V, x5: V, x6: V, ts: seq<nat>)
    requires |ts| >= 4
    ensures EngineRun(NewOverlappedCountStream(Emit([x0, x1, x2, x3, x4, x5, x6]), 2, 3), ts)
      == [[x0, x1], [x3, x4], [x6]]
  {
    NewIsWinStream([x0, x1, x2, x3, x4, x5, x6], 2, 3);
    WinRunBridge([[]], 2, 3, 0, [x0, x1, x2, x3, x4, x5, x6], ts);
    Skip2By3Run(x0, x1, x2, x3, x4, x5, x6, |ts|);
  }

  // Any finite upstream answering at once.

  function Min(a: int, b: int): int
  {
    if a <= b then a else b
  }

  /** The windows opened at `start`, `start + skip`, ... up to position `p` of `xs`, each holding
      the items from its start, at most `m` of them, that precede position `p`. */
  function Opened<V>(xs: seq<V>, m: nat, skip: nat, start: nat, p: nat): seq<seq<V>>
    requires skip >= 1 && p <= |xs|
    decreases if start <= p then p - start + 1 else 0
  {
    if start > p then [] else [xs[start..Min(start + m, p)]] + Opened(xs, m, skip, start + skip, p)
  }

  /** The sliding windows over `xs`: window `k` starts at item `k * skip` and holds up to `m`
      items; a window that meets the end holds what is left. `SlidingWindowsRun` proves that the
      overlapped count stream hands out exactly these. */
  function SlidingWindows<V>(xs: seq<V>, m: nat, skip: nat): (r: seq<seq<V>>)
    requires skip >= 1
    ensures |r| == |xs| / skip + 1
  {
    seq(|xs| / skip + 1, k requires 0 <= k < |xs| / skip + 1 => xs[Min(k * skip, |xs|)..Min(k * skip + m, |xs|)])
  }

  lemma MulNonNegative(a: int, b: int)
    requires a >= 0 && b >= 0
    ensures a * b >= 0
  {
  }

  lemma MulDistributes(d: int, a: int, b: int)
    ensures d * (a + b) == d * a + d * b
  {
  }

  /** Euclidean division leaves a unique quotient and remainder. */
  lemma DivMod(a: int, d: int, q: int, r: int)
    requires d > 0 && 0 <= r < d && a == d * q + r
    ensures a / d == q && a % d == r
  {
    var q0, r0 := a / d, a % d;
    assert a == d * q0 + r0 && 0 <= r0 < d;
    var k := q0 - q;
    MulDistributes(d, q, k);
    assert d * k == r - r0;
    if k >= 1 {
      MulDistributes(d, 1, k - 1);
      MulNonNegative(d, k - 1);
    } else if k <= -1 {
      MulDistributes(d, k, -k);
      MulDistributes(d, 1, -k - 1);
      MulNonNegative(d, -k - 1);
    }
  }

  /** The opener's count after one more item is the position modulo `skip`. */
  lemma ModStep(p: nat, skip: nat)
    requires skip >= 1
    ensures (p + 1) % skip == if p % skip + 1 == skip then 0 else p % skip + 1
  {
    var q, r := p / skip, p % skip;
    if r + 1 == skip {
      DivMod(p + 1, skip, q + 1, 0);
    } else {
      DivMod(p + 1, skip, q, r + 1);
    }
  }

  /** Between two positions `skip` apart there is exactly one window start. */
  lemma ModOpen(start: nat, p: nat, skip: nat)
    requires skip >= 1 && start % skip == 0 && p < start <= p + skip
    ensures (p + 1) % skip == 0 <==> start == p + 1
  {
    if (p + 1) % skip == 0 {
      var x := start - (p + 1);
      DivMod(start, skip, start / skip, 0);
      DivMod(p + 1, skip, (p + 1) / skip, 0);
      DivMod(x, skip, start / skip - (p + 1) / skip, 0);
      DivMod(x, skip, 0, x);
    }
  }

  lemma ModAdd(start: nat, skip: nat)
    requires skip >= 1 && start % skip == 0
    ensures (start + skip) % skip == 0
  {
    DivMod(start, skip, start / skip, 0);
    DivMod(start + skip, skip, start / skip + 1, 0);
  }

  /** One more item, while no window is full: every window gets it, and a new empty window opens
      exactly when the position reaches a multiple of `skip`. */
  lemma {:induction false} OpenedPush<V>(xs: seq<V>, m: nat, skip: nat, start: nat, p: nat)
    requires skip >= 1 && p < |xs| && start % skip == 0 && start <= p + skip && start + m > p
    ensures Opened(xs, m, skip, start, p + 1)
      == AppendAll(Opened(xs, m, skip, start, p), xs[p]) + (if (p + 1) % skip == 0 then [[]] else [])
    decreases p + 1 - start
  {
    if start > p {
      OpenedPushNew(xs, m, skip, start, p);
    } else {
      ModAdd(start, skip);
      OpenedPush(xs, m, skip, start + skip, p);
      OpenedPushOld(xs, m, skip, start, p, if (p + 1) % skip == 0 then [[]] else []);
    }
  }

  /** The item at `p` when no window is open at or before it: only a window opening at `p + 1`
      appears. */
  lemma OpenedPushNew<V>(xs: seq<V>, m: nat, skip: nat, start: nat, p: nat)
    requires skip >= 1 && p < |xs| && start % skip == 0 && p < start <= p + skip
    ensures Opened(xs, m, skip, start, p + 1)
      == AppendAll(Opened(xs, m, skip, start, p), xs[p]) + (if (p + 1) % skip == 0 then [[]] else [])
  {
    ModOpen(start, p, skip);
    if start == p + 1 {
      assert Opened(xs, m, skip, start + skip, p + 1) == [];
      assert Min(start + m, p + 1) == p + 1 && xs[p + 1..p + 1] == [];
      assert Opened(xs, m, skip, start, p + 1) == [xs[p + 1..p + 1]];
    }
  }

  /** The item at `p` joins the window opened at `start`, ahead of what it does to the later ones. */
  lemma OpenedPushOld<V>(xs: seq<V>, m: nat, skip: nat, start: nat, p: nat, opening: seq<seq<V>>)
    requires skip >= 1 && p < |xs| && start <= p && start + m > p
    requires Opened(xs, m, skip, start + skip, p + 1) == AppendAll(Opened(xs, m, skip, start + skip, p), xs[p]) + opening
    ensures Opened(xs, m, skip, start, p + 1) == AppendAll(Opened(xs, m, skip, start, p), xs[p]) + opening
  {
    var vs := Opened(xs, m, skip, start, p);
    var rest := Opened(xs, m, skip, start + skip, p);
    var w := xs[start..p + 1];
    assert Min(start + m, p) == p && Min(start + m, p + 1) == p + 1;
    assert vs == [xs[start..p]] + rest;
    assert Opened(xs, m, skip, start, p + 1) == [w] + Opened(xs, m, skip, start + skip, p + 1);
    assert w == xs[start..p] + [xs[p]];
    AppendAllCons(xs[start..p], rest, xs[p]);
    assert [w] + (AppendAll(rest, xs[p]) + opening) == ([w] + AppendAll(rest, xs[p])) + opening;
  }

  lemma AppendAllCons<V>(v: seq<V>, vs: seq<seq<V>>, x: V)
    ensures AppendAll([v] + vs, x) == [v + [x]] + AppendAll(vs, x)
  {
    var l, r := AppendAll([v] + vs, x), [v + [x]] + AppendAll(vs, x);
    assert |l| == |r|;
    forall i | 0 <= i < |l|
      ensures l[i] == r[i]
    {
      if i > 0 {
        assert ([v] + vs)[i] == vs[i - 1];
      }
    }
  }

  /** The loop over count windows, at position `p` of `xs` with the oldest window opened at
      `front`: it hands out that window as soon as it holds `m` items, pulling as many items as it
      takes; if the upstream ends first, it hands it out with what it has; and with no window
      left and none to open before the end, it reports the end. */
  lemma {:induction false} WinLoopSpec<V>(xs: seq<V>, m: nat, skip: nat, front: nat, p: nat)
    requires m >= 1 && skip >= 1 && p <= |xs| && front % skip == 0 && front <= p + skip
    ensures var c := WinLoop(Opened(xs, m, skip, front, p), m, skip, p % skip, xs[p..]);
      if front + m <= |xs| then
        var q := if front + m <= p then p else front + m;
        c == (Some(xs[front..front + m]), Opened(xs, m, skip, front + skip, q), q % skip, xs[q..], false)
      else if front <= |xs| then
        c == (Some(xs[front..]), Opened(xs, m, skip, front + skip, |xs|), |xs| % skip, [], true)
      else
        c == (None, [], |xs| % skip, [], true)
    decreases |xs| - p
  {
    var vs := Opened(xs, m, skip, front, p);
    if front <= p && front + m <= p {
      assert vs[0] == xs[front..front + m] && vs[1..] == Opened(xs, m, skip, front + skip, p);
    } else if p == |xs| {
      assert xs[p..] == [];
      if front <= p {
        assert vs[0] == xs[front..] && vs[1..] == Opened(xs, m, skip, front + skip, p);
      }
    } else {
      assert vs == [] || |vs[0]| != m;
      OpenedPush(xs, m, skip, front, p);
      ModStep(p, skip);
      assert xs[p..][0] == xs[p] && xs[p..][1..] == xs[p + 1..];
      var ws := AppendAll(vs, xs[p]);
      if p % skip + 1 == skip {
        assert WinLoop(vs, m, skip, p % skip, xs[p..]) == WinLoop(ws + [[]], m, skip, 0, xs[p + 1..]);
      } else {
        assert ws + [] == ws;
        assert WinLoop(vs, m, skip, p % skip, xs[p..]) == WinLoop(ws, m, skip, p % skip + 1, xs[p + 1..]);
      }
      WinLoopSpec(xs, m, skip, front, p + 1);
    }
  }

  /** After the end, `n` polls drain the windows left, oldest first. */
  lemma {:induction false} WinRunDrain<V>(vs: seq<seq<V>>, m: nat, skip: nat, sc: nat, n: nat)
    requires n >= |vs|
    ensures WinRun(vs, m, skip, sc, [], true, n) == vs
    decreases |vs|
  {
    if vs != [] {
      WinRunDrain(vs[1..], m, skip, sc, n - 1);
      assert vs == [vs[0]] + vs[1..];
    }
  }

  /** From position `p` with the oldest window opened at `front`, enough polls hand out every
      window from `front` on, whole or cut short by the end, in the order they were opened. */
  lemma {:induction false} WinRunSpec<V>(xs: seq<V>, m: nat, skip: nat, front: nat, p: nat, n: nat)
    requires m >= 1 && skip >= 1 && p <= |xs| && front % skip == 0 && front <= p + skip
    requires n >= |Opened(xs, m, skip, front, |xs|)|
    ensures WinRun(Opened(xs, m, skip, front, p), m, skip, p % skip, xs[p..], false, n)
      == Opened(xs, m, skip, front, |xs|)
    decreases n
  {
    WinLoopSpec(xs, m, skip, front, p);
    if front + m <= |xs| {
      var q := if front + m <= p then p else front + m;
      ModAdd(front, skip);
      WinRunSpec(xs, m, skip, front + skip, q, n - 1);
      WinRunFull(xs, m, skip, front, p, n);
    } else if front <= |xs| {
      WinRunDrain(Opened(xs, m, skip, front + skip, |xs|), m, skip, |xs| % skip, n - 1);
      WinRunCut(xs, m, skip, front, p, n);
    }
  }

  lemma WinRunFull<V>(xs: seq<V>, m: nat, skip: nat, front: nat, p: nat, n: nat)
    requires m >= 1 && skip >= 1 && p <= |xs| && front + m <= |xs| && n >= 1
    requires var q := if front + m <= p then p else front + m;
      WinLoop(Opened(xs, m, skip, front, p), m, skip, p % skip, xs[p..])
        == (Some(xs[front..front + m]), Opened(xs, m, skip, front + skip, q), q % skip, xs[q..], false)
      && WinRun(Opened(xs, m, skip, front + skip, q), m, skip, q % skip, xs[q..], false, n - 1)
        == Opened(xs, m, skip, front + skip, |xs|)
    ensures WinRun(Opened(xs, m, skip, front, p), m, skip, p % skip, xs[p..], false, n)
      == Opened(xs, m, skip, front, |xs|)
  {
    assert Min(front + m, |xs|) == front + m;
  }

  lemma WinRunCut<V>(xs: seq<V>, m: nat, skip: nat, front: nat, p: nat, n: nat)
    requires m >= 1 && skip >= 1 && p <= |xs| && front <= |xs| < front + m && n >= 1
    requires WinLoop(Opened(xs, m, skip, front, p), m, skip, p % skip, xs[p..])
        == (Some(xs[front..]), Opened(xs, m, skip, front + skip, |xs|), |xs| % skip, [], true)
    requires WinRun(Opened(xs, m, skip, front + skip, |xs|), m, skip, |xs| % skip, [], true, n - 1)
        == Opened(xs, m, skip, front + skip, |xs|)
    ensures WinRun(Opened(xs, m, skip, front, p), m, skip, p % skip, xs[p..], false, n)
      == Opened(xs, m, skip, front, |xs|)
  {
    assert Min(front + m, |xs|) == |xs| && xs[front..|xs|] == xs[front..];
  }

  /** Window `j` starts before `p` exactly when `j` is at most `p / skip`. */
  lemma StartBefore(j: nat, skip: nat, p: nat)
    requires skip >= 1
    ensures j * skip <= p <==> j <= p / skip
  {
    var q, r := p / skip, p % skip;
    DivMod(p, skip, q, r);
    if j <= q {
      MulDistributes(skip, j, q - j);
      MulNonNegative(skip, q - j);
      assert skip * j <= skip * q;
    } else {
      MulDistributes(skip, q + 1, j - q - 1);
      MulNonNegative(skip, j - q - 1);
      MulDistributes(skip, q, 1);
      assert skip * j >= skip * q + skip;
    }
  }

  /** Where window `k` starts: `k` steps of `skip`. */
  function Offset(k: nat, skip: nat): nat
  {
    if k == 0 then 0 else Offset(k - 1, skip) + skip
  }

  lemma {:induction false} OffsetIsProduct(k: nat, skip: nat)
    ensures Offset(k, skip) == k * skip
  {
    if k > 0 {
      OffsetIsProduct(k - 1, skip);
      MulDistributes(skip, k - 1, 1);
    }
  }

  /** Window `j` starts no later than `p` exactly when `j` is at most `p / skip`. */
  lemma OffsetBefore(j: nat, skip: nat, p: nat)
    requires skip >= 1
    ensures Offset(j, skip) <= p <==> j <= p / skip
  {
    OffsetIsProduct(j, skip);
    StartBefore(j, skip, p);
  }

  /** The number of windows opened at window `j`'s start and after, up to position `p`. */
  lemma {:induction false} OpenedCount<V>(xs: seq<V>, m: nat, skip: nat, j: nat, p: nat)
    requires skip >= 1 && p <= |xs| && j <= p / skip + 1
    ensures |Opened(xs, m, skip, Offset(j, skip), p)| == p / skip + 1 - j
    decreases p / skip + 1 - j
  {
    OffsetBefore(j, skip, p);
    if j <= p / skip {
      OpenedCount(xs, m, skip, j + 1, p);
      assert Offset(j + 1, skip) == Offset(j, skip) + skip;
    }
  }

  /** The `i`-th window from window `j` on is window `j + i`. */
  lemma {:induction false} OpenedAt<V>(xs: seq<V>, m: nat, skip: nat, j: nat, p: nat, i: nat)
    requires skip >= 1 && p <= |xs| && j + i <= p / skip
    ensures i < |Opened(xs, m, skip, Offset(j, skip), p)| && Offset(j + i, skip) <= p
    ensures Opened(xs, m, skip, Offset(j, skip), p)[i]
      == xs[Offset(j + i, skip)..Min(Offset(j + i, skip) + m, p)]
    decreases i
  {
    OpenedCount(xs, m, skip, j, p);
    OffsetBefore(j, skip, p);
    OffsetBefore(j + i, skip, p);
    var start := Offset(j, skip);
    var rest := Opened(xs, m, skip, start + skip, p);
    assert Opened(xs, m, skip, start, p) == [xs[start..Min(start + m, p)]] + rest;
    if i > 0 {
      OpenedAt(xs, m, skip, j + 1, p, i - 1);
      assert Offset(j + 1, skip) == start + skip;
      assert j + 1 + (i - 1) == j + i;
    }
  }

  /** The sliding windows, as the queue of count windows produces them from the start. */
  lemma SlidingWindowsAre<V>(xs: seq<V>, m: nat, skip: nat)
    requires skip >= 1
    ensures Opened(xs, m, skip, 0, |xs|) == SlidingWindows(xs, m, skip)
  {
    OpenedCount(xs, m, skip, 0, |xs|);
    var ws := Opened(xs, m, skip, 0, |xs|);
    var sw := SlidingWindows(xs, m, skip);
    forall k | 0 <= k < |sw|
      ensures ws[k] == sw[k]
    {
      SlidingWindowAt(xs, m, skip, k);
    }
  }

  /** Window `k` of the queue is sliding window `k`. */
  lemma SlidingWindowAt<V>(xs: seq<V>, m: nat, skip: nat, k: nat)
    requires skip >= 1 && k < |xs| / skip + 1
    ensures k < |Opened(xs, m, skip, 0, |xs|)|
    ensures Opened(xs, m, skip, 0, |xs|)[k] == SlidingWindows(xs, m, skip)[k]
  {
    OpenedAt(xs, m, skip, 0, |xs|, k);
    assert 0 + k == k;
    assert Offset(0, skip) == 0;
    OffsetIsProduct(k, skip);
    StartBefore(k, skip, |xs|);
    assert Min(k * skip, |xs|) == k * skip;
  }

  /** `OverlappedCountBufferedStream::new(upstream, m, skip)` over a finite upstream that answers
      at once, with `m` and `skip` at least one: with a poll per window it hands out exactly the
      sliding windows, one per poll, in the order they were opened. */
  lemma SlidingWindowsRun<V>(xs: seq<V>, m: nat, skip: nat, ts: seq<nat>)
    requires m >= 1 && skip >= 1 && |ts| >= |xs| / skip + 1
    ensures EngineRun(NewOverlappedCountStream(Emit(xs), m, skip), ts) == SlidingWindows(xs, m, skip)
  {
    NewIsWinStream(xs, m, skip);
    WinRunBridge([[]], m, skip, 0, xs, ts);
    assert Opened(xs, m, skip, skip, 0) == [];
    assert Opened(xs, m, skip, 0, 0) == [[]];
    assert 0 % skip == 0 && xs[0..] == xs;
    SlidingWindowsAre(xs, m, skip);
    WinRunSpec(xs, m, skip, 0, 0, |ts|);
  }
}
