/**
 * The delivery rule of `dispatch_events` for one (event, watch) entry: walk a snapshot of
 * the watch's handlers and call each one that is still registered for the watch just
 * before its turn. A handler's callback may edit the handler registry; that edit is a
 * `Reaction` applied after the call.
 */
module Delivery {
  import opened Watches
  import opened Registries

  /** What a handler's callback does to the handler registry when it handles an event. */
  type Reaction = (Handler, Event, HandlerMap) -> HandlerMap

  /**
   * Callbacks edit handler sets only through `add_handler_for_watch` and
   * `remove_handler_for_watch`, which never delete an entry.
   */
  ghost predicate KeepsEntries(react: Reaction) {
    forall h: Handler, ev: Event, m: HandlerMap :: m.Keys <= react(h, ev, m).Keys
  }

  ghost predicate Distinct<T>(xs: seq<T>) {
    forall i, j :: 0 <= i < j < |xs| ==> xs[i] != xs[j]
  }

  /** `xs` is `ys` with some elements left out, the rest kept in order. */
  ghost predicate IsSubsequence<T>(xs: seq<T>, ys: seq<T>)
    decreases |ys|
  {
    if ys == [] then xs == []
    else (xs != [] && xs[0] == ys[0] && IsSubsequence(xs[1..], ys[1..])) || IsSubsequence(xs, ys[1..])
  }

  /**
   * The loop `for handler in snapshot: if handler in _handlers.get(watch, []): handler.dispatch(event)`:
   * the handlers called, in call order, and the handler registry afterwards.
   */
  function Deliver(snapshot: seq<Handler>, w: ObservedWatch, ev: Event, hs: HandlerMap, react: Reaction)
    : (out: (seq<Handler>, HandlerMap))
    ensures forall h :: h in out.0 ==> h in snapshot
    ensures |out.0| <= |snapshot|
    decreases |snapshot|
  {
    if snapshot == [] then ([], hs)
    else
      var h := snapshot[0];
      if h in HandlersOf(hs, w) then
        var rest := Deliver(snapshot[1..], w, ev, react(h, ev, hs), react);
        ([h] + rest.0, rest.1)
      else
        Deliver(snapshot[1..], w, ev, hs, react)
  }

  /** The handler registry after the callbacks of `calls`, in call order, made their edits. */
  function AfterCalls(calls: seq<Handler>, ev: Event, hs: HandlerMap, react: Reaction): HandlerMap
    decreases |calls|
  {
    if calls == [] then hs else AfterCalls(calls[1..], ev, react(calls[0], ev, hs), react)
  }

  /**
   * Every handler called was registered for the watch just before its call, that is after
   * the edits of the callbacks called before it; and the final registry is the result of
   * all the callbacks' edits.
   */
  lemma {:induction false} RegisteredAtItsTurn(snapshot: seq<Handler>, w: ObservedWatch, ev: Event, hs: HandlerMap, react: Reaction)
    ensures var (calls, final) := Deliver(snapshot, w, ev, hs, react);
      && AfterCalls(calls, ev, hs, react) == final
      && forall i :: 0 <= i < |calls| ==> calls[i] in HandlersOf(AfterCalls(calls[..i], ev, hs, react), w)
    decreases |snapshot|
  {
    if snapshot != [] {
      var h := snapshot[0];
      if h in HandlersOf(hs, w) {
        var hs' := react(h, ev, hs);
        RegisteredAtItsTurn(snapshot[1..], w, ev, hs', react);
        var rest := Deliver(snapshot[1..], w, ev, hs', react).0;
        var calls := [h] + rest;
        assert calls[1..] == rest;
        forall i | 0 < i < |calls|
          ensures calls[i] in HandlersOf(AfterCalls(calls[..i], ev, hs, react), w)
        {
          assert calls[..i][1..] == rest[..i - 1];
          assert calls[i] == rest[i - 1];
        }
      } else {
        RegisteredAtItsTurn(snapshot[1..], w, ev, hs, react);
      }
    }
  }

  /**
   * Extending the snapshot by one handler: it is called exactly when it is registered for
   * the watch in the map the earlier callbacks left, and then its callback edits that map.
   */
  lemma {:induction false} DeliverSnoc(xs: seq<Handler>, x: Handler, w: ObservedWatch, ev: Event, hs: HandlerMap, react: Reaction)
    ensures var (calls, m) := Deliver(xs, w, ev, hs, react);
      Deliver(xs + [x], w, ev, hs, react)
        == if x in HandlersOf(m, w) then (calls + [x], react(x, ev, m)) else (calls, m)
    decreases |xs|
  {
    if xs == [] {
      assert xs + [x] == [x] && [x][1..] == [];
      if x in HandlersOf(hs, w) {
        assert Deliver([x], w, ev, hs, react) == ([x] + [], react(x, ev, hs));
        assert [x] + [] == [] + [x];
      }
    } else {
      var h := xs[0];
      assert (xs + [x])[0] == h;
      assert (xs + [x])[1..] == xs[1..] + [x];
      if h in HandlersOf(hs, w) {
        var hs' := react(h, ev, hs);
        DeliverSnoc(xs[1..], x, w, ev, hs', react);
        var rest := Deliver(xs[1..], w, ev, hs', react).0;
        assert [h] + (rest + [x]) == ([h] + rest) + [x];
      } else {
        DeliverSnoc(xs[1..], x, w, ev, hs, react);
      }
    }
  }

  /**
   * The j-th snapshot handler is called exactly when it is still registered for the watch
   * after the callbacks of the handlers called before it.
   */
  lemma CalledIffRegisteredAtItsTurn(snapshot: seq<Handler>, j: nat, w: ObservedWatch, ev: Event, hs: HandlerMap, react: Reaction)
    requires j < |snapshot|
    ensures var (calls, m) := Deliver(snapshot[..j], w, ev, hs, react);
      Deliver(snapshot[..j + 1], w, ev, hs, react)
        == if snapshot[j] in HandlersOf(m, w) then (calls + [snapshot[j]], react(snapshot[j], ev, m)) else (calls, m)
  {
    assert snapshot[..j + 1] == snapshot[..j] + [snapshot[j]];
    DeliverSnoc(snapshot[..j], snapshot[j], w, ev, hs, react);
  }

  /** Handlers are called in snapshot order, and only snapshot handlers are called. */
  lemma {:induction false} DeliverFollowsSnapshot(snapshot: seq<Handler>, w: ObservedWatch, ev: Event, hs: HandlerMap, react: Reaction)
    ensures IsSubsequence(Deliver(snapshot, w, ev, hs, react).0, snapshot)
    decreases |snapshot|
  {
    if snapshot != [] {
      var h := snapshot[0];
      if h in HandlersOf(hs, w) {
        DeliverFollowsSnapshot(snapshot[1..], w, ev, react(h, ev, hs), react);
        assert ([h] + Deliver(snapshot[1..], w, ev, react(h, ev, hs), react).0)[1..]
            == Deliver(snapshot[1..], w, ev, react(h, ev, hs), react).0;
      } else {
        DeliverFollowsSnapshot(snapshot[1..], w, ev, hs, react);
      }
    }
  }

  lemma {:induction false} SubsequenceKeepsDistinct<T>(xs: seq<T>, ys: seq<T>)
    requires IsSubsequence(xs, ys) && Distinct(ys)
    ensures Distinct(xs) && forall x :: x in xs ==> x in ys
    decreases |ys|
  {
    if ys != [] {
      assert Distinct(ys[1..]) by {
        forall i, j | 0 <= i < j < |ys[1..]| ensures ys[1..][i] != ys[1..][j] {
          assert ys[1..][i] == ys[i + 1] && ys[1..][j] == ys[j + 1];
        }
      }
      if xs != [] && xs[0] == ys[0] && IsSubsequence(xs[1..], ys[1..]) {
        SubsequenceKeepsDistinct(xs[1..], ys[1..]);
        forall i, j | 0 <= i < j < |xs| ensures xs[i] != xs[j] {
          if i == 0 {
            assert xs[j] == xs[1..][j - 1];
            assert xs[j] in ys[1..];
            var k :| 0 <= k < |ys[1..]| && ys[1..][k] == xs[j];
            assert ys[k + 1] == xs[j];
          } else {
            assert xs[i] == xs[1..][i - 1] && xs[j] == xs[1..][j - 1];
          }
        }
        forall x | x in xs ensures x in ys {
          if x != xs[0] {
            assert x in xs[1..];
          }
        }
      } else {
        SubsequenceKeepsDistinct(xs, ys[1..]);
      }
    }
  }

  /** A snapshot of a set lists each handler once, so each handler is called at most once. */
  lemma CalledAtMostOnce(snapshot: seq<Handler>, w: ObservedWatch, ev: Event, hs: HandlerMap, react: Reaction)
    requires Distinct(snapshot)
    ensures Distinct(Deliver(snapshot, w, ev, hs, react).0)
  {
    DeliverFollowsSnapshot(snapshot, w, ev, hs, react);
    SubsequenceKeepsDistinct(Deliver(snapshot, w, ev, hs, react).0, snapshot);
  }

  /** No callback ever unregisters `h` from `w` while handling `ev`. */
  ghost predicate NeverRemoves(react: Reaction, ev: Event, w: ObservedWatch, h: Handler) {
    forall g, m :: h in HandlersOf(m, w) ==> h in HandlersOf(react(g, ev, m), w)
  }

  /** Every callback leaves `h` unregistered from `w` after handling `ev`. */
  ghost predicate AlwaysRemoves(react: Reaction, ev: Event, w: ObservedWatch, h: Handler) {
    forall g, m :: h !in HandlersOf(react(g, ev, m), w)
  }

  /** A snapshot handler that stays registered throughout the dispatch is called. */
  lemma {:induction false} UndisturbedHandlerIsCalled(snapshot: seq<Handler>, w: ObservedWatch, ev: Event, hs: HandlerMap, react: Reaction, h: Handler)
    requires h in snapshot && h in HandlersOf(hs, w) && NeverRemoves(react, ev, w, h)
    ensures h in Deliver(snapshot, w, ev, hs, react).0
    decreases |snapshot|
  {
    var g := snapshot[0];
    if g != h {
      assert h in snapshot[1..];
      if g in HandlersOf(hs, w) {
        UndisturbedHandlerIsCalled(snapshot[1..], w, ev, react(g, ev, hs), react, h);
      } else {
        UndisturbedHandlerIsCalled(snapshot[1..], w, ev, hs, react, h);
      }
    }
  }

  /**
   * A handler that the callbacks unregister is not called once any handler has run: it can
   * only be the first handler called.
   */
  lemma {:induction false} RemovedHandlerIsSkipped(snapshot: seq<Handler>, w: ObservedWatch, ev: Event, hs: HandlerMap, react: Reaction, h: Handler)
    requires AlwaysRemoves(react, ev, w, h)
    ensures var calls := Deliver(snapshot, w, ev, hs, react).0;
      h in calls ==> calls[0] == h && h !in calls[1..]
    decreases |snapshot|
  {
    if snapshot != [] {
      var g := snapshot[0];
      if g in HandlersOf(hs, w) {
        NotCalledWhileUnregistered(snapshot[1..], w, ev, react(g, ev, hs), react, h);
      } else {
        RemovedHandlerIsSkipped(snapshot[1..], w, ev, hs, react, h);
      }
    }
  }

  /** Starting from a registry without `h`, callbacks that always unregister `h` never let it be called. */
  lemma {:induction false} NotCalledWhileUnregistered(snapshot: seq<Handler>, w: ObservedWatch, ev: Event, hs: HandlerMap, react: Reaction, h: Handler)
    requires AlwaysRemoves(react, ev, w, h) && h !in HandlersOf(hs, w)
    ensures h !in Deliver(snapshot, w, ev, hs, react).0
    decreases |snapshot|
  {
    if snapshot != [] {
      var g := snapshot[0];
      if g in HandlersOf(hs, w) {
        NotCalledWhileUnregistered(snapshot[1..], w, ev, react(g, ev, hs), react, h);
      } else {
        NotCalledWhileUnregistered(snapshot[1..], w, ev, hs, react, h);
      }
    }
  }

  /**
   * When no callback edits the registry, every snapshot handler registered for the watch
   * is called, in snapshot order, and the registry is unchanged.
   */
  lemma {:induction false} DeliverWithoutEditsCallsAll(snapshot: seq<Handler>, w: ObservedWatch, ev: Event, hs: HandlerMap, react: Reaction)
    requires forall g, m :: react(g, ev, m) == m
    requires forall h :: h in snapshot ==> h in HandlersOf(hs, w)
    ensures Deliver(snapshot, w, ev, hs, react) == (snapshot, hs)
    decreases |snapshot|
  {
    if snapshot != [] {
      assert react(snapshot[0], ev, hs) == hs;
      DeliverWithoutEditsCallsAll(snapshot[1..], w, ev, hs, react);
      assert [snapshot[0]] + snapshot[1..] == snapshot;
    }
  }

  /** Callbacks that keep entries leave every entry of the registry in place. */
  lemma {:induction false} DeliverKeepsEntries(snapshot: seq<Handler>, w: ObservedWatch, ev: Event, hs: HandlerMap, react: Reaction)
    requires KeepsEntries(react)
    ensures hs.Keys <= Deliver(snapshot, w, ev, hs, react).1.Keys
    decreases |snapshot|
  {
    if snapshot != [] {
      var h := snapshot[0];
      if h in HandlersOf(hs, w) {
        assert hs.Keys <= react(h, ev, hs).Keys;
        DeliverKeepsEntries(snapshot[1..], w, ev, react(h, ev, hs), react);
      } else {
        DeliverKeepsEntries(snapshot[1..], w, ev, hs, react);
      }
    }
  }
}
