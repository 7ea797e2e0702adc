/**
 * The observer's registry as a value: the four structures `_watches`, `_handlers`,
 * `_emitters` and `_emitter_for_watch`, the invariant that ties them together, and the
 * effect of each registry operation on them.
 */
module Registries {
  import opened Wrappers
  import opened Watches
  import opened Emitters

  /** An event handler, compared by identity. */
  type Handler(==, !new)

  type HandlerMap = map<ObservedWatch, set<Handler>>

  /** The exceptions the observer raises to its callers. */
  datatype Error = KeyError | StartError

  datatype Registry = Registry(
    watches: set<ObservedWatch>,
    handlers: HandlerMap,
    emitters: set<Emitter>,
    emitterForWatch: map<ObservedWatch, Emitter>)

  /** Each emitter is stored under its own watch. */
  ghost predicate KeyedByOwnWatch(m: map<ObservedWatch, Emitter>) {
    forall w :: w in m ==> m[w].watch == w
  }

  /**
   * The registry invariant: `_emitters` is exactly the set of emitters of
   * `_emitter_for_watch`, each under its own watch; every watch with an emitter is
   * scheduled, and every scheduled watch has a handler entry.
   */
  ghost predicate Inv(r: Registry) {
    && r.emitters == r.emitterForWatch.Values
    && KeyedByOwnWatch(r.emitterForWatch)
    && r.emitterForWatch.Keys <= r.watches
    && r.watches <= r.handlers.Keys
  }

  /** The registry of a new observer, and after `unschedule_all`. */
  function Empty(): (r: Registry)
    ensures Inv(r)
    ensures r.watches == {} && r.handlers == map[] && r.emitters == {} && r.emitterForWatch == map[]
  {
    Registry({}, map[], {}, map[])
  }

  /** `_handlers.get(watch, [])` */
  function HandlersOf(m: HandlerMap, w: ObservedWatch): set<Handler> {
    if w in m then m[w] else {}
  }

  /** `_add_handler_for_watch`: create the entry when missing, then add the handler. */
  function AddHandler(r: Registry, h: Handler, w: ObservedWatch): Registry {
    r.(handlers := r.handlers[w := HandlersOf(r.handlers, w) + {h}])
  }

  /** `remove_handler_for_watch`: `_handlers[watch].remove(handler)`. */
  function RemoveHandler(r: Registry, h: Handler, w: ObservedWatch): Result<Registry, Error> {
    if w !in r.handlers || h !in r.handlers[w] then Err(KeyError)
    else Ok(r.(handlers := r.handlers[w := r.handlers[w] - {h}]))
  }

  /** `_add_emitter` */
  function AddEmitter(r: Registry, e: Emitter): Registry {
    r.(emitterForWatch := r.emitterForWatch[e.watch := e], emitters := r.emitters + {e})
  }

  /** The registry part of `_remove_emitter`: drop the emitter's key and the emitter. */
  function RemoveEmitter(r: Registry, e: Emitter): Registry {
    r.(emitterForWatch := r.emitterForWatch - {e.watch}, emitters := r.emitters - {e})
  }

  /**
   * A `schedule` that raised nothing: add the handler, register `e` (the emitter built for
   * `w`) unless `w` already has one, and mark `w` scheduled.
   */
  function Schedule(r: Registry, h: Handler, w: ObservedWatch, e: Emitter): Registry {
    var withHandler := AddHandler(r, h, w);
    var withEmitter := if w in withHandler.emitterForWatch then withHandler else AddEmitter(withHandler, e);
    withEmitter.(watches := withEmitter.watches + {w})
  }

  /**
   * `unschedule`: KeyError when `w` has no emitter; otherwise drop its handler entry, its
   * emitter and its scheduled mark, and give back the emitter to stop.
   */
  function Unschedule(r: Registry, w: ObservedWatch): Result<(Registry, Emitter), Error>
    requires Inv(r)
  {
    if w !in r.emitterForWatch then Err(KeyError)
    else
      var e := r.emitterForWatch[w];
      var rest := RemoveEmitter(r.(handlers := r.handlers - {w}), e);
      Ok((rest.(watches := rest.watches - {w}), e))
  }

  // ---- the invariant -------------------------------------------------------------

  /** There are exactly as many emitters as watches with an emitter: one emitter per distinct watch. */
  lemma {:induction false} OneEmitterPerWatch(m: map<ObservedWatch, Emitter>)
    requires KeyedByOwnWatch(m)
    ensures |m.Values| == |m.Keys|
    decreases |m.Keys|
  {
    if m.Keys != {} {
      var w :| w in m.Keys;
      var rest := m - {w};
      assert rest.Keys == m.Keys - {w};
      assert rest.Values == m.Values - {m[w]} by {
        forall e | e in m.Values ensures e in rest.Values || e == m[w] {
          var v :| v in m && m[v] == e;
          if v != w {
            assert rest[v] == e;
          }
        }
        forall e | e in rest.Values ensures e in m.Values && e != m[w] {
          var v :| v in rest && rest[v] == e;
          assert m[v] == e;
        }
      }
      OneEmitterPerWatch(rest);
    }
  }

  /** In a consistent registry `_emitters` has one member per key of `_emitter_for_watch`. */
  lemma EmitterCountIsWatchCount(r: Registry)
    requires Inv(r)
    ensures |r.emitters| == |r.emitterForWatch.Keys|
  {
    OneEmitterPerWatch(r.emitterForWatch);
  }

  // ---- handlers --------------------------------------------------------------------

  /**
   * `add_handler_for_watch` never fails: it leaves `w` with its old handlers plus `h`,
   * changes no other entry and none of the other three structures, and keeps the invariant.
   */
  lemma AddHandlerEffect(r: Registry, h: Handler, w: ObservedWatch)
    ensures var r' := AddHandler(r, h, w);
      && r'.handlers.Keys == r.handlers.Keys + {w}
      && r'.handlers[w] == HandlersOf(r.handlers, w) + {h}
      && (forall v :: v in r.handlers && v != w ==> r'.handlers[v] == r.handlers[v])
      && r'.watches == r.watches && r'.emitters == r.emitters && r'.emitterForWatch == r.emitterForWatch
    ensures Inv(r) ==> Inv(AddHandler(r, h, w))
  {
  }

  /** Adding a handler that is already registered for the watch is a no-op. */
  lemma AddHandlerIdempotent(r: Registry, h: Handler, w: ObservedWatch)
    requires w in r.handlers && h in r.handlers[w]
    ensures AddHandler(r, h, w) == r
  {
    assert HandlersOf(r.handlers, w) + {h} == r.handlers[w];
    assert r.handlers[w := HandlersOf(r.handlers, w) + {h}] == r.handlers;
  }

  /** `remove_handler_for_watch` raises KeyError exactly for an unknown watch or an unregistered handler. */
  lemma RemoveHandlerFailsIffUnregistered(r: Registry, h: Handler, w: ObservedWatch)
    ensures RemoveHandler(r, h, w) == Err(KeyError) <==> h !in HandlersOf(r.handlers, w)
    ensures RemoveHandler(r, h, w).Ok? <==> h in HandlersOf(r.handlers, w)
  {
  }

  /**
   * A successful removal takes out exactly that handler, keeps the (possibly empty) entry,
   * changes nothing else, and keeps the invariant.
   */
  lemma RemoveHandlerEffect(r: Registry, h: Handler, w: ObservedWatch)
    requires RemoveHandler(r, h, w).Ok?
    ensures var r' := RemoveHandler(r, h, w).value;
      && r'.handlers.Keys == r.handlers.Keys
      && r'.handlers[w] == r.handlers[w] - {h}
      && (forall v :: v in r.handlers && v != w ==> r'.handlers[v] == r.handlers[v])
      && r'.watches == r.watches && r'.emitters == r.emitters && r'.emitterForWatch == r.emitterForWatch
    ensures Inv(r) ==> Inv(RemoveHandler(r, h, w).value)
  {
  }

  /** Removing a handler undoes adding it to a watch that had an entry without it. */
  lemma RemoveHandlerUndoesAdd(r: Registry, h: Handler, w: ObservedWatch)
    requires w in r.handlers && h !in r.handlers[w]
    ensures RemoveHandler(AddHandler(r, h, w), h, w) == Ok(r)
  {
    var r' := AddHandler(r, h, w);
    assert r'.handlers[w] - {h} == r.handlers[w];
    assert r'.handlers[w := r'.handlers[w] - {h}] == r.handlers;
  }

  // ---- schedule ---------------------------------------------------------------------

  /** `schedule` keeps the invariant when the emitter it may build is new and keyed by the watch. */
  lemma SchedulePreservesInv(r: Registry, h: Handler, w: ObservedWatch, e: Emitter)
    requires Inv(r) && e.watch == w && (w !in r.emitterForWatch ==> e !in r.emitters)
    ensures Inv(Schedule(r, h, w, e))
  {
    var r' := Schedule(r, h, w, e);
    if w !in r.emitterForWatch {
      assert r'.emitterForWatch.Values == r.emitterForWatch.Values + {e} by {
        forall x | x in r'.emitterForWatch.Values ensures x in r.emitterForWatch.Values + {e} {
          var v :| v in r'.emitterForWatch && r'.emitterForWatch[v] == x;
          if v != w { assert r.emitterForWatch[v] == x; }
        }
        forall x | x in r.emitterForWatch.Values ensures x in r'.emitterForWatch.Values {
          var v :| v in r.emitterForWatch && r.emitterForWatch[v] == x;
          assert r'.emitterForWatch[v] == x;
        }
        assert r'.emitterForWatch[w] == e;
      }
    }
  }

  /**
   * `schedule` registers the handler and the watch, builds an emitter only for a watch
   * without one, and otherwise shares the watch's existing emitter.
   */
  lemma ScheduleEffect(r: Registry, h: Handler, w: ObservedWatch, e: Emitter)
    requires e.watch == w
    ensures var r' := Schedule(r, h, w, e);
      && r'.handlers == AddHandler(r, h, w).handlers
      && r'.watches == r.watches + {w}
      && w in r'.emitterForWatch
      && (w in r.emitterForWatch ==> r'.emitterForWatch == r.emitterForWatch && r'.emitters == r.emitters)
      && (w !in r.emitterForWatch ==> r'.emitterForWatch == r.emitterForWatch[w := e] && r'.emitters == r.emitters + {e})
  {
  }

  /** Scheduling the same handler on an equal watch again changes nothing. */
  lemma ScheduleIdempotent(r: Registry, h: Handler, w: ObservedWatch, e: Emitter, e': Emitter)
    requires e.watch == w
    ensures Schedule(Schedule(r, h, w, e), h, w, e') == Schedule(r, h, w, e)
  {
    var r1 := Schedule(r, h, w, e);
    assert HandlersOf(r1.handlers, w) + {h} == r1.handlers[w];
    assert r1.handlers[w := HandlersOf(r1.handlers, w) + {h}] == r1.handlers;
  }

  /** A run of `schedule` calls on one watch, each with its handler and the emitter it would build. */
  function ScheduleAll(r: Registry, hs: seq<Handler>, w: ObservedWatch, es: seq<Emitter>): Registry
    requires |hs| == |es|
    decreases |hs|
  {
    if hs == [] then r else ScheduleAll(Schedule(r, hs[0], w, es[0]), hs[1..], w, es[1..])
  }

  /** Once a watch has an emitter, further schedules of it add handlers and share that emitter. */
  lemma {:induction false} ScheduleAllShares(r: Registry, hs: seq<Handler>, w: ObservedWatch, es: seq<Emitter>)
    requires |hs| == |es| && w in r.emitterForWatch && w in r.watches && w in r.handlers
    ensures var r' := ScheduleAll(r, hs, w, es);
      && r'.emitters == r.emitters && r'.emitterForWatch == r.emitterForWatch
      && r'.watches == r.watches
      && r'.handlers == r.handlers[w := HandlersOf(r.handlers, w) + set h | h in hs]
    decreases |hs|
  {
    if hs == [] {
      assert (set h | h in hs) == {};
      assert HandlersOf(r.handlers, w) + (set h | h in hs) == r.handlers[w];
      assert r.handlers[w := HandlersOf(r.handlers, w) + set h | h in hs] == r.handlers;
    } else {
      var r1 := Schedule(r, hs[0], w, es[0]);
      ScheduleAllShares(r1, hs[1..], w, es[1..]);
      assert HandlersOf(r1.handlers, w) + (set h | h in hs[1..]) == HandlersOf(r.handlers, w) + set h | h in hs;
    }
  }

  /**
   * Scheduling equal watches any number of times builds exactly one emitter: the one of the
   * first call; the registry gains one emitter, one watch and all the handlers.
   */
  lemma ScheduleAllOneEmitter(r: Registry, hs: seq<Handler>, w: ObservedWatch, es: seq<Emitter>)
    requires |hs| == |es| > 0 && w !in r.emitterForWatch && es[0].watch == w
    ensures var r' := ScheduleAll(r, hs, w, es);
      && r'.emitters == r.emitters + {es[0]}
      && r'.emitterForWatch == r.emitterForWatch[w := es[0]]
      && r'.watches == r.watches + {w}
      && r'.handlers == r.handlers[w := HandlersOf(r.handlers, w) + set h | h in hs]
  {
    var r1 := Schedule(r, hs[0], w, es[0]);
    ScheduleAllShares(r1, hs[1..], w, es[1..]);
    assert HandlersOf(r1.handlers, w) + (set h | h in hs[1..]) == HandlersOf(r.handlers, w) + set h | h in hs;
  }

  // ---- unschedule -----------------------------------------------------------------------

  /** `unschedule` raises KeyError exactly when the watch has no emitter. */
  lemma UnscheduleFailsIffNoEmitter(r: Registry, w: ObservedWatch)
    requires Inv(r)
    ensures Unschedule(r, w) == Err(KeyError) <==> w !in r.emitterForWatch
  {
  }

  /**
   * A successful `unschedule` removes the watch from all four structures, together with
   * its emitter and all its handlers, touches nothing else and keeps the invariant.
   */
  lemma UnscheduleEffect(r: Registry, w: ObservedWatch)
    requires Inv(r) && Unschedule(r, w).Ok?
    ensures var (r', e) := Unschedule(r, w).value;
      && e == r.emitterForWatch[w] && e.watch == w
      && r'.handlers == r.handlers - {w}
      && r'.emitterForWatch == r.emitterForWatch - {w}
      && r'.emitters == r.emitters - {e}
      && r'.watches == r.watches - {w}
      && Inv(r')
  {
    var (r', e) := Unschedule(r, w).value;
    assert r'.emitterForWatch.Values == r.emitterForWatch.Values - {e} by {
      forall x | x in r.emitterForWatch.Values && x != e ensures x in r'.emitterForWatch.Values {
        var v :| v in r.emitterForWatch && r.emitterForWatch[v] == x;
        assert r'.emitterForWatch[v] == x;
      }
      forall x | x in r'.emitterForWatch.Values ensures x != e {
        var v :| v in r'.emitterForWatch && r'.emitterForWatch[v] == x;
      }
    }
  }

  /** Unscheduling a watch a second time raises KeyError. */
  lemma UnscheduleTwiceFails(r: Registry, w: ObservedWatch)
    requires Inv(r) && Unschedule(r, w).Ok?
    ensures Inv(Unschedule(r, w).value.0)
    ensures Unschedule(Unschedule(r, w).value.0, w) == Err(KeyError)
  {
    UnscheduleEffect(r, w);
  }

  /** Unscheduling a watch that was new to the registry gives back the registry and the emitter built for it. */
  lemma UnscheduleUndoesSchedule(r: Registry, h: Handler, w: ObservedWatch, e: Emitter)
    requires Inv(r) && w !in r.handlers && e.watch == w && e !in r.emitters
    ensures Inv(Schedule(r, h, w, e)) && Unschedule(Schedule(r, h, w, e), w) == Ok((r, e))
  {
    SchedulePreservesInv(r, h, w, e);
    var r' := Schedule(r, h, w, e);
    var (r'', e') := Unschedule(r', w).value;
    assert r''.handlers == r.handlers;
    assert r''.emitterForWatch == r.emitterForWatch;
    assert r''.watches == r.watches;
  }

  // ---- start failure --------------------------------------------------------------------

  /**
   * When `start` removes a failing emitter, the invariant still holds but the watch stays
   * scheduled with no emitter, so a later `unschedule` of it raises KeyError.
   */
  lemma RemoveEmitterLeavesWatch(r: Registry, e: Emitter)
    requires Inv(r) && e in r.emitters
    ensures Inv(RemoveEmitter(r, e))
    ensures e.watch in RemoveEmitter(r, e).watches
    ensures Unschedule(RemoveEmitter(r, e), e.watch) == Err(KeyError)
  {
    var r' := RemoveEmitter(r, e);
    var w :| w in r.emitterForWatch && r.emitterForWatch[w] == e;
    assert r'.emitterForWatch.Values == r.emitterForWatch.Values - {e} by {
      forall x | x in r.emitterForWatch.Values && x != e ensures x in r'.emitterForWatch.Values {
        var v :| v in r.emitterForWatch && r.emitterForWatch[v] == x;
        assert r'.emitterForWatch[v] == x;
      }
    }
  }
}
