/**
 * The base observer: the registry of watches, handlers and emitters, updated in place by
 * `schedule`, `add_handler_for_watch`, `remove_handler_for_watch`, `unschedule`,
 * `unschedule_all` and `start`, and the consumer step `dispatch_events`.
 * The engine-wide lock only serialises these operations, so they are modelled as
 * sequential methods; each is proved against the registry value of module Registries.
 */
module Observers {
  import opened Wrappers
  import opened Watches
  import opened EventQueues
  import opened Emitters
  import opened Registries
  import opened Delivery

  /** The calls the observer makes into emitters and handlers, in the order it makes them. */
  datatype Call =
    | StopEmitter(emitter: Emitter)
    | JoinEmitter(emitter: Emitter)
    | HandlerDispatch(handler: Handler, event: Event)

  /** How one `dispatch_events` step ended. */
  datatype DispatchOutcome =
    | Waiting       // the queue is empty: a blocking get would still be waiting
    | StopReceived  // the stop sentinel was taken: no handler ran and no entry was marked done
    | Dispatched    // an (event, watch) entry was delivered and marked done

  function StopCalls(es: seq<Emitter>): (calls: seq<Call>)
    ensures |calls| == |es| && forall i :: 0 <= i < |es| ==> calls[i] == StopEmitter(es[i])
  {
    seq(|es|, i requires 0 <= i < |es| => StopEmitter(es[i]))
  }

  function JoinCalls(es: seq<Emitter>): (calls: seq<Call>)
    ensures |calls| == |es| && forall i :: 0 <= i < |es| ==> calls[i] == JoinEmitter(es[i])
  {
    seq(|es|, i requires 0 <= i < |es| => JoinEmitter(es[i]))
  }

  function DispatchCalls(hs: seq<Handler>, ev: Event): (calls: seq<Call>)
    ensures |calls| == |hs| && forall i :: 0 <= i < |hs| ==> calls[i] == HandlerDispatch(hs[i], ev)
  {
    seq(|hs|, i requires 0 <= i < |hs| => HandlerDispatch(hs[i], ev))
  }

  /** `list(s)` / iterating a set: every member once, in some order. */
  method ListOf<T(==)>(s: set<T>) returns (xs: seq<T>)
    ensures |xs| == |s| && Distinct(xs)
    ensures forall x :: x in xs <==> x in s
  {
    xs := [];
    var rest := s;
    while rest != {}
      invariant rest <= s
      invariant forall x :: x in xs <==> x in s && x !in rest
      invariant Distinct(xs)
      invariant |xs| + |rest| == |s|
      decreases |rest|
    {
      var x :| x in rest;
      xs := xs + [x];
      rest := rest - {x};
    }
  }

  class BaseObserver {
    const queue: EventQueue
    var alive: bool
    var watches: set<ObservedWatch>
    var handlers: HandlerMap
    var emitters: set<Emitter>
    var emitterForWatch: map<ObservedWatch, Emitter>
    var trace: seq<Call>

    /** The four registry structures as one value. */
    function Reg(): Registry
      reads this
    {
      Registry(watches, handlers, emitters, emitterForWatch)
    }

    /**
     * The registry invariant, every queued entry counted as unfinished, every registered
     * emitter bound to the shared queue and not stopped, and all of them running once the
     * observer is. The queue's own invariant is stated separately where the queue is used,
     * since the emitters share that object.
     */
    ghost predicate Valid()
      reads this, emitters, queue
    {
      && Inv(Reg())
      && queue.Balanced()
      && (forall e :: e in emitters ==> e.queue == queue && e.state != Stopped)
      && (alive ==> forall e :: e in emitters ==> e.state == Running)
    }

    /** `BaseObserver(emitter_class, timeout)`: an idle observer with an empty registry and queue. */
    constructor ()
      ensures Valid() && queue.Valid() && fresh(queue)
      ensures Reg() == Empty() && !alive && trace == [] && queue.items == []
    {
      queue := new EventQueue();
      alive := false;
      watches, handlers, emitters, emitterForWatch := {}, map[], {}, map[];
      trace := [];
    }

    /** `_add_emitter` */
    method RegisterEmitter(e: Emitter)
      modifies this
      ensures Reg() == AddEmitter(old(Reg()), e)
      ensures alive == old(alive) && trace == old(trace)
    {
      emitterForWatch := emitterForWatch[e.watch := e];
      emitters := emitters + {e};
    }

    /** `_remove_emitter`: drop it from the registry, then stop and join it. */
    method RemoveAndStopEmitter(e: Emitter)
      requires e.watch in emitterForWatch && e in emitters
      modifies this, e
      ensures Reg() == RemoveEmitter(old(Reg()), e)
      ensures e.state == Stopped
      ensures trace == old(trace) + [StopEmitter(e), JoinEmitter(e)]
      ensures alive == old(alive)
    {
      emitterForWatch := emitterForWatch - {e.watch};
      emitters := emitters - {e};
      e.Stop();
      trace := trace + [StopEmitter(e)];
      trace := trace + [JoinEmitter(e)];
    }

    /** `_clear_emitters`: stop every emitter, then join every emitter, then empty both structures. */
    method ClearEmitters() returns (ghost order: seq<Emitter>)
      modifies this, emitters
      ensures Distinct(order) && forall e :: e in order <==> e in old(emitters)
      ensures forall e :: e in old(emitters) ==> e.state == Stopped
      ensures trace == old(trace) + StopCalls(order) + JoinCalls(order)
      ensures emitters == {} && emitterForWatch == map[]
      ensures watches == old(watches) && handlers == old(handlers) && alive == old(alive)
    {
      var list := ListOf(emitters);
      order := list;
      var i := 0;
      while i < |list|
        invariant 0 <= i <= |list|
        invariant forall j :: 0 <= j < i ==> list[j].state == Stopped
        invariant trace == old(trace) + StopCalls(list[..i])
        invariant emitters == old(emitters) && emitterForWatch == old(emitterForWatch)
        invariant watches == old(watches) && handlers == old(handlers) && alive == old(alive)
      {
        list[i].Stop();
        trace := trace + [StopEmitter(list[i])];
        i := i + 1;
      }
      assert list[..|list|] == list;
      ghost var stopped := trace;
      i := 0;
      while i < |list|
        invariant 0 <= i <= |list|
        invariant trace == stopped + JoinCalls(list[..i])
        invariant forall j :: 0 <= j < |list| ==> list[j].state == Stopped
        invariant watches == old(watches) && handlers == old(handlers) && alive == old(alive)
      {
        trace := trace + [JoinEmitter(list[i])];
        i := i + 1;
      }
      assert list[..|list|] == list;
      emitters := {};
      emitterForWatch := map[];
    }

    /** `_add_handler_for_watch` */
    method AddHandlerEntry(h: Handler, w: ObservedWatch)
      modifies this
      ensures Reg() == AddHandler(old(Reg()), h, w)
      ensures alive == old(alive) && trace == old(trace)
    {
      if w !in handlers {
        handlers := handlers[w := {}];
      }
      handlers := handlers[w := handlers[w] + {h}];
    }

    /**
     * The loop of `start`: start the listed emitters in order up to the first one whose
     * start fails; `k` is its index, or the length when all started, and `started` the
     * emitters started.
     */
    method StartInOrder(order: seq<Emitter>, failing: set<Emitter>, ghost es: set<Emitter>)
      returns (k: nat, ghost started: set<Emitter>)
      requires Distinct(order) && forall e :: e in order <==> e in es
      modifies es
      ensures k <= |order| && started <= es
      ensures started == set j | 0 <= j < k :: order[j]
      ensures forall e :: e in started ==> old(e.state) == Idle && e !in failing && e.state == Running
      ensures k < |order| ==> order[k] !in started && (order[k] in failing || old(order[k].state) != Idle)
      ensures forall e :: e in es && e !in started ==> e.state == old(e.state)
      ensures k == |order| ==> started == es
    {
      k, started := 0, {};
      while k < |order|
        invariant 0 <= k <= |order|
        invariant started == set j | 0 <= j < k :: order[j]
        invariant forall e :: e in started ==> old(e.state) == Idle && e !in failing && e.state == Running
        invariant forall e :: e in es && e !in started ==> e.state == old(e.state)
      {
        var e := order[k];
        assert forall j :: 0 <= j < k ==> order[j] != e;
        var ok := e.Start(e in failing);
        if !ok {
          return;
        }
        started := started + {e};
        k := k + 1;
      }
      assert forall e :: e in es ==> e in started by {
        forall e | e in es ensures e in started {
          var j :| 0 <= j < |order| && order[j] == e;
        }
      }
    }

    /**
     * `start`: start every registered emitter in some order; the first one that fails is
     * removed (stopped and joined) and its error re-raised, leaving the rest unstarted and
     * the observer thread not started. Starting an observer that is already running fails.
     * `failing` is the set of emitters whose platform start hook raises.
     */
    method Start(failing: set<Emitter>) returns (r: Result<(), Error>, ghost started: set<Emitter>, ghost failed: Option<Emitter>)
      requires Valid()
      modifies this, emitters
      ensures Valid()
      ensures started <= old(emitters)
      ensures forall e :: e in started ==> old(e.state) == Idle && e !in failing && e.state == Running
      ensures forall e :: e in old(emitters) && e !in started && failed != Some(e) ==> e.state == old(e.state)
      ensures r.Ok? ==> && failed == None && started == old(emitters) && !old(alive) && alive
                        && Reg() == old(Reg()) && trace == old(trace)
      ensures r.Err? && failed.None? ==> && r.error == StartError && old(alive) && old(emitters) == {}
                                         && alive && Reg() == old(Reg()) && trace == old(trace)
      ensures r.Err? && failed.Some? ==>
                && var f := failed.value;
                && r.error == StartError && alive == old(alive)
                && f in old(emitters) && f !in started && (f in failing || old(f.state) != Idle)
                && f.state == Stopped
                && Reg() == RemoveEmitter(old(Reg()), f)
                && trace == old(trace) + [StopEmitter(f), JoinEmitter(f)]
      ensures r.Ok? <==> failed.None? && !old(alive)
    {
      var order := ListOf(emitters);
      var k;
      k, started := StartInOrder(order, failing, emitters);
      if k < |order| {
        var f := order[k];
        RemoveEmitterLeavesWatch(Reg(), f);
        RemoveAndStopEmitter(f);
        failed := Some(f);
        r := Err(StartError);
        return;
      }
      failed := None;
      if alive {
        r := Err(StartError);
        return;
      }
      alive := true;
      r := Ok(());
    }

    /**
     * `schedule(handler, path, recursive, event_filter)`: register the handler, build an
     * emitter for a watch without one (starting it first when the observer is alive), mark
     * the watch scheduled and return it. When the new emitter's start raises
     * (`startRaises`), the handler entry stays, the emitter is dropped and the watch is not
     * marked scheduled.
     */
    method Schedule(h: Handler, path: PathArg, recursive: bool, eventFilter: Option<seq<EventClass>>, startRaises: bool)
      returns (r: Result<ObservedWatch, Error>)
      requires Valid()
      modifies this
      ensures Valid()
      ensures alive == old(alive) && trace == old(trace)
      ensures var w := NewWatch(path, recursive, eventFilter);
        r.Ok? <==> !(alive && startRaises && w !in old(emitterForWatch))
      ensures var w := NewWatch(path, recursive, eventFilter);
        r.Ok? ==> && r.value == w && w in emitterForWatch
                  && Reg() == Registries.Schedule(old(Reg()), h, w, emitterForWatch[w])
                  && (w !in old(emitterForWatch) ==>
                        && fresh(emitterForWatch[w])
                        && emitterForWatch[w].eventFilter == Freeze(eventFilter)
                        && emitterForWatch[w].state == (if alive then Running else Idle))
      ensures var w := NewWatch(path, recursive, eventFilter);
        r.Err? ==> r.error == StartError && Reg() == AddHandler(old(Reg()), h, w)
    {
      var w := NewWatch(path, recursive, eventFilter);
      AddHandlerEntry(h, w);
      if w !in emitterForWatch {
        var e, ok := NewEmitter(w, eventFilter, startRaises);
        if !ok {
          AddHandlerEffect(old(Reg()), h, w);
          r := Err(StartError);
          return;
        }
        SchedulePreservesInv(old(Reg()), h, w, e);
        RegisterEmitter(e);
      } else {
        SchedulePreservesInv(old(Reg()), h, w, emitterForWatch[w]);
      }
      watches := watches + {w};
      r := Ok(w);
    }

    /**
     * The emitter `schedule` creates for a new watch, started at once when the observer is
     * alive; `ok` is false when that start raises.
     */
    method NewEmitter(w: ObservedWatch, eventFilter: Option<seq<EventClass>>, startRaises: bool)
      returns (e: Emitter, ok: bool)
      ensures fresh(e) && e.queue == queue && e.watch == w && e.eventFilter == Freeze(eventFilter)
      ensures ok <==> !(alive && startRaises)
      ensures ok ==> e.state == if alive then Running else Idle
    {
      e := new Emitter(queue, w, eventFilter);
      ok := true;
      if alive {
        ok := e.Start(startRaises);
      }
    }

    /** `add_handler_for_watch`: never raises; creates the entry of an unknown watch. */
    method AddHandlerForWatch(h: Handler, w: ObservedWatch)
      requires Valid()
      modifies this
      ensures Valid()
      ensures Reg() == AddHandler(old(Reg()), h, w)
      ensures alive == old(alive) && trace == old(trace)
    {
      AddHandlerEffect(Reg(), h, w);
      AddHandlerEntry(h, w);
    }

    /** `remove_handler_for_watch`: KeyError for an unknown watch or an unregistered handler. */
    method RemoveHandlerForWatch(h: Handler, w: ObservedWatch) returns (r: Result<(), Error>)
      requires Valid()
      modifies this
      ensures Valid()
      ensures alive == old(alive) && trace == old(trace)
      ensures RemoveHandler(old(Reg()), h, w).Err? ==> r == Err(KeyError) && Reg() == old(Reg())
      ensures RemoveHandler(old(Reg()), h, w).Ok? ==> r == Ok(()) && Reg() == RemoveHandler(old(Reg()), h, w).value
    {
      if w !in handlers || h !in handlers[w] {
        return Err(KeyError);
      }
      RemoveHandlerEffect(Reg(), h, w);
      handlers := handlers[w := handlers[w] - {h}];
      r := Ok(());
    }

    /**
     * `unschedule(watch)`: KeyError, before any change, when the watch has no emitter;
     * otherwise delete its handler entry, remove, stop and join its emitter, and unmark it.
     */
    method Unschedule(w: ObservedWatch) returns (r: Result<(), Error>)
      requires Valid()
      modifies this, emitters
      ensures Valid()
      ensures alive == old(alive)
      ensures Registries.Unschedule(old(Reg()), w).Err? ==>
                r == Err(KeyError) && Reg() == old(Reg()) && trace == old(trace)
                && forall e :: e in old(emitters) ==> e.state == old(e.state)
      ensures Registries.Unschedule(old(Reg()), w).Ok? ==>
                && var (r', e) := Registries.Unschedule(old(Reg()), w).value;
                && r == Ok(()) && Reg() == r' && e.state == Stopped
                && trace == old(trace) + [StopEmitter(e), JoinEmitter(e)]
                && forall x :: x in old(emitters) && x != e ==> x.state == old(x.state)
    {
      if w !in emitterForWatch {
        return Err(KeyError);
      }
      UnscheduleEffect(Reg(), w);
      var e := emitterForWatch[w];
      handlers := handlers - {w};
      RemoveAndStopEmitter(e);
      watches := watches - {w};
      r := Ok(());
    }

    /**
     * `unschedule_all`: empty the handler registry, stop every emitter before joining any,
     * then empty the emitter structures and the scheduled watches.
     */
    method UnscheduleAll() returns (ghost order: seq<Emitter>)
      requires Valid()
      modifies this, emitters
      ensures Valid()
      ensures Reg() == Empty() && alive == old(alive)
      ensures Distinct(order) && forall e :: e in order <==> e in old(emitters)
      ensures forall e :: e in old(emitters) ==> e.state == Stopped
      ensures trace == old(trace) + StopCalls(order) + JoinCalls(order)
    {
      handlers := map[];
      order := ClearEmitters();
      watches := {};
    }

    /**
     * The handler loop of `dispatch_events`: for each handler of the snapshot, call it when
     * it is still registered for `w` just before its turn; `react` is its callback's edit.
     */
    method CallHandlers(snapshot: seq<Handler>, w: ObservedWatch, ev: Event, react: Reaction)
      modifies this
      ensures var (calls, final) := Deliver(snapshot, w, ev, old(handlers), react);
        handlers == final && trace == old(trace) + DispatchCalls(calls, ev)
      ensures alive == old(alive) && watches == old(watches)
      ensures emitters == old(emitters) && emitterForWatch == old(emitterForWatch)
    {
      ghost var called: seq<Handler> := [];
      var i := 0;
      assert snapshot[i..] == snapshot;
      while i < |snapshot|
        invariant 0 <= i <= |snapshot|
        invariant Deliver(snapshot, w, ev, old(handlers), react).0 == called + Deliver(snapshot[i..], w, ev, handlers, react).0
        invariant Deliver(snapshot, w, ev, old(handlers), react).1 == Deliver(snapshot[i..], w, ev, handlers, react).1
        invariant trace == old(trace) + DispatchCalls(called, ev)
        invariant alive == old(alive) && watches == old(watches)
        invariant emitters == old(emitters) && emitterForWatch == old(emitterForWatch)
      {
        var h := snapshot[i];
        assert snapshot[i..][1..] == snapshot[i + 1..];
        if h in HandlersOf(handlers, w) {
          ghost var rest := Deliver(snapshot[i + 1..], w, ev, react(h, ev, handlers), react);
          assert Deliver(snapshot[i..], w, ev, handlers, react) == ([h] + rest.0, rest.1);
          assert called + ([h] + rest.0) == (called + [h]) + rest.0;
          trace := trace + [HandlerDispatch(h, ev)];
          handlers := react(h, ev, handlers);
          called := called + [h];
        }
        i := i + 1;
      }
      assert snapshot[i..] == [];
    }

    /**
     * `dispatch_events`: take the head entry; on the stop sentinel return at once; otherwise
     * snapshot the watch's handlers, call each one still registered just before its turn
     * (its callback's registry edit is `react`), then mark the entry done.
     */
    method DispatchEvents(react: Reaction) returns (outcome: DispatchOutcome, ghost snapshot: seq<Handler>)
      requires Valid() && queue.Valid() && KeepsEntries(react)
      modifies this, queue
      ensures Valid() && queue.Valid()
      ensures alive == old(alive) && watches == old(watches)
      ensures emitters == old(emitters) && emitterForWatch == old(emitterForWatch)
      ensures queue.lastPut == old(queue.lastPut) && queue.history == old(queue.history)
      ensures old(queue.items) == [] ==>
                && outcome == Waiting && handlers == old(handlers) && trace == old(trace)
                && queue.items == [] && queue.unfinished == old(queue.unfinished)
      ensures old(queue.items) != [] && old(queue.items)[0] == StopEvent ==>
                && outcome == StopReceived && handlers == old(handlers) && trace == old(trace)
                && queue.items == old(queue.items)[1..] && queue.unfinished == old(queue.unfinished)
      ensures old(queue.items) != [] && old(queue.items)[0].Item? ==>
                && var ev, w := old(queue.items)[0].event, old(queue.items)[0].watch;
                && var (calls, final) := Deliver(snapshot, w, ev, old(handlers), react);
                && outcome == Dispatched
                && Distinct(snapshot) && (forall h :: h in snapshot <==> h in HandlersOf(old(handlers), w))
                && handlers == final
                && trace == old(trace) + DispatchCalls(calls, ev)
                && queue.items == old(queue.items)[1..] && queue.unfinished == old(queue.unfinished) - 1
    {
      snapshot := [];
      var entry := queue.Get();
      if entry.None? {
        return Waiting, snapshot;
      }
      if entry.value == StopEvent {
        return StopReceived, snapshot;
      }
      var ev, w := entry.value.event, entry.value.watch;
      snapshot := DispatchTo(w, ev, react);
      assert |queue.items| < queue.unfinished;
      var done := queue.TaskDone();
      outcome := Dispatched;
    }

    /**
     * The body of `dispatch_events` for an event entry: snapshot the handlers of `w` and
     * run the handler loop over the snapshot.
     */
    method DispatchTo(w: ObservedWatch, ev: Event, react: Reaction) returns (ghost snapshot: seq<Handler>)
      requires Valid() && KeepsEntries(react)
      modifies this
      ensures Valid()
      ensures alive == old(alive) && watches == old(watches)
      ensures emitters == old(emitters) && emitterForWatch == old(emitterForWatch)
      ensures Distinct(snapshot) && forall h :: h in snapshot <==> h in HandlersOf(old(handlers), w)
      ensures var (calls, final) := Deliver(snapshot, w, ev, old(handlers), react);
        handlers == final && trace == old(trace) + DispatchCalls(calls, ev)
    {
      var snap := ListOf(HandlersOf(handlers, w));
      snapshot := snap;
      DeliverKeepsEntries(snap, w, ev, handlers, react);
      CallHandlers(snap, w, ev, react);
    }
  }

  /**
   * A client of the observer: two schedules of an equal watch share one emitter;
   * unscheduling the returned watch drops both handlers and stops that emitter, and a
   * second unschedule of it raises KeyError.
   */
  method SharedWatchScenario(h1: Handler, h2: Handler) {
    var o := new BaseObserver();
    var r1 := o.Schedule(h1, PathString("/tmp/a"), false, None, false);
    var r2 := o.Schedule(h2, PathString("/tmp/a"), false, None, false);
    assert r1.Ok? && r2.Ok? && r1.value == r2.value;
    var w := r1.value;
    assert o.emitterForWatch.Keys == {w};
    EmitterCountIsWatchCount(o.Reg());
    assert |o.emitters| == 1;
    assert o.handlers[w] == {h1, h2};
    var e := o.emitterForWatch[w];
    var u1 := o.Unschedule(w);
    assert u1.Ok? && e.state == Stopped;
    assert w !in o.handlers && o.emitters == {} && o.watches == {};
    var u2 := o.Unschedule(w);
    assert u2 == Err(KeyError);
  }
}
