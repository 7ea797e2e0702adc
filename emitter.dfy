/**
 * The event emitter: the producer bound to one watch, with its thread lifecycle as a field
 * and the per-emitter event-kind filter in front of the shared queue.
 */
module Emitters {
  import opened Wrappers
  import opened Watches
  import opened EventQueues

  /** The emitter thread's lifecycle. */
  datatype Lifecycle = Idle | Running | Stopped

  /**
   * `event_filter is None or any(isinstance(event, cls) for cls in event_filter)`;
   * `isInstance` is the language's instance-of relation between events and event classes.
   */
  predicate Admits(filter: Option<set<EventClass>>, event: Event, isInstance: (Event, EventClass) -> bool) {
    filter.None? || exists c :: c in filter.value && isInstance(event, c)
  }

  /** Without a filter every event is queued; with an empty filter none is. */
  lemma AdmitsExtremes(event: Event, isInstance: (Event, EventClass) -> bool)
    ensures Admits(None, event, isInstance)
    ensures !Admits(Some({}), event, isInstance)
  {
  }

  /** Widening the filter never drops an event that the narrower filter queued. */
  lemma AdmitsMonotone(f: set<EventClass>, g: set<EventClass>, event: Event, isInstance: (Event, EventClass) -> bool)
    requires f <= g
    requires Admits(Some(f), event, isInstance)
    ensures Admits(Some(g), event, isInstance)
  {
    var c :| c in f && isInstance(event, c);
    assert c in g;
  }

  class Emitter {
    const queue: EventQueue
    const watch: ObservedWatch
    const eventFilter: Option<set<EventClass>>
    var state: Lifecycle

    /** `EventEmitter(event_queue, watch, timeout, event_filter)`; the timeout is not modelled. */
    constructor (queue: EventQueue, watch: ObservedWatch, eventFilter: Option<seq<EventClass>>)
      ensures this.queue == queue && this.watch == watch
      ensures this.eventFilter == Freeze(eventFilter)
      ensures state == Idle
    {
      this.queue := queue;
      this.watch := watch;
      this.eventFilter := Freeze(eventFilter);
      state := Idle;
    }

    /**
     * `start()`: fails when the platform start hook raises (`hookRaises`) or the thread
     * was already started once.
     */
    method Start(hookRaises: bool) returns (ok: bool)
      modifies this
      ensures ok <==> old(state) == Idle && !hookRaises
      ensures state == if ok then Running else old(state)
    {
      ok := state == Idle && !hookRaises;
      if ok {
        state := Running;
      }
    }

    /** `stop()`: request cancellation; the thread will not run again. */
    method Stop()
      modifies this
      ensures state == Stopped
    {
      state := Stopped;
    }

    /** `queue_event(event)`: put (event, watch) on the shared queue when the filter admits the event. */
    method QueueEvent(event: Event, isInstance: (Event, EventClass) -> bool)
      requires queue.Valid()
      modifies queue
      ensures queue.Valid()
      ensures Admits(eventFilter, event, isInstance) ==>
                && queue.items == old(queue.items) + SkipRepeats(old(queue.lastPut), [Item(event, watch)])
                && queue.lastPut == Some(Item(event, watch))
                && queue.history == old(queue.history) + [Item(event, watch)]
                && queue.unfinished == old(queue.unfinished) + |SkipRepeats(old(queue.lastPut), [Item(event, watch)])|
      ensures old(queue.Balanced()) ==> queue.Balanced()
      ensures !Admits(eventFilter, event, isInstance) ==> unchanged(queue)
    {
      if eventFilter.None? || exists c :: c in eventFilter.value && isInstance(event, c) {
        queue.Put(Item(event, watch));
      }
    }
  }
}
