/**
 * The shared event queue: a FIFO of (event, watch) entries that drops an entry equal to
 * the one enqueued immediately before it.
 */
module EventQueues {
  import opened Wrappers
  import opened Watches

  /** A queue entry: an (event, watch) pair, or the dispatcher's stop sentinel. */
  datatype Entry = StopEvent | Item(event: Event, watch: ObservedWatch)

  /**
   * What a run of puts appends to the queue, given the most recently enqueued entry
   * before the run: each entry equal to its predecessor is skipped.
   */
  function SkipRepeats<T(==)>(last: Option<T>, xs: seq<T>): seq<T>
    decreases |xs|
  {
    if xs == [] then []
    else if last == Some(xs[0]) then SkipRepeats(last, xs[1..])
    else [xs[0]] + SkipRepeats(Some(xs[0]), xs[1..])
  }

  /** The most recently enqueued entry after a run of puts. */
  function LastPut<T>(last: Option<T>, xs: seq<T>): (r: Option<T>)
    ensures xs != [] ==> r == Some(xs[|xs| - 1])
    ensures xs == [] ==> r == last
  {
    if xs == [] then last else Some(xs[|xs| - 1])
  }

  /** No two consecutive entries of the queue are equal. */
  ghost predicate NoConsecutiveRepeats<T>(last: Option<T>, ys: seq<T>) {
    && (forall i :: 0 < i < |ys| ==> ys[i - 1] != ys[i])
    && (ys != [] && last.Some? ==> ys[0] != last.value)
  }

  /** The puts never leave two equal entries side by side, nor repeat the last enqueued one. */
  lemma {:induction false} SkipRepeatsHasNoRepeats<T>(last: Option<T>, xs: seq<T>)
    ensures NoConsecutiveRepeats(last, SkipRepeats(last, xs))
    decreases |xs|
  {
    if xs != [] {
      SkipRepeatsHasNoRepeats(last, xs[1..]);
      SkipRepeatsHasNoRepeats(Some(xs[0]), xs[1..]);
    }
  }

  /**
   * Nothing but repeats is dropped: every entry put is enqueued, unless it equals the
   * entry enqueued just before the run; and nothing else is enqueued.
   */
  lemma {:induction false} SkipRepeatsKeepsValues<T>(last: Option<T>, xs: seq<T>)
    ensures forall y :: y in SkipRepeats(last, xs) ==> y in xs
    ensures forall x :: x in xs ==> x in SkipRepeats(last, xs) || last == Some(x)
    decreases |xs|
  {
    if xs != [] {
      SkipRepeatsKeepsValues(last, xs[1..]);
      SkipRepeatsKeepsValues(Some(xs[0]), xs[1..]);
    }
  }

  /** Putting a run of entries is putting its first part, then the rest. */
  lemma {:induction false} SkipRepeatsAppend<T>(last: Option<T>, xs: seq<T>, ys: seq<T>)
    ensures SkipRepeats(last, xs + ys) == SkipRepeats(last, xs) + SkipRepeats(LastPut(last, xs), ys)
    decreases |xs|
  {
    if xs == [] {
      assert xs + ys == ys;
    } else {
      assert (xs + ys)[1..] == xs[1..] + ys;
      if last == Some(xs[0]) {
        SkipRepeatsAppend(last, xs[1..], ys);
        assert LastPut(last, xs[1..]) == LastPut(last, xs);
      } else {
        SkipRepeatsAppend(Some(xs[0]), xs[1..], ys);
        assert LastPut(Some(xs[0]), xs[1..]) == LastPut(last, xs);
      }
    }
  }

  /** A run without consecutive repeats is enqueued unchanged. */
  lemma {:induction false} SkipRepeatsKeepsRepeatFree<T>(last: Option<T>, ys: seq<T>)
    requires NoConsecutiveRepeats(last, ys)
    ensures SkipRepeats(last, ys) == ys
    decreases |ys|
  {
    if ys != [] {
      SkipRepeatsKeepsRepeatFree(Some(ys[0]), ys[1..]);
    }
  }

  /** Putting the queue's own contents again through an empty queue changes nothing. */
  lemma SkipRepeatsIdempotent<T>(xs: seq<T>)
    ensures SkipRepeats(None, SkipRepeats(None, xs)) == SkipRepeats(None, xs)
  {
    SkipRepeatsHasNoRepeats(None, xs);
    SkipRepeatsKeepsRepeatFree(None, SkipRepeats(None, xs));
  }

  /** Three equal consecutive entries collapse to one; a later, separated repeat is kept. */
  lemma SkipRepeatsExample<T>(a: T, b: T)
    requires a != b
    ensures SkipRepeats(None, [a, a, a, b, a]) == [a, b, a]
  {
    assert [a, a, a, b, a][1..] == [a, a, b, a];
    assert [a, a, b, a][1..] == [a, b, a];
    assert [a, b, a][1..] == [b, a];
    assert [b, a][1..] == [a];
    assert SkipRepeats(Some(b), [a]) == [a];
    assert SkipRepeats(Some(a), [b, a]) == [b, a];
    assert SkipRepeats(Some(a), [a, a, b, a]) == [b, a];
  }

  /**
   * The event queue. `history` is every entry ever put, `taken` how many enqueued entries
   * were consumed; `unfinished` is the standard queue's count of entries not yet marked done.
   */
  class EventQueue {
    var items: seq<Entry>
    var lastPut: Option<Entry>
    var unfinished: nat
    ghost var history: seq<Entry>
    ghost var taken: nat

    ghost predicate Valid()
      reads this
    {
      && lastPut == LastPut(None, history)
      && taken <= |SkipRepeats(None, history)|
      && items == SkipRepeats(None, history)[taken..]
    }

    /** Every entry still queued is counted as unfinished (it holds while only consumers mark entries done). */
    predicate Balanced()
      reads this
    {
      |items| <= unfinished
    }

    constructor ()
      ensures Valid() && Balanced()
      ensures items == [] && lastPut == None && unfinished == 0 && history == []
    {
      items, lastPut, unfinished := [], None, 0;
      history, taken := [], 0;
    }

    /** `put(entry)`: append unless equal to the most recently enqueued entry. */
    method Put(e: Entry)
      requires Valid()
      modifies this
      ensures Valid()
      ensures items == old(items) + SkipRepeats(old(lastPut), [e])
      ensures lastPut == Some(e) && history == old(history) + [e]
      ensures unfinished == old(unfinished) + |SkipRepeats(old(lastPut), [e])|
      ensures old(Balanced()) ==> Balanced()
    {
      SkipRepeatsAppend(None, history, [e]);
      ghost var all := SkipRepeats(None, history);
      ghost var added := SkipRepeats(lastPut, [e]);
      assert (all + added)[taken..] == all[taken..] + added;
      if lastPut != Some(e) {
        items := items + [e];
        unfinished := unfinished + 1;
      }
      lastPut := Some(e);
      history := history + [e];
    }

    /** `get()`: the head entry, or None where a blocking get would wait. */
    method Get() returns (r: Option<Entry>)
      requires Valid()
      modifies this
      ensures Valid()
      ensures old(items) == [] ==> r == None && items == [] && taken == old(taken)
      ensures old(items) != [] ==> r == Some(old(items)[0]) && items == old(items)[1..] && taken == old(taken) + 1
      ensures lastPut == old(lastPut) && unfinished == old(unfinished) && history == old(history)
      ensures old(Balanced()) ==> Balanced()
    {
      if items == [] {
        r := None;
      } else {
        r := Some(items[0]);
        items := items[1..];
        taken := taken + 1;
      }
    }

    /** `task_done()`: fails (ValueError) when called more times than entries were enqueued. */
    method TaskDone() returns (ok: bool)
      requires Valid()
      modifies this
      ensures ok <==> old(unfinished) > 0
      ensures Valid()
      ensures items == old(items) && lastPut == old(lastPut) && history == old(history) && taken == old(taken)
      ensures unfinished == if ok then old(unfinished) - 1 else old(unfinished)
    {
      ok := unfinished > 0;
      if ok {
        unfinished := unfinished - 1;
      }
    }
  }
}
