/**
 * The watch descriptor (`ObservedWatch`): an immutable value whose identity is the
 * triple (path, is_recursive, event_filter).
 */
module Watches {
  import opened Wrappers

  /** An event class of the event hierarchy (a `FileSystemEvent` subclass), compared by identity. */
  type EventClass(==, !new)

  /** A file-system event produced by an emitter; its internals are not part of this model. */
  type Event(==, !new)

  /** The `path` argument: either a plain string or a path object, kept by its string form. */
  datatype PathArg = PathString(text: string) | PathObject(rendered: string)

  /** `str(path) if isinstance(path, Path) else path` */
  function PathText(path: PathArg): string {
    match path
    case PathString(text) => text
    case PathObject(rendered) => rendered
  }

  /** `frozenset(event_filter) if event_filter is not None else None` */
  function Freeze(eventFilter: Option<seq<EventClass>>): (frozen: Option<set<EventClass>>)
    ensures frozen.Some? <==> eventFilter.Some?
    ensures frozen.Some? ==> forall c :: c in frozen.value <==> c in eventFilter.value
  {
    match eventFilter
    case None => None
    case Some(classes) => Some(set c | c in classes)
  }

  datatype ObservedWatch = ObservedWatch(
    path: string,
    isRecursive: bool,
    eventFilter: Option<set<EventClass>>)

  /** `ObservedWatch(path, recursive, event_filter)` */
  function NewWatch(path: PathArg, recursive: bool, eventFilter: Option<seq<EventClass>>): (w: ObservedWatch)
    ensures w.path == PathText(path) && w.isRecursive == recursive
    ensures w.eventFilter.Some? <==> eventFilter.Some?
    ensures w.eventFilter.Some? ==> forall c :: c in w.eventFilter.value <==> c in eventFilter.value
  {
    ObservedWatch(PathText(path), recursive, Freeze(eventFilter))
  }

  type WatchKey = (string, bool, Option<set<EventClass>>)

  /** The `key` property. */
  function Key(w: ObservedWatch): WatchKey {
    (w.path, w.isRecursive, w.eventFilter)
  }

  /** `__hash__`: the hash of the key, for any hash function on keys. */
  function Hash(w: ObservedWatch, hashKey: WatchKey -> int): int {
    hashKey(Key(w))
  }

  /** `__eq__` and `__ne__` compare keys: two watches are equal exactly when their keys are. */
  lemma EqualIffSameKey(a: ObservedWatch, b: ObservedWatch)
    ensures a == b <==> Key(a) == Key(b)
  {
  }

  /** Equal watches hash equally, so equal watches share one dictionary entry. */
  lemma EqualWatchesHashEqually(a: ObservedWatch, b: ObservedWatch, hashKey: WatchKey -> int)
    requires a == b
    ensures Hash(a, hashKey) == Hash(b, hashKey)
  {
  }

  /** A path object and its string form give the same watch. */
  lemma PathObjectIsItsString(text: string, recursive: bool, eventFilter: Option<seq<EventClass>>)
    ensures NewWatch(PathObject(text), recursive, eventFilter) == NewWatch(PathString(text), recursive, eventFilter)
  {
  }

  /**
   * The filter is stored as a frozen set: filters listing the same classes, in any order
   * and with any repetitions, give the same watch.
   */
  lemma FilterOrderIrrelevant(path: PathArg, recursive: bool, xs: seq<EventClass>, ys: seq<EventClass>)
    requires forall c :: c in xs <==> c in ys
    ensures NewWatch(path, recursive, Some(xs)) == NewWatch(path, recursive, Some(ys))
  {
    assert Freeze(Some(xs)).value == Freeze(Some(ys)).value;
  }
}
