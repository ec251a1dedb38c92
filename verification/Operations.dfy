/** Cache operations, and what an operation may do to the entry of one key. */
module Operations {
  import opened Wrappers
  import opened Entries

  datatype Op =
    | Put(key: CacheKey, entry: CacheEntry, now: real)
    | Get(key: CacheKey, now: real)
    | GetStale(key: CacheKey, now: real, window: real)
    | Peek(key: CacheKey, now: real)
    | Delete(key: CacheKey)
    | Clear
    | SetCapacity(capacity: nat)
    | SetStaleWindow(seconds: nat)

  /** The outcome of one operation: the next state, the keys reported evicted (in
      the order they were dropped), and the entry handed to the caller. */
  datatype Outcome<S> = Outcome(state: S, evicted: seq<CacheKey>, found: Option<CacheEntry>)

  /** An untouched entry either stays as it is or, once expired, vanishes silently. */
  ghost predicate Aged(before: Option<CacheEntry>, after: Option<CacheEntry>, now: real) {
    after == before || (after == None && before.Some? && before.value.expiresAt <= now)
  }

  /** How the entry of key `q` may change when `put` was stored and `evicted` dropped. */
  ghost predicate KeyEffect(q: CacheKey, before: Option<CacheEntry>, after: Option<CacheEntry>,
                            put: Option<(CacheKey, CacheEntry)>, evicted: seq<CacheKey>, now: real)
  {
    if put.Some? && put.value.0 == q then q !in evicted && Aged(Some(put.value.1), after, now)
    else if q in evicted then after == None
    else Aged(before, after, now)
  }

  /** Operations on one key. */
  predicate Keyed(op: Op) {
    op.Put? || op.Get? || op.GetStale? || op.Peek? || op.Delete?
  }

  function PutOf(op: Op): Option<(CacheKey, CacheEntry)> {
    if op.Put? then Some((op.key, op.entry)) else None
  }

  /** The keys an operation takes out, whether by its own meaning or to make room. */
  function Taken(op: Op, evicted: seq<CacheKey>): seq<CacheKey> {
    if op.Delete? then [op.key] else evicted
  }

  function TimeOf(op: Op, clock: real): real {
    if op.Put? || op.Get? || op.GetStale? || op.Peek? then op.now else clock
  }
}
