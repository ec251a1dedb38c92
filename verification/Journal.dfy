/** The journal of cache changes: a sequence counter and a queue of events. */
module Journals {
  import opened Entries

  datatype EvictReason = Capacity | RuleGen | Admin | Explicit | Resize

  datatype ClearReason = GroupFlip | AdminClear | PolicySwap | Resync

  datatype Event =
    | PutEvent(seqNo: nat, key: CacheKey, entry: CacheEntry)
    | EvictEvent(seqNo: nat, key: CacheKey, reason: EvictReason)
    | ClearEvent(seqNo: nat, clearReason: ClearReason)

  /** Evictions numbered upwards from `first`, in the order of `keys`. */
  function EvictBatch(keys: seq<CacheKey>, reason: EvictReason, first: nat): (b: seq<Event>)
    ensures |b| == |keys|
    ensures forall i :: 0 <= i < |b| ==> b[i] == EvictEvent(first + i, keys[i], reason)
  {
    seq(|keys|, i requires 0 <= i < |keys| => EvictEvent(first + i, keys[i], reason))
  }

  lemma EvictBatchConcat(a: seq<CacheKey>, b: seq<CacheKey>, reason: EvictReason, first: nat)
    ensures EvictBatch(a + b, reason, first) == EvictBatch(a, reason, first) + EvictBatch(b, reason, first + |a|)
  {
  }

  /** What a put queues when `last` was the newest number: the evictions it caused
      come before the put itself, although their numbers are larger. */
  function PutBatch(k: CacheKey, e: CacheEntry, evicted: seq<CacheKey>, last: nat): seq<Event> {
    EvictBatch(evicted, Capacity, last + 2) + [PutEvent(last + 1, k, Stamped(e, last))]
  }

  /** The entry carrying the number that follows `last`. */
  function Stamped(e: CacheEntry, last: nat): CacheEntry {
    e.(seqNo := last + 1)
  }

  /** The bounded ring between cache and writer is taken to have room (see README). */
  class CacheJournal {
    var lastSeq: nat
    var suspended: nat
    var enabled: bool
    var queue: seq<Event>

    constructor ()
      ensures lastSeq == 0 && suspended == 0 && enabled && queue == []
    {
      lastSeq, suspended, enabled, queue := 0, 0, true, [];
    }

    predicate Listening()
      reads this
    {
      enabled && suspended == 0
    }

    method NextSeq() returns (s: nat)
      modifies this`lastSeq
      ensures s == old(lastSeq) + 1 && lastSeq == s
    {
      lastSeq := lastSeq + 1;
      s := lastSeq;
    }

    method Send(ev: Event)
      modifies this`queue
      ensures queue == if Listening() then old(queue) + [ev] else old(queue)
    {
      if !enabled || suspended > 0 {
        return;
      }
      queue := queue + [ev];
    }

    /** Numbers and queues one eviction per key. */
    method Evictions(keys: seq<CacheKey>, reason: EvictReason)
      modifies this`lastSeq, this`queue
      ensures lastSeq == old(lastSeq) + |keys|
      ensures queue == if Listening() then old(queue) + EvictBatch(keys, reason, old(lastSeq) + 1) else old(queue)
    {
      var i := 0;
      while i < |keys|
        invariant 0 <= i <= |keys|
        invariant lastSeq == old(lastSeq) + i
        invariant queue == if Listening() then old(queue) + EvictBatch(keys, reason, old(lastSeq) + 1)[..i]
                  else old(queue)
      {
        var s := NextSeq();
        Send(EvictEvent(s, keys[i], reason));
        i := i + 1;
      }
    }

    method Suspend()
      modifies this`suspended
      ensures suspended == old(suspended) + 1
    {
      suspended := suspended + 1;
    }

    method Resume()
      modifies this`suspended
      ensures suspended == if old(suspended) > 0 then old(suspended) - 1 else 0
    {
      if suspended > 0 {
        suspended := suspended - 1;
      }
    }
  }
}
