/** The shell around the current cache policy, which journals deletions and clears
    itself and leaves puts and resizes to the policy. */
module Swap {
  import opened Wrappers
  import opened Entries
  import opened Journals
  import opened Operations
  import opened LruCaches
  import opened TinyCaches
  import opened Partitions
  import LruModel
  import TinyModel
  import PartitionModel
  import Replay

  datatype Inner =
    | LruInner(lru: LruCache)
    | TinyInner(tiny: TinyLfuCache)
    | PartInner(parts: PartitionedCache)

  /** A read, or a new stale window, changes the cache only. */
  lemma ReadStep(s: Replay.Live, hash: CacheKey -> nat, op: Op)
    requires Replay.Valid(s.cache, hash) && (op.Get? || op.GetStale? || op.Peek? || op.SetStaleWindow?)
    ensures Replay.Step(s, hash, op) == s.(cache := Replay.Apply(s.cache, hash, op).state)
  {
  }

  lemma DeleteStep(s: Replay.Live, hash: CacheKey -> nat, k: CacheKey)
    requires Replay.Valid(s.cache, hash)
    ensures Replay.Step(s, hash, Op.Delete(k))
         == Replay.Logged(s, Replay.Apply(s.cache, hash, Op.Delete(k)).state,
             EvictEvent(s.lastSeq + 1, Replay.Slot(s.cache, k), Explicit))
  {
    hide Replay.Valid, Replay.Apply, Replay.Slot, Replay.Homeless;
  }

  lemma ClearStep(s: Replay.Live, hash: CacheKey -> nat)
    requires Replay.Valid(s.cache, hash)
    ensures Replay.Step(s, hash, Op.Clear)
         == Replay.Logged(s, Replay.Apply(s.cache, hash, Op.Clear).state, ClearEvent(s.lastSeq + 1, AdminClear))
  {
  }

  lemma Unnumbered(n: nat, last: nat)
    ensures Replay.Numbering(Op.SetCapacity(n), last) == Op.SetCapacity(n)
  {
  }

  lemma PutEvents(c: Replay.Cache, k: CacheKey, e: CacheEntry, now: real, evicted: seq<CacheKey>, last: nat)
    ensures var op := Op.Put(k, Stamped(e, last), now);
            && Replay.Numbering(Op.Put(k, e, now), last) == op
            && Replay.Events(c, op, evicted, last) == if Replay.Homeless(c) then []
               else PutBatch(Replay.Slot(c, k), op.entry, evicted, last)
  {
  }

  lemma ResizeEvents(c: Replay.Cache, n: nat, evicted: seq<CacheKey>, last: nat)
    ensures Replay.Events(c, Op.SetCapacity(n), evicted, last) == EvictBatch(evicted, Resize, last + 1)
  {
  }

  class SwappableCache {
    const hash: CacheKey -> nat
    var inner: Inner
    var journal: CacheJournal

    /** The queued events in the order of their numbers. */
    ghost var ordered: seq<Event>

    ghost function Footprint(): set<object>
      reads this`inner
    {
      match inner
      case LruInner(c) => {c} + c.repr
      case TinyInner(c) => {c} + c.Repr()
      case PartInner(c) => {c} + c.repr
    }

    ghost predicate InnerValid()
      reads this`inner, this`journal, Footprint()
    {
      match inner
      case LruInner(c) => c.Valid() && c.hash == hash && c !in c.repr && c.journal == journal && c.group == None
      case TinyInner(c) => c.Valid() && c.hash == hash && c !in c.Repr() && c.journal == journal
      case PartInner(c) => c.Valid() && c.hash == hash && c !in c.repr && c.journal == journal
    }

    ghost function Model(): (r: Replay.Cache)
      requires InnerValid()
      reads this`inner, this`journal, Footprint()
    {
      match inner
      case LruInner(c) => Replay.LruCase(c.Model())
      case TinyInner(c) => Replay.TinyCase(c.Model())
      case PartInner(c) => Replay.PartCase(c.Model())
    }

    ghost predicate Valid()
      reads this`inner, this`journal, Footprint()
    {
      this !in Footprint() && journal !in Footprint() && InnerValid() && Replay.Valid(Model(), hash)
    }

    lemma ModelValid()
      requires InnerValid()
      ensures Replay.Valid(Model(), hash)
    {
      hide LruModel.Valid, TinyModel.Valid, PartitionModel.Valid;
    }

    /** The policy in place has performed `op` as modelled. */
    twostate predicate Performed(op: Op)
      reads this`inner, this`journal, Footprint()
    {
      && old(Valid()) && Valid() && inner == old(inner) && journal == old(journal)
      && Model() == Replay.Apply(old(Model()), hash, op).state
    }

    /** Besides, the journal has numbered the events of `op` and queued them if it listens. */
    twostate predicate Journalled(op: Op)
      requires old(Valid())
      reads this`inner, this`journal, Footprint(), journal
    {
      var events := Replay.Events(old(Model()), op, Replay.Apply(old(Model()), hash, op).evicted, old(journal.lastSeq));
      && journal == old(journal) && journal.enabled == old(journal.enabled)
         && journal.suspended == old(journal.suspended)
      && journal.lastSeq == old(journal.lastSeq) + |events|
      && journal.queue == old(journal.queue) + if old(journal.Listening()) then events else []
    }

    /** The cache together with its journal. */
    ghost function State(): Replay.Live
      requires InnerValid()
      reads this, Footprint(), journal
    {
      Replay.Live(Model(), journal.lastSeq, journal.queue, ordered)
    }

    constructor (inner: Inner, journal: CacheJournal, hash: CacheKey -> nat)
      requires match inner
               case LruInner(c) => c.Valid() && c.hash == hash && c.group == None && journal !in {c} + c.repr
               case TinyInner(c) => c.Valid() && c.hash == hash && journal !in {c} + c.Repr()
               case PartInner(c) => c.Valid() && c.hash == hash && journal !in {c} + c.repr
      modifies match inner
               case LruInner(c) => {c} + c.repr
               case TinyInner(c) => {c} + c.Repr()
               case PartInner(c) => {c} + c.repr
      ensures Valid() && this.journal == journal && ordered == [] && this.inner == inner && this.hash == hash
      ensures Model() == match inner
                         case LruInner(c) => Replay.LruCase(old(c.Model()))
                         case TinyInner(c) => Replay.TinyCase(old(c.Model()))
                         case PartInner(c) => Replay.PartCase(old(c.Model()))
    {
      hide LruCache.Valid, TinyLfuCache.Valid, PartitionedCache.Valid, LruCache.Model, TinyLfuCache.Model,
           PartitionedCache.Model;
      this.inner, this.journal, ordered, this.hash := inner, journal, [], hash;
      new;
      match inner {
        case LruInner(c) =>
          c.AttachJournal(journal);
          c.Outside();
        case TinyInner(c) =>
          c.AttachJournal(journal);
          c.Outside();
        case PartInner(c) =>
          c.AttachJournal(journal);
          c.Outside();
      }
      ModelValid();
    }

    method GetInner(k: CacheKey, now: real) returns (r: Option<CacheEntry>)
      requires Valid()
      modifies Footprint()
      ensures Performed(Op.Get(k, now))
      ensures r == Replay.Apply(old(Model()), hash, Op.Get(k, now)).found
    {
      hide LruCache.Valid, TinyLfuCache.Valid, PartitionedCache.Valid, LruCache.Model, TinyLfuCache.Model,
           PartitionedCache.Model, Replay.Valid, LruModel.Valid, TinyModel.Valid, PartitionModel.Valid, KeyEffect,
           Replay.Stored, LruModel.Get, TinyModel.Get, PartitionModel.OnPart;
      Replay.ApplyEffect(Model(), hash, Op.Get(k, now), CacheKey(None, "", ""), 0.0);
      match inner {
        case LruInner(c) => r := c.Get(k, now);
        case TinyInner(c) => r := c.Get(k, now);
        case PartInner(c) => r := c.Get(k, now);
      }
    }

    /** Reads leave no trace in the journal. */
    method Get(k: CacheKey, now: real) returns (r: Option<CacheEntry>)
      requires Valid()
      modifies Footprint()
      ensures Performed(Op.Get(k, now))
      ensures r == Replay.Apply(old(Model()), hash, Op.Get(k, now)).found
      ensures State() == Replay.Step(old(State()), hash, Op.Get(k, now))
    {
      hide InnerValid, Model, Replay.Valid, Replay.Apply, Replay.Numbering, Replay.Events, Replay.EventsInOrder,
           Replay.Stored, KeyEffect, Replay.Step;
      ReadStep(State(), hash, Op.Get(k, now));
      r := GetInner(k, now);
    }

    method GetStaleInner(k: CacheKey, now: real, window: real) returns (r: Option<CacheEntry>)
      requires Valid()
      modifies Footprint()
      ensures Performed(Op.GetStale(k, now, window))
      ensures r == Replay.Apply(old(Model()), hash, Op.GetStale(k, now, window)).found
    {
      hide LruCache.Valid, TinyLfuCache.Valid, PartitionedCache.Valid, LruCache.Model, TinyLfuCache.Model,
           PartitionedCache.Model, Replay.Valid, LruModel.Valid, TinyModel.Valid, PartitionModel.Valid, KeyEffect,
           Replay.Stored, LruModel.GetStale, TinyModel.GetStale, PartitionModel.OnPart;
      Replay.ApplyEffect(Model(), hash, Op.GetStale(k, now, window), CacheKey(None, "", ""), 0.0);
      match inner {
        case LruInner(c) => r := c.GetStale(k, now, window);
        case TinyInner(c) => r := c.GetStale(k, now, window);
        case PartInner(c) => r := c.GetStale(k, now, window);
      }
    }

    method GetStale(k: CacheKey, now: real, window: real) returns (r: Option<CacheEntry>)
      requires Valid()
      modifies Footprint()
      ensures Performed(Op.GetStale(k, now, window))
      ensures r == Replay.Apply(old(Model()), hash, Op.GetStale(k, now, window)).found
      ensures State() == Replay.Step(old(State()), hash, Op.GetStale(k, now, window))
    {
      hide InnerValid, Model, Replay.Valid, Replay.Apply, Replay.Numbering, Replay.Events, Replay.EventsInOrder,
           Replay.Stored, KeyEffect, Replay.Step;
      ReadStep(State(), hash, Op.GetStale(k, now, window));
      r := GetStaleInner(k, now, window);
    }

    method PeekInner(k: CacheKey, now: real) returns (r: Option<CacheEntry>)
      requires Valid()
      modifies Footprint()
      ensures Performed(Op.Peek(k, now))
      ensures r == Replay.Apply(old(Model()), hash, Op.Peek(k, now)).found
    {
      hide LruCache.Valid, TinyLfuCache.Valid, PartitionedCache.Valid, LruCache.Model, TinyLfuCache.Model,
           PartitionedCache.Model, Replay.Valid, LruModel.Valid, TinyModel.Valid, PartitionModel.Valid, KeyEffect,
           Replay.Stored, LruModel.Peek, TinyModel.Peek, PartitionModel.OnPart;
      Replay.ApplyEffect(Model(), hash, Op.Peek(k, now), CacheKey(None, "", ""), 0.0);
      match inner {
        case LruInner(c) => r := c.Peek(k, now);
        case TinyInner(c) => r := c.Peek(k, now);
        case PartInner(c) => r := c.Peek(k, now);
      }
    }

    method Peek(k: CacheKey, now: real) returns (r: Option<CacheEntry>)
      requires Valid()
      modifies Footprint()
      ensures Performed(Op.Peek(k, now))
      ensures r == Replay.Apply(old(Model()), hash, Op.Peek(k, now)).found
      ensures State() == Replay.Step(old(State()), hash, Op.Peek(k, now))
    {
      hide InnerValid, Model, Replay.Valid, Replay.Apply, Replay.Numbering, Replay.Events, Replay.EventsInOrder,
           Replay.Stored, KeyEffect, Replay.Step;
      ReadStep(State(), hash, Op.Peek(k, now));
      r := PeekInner(k, now);
    }

    method PutInner(k: CacheKey, value: CacheEntry, now: real)
      requires Valid()
      modifies Footprint(), journal
      ensures Performed(Replay.Numbering(Op.Put(k, value, now), old(journal.lastSeq)))
      ensures Journalled(Replay.Numbering(Op.Put(k, value, now), old(journal.lastSeq)))
    {
      hide LruCache.Valid, TinyLfuCache.Valid, PartitionedCache.Valid, LruCache.Model, TinyLfuCache.Model,
           PartitionedCache.Model, Replay.Valid, LruModel.Valid, TinyModel.Valid, PartitionModel.Valid, KeyEffect,
           Replay.Stored, LruModel.Put, TinyModel.Put, PartitionModel.OnPart, PartitionModel.Apply,
           PartitionModel.JournalKey, Replay.Numbering, Replay.Events;
      ghost var op := Op.Put(k, Stamped(value, journal.lastSeq), now);
      PutEvents(Model(), k, value, now, Replay.Apply(Model(), hash, op).evicted, journal.lastSeq);
      Replay.ApplyEffect(Model(), hash, op, CacheKey(None, "", ""), 0.0);
      match inner {
        case LruInner(c) => c.Put(k, value, now);
        case TinyInner(c) => c.Put(k, value, now);
        case PartInner(c) =>
          Nowhere(c, k, value, Stamped(value, journal.lastSeq), now);
          c.Put(k, value, now);
      }
    }

    /** The policy numbers and journals its own puts, with what they evict. */
    method Put(k: CacheKey, value: CacheEntry, now: real)
      requires Valid()
      modifies this`ordered, Footprint(), journal
      ensures Performed(Replay.Numbering(Op.Put(k, value, now), old(journal.lastSeq)))
      ensures old(journal.Listening()) ==> State() == Replay.Step(old(State()), hash, Op.Put(k, value, now))
      ensures !old(journal.Listening()) ==> journal.queue == old(journal.queue)
    {
      hide InnerValid, Model, Replay.Valid, Replay.Apply, Replay.Numbering, Replay.Events, Replay.EventsInOrder,
           Replay.Stored, KeyEffect, Footprint;
      ghost var after := Replay.Step(State(), hash, Op.Put(k, value, now)).ordered;
      PutInner(k, value, now);
      ordered := after;
    }

    method DeleteInner(k: CacheKey)
      requires Valid()
      modifies Footprint()
      ensures Performed(Op.Delete(k))
    {
      hide LruCache.Valid, TinyLfuCache.Valid, PartitionedCache.Valid, LruCache.Model, TinyLfuCache.Model,
           PartitionedCache.Model, Replay.Valid, LruModel.Valid, TinyModel.Valid, PartitionModel.Valid, KeyEffect,
           Replay.Stored, LruModel.Delete, TinyModel.Delete, PartitionModel.OnPart;
      Replay.ApplyEffect(Model(), hash, Op.Delete(k), CacheKey(None, "", ""), 0.0);
      match inner {
        case LruInner(c) => c.Delete(k);
        case TinyInner(c) => c.Delete(k);
        case PartInner(c) => c.Delete(k);
      }
    }

    /** The shell journals a deletion under the policy's name for the slot. */
    method Delete(k: CacheKey)
      requires Valid()
      modifies this`ordered, Footprint(), journal
      ensures Performed(Op.Delete(k))
      ensures old(journal.Listening()) ==> State() == Replay.Step(old(State()), hash, Op.Delete(k))
      ensures !old(journal.Listening()) ==> journal.queue == old(journal.queue)
    {
      hide InnerValid, Model, Replay.Valid, Replay.Apply, Replay.EventsInOrder, Replay.Stored, KeyEffect, Footprint,
           Replay.Slot, Replay.Step, JournalKey;
      ghost var after := Replay.Step(State(), hash, Op.Delete(k)).ordered;
      JournalKeyIsSlot(k);
      DeleteStep(State(), hash, k);
      DeleteInner(k);
      RecordDelete(JournalKey(k));
      ordered := after;
    }

    method ClearInner()
      requires Valid()
      modifies Footprint()
      ensures Performed(Op.Clear)
    {
      hide LruCache.Valid, TinyLfuCache.Valid, PartitionedCache.Valid, LruCache.Model, TinyLfuCache.Model,
           PartitionedCache.Model, Replay.Valid, LruModel.Valid, TinyModel.Valid, PartitionModel.Valid, KeyEffect,
           Replay.Stored, LruModel.Clear, TinyModel.Clear, PartitionModel.Clear;
      Replay.ApplyEffect(Model(), hash, Op.Clear, CacheKey(None, "", ""), 0.0);
      match inner {
        case LruInner(c) => c.Clear();
        case TinyInner(c) => c.Clear();
        case PartInner(c) => c.Clear();
      }
    }

    /** The shell journals a clear. */
    method Clear()
      requires Valid()
      modifies this`ordered, Footprint(), journal
      ensures Performed(Op.Clear)
      ensures old(journal.Listening()) ==> State() == Replay.Step(old(State()), hash, Op.Clear)
      ensures !old(journal.Listening()) ==> journal.queue == old(journal.queue)
    {
      hide InnerValid, Model, Replay.Valid, Replay.Apply, Replay.EventsInOrder, Replay.Stored, KeyEffect, Footprint,
           Replay.Slot, Replay.Step, JournalKey;
      ghost var after := Replay.Step(State(), hash, Op.Clear).ordered;
      ClearStep(State(), hash);
      ClearInner();
      RecordClear();
      ordered := after;
    }

    method SetCapacityInner(n: nat)
      requires Valid()
      modifies Footprint(), journal
      ensures Performed(Op.SetCapacity(n))
      ensures Journalled(Op.SetCapacity(n))
    {
      hide LruCache.Valid, TinyLfuCache.Valid, PartitionedCache.Valid, LruCache.Model, TinyLfuCache.Model,
           PartitionedCache.Model, Replay.Valid, LruModel.Valid, TinyModel.Valid, PartitionModel.Valid,
           LruModel.SetCapacity, TinyModel.SetCapacity, PartitionModel.SetCapacity,
           Replay.Events, EvictBatch, KeyEffect, Replay.Stored, Replay.Slot, Replay.Homeless;
      Replay.ApplyEffect(Model(), hash, Op.SetCapacity(n), CacheKey(None, "", ""), 0.0);
      ResizeEvents(Model(), n, Replay.Apply(Model(), hash, Op.SetCapacity(n)).evicted, journal.lastSeq);
      match inner {
        case LruInner(c) => c.SetCapacity(n);
        case TinyInner(c) => c.SetCapacity(n);
        case PartInner(c) => c.SetCapacity(n);
      }
    }

    /** The policy journals what a new capacity evicts. */
    method SetCapacity(n: nat)
      requires Valid()
      modifies this`ordered, Footprint(), journal
      ensures Performed(Op.SetCapacity(n))
      ensures old(journal.Listening()) ==> State() == Replay.Step(old(State()), hash, Op.SetCapacity(n))
      ensures !old(journal.Listening()) ==> journal.queue == old(journal.queue)
    {
      hide InnerValid, Model, Replay.Valid, Replay.Apply, Replay.Numbering, Replay.Events, Replay.EventsInOrder,
           Replay.Stored, KeyEffect, Footprint;
      ghost var after := Replay.Step(State(), hash, Op.SetCapacity(n)).ordered;
      Unnumbered(n, journal.lastSeq);
      SetCapacityInner(n);
      ordered := after;
    }

    method SetStaleWindowInner(v: nat)
      requires Valid()
      modifies Footprint()
      ensures Performed(Op.SetStaleWindow(v))
    {
      hide LruCache.Valid, TinyLfuCache.Valid, PartitionedCache.Valid, LruCache.Model, TinyLfuCache.Model,
           PartitionedCache.Model, Replay.Valid, LruModel.Valid, TinyModel.Valid, PartitionModel.Valid, KeyEffect,
           Replay.Stored, PartitionModel.SetStaleWindow;
      Replay.ApplyEffect(Model(), hash, Op.SetStaleWindow(v), CacheKey(None, "", ""), 0.0);
      match inner {
        case LruInner(c) => c.SetStaleWindow(v);
        case TinyInner(c) => c.SetStaleWindow(v);
        case PartInner(c) => c.SetStaleWindow(v);
      }
    }

    /** A new stale window is not journalled. */
    method SetStaleWindow(v: nat)
      requires Valid()
      modifies Footprint()
      ensures Performed(Op.SetStaleWindow(v))
      ensures State() == Replay.Step(old(State()), hash, Op.SetStaleWindow(v))
    {
      hide InnerValid, Model, Replay.Valid, Replay.Apply, Replay.Numbering, Replay.Events, Replay.EventsInOrder,
           Replay.Stored, KeyEffect, Replay.Step;
      ReadStep(State(), hash, Op.SetStaleWindow(v));
      SetStaleWindowInner(v);
    }

    function JournalKey(k: CacheKey): CacheKey
      reads this`inner
    {
      if inner.PartInner? then PartitionModel.JournalKey(inner.parts.names, k) else k
    }

    lemma JournalKeyIsSlot(k: CacheKey)
      requires Valid()
      ensures JournalKey(k) == Replay.Slot(Model(), k)
    {
      hide LruCache.Valid, TinyLfuCache.Valid, PartitionedCache.Valid, LruCache.Model, TinyLfuCache.Model,
           PartitionModel.JournalKey, Replay.Valid;
    }

    lemma Nowhere(c: PartitionedCache, k: CacheKey, e: CacheEntry, f: CacheEntry, now: real)
      requires Valid() && inner == PartInner(c)
      ensures PartitionModel.Shaped(c.Model()) && c.Model().names == c.names
      ensures PartitionModel.Apply(c.Model(), hash, Op.Put(k, f, now))
              == PartitionModel.OnPart(c.Model(), hash, Op.Put(k, f, now))
      ensures c.names == [] ==>
                PartitionModel.OnPart(c.Model(), hash, Op.Put(k, e, now))
                == PartitionModel.OnPart(c.Model(), hash, Op.Put(k, f, now))
    {
      PartitionModel.NowhereToPut(c.Model(), hash, k, e, f, now);
    }

    /** A deletion is numbered only if the journal is on. */
    method RecordDelete(slot: CacheKey)
      requires Valid()
      modifies journal
      ensures Valid() && Model() == old(Model()) && journal.enabled == old(journal.enabled)
              && journal.suspended == old(journal.suspended)
      ensures journal.queue == old(journal.queue) +
                if old(journal.Listening()) then [EvictEvent(old(journal.lastSeq) + 1, slot, Explicit)] else []
      ensures journal.lastSeq == old(journal.lastSeq) + if journal.enabled then 1 else 0
    {
      hide InnerValid, Model, Replay.Valid;
      if journal.enabled {
        var s := journal.NextSeq();
        journal.Send(EvictEvent(s, slot, Explicit));
      }
    }

    method RecordClear()
      requires Valid()
      modifies journal
      ensures Valid() && Model() == old(Model()) && journal.enabled == old(journal.enabled)
              && journal.suspended == old(journal.suspended)
      ensures journal.queue == old(journal.queue) +
                if old(journal.Listening()) then [ClearEvent(old(journal.lastSeq) + 1, AdminClear)] else []
      ensures journal.lastSeq == old(journal.lastSeq) + 1
    {
      hide InnerValid, Model, Replay.Valid;
      var s := journal.NextSeq();
      journal.Send(ClearEvent(s, AdminClear));
    }
  }
}
