/** The sharded LRU cache built on ordered maps, proved to do what LruModel says. */
module LruCaches {
  import opened Wrappers
  import opened Assoc
  import opened Entries
  import opened OrderedMaps
  import opened Journals
  import opened Operations
  import LruModel

  class Shard {
    var cap: nat
    const entries: OrderedMap<CacheKey, CacheEntry>
    var putCount: nat
    var purgeCursor: nat

    ghost predicate Valid()
      reads this, entries
    {
      entries.Valid()
    }

    ghost function Model(): LruModel.Shard
      reads this, entries
      requires Valid()
    {
      LruModel.Shard(cap, entries.Contents(), putCount, purgeCursor)
    }

    constructor (cap: nat)
      ensures Valid() && fresh(entries) && Model() == LruModel.Shard(cap, [], 0, 0)
    {
      this.cap := cap;
      entries := new OrderedMap();
      putCount, purgeCursor := 0, 0;
    }

    /** Drops pairs from the head until the shard fits, collecting their keys. */
    method EvictLocked() returns (out: seq<CacheKey>)
      requires Valid()
      modifies entries
      ensures Valid()
      ensures Model() == old(Model()).(items := LruModel.Fit(old(Model()).items, cap))
      ensures out == LruModel.Evicted(old(Model()).items, cap)
    {
      hide OrderedMap.Valid, OrderedMap.Contents, OrderedMap.PairAt;
      out := [];
      ghost var items := entries.Contents();
      var n := entries.Len();
      while n > cap
        invariant Valid() && n == |entries.Contents()|
        invariant |out| <= |items| && entries.Contents() == items[|out|..] && out == KeySeq(items[..|out|])
        invariant |out| <= LruModel.Overflow(items, cap)
        decreases n
      {
        var r := entries.PopFront();
        out := out + [r.value.0];
        n := entries.Len();
      }
    }

    method Purge(now: real, sw: real)
      requires Valid()
      modifies this`purgeCursor, entries
      ensures Valid() && Model() == LruModel.Purge(old(Model()), now, sw)
    {
      hide OrderedMap.Valid, OrderedMap.Contents, OrderedMap.PairAt;
      SweepFront(now, sw);
      var n := entries.Len();
      if n > 0 {
        var pos := purgeCursor;
        if pos >= n {
          pos := 0;
        }
        var step := if LruModel.PURGE_SCAN_STEP < n then LruModel.PURGE_SCAN_STEP else n;
        pos := if step >= n then 0 else pos;
        Scan(pos, step, now, sw);
        purgeCursor := (pos + step) % n;
      }
    }

    /** Drops the leading run of removable entries. */
    method SweepFront(now: real, sw: real)
      requires Valid()
      modifies entries
      ensures Valid() && entries.Contents() == LruModel.Swept(old(entries.Contents()), now, sw)
    {
      var front := entries.Front();
      while front.Some? && Removable(front.value.1, now, sw)
        invariant Valid()
        invariant front == if entries.Contents() == [] then None else Some(entries.Contents()[0])
        invariant LruModel.Swept(entries.Contents(), now, sw) == LruModel.Swept(old(entries.Contents()), now, sw)
        decreases |entries.Contents()|
      {
        var _ := entries.PopFront();
        front := entries.Front();
      }
    }

    /** Looks at the slots of up to `step` pairs from `pos` on and empties those
        whose entry is removable. */
    method Scan(pos: nat, step: nat, now: real, sw: real)
      requires Valid() && pos <= |entries.Contents()|
      modifies entries
      ensures Valid()
      ensures var items := old(entries.Contents());
              var end := LruModel.Min(pos + step, |items|);
              entries.Contents() == items[..pos] + LruModel.Kept(items[pos..end], now, sw) + items[end..]
    {
      hide OrderedMap.Valid, OrderedMap.Contents, OrderedMap.PairAt;
      hide LruModel.Kept, Removable, Without, ScannedTo;
      ghost var items := entries.Contents();
      ghost var end := LruModel.Min(pos + step, |items|);
      entries.ContentsDistinct();
      var sampled := entries.RangeIndices(pos, step);
      var j := 0;
      ScanBounds(items, pos, end, now, sw);
      while j < |sampled|
        invariant 0 <= j <= |sampled| == end - pos
        invariant Valid()
        invariant entries.Contents() == ScannedTo(items, pos, pos + j, now, sw)
        invariant forall m {:trigger sampled[m]} :: j <= m < |sampled| ==>
                  entries.PairAt(sampled[m]) == Some(items[pos + m])
      {
        entries.ContentsDistinct();
        ScanStep(items, pos, pos + j, now, sw);
        var e := entries.ValueAt(sampled[j]);
        if e.Some? && Removable(e.value, now, sw) {
          assert forall m {:trigger sampled[m]} :: j < m < |sampled| ==> items[pos + m].0 != items[pos + j].0;
          var _ := entries.RemoveIndex(sampled[j]);
        }
        j := j + 1;
      }
    }

    /** The list with positions `pos..m` already looked at. */
    static ghost function ScannedTo(items: Items, pos: nat, m: nat, now: real, sw: real): Items
      requires pos <= m <= |items|
    {
      items[..pos] + LruModel.Kept(items[pos..m], now, sw) + items[m..]
    }

    static lemma ScanBounds(items: Items, pos: nat, end: nat, now: real, sw: real)
      requires pos <= end <= |items|
      ensures ScannedTo(items, pos, pos, now, sw) == items
      ensures ScannedTo(items, pos, end, now, sw)
           == items[..pos] + LruModel.Kept(items[pos..end], now, sw) + items[end..]
    {
      assert items[pos..pos] == [];
    }

    static lemma ScanStep(items: Items, pos: nat, m: nat, now: real, sw: real)
      requires pos <= m < |items| && Distinct(ScannedTo(items, pos, m, now, sw))
      ensures ScannedTo(items, pos, m + 1, now, sw)
           == if Removable(items[m].1, now, sw) then Without(ScannedTo(items, pos, m, now, sw), items[m].0)
              else ScannedTo(items, pos, m, now, sw)
    {
      var kept, p := LruModel.Kept(items[pos..m], now, sw), items[m];
      assert items[pos..m + 1] == items[pos..m] + [p];
      LruModel.KeptAppend(items[pos..m], p, now, sw);
      assert items[m..] == [p] + items[m + 1..];
      var before := items[..pos] + kept;
      assert ScannedTo(items, pos, m, now, sw) == before + [p] + items[m + 1..];
      WithoutAt(before, p, items[m + 1..]);
    }

    method Put(k: CacheKey, e: CacheEntry, now: real, sw: real) returns (evicted: seq<CacheKey>)
      requires Valid()
      modifies this`putCount, this`purgeCursor, entries
      ensures Valid() && Model() == LruModel.ShardPut(old(Model()), k, e, now, sw)
      ensures evicted == LruModel.Evicted(PutBack(old(Model()).items, k, e), cap)
    {
      hide OrderedMap.Valid, OrderedMap.Contents, LruModel.Purge, LruModel.Fit, LruModel.Evicted, PutBack;
      entries.Insert(k, e);
      evicted := EvictLocked();
      putCount := putCount + 1;
      if putCount % 32 == 0 {
        Purge(now, sw);
      }
    }

    method Get(k: CacheKey, now: real, sw: real) returns (r: Option<CacheEntry>)
      requires Valid()
      modifies entries
      ensures Valid() && (Model(), r) == LruModel.ShardGet(old(Model()), k, now, sw)
    {
      hide OrderedMap.Valid, OrderedMap.Contents;
      r := entries.Get(k);
      if r.Some? {
        if r.value.expiresAt <= now {
          if sw <= 0.0 {
            var _ := entries.Remove(k);
          }
          r := None;
        } else {
          entries.MoveToEnd(k);
        }
      }
    }

    method GetStale(k: CacheKey, now: real, window: real) returns (r: Option<CacheEntry>)
      requires Valid()
      modifies entries
      ensures Valid() && (Model(), r) == LruModel.ShardGetStale(old(Model()), k, now, window)
    {
      hide OrderedMap.Valid, OrderedMap.Contents;
      r := entries.Get(k);
      if r.None? {
        return;
      }
      var exp := r.value.expiresAt;
      if exp > now {
        return None;
      }
      if now - exp > window {
        var _ := entries.Remove(k);
        return None;
      }
      entries.MoveToEnd(k);
    }

    method Peek(k: CacheKey, now: real) returns (r: Option<CacheEntry>)
      requires Valid()
      modifies entries
      ensures Valid() && (Model(), r) == LruModel.ShardPeek(old(Model()), k, now)
    {
      hide OrderedMap.Valid, OrderedMap.Contents;
      r := entries.Get(k);
      if r.Some? && r.value.expiresAt <= now {
        var _ := entries.Remove(k);
        r := None;
      }
    }

    method Delete(k: CacheKey)
      requires Valid()
      modifies entries
      ensures Valid() && Model() == LruModel.ShardDelete(old(Model()), k)
    {
      hide OrderedMap.Valid, OrderedMap.Contents;
      var _ := entries.Remove(k);
    }

    method Clear()
      requires Valid()
      modifies entries
      ensures Valid() && Model() == old(Model()).(items := [])
    {
      entries.Clear();
    }

    method Resize(cap: nat) returns (evicted: seq<CacheKey>)
      requires Valid()
      modifies this`cap, entries
      ensures Valid() && Model() == LruModel.ShardResize(old(Model()), cap)
      ensures evicted == LruModel.Evicted(old(Model()).items, cap)
    {
      hide OrderedMap.Valid, OrderedMap.Contents;
      this.cap := cap;
      evicted := EvictLocked();
    }
  }

  class LruCache {
    const hash: CacheKey -> nat
    const group: Option<string>
    const shards: seq<Shard>
    var totalCap: nat
    var staleWindow: nat
    var journal: CacheJournal?

    /** All shards and their maps. */
    ghost const repr: set<object>

    /** Shards are separate objects with separate maps. */
    ghost predicate Shape() {
      && |shards| == LruModel.SHARDS
      && (forall i :: 0 <= i < |shards| ==> shards[i] in repr && shards[i].entries in repr)
      && (forall i, j :: 0 <= i < j < |shards| ==> shards[i] != shards[j] && shards[i].entries != shards[j].entries)
    }

    ghost predicate ShardsValid()
      requires Shape()
      reads repr
    {
      forall i :: 0 <= i < |shards| ==> shards[i].Valid()
    }

    ghost function ShardModels(): (r: seq<LruModel.Shard>)
      requires Shape() && ShardsValid()
      reads repr
      ensures |r| == |shards| && forall i :: 0 <= i < |r| ==> r[i] == shards[i].Model()
    {
      seq(|shards|, i requires 0 <= i < |shards| && shards[i].Valid() && Shape() reads repr => shards[i].Model())
    }

    ghost function Model(): LruModel.Lru
      requires Shape() && ShardsValid()
      reads this, repr
    {
      LruModel.Lru(totalCap, ShardModels(), staleWindow, group)
    }

    ghost predicate Valid()
      reads this, repr
    {
      && this !in repr
      && Shape() && ShardsValid()
      && LruModel.Valid(Model(), hash)
      && (journal != null ==> journal !in repr)
    }

    constructor (capacity: nat, group: Option<string>, hash: CacheKey -> nat)
      ensures Valid() && fresh(repr) && journal == null
      ensures Model() == LruModel.Fresh(capacity, group) && this.hash == hash
    {
      var cap := ClampCapacity(capacity);
      var made: seq<Shard> := [];
      ghost var objs: set<object> := {};
      while |made| < LruModel.SHARDS
        invariant |made| <= LruModel.SHARDS && fresh(objs)
        invariant forall i :: 0 <= i < |made| ==> made[i] in objs && made[i].entries in objs && made[i].Valid()
        invariant forall i :: 0 <= i < |made| ==> made[i].Model() == LruModel.Shard(LruModel.ShardCap(cap, i), [], 0, 0)
        invariant forall i, j :: 0 <= i < j < |made| ==> made[i] != made[j] && made[i].entries != made[j].entries
        decreases LruModel.SHARDS - |made|
      {
        hide LruModel.ShardCap;
        var s := new Shard(LruModel.ShardCap(cap, |made|));
        made := made + [s];
        objs := objs + {s, s.entries};
      }
      this.hash, this.group, shards := hash, group, made;
      totalCap, staleWindow, journal := cap, 0, null;
      repr := objs;
      new;
      LruModel.FreshValid(capacity, group, hash);
      assert Model() == LruModel.Fresh(capacity, group);
    }

    function JournalKey(k: CacheKey): CacheKey {
      if group.Some? then k.(group := group) else k
    }

    method Put(k: CacheKey, value: CacheEntry, now: real)
      requires Valid()
      modifies repr, journal
      ensures Valid()
      ensures var e := if journal == null then value else Stamped(value, old(journal.lastSeq));
              var r := old(LruModel.Put(Model(), hash, k, e, now));
              && Model() == r.state
              && (journal != null ==>
                    && journal.lastSeq == old(journal.lastSeq) + 1 + |r.evicted|
                    && journal.queue == old(journal.queue) +
                         if old(journal.Listening())
                         then PutBatch(JournalKey(k), e, Mapped(r.evicted), old(journal.lastSeq)) else [])
      ensures journal != null ==> journal.enabled == old(journal.enabled) && journal.suspended == old(journal.suspended)
      ensures journal == old(journal)
    {
      hide Shape, ShardsValid, Model, LruModel.Put, LruModel.Valid;
      var e := value;
      if journal != null {
        var s := journal.NextSeq();
        e := value.(seqNo := s);
      }
      var evicted := PutLocked(k, e, now);
      if journal != null {
        journal.Evictions(Mapped(evicted), Capacity);
        journal.Send(PutEvent(e.seqNo, JournalKey(k), e));
      }
    }

    /** The part of a put inside the shard. */
    method PutLocked(k: CacheKey, e: CacheEntry, now: real) returns (evicted: seq<CacheKey>)
      requires Valid()
      modifies repr
      ensures Valid() && Model() == old(LruModel.Put(Model(), hash, k, e, now)).state
      ensures evicted == old(LruModel.Put(Model(), hash, k, e, now)).evicted
    {
      hide Shard.Valid, LruModel.ShardPut, LruModel.Evicted, LruModel.Valid;
      LruModel.ApplyValid(Model(), hash, Op.Put(k, e, now));
      var i := LruModel.Index(hash, k);
      evicted := shards[i].Put(k, e, now, staleWindow as real);
      assert ShardModels() == old(ShardModels())[i := shards[i].Model()];
    }

    function Mapped(keys: seq<CacheKey>): (r: seq<CacheKey>)
      ensures |r| == |keys| && forall i :: 0 <= i < |r| ==> r[i] == JournalKey(keys[i])
    {
      seq(|keys|, i requires 0 <= i < |keys| => JournalKey(keys[i]))
    }

    method Get(k: CacheKey, now: real) returns (r: Option<CacheEntry>)
      requires Valid()
      modifies repr
      ensures Valid() && Outcome(Model(), [], r) == old(LruModel.Get(Model(), hash, k, now))
    {
      hide Shard.Valid, LruModel.ShardGet, LruModel.Valid;
      LruModel.ApplyValid(Model(), hash, Op.Get(k, now));
      var i := LruModel.Index(hash, k);
      r := shards[i].Get(k, now, staleWindow as real);
      assert ShardModels() == old(ShardModels())[i := shards[i].Model()];
    }

    method GetStale(k: CacheKey, now: real, window: real) returns (r: Option<CacheEntry>)
      requires Valid()
      modifies repr
      ensures Valid() && Outcome(Model(), [], r) == old(LruModel.GetStale(Model(), hash, k, now, window))
    {
      hide Shard.Valid, LruModel.ShardGetStale, LruModel.Valid;
      LruModel.ApplyValid(Model(), hash, Op.GetStale(k, now, window));
      var i := LruModel.Index(hash, k);
      r := shards[i].GetStale(k, now, window);
      assert ShardModels() == old(ShardModels())[i := shards[i].Model()];
    }

    method Peek(k: CacheKey, now: real) returns (r: Option<CacheEntry>)
      requires Valid()
      modifies repr
      ensures Valid() && Outcome(Model(), [], r) == old(LruModel.Peek(Model(), hash, k, now))
    {
      hide Shard.Valid, LruModel.ShardPeek, LruModel.Valid;
      LruModel.ApplyValid(Model(), hash, Op.Peek(k, now));
      var i := LruModel.Index(hash, k);
      r := shards[i].Peek(k, now);
      assert ShardModels() == old(ShardModels())[i := shards[i].Model()];
    }

    method Delete(k: CacheKey)
      requires Valid()
      modifies repr
      ensures Valid() && Outcome(Model(), [], None) == old(LruModel.Delete(Model(), hash, k))
    {
      hide Shard.Valid, LruModel.ShardDelete, LruModel.Valid;
      LruModel.ApplyValid(Model(), hash, Op.Delete(k));
      var i := LruModel.Index(hash, k);
      shards[i].Delete(k);
      assert ShardModels() == old(ShardModels())[i := shards[i].Model()];
    }

    method Clear()
      requires Valid()
      modifies repr
      ensures Valid() && Model() == old(LruModel.Clear(Model())).state
    {
      LruModel.ApplyValid(Model(), hash, Op.Clear);
      hide LruModel.Valid, Shape, ShardsValid;
      ShapeLength();
      ghost var before := ShardModels();
      var i := 0;
      while i < |shards|
        invariant 0 <= i <= |shards| && ShardsValid()
        invariant |ShardModels()| == |before| && forall j :: 0 <= j < |before| ==>
                    ShardModels()[j] == if j < i then before[j].(items := []) else before[j]
      {
        ClearShard(i);
        i := i + 1;
      }
      assert Model() == old(LruModel.Clear(Model())).state;
    }

    method ClearShard(i: nat)
      requires Shape() && ShardsValid() && i < |shards|
      modifies repr
      ensures ShardsValid() && ShardModels() == old(ShardModels())[i := old(ShardModels())[i].(items := [])]
    {
      hide Shard.Valid;
      shards[i].Clear();
      assert ShardModels() == old(ShardModels())[i := shards[i].Model()];
    }

    method ResizeShard(i: nat, cap: nat) returns (out: seq<CacheKey>)
      requires Shape() && ShardsValid() && i < |shards|
      modifies repr
      ensures ShardsValid()
      ensures ShardModels() == old(ShardModels())[i := LruModel.ShardResize(old(ShardModels())[i], cap)]
      ensures out == LruModel.Evicted(old(ShardModels())[i].items, cap)
    {
      hide Shard.Valid, LruModel.ShardResize, LruModel.Evicted;
      out := shards[i].Resize(cap);
      assert ShardModels() == old(ShardModels())[i := shards[i].Model()];
    }

    lemma ShapeLength()
      requires Shape()
      ensures |shards| == LruModel.SHARDS
    {
    }

    /** Resizes shard after shard; the evictions are journalled once all are done. */
    method SetCapacity(n: nat)
      requires Valid()
      modifies this`totalCap, repr, journal
      ensures Valid()
      ensures var r := old(LruModel.SetCapacity(Model(), n));
              && Model() == r.state
              && (journal != null ==>
                    && journal.lastSeq == old(journal.lastSeq) + |r.evicted|
                    && journal.queue == old(journal.queue) +
                         if old(journal.Listening()) then EvictBatch(Mapped(r.evicted), Resize,
                             old(journal.lastSeq) + 1) else [])
      ensures journal != null ==> journal.enabled == old(journal.enabled) && journal.suspended == old(journal.suspended)
      ensures journal == old(journal)
    {
      hide Shape, ShardsValid, Model, LruModel.SetCapacity, LruModel.Valid;
      var evicted := ResizeShards(n);
      if journal != null {
        journal.Evictions(Mapped(evicted), Resize);
      }
    }

    method ResizeShards(n: nat) returns (evicted: seq<CacheKey>)
      requires Valid()
      modifies this`totalCap, repr
      ensures Valid() && Outcome(Model(), evicted, None) == old(LruModel.SetCapacity(Model(), n))
    {
      hide LruModel.Valid, LruModel.ResizedTo, LruModel.EvictedFrom, Shape, ShardsValid;
      LruModel.SetCapacityValid(Model(), hash, n);
      totalCap := ClampCapacity(n);
      evicted := ResizeEach(ClampCapacity(n));
    }

    method ResizeEach(cap: nat) returns (evicted: seq<CacheKey>)
      requires Shape() && ShardsValid()
      modifies repr
      ensures ShardsValid()
      ensures ShardModels() == old(LruModel.ResizedTo(ShardModels(), cap, |ShardModels()|))
      ensures evicted == old(LruModel.EvictedFrom(ShardModels(), cap, 0))
    {
      hide LruModel.ShardCap, LruModel.Evicted, LruModel.ShardResize, LruModel.ResizedTo, LruModel.EvictedFrom, Shape,
           ShardsValid;
      ghost var before := ShardModels();
      LruModel.ResizedEnds(before, cap);
      evicted := [];
      var i := 0;
      while i < |shards|
        invariant 0 <= i <= |shards| && ShardsValid()
        invariant ShardModels() == LruModel.ResizedTo(before, cap, i)
        invariant evicted + LruModel.EvictedFrom(before, cap, i) == LruModel.EvictedFrom(before, cap, 0)
      {
        LruModel.ResizedStep(before, cap, i, evicted);
        var out := ResizeShard(i, LruModel.ShardCap(cap, i));
        evicted := evicted + out;
        i := i + 1;
      }
      assert evicted + [] == evicted;
    }

    lemma Outside()
      requires Valid()
      ensures this !in repr
    {
    }

    method SetStaleWindow(v: nat)
      requires Valid()
      modifies this`staleWindow
      ensures Valid() && Model() == old(Model()).(staleWindow := v)
    {
      staleWindow := v;
    }

    method AttachJournal(j: CacheJournal)
      requires Valid() && j !in repr
      modifies this`journal
      ensures Valid() && journal == j && Model() == old(Model())
    {
      journal := j;
    }
  }
}
