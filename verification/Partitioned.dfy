/** The partitioned cache built on LRU caches, proved to do what PartitionModel says. */
module Partitions {
  import opened Wrappers
  import opened Entries
  import opened Journals
  import opened Operations
  import opened LruCaches
  import Allocation
  import LruModel
  import PartitionModel

  class PartitionedCache {
    const hash: CacheKey -> nat
    const names: seq<string>
    const weights: seq<real>
    const caches: seq<LruCache>
    var totalCap: nat

    /** Every partition writes to this journal. */
    ghost var journal: CacheJournal?
    /** The partitions and all they are made of. */
    ghost const repr: set<object>

    /** The partitions share nothing but the journal. */
    ghost predicate Shape() {
      && |caches| == |names| == |weights|
      && (forall i :: 0 <= i < |caches| ==> caches[i] in repr && caches[i].repr <= repr && caches[i].hash == hash)
      && (forall i, j :: 0 <= i < |caches| && 0 <= j < |caches| && i != j ==> Apart(caches[i], caches[j]))
    }

    static ghost predicate Apart(a: LruCache, b: LruCache) {
      a != b && a.repr !! b.repr && a !in b.repr && b !in a.repr
    }

    ghost predicate CachesValid()
      requires Shape()
      reads repr
    {
      forall i :: 0 <= i < |caches| ==> caches[i].Valid()
    }

    ghost function CacheModels(): (r: seq<LruModel.Lru>)
      requires Shape() && CachesValid()
      reads repr
      ensures |r| == |caches| && forall i :: 0 <= i < |r| ==>
              r[i] == caches[i].Model() && |r[i].shards| == LruModel.SHARDS
    {
      Sharded();
      seq(|caches|, i requires 0 <= i < |caches| && Shape() && caches[i].Valid() reads repr => caches[i].Model())
    }

    ghost function Model(): PartitionModel.Parts
      requires Shape() && CachesValid()
      reads this, repr
    {
      PartitionModel.Parts(totalCap, names, weights, CacheModels())
    }

    ghost predicate Journalled()
      requires Shape()
      reads this, repr
    {
      forall i :: 0 <= i < |caches| ==> caches[i].journal == journal
    }

    ghost predicate Valid()
      reads this, repr
    {
      && this !in repr && (journal != null ==> journal !in repr)
      && Shape() && CachesValid() && Journalled()
      && PartitionModel.Valid(Model(), hash) && PartitionModel.Shaped(Model())
    }

    constructor (capacity: nat, names: seq<string>, raw: seq<real>, hash: CacheKey -> nat)
      requires |names| == |raw| && PartitionModel.DistinctNames(names)
      ensures Valid() && fresh(repr) && journal == null
      ensures Model() == PartitionModel.Fresh(capacity, names, raw) && this.hash == hash
    {
      hide LruCache.Valid, LruCache.Shape, LruCache.ShardsValid, LruCache.Model, LruModel.Valid, LruModel.Fresh, Apart,
           PartitionModel.Valid, Allocation.Normalise, Allocation.Normalised, Allocation.Shares;
      var cap := ClampCapacity(capacity);
      Allocation.NormaliseCorrect(raw);
      var ws := Allocation.Normalise(raw);
      var shares := Allocation.Allocate(ws, cap);
      var made, objs := MakeCaches(names, shares, hash);
      this.hash, this.names, weights, caches, totalCap := hash, names, ws, made, cap;
      journal, repr := null, objs;
      new;
      PartitionModel.FreshValid(capacity, names, raw, hash);
      assert Model() == PartitionModel.Fresh(capacity, names, raw);
      PartitionModel.ValidShaped(Model(), hash);
    }

    static method MakeCaches(names: seq<string>, shares: seq<nat>, hash: CacheKey -> nat)
      returns (made: seq<LruCache>, ghost objs: set<object>)
      requires |names| == |shares|
      ensures |made| == |names| && fresh(objs)
      ensures forall i :: 0 <= i < |made| ==>
                && made[i] in objs && made[i].repr <= objs && made[i].hash == hash && made[i].journal == null
                && made[i].Valid() && made[i].Model() == LruModel.Fresh(shares[i], Some(names[i]))
      ensures forall i, j :: 0 <= i < |made| && 0 <= j < |made| && i != j ==> Apart(made[i], made[j])
    {
      hide LruCache.Shape, LruCache.ShardsValid, LruCache.Model, LruModel.Valid, LruModel.Fresh;
      made := [];
      objs := {};
      while |made| < |names|
        invariant |made| <= |names| && fresh(objs)
        invariant forall i :: 0 <= i < |made| ==>
                    && made[i] in objs && made[i].repr <= objs && made[i].hash == hash && made[i].journal == null
                    && made[i].Valid() && made[i].Model() == LruModel.Fresh(shares[i], Some(names[i]))
        invariant forall i, j :: 0 <= i < |made| && 0 <= j < |made| && i != j ==> Apart(made[i], made[j])
        decreases |names| - |made|
      {
        var c := new LruCache(shares[|made|], Some(names[|made|]), hash);
        made := made + [c];
        objs := objs + {c} + c.repr;
      }
    }

    /** The partition at `i` has a footprint of its own. */
    lemma At(i: nat)
      requires Shape() && i < |caches|
      ensures caches[i] in repr && caches[i].repr <= repr && caches[i].hash == hash && |caches| == |names|
    {
    }

    lemma Named()
      requires Shape() && CachesValid()
      ensures Model().names == names && |Model().caches| == |caches| == |names|
    {
    }

    lemma Sharded()
      requires Shape() && CachesValid()
      ensures forall i :: 0 <= i < |caches| ==> |caches[i].Model().shards| == LruModel.SHARDS
    {
    }

    lemma Same(i: nat)
      requires Shape() && CachesValid() && i < |caches|
      ensures CacheModels()[i] == caches[i].Model()
    {
    }

    method Get(k: CacheKey, now: real) returns (r: Option<CacheEntry>)
      requires Valid()
      modifies repr
      ensures Valid() && Outcome(Model(), [], r) == old(PartitionModel.OnPart(Model(), hash, Op.Get(k, now)))
    {
      PartitionModel.OnPartValid(Model(), hash, Op.Get(k, now));
      PartitionModel.OnPartUnfold(Model(), hash, Op.Get(k, now));
      PartitionModel.InnerOp(Op.Get(k, now));
      hide Shape, CachesValid, Journalled, Model, PartitionModel.Valid, PartitionModel.Shaped, PartitionModel.OnPart,
           PartitionModel.Resolve,
           PartitionModel.InnerKey, PartitionModel.Inner, LruModel.Valid, LruModel.Apply, Allocation.Normalised;
      var i := PartitionModel.Resolve(names, k);
      Named();
      if i == |names| {
        return None;
      }
      r := GetIn(i, PartitionModel.InnerKey(k), now);
    }

    method GetIn(i: nat, k: CacheKey, now: real) returns (r: Option<CacheEntry>)
      requires Shape() && CachesValid() && Journalled() && i < |caches| && this !in repr
      modifies repr
      ensures CachesValid() && Journalled()
      ensures var o := old(LruModel.Apply(Model().caches[i], hash, Op.Get(k, now)));
              Model() == old(Model().(caches := Model().caches[i := o.state])) && r == o.found && o.evicted == []
    {
      hide LruCache.Shape, LruCache.ShardsValid, LruCache.Model, LruModel.Valid, LruModel.Get;
      Same(i);
      r := caches[i].Get(k, now);
      assert CacheModels() == old(CacheModels())[i := caches[i].Model()];
    }

    method GetStale(k: CacheKey, now: real, window: real) returns (r: Option<CacheEntry>)
      requires Valid()
      modifies repr
      ensures Valid() && Outcome(Model(), [], r) == old(PartitionModel.OnPart(Model(), hash,
              Op.GetStale(k, now, window)))
    {
      PartitionModel.OnPartValid(Model(), hash, Op.GetStale(k, now, window));
      PartitionModel.OnPartUnfold(Model(), hash, Op.GetStale(k, now, window));
      PartitionModel.InnerOp(Op.GetStale(k, now, window));
      hide Shape, CachesValid, Journalled, Model, PartitionModel.Valid, PartitionModel.Shaped, PartitionModel.OnPart,
           PartitionModel.Resolve,
           PartitionModel.InnerKey, PartitionModel.Inner, LruModel.Valid, LruModel.Apply, Allocation.Normalised;
      var i := PartitionModel.Resolve(names, k);
      Named();
      if i == |names| {
        return None;
      }
      r := GetStaleIn(i, PartitionModel.InnerKey(k), now, window);
    }

    method GetStaleIn(i: nat, k: CacheKey, now: real, window: real) returns (r: Option<CacheEntry>)
      requires Shape() && CachesValid() && Journalled() && i < |caches| && this !in repr
      modifies repr
      ensures CachesValid() && Journalled()
      ensures var o := old(LruModel.Apply(Model().caches[i], hash, Op.GetStale(k, now, window)));
              Model() == old(Model().(caches := Model().caches[i := o.state])) && r == o.found && o.evicted == []
    {
      hide LruCache.Shape, LruCache.ShardsValid, LruCache.Model, LruModel.Valid, LruModel.GetStale;
      Same(i);
      r := caches[i].GetStale(k, now, window);
      assert CacheModels() == old(CacheModels())[i := caches[i].Model()];
    }

    method Peek(k: CacheKey, now: real) returns (r: Option<CacheEntry>)
      requires Valid()
      modifies repr
      ensures Valid() && Outcome(Model(), [], r) == old(PartitionModel.OnPart(Model(), hash, Op.Peek(k, now)))
    {
      PartitionModel.OnPartValid(Model(), hash, Op.Peek(k, now));
      PartitionModel.OnPartUnfold(Model(), hash, Op.Peek(k, now));
      PartitionModel.InnerOp(Op.Peek(k, now));
      hide Shape, CachesValid, Journalled, Model, PartitionModel.Valid, PartitionModel.Shaped, PartitionModel.OnPart,
           PartitionModel.Resolve,
           PartitionModel.InnerKey, PartitionModel.Inner, LruModel.Valid, LruModel.Apply, Allocation.Normalised;
      var i := PartitionModel.Resolve(names, k);
      Named();
      if i == |names| {
        return None;
      }
      r := PeekIn(i, PartitionModel.InnerKey(k), now);
    }

    method PeekIn(i: nat, k: CacheKey, now: real) returns (r: Option<CacheEntry>)
      requires Shape() && CachesValid() && Journalled() && i < |caches| && this !in repr
      modifies repr
      ensures CachesValid() && Journalled()
      ensures var o := old(LruModel.Apply(Model().caches[i], hash, Op.Peek(k, now)));
              Model() == old(Model().(caches := Model().caches[i := o.state])) && r == o.found && o.evicted == []
    {
      hide LruCache.Shape, LruCache.ShardsValid, LruCache.Model, LruModel.Valid, LruModel.Peek;
      Same(i);
      r := caches[i].Peek(k, now);
      assert CacheModels() == old(CacheModels())[i := caches[i].Model()];
    }

    method Delete(k: CacheKey)
      requires Valid()
      modifies repr
      ensures Valid() && Outcome(Model(), [], None) == old(PartitionModel.OnPart(Model(), hash, Op.Delete(k)))
    {
      PartitionModel.OnPartValid(Model(), hash, Op.Delete(k));
      PartitionModel.OnPartUnfold(Model(), hash, Op.Delete(k));
      PartitionModel.InnerOp(Op.Delete(k));
      hide Shape, CachesValid, Journalled, Model, PartitionModel.Valid, PartitionModel.Shaped, PartitionModel.OnPart,
           PartitionModel.Resolve,
           PartitionModel.InnerKey, PartitionModel.Inner, LruModel.Valid, LruModel.Apply, Allocation.Normalised;
      var i := PartitionModel.Resolve(names, k);
      Named();
      if i == |names| {
        return;
      }
      DeleteIn(i, PartitionModel.InnerKey(k));
    }

    method DeleteIn(i: nat, k: CacheKey)
      requires Shape() && CachesValid() && Journalled() && i < |caches| && this !in repr
      modifies repr
      ensures CachesValid() && Journalled()
      ensures var o := old(LruModel.Apply(Model().caches[i], hash, Op.Delete(k)));
              Model() == old(Model().(caches := Model().caches[i := o.state])) && o.evicted == []
    {
      hide LruCache.Shape, LruCache.ShardsValid, LruCache.Model, LruModel.Valid, LruModel.Delete;
      Same(i);
      caches[i].Delete(k);
      assert CacheModels() == old(CacheModels())[i := caches[i].Model()];
    }

    /** A put reaches the partition's LRU without its group; the journal gets it back. */
    method Put(k: CacheKey, value: CacheEntry, now: real)
      requires Valid()
      modifies repr, journal
      ensures Valid() && journal == old(journal)
      ensures var e := if journal == null || names == [] then value else Stamped(value, old(journal.lastSeq));
              var r := old(PartitionModel.OnPart(Model(), hash, Op.Put(k, e, now)));
              && Model() == r.state
              && (journal != null ==>
                    && journal.lastSeq == old(journal.lastSeq) + (if names == [] then 0 else 1 + |r.evicted|)
                    && journal.queue == old(journal.queue) +
                         if old(journal.Listening()) && names != []
                         then PutBatch(PartitionModel.JournalKey(names, k), e, r.evicted, old(journal.lastSeq)) else [])
      ensures journal != null ==> journal.enabled == old(journal.enabled) && journal.suspended == old(journal.suspended)
    {
      ghost var e := if journal == null || names == [] then value else Stamped(value, journal.lastSeq);
      PartitionModel.OnPartValid(Model(), hash, Op.Put(k, e, now));
      PartitionModel.OnPartUnfold(Model(), hash, Op.Put(k, e, now));
      PartitionModel.InnerOp(Op.Put(k, e, now));
      PartitionModel.InnerNamed(names, k);
      hide Shape, CachesValid, Journalled, Model, PartitionModel.Valid, PartitionModel.Shaped, PartitionModel.OnPart,
           PartitionModel.Resolve,
           PartitionModel.InnerKey, PartitionModel.JournalKey, PartitionModel.Inner, LruModel.Valid, LruModel.Apply,
               Allocation.Normalised;
      var i := PartitionModel.Resolve(names, k);
      Named();
      if i == |names| {
        return;
      }
      Group(i);
      PutIn(i, PartitionModel.InnerKey(k), value, now, e, Model());
    }

    lemma Group(i: nat)
      requires Valid() && i < |names|
      ensures caches[i].group == Some(names[i])
    {
      assert PartitionModel.PartValid(Model(), hash, i);
    }

    method PutIn(i: nat, k: CacheKey, value: CacheEntry, now: real, ghost e: CacheEntry, ghost p: PartitionModel.Parts)
      requires Shape() && CachesValid() && Journalled() && i < |caches| && this !in repr
               && (journal != null ==> journal !in repr)
      requires caches[i].group == Some(names[i])
      requires e == if journal == null then value else Stamped(value, journal.lastSeq)
      requires p == Model() && |p.caches| == |caches| && |p.caches[i].shards| == LruModel.SHARDS
      modifies repr, journal
      ensures CachesValid() && Journalled()
      ensures var o := LruModel.Apply(p.caches[i], hash, Op.Put(k, e, now));
              && Model() == p.(caches := p.caches[i := o.state])
              && (journal != null ==>
                    && journal.lastSeq == old(journal.lastSeq) + 1 + |o.evicted|
                    && journal.queue == old(journal.queue) +
                         if old(journal.Listening())
                         then PutBatch(k.(group := Some(names[i])), e, PartitionModel.Named(names[i], o.evicted),
                             old(journal.lastSeq)) else [])
      ensures journal != null ==> journal.enabled == old(journal.enabled) && journal.suspended == old(journal.suspended)
    {
      hide LruCache.Shape, LruCache.ShardsValid, LruCache.Model, LruModel.Valid, LruModel.Put;
      Same(i);
      ghost var o := LruModel.Put(p.caches[i], hash, k, e, now);
      caches[i].Put(k, value, now);
      assert CacheModels() == old(CacheModels())[i := caches[i].Model()];
      assert caches[i].Mapped(o.evicted) == PartitionModel.Named(names[i], o.evicted);
    }

    method Clear()
      requires Valid()
      modifies repr
      ensures Valid() && Model() == old(PartitionModel.Clear(Model())).state
    {
      PartitionModel.ClearEffect(Model(), hash, CacheKey(None, "", ""));
      PartitionModel.ValidShaped(PartitionModel.Clear(Model()).state, hash);
      hide PartitionModel.Valid, PartitionModel.Shaped, PartitionModel.Stored, LruModel.Clear, Shape, CachesValid,
           Journalled;
      ghost var before := CacheModels();
      Named();
      var i := 0;
      while i < |caches|
        invariant 0 <= i <= |caches| && CachesValid() && Journalled()
        invariant forall j :: 0 <= j < |before| ==> CacheModels()[j] == if j < i then LruModel.Clear(before[j]).state
                  else before[j]
      {
        ClearPart(i);
        i := i + 1;
      }
      assert CacheModels() == PartitionModel.Clear(old(Model())).state.caches;
    }

    method ClearPart(i: nat)
      requires Shape() && CachesValid() && Journalled() && i < |caches| && this !in repr
      modifies repr
      ensures CachesValid() && Journalled()
      ensures CacheModels() == old(CacheModels())[i := LruModel.Clear(old(CacheModels())[i]).state]
    {
      hide LruCache.Shape, LruCache.ShardsValid, LruCache.Model, LruModel.Valid, LruModel.Clear;
      Same(i);
      caches[i].Clear();
      assert CacheModels() == old(CacheModels())[i := caches[i].Model()];
    }

    /** Shares are worked out anew; every partition is resized and journals by itself. */
    method SetCapacity(n: nat)
      requires Valid()
      modifies this`totalCap, repr, journal
      ensures Valid() && journal == old(journal)
      ensures var r := old(PartitionModel.SetCapacity(Model(), n));
              && Model() == r.state
              && (journal != null ==>
                    && journal.lastSeq == old(journal.lastSeq) + |r.evicted|
                    && journal.queue == old(journal.queue) +
                         if old(journal.Listening()) then EvictBatch(r.evicted, Resize, old(journal.lastSeq) + 1)
                             else [])
      ensures journal != null ==> journal.enabled == old(journal.enabled) && journal.suspended == old(journal.suspended)
    {
      hide PartitionModel.Valid, PartitionModel.Shaped, PartitionModel.SetCapacity, Shape, CachesValid, Journalled,
           Model;
      PartitionModel.SetCapacityValid(Model(), hash, n);
      PartitionModel.ValidShaped(PartitionModel.SetCapacity(Model(), n).state, hash);
      AllGroups();
      Named();
      ResizeLocked(n, Model());
    }

    method ResizeLocked(n: nat, ghost p: PartitionModel.Parts)
      requires Shape() && CachesValid() && Journalled() && this !in repr && (journal != null ==> journal !in repr)
      requires p == Model() && PartitionModel.Shaped(p)
      requires forall i :: 0 <= i < |caches| ==> caches[i].group == Some(names[i])
      modifies this`totalCap, repr, journal
      ensures CachesValid() && Journalled()
      ensures var r := PartitionModel.SetCapacity(p, n);
              && Model() == r.state
              && (journal != null ==>
                    && journal.lastSeq == old(journal.lastSeq) + |r.evicted|
                    && journal.queue == old(journal.queue) +
                         if old(journal.Listening()) then EvictBatch(r.evicted, Resize, old(journal.lastSeq) + 1)
                             else [])
      ensures journal != null ==> journal.enabled == old(journal.enabled) && journal.suspended == old(journal.suspended)
    {
      hide PartitionModel.ResizedTo, PartitionModel.EvictedTo, Shape, CachesValid, Allocation.Shares,
           Allocation.Normalised, LruModel.SetCapacity;
      Named();
      totalCap := ClampCapacity(n);
      var shares := Allocation.Allocate(weights, totalCap);
      ResizeEach(shares);
    }

    lemma AllGroups()
      requires Valid()
      ensures forall i :: 0 <= i < |caches| ==> caches[i].group == Some(names[i])
    {
      forall i | 0 <= i < |caches|
        ensures caches[i].group == Some(names[i])
      {
        Group(i);
      }
    }

    method ResizeEach(shares: seq<nat>)
      requires Shape() && CachesValid() && Journalled() && this !in repr && (journal != null ==> journal !in repr)
      requires |shares| == |caches| && forall i :: 0 <= i < |caches| ==> caches[i].group == Some(names[i])
      modifies repr, journal
      ensures CachesValid() && Journalled()
      ensures CacheModels() == old(PartitionModel.ResizedTo(CacheModels(), shares, |CacheModels()|))
      ensures var evicted := old(PartitionModel.EvictedTo(names, CacheModels(), shares, |caches|));
              journal != null ==>
                && journal.lastSeq == old(journal.lastSeq) + |evicted|
                && journal.queue == old(journal.queue) +
                     if old(journal.Listening()) then EvictBatch(evicted, Resize, old(journal.lastSeq) + 1) else []
      ensures journal != null ==> journal.enabled == old(journal.enabled) && journal.suspended == old(journal.suspended)
    {
      hide Shape, CachesValid, Journalled, PartitionModel.ResizedTo, PartitionModel.EvictedTo, LruModel.SetCapacity;
      ghost var p := Model();
      Named();
      PartitionModel.ResizedNone(p, shares);
      var i := 0;
      while i < |caches|
        invariant 0 <= i <= |caches| && CachesValid() && Journalled()
        invariant CacheModels() == PartitionModel.ResizedTo(p.caches, shares, i)
        invariant journal != null ==>
                    && journal.lastSeq == old(journal.lastSeq)
                       + |PartitionModel.EvictedTo(p.names, p.caches, shares, i)|
                    && journal.enabled == old(journal.enabled) && journal.suspended == old(journal.suspended)
                    && journal.queue == old(journal.queue) +
                         if old(journal.Listening())
                         then EvictBatch(PartitionModel.EvictedTo(p.names, p.caches, shares, i), Resize,
                             old(journal.lastSeq) + 1) else []
      {
        PartitionModel.ResizedNext(p, shares, i);
        if journal != null {
          EvictBatchConcat(PartitionModel.EvictedTo(p.names, p.caches, shares, i),
                           PartitionModel.Named(names[i], LruModel.SetCapacity(p.caches[i], shares[i]).evicted),
                           Resize, old(journal.lastSeq) + 1);
        }
        ResizePart(i, shares[i]);
        i := i + 1;
      }
    }

    method ResizePart(i: nat, share: nat)
      requires Shape() && CachesValid() && Journalled() && i < |caches| && this !in repr
               && (journal != null ==> journal !in repr)
      requires caches[i].group == Some(names[i])
      modifies repr, journal
      ensures CachesValid() && Journalled()
      ensures var o := LruModel.SetCapacity(old(CacheModels())[i], share);
              && CacheModels() == old(CacheModels())[i := o.state]
              && (journal != null ==>
                    && journal.lastSeq == old(journal.lastSeq) + |o.evicted|
                    && journal.queue == old(journal.queue) +
                         if old(journal.Listening())
                         then EvictBatch(PartitionModel.Named(names[i], o.evicted), Resize, old(journal.lastSeq) + 1)
                             else [])
      ensures journal != null ==> journal.enabled == old(journal.enabled) && journal.suspended == old(journal.suspended)
    {
      hide LruCache.Shape, LruCache.ShardsValid, LruCache.Model, LruModel.Valid, LruModel.SetCapacity;
      Same(i);
      ghost var o := LruModel.SetCapacity(caches[i].Model(), share);
      caches[i].SetCapacity(share);
      assert CacheModels() == old(CacheModels())[i := caches[i].Model()];
      assert caches[i].Mapped(o.evicted) == PartitionModel.Named(names[i], o.evicted);
    }

    /** Every partition gets the window; nothing is journalled. */
    method SetStaleWindow(v: nat)
      requires Valid()
      modifies repr
      ensures Valid() && Model() == old(PartitionModel.SetStaleWindow(Model(), v)).state
    {
      PartitionModel.WindowEffect(Model(), hash, v, CacheKey(None, "", ""));
      PartitionModel.ValidShaped(PartitionModel.SetStaleWindow(Model(), v).state, hash);
      hide PartitionModel.Valid, PartitionModel.Shaped, PartitionModel.WindowTo, LruModel.SetStaleWindow, Shape,
           CachesValid, Journalled;
      ghost var before := CacheModels();
      Named();
      PartitionModel.WindowNone(before, v);
      var i := 0;
      while i < |caches|
        invariant 0 <= i <= |caches| && CachesValid() && Journalled()
        invariant CacheModels() == PartitionModel.WindowTo(before, v, i)
      {
        PartitionModel.WindowNext(before, v, i);
        WindowPart(i, v);
        i := i + 1;
      }
    }

    method WindowPart(i: nat, v: nat)
      requires Shape() && CachesValid() && Journalled() && i < |caches| && this !in repr
      modifies repr
      ensures CachesValid() && Journalled()
      ensures CacheModels() == old(CacheModels())[i := LruModel.SetStaleWindow(old(CacheModels())[i], v).state]
    {
      hide LruCache.Shape, LruCache.ShardsValid, LruModel.Valid;
      Same(i);
      caches[i].SetStaleWindow(v);
      assert CacheModels() == old(CacheModels())[i := caches[i].Model()];
    }

    lemma Outside()
      requires Valid()
      ensures this !in repr
    {
    }

    method AttachJournal(j: CacheJournal)
      requires Valid() && j !in repr
      modifies this`journal, repr
      ensures Valid() && journal == j && Model() == old(Model())
    {
      hide Shape, CachesValid, PartitionModel.Valid, PartitionModel.Shaped;
      ghost var before := CacheModels();
      var i := 0;
      while i < |caches|
        invariant 0 <= i <= |caches| && CachesValid() && CacheModels() == before
        invariant forall m :: 0 <= m < i ==> caches[m].journal == j
      {
        AttachPart(i, j);
        i := i + 1;
      }
      journal := j;
    }

    method AttachPart(i: nat, j: CacheJournal)
      requires Shape() && CachesValid() && i < |caches| && j !in repr && this !in repr
      modifies repr
      ensures CachesValid() && CacheModels() == old(CacheModels())
      ensures forall m :: 0 <= m < |caches| ==> caches[m].journal == if m == i then j else old(caches[m].journal)
    {
      hide LruCache.Shape, LruCache.ShardsValid, LruCache.Model, LruModel.Valid;
      Same(i);
      caches[i].AttachJournal(j);
      assert CacheModels() == old(CacheModels());
    }
  }
}
