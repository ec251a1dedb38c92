/** The W-TinyLFU cache built on three ordered maps and a sketch, proved to do what
    TinyModel says. */
module TinyCaches {
  import opened Wrappers
  import opened Assoc
  import opened Entries
  import opened OrderedMaps
  import opened Journals
  import opened Operations
  import opened Sketches
  import TinyModel
  import TinyRuns

  class TinyLfuCache {
    const hash: CacheKey -> nat
    const window: OrderedMap<CacheKey, CacheEntry>
    const probation: OrderedMap<CacheKey, CacheEntry>
    const protected: OrderedMap<CacheKey, CacheEntry>
    const sketch: CmSketch
    const policy: TinyModel.Policy
    var totalCap: nat
    var caps: TinyModel.Caps
    var puts: nat
    var misses: nat
    var staleWindow: nat
    var journal: CacheJournal?

    /** The three maps and the sketch are separate objects. */
    ghost predicate Shape() {
      && window != probation && window != protected && probation != protected
    }

    ghost function Repr(): set<object> {
      {window, probation, protected, sketch, sketch.table}
    }

    ghost predicate PartsValid()
      reads Repr()
    {
      Shape() && window.Valid() && probation.Valid() && protected.Valid() && sketch.Valid()
    }

    ghost function Segs(): TinyModel.Segments
      requires PartsValid()
      reads Repr()
    {
      TinyModel.Segments(window.Contents(), probation.Contents(), protected.Contents())
    }

    ghost function Model(): TinyModel.Tiny
      requires PartsValid()
      reads this, Repr()
    {
      TinyModel.Tiny(totalCap, Segs(), caps, policy, sketch.Model(), puts, misses, staleWindow)
    }

    ghost predicate Valid()
      reads this, Repr()
    {
      && this !in Repr() && journal !in Repr()
      && PartsValid() && TinyModel.Valid(Model())
    }

    ghost function Freq(): TinyModel.Weight
      requires PartsValid()
      reads Repr()
    {
      TinyModel.FreqOf(sketch.Model(), hash)
    }

    constructor (capacity: nat, policy: TinyModel.Policy, hash: CacheKey -> nat)
      requires policy.winPct == 1 && policy.probPct == 40
      ensures Valid() && fresh(Repr()) && journal == null
      ensures Model() == TinyModel.Fresh(capacity, policy) && this.hash == hash
    {
      var cap := ClampCapacity(capacity);
      window := new OrderedMap();
      probation := new OrderedMap();
      protected := new OrderedMap();
      sketch := new CmSketch();
      this.hash, this.policy, totalCap := hash, policy, cap;
      caps := TinyModel.ComputeRatio(cap, policy.winPct, policy.probPct);
      puts, misses, staleWindow, journal := 0, 0, 0, null;
      new;
      TinyRuns.FreshValid(capacity, policy);
    }

    // ---- eviction ----

    /** One window overflow pair is admitted to a main segment or refused. */
    method AdmitOne() returns (out: seq<CacheKey>)
      requires PartsValid() && |window.Contents()| > caps.win
      modifies window, probation, protected
      ensures PartsValid()
      ensures Segs() == old(TinyModel.DrainNext(Segs(), caps, Freq())).segs
      ensures out == KeySeq(old(TinyModel.DrainNext(Segs(), caps, Freq())).dropped)
    {
      hide OrderedMap.Valid, OrderedMap.Contents, CmSketch.Valid, PutBack, Sketch.Freq;
      out := [];
      var w := window.PopFront();
      var (wk, wv) := w.value;
      var np := probation.Len();
      if np < caps.prob {
        probation.Insert(wk, wv);
        return;
      }
      var nt := protected.Len();
      if np + nt < caps.main {
        protected.Insert(wk, wv);
        return;
      }
      var victim := probation.Front();
      if victim.None? {
        out := [wk];
        return;
      }
      var fw := sketch.Freq(hash(wk));
      var fm := sketch.Freq(hash(victim.value.0));
      if fw > fm {
        var dropped := probation.PopFront();
        out := [dropped.value.0];
        probation.Insert(wk, wv);
      } else {
        out := [wk];
      }
    }

    method DrainWindow() returns (out: seq<CacheKey>)
      requires PartsValid()
      modifies window, probation, protected
      ensures PartsValid()
      ensures Segs() == old(TinyModel.DrainWindow(Segs(), caps, Freq())).segs
      ensures out == KeySeq(old(TinyModel.DrainWindow(Segs(), caps, Freq())).dropped)
    {
      hide OrderedMap.Valid, OrderedMap.Contents, CmSketch.Valid, CmSketch.Model, TinyModel.DrainWindow,
           TinyModel.DrainNext, Sketch.Freq, Sketch.Valid, TinyModel.FreqOf;
      hide TinyModel.DrainsTo;
      ghost var freq := Freq();
      ghost var goal := TinyModel.DrainWindow(Segs(), caps, freq);
      out := [];
      var n := window.Len();
      TinyModel.DrainStart(Segs(), caps, freq);
      while n > caps.win
        invariant PartsValid() && n == |window.Contents()| && Freq() == freq
        invariant TinyModel.DrainsTo(Segs(), caps, freq, out, goal)
        decreases n
      {
        TinyModel.DrainRound(Segs(), caps, freq, out, goal);
        var more := AdmitOne();
        out := out + more;
        n := window.Len();
      }
      TinyModel.DrainDone(Segs(), caps, freq, out, goal);
    }

    /** Protected overflow goes back to probation; probation overflow is dropped. */
    method Rebalance() returns (out: seq<CacheKey>)
      requires PartsValid()
      modifies window, probation, protected
      ensures PartsValid()
      ensures Segs() == old(TinyModel.DropProbation(TinyModel.DrainProtected(Segs(), caps), caps)).segs
      ensures out == KeySeq(old(TinyModel.DropProbation(TinyModel.DrainProtected(Segs(), caps), caps)).dropped)
    {
      hide OrderedMap.Valid, OrderedMap.Contents, CmSketch.Valid, PutFront;
      ghost var goal := TinyModel.DrainProtected(Segs(), caps);
      var n := protected.Len();
      while n > caps.prot
        invariant PartsValid() && n == |protected.Contents()|
        invariant goal == TinyModel.DrainProtected(Segs(), caps)
        decreases n
      {
        var p := protected.PopFront();
        probation.PushFront(p.value.0, p.value.1);
        n := protected.Len();
      }
      out := DropProbation();
    }

    method DropProbation() returns (out: seq<CacheKey>)
      requires PartsValid()
      modifies probation
      ensures PartsValid()
      ensures Segs() == old(TinyModel.DropProbation(Segs(), caps)).segs
      ensures out == KeySeq(old(TinyModel.DropProbation(Segs(), caps)).dropped)
    {
      hide OrderedMap.Valid, OrderedMap.Contents, CmSketch.Valid;
      ghost var items := probation.Contents();
      out := [];
      var m := probation.Len();
      while m > caps.prob
        invariant PartsValid() && m == |probation.Contents()|
        invariant |out| <= TinyModel.Monus(|items|, caps.prob)
        invariant probation.Contents() == items[|out|..] && out == KeySeq(items[..|out|])
        decreases m
      {
        var p := probation.PopFront();
        out := out + [p.value.0];
        m := probation.Len();
      }
    }

    method EvictLocked() returns (out: seq<CacheKey>)
      requires PartsValid()
      modifies window, probation, protected
      ensures PartsValid()
      ensures Segs() == old(TinyModel.Evict(Segs(), caps, Freq())).segs
      ensures out == KeySeq(old(TinyModel.Evict(Segs(), caps, Freq())).dropped)
    {
      hide TinyModel.DrainWindow, TinyModel.DrainProtected, TinyModel.DropProbation, OrderedMap.Valid,
           OrderedMap.Contents, CmSketch.Valid;
      var a := DrainWindow();
      var b := Rebalance();
      out := a + b;
    }

    // ---- reading ----

    /** Removes `k` from the segment that holds it. */
    method DropKey(k: CacheKey, store: nat)
      requires PartsValid() && Distinct(Segs().All())
      requires store < 3
      requires store == 0 ==> Has(window.Contents(), k)
      requires store == 1 ==> Has(probation.Contents(), k)
      requires store == 2 ==> Has(protected.Contents(), k)
      modifies window, probation, protected
      ensures PartsValid() && Segs() == old(TinyModel.Drop(Segs(), k))
    {
      hide OrderedMap.Valid, OrderedMap.Contents, CmSketch.Valid, Without, Has, Lookup, Distinct, TinyModel.Drop,
           TinyModel.Segments.All;
      TinyModel.DropFrom(Segs(), k);
      if store == 0 {
        var _ := window.Remove(k);
      } else if store == 1 {
        var _ := probation.Remove(k);
      } else {
        var _ := protected.Remove(k);
      }
    }

    /** Moves `k` to the back of the segment that holds it. */
    method TouchKey(k: CacheKey, store: nat)
      requires PartsValid() && Distinct(Segs().All())
      requires store < 3
      requires store == 0 ==> Has(window.Contents(), k)
      requires store == 1 ==> Has(probation.Contents(), k)
      requires store == 2 ==> Has(protected.Contents(), k)
      modifies window, probation, protected
      ensures PartsValid() && Segs() == old(TinyModel.TouchIn(Segs(), k))
    {
      hide OrderedMap.Valid, OrderedMap.Contents, CmSketch.Valid, Touch, Has, Lookup, Distinct, TinyModel.TouchIn,
           TinyModel.Segments.All;
      TinyModel.TouchFrom(Segs(), k);
      if store == 0 {
        window.MoveToEnd(k);
      } else if store == 1 {
        probation.MoveToEnd(k);
      } else {
        protected.MoveToEnd(k);
      }
    }

    /** The segment holding `k` (3 for none), and its entry. */
    method Locate(k: CacheKey) returns (store: nat, e: Option<CacheEntry>)
      requires PartsValid() && Distinct(Segs().All())
      ensures store <= 3 && (store == 3 <==> e.None?) && e == Lookup(Segs().All(), k)
      ensures store == 0 <==> Has(window.Contents(), k)
      ensures store == 1 <==> Has(probation.Contents(), k)
      ensures store == 2 <==> Has(protected.Contents(), k)
    {
      TinyModel.WhichSegment(Segs(), k);
      hide OrderedMap.Valid, OrderedMap.Contents, CmSketch.Valid, Distinct, TinyModel.Segments.All;
      store := 3;
      e := window.Get(k);
      if e.Some? {
        return 0, e;
      }
      e := probation.Get(k);
      if e.Some? {
        return 1, e;
      }
      e := protected.Get(k);
      if e.Some? {
        return 2, e;
      }
    }

    method Promote(k: CacheKey, e: CacheEntry)
      requires PartsValid() && Lookup(probation.Contents(), k) == Some(e)
      modifies probation, protected
      ensures PartsValid() && Segs() == old(TinyModel.Promote(Segs(), caps.prot, k, e))
    {
      hide OrderedMap.Valid, OrderedMap.Contents, CmSketch.Valid, Without, PutBack, PutFront;
      var owned := probation.RemoveEntry(k);
      var n := protected.Len();
      if n >= caps.prot && n > 0 {
        var p := protected.PopFront();
        probation.PushFront(p.value.0, p.value.1);
      }
      protected.Insert(owned.value.0, owned.value.1);
    }

    method PromotionAllowed(fNew: u8) returns (b: bool)
      requires PartsValid()
      ensures b == TinyModel.PromotionAllowed(Model(), Freq(), fNew)
    {
      hide OrderedMap.Valid, OrderedMap.Contents, CmSketch.Valid, Sketch.Freq;
      if policy.promoteMinFreq > 0 && fNew < policy.promoteMinFreq {
        return false;
      }
      var n := protected.Len();
      if policy.restrictPromotion && n >= caps.prot {
        var front := protected.Front();
        if front.Some? {
          var f := sketch.Freq(hash(front.value.0));
          if f >= fNew {
            return false;
          }
        }
      }
      b := true;
    }

    method SweepFront(store: OrderedMap<CacheKey, CacheEntry>, now: real)
      requires store.Valid()
      modifies store
      ensures store.Valid() && store.Contents() == TinyModel.SweepFront(old(store.Contents()), now, 4)
    {
      hide OrderedMap.Valid, OrderedMap.Contents;
      var i := 0;
      while i < 4
        invariant 0 <= i <= 4 && store.Valid()
        invariant TinyModel.SweepFront(store.Contents(), now, 4 - i)
                  == TinyModel.SweepFront(old(store.Contents()), now, 4)
      {
        var front := store.Front();
        if front.None? || front.value.1.expiresAt > now {
          break;
        }
        var _ := store.PopFront();
        i := i + 1;
      }
    }

    method GetMiss(now: real)
      requires PartsValid()
      modifies this`misses, window, probation, protected
      ensures PartsValid() && Model() == old(TinyModel.GetMiss(Model(), now))
    {
      hide OrderedMap.Valid, OrderedMap.Contents, CmSketch.Valid, TinyModel.SweepFront;
      misses := misses + 1;
      if staleWindow == 0 && misses % 32 == 0 {
        SweepFront(window, now);
        SweepFront(probation, now);
        SweepFront(protected, now);
      }
    }

    method Get(k: CacheKey, now: real) returns (r: Option<CacheEntry>)
      requires Valid()
      modifies this`misses, Repr()
      ensures Valid() && Outcome(Model(), [], r) == old(TinyModel.Get(Model(), hash, k, now))
    {
      TinyRuns.GetKeepsValid(Model(), hash, k, now, k);
      r := GetLocked(k, now);
    }

    method GetLocked(k: CacheKey, now: real) returns (r: Option<CacheEntry>)
      requires PartsValid() && Distinct(Segs().All())
      modifies this`misses, Repr()
      ensures PartsValid() && Outcome(Model(), [], r) == old(TinyModel.Get(Model(), hash, k, now))
    {
      hide OrderedMap.Valid, OrderedMap.Contents, CmSketch.Valid, Distinct, TinyModel.Segments.All, TinyModel.Drop,
           TinyModel.HitSegs,
           TinyModel.GetMiss, TinyModel.PromotionAllowed, Sketch.Freq, Sketch.Inc, Lookup, Has;
      var store, e := Locate(k);
      if e.None? {
        GetMiss(now);
        r := None;
      } else if e.value.expiresAt <= now {
        if staleWindow == 0 {
          DropKey(k, store);
        }
        r := None;
      } else {
        Hit(k, store, e.value);
        sketch.Inc(hash(k), 1);
        r := e;
      }
    }

    /** An unexpired entry is read: it moves up or to the back of its segment. */
    method Hit(k: CacheKey, store: nat, e: CacheEntry)
      requires PartsValid() && Distinct(Segs().All()) && Lookup(Segs().All(), k) == Some(e)
      requires store < 3
      requires store == 0 <==> Has(window.Contents(), k)
      requires store == 1 <==> Has(probation.Contents(), k)
      requires store == 2 <==> Has(protected.Contents(), k)
      modifies window, probation, protected
      ensures PartsValid()
      ensures Segs() == old(TinyModel.HitSegs(Segs(), caps.prot, k, e,
                                TinyModel.PromotionAllowed(Model(), Freq(), sketch.Model().Freq(hash(k)))))
    {
      hide OrderedMap.Valid, OrderedMap.Contents, CmSketch.Valid, CmSketch.Model, Distinct, TinyModel.Segments.All,
           TinyModel.TouchIn, TinyModel.Promote, TinyModel.PromotionAllowed, Sketch.Freq, Sketch.Valid, Lookup, Has;
      TinyModel.WhichSegment(Segs(), k);
      var promote := false;
      if store == 1 {
        var f := sketch.Freq(hash(k));
        promote := PromotionAllowed(f);
      }
      if promote {
        Promote(k, e);
      } else {
        TouchKey(k, store);
      }
    }

    method GetStale(k: CacheKey, now: real, window: real) returns (r: Option<CacheEntry>)
      requires Valid()
      modifies Repr()
      ensures Valid() && Outcome(Model(), [], r) == old(TinyModel.GetStale(Model(), k, now, window))
    {
      hide TinyModel.GetStale;
      TinyRuns.GetStaleEffect(Model(), k, now, window, k);
      r := GetStaleLocked(k, now, window);
    }

    method GetStaleLocked(k: CacheKey, now: real, window: real) returns (r: Option<CacheEntry>)
      requires PartsValid() && Distinct(Segs().All())
      modifies this.window, probation, protected
      ensures PartsValid() && Outcome(Model(), [], r) == old(TinyModel.GetStale(Model(), k, now, window))
    {
      hide OrderedMap.Valid, OrderedMap.Contents, CmSketch.Valid, CmSketch.Model, Distinct, TinyModel.Segments.All,
           TinyModel.Drop, TinyModel.TouchIn, Lookup, Has;
      var store, e := Locate(k);
      if e.None? {
        return None;
      }
      var exp := e.value.expiresAt;
      if exp > now {
        return None;
      }
      if now - exp > window {
        DropKey(k, store);
        return None;
      }
      TouchKey(k, store);
      r := e;
    }

    method Peek(k: CacheKey, now: real) returns (r: Option<CacheEntry>)
      requires Valid()
      modifies Repr()
      ensures Valid() && Outcome(Model(), [], r) == old(TinyModel.Peek(Model(), k, now))
    {
      hide TinyModel.Peek;
      TinyRuns.PeekEffect(Model(), k, now, k);
      r := PeekLocked(k, now);
    }

    method PeekLocked(k: CacheKey, now: real) returns (r: Option<CacheEntry>)
      requires PartsValid() && Distinct(Segs().All())
      modifies window, probation, protected
      ensures PartsValid() && Outcome(Model(), [], r) == old(TinyModel.Peek(Model(), k, now))
    {
      hide OrderedMap.Valid, OrderedMap.Contents, CmSketch.Valid, CmSketch.Model, Distinct, TinyModel.Segments.All,
           TinyModel.Drop, Lookup, Has;
      var store, e := Locate(k);
      if e.None? {
        return None;
      }
      if e.value.expiresAt <= now {
        DropKey(k, store);
        return None;
      }
      r := e;
    }

    // ---- writing ----

    method PurgeOne(store: OrderedMap<CacheKey, CacheEntry>, now: real, sw: real)
      requires store.Valid()
      modifies store
      ensures store.Valid() && store.Contents() == TinyModel.PurgeOne(old(store.Contents()), now, sw)
    {
      hide OrderedMap.Valid, OrderedMap.Contents;
      var front := store.Front();
      while front.Some? && Removable(front.value.1, now, sw)
        invariant store.Valid()
        invariant front == if store.Contents() == [] then None else Some(store.Contents()[0])
        invariant TinyModel.PurgeOne(store.Contents(), now, sw) == TinyModel.PurgeOne(old(store.Contents()), now, sw)
        decreases |store.Contents()|
      {
        var _ := store.PopFront();
        front := store.Front();
      }
    }

    method InsertLocked(k: CacheKey, e: CacheEntry)
      requires PartsValid()
      modifies window, probation, protected
      ensures PartsValid() && Segs() == old(TinyModel.Insert(Segs(), k, e))
    {
      hide OrderedMap.Valid, OrderedMap.Contents, CmSketch.Valid, PutBack, Has;
      var inProt := protected.ContainsKey(k);
      var inProb := probation.ContainsKey(k);
      if inProt {
        protected.Insert(k, e);
      } else if inProb {
        probation.Insert(k, e);
      } else {
        window.Insert(k, e);
      }
    }

    /** The part of a put under the cache lock. */
    method PutLocked(k: CacheKey, e: CacheEntry, now: real) returns (evicted: seq<CacheKey>)
      requires Valid()
      modifies this`puts, Repr()
      ensures Valid() && Outcome(Model(), evicted, None) == old(TinyModel.Put(Model(), hash, k, e, now))
    {
      hide TinyModel.Put, KeyEffect;
      TinyModel.PutEffect(Model(), hash, k, e, now, k);
      evicted := PutStored(k, e, now);
    }

    method PurgeHeads(now: real)
      requires PartsValid()
      modifies window, probation, protected
      ensures PartsValid() && Segs() == old(TinyModel.PurgeAll(Segs(), now, staleWindow as real))
    {
      hide OrderedMap.Valid, OrderedMap.Contents, CmSketch.Valid, CmSketch.Model, TinyModel.PurgeOne;
      PurgeOne(window, now, staleWindow as real);
      PurgeOne(probation, now, staleWindow as real);
      PurgeOne(protected, now, staleWindow as real);
    }

    method PutStored(k: CacheKey, e: CacheEntry, now: real) returns (evicted: seq<CacheKey>)
      requires PartsValid()
      modifies this`puts, Repr()
      ensures PartsValid() && Outcome(Model(), evicted, None) == old(TinyModel.Put(Model(), hash, k, e, now))
    {
      hide OrderedMap.Valid, OrderedMap.Contents, CmSketch.Valid, TinyModel.PurgeAll,
           TinyModel.Insert, TinyModel.Evict, Sketch.Inc, Sketch.Freq, KeySeq;
      InsertLocked(k, e);
      sketch.Inc(hash(k), 1);
      evicted := EvictLocked();
      puts := puts + 1;
      if puts % 32 == 0 {
        PurgeHeads(now);
      }
    }

    /** The number is drawn first; the evictions are queued before the put. */
    method Put(k: CacheKey, value: CacheEntry, now: real)
      requires Valid()
      modifies this`puts, Repr(), journal
      ensures Valid()
      ensures var e := if journal == null then value else Stamped(value, old(journal.lastSeq));
              var r := old(TinyModel.Put(Model(), hash, k, e, now));
              && Model() == r.state
              && (journal != null ==>
                    && journal.lastSeq == old(journal.lastSeq) + 1 + |r.evicted|
                    && journal.queue == old(journal.queue) +
                         if old(journal.Listening()) then PutBatch(k, e, r.evicted, old(journal.lastSeq)) else [])
      ensures journal != null ==> journal.enabled == old(journal.enabled) && journal.suspended == old(journal.suspended)
      ensures journal == old(journal)
    {
      hide PartsValid, Model, TinyModel.Put, TinyModel.Valid;
      var e := value;
      if journal != null {
        var s := journal.NextSeq();
        e := value.(seqNo := s);
      }
      var evicted := PutLocked(k, e, now);
      if journal != null {
        journal.Evictions(evicted, Capacity);
        journal.Send(PutEvent(e.seqNo, k, e));
      }
    }

    method Delete(k: CacheKey)
      requires Valid()
      modifies Repr()
      ensures Valid() && Outcome(Model(), [], None) == old(TinyModel.Delete(Model(), k))
    {
      hide TinyModel.Drop, KeyEffect, Distinct, TinyModel.WithinCaps, TinyModel.Segments.All;
      TinyRuns.DeleteEffect(Model(), k, k);
      DeleteLocked(k);
    }

    method DeleteLocked(k: CacheKey)
      requires PartsValid()
      modifies window, probation, protected
      ensures PartsValid() && Segs() == old(TinyModel.Drop(Segs(), k))
    {
      hide OrderedMap.Valid, OrderedMap.Contents, CmSketch.Valid, CmSketch.Model, Without;
      var _ := window.Remove(k);
      var _ := probation.Remove(k);
      var _ := protected.Remove(k);
    }

    method Clear()
      requires Valid()
      modifies Repr()
      ensures Valid() && Model() == old(TinyModel.Clear(Model())).state
    {
      TinyRuns.ClearEffect(Model(), CacheKey(None, "", ""));
      ClearLocked();
    }

    method ClearLocked()
      requires PartsValid()
      modifies Repr()
      ensures PartsValid() && Segs() == TinyModel.Segments([], [], []) && sketch.Model() == Empty()
    {
      hide OrderedMap.Valid, OrderedMap.Contents, CmSketch.Valid, Empty;
      window.Clear();
      probation.Clear();
      protected.Clear();
      sketch.Reset();
    }

    method ResizeLocked(n: nat) returns (evicted: seq<CacheKey>)
      requires Valid()
      modifies this`totalCap, this`caps, Repr()
      ensures Valid() && Outcome(Model(), evicted, None) == old(TinyModel.SetCapacity(Model(), hash, n))
    {
      hide TinyModel.SetCapacity, KeyEffect;
      TinyModel.SetCapacityEffect(Model(), hash, n, CacheKey(None, "", ""));
      evicted := Resized(n);
    }

    method Resized(n: nat) returns (evicted: seq<CacheKey>)
      requires PartsValid()
      modifies this`totalCap, this`caps, window, probation, protected
      ensures PartsValid() && Outcome(Model(), evicted, None) == old(TinyModel.SetCapacity(Model(), hash, n))
    {
      hide OrderedMap.Valid, OrderedMap.Contents, CmSketch.Valid, CmSketch.Model, TinyModel.Evict,
           TinyModel.ComputeRatio, KeySeq;
      totalCap := ClampCapacity(n);
      caps := TinyModel.ComputeRatio(totalCap, policy.winPct, policy.probPct);
      evicted := EvictLocked();
    }

    /** Capacities change and room is made under one lock; journalling comes after. */
    method SetCapacity(n: nat)
      requires Valid()
      modifies this`totalCap, this`caps, Repr(), journal
      ensures Valid()
      ensures var r := old(TinyModel.SetCapacity(Model(), hash, n));
              && Model() == r.state
              && (journal != null ==>
                    && journal.lastSeq == old(journal.lastSeq) + |r.evicted|
                    && journal.queue == old(journal.queue) +
                         if old(journal.Listening()) then EvictBatch(r.evicted, Resize, old(journal.lastSeq) + 1)
                             else [])
      ensures journal != null ==> journal.enabled == old(journal.enabled) && journal.suspended == old(journal.suspended)
      ensures journal == old(journal)
    {
      hide PartsValid, Model, TinyModel.SetCapacity, TinyModel.Valid;
      var evicted := ResizeLocked(n);
      if journal != null {
        journal.Evictions(evicted, Resize);
      }
    }

    /** Takes over recovered entries: the longest-lived ones that the main segments
        hold go to the protected segment, which is then rebalanced. */
    method RestoreRecords(entries: Items, now: real) returns (unpersisted: nat)
      requires Valid()
      modifies Repr()
      ensures Valid() && (Model(), unpersisted) == old(TinyRuns.Restore(Model(), hash, entries, now))
    {
      hide TinyRuns.Restore, TinyRuns.ByLife, TinyRuns.Admitted, TinyRuns.Dead, TinyRuns.Cutoff;
      TinyRuns.RestoreKeepsValid(Model(), hash, entries, now);
      unpersisted := RestoreLocked(entries, now);
    }

    method RestoreLocked(entries: Items, now: real) returns (unpersisted: nat)
      requires PartsValid()
      modifies Repr()
      ensures PartsValid() && (Model(), unpersisted) == old(TinyRuns.Restore(Model(), hash, entries, now))
    {
      hide OrderedMap.Valid, OrderedMap.Contents, CmSketch.Valid, Empty, TinyModel.Evict, TinyRuns.InsertAll,
           TinyRuns.SortBy, TinyRuns.Live;
      var admitted := entries;
      var dropped := 0;
      if |entries| > TinyRuns.RestoreCap(totalCap) {
        dropped := |entries| - TinyRuns.RestoreCap(totalCap);
        admitted := TinyRuns.SortBy(entries, TinyRuns.SeqRank())[..TinyRuns.RestoreCap(totalCap)];
      }
      ClearLocked();
      var live := Surviving(admitted, now);
      var sorted := TinyRuns.SortBy(live, TinyRuns.LifeRank(now));
      var start := TinyModel.Monus(|sorted|, caps.main);
      unpersisted := start + dropped;
      InsertFrom(sorted, start);
      var _ := EvictLocked();
    }

    static method Surviving(admitted: Items, now: real) returns (live: Items)
      ensures live == TinyRuns.Live(admitted, now)
    {
      live := [];
      var i := 0;
      while i < |admitted|
        invariant 0 <= i <= |admitted| && live == TinyRuns.Live(admitted[..i], now)
      {
        assert admitted[..i + 1][..i] == admitted[..i];
        if admitted[i].1.expiresAt - now > 0.0 {
          live := live + [admitted[i]];
        }
        i := i + 1;
      }
      assert admitted[..i] == admitted;
    }

    method InsertFrom(sorted: Items, start: nat)
      requires PartsValid() && start <= |sorted| && protected.Contents() == []
      modifies protected
      ensures PartsValid() && protected.Contents() == TinyRuns.InsertAll([], sorted[start..])
    {
      hide OrderedMap.Valid, OrderedMap.Contents, CmSketch.Valid, PutBack;
      var j := start;
      while j < |sorted|
        invariant start <= j <= |sorted| && PartsValid()
        invariant protected.Contents() == TinyRuns.InsertAll([], sorted[start..j])
      {
        assert sorted[start..j + 1] == sorted[start..j] + [sorted[j]];
        protected.Insert(sorted[j].0, sorted[j].1);
        j := j + 1;
      }
      assert sorted[start..j] == sorted[start..];
    }

    lemma Outside()
      requires Valid()
      ensures this !in Repr()
    {
    }

    method SetStaleWindow(v: nat)
      requires Valid()
      modifies this`staleWindow
      ensures Valid() && Model() == old(Model()).(staleWindow := v)
    {
      staleWindow := v;
    }

    method AttachJournal(j: CacheJournal)
      requires Valid() && j !in Repr()
      modifies this`journal
      ensures Valid() && journal == j && Model() == old(Model())
    {
      journal := j;
    }
  }
}
