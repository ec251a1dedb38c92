/** What the W-TinyLFU cache keeps over whole runs, on resizing and on restoring. */
module TinyRuns {
  import opened Wrappers
  import opened Assoc
  import opened Entries
  import opened Operations
  import opened Sketches
  import opened TinyModel

  lemma ReadKeepsValid(t: Tiny, s: Tiny, gone: Items, now: real, q: CacheKey)
    requires Valid(t) && s.sketch.Valid()
    requires s.(segs := t.segs, sketch := t.sketch, misses := t.misses) == t
    requires Conserves(t.segs.All(), s.segs.All(), gone) && AllExpired(gone, now) && WithinCaps(s.segs, t.caps)
    ensures Valid(s) && KeyEffect(q, Stored(t, q), Stored(s, q), None, [], now)
  {
    hide Conserves, AllExpired, Segments.All, Distinct, Lookup;
    ReadEffect(t.segs.All(), s.segs.All(), gone, now, q);
  }

  lemma GetStaleEffect(t: Tiny, k: CacheKey, now: real, window: real, q: CacheKey)
    requires Valid(t)
    ensures var s := TinyModel.GetStale(t, k, now, window).state;
            Valid(s) && KeyEffect(q, Stored(t, q), Stored(s, q), None, [], now)
  {
    hide Valid, Segments.All, Distinct, Lookup, KeyEffect;
    AgedSame(t, now, q);
    match Stored(t, k) {
      case None =>
      case Some(e) =>
        if e.expiresAt <= now {
          if now - e.expiresAt > window {
            DropKeepsValid(t, k, now, q);
          } else {
            TouchKeepsValid(t, k, now, q);
          }
        }
    }
  }

  lemma PeekEffect(t: Tiny, k: CacheKey, now: real, q: CacheKey)
    requires Valid(t)
    ensures var s := TinyModel.Peek(t, k, now).state;
            Valid(s) && KeyEffect(q, Stored(t, q), Stored(s, q), None, [], now)
  {
    hide Valid, Segments.All, Distinct, Lookup, KeyEffect;
    AgedSame(t, now, q);
    match Stored(t, k) {
      case None =>
      case Some(e) =>
        if e.expiresAt <= now {
          DropKeepsValid(t, k, now, q);
        }
    }
  }

  lemma AgedSame(t: Tiny, now: real, q: CacheKey)
    ensures KeyEffect(q, Stored(t, q), Stored(t, q), None, [], now)
  {
  }

  lemma DropKeepsValid(t: Tiny, k: CacheKey, now: real, q: CacheKey)
    requires Valid(t) && Stored(t, k).Some? && Stored(t, k).value.expiresAt <= now
    ensures var s := t.(segs := Drop(t.segs, k));
            Valid(s) && KeyEffect(q, Stored(t, q), Stored(s, q), None, [], now)
  {
    hide Segments.All, Distinct, Lookup, Drop, KeyEffect, WithinCaps;
    DropEffect(t.segs, k, t.caps);
    ReadKeepsValid(t, t.(segs := Drop(t.segs, k)), [(k, Stored(t, k).value)], now, q);
  }

  lemma TouchKeepsValid(t: Tiny, k: CacheKey, now: real, q: CacheKey)
    requires Valid(t)
    ensures var s := t.(segs := TouchIn(t.segs, k));
            Valid(s) && KeyEffect(q, Stored(t, q), Stored(s, q), None, [], now)
  {
    hide Segments.All, Distinct, Lookup, TouchIn, KeyEffect, WithinCaps;
    TouchInEffect(t.segs, k, t.caps);
    ReadKeepsValid(t, t.(segs := TouchIn(t.segs, k)), [], now, q);
  }

  lemma DeleteEffect(t: Tiny, k: CacheKey, q: CacheKey)
    requires Valid(t)
    ensures var s := TinyModel.Delete(t, k).state;
            Valid(s) && Stored(s, q) == if q == k then None else Stored(t, q)
  {
    hide Segments.All, Distinct, Lookup, Drop, WithinCaps;
    DropEffect(t.segs, k, t.caps);
    DroppedGone(t.segs, k, t.caps, q);
  }

  lemma ClearEffect(t: Tiny, q: CacheKey)
    requires Valid(t)
    ensures Valid(TinyModel.Clear(t).state) && Stored(TinyModel.Clear(t).state, q) == None
  {
  }

  lemma WindowEffect(t: Tiny, v: nat, q: CacheKey, clock: real)
    requires Valid(t)
    ensures var s := TinyModel.SetStaleWindow(t, v).state;
            Valid(s) && KeyEffect(q, Stored(t, q), Stored(s, q), None, [], clock)
  {
  }

  /** Every operation keeps the cache valid and changes every key as accounted for. */
  lemma ApplyEffect(t: Tiny, hash: CacheKey -> nat, op: Op, q: CacheKey, clock: real)
    requires Valid(t)
    ensures Valid(Apply(t, hash, op).state)
    ensures var r := Apply(t, hash, op);
            if op.Clear? then Stored(r.state, q) == None
            else KeyEffect(q, Stored(t, q), Stored(r.state, q), PutOf(op), Taken(op, r.evicted), TimeOf(op, clock))
  {
    ValidSketch(t);
    hide Valid, Stored, Aged, TinyModel.Put, TinyModel.Get, TinyModel.GetStale, TinyModel.Peek, TinyModel.Delete,
         TinyModel.Clear, TinyModel.SetCapacity, Sketch.Valid;
    match op {
      case Put(k, e, now) => PutEffect(t, hash, k, e, now, q);
      case Get(k, now) => GetKeepsValid(t, hash, k, now, q);
      case GetStale(k, now, w) => GetStaleEffect(t, k, now, w, q);
      case Peek(k, now) => PeekEffect(t, k, now, q);
      case Delete(k) => DeleteEffect(t, k, q);
      case Clear => ClearEffect(t, q);
      case SetCapacity(n) => SetCapacityEffect(t, hash, n, q);
      case SetStaleWindow(v) => WindowEffect(t, v, q, clock);
    }
  }

  lemma GetKeepsValid(t: Tiny, hash: CacheKey -> nat, k: CacheKey, now: real, q: CacheKey)
    requires Valid(t)
    ensures var s := TinyModel.Get(t, hash, k, now).state;
            Valid(s) && KeyEffect(q, Stored(t, q), Stored(s, q), None, [], now)
  {
    ValidSketch(t);
    hide Valid, Stored, KeyEffect, TinyModel.Get, Conserves, AllExpired, WithinCaps, Segments.All, Sketch.Valid;
    var gone := GetEffect(t, hash, k, now);
    ReadKeepsValid(t, TinyModel.Get(t, hash, k, now).state, gone, now, q);
  }

  lemma ValidSketch(t: Tiny)
    requires Valid(t)
    ensures t.sketch.Valid()
  {
  }

  // ---- whole runs ----

  function Run(t: Tiny, hash: CacheKey -> nat, ops: seq<Op>): (r: Tiny)
    requires t.sketch.Valid()
    ensures r.sketch.Valid()
  {
    if ops == [] then t
    else Apply(Run(t, hash, ops[..|ops| - 1]), hash, ops[|ops| - 1]).state
  }

  lemma FreshValid(capacity: nat, policy: Policy)
    requires policy.winPct == 1 && policy.probPct == 40
    ensures Valid(Fresh(capacity, policy))
    ensures forall q :: Stored(Fresh(capacity, policy), q) == None
  {
  }

  /** After any run with the default ratio, stale window changes included, no key is in two segments or twice in one,
      every segment is within its capacity, and the total within the configured one. */
  lemma {:induction false} SegmentsStayDisjointAndBounded(capacity: nat, policy: Policy, hash: CacheKey -> nat,
                                                          ops: seq<Op>)
    requires policy.winPct == 1 && policy.probPct == 40
    ensures Fresh(capacity, policy).sketch.Valid()
    ensures var t := Run(Fresh(capacity, policy), hash, ops);
            && Valid(t) && Distinct(t.segs.All()) && WithinCaps(t.segs, t.caps)
            && |t.segs.All()| <= t.totalCap
  {
    FreshValid(capacity, policy);
    if ops != [] {
      SegmentsStayDisjointAndBounded(capacity, policy, hash, ops[..|ops| - 1]);
      ApplyEffect(Run(Fresh(capacity, policy), hash, ops[..|ops| - 1]), hash, ops[|ops| - 1], CacheKey(None, "", ""),
          0.0);
    }
    DefaultCapsSum(Run(Fresh(capacity, policy), hash, ops).totalCap);
  }

  // ---- resizing ----

  function Overflowing(g: Segments, caps: Caps): nat {
    Monus(|g.window|, caps.win)
  }

  /** With room in the main segments nothing is refused on the way out of the window. */
  lemma {:induction false} DrainRoom(g: Segments, caps: Caps, freq: Weight)
    requires Distinct(g.All())
    requires |g.probation| <= caps.prob && |g.probation| + |g.protected| + Overflowing(g, caps) <= caps.main
    ensures var r := DrainWindow(g, caps, freq);
            && r.dropped == [] && |r.segs.probation| <= caps.prob
            && |r.segs.probation| + |r.segs.protected| == |g.probation| + |g.protected| + Overflowing(g, caps)
    decreases |g.window|
  {
    if |g.window| > caps.win {
      HeadFresh(g);
      DrainStep(g, caps, freq);
      DrainUnfold(g, caps, freq);
      var next := DrainNext(g, caps, freq);
      ConservesDistinct(g.All(), next.segs.All(), next.dropped);
      hide Distinct, DrainWindow, Segments.All;
      DrainRoom(next.segs, caps, freq);
    }
  }

  /** Unless something is refused, probation never shrinks while the window drains. */
  lemma {:induction false} DrainGrows(g: Segments, caps: Caps, freq: Weight)
    requires Distinct(g.All()) && DrainWindow(g, caps, freq).dropped == []
    ensures |DrainWindow(g, caps, freq).segs.probation| >= |g.probation|
    ensures |DrainWindow(g, caps, freq).segs.window| == |g.window| - Overflowing(g, caps)
    decreases |g.window|
  {
    if |g.window| > caps.win {
      HeadFresh(g);
      DrainStep(g, caps, freq);
      DrainUnfold(g, caps, freq);
      var next := DrainNext(g, caps, freq);
      ConservesDistinct(g.All(), next.segs.All(), next.dropped);
      hide Distinct, DrainWindow, Segments.All;
      DrainGrows(next.segs, caps, freq);
    }
  }

  lemma {:induction false} DrainProtectedGrows(g: Segments, caps: Caps)
    requires Distinct(g.All())
    ensures |DrainProtected(g, caps).probation| >= |g.probation|
    ensures |g.protected| <= caps.prot ==> DrainProtected(g, caps) == g
    ensures |g.protected| > caps.prot ==> |DrainProtected(g, caps).protected| == caps.prot
    decreases |g.protected|
  {
    if |g.protected| > caps.prot {
      var p := g.protected[0];
      SegmentKeys(g);
      assert p in g.protected && g.protected == [p] + g.protected[1..];
      FreshPut(g.probation, p.0, p.1);
      var next := Segments(g.window, PutFront(g.probation, p.0, p.1), g.protected[1..]);
      NextDistinct(g, p);
      hide Distinct, Segments.All;
      DrainProtectedGrows(next, caps);
    }
  }

  lemma NextDistinct(g: Segments, p: (CacheKey, CacheEntry))
    requires Distinct(g.All()) && g.protected != [] && p == g.protected[0]
    requires PutFront(g.probation, p.0, p.1) == [p] + g.probation
    ensures Distinct(Segments(g.window, PutFront(g.probation, p.0, p.1), g.protected[1..]).All())
  {
    var next := Segments(g.window, [p] + g.probation, g.protected[1..]);
    assert g.protected == [p] + g.protected[1..];
    assert Conserves(g.All(), next.All(), []);
    ConservesDistinct(g.All(), next.All(), []);
  }

  /** Fitting the segments to new capacities drops nothing exactly when probation
      fits and the main segments have room for the window's overflow. */
  lemma EvictDropsNothingIff(g: Segments, caps: Caps, freq: Weight)
    requires Distinct(g.All()) && caps.prob + caps.prot == caps.main
    ensures Evict(g, caps, freq).dropped == [] <==>
              |g.probation| <= caps.prob && |g.probation| + |g.protected| + Overflowing(g, caps) <= caps.main
  {
    var a := DrainWindow(g, caps, freq);
    DrainWindowConserves(g, caps, freq);
    ConservesDistinct(g.All(), a.segs.All(), a.dropped);
    DrainProtectedConserves(a.segs, caps);
    DrainProtectedGrows(a.segs, caps);
    EvictConserves(g, caps, freq);
    hide DrainWindow, DrainProtected, Distinct;
    if |g.probation| <= caps.prob && |g.probation| + |g.protected| + Overflowing(g, caps) <= caps.main {
      DrainRoom(g, caps, freq);
    }
    if Evict(g, caps, freq).dropped == [] {
      assert a.dropped == [];
      DrainGrows(g, caps, freq);
      SameSize(g.All(), Evict(g, caps, freq).segs.All());
    }
  }

  lemma SameSize(a: Items, b: Items)
    requires Conserves(a, b, [])
    ensures |a| == |b|
  {
    assert |multiset(a)| == |multiset(b)|;
  }

  /** From 48 entries on, growing evicts nothing and moves nothing. */
  lemma GrowthEvictsNothing(t: Tiny, hash: CacheKey -> nat, n: nat)
    requires Valid(t) && 48 <= t.totalCap <= n
    ensures TinyModel.SetCapacity(t, hash, n).evicted == []
    ensures TinyModel.SetCapacity(t, hash, n).state.segs == t.segs
  {
    DefaultCapsGrow(t.totalCap, n);
    EvictIdle(t.segs, DefaultCaps(n), FreqOf(t.sketch, hash));
  }

  /** In general, a resize evicts nothing exactly under this condition. */
  lemma ResizeEvictsNothingIff(t: Tiny, hash: CacheKey -> nat, n: nat)
    requires Valid(t)
    ensures var caps := DefaultCaps(ClampCapacity(n));
            TinyModel.SetCapacity(t, hash, n).evicted == [] <==>
              && |t.segs.probation| <= caps.prob
              && |t.segs.probation| + |t.segs.protected| + Overflowing(t.segs, caps) <= caps.main
  {
    DefaultCapsSum(ClampCapacity(n));
    EvictDropsNothingIff(t.segs, DefaultCaps(ClampCapacity(n)), FreqOf(t.sketch, hash));
  }

  // ---- who is evicted by a put ----

  lemma InsertShape(g: Segments, k: CacheKey, e: CacheEntry)
    requires Distinct(g.All())
    ensures var r := Insert(g, k, e);
            && |r.probation| == |g.probation| && |r.protected| == |g.protected|
            && (Lookup(g.All(), k).Some? ==> |r.window| == |g.window|)
            && (Lookup(g.All(), k) == None ==> r == g.(window := g.window + [(k, e)]))
  {
    WhichSegment(g, k);
    PutBackSize(g.window, k, e);
    PutBackSize(g.probation, k, e);
    PutBackSize(g.protected, k, e);
    KeyDistinct(g);
  }

  lemma KeyDistinct(g: Segments)
    requires Distinct(g.All())
    ensures Distinct(g.window) && Distinct(g.probation) && Distinct(g.protected)
  {
    assert forall i :: 0 <= i < |g.window| ==> g.All()[i] == g.window[i];
    assert forall i :: 0 <= i < |g.probation| ==> g.All()[|g.window| + i] == g.probation[i];
    assert forall i :: 0 <= i < |g.protected| ==> g.All()[|g.window| + |g.probation| + i] == g.protected[i];
  }

  lemma PutBackSize(s: Items, k: CacheKey, e: CacheEntry)
    ensures !Has(s, k) ==> PutBack(s, k, e) == s + [(k, e)] && Lookup(s, k) == None
    ensures Has(s, k) ==> |PutBack(s, k, e)| == |s| && Lookup(s, k).Some?
  {
  }

  /** With every segment at its capacity, one pair too many in the window is settled by
      one contest between the window's head and probation's. */
  lemma FullContest(g: Segments, caps: Caps, freq: Weight)
    requires Distinct(g.All()) && caps.prob + caps.prot == caps.main && caps.prob >= 1
    requires |g.window| == caps.win + 1 && |g.probation| == caps.prob && |g.protected| == caps.prot
    ensures var w, p := g.window[0], g.probation[0];
            Evict(g, caps, freq).dropped == [if freq(w.0) > freq(p.0) then p else w]
  {
    var next := DrainNext(g, caps, freq);
    DrainUnfold(g, caps, freq);
    DrainIdle(next.segs, caps, freq);
    assert g.All()[0] == g.window[0];
    assert forall i :: 0 <= i < |g.probation| ==> g.All()[|g.window| + i] == g.probation[i];
    PutBackSize(g.probation[1..], g.window[0].0, g.window[0].1);
    NotAmong(g.probation[1..], g.window[0].0);
    var a := DrainWindow(g, caps, freq);
    assert a == Trimmed(next.segs, next.dropped + []);
    assert DrainProtected(a.segs, caps) == a.segs;
    assert DropProbation(a.segs, caps).dropped == [];
  }

  lemma NotAmong(s: Items, k: CacheKey)
    requires forall i :: 0 <= i < |s| ==> s[i].0 != k
    ensures !Has(s, k)
  {
  }

  /** A put evicts exactly when its key is new and the cache is full. It then evicts one
      entry: of the window's and probation's heads the one used less, by the sketch with
      this put counted; on a tie the window's. */
  lemma PutEvictsIff(t: Tiny, hash: CacheKey -> nat, k: CacheKey, e: CacheEntry, now: real)
    requires Valid(t)
    ensures var evicted := TinyModel.Put(t, hash, k, e, now).evicted;
            && (evicted != [] <==> Stored(t, k) == None && |t.segs.All()| == t.totalCap)
            && (evicted != [] ==>
                  && t.segs.window != [] && t.segs.probation != []
                  && var w, p, f := t.segs.window[0].0, t.segs.probation[0].0, FreqOf(t.sketch.Inc(hash(k), 1), hash);
                     evicted == [if f(w) > f(p) then p else w])
  {
    DefaultCapsSum(t.totalCap);
    InsertShape(t.segs, k, e);
    InsertEffect(t.segs, t.caps, k, e, k);
    var g, f := Insert(t.segs, k, e), FreqOf(t.sketch.Inc(hash(k), 1), hash);
    hide Evict, DefaultCaps, Distinct, Lookup, Insert;
    EvictDropsNothingIff(g, t.caps, f);
    if Stored(t, k) == None && |t.segs.All()| == t.totalCap {
      FullContest(g, t.caps, f);
    }
  }

  function SomeItems(n: nat): (s: Items)
    ensures |s| == n && forall i :: 0 <= i < n ==> s[i].0 == CacheKey(None, seq(i, _ => 'a'), "A")
  {
    seq(n, i requires 0 <= i < n =>
      (CacheKey(None, seq(i, _ => 'a'), "A"), CacheEntry("", "", [], "", 1.0, 0, 1.0, 1, 0)))
  }

  /** Growing from 47 to 48 can evict: probation shrinks from 18 to 16 entries. */
  lemma GrowthAt48Evicts(hash: CacheKey -> nat) returns (t: Tiny)
    ensures Valid(t) && t.totalCap == 47
    ensures TinyModel.SetCapacity(t, hash, 48).evicted != []
  {
    t := FullProbation(17);
    ResizeEvictsNothingIff(t, hash, 48);
  }

  /** A valid cache of capacity 47 whose probation segment holds `n` entries. */
  lemma FullProbation(n: nat) returns (t: Tiny)
    requires n <= 18
    ensures Valid(t) && t.totalCap == 47 && |t.segs.probation| == n
  {
    var items := SomeItems(n);
    assert Distinct(items) by {
      assert forall i :: 0 <= i < n ==> |items[i].0.domain| == i;
    }
    t := Tiny(47, Segments([], items, []), DefaultCaps(47), BASELINE, Empty(), 0, 0, 0);
    assert t.segs.All() == items;
  }

  // ---- restoring ----

  /** Stable ascending sort by a real-valued rank. */
  function SortBy(s: Items, rank: CacheEntry -> real): (r: Items)
    ensures |r| == |s|
  {
    if s == [] then [] else InsertSorted(SortBy(s[..|s| - 1], rank), s[|s| - 1], rank)
  }

  /** Puts `p` after every element of equal or smaller rank. */
  function InsertSorted(s: Items, p: (CacheKey, CacheEntry), rank: CacheEntry -> real): (r: Items)
    ensures |r| == |s| + 1
  {
    if s == [] then [p]
    else if rank(s[|s| - 1].1) <= rank(p.1) then s + [p]
    else InsertSorted(s[..|s| - 1], p, rank) + [s[|s| - 1]]
  }

  ghost predicate SortedBy(s: Items, rank: CacheEntry -> real) {
    forall i, j :: 0 <= i < j < |s| ==> rank(s[i].1) <= rank(s[j].1)
  }

  lemma {:induction false} InsertSortedCorrect(s: Items, p: (CacheKey, CacheEntry), rank: CacheEntry -> real)
    requires SortedBy(s, rank)
    ensures SortedBy(InsertSorted(s, p, rank), rank)
    ensures multiset(InsertSorted(s, p, rank)) == multiset(s) + multiset([p])
  {
    if s != [] && rank(s[|s| - 1].1) > rank(p.1) {
      var front, last := s[..|s| - 1], s[|s| - 1];
      assert s == front + [last];
      InsertSortedCorrect(front, p, rank);
      SortedExtend(InsertSorted(front, p, rank), front, p, last, rank);
    }
  }

  lemma SortedExtend(r: Items, front: Items, p: (CacheKey, CacheEntry), last: (CacheKey, CacheEntry),
                     rank: CacheEntry -> real)
    requires SortedBy(r, rank) && SortedBy(front + [last], rank) && rank(p.1) <= rank(last.1)
    requires multiset(r) == multiset(front) + multiset([p])
    ensures SortedBy(r + [last], rank)
  {
    forall i | 0 <= i < |r|
      ensures rank(r[i].1) <= rank(last.1)
    {
      assert r[i] in multiset(r);
      if r[i] != p {
        assert r[i] in front;
        var j :| 0 <= j < |front| && front[j] == r[i];
        assert (front + [last])[j] == r[i] && (front + [last])[|front|] == last;
      }
    }
  }

  lemma {:induction false} SortByCorrect(s: Items, rank: CacheEntry -> real)
    ensures SortedBy(SortBy(s, rank), rank) && multiset(SortBy(s, rank)) == multiset(s) && |SortBy(s, rank)| == |s|
  {
    if s != [] {
      assert s == s[..|s| - 1] + [s[|s| - 1]];
      SortByCorrect(s[..|s| - 1], rank);
      InsertSortedCorrect(SortBy(s[..|s| - 1], rank), s[|s| - 1], rank);
    }
  }

  function SeqRank(): CacheEntry -> real {
    (e: CacheEntry) => e.seqNo as real
  }

  function LifeRank(now: real): CacheEntry -> real {
    (e: CacheEntry) => e.expiresAt - now
  }

  function RestoreCap(cap: nat): nat {
    if cap * 4 < 65536 then 65536 else cap * 4
  }

  /** Over-long input keeps its oldest entries by journal number. */
  function Admitted(t: Tiny, entries: Items): Items {
    if |entries| > RestoreCap(t.totalCap) then SortBy(entries, SeqRank())[..RestoreCap(t.totalCap)] else entries
  }

  function Live(s: Items, now: real): Items {
    if s == [] then []
    else Live(s[..|s| - 1], now) + if s[|s| - 1].1.expiresAt - now <= 0.0 then [] else [s[|s| - 1]]
  }

  function Dead(s: Items, now: real): Items {
    if s == [] then []
    else Dead(s[..|s| - 1], now) + if s[|s| - 1].1.expiresAt - now <= 0.0 then [s[|s| - 1]] else []
  }

  function ByLife(t: Tiny, entries: Items, now: real): Items {
    SortBy(Live(Admitted(t, entries), now), LifeRank(now))
  }

  /** How many of the shortest-lived entries the main segments have no room for. */
  function Cutoff(t: Tiny, entries: Items, now: real): nat {
    Monus(|ByLife(t, entries, now)|, t.caps.main)
  }

  function InsertAll(s: Items, add: Items): Items {
    if add == [] then s
    else PutBack(InsertAll(s, add[..|add| - 1]), add[|add| - 1].0, add[|add| - 1].1)
  }

  /** The restored cache, and the number of entries not taken over. */
  function Restore(t: Tiny, hash: CacheKey -> nat, entries: Items, now: real): (Tiny, nat)
    requires t.sketch.Valid()
  {
    var start := Cutoff(t, entries, now);
    var kept := InsertAll([], ByLife(t, entries, now)[start..]);
    var r := Evict(Segments([], [], kept), t.caps, FreqOf(Empty(), hash));
    (t.(segs := r.segs, sketch := Empty()), start + Monus(|entries|, RestoreCap(t.totalCap)))
  }

  lemma {:induction false} LiveDead(s: Items, now: real)
    ensures multiset(s) == multiset(Live(s, now)) + multiset(Dead(s, now))
    ensures |Live(s, now)| + |Dead(s, now)| == |s|
    ensures forall p :: p in Live(s, now) ==> p.1.expiresAt > now
    ensures forall p :: p in Dead(s, now) ==> p.1.expiresAt <= now
  {
    if s != [] {
      assert s == s[..|s| - 1] + [s[|s| - 1]];
      LiveDead(s[..|s| - 1], now);
    }
  }

  lemma {:induction false} InsertAllFresh(add: Items)
    requires Distinct(add)
    ensures InsertAll([], add) == add
  {
    if add != [] {
      var front, last := add[..|add| - 1], add[|add| - 1];
      InsertAllFresh(front);
      LastFresh(add);
      FreshPut(front, last.0, last.1);
      hide PutBack, Distinct;
      assert add == front + [last];
    }
  }

  lemma LastFresh(add: Items)
    requires Distinct(add) && add != []
    ensures Distinct(add[..|add| - 1])
    ensures forall p :: p in add[..|add| - 1] ==> p.0 != add[|add| - 1].0
  {
  }

  lemma AdmittedPart(t: Tiny, entries: Items)
    requires Distinct(entries)
    ensures Distinct(Admitted(t, entries)) && multiset(Admitted(t, entries)) <= multiset(entries)
    ensures |Admitted(t, entries)| == |entries| - Monus(|entries|, RestoreCap(t.totalCap))
  {
    var rank := SeqRank();
    SortByCorrect(entries, rank);
    var sorted := SortBy(entries, rank);
    DistinctSub(entries, sorted);
    if |entries| > RestoreCap(t.totalCap) {
      var n := RestoreCap(t.totalCap);
      assert sorted == sorted[..n] + sorted[n..];
    }
  }

  lemma ByLifeCorrect(t: Tiny, entries: Items, now: real)
    requires Distinct(entries)
    ensures var v := ByLife(t, entries, now);
            && Distinct(v) && multiset(v) == multiset(Live(Admitted(t, entries), now))
            && |v| == |Live(Admitted(t, entries), now)|
            && SortedBy(v, LifeRank(now))
  {
    AdmittedPart(t, entries);
    LiveDead(Admitted(t, entries), now);
    SortByCorrect(Live(Admitted(t, entries), now), LifeRank(now));
    DistinctSub(Admitted(t, entries), ByLife(t, entries, now));
  }

  /** Restoring distinct keys accounts for every one of them: it is stored unchanged,
      was expired, or is counted as not taken over. As many unexpired entries are
      stored as the main segments hold, those that live longest, and the final
      rebalancing loses none. */
  lemma RestoreAccounts(t: Tiny, hash: CacheKey -> nat, entries: Items, now: real)
    requires Valid(t) && Distinct(entries)
    ensures var (s, unpersisted) := Restore(t, hash, entries, now);
            var v, start := ByLife(t, entries, now), Cutoff(t, entries, now);
            && Valid(s)
            && multiset(s.segs.All()) == multiset(v[start..])
            && |s.segs.All()| == Least(|v|, t.caps.main)
            && |entries| == |s.segs.All()| + |Dead(Admitted(t, entries), now)| + unpersisted
            && (forall i, j :: 0 <= i < start <= j < |v| ==> v[i].1.expiresAt - now <= v[j].1.expiresAt - now)
  {
    DefaultCapsSum(t.totalCap);
    ByLifeCorrect(t, entries, now);
    AdmittedPart(t, entries);
    LiveDead(Admitted(t, entries), now);
    var v, start := ByLife(t, entries, now), Cutoff(t, entries, now);
    hide ByLife, Admitted, Dead, Live, InsertAll, Evict, DefaultCaps, RestoreCap, Sketch.Valid, Empty, Segments.All,
         Distinct, SortedBy;
    InsertAllTail(v, start);
    RestoreRebalance(v[start..], t.caps, FreqOf(Empty(), hash));
    SortedOrder(v, LifeRank(now));
  }

  lemma SortedOrder(v: Items, rank: CacheEntry -> real)
    requires SortedBy(v, rank)
    ensures forall i, j :: 0 <= i < j < |v| ==> rank(v[i].1) <= rank(v[j].1)
  {
  }

  lemma InsertAllTail(v: Items, start: nat)
    requires Distinct(v) && start <= |v|
    ensures Distinct(v[start..]) && InsertAll([], v[start..]) == v[start..]
  {
    InsertAllFresh(v[start..]);
  }

  lemma {:induction false} InsertAllDistinct(add: Items)
    ensures Distinct(InsertAll([], add)) && |InsertAll([], add)| <= |add|
  {
    if add != [] {
      var n := |add| - 1;
      InsertAllDistinct(add[..n]);
      PutBackMember(InsertAll([], add[..n]), add[n].0, add[n].1);
    }
  }

  /** Whatever is restored, the cache is left well-formed. */
  lemma RestoreKeepsValid(t: Tiny, hash: CacheKey -> nat, entries: Items, now: real)
    requires Valid(t)
    ensures Valid(Restore(t, hash, entries, now).0)
  {
    DefaultCapsSum(t.totalCap);
    var kept := ByLife(t, entries, now)[Cutoff(t, entries, now)..];
    hide InsertAll, ByLife, Evict, DefaultCaps, Segments.All, Distinct;
    InsertAllDistinct(kept);
    RestoreRebalance(InsertAll([], kept), t.caps, FreqOf(Empty(), hash));
  }

  lemma RestoreRebalance(kept: Items, caps: Caps, freq: Weight)
    requires Distinct(kept) && |kept| <= caps.main == caps.prob + caps.prot
    ensures var r := Evict(Segments([], [], kept), caps, freq);
            && multiset(r.segs.All()) == multiset(kept) && |r.segs.All()| == |kept|
            && Distinct(r.segs.All()) && WithinCaps(r.segs, caps)
  {
    hide Evict, Distinct;
    var g := Segments([], [], kept);
    assert g.All() == kept;
    EvictConserves(g, caps, freq);
    EvictDropsNothingIff(g, caps, freq);
    hide Segments.All, WithinCaps;
    SameSize(kept, Evict(g, caps, freq).segs.All());
  }

  function Least(a: nat, b: nat): nat {
    if a < b then a else b
  }
}
