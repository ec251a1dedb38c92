/** Where the W-TinyLFU cache puts things: which pair goes where, and which ones go, when
    a key is read or written and when the capacity changes. */
module TinyMoves {
  import opened Wrappers
  import opened Assoc
  import opened Entries
  import opened Operations
  import opened Sketches
  import opened TinyModel
  import opened TinyRuns

  // ---- lists ----

  /** `after` is `before` less a leading run of pairs that all satisfy `goes`, the longest
      one of at most `most` pairs. */
  ghost predicate Cut(before: Items, after: Items, most: nat, goes: CacheEntry -> bool) {
    && |after| <= |before|
    && var n := |before| - |after|;
       && n <= most && after == before[n..] && (forall i :: 0 <= i < n ==> goes(before[i].1))
       && (n < most && n < |before| ==> !goes(before[n].1))
  }

  lemma {:induction false} CutHead(before: Items, after: Items, most: nat, goes: CacheEntry -> bool)
    requires before != [] && most > 0 && goes(before[0].1) && Cut(before[1..], after, most - 1, goes)
    ensures Cut(before, after, most, goes)
  {
    var n := |before| - |after|;
    assert before[1..][n - 1..] == before[n..];
    forall i | 0 <= i < n
      ensures goes(before[i].1)
    {
      assert i > 0 ==> before[1..][i - 1] == before[i];
    }
    assert n < |before| ==> before[1..][n - 1] == before[n];
  }

  function Expired(now: real): CacheEntry -> bool {
    (e: CacheEntry) => e.expiresAt <= now
  }

  /** Expired, and for longer than the stale window. */
  function Beyond(now: real, sw: real): CacheEntry -> bool {
    (e: CacheEntry) => e.expiresAt <= now && (sw <= 0.0 || now - e.expiresAt > sw)
  }

  lemma {:induction false} SweptCut(s: Items, now: real, n: nat)
    ensures Cut(s, SweepFront(s, now, n), n, Expired(now))
  {
    if n > 0 && s != [] && s[0].1.expiresAt <= now {
      SweptCut(s[1..], now, n - 1);
      CutHead(s, SweepFront(s[1..], now, n - 1), n, Expired(now));
    }
  }

  lemma {:induction false} PurgedCut(s: Items, now: real, sw: real, n: nat)
    requires n >= |s|
    ensures Cut(s, PurgeOne(s, now, sw), n, Beyond(now, sw))
  {
    if s != [] && Removable(s[0].1, now, sw) {
      PurgedCut(s[1..], now, sw, n - 1);
      CutHead(s, PurgeOne(s[1..], now, sw), n, Beyond(now, sw));
    }
  }

  ghost predicate AllCut(g: Segments, h: Segments, most: nat, goes: CacheEntry -> bool) {
    && Cut(g.window, h.window, most, goes) && Cut(g.probation, h.probation, most, goes)
    && Cut(g.protected, h.protected, most, goes)
  }

  // ---- the segment that holds a key ----

  datatype Segment = Window | Probation | Protected

  function Of(g: Segments, where: Segment): Items {
    match where
    case Window => g.window
    case Probation => g.probation
    case Protected => g.protected
  }

  function With(g: Segments, where: Segment, s: Items): Segments {
    match where
    case Window => g.(window := s)
    case Probation => g.(probation := s)
    case Protected => g.(protected := s)
  }

  /** The pair of `k` stands in this segment between `a` and `b`. */
  ghost predicate Stands(g: Segments, where: Segment, a: Items, k: CacheKey, e: CacheEntry, b: Items) {
    Of(g, where) == a + [(k, e)] + b
  }

  /** Taking out or moving a pair concerns its own segment only. */
  lemma OnlyThere(g: Segments, where: Segment, a: Items, k: CacheKey, e: CacheEntry, b: Items, f: CacheEntry)
    requires Distinct(g.All()) && Stands(g, where, a, k, e, b)
    ensures Lookup(g.All(), k) == Some(e)
    ensures Has(g.window, k) == where.Window? && Has(g.probation, k) == where.Probation?
            && Has(g.protected, k) == where.Protected?
    ensures Drop(g, k) == With(g, where, a + b)
    ensures TouchIn(g, k) == With(g, where, a + b + [(k, e)])
    ensures Insert(g, k, f) == With(g, where, a + b + [(k, f)])
  {
    SegmentKeys(g);
    ListMoves(a, k, e, b, f);
    WhichSegment(g, k);
    hide Distinct, Has, Lookup, Without, Touch, PutBack, Segments.All;
    LookupNone(g, where, k);
    if !where.Window? {
      AbsentMoves(g.window, k, f);
    }
    if !where.Probation? {
      AbsentMoves(g.probation, k, f);
    }
    if !where.Protected? {
      AbsentMoves(g.protected, k, f);
    }
  }

  lemma LookupNone(g: Segments, where: Segment, k: CacheKey)
    requires Distinct(g.All()) && Has(Of(g, where), k)
    ensures Has(g.window, k) == where.Window? && Has(g.probation, k) == where.Probation?
            && Has(g.protected, k) == where.Protected?
  {
    WhichSegment(g, k);
  }

  // ---- reads ----

  /** Whether a hit in probation may move up: used often enough, and under the restriction
      more often than the key that would have to make room. */
  ghost predicate MayRise(t: Tiny, hash: CacheKey -> nat, k: CacheKey)
    requires t.sketch.Valid()
  {
    var f := t.sketch.Freq(hash(k));
    && f >= t.policy.promoteMinFreq
    && (t.policy.restrictPromotion && |t.segs.protected| >= t.caps.prot && t.segs.protected != [] ==>
          f > t.sketch.Freq(hash(t.segs.protected[0].0)))
  }

  /** A get that finds an unexpired entry hands it out and counts the use. In the window and
      in the protected segment the pair moves to the back, and nothing else moves. From
      probation it moves to the back of the protected segment, which gives up its oldest
      pair to the front of probation if it was full; a pair that may not rise moves to the
      back of probation. */
  lemma GetMoves(t: Tiny, hash: CacheKey -> nat, now: real, where: Segment, a: Items, k: CacheKey, e: CacheEntry,
                 b: Items)
    requires Valid(t) && Stands(t.segs, where, a, k, e, b) && e.expiresAt > now
    ensures var g, r := t.segs, TinyModel.Get(t, hash, k, now);
            && r.found == Some(e) && r.evicted == []
            && r.state == t.(sketch := t.sketch.Inc(hash(k), 1), segs := r.state.segs)
            && r.state.segs ==
               if !where.Probation? || !MayRise(t, hash, k) then With(g, where, a + b + [(k, e)])
               else if |g.protected| < t.caps.prot then Segments(g.window, a + b, g.protected + [(k, e)])
               else Segments(g.window, [g.protected[0]] + a + b, g.protected[1..] + [(k, e)])
  {
    DefaultCapsSum(t.totalCap);
    OnlyThere(t.segs, where, a, k, e, b, e);
    if where.Probation? {
      PromotedTo(t.segs, t.caps, a, k, e, b);
    }
    hide Drop, TouchIn, Insert, Promote, Distinct, Segments.All, DefaultCaps, Sketch.Inc, Sketch.Freq, Lookup;
  }

  lemma PromotedTo(g: Segments, caps: Caps, a: Items, k: CacheKey, e: CacheEntry, b: Items)
    requires Distinct(g.All()) && WithinCaps(g, caps) && caps.prot >= 1
    requires Stands(g, Probation, a, k, e, b)
    ensures Promote(g, caps.prot, k, e) ==
            if |g.protected| < caps.prot then Segments(g.window, a + b, g.protected + [(k, e)])
            else Segments(g.window, [g.protected[0]] + a + b, g.protected[1..] + [(k, e)])
  {
    hide Distinct, Without, PutBack, PutFront, Has, Lookup, Segments.All, WithinCaps;
    SegmentKeys(g);
    ListMoves(a, k, e, b, e);
    var t := g.protected;
    WithoutMemberKeys(g, k);
    FreshPut(t, k, e);
    if t != [] {
      FreshPut(a + b, t[0].0, t[0].1);
      assert forall p :: p in t[1..] ==> p in t;
      FreshPut(t[1..], k, e);
      assert [t[0]] + (a + b) == [t[0]] + a + b;
    }
    ProtectedFits(g, caps);
  }

  lemma ProtectedFits(g: Segments, caps: Caps)
    requires WithinCaps(g, caps) && caps.prot >= 1
    ensures |g.protected| >= caps.prot ==> g.protected != []
  {
  }

  /** An expired entry is never handed out. It goes if there is no stale window, and stays
      where it is otherwise; nothing else changes. */
  lemma GetExpired(t: Tiny, hash: CacheKey -> nat, now: real, where: Segment, a: Items, k: CacheKey, e: CacheEntry,
                   b: Items)
    requires Valid(t) && Stands(t.segs, where, a, k, e, b) && e.expiresAt <= now
    ensures TinyModel.Get(t, hash, k, now)
            == Outcome(if t.staleWindow == 0 then t.(segs := With(t.segs, where, a + b)) else t, [], None)
  {
    OnlyThere(t.segs, where, a, k, e, b, e);
    hide Drop, Distinct, Segments.All, DefaultCaps, Lookup;
  }

  /** A miss is counted. The 32nd, 64th and so on, if there is no stale window, clears each
      segment of expired entries at its head, four at most. */
  lemma GetMisses(t: Tiny, hash: CacheKey -> nat, k: CacheKey, now: real)
    requires Valid(t) && Stored(t, k) == None
    ensures var r := TinyModel.Get(t, hash, k, now);
            && r.found == None && r.evicted == []
            && r.state == t.(misses := t.misses + 1, segs := r.state.segs)
            && (if t.staleWindow == 0 && (t.misses + 1) % 32 == 0 then AllCut(t.segs, r.state.segs, 4, Expired(now))
                else r.state.segs == t.segs)
  {
    SweptCut(t.segs.window, now, 4);
    SweptCut(t.segs.probation, now, 4);
    SweptCut(t.segs.protected, now, 4);
    hide Cut, Segments.All, DefaultCaps, Distinct, SweepFront;
  }

  /** A stale read hands out only what has expired within its window, and moves that pair to
      the back of its segment; beyond the window the pair goes. Nothing is counted. */
  lemma GetStaleMoves(t: Tiny, now: real, window: real, where: Segment, a: Items, k: CacheKey, e: CacheEntry, b: Items)
    requires Valid(t) && Stands(t.segs, where, a, k, e, b)
    ensures TinyModel.GetStale(t, k, now, window) ==
            if e.expiresAt > now then Outcome(t, [], None)
            else if now - e.expiresAt <= window then
              Outcome(t.(segs := With(t.segs, where, a + b + [(k, e)])), [], Some(e))
            else Outcome(t.(segs := With(t.segs, where, a + b)), [], None)
  {
    OnlyThere(t.segs, where, a, k, e, b, e);
    hide Drop, TouchIn, Distinct, Segments.All, DefaultCaps, Lookup;
  }

  /** A peek hands out an unexpired entry and moves and counts nothing, but drops an expired
      one. */
  lemma PeekMoves(t: Tiny, now: real, where: Segment, a: Items, k: CacheKey, e: CacheEntry, b: Items)
    requires Valid(t) && Stands(t.segs, where, a, k, e, b)
    ensures TinyModel.Peek(t, k, now) ==
            if e.expiresAt > now then Outcome(t, [], Some(e))
            else Outcome(t.(segs := With(t.segs, where, a + b)), [], None)
  {
    OnlyThere(t.segs, where, a, k, e, b, e);
    hide Drop, Distinct, Segments.All, DefaultCaps, Lookup;
  }

  /** A deletion takes the pair out and leaves the rest as it is. */
  lemma DeleteMoves(t: Tiny, where: Segment, a: Items, k: CacheKey, e: CacheEntry, b: Items)
    requires Valid(t) && Stands(t.segs, where, a, k, e, b)
    ensures TinyModel.Delete(t, k) == Outcome(t.(segs := With(t.segs, where, a + b)), [], None)
  {
    OnlyThere(t.segs, where, a, k, e, b, e);
    hide Drop, Distinct, Segments.All, DefaultCaps, Lookup;
  }

  /** A cleared cache is a fresh one of the same capacity and policy, but for its counters
      and its stale window. */
  lemma ClearedFresh(t: Tiny)
    requires Valid(t)
    ensures TinyModel.Clear(t).state
            == Fresh(t.totalCap, t.policy).(puts := t.puts, misses := t.misses, staleWindow := t.staleWindow)
  {
  }

  // ---- writes ----

  /** Every 32nd put clears each segment of the entries at its head that are expired beyond
      the stale window; otherwise `mid` is what is left. */
  ghost predicate AfterPut(t: Tiny, mid: Segments, after: Segments, now: real) {
    if (t.puts + 1) % 32 == 0 then
      && AllCut(mid, after, |mid.All()|, Beyond(now, t.staleWindow as real))
    else after == mid
  }

  lemma PutShape(t: Tiny, hash: CacheKey -> nat, k: CacheKey, e: CacheEntry, now: real)
    requires Valid(t)
    ensures var r := TinyModel.Put(t, hash, k, e, now);
            var v := Evict(Insert(t.segs, k, e), t.caps, FreqOf(t.sketch.Inc(hash(k), 1), hash));
            && r.found == None && r.evicted == KeySeq(v.dropped) && AfterPut(t, v.segs, r.state.segs, now)
            && r.state == t.(sketch := t.sketch.Inc(hash(k), 1), puts := t.puts + 1, segs := r.state.segs)
  {
    hide Cut, DefaultCaps, Distinct, PurgeOne, Insert, Evict, Sketch.Inc, Sketch.Valid, WithinCaps, AllCut, KeySeq;
    var v := Evict(Insert(t.segs, k, e), t.caps, FreqOf(t.sketch.Inc(hash(k), 1), hash));
    PurgeCuts(v.segs, now, t.staleWindow as real);
  }

  lemma PurgeCuts(g: Segments, now: real, sw: real)
    ensures AllCut(g, PurgeAll(g, now, sw), |g.All()|, Beyond(now, sw))
  {
    hide Cut, PurgeOne;
    var n := |g.All()|;
    PurgedCut(g.window, now, sw, n);
    PurgedCut(g.probation, now, sw, n);
    PurgedCut(g.protected, now, sw, n);
  }

  /** Writing a stored key puts the new entry at the back of the segment that holds it, and
      moves and evicts nothing else. The use is counted. */
  lemma PutAgain(t: Tiny, hash: CacheKey -> nat, now: real, where: Segment, a: Items, k: CacheKey, old_: CacheEntry,
                 b: Items, e: CacheEntry)
    requires Valid(t) && Stands(t.segs, where, a, k, old_, b)
    ensures var r := TinyModel.Put(t, hash, k, e, now);
            && r.evicted == [] && AfterPut(t, With(t.segs, where, a + b + [(k, e)]), r.state.segs, now)
            && r.state == t.(sketch := t.sketch.Inc(hash(k), 1), puts := t.puts + 1, segs := r.state.segs)
  {
    PutShape(t, hash, k, e, now);
    OnlyThere(t.segs, where, a, k, old_, b, e);
    var mid := With(t.segs, where, a + b + [(k, e)]);
    EvictIdle(mid, t.caps, FreqOf(t.sketch.Inc(hash(k), 1), hash));
    hide Insert, Evict, AfterPut, Distinct, Segments.All, DefaultCaps, Sketch.Inc;
    assert KeySeq<CacheKey, CacheEntry>([]) == [];
  }

  /** A new key goes to the back of the window. If the window was full its oldest pair moves
      on: to the back of probation while that has room, else to the back of the protected
      segment while that has, and else into a contest with the oldest pair of probation, in
      which the one used less is evicted, and on a tie the one from the window. */
  lemma PutNew(t: Tiny, hash: CacheKey -> nat, k: CacheKey, e: CacheEntry, now: real)
    requires Valid(t) && Stored(t, k) == None
    ensures var g, r, f := t.segs, TinyModel.Put(t, hash, k, e, now), t.sketch.Inc(hash(k), 1);
            var w := g.window + [(k, e)];
            && (|g.probation| >= t.caps.prob ==> g.probation != [])
            && r.state == t.(sketch := f, puts := t.puts + 1, segs := r.state.segs)
            && if |g.window| < t.caps.win then r.evicted == [] && AfterPut(t, g.(window := w), r.state.segs, now)
               else if |g.probation| < t.caps.prob then
                 && r.evicted == []
                 && AfterPut(t, Segments(w[1..], g.probation + [w[0]], g.protected), r.state.segs, now)
               else if |g.protected| < t.caps.prot then
                 && r.evicted == []
                 && AfterPut(t, Segments(w[1..], g.probation, g.protected + [w[0]]), r.state.segs, now)
               else if f.Freq(hash(w[0].0)) > f.Freq(hash(g.probation[0].0)) then
                 && r.evicted == [g.probation[0].0]
                 && AfterPut(t, Segments(w[1..], g.probation[1..] + [w[0]], g.protected), r.state.segs, now)
               else
                 && r.evicted == [w[0].0]
                 && AfterPut(t, Segments(w[1..], g.probation, g.protected), r.state.segs, now)
  {
    hide Insert, Evict, AfterPut, Distinct, Segments.All, DefaultCaps, Sketch.Inc, Sketch.Freq, Lookup, KeySeq, Valid;
    PutShape(t, hash, k, e, now);
    InsertedNew(t, hash, k, e);
    ValidSketch(t);
    var v := Evict(Insert(t.segs, k, e), t.caps, FreqOf(t.sketch.Inc(hash(k), 1), hash));
    FewKeys(v.dropped);
  }

  lemma FewKeys(s: Items)
    ensures s == [] ==> KeySeq(s) == []
    ensures |s| == 1 ==> KeySeq(s) == [s[0].0]
  {
  }

  /** The same before the occasional purge. */
  lemma InsertedNew(t: Tiny, hash: CacheKey -> nat, k: CacheKey, e: CacheEntry)
    requires Valid(t) && Stored(t, k) == None
    ensures t.sketch.Valid()
    ensures var g, f, w := t.segs, t.sketch.Inc(hash(k), 1), t.segs.window + [(k, e)];
            && (|g.probation| >= t.caps.prob ==> g.probation != [])
            && Evict(Insert(g, k, e), t.caps, FreqOf(f, hash)) ==
               if |g.window| < t.caps.win then Trimmed(g.(window := w), [])
               else if |g.probation| < t.caps.prob then
                 Trimmed(Segments(w[1..], g.probation + [w[0]], g.protected), [])
               else if |g.protected| < t.caps.prot then
                 Trimmed(Segments(w[1..], g.probation, g.protected + [w[0]]), [])
               else if f.Freq(hash(w[0].0)) > f.Freq(hash(g.probation[0].0)) then
                 Trimmed(Segments(w[1..], g.probation[1..] + [w[0]], g.protected), [g.probation[0]])
               else Trimmed(Segments(w[1..], g.probation, g.protected), [w[0]])
  {
    DefaultCapsSum(t.totalCap);
    InsertShape(t.segs, k, e);
    InsertEffect(t.segs, t.caps, k, e, k);
    var g, f := Insert(t.segs, k, e), FreqOf(t.sketch.Inc(hash(k), 1), hash);
    hide Insert, Distinct, Segments.All, DefaultCaps, Sketch.Inc, Sketch.Freq, Lookup, Evict;
    if |t.segs.window| < t.caps.win {
      EvictIdle(g, t.caps, f);
    } else {
      OneOver(g, t.caps, f);
    }
  }

  /** One pair too many in the window. */
  lemma OneOver(g: Segments, caps: Caps, freq: Weight)
    requires Distinct(g.All()) && caps.prob + caps.prot == caps.main && caps.prob >= 1
    requires |g.window| == caps.win + 1 && |g.probation| <= caps.prob && |g.protected| <= caps.prot
    ensures var w, rest := g.window[0], g.window[1..];
            && (|g.probation| >= caps.prob ==> g.probation != [])
            && Evict(g, caps, freq) ==
               if |g.probation| < caps.prob then Trimmed(Segments(rest, g.probation + [w], g.protected), [])
               else if |g.protected| < caps.prot then Trimmed(Segments(rest, g.probation, g.protected + [w]), [])
               else if freq(w.0) > freq(g.probation[0].0) then
                 Trimmed(Segments(rest, g.probation[1..] + [w], g.protected), [g.probation[0]])
               else Trimmed(Segments(rest, g.probation, g.protected), [w])
  {
    HeadFresh(g);
    DrainUnfold(g, caps, freq);
    var next := DrainNext(g, caps, freq);
    DrainIdle(next.segs, caps, freq);
    hide Distinct, Segments.All, PutBack, DrainWindow;
    assert next.dropped + [] == next.dropped;
    EvictMains(g, caps, freq, next);
  }

  /** With the window drained and the main segments within their capacities the rest of the
      eviction does nothing. */
  lemma EvictMains(g: Segments, caps: Caps, freq: Weight, a: Trimmed)
    requires DrainWindow(g, caps, freq) == a
    requires |a.segs.probation| <= caps.prob && |a.segs.protected| <= caps.prot
    ensures Evict(g, caps, freq) == a
  {
    hide DrainWindow;
    assert a.segs.probation[0..] == a.segs.probation && a.dropped + [] == a.dropped;
  }

  // ---- changing the capacity ----

  function Smaller(a: nat, b: nat): (m: nat) {
    if a < b then a else b
  }

  /** How many of the first `i` rounds were won. */
  function Wins(wins: seq<bool>, i: nat): (n: nat)
    requires i <= |wins|
    ensures n <= i
  {
    if i == 0 then 0 else Wins(wins, i - 1) + if wins[i - 1] then 1 else 0
  }

  lemma {:induction false} WinsLater(wins: seq<bool>, i: nat)
    requires 0 < i <= |wins|
    ensures Wins(wins, i) == Wins(wins[1..], i - 1) + if wins[0] then 1 else 0
  {
    if i > 1 {
      WinsLater(wins, i - 1);
      assert wins[1..][i - 2] == wins[i - 1];
    }
  }

  /** Round `i` of a contest: the challenger meets the oldest pair left of the queue. The one
      used less goes, on a tie the challenger; a challenger that wins joins the queue at the
      back. */
  ghost predicate Round(held: Items, challengers: Items, freq: Weight, wins: seq<bool>, line: Items, losers: Items,
                        i: nat)
    requires i < |wins| == |challengers| == |losers|
  {
    var c := Wins(wins, i);
    && c < |line|
    && (wins[i] <==> freq(challengers[i].0) > freq(line[c].0))
    && (wins[i] ==> |held| + c < |line| && line[|held| + c] == challengers[i])
    && losers[i] == if wins[i] then line[c] else challengers[i]
  }

  /** The challengers come up one after the other against the queue `line`, which begins as
      `held`. */
  ghost predicate Contest(held: Items, challengers: Items, freq: Weight, wins: seq<bool>, line: Items, losers: Items) {
    && |wins| == |challengers| == |losers|
    && |line| == |held| + Wins(wins, |wins|) && line[..|held|] == held
    && forall i :: 0 <= i < |wins| ==> Round(held, challengers, freq, wins, line, losers, i)
  }

  lemma ContestDone(held: Items, freq: Weight)
    ensures Contest(held, [], freq, [], held, [])
  {
  }

  /** A round of the contest that follows a round won, and one that follows a round lost. */
  lemma RoundAfterWin(held: Items, w: (CacheKey, CacheEntry), rest: Items, freq: Weight, wins: seq<bool>, line: Items,
                      losers: Items, i: nat)
    requires held != [] && i < |wins| == |rest| == |losers|
    requires Round(held[1..] + [w], rest, freq, wins, line, losers, i)
    ensures Round(held, [w] + rest, freq, [true] + wins, [held[0]] + line, [held[0]] + losers, i + 1)
  {
    var wins' := [true] + wins;
    assert wins'[1..] == wins;
    WinsLater(wins', i + 1);
    hide Wins;
    var c, line' := Wins(wins, i), [held[0]] + line;
    assert wins'[i + 1] == wins[i] && ([w] + rest)[i + 1] == rest[i] && ([held[0]] + losers)[i + 1] == losers[i];
    assert line'[c + 1] == line[c];
    assert wins[i] ==> line'[|held| + (c + 1)] == line[|held| + c];
  }

  lemma RoundAfterLoss(held: Items, w: (CacheKey, CacheEntry), rest: Items, freq: Weight, wins: seq<bool>, line: Items,
                       losers: Items, i: nat)
    requires i < |wins| == |rest| == |losers|
    requires Round(held, rest, freq, wins, line, losers, i)
    ensures Round(held, [w] + rest, freq, [false] + wins, line, [w] + losers, i + 1)
  {
    var wins' := [false] + wins;
    assert wins'[1..] == wins;
    WinsLater(wins', i + 1);
    hide Wins;
    assert wins'[i + 1] == wins[i] && ([w] + rest)[i + 1] == rest[i] && ([w] + losers)[i + 1] == losers[i];
  }

  lemma ContestWon(held: Items, w: (CacheKey, CacheEntry), rest: Items, freq: Weight, wins: seq<bool>, line: Items,
                   losers: Items)
    requires held != [] && freq(w.0) > freq(held[0].0)
    requires Contest(held[1..] + [w], rest, freq, wins, line, losers)
    ensures Contest(held, [w] + rest, freq, [true] + wins, [held[0]] + line, [held[0]] + losers)
    ensures Wins(wins, |wins|) <= |line| && Wins([true] + wins, |wins| + 1) == 1 + Wins(wins, |wins|)
  {
    hide Round, Wins;
    var wins', line' := [true] + wins, [held[0]] + line;
    assert wins'[1..] == wins;
    WinsLater(wins', |wins'|);
    FirstRound(wins');
    HeldShift(held, w, line);
    RoundOne(held, [w] + rest, freq, wins', line', [held[0]] + losers);
    forall i | 0 < i < |wins'|
      ensures Round(held, [w] + rest, freq, wins', line', [held[0]] + losers, i)
    {
      RoundAfterWin(held, w, rest, freq, wins, line, losers, i - 1);
    }
    ContestFrom(held, [w] + rest, freq, wins', line', [held[0]] + losers);
  }

  lemma HeldShift(held: Items, w: (CacheKey, CacheEntry), line: Items)
    requires held != [] && |line| >= |held| && line[..|held|] == held[1..] + [w]
    ensures var line' := [held[0]] + line; line'[..|held|] == held && |line'| > |held| && line'[|held|] == w
  {
    var mid := held[1..] + [w];
    assert line[|held| - 1] == line[..|held|][|held| - 1] == mid[|held| - 1];
    assert forall i :: 0 < i < |held| ==> line[i - 1] == line[..|held|][i - 1] == mid[i - 1] == held[i];
  }

  /** The first round and all later ones make a contest. */
  lemma ContestFrom(held: Items, challengers: Items, freq: Weight, wins: seq<bool>, line: Items, losers: Items)
    requires 0 < |wins| == |challengers| == |losers|
    requires |line| == |held| + Wins(wins, |wins|) && line[..|held|] == held
    requires Round(held, challengers, freq, wins, line, losers, 0)
    requires forall i :: 0 < i < |wins| ==> Round(held, challengers, freq, wins, line, losers, i)
    ensures Contest(held, challengers, freq, wins, line, losers)
  {
    hide Round, Wins;
  }

  lemma FirstRound(wins: seq<bool>)
    ensures Wins(wins, 0) == 0
  {
  }

  lemma RoundOne(held: Items, challengers: Items, freq: Weight, wins: seq<bool>, line: Items, losers: Items)
    requires 0 < |wins| == |challengers| == |losers| && held != [] && |line| >= |held| && line[0] == held[0]
    requires wins[0] <==> freq(challengers[0].0) > freq(held[0].0)
    requires wins[0] ==> |line| > |held| && line[|held|] == challengers[0]
    requires losers[0] == if wins[0] then held[0] else challengers[0]
    ensures Round(held, challengers, freq, wins, line, losers, 0)
  {
  }

  lemma ContestLost(held: Items, w: (CacheKey, CacheEntry), rest: Items, freq: Weight, wins: seq<bool>, line: Items,
                    losers: Items)
    requires held != [] && freq(w.0) <= freq(held[0].0)
    requires Contest(held, rest, freq, wins, line, losers)
    ensures Contest(held, [w] + rest, freq, [false] + wins, line, [w] + losers)
    ensures Wins(wins, |wins|) <= |line| && Wins([false] + wins, |wins| + 1) == Wins(wins, |wins|)
  {
    hide Round, Wins;
    var wins' := [false] + wins;
    assert wins'[1..] == wins;
    WinsLater(wins', |wins'|);
    assert line[0] == line[..|held|][0] == held[0];
    RoundOne(held, [w] + rest, freq, wins', line, [w] + losers);
    forall i | 0 < i < |wins'|
      ensures Round(held, [w] + rest, freq, wins', line, [w] + losers, i)
    {
      RoundAfterLoss(held, w, rest, freq, wins, line, losers, i - 1);
    }
    ContestFrom(held, [w] + rest, freq, wins', line, [w] + losers);
  }

  /** With the main segments full, the window's surplus fights it out. */
  lemma {:induction false} DrainContest(g: Segments, caps: Caps, freq: Weight) returns (wins: seq<bool>, line: Items)
    requires Distinct(g.All()) && g.probation != []
    requires |g.probation| >= caps.prob && |g.probation| + |g.protected| >= caps.main
    ensures var r, n := DrainWindow(g, caps, freq), Monus(|g.window|, caps.win);
            && Contest(g.probation, g.window[..n], freq, wins, line, r.dropped)
            && r.segs == Segments(g.window[n..], line[Wins(wins, |wins|)..], g.protected)
    decreases |g.window|
  {
    hide Distinct, DrainWindow, Segments.All, PutBack, Contest, DrainNext, Wins;
    if |g.window| <= caps.win {
      wins, line := [], g.probation;
      DrainIdle(g, caps, freq);
      ContestDone(g.probation, freq);
      NoWins(line);
      assert g.window[..0] == [] && g.window[0..] == g.window;
    } else {
      var next, n := DrainNext(g, caps, freq), |g.window| - caps.win;
      ContestRound(g, caps, freq);
      DrainUnfold(g, caps, freq);
      wins, line := DrainContest(next.segs, caps, freq);
      var w, c, r := g.window[0], g.window[1..n], DrainWindow(next.segs, caps, freq);
      WindowParts(g.window, n);
      if freq(w.0) > freq(g.probation[0].0) {
        ContestWon(g.probation, w, c, freq, wins, line, r.dropped);
        TailShift(g.probation[0], line, Wins(wins, |wins|));
        wins, line := [true] + wins, [g.probation[0]] + line;
      } else {
        ContestLost(g.probation, w, c, freq, wins, line, r.dropped);
        wins := [false] + wins;
      }
    }
  }

  lemma WindowParts(s: Items, n: nat)
    requires 0 < n <= |s|
    ensures s[1..][..n - 1] == s[1..n] && s[..n] == [s[0]] + s[1..n] && s[1..][n - 1..] == s[n..]
  {
  }

  lemma TailShift(p: (CacheKey, CacheEntry), line: Items, n: nat)
    requires n <= |line|
    ensures ([p] + line)[1 + n..] == line[n..]
  {
  }

  /** One round of that contest. */
  lemma ContestRound(g: Segments, caps: Caps, freq: Weight)
    requires Distinct(g.All()) && g.probation != [] && |g.window| > caps.win
    requires |g.probation| >= caps.prob && |g.probation| + |g.protected| >= caps.main
    ensures var w, p, next := g.window[0], g.probation[0], DrainNext(g, caps, freq);
            && Distinct(next.segs.All())
            && next == if freq(w.0) > freq(p.0)
                       then Trimmed(Segments(g.window[1..], g.probation[1..] + [w], g.protected), [p])
                       else Trimmed(Segments(g.window[1..], g.probation, g.protected), [w])
  {
    HeadFresh(g);
    DrainStep(g, caps, freq);
    var next := DrainNext(g, caps, freq);
    hide Distinct, Segments.All, PutBack;
    ConservesDistinct(g.All(), next.segs.All(), next.dropped);
  }


  lemma StepToBack(g: Segments, caps: Caps, freq: Weight)
    requires Distinct(g.All()) && |g.window| > caps.win
    requires |g.probation| < caps.prob || |g.probation| + |g.protected| < caps.main
    ensures var w, rest := g.window[0], g.window[1..];
            var h := if |g.probation| < caps.prob then Segments(rest, g.probation + [w], g.protected)
                     else Segments(rest, g.probation, g.protected + [w]);
            Distinct(h.All()) && DrainWindow(g, caps, freq) == DrainWindow(h, caps, freq)
  {
    HeadFresh(g);
    DrainStep(g, caps, freq);
    hide Distinct, Segments.All, PutBack, DrainWindow;
    var next := DrainNext(g, caps, freq);
    ConservesDistinct(g.All(), next.segs.All(), next.dropped);
    DrainUnfold(g, caps, freq);
    assert next.dropped == [];
    NothingBefore(DrainWindow(next.segs, caps, freq));
  }

  lemma NothingBefore(r: Trimmed)
    ensures Trimmed(r.segs, [] + r.dropped) == r
  {
    assert [] + r.dropped == r.dropped;
  }

  /** While probation has room the window's surplus goes there. */
  lemma {:induction false} DrainToProbation(g: Segments, caps: Caps, freq: Weight, n: nat)
    requires Distinct(g.All()) && n <= Monus(|g.window|, caps.win) && n <= Monus(caps.prob, |g.probation|)
    ensures var h := Segments(g.window[n..], g.probation + g.window[..n], g.protected);
            Distinct(h.All()) && DrainWindow(g, caps, freq) == DrainWindow(h, caps, freq)
    decreases n
  {
    hide Distinct, Segments.All, DrainWindow;
    if n == 0 {
      assert g.window[0..] == g.window && g.probation + g.window[..0] == g.probation;
    } else {
      StepToBack(g, caps, freq);
      DrainToProbation(Segments(g.window[1..], g.probation + [g.window[0]], g.protected), caps, freq, n - 1);
      assert g.window[1..][n - 1..] == g.window[n..];
      assert g.probation + [g.window[0]] + g.window[1..][..n - 1] == g.probation + g.window[..n];
    }
  }

  /** After that, while the main segments have room, it goes to the protected one. */
  lemma {:induction false} DrainToProtected(g: Segments, caps: Caps, freq: Weight, n: nat)
    requires Distinct(g.All()) && n <= Monus(|g.window|, caps.win) && |g.probation| >= caps.prob
    requires n <= Monus(caps.main, |g.probation| + |g.protected|)
    ensures var h := Segments(g.window[n..], g.probation, g.protected + g.window[..n]);
            Distinct(h.All()) && DrainWindow(g, caps, freq) == DrainWindow(h, caps, freq)
    decreases n
  {
    hide Distinct, Segments.All, DrainWindow;
    if n == 0 {
      assert g.window[0..] == g.window && g.protected + g.window[..0] == g.protected;
    } else {
      StepToBack(g, caps, freq);
      DrainToProtected(Segments(g.window[1..], g.probation, g.protected + [g.window[0]]), caps, freq, n - 1);
      assert g.window[1..][n - 1..] == g.window[n..];
      assert g.protected + [g.window[0]] + g.window[1..][..n - 1] == g.protected + g.window[..n];
    }
  }

  function Reversed(s: Items): (r: Items)
    ensures |r| == |s| && forall i :: 0 <= i < |s| ==> r[i] == s[|s| - 1 - i]
  {
    seq(|s|, i requires 0 <= i < |s| => s[|s| - 1 - i])
  }

  /** Protected overflow ends up in front of probation, the oldest pair deepest. */
  lemma {:induction false} Demoted(g: Segments, caps: Caps)
    requires Distinct(g.All())
    ensures var m := Monus(|g.protected|, caps.prot);
            DrainProtected(g, caps) == Segments(g.window, Reversed(g.protected[..m]) + g.probation, g.protected[m..])
    decreases |g.protected|
  {
    hide Distinct, Segments.All, PutFront, DrainProtected;
    DemoteStep(g, caps);
    var m := Monus(|g.protected|, caps.prot);
    if m == 0 {
      assert Reversed(g.protected[..0]) + g.probation == g.probation && g.protected[0..] == g.protected;
    } else {
      var p, t := g.protected[0], g.protected[1..];
      DemotedOne(g);
      Demoted(Segments(g.window, [p] + g.probation, t), caps);
      WindowParts(g.protected, m);
      ReversedCons(p, g.protected[1..m], g.probation);
    }
  }

  lemma ReversedCons(p: (CacheKey, CacheEntry), s: Items, q: Items)
    ensures Reversed(s) + ([p] + q) == Reversed([p] + s) + q
  {
    assert Reversed([p] + s) == Reversed(s) + [p];
  }

  lemma DemoteStep(g: Segments, caps: Caps)
    ensures |g.protected| <= caps.prot ==> DrainProtected(g, caps) == g
    ensures |g.protected| > caps.prot ==>
              var p := g.protected[0];
              DrainProtected(g, caps)
              == DrainProtected(Segments(g.window, PutFront(g.probation, p.0, p.1), g.protected[1..]), caps)
  {
    hide PutFront;
  }

  lemma DemotedOne(g: Segments)
    requires Distinct(g.All()) && g.protected != []
    ensures var p := g.protected[0];
            && PutFront(g.probation, p.0, p.1) == [p] + g.probation
            && Distinct(Segments(g.window, [p] + g.probation, g.protected[1..]).All())
  {
    var p := g.protected[0];
    SegmentKeys(g);
    assert p in g.protected;
    hide Distinct;
    FreshPut(g.probation, p.0, p.1);
    NextDistinct(g, p);
  }

  /** The window's surplus, and how much of it finds room in probation and then in the
      protected segment. */
  function Surplus(g: Segments, caps: Caps): nat {
    Monus(|g.window|, caps.win)
  }

  function RoomA(g: Segments, caps: Caps): (n: nat)
    ensures n <= Surplus(g, caps)
  {
    Smaller(Surplus(g, caps), Monus(caps.prob, |g.probation|))
  }

  function RoomB(g: Segments, caps: Caps): (n: nat)
    ensures RoomA(g, caps) + n <= Surplus(g, caps)
  {
    Smaller(Surplus(g, caps) - RoomA(g, caps), Monus(caps.main, |g.probation| + RoomA(g, caps) + |g.protected|))
  }

  lemma DrainRooms(g: Segments, caps: Caps, freq: Weight)
    requires Distinct(g.All())
    ensures var x, y := RoomA(g, caps), RoomB(g, caps);
            var h := Segments(g.window[x + y..], g.probation + g.window[..x], g.protected + g.window[x..x + y]);
            && Distinct(h.All()) && DrainWindow(g, caps, freq) == DrainWindow(h, caps, freq)
            && (|h.window| > caps.win ==> |h.probation| >= caps.prob && |h.probation| + |h.protected| >= caps.main)
  {
    hide Distinct, Segments.All, DrainWindow;
    var x, y := RoomA(g, caps), RoomB(g, caps);
    DrainToProbation(g, caps, freq, x);
    var h := Segments(g.window[x..], g.probation + g.window[..x], g.protected);
    assert h.window[..y] == g.window[x..x + y] && h.window[y..] == g.window[x + y..];
    if |h.probation| >= caps.prob {
      DrainToProtected(h, caps, freq, y);
    } else {
      assert y == 0 && h.protected + [] == h.protected && h.window[..0] == [];
    }
  }

  /** What making room does to the window, in full: of its surplus, oldest first, as many
      pairs as probation has room for go to its back, then as many as the main segments have
      room for to the back of the protected one, and the others into the contest. */
  lemma DrainOutcome(g: Segments, caps: Caps, freq: Weight) returns (wins: seq<bool>, line: Items)
    requires Distinct(g.All()) && caps.prob >= 1
    ensures var n, x, y := Surplus(g, caps), RoomA(g, caps), RoomB(g, caps);
            var r := DrainWindow(g, caps, freq);
            && Contest(g.probation + g.window[..x], g.window[x + y..n], freq, wins, line, r.dropped)
            && ContestSpan(wins, line)
            && r.segs == Segments(g.window[n..], line[Wins(wins, |wins|)..], g.protected + g.window[x..x + y])
  {
    hide Distinct, Segments.All, DrainWindow, Contest, Wins, RoomA, RoomB;
    var n, x, y := Surplus(g, caps), RoomA(g, caps), RoomB(g, caps);
    DrainRooms(g, caps, freq);
    var h := Segments(g.window[x + y..], g.probation + g.window[..x], g.protected + g.window[x..x + y]);
    var m := Monus(|h.window|, caps.win);
    assert h.window[..m] == g.window[x + y..n] && h.window[m..] == g.window[n..];
    if |h.window| > caps.win {
      wins, line := DrainContest(h, caps, freq);
      ContestSize(h.probation, g.window[x + y..n], freq, wins, line, DrainWindow(g, caps, freq).dropped);
    } else {
      wins, line := [], h.probation;
      DrainIdle(h, caps, freq);
      assert g.window[x + y..n] == [];
      ContestDone(h.probation, freq);
      NoWins(line);
    }
  }

  /** What the rest of the eviction does: the protected overflow returns to the front of
      probation, the pair taken last foremost, and what probation cannot hold is dropped from
      its front. */
  lemma MainsOutcome(g: Segments, caps: Caps, freq: Weight)
    requires Distinct(g.All())
    ensures var a := DrainWindow(g, caps, freq);
            var z := Monus(|a.segs.protected|, caps.prot);
            var all := Reversed(a.segs.protected[..z]) + a.segs.probation;
            var over := Monus(|all|, caps.prob);
            Evict(g, caps, freq)
            == Trimmed(Segments(a.segs.window, all[over..], a.segs.protected[z..]), a.dropped + all[..over])
  {
    hide Distinct, Segments.All, DrainWindow, DrainProtected;
    DrainedDistinct(g, caps, freq);
    Demoted(DrainWindow(g, caps, freq).segs, caps);
  }

  /** Who is evicted by a resize, in which order, and where everyone else ends up. */
  lemma ResizeOutcome(t: Tiny, hash: CacheKey -> nat, n: nat) returns (wins: seq<bool>, line: Items, losers: Items)
    requires Valid(t)
    ensures var g, f, caps := t.segs, FreqOf(t.sketch, hash), DefaultCaps(if n < 16 then 16 else n);
            var s, x, y := Surplus(g, caps), RoomA(g, caps), RoomB(g, caps);
            && Contest(g.probation + g.window[..x], g.window[x + y..s], f, wins, line, losers)
            && ContestSpan(wins, line)
            && var prot := g.protected + g.window[x..x + y];
               var z := Monus(|prot|, caps.prot);
               var all := Reversed(prot[..z]) + line[Wins(wins, |wins|)..];
               var over := Monus(|all|, caps.prob);
               && TinyModel.SetCapacity(t, hash, n).evicted == KeySeq(losers + all[..over])
               && TinyModel.SetCapacity(t, hash, n).state
                  == t.(totalCap := if n < 16 then 16 else n, caps := caps,
                        segs := Segments(g.window[s..], all[over..], prot[z..]))
  {
    var caps := DefaultCaps(if n < 16 then 16 else n);
    DefaultCapsSum(if n < 16 then 16 else n);
    hide Distinct, Segments.All, DrainWindow, Evict, Contest, Wins, RoomA, RoomB, ComputeRatio, Sketch.Valid, KeySeq;
    wins, line := DrainOutcome(t.segs, caps, FreqOf(t.sketch, hash));
    losers := DrainWindow(t.segs, caps, FreqOf(t.sketch, hash)).dropped;
    MainsOutcome(t.segs, caps, FreqOf(t.sketch, hash));
  }

  lemma ContestSize(held: Items, challengers: Items, freq: Weight, wins: seq<bool>, line: Items, losers: Items)
    requires Contest(held, challengers, freq, wins, line, losers)
    ensures ContestSpan(wins, line)
  {
  }

  predicate ContestSpan(wins: seq<bool>, line: Items) {
    Wins(wins, |wins|) <= |line|
  }

  lemma NoWins(line: Items)
    ensures Wins([], 0) == 0 && line[0..] == line
  {
  }

  lemma DrainedDistinct(g: Segments, caps: Caps, freq: Weight)
    requires Distinct(g.All())
    ensures Distinct(DrainWindow(g, caps, freq).segs.All())
  {
    DrainWindowConserves(g, caps, freq);
    var a := DrainWindow(g, caps, freq);
    ConservesDistinct(g.All(), a.segs.All(), a.dropped);
  }

  // ---- the capacities ----

  /** The window gets one hundredth of the capacity and probation two fifths of the rest, each
      at least 16, or 1 below a capacity of 48; the protected segment gets what is left. */
  lemma DefaultShares(cap: nat)
    requires cap >= 16
    ensures var c, least := DefaultCaps(cap), if cap < 48 then 1 else 16;
            && c.win == (if cap / 100 < least then least else cap / 100) && c.main == cap - c.win
            && c.prob == (if c.main * 2 / 5 < least then least else c.main * 2 / 5) && c.prot == c.main - c.prob
  {
    DefaultCapsSum(cap);
    var m := DefaultCaps(cap).main;
    assert m * 40 / 100 == m * 2 / 5;
  }

  // ---- restoring ----

  /** The pairs of one rank, in order. */
  function OfRank(s: Items, rank: CacheEntry -> real, x: real): Items {
    if s == [] then []
    else OfRank(s[..|s| - 1], rank, x) + if rank(s[|s| - 1].1) == x then [s[|s| - 1]] else []
  }

  lemma {:induction false} InsertStable(s: Items, p: (CacheKey, CacheEntry), rank: CacheEntry -> real, x: real)
    requires SortedBy(s, rank)
    ensures OfRank(InsertSorted(s, p, rank), rank, x) == OfRank(s, rank, x) + if rank(p.1) == x then [p] else []
  {
    if s == [] {
      assert [p][..0] == [];
    } else {
      var front, last := s[..|s| - 1], s[|s| - 1];
      if rank(last.1) <= rank(p.1) {
        assert (s + [p])[..|s|] == s;
      } else {
        InsertStable(front, p, rank, x);
        var r := InsertSorted(front, p, rank);
        assert (r + [last])[..|r|] == r;
      }
    }
  }

  /** Sorting keeps pairs of equal rank in their order. */
  lemma {:induction false} SortStable(s: Items, rank: CacheEntry -> real, x: real)
    ensures OfRank(SortBy(s, rank), rank, x) == OfRank(s, rank, x)
  {
    if s != [] {
      var front := s[..|s| - 1];
      SortStable(front, rank, x);
      SortByCorrect(front, rank);
      InsertStable(SortBy(front, rank), s[|s| - 1], rank, x);
    }
  }

  /** Of more records than four times the capacity, or 65536, those with the least numbers are
      looked at. */
  lemma AdmittedOldest(t: Tiny, entries: Items) returns (rest: Items)
    ensures var n := if t.totalCap * 4 < 65536 then 65536 else t.totalCap * 4;
            var a := Admitted(t, entries);
            if |entries| <= n then a == entries && rest == []
            else
              && |a| == n && multiset(a) + multiset(rest) == multiset(entries)
              && forall i, j :: 0 <= i < |a| && 0 <= j < |rest| ==> a[i].1.seqNo <= rest[j].1.seqNo
  {
    hide SortBy, SortedBy;
    var n := RestoreCap(t.totalCap);
    rest := [];
    if |entries| > n {
      var sorted := SortBy(entries, SeqRank());
      SortByCorrect(entries, SeqRank());
      rest := sorted[n..];
      assert sorted == sorted[..n] + rest;
      SortedOrder(sorted, SeqRank());
      forall i, j | 0 <= i < n && 0 <= j < |rest|
        ensures sorted[i].1.seqNo <= rest[j].1.seqNo
      {
        assert SeqRank()(sorted[i].1) <= SeqRank()(sorted[n + j].1);
      }
    }
  }

  /** Restoring distinct records: the unexpired ones in order of the life they have left, as
      many of the longest-lived as the main segments hold; of these the longest-lived fill the
      protected segment and the others probation, the shortest-lived last. The window and the
      sketch start empty. */
  lemma RestorePlaces(t: Tiny, hash: CacheKey -> nat, entries: Items, now: real)
    requires Valid(t) && Distinct(entries)
    ensures var (s, unpersisted) := Restore(t, hash, entries, now);
            var v := ByLife(t, entries, now);
            var start := if |v| > t.caps.main then |v| - t.caps.main else 0;
            var m := if |v| - start > t.caps.prot then |v| - start - t.caps.prot else 0;
            && (forall i, j :: 0 <= i < j < |v| ==> v[i].1.expiresAt <= v[j].1.expiresAt)
            && (forall p :: p in v <==> p in Admitted(t, entries) && p.1.expiresAt > now)
            && s == t.(sketch := Empty(),
                       segs := Segments([], Reversed(v[start..start + m]), v[start + m..]))
            && unpersisted == start + |entries| - |Admitted(t, entries)|
  {
    hide ByLife, Admitted, InsertAll, Evict, DefaultCaps, RestoreCap, Segments.All, Distinct, SortedBy, Empty,
         Sketch.Valid, WithinCaps;
    DefaultCapsSum(t.totalCap);
    LifeOrdered(t, entries, now);
    var v, start := ByLife(t, entries, now), Cutoff(t, entries, now);
    InsertAllTail(v, start);
    RestoreShape(v[start..], t.caps, FreqOf(Empty(), hash));
    var m := Monus(|v| - start, t.caps.prot);
    assert v[start..][..m] == v[start..start + m] && v[start..][m..] == v[start + m..];
  }

  lemma LifeOrdered(t: Tiny, entries: Items, now: real)
    requires Distinct(entries)
    ensures var v := ByLife(t, entries, now);
            && Distinct(v)
            && (forall i, j :: 0 <= i < j < |v| ==> v[i].1.expiresAt <= v[j].1.expiresAt)
            && (forall p :: p in v <==> p in Admitted(t, entries) && p.1.expiresAt > now)
    ensures |Admitted(t, entries)| == |entries| - Monus(|entries|, RestoreCap(t.totalCap))
  {
    hide ByLife, Admitted, RestoreCap, Distinct;
    ByLifeCorrect(t, entries, now);
    AdmittedPart(t, entries);
    var v := ByLife(t, entries, now);
    SortedOrder(v, LifeRank(now));
    LiveMembers(t, entries, now);
    ByRank(v, now);
  }

  lemma ByRank(v: Items, now: real)
    requires forall i, j :: 0 <= i < j < |v| ==> LifeRank(now)(v[i].1) <= LifeRank(now)(v[j].1)
    ensures forall i, j :: 0 <= i < j < |v| ==> v[i].1.expiresAt <= v[j].1.expiresAt
  {
    forall i, j | 0 <= i < j < |v|
      ensures v[i].1.expiresAt <= v[j].1.expiresAt
    {
      assert LifeRank(now)(v[i].1) <= LifeRank(now)(v[j].1);
    }
  }

  lemma LiveMembers(t: Tiny, entries: Items, now: real)
    requires Distinct(entries)
    ensures forall p :: p in ByLife(t, entries, now) <==> p in Admitted(t, entries) && p.1.expiresAt > now
  {
    ByLifeCorrect(t, entries, now);
    var a := Admitted(t, entries);
    LiveDead(a, now);
    var v := ByLife(t, entries, now);
    forall p
      ensures p in v <==> p in a && p.1.expiresAt > now
    {
      assert p in v <==> p in multiset(v);
      assert p in a <==> p in multiset(a);
      assert p in Live(a, now) <==> p in multiset(Live(a, now));
      assert p in Dead(a, now) <==> p in multiset(Dead(a, now));
    }
  }

  lemma RestoreShape(kept: Items, caps: Caps, freq: Weight)
    requires Distinct(kept) && |kept| <= caps.main == caps.prob + caps.prot
    ensures var m := Monus(|kept|, caps.prot);
            Evict(Segments([], [], kept), caps, freq)
            == Trimmed(Segments([], Reversed(kept[..m]), kept[m..]), [])
  {
    hide Distinct, Evict, DrainWindow;
    var g := Segments([], [], kept);
    assert g.All() == kept;
    DrainIdle(g, caps, freq);
    MainsOutcome(g, caps, freq);
    var all := Reversed(kept[..Monus(|kept|, caps.prot)]);
    assert all + [] == all && all[0..] == all && [] + all[..0] == [];
  }
}
