/** The W-TinyLFU cache as a value: three segments, their capacities, and what the
    eviction, the reads and the writes do to them. */
module TinyModel {
  import opened Wrappers
  import opened Assoc
  import opened Entries
  import opened Operations
  import opened Sketches

  datatype Caps = Caps(win: nat, prob: nat, prot: nat, main: nat)

  datatype Policy = Policy(winPct: nat, probPct: nat, promoteMinFreq: u8, restrictPromotion: bool)

  const BASELINE := Policy(1, 40, 0, false)

  function AtLeast(n: nat, low: nat): nat {
    if n < low then low else n
  }

  function Monus(a: nat, b: nat): nat {
    if a < b then 0 else a - b
  }

  function ComputeRatio(cap: nat, winPct: nat, probPct: nat): Caps {
    if cap < 48 then
      var win := AtLeast(cap * winPct / 100, 1);
      var main := Monus(cap, win);
      var prob := AtLeast(main * probPct / 100, 1);
      Caps(win, prob, AtLeast(Monus(main, prob), 1), main)
    else
      var win := AtLeast(cap * winPct / 100, 16);
      var main := Monus(cap, win);
      var prob := AtLeast(main * probPct / 100, 16);
      Caps(win, prob, Monus(main, prob), main)
  }

  function DefaultCaps(cap: nat): Caps {
    ComputeRatio(cap, 1, 40)
  }

  /** The default ratio splits the capacity exactly, with no empty segment. */
  lemma DefaultCapsSum(cap: nat)
    requires cap >= 16
    ensures var c := DefaultCaps(cap);
            && c.win + c.main == cap && c.prob + c.prot == c.main
            && c.win >= 1 && c.prob >= 1 && c.prot >= 1
  {
  }

  /** From 48 on, a larger capacity enlarges every segment. */
  lemma DefaultCapsGrow(cap: nat, cap': nat)
    requires 48 <= cap <= cap'
    ensures var c, c' := DefaultCaps(cap), DefaultCaps(cap');
            c.win <= c'.win && c.prob <= c'.prob && c.prot <= c'.prot && c.main <= c'.main
  {
  }

  /** Growing from 47 to 48 shrinks the probation and protected segments. */
  lemma DefaultCapsDropAt48()
    ensures DefaultCaps(47) == Caps(1, 18, 28, 46)
    ensures DefaultCaps(48) == Caps(16, 16, 16, 32)
  {
  }

  // ---- the segments and their eviction ----

  datatype Segments = Segments(window: Items, probation: Items, protected: Items) {
    function All(): Items {
      window + probation + protected
    }
  }

  /** Segments after dropping the pairs `dropped`, in that order. */
  datatype Trimmed = Trimmed(segs: Segments, dropped: Items)

  type Weight = CacheKey -> u8

  /** Window overflow moves to the main segments while there is room; after that the
      newcomer replaces the probation head only if it is used strictly more often. */
  function DrainWindow(g: Segments, caps: Caps, freq: Weight): (r: Trimmed)
    decreases |g.window|
  {
    if |g.window| <= caps.win then Trimmed(g, [])
    else
      var w, rest := g.window[0], g.window[1..];
      if |g.probation| < caps.prob then
        DrainWindow(Segments(rest, PutBack(g.probation, w.0, w.1), g.protected), caps, freq)
      else if |g.probation| + |g.protected| < caps.main then
        DrainWindow(Segments(rest, g.probation, PutBack(g.protected, w.0, w.1)), caps, freq)
      else if g.probation != [] && freq(w.0) > freq(g.probation[0].0) then
        var r := DrainWindow(Segments(rest, PutBack(g.probation[1..], w.0, w.1), g.protected), caps, freq);
        Trimmed(r.segs, [g.probation[0]] + r.dropped)
      else
        var r := DrainWindow(Segments(rest, g.probation, g.protected), caps, freq);
        Trimmed(r.segs, [w] + r.dropped)
  }

  /** Protected overflow goes back to the front of probation. */
  function DrainProtected(g: Segments, caps: Caps): Segments
    decreases |g.protected|
  {
    if |g.protected| <= caps.prot then g
    else
      var p := g.protected[0];
      DrainProtected(Segments(g.window, PutFront(g.probation, p.0, p.1), g.protected[1..]), caps)
  }

  /** Probation overflow is dropped from the head. */
  function DropProbation(g: Segments, caps: Caps): Trimmed {
    var n := Monus(|g.probation|, caps.prob);
    Trimmed(g.(probation := g.probation[n..]), g.probation[..n])
  }

  function Evict(g: Segments, caps: Caps, freq: Weight): Trimmed {
    var a := DrainWindow(g, caps, freq);
    var b := DropProbation(DrainProtected(a.segs, caps), caps);
    Trimmed(b.segs, a.dropped + b.dropped)
  }

  ghost predicate WithinCaps(g: Segments, caps: Caps) {
    |g.window| <= caps.win && |g.probation| <= caps.prob && |g.protected| <= caps.prot
  }

  /** The pairs of `before` are exactly those of `after` together with `dropped`. */
  ghost predicate Conserves(before: Items, after: Items, dropped: Items) {
    multiset(before) == multiset(after) + multiset(dropped)
  }

  /** A list of distinct keys stays one when rearranged or thinned out. */
  lemma DistinctSub(s: Items, t: Items)
    requires Distinct(s) && multiset(t) <= multiset(s)
    ensures Distinct(t)
  {
    forall i, j | 0 <= i < j < |t|
      ensures t[i].0 != t[j].0
    {
      if t[i] == t[j] {
        assert t == t[..i] + [t[i]] + t[i + 1..j] + [t[j]] + t[j + 1..];
        assert multiset(t)[t[i]] >= 2;
        CountOnce(s, t[i]);
      } else {
        assert t[i] in multiset(s) && t[j] in multiset(s);
        var a :| 0 <= a < |s| && s[a] == t[i];
        var b :| 0 <= b < |s| && s[b] == t[j];
      }
    }
  }

  lemma {:induction false} CountOnce(s: Items, p: (CacheKey, CacheEntry))
    requires Distinct(s)
    ensures multiset(s)[p] <= 1
  {
    if s != [] {
      var n := |s| - 1;
      assert s == s[..n] + [s[n]];
      CountOnce(s[..n], p);
      if s[n] == p {
        assert forall i :: 0 <= i < n ==> s[i] != p;
        assert p !in multiset(s[..n]);
      }
    }
  }

  lemma ConservesDistinct(before: Items, after: Items, dropped: Items)
    requires Distinct(before) && Conserves(before, after, dropped)
    ensures Distinct(after) && Distinct(dropped) && Distinct(after + dropped)
    ensures forall p :: p in before <==> p in after || p in dropped
    ensures forall p, d :: p in after && d in dropped ==> p.0 != d.0
  {
    DistinctSub(before, after);
    DistinctSub(before, dropped);
    DistinctSub(before, after + dropped);
    forall p
      ensures p in before <==> p in after || p in dropped
    {
      assert p in before <==> p in multiset(before);
    }
    forall p, d | p in after && d in dropped
      ensures p.0 != d.0
    {
      var i :| 0 <= i < |after| && after[i] == p;
      var j :| 0 <= j < |dropped| && dropped[j] == d;
      assert (after + dropped)[i] == p && (after + dropped)[|after| + j] == d;
    }
  }

  /** A key that occurs elsewhere in the segments is new to the list it moves to. */
  lemma FreshPut(s: Items, k: CacheKey, e: CacheEntry)
    requires forall p :: p in s ==> p.0 != k
    ensures PutBack(s, k, e) == s + [(k, e)] && PutFront(s, k, e) == [(k, e)] + s
  {
    assert forall i :: 0 <= i < |s| ==> s[i] in s;
  }

  lemma SegmentKeys(g: Segments)
    requires Distinct(g.All())
    ensures Distinct(g.window) && Distinct(g.probation) && Distinct(g.protected)
    ensures forall p, q :: p in g.window && q in g.probation + g.protected ==> p.0 != q.0
    ensures forall p, q :: p in g.probation && q in g.protected ==> p.0 != q.0
  {
    ConservesDistinct(g.All(), g.window, g.probation + g.protected);
    ConservesDistinct(g.probation + g.protected, g.probation, g.protected);
  }

  // ---- what eviction keeps ----

  lemma ConservesTrans(a: Items, b: Items, c: Items, d1: Items, d2: Items)
    requires Conserves(a, b, d1) && Conserves(b, c, d2)
    ensures Conserves(a, c, d1 + d2)
  {
  }

  /** Draining the window conserves the pairs and brings the window within its cap. */
  lemma {:induction false} DrainWindowConserves(g: Segments, caps: Caps, freq: Weight)
    requires Distinct(g.All())
    ensures var r := DrainWindow(g, caps, freq);
            && Conserves(g.All(), r.segs.All(), r.dropped)
            && |r.segs.window| <= caps.win
    decreases |g.window|
  {
    if |g.window| > caps.win {
      hide Segments.All, Distinct, DrainNext, DrainWindow;
      DrainStep(g, caps, freq);
      DrainUnfold(g, caps, freq);
      var next := DrainNext(g, caps, freq);
      ConservesDistinct(g.All(), next.segs.All(), next.dropped);
      DrainWindowConserves(next.segs, caps, freq);
      var r := DrainWindow(next.segs, caps, freq);
      ConservesTrans(g.All(), next.segs.All(), r.segs.All(), next.dropped, r.dropped);
    }
  }

  /** One round of DrainWindow. */
  function DrainNext(g: Segments, caps: Caps, freq: Weight): Trimmed
    requires |g.window| > caps.win
  {
    var w, rest := g.window[0], g.window[1..];
    if |g.probation| < caps.prob then
      Trimmed(Segments(rest, PutBack(g.probation, w.0, w.1), g.protected), [])
    else if |g.probation| + |g.protected| < caps.main then
      Trimmed(Segments(rest, g.probation, PutBack(g.protected, w.0, w.1)), [])
    else if g.probation != [] && freq(w.0) > freq(g.probation[0].0) then
      Trimmed(Segments(rest, PutBack(g.probation[1..], w.0, w.1), g.protected), [g.probation[0]])
    else
      Trimmed(Segments(rest, g.probation, g.protected), [w])
  }

  lemma {:induction false} DrainUnfold(g: Segments, caps: Caps, freq: Weight)
    requires |g.window| > caps.win
    ensures var next := DrainNext(g, caps, freq);
            var r := DrainWindow(next.segs, caps, freq);
            DrainWindow(g, caps, freq) == Trimmed(r.segs, next.dropped + r.dropped)
  {
    hide PutBack;
  }

  /** The pairs of three lists, without regard to order. */
  ghost function Bag(g: Segments): multiset<(CacheKey, CacheEntry)> {
    multiset(g.All())
  }

  lemma HeadApart(s: Items)
    requires s != []
    ensures multiset(s) == multiset{s[0]} + multiset(s[1..])
  {
    assert s == [s[0]] + s[1..];
  }

  lemma BagToProbation(w: Items, p: Items, t: Items)
    requires w != []
    ensures Bag(Segments(w, p, t)) == Bag(Segments(w[1..], p + [w[0]], t)) + multiset([])
  {
    HeadApart(w);
  }

  lemma BagToProtected(w: Items, p: Items, t: Items)
    requires w != []
    ensures Bag(Segments(w, p, t)) == Bag(Segments(w[1..], p, t + [w[0]])) + multiset([])
  {
    HeadApart(w);
  }

  lemma BagRejected(w: Items, p: Items, t: Items)
    requires w != []
    ensures Bag(Segments(w, p, t)) == Bag(Segments(w[1..], p, t)) + multiset([w[0]])
  {
    HeadApart(w);
  }

  lemma BagReplaced(w: Items, p: Items, t: Items)
    requires w != [] && p != []
    ensures Bag(Segments(w, p, t)) == Bag(Segments(w[1..], p[1..] + [w[0]], t)) + multiset([p[0]])
  {
    HeadApart(w);
    HeadApart(p);
  }

  /** The window head moves without colliding with a key already there. */
  lemma HeadFresh(g: Segments)
    requires Distinct(g.All()) && g.window != []
    ensures var w := g.window[0];
            && PutBack(g.probation, w.0, w.1) == g.probation + [w]
            && PutBack(g.protected, w.0, w.1) == g.protected + [w]
            && (g.probation != [] ==> PutBack(g.probation[1..], w.0, w.1) == g.probation[1..] + [w])
  {
    var w := g.window[0];
    SegmentKeys(g);
    hide Distinct, PutBack;
    assert w in g.window;
    FreshPut(g.probation, w.0, w.1);
    FreshPut(g.protected, w.0, w.1);
    if g.probation != [] {
      assert forall p :: p in g.probation[1..] ==> p in g.probation;
      FreshPut(g.probation[1..], w.0, w.1);
    }
  }

  lemma StepToProbation(g: Segments, caps: Caps, freq: Weight)
    requires Distinct(g.All()) && |g.window| > caps.win
    requires |g.probation| < caps.prob
    ensures Conserves(g.All(), DrainNext(g, caps, freq).segs.All(), DrainNext(g, caps, freq).dropped)
  {
    hide Distinct, PutBack, PutFront, Segments.All;
    HeadFresh(g);
    BagToProbation(g.window, g.probation, g.protected);
  }

  lemma StepToProtected(g: Segments, caps: Caps, freq: Weight)
    requires Distinct(g.All()) && |g.window| > caps.win
    requires !(|g.probation| < caps.prob) && |g.probation| + |g.protected| < caps.main
    ensures Conserves(g.All(), DrainNext(g, caps, freq).segs.All(), DrainNext(g, caps, freq).dropped)
  {
    hide Distinct, PutBack, PutFront, Segments.All;
    HeadFresh(g);
    BagToProtected(g.window, g.probation, g.protected);
  }

  lemma StepReplaces(g: Segments, caps: Caps, freq: Weight)
    requires Distinct(g.All()) && |g.window| > caps.win
    requires !(|g.probation| < caps.prob) && !(|g.probation| + |g.protected| < caps.main) && g.probation != []
             && freq(g.window[0].0) > freq(g.probation[0].0)
    ensures Conserves(g.All(), DrainNext(g, caps, freq).segs.All(), DrainNext(g, caps, freq).dropped)
  {
    hide Distinct, PutBack, PutFront, Segments.All;
    HeadFresh(g);
    BagReplaced(g.window, g.probation, g.protected);
  }

  lemma StepRejects(g: Segments, caps: Caps, freq: Weight)
    requires Distinct(g.All()) && |g.window| > caps.win
    requires !(|g.probation| < caps.prob) && !(|g.probation| + |g.protected| < caps.main)
             && !(g.probation != [] && freq(g.window[0].0) > freq(g.probation[0].0))
    ensures Conserves(g.All(), DrainNext(g, caps, freq).segs.All(), DrainNext(g, caps, freq).dropped)
  {
    hide Distinct, PutBack, PutFront, Segments.All;
    HeadFresh(g);
    BagRejected(g.window, g.probation, g.protected);
  }

  /** One round of the window drain conserves the pairs, whichever way it goes. */
  lemma DrainStep(g: Segments, caps: Caps, freq: Weight)
    requires Distinct(g.All()) && |g.window| > caps.win
    ensures Conserves(g.All(), DrainNext(g, caps, freq).segs.All(), DrainNext(g, caps, freq).dropped)
  {
    hide Distinct, Conserves, DrainNext;
    if |g.probation| < caps.prob {
      StepToProbation(g, caps, freq);
    } else if |g.probation| + |g.protected| < caps.main {
      StepToProtected(g, caps, freq);
    } else if g.probation != [] && freq(g.window[0].0) > freq(g.probation[0].0) {
      StepReplaces(g, caps, freq);
    } else {
      StepRejects(g, caps, freq);
    }
  }

  lemma {:induction false} DrainProtectedConserves(g: Segments, caps: Caps)
    requires Distinct(g.All())
    ensures var r := DrainProtected(g, caps);
            && Conserves(g.All(), r.All(), [])
            && r.window == g.window && |r.protected| <= caps.prot
            && |r.probation| + |r.protected| == |g.probation| + |g.protected|
    decreases |g.protected|
  {
    if |g.protected| > caps.prot {
      SegmentKeys(g);
      var p := g.protected[0];
      assert g.protected == [p] + g.protected[1..];
      assert p in g.protected;
      FreshPut(g.probation, p.0, p.1);
      var next := Segments(g.window, PutFront(g.probation, p.0, p.1), g.protected[1..]);
      assert Conserves(g.All(), next.All(), []);
      ConservesDistinct(g.All(), next.All(), []);
      DrainProtectedConserves(next, caps);
    }
  }

  lemma DropConserves(g: Segments, caps: Caps)
    ensures Conserves(g.All(), DropProbation(g, caps).segs.All(), DropProbation(g, caps).dropped)
  {
    var c := DropProbation(g, caps);
    assert g.probation == c.dropped + c.segs.probation;
  }

  /** Eviction splits the pairs exactly into survivors, unchanged, and those dropped,
      and leaves every segment within its capacity. */
  lemma EvictConserves(g: Segments, caps: Caps, freq: Weight)
    requires Distinct(g.All())
    ensures var r := Evict(g, caps, freq);
            && Conserves(g.All(), r.segs.All(), r.dropped)
            && Distinct(r.segs.All())
            && WithinCaps(r.segs, caps)
  {
    hide DrainWindow, DrainProtected, Distinct;
    DrainWindowConserves(g, caps, freq);
    var a := DrainWindow(g, caps, freq);
    ConservesDistinct(g.All(), a.segs.All(), a.dropped);
    DrainProtectedConserves(a.segs, caps);
    var b := DrainProtected(a.segs, caps);
    var c := DropProbation(b, caps);
    DropConserves(b, caps);
    hide Segments.All, Conserves, DropProbation;
    ConservesTrans(a.segs.All(), b.All(), c.segs.All(), [], c.dropped);
    assert [] + c.dropped == c.dropped;
    ConservesTrans(g.All(), a.segs.All(), c.segs.All(), a.dropped, c.dropped);
    ConservesDistinct(g.All(), c.segs.All(), a.dropped + c.dropped);
  }

  /** Segments already within their capacities are left alone. */
  lemma EvictIdle(g: Segments, caps: Caps, freq: Weight)
    requires WithinCaps(g, caps)
    ensures Evict(g, caps, freq) == Trimmed(g, [])
  {
    assert g.probation[0..] == g.probation;
  }

  lemma DrainIdle(g: Segments, caps: Caps, freq: Weight)
    requires |g.window| <= caps.win
    ensures DrainWindow(g, caps, freq) == Trimmed(g, [])
  {
  }

  lemma DrainedOne(g: Segments, caps: Caps, freq: Weight)
    requires |g.window| > caps.win
    ensures |DrainNext(g, caps, freq).segs.window| == |g.window| - 1
  {
  }

  /** With `out` reported so far, draining `g` on gives `goal`. */
  ghost predicate DrainsTo(g: Segments, caps: Caps, freq: Weight, out: seq<CacheKey>, goal: Trimmed) {
    var rest := DrainWindow(g, caps, freq);
    goal.segs == rest.segs && KeySeq(goal.dropped) == out + KeySeq(rest.dropped)
  }

  lemma DrainStart(g: Segments, caps: Caps, freq: Weight)
    ensures DrainsTo(g, caps, freq, [], DrainWindow(g, caps, freq))
  {
    hide DrainWindow;
  }

  lemma DrainRound(g: Segments, caps: Caps, freq: Weight, out: seq<CacheKey>, goal: Trimmed)
    requires |g.window| > caps.win && DrainsTo(g, caps, freq, out, goal)
    ensures var next := DrainNext(g, caps, freq);
            DrainsTo(next.segs, caps, freq, out + KeySeq(next.dropped), goal) && |next.segs.window| == |g.window| - 1
  {
    hide DrainWindow, DrainNext;
    DrainUnfold(g, caps, freq);
    DrainedOne(g, caps, freq);
    var next := DrainNext(g, caps, freq);
    KeySeqConcat(next.dropped, DrainWindow(next.segs, caps, freq).dropped);
  }

  lemma DrainDone(g: Segments, caps: Caps, freq: Weight, out: seq<CacheKey>, goal: Trimmed)
    requires |g.window| <= caps.win && DrainsTo(g, caps, freq, out, goal)
    ensures goal.segs == g && KeySeq(goal.dropped) == out
  {
  }

  lemma KeySeqConcat(a: Items, b: Items)
    ensures KeySeq(a + b) == KeySeq(a) + KeySeq(b)
  {
  }

  lemma DrainedWindow(g: Segments, caps: Caps, freq: Weight)
    requires |g.window| > caps.win >= 1
    ensures var next := DrainNext(g, caps, freq).segs;
            |next.window| == |g.window| - 1 && next.window[|next.window| - 1] == g.window[|g.window| - 1]
  {
    hide PutBack;
    assert g.window[1..][|g.window| - 2] == g.window[|g.window| - 1];
  }

  /** The newest window entry is never the one that is dropped. */
  lemma {:induction false} NewestStays(g: Segments, caps: Caps, freq: Weight)
    requires Distinct(g.All()) && g.window != [] && caps.win >= 1
    ensures g.window[|g.window| - 1] in DrainWindow(g, caps, freq).segs.window
    decreases |g.window|
  {
    if |g.window| > caps.win {
      hide Segments.All, Distinct, DrainWindow;
      var next := DrainNext(g, caps, freq);
      DrainStep(g, caps, freq);
      ConservesDistinct(g.All(), next.segs.All(), next.dropped);
      DrainedWindow(g, caps, freq);
      hide DrainNext;
      NewestStays(next.segs, caps, freq);
      DrainUnfold(g, caps, freq);
    } else {
      assert g.window[|g.window| - 1] in g.window;
    }
  }

  lemma NewestSurvives(g: Segments, caps: Caps, freq: Weight)
    requires Distinct(g.All()) && g.window != [] && caps.win >= 1
    ensures g.window[|g.window| - 1] in Evict(g, caps, freq).segs.window
  {
    NewestStays(g, caps, freq);
    DrainWindowConserves(g, caps, freq);
    var a := DrainWindow(g, caps, freq);
    ConservesDistinct(g.All(), a.segs.All(), a.dropped);
    DrainProtectedConserves(a.segs, caps);
  }

  // ---- the operations ----

  datatype Tiny = Tiny(totalCap: nat, segs: Segments, caps: Caps, policy: Policy, sketch: Sketch,
                       puts: nat, misses: nat, staleWindow: nat)

  ghost predicate Valid(t: Tiny) {
    && t.totalCap >= 16 && t.policy.winPct == 1 && t.policy.probPct == 40
    && t.caps == DefaultCaps(t.totalCap)
    && t.sketch.Valid()
    && Distinct(t.segs.All())
    && WithinCaps(t.segs, t.caps)
  }

  function Fresh(capacity: nat, policy: Policy): Tiny {
    var cap := ClampCapacity(capacity);
    Tiny(cap, Segments([], [], []), ComputeRatio(cap, policy.winPct, policy.probPct), policy, Empty(), 0, 0, 0)
  }

  /** The entry stored under `k`, expired or not. */
  function Stored(t: Tiny, k: CacheKey): Option<CacheEntry> {
    Lookup(t.segs.All(), k)
  }

  function Used(t: Tiny, hash: CacheKey -> nat, k: CacheKey): Tiny
    requires t.sketch.Valid()
  {
    t.(sketch := t.sketch.Inc(hash(k), 1))
  }

  function FreqOf(s: Sketch, hash: CacheKey -> nat): Weight
    requires s.Valid()
  {
    k => s.Freq(hash(k))
  }

  /** Whether a probation hit may move up to the protected segment. */
  predicate PromotionAllowed(t: Tiny, freq: Weight, fNew: u8) {
    && !(t.policy.promoteMinFreq > 0 && fNew < t.policy.promoteMinFreq)
    && !(t.policy.restrictPromotion && |t.segs.protected| >= t.caps.prot
         && t.segs.protected != [] && freq(t.segs.protected[0].0) >= fNew)
  }

  /** A probation entry moves to the protected segment; when that is full, its head
      moves back to the front of probation. */
  function Promote(g: Segments, prot: nat, k: CacheKey, e: CacheEntry): Segments {
    var rest := Without(g.probation, k);
    if |g.protected| >= prot && g.protected != [] then
      var p := g.protected[0];
      Segments(g.window, PutFront(rest, p.0, p.1), PutBack(g.protected[1..], k, e))
    else
      Segments(g.window, rest, PutBack(g.protected, k, e))
  }

  /** At most `n` expired entries go from the head. */
  function SweepFront(items: Items, now: real, n: nat): Items {
    if n > 0 && items != [] && items[0].1.expiresAt <= now then SweepFront(items[1..], now, n - 1) else items
  }

  /** The leading run of entries expired beyond the stale window goes. */
  function PurgeOne(items: Items, now: real, sw: real): Items {
    if items != [] && Removable(items[0].1, now, sw) then PurgeOne(items[1..], now, sw) else items
  }

  function SweepAll(g: Segments, now: real): Segments {
    Segments(SweepFront(g.window, now, 4), SweepFront(g.probation, now, 4), SweepFront(g.protected, now, 4))
  }

  /** Every 32nd miss sweeps expired heads, unless stale entries are being kept. */
  function GetMiss(t: Tiny, now: real): Tiny {
    var t' := t.(misses := t.misses + 1);
    if t.staleWindow == 0 && t'.misses % 32 == 0 then
      t'.(segs := SweepAll(t.segs, now))
    else t'
  }

  function Drop(g: Segments, k: CacheKey): Segments {
    Segments(Without(g.window, k), Without(g.probation, k), Without(g.protected, k))
  }

  /** The segments with `k` moved to the back of the one that holds it. */
  function TouchIn(g: Segments, k: CacheKey): Segments {
    Segments(Touch(g.window, k), Touch(g.probation, k), Touch(g.protected, k))
  }

  /** The segments after `k`, holding an unexpired entry `e`, was read. */
  function HitSegs(g: Segments, prot: nat, k: CacheKey, e: CacheEntry, promote: bool): Segments {
    if promote && !Has(g.window, k) && Has(g.probation, k) then Promote(g, prot, k, e) else TouchIn(g, k)
  }

  function Get(t: Tiny, hash: CacheKey -> nat, k: CacheKey, now: real): Outcome<Tiny>
    requires t.sketch.Valid()
  {
    match Stored(t, k)
    case None => Outcome(GetMiss(t, now), [], None)
    case Some(e) =>
      if e.expiresAt <= now then
        Outcome(if t.staleWindow == 0 then t.(segs := Drop(t.segs, k)) else t, [], None)
      else
        var promote := PromotionAllowed(t, FreqOf(t.sketch, hash), t.sketch.Freq(hash(k)));
        Outcome(Used(t.(segs := HitSegs(t.segs, t.caps.prot, k, e, promote)), hash, k), [], Some(e))
  }

  function GetStale(t: Tiny, k: CacheKey, now: real, window: real): Outcome<Tiny> {
    match Stored(t, k)
    case None => Outcome(t, [], None)
    case Some(e) =>
      if e.expiresAt > now then Outcome(t, [], None)
      else if now - e.expiresAt > window then Outcome(t.(segs := Drop(t.segs, k)), [], None)
      else Outcome(t.(segs := TouchIn(t.segs, k)), [], Some(e))
  }

  function Peek(t: Tiny, k: CacheKey, now: real): Outcome<Tiny> {
    match Stored(t, k)
    case None => Outcome(t, [], None)
    case Some(e) =>
      if e.expiresAt <= now then Outcome(t.(segs := Drop(t.segs, k)), [], None) else Outcome(t, [], Some(e))
  }

  /** A written entry stays in its main segment, or enters (or stays in) the window. */
  function Insert(g: Segments, k: CacheKey, e: CacheEntry): Segments {
    if Has(g.protected, k) then g.(protected := PutBack(g.protected, k, e))
    else if Has(g.probation, k) then g.(probation := PutBack(g.probation, k, e))
    else g.(window := PutBack(g.window, k, e))
  }

  function PurgeAll(g: Segments, now: real, sw: real): Segments {
    Segments(PurgeOne(g.window, now, sw), PurgeOne(g.probation, now, sw), PurgeOne(g.protected, now, sw))
  }

  function Put(t: Tiny, hash: CacheKey -> nat, k: CacheKey, e: CacheEntry, now: real): Outcome<Tiny>
    requires t.sketch.Valid()
  {
    var t1 := Used(t.(segs := Insert(t.segs, k, e), puts := t.puts + 1), hash, k);
    var r := Evict(t1.segs, t1.caps, FreqOf(t1.sketch, hash));
    Outcome(t1.(segs := if t1.puts % 32 == 0 then PurgeAll(r.segs, now, t.staleWindow as real) else r.segs),
            KeySeq(r.dropped), None)
  }

  function Delete(t: Tiny, k: CacheKey): Outcome<Tiny> {
    Outcome(t.(segs := Drop(t.segs, k)), [], None)
  }

  function Clear(t: Tiny): Outcome<Tiny> {
    Outcome(t.(segs := Segments([], [], []), sketch := Empty()), [], None)
  }

  function SetCapacity(t: Tiny, hash: CacheKey -> nat, n: nat): Outcome<Tiny>
    requires t.sketch.Valid()
  {
    var cap := ClampCapacity(n);
    var caps := ComputeRatio(cap, t.policy.winPct, t.policy.probPct);
    var r := Evict(t.segs, caps, FreqOf(t.sketch, hash));
    Outcome(t.(totalCap := cap, caps := caps, segs := r.segs), KeySeq(r.dropped), None)
  }

  function SetStaleWindow(t: Tiny, v: nat): Outcome<Tiny> {
    Outcome(t.(staleWindow := v), [], None)
  }

  function Apply(t: Tiny, hash: CacheKey -> nat, op: Op): Outcome<Tiny>
    requires t.sketch.Valid()
  {
    match op
    case Put(k, e, now) => Put(t, hash, k, e, now)
    case Get(k, now) => Get(t, hash, k, now)
    case GetStale(k, now, w) => GetStale(t, k, now, w)
    case Peek(k, now) => Peek(t, k, now)
    case Delete(k) => Delete(t, k)
    case Clear => Clear(t)
    case SetCapacity(n) => SetCapacity(t, hash, n)
    case SetStaleWindow(v) => SetStaleWindow(t, v)
  }

  // ---- what the operations do, key by key ----

  /** Looking up in what a conserving step leaves behind. */
  lemma ConservesLookup(before: Items, after: Items, dropped: Items, q: CacheKey)
    requires Distinct(before) && Conserves(before, after, dropped)
    ensures Distinct(after)
    ensures Lookup(after, q) == if q in KeySeq(dropped) then None else Lookup(before, q)
  {
    ConservesDistinct(before, after, dropped);
    LookupMember(before, q);
    LookupMember(after, q);
    LookupMember(dropped, q);
    if q in KeySeq(dropped) {
      var v := Lookup(dropped, q).value;
      assert (q, v) in dropped;
    } else if Lookup(before, q).Some? {
      assert (q, Lookup(before, q).value) in before;
    }
  }

  ghost predicate AllExpired(gone: Items, now: real) {
    forall p :: p in gone ==> p.1.expiresAt <= now
  }

  /** Losing expired entries only is the effect a read may have. */
  lemma ReadEffect(before: Items, after: Items, gone: Items, now: real, q: CacheKey)
    requires Distinct(before) && Conserves(before, after, gone) && AllExpired(gone, now)
    ensures Distinct(after) && Aged(Lookup(before, q), Lookup(after, q), now)
  {
    ConservesLookup(before, after, gone, q);
    ConservesDistinct(before, after, gone);
    if q in KeySeq(gone) {
      LookupMember(gone, q);
      LookupMember(before, q);
      assert (q, Lookup(gone, q).value) in gone;
    }
  }

  lemma AllParts(g: Segments)
    ensures multiset(g.All()) == multiset(g.window) + multiset(g.probation) + multiset(g.protected)
  {
  }

  lemma WithoutBag(s: Items, k: CacheKey)
    ensures Has(s, k) ==> multiset(s) == multiset(Without(s, k)) + multiset([(k, Lookup(s, k).value)])
    ensures !Has(s, k) ==> Without(s, k) == s
  {
    var i := Position(s, k);
    if i < |s| {
      assert s == s[..i] + [s[i]] + s[i + 1..];
    }
  }

  lemma TouchBag(s: Items, k: CacheKey)
    ensures multiset(Touch(s, k)) == multiset(s) && |Touch(s, k)| == |s|
  {
    WithoutBag(s, k);
  }

  lemma {:induction false} PurgeOnePrefix(s: Items, now: real, sw: real)
    ensures ExpiredHead(s, PurgeOne(s, now, sw), now)
  {
    if s != [] && Removable(s[0].1, now, sw) {
      PurgeOnePrefix(s[1..], now, sw);
      HeadGone(s, PurgeOne(s[1..], now, sw), now);
    }
  }

  lemma {:induction false} SweepFrontPrefix(s: Items, now: real, n: nat)
    ensures ExpiredHead(s, SweepFront(s, now, n), now)
  {
    if n > 0 && s != [] && s[0].1.expiresAt <= now {
      SweepFrontPrefix(s[1..], now, n - 1);
      HeadGone(s, SweepFront(s[1..], now, n - 1), now);
    }
  }

  lemma HeadGone(s: Items, r: Items, now: real)
    requires s != [] && s[0].1.expiresAt <= now && ExpiredHead(s[1..], r, now)
    ensures ExpiredHead(s, r, now)
  {
    var m := |s[1..]| - |r|;
    assert s[..m + 1] == [s[0]] + s[1..][..m];
    assert s[m + 1..] == s[1..][m..];
  }

  ghost predicate ExpiredHead(s: Items, r: Items, now: real) {
    |r| <= |s| && r == s[|s| - |r|..] && AllExpired(s[..|s| - |r|], now)
  }

  lemma CutBag(s: Items, r: Items, now: real) returns (cut: Items)
    requires ExpiredHead(s, r, now)
    ensures multiset(s) == multiset(cut) + multiset(r) && AllExpired(cut, now)
  {
    cut := s[..|s| - |r|];
    assert s == cut + r;
  }

  lemma Joined(a: Items, b: Items, c: Items, now: real) returns (gone: Items)
    requires AllExpired(a, now) && AllExpired(b, now) && AllExpired(c, now)
    ensures AllExpired(gone, now)
    ensures multiset(gone) == multiset(a) + multiset(b) + multiset(c)
  {
    gone := a + b + c;
  }

  /** Dropping an expired head run from each segment. */
  lemma CutFronts(g: Segments, h: Segments, now: real) returns (gone: Items)
    requires ExpiredHead(g.window, h.window, now)
    requires ExpiredHead(g.probation, h.probation, now)
    requires ExpiredHead(g.protected, h.protected, now)
    ensures Conserves(g.All(), h.All(), gone) && AllExpired(gone, now)
  {
    hide AllExpired, ExpiredHead, Segments.All;
    var a := CutBag(g.window, h.window, now);
    var b := CutBag(g.probation, h.probation, now);
    var c := CutBag(g.protected, h.protected, now);
    AllParts(g);
    AllParts(h);
    gone := Joined(a, b, c, now);
  }

  lemma PurgeAllEffect(g: Segments, now: real, sw: real) returns (gone: Items)
    ensures Conserves(g.All(), PurgeAll(g, now, sw).All(), gone) && AllExpired(gone, now)
    ensures forall caps :: WithinCaps(g, caps) ==> WithinCaps(PurgeAll(g, now, sw), caps)
  {
    PurgeOnePrefix(g.window, now, sw);
    PurgeOnePrefix(g.probation, now, sw);
    PurgeOnePrefix(g.protected, now, sw);
    gone := CutFronts(g, PurgeAll(g, now, sw), now);
  }

  /** Taking a stored key out of the segments takes exactly its pair. */
  lemma DropEffect(g: Segments, k: CacheKey, caps: Caps)
    requires Distinct(g.All()) && WithinCaps(g, caps)
    ensures match Lookup(g.All(), k)
            case Some(e) => Conserves(g.All(), Drop(g, k).All(), [(k, e)])
            case None => Drop(g, k) == g
    ensures WithinCaps(Drop(g, k), caps)
  {
    hide Distinct, Without, Lookup, Segments.All;
    WithoutShorter(g.window, k);
    WithoutShorter(g.probation, k);
    WithoutShorter(g.protected, k);
    WhichSegment(g, k);
    WithoutBag(g.window, k);
    WithoutBag(g.probation, k);
    WithoutBag(g.protected, k);
    AllParts(g);
    AllParts(Drop(g, k));
  }

  lemma WithoutShorter(s: Items, k: CacheKey)
    ensures |Without(s, k)| <= |s| && (Has(s, k) <==> Lookup(s, k).Some?)
  {
  }

  /** A stored key is in exactly one segment. */
  lemma WhichSegment(g: Segments, k: CacheKey)
    requires Distinct(g.All())
    ensures Lookup(g.All(), k) == if Has(g.window, k) then Lookup(g.window, k)
                                  else if Has(g.probation, k) then Lookup(g.probation, k)
                                  else Lookup(g.protected, k)
    ensures Has(g.window, k) ==> !Has(g.probation, k) && !Has(g.protected, k)
    ensures Has(g.probation, k) ==> !Has(g.protected, k)
  {
    SegmentKeys(g);
    LookupMember(g.All(), k);
    LookupMember(g.window, k);
    LookupMember(g.probation, k);
    LookupMember(g.protected, k);
    hide Lookup, Has, Distinct;
    if Has(g.window, k) {
      assert (k, Lookup(g.window, k).value) in g.window;
    } else if Has(g.probation, k) {
      assert (k, Lookup(g.probation, k).value) in g.probation;
    } else if Has(g.protected, k) {
      assert (k, Lookup(g.protected, k).value) in g.protected;
    } else if Lookup(g.All(), k).Some? {
      assert (k, Lookup(g.All(), k).value) in g.All();
    }
  }

  /** Moving a stored key to the back of its segment only reorders. */
  lemma TouchInEffect(g: Segments, k: CacheKey, caps: Caps)
    requires WithinCaps(g, caps)
    ensures Conserves(g.All(), TouchIn(g, k).All(), []) && WithinCaps(TouchIn(g, k), caps)
    ensures Conserves(g.All(), g.(window := Touch(g.window, k)).All(), [])
    ensures Conserves(g.All(), g.(probation := Touch(g.probation, k)).All(), [])
    ensures Conserves(g.All(), g.(protected := Touch(g.protected, k)).All(), [])
  {
    hide Touch, Segments.All;
    TouchBag(g.window, k);
    TouchBag(g.probation, k);
    TouchBag(g.protected, k);
    AllParts(g);
    AllParts(TouchIn(g, k));
    AllParts(g.(window := Touch(g.window, k)));
    AllParts(g.(probation := Touch(g.probation, k)));
    AllParts(g.(protected := Touch(g.protected, k)));
  }

  /** Dropping a key from the one segment that holds it is dropping it. */
  lemma DropFrom(g: Segments, k: CacheKey)
    requires Distinct(g.All())
    ensures Has(g.window, k) ==> Drop(g, k) == g.(window := Without(g.window, k))
    ensures Has(g.probation, k) ==> Drop(g, k) == g.(probation := Without(g.probation, k))
    ensures Has(g.protected, k) ==> Drop(g, k) == g.(protected := Without(g.protected, k))
  {
    WhichSegment(g, k);
    WithoutBag(g.window, k);
    WithoutBag(g.probation, k);
    WithoutBag(g.protected, k);
  }

  /** Touching a key in the one segment that holds it is touching it. */
  lemma TouchFrom(g: Segments, k: CacheKey)
    requires Distinct(g.All())
    ensures Has(g.window, k) ==> TouchIn(g, k) == g.(window := Touch(g.window, k))
    ensures Has(g.probation, k) ==> TouchIn(g, k) == g.(probation := Touch(g.probation, k))
    ensures Has(g.protected, k) ==> TouchIn(g, k) == g.(protected := Touch(g.protected, k))
  {
    WhichSegment(g, k);
  }

  lemma BagPromoted(w: Items, p: Items, t: Items, x: (CacheKey, CacheEntry))
    ensures multiset(Segments(w, p, t + [x]).All()) == multiset(w) + multiset(p) + multiset(t) + multiset([x])
    ensures t != [] ==>
              multiset(Segments(w, [t[0]] + p, t[1..] + [x]).All()) == multiset(w) + multiset(p) + multiset(t)
                  + multiset([x])
  {
    if t != [] {
      assert t == [t[0]] + t[1..];
    }
  }

  /** A promotion only rearranges, and fits. */
  lemma PromoteEffect(g: Segments, caps: Caps, k: CacheKey)
    requires Distinct(g.All()) && WithinCaps(g, caps) && caps.prot >= 1 && Has(g.probation, k)
    ensures var r := Promote(g, caps.prot, k, Lookup(g.probation, k).value);
            Conserves(g.All(), r.All(), []) && WithinCaps(r, caps)
  {
    hide Without, PutBack, PutFront, Distinct, Has, Lookup, Segments.All, WithinCaps;
    StoredThere(g.probation, k);
    var e := Lookup(g.probation, k).value;
    var rest, t := Without(g.probation, k), g.protected;
    WithoutBag(g.probation, k);
    WithoutMemberKeys(g, k);
    AllParts(g);
    BagPromoted(g.window, rest, t, (k, e));
    FreshPut(t, k, e);
    if t != [] {
      FreshPut(rest, t[0].0, t[0].1);
      assert forall p :: p in t[1..] ==> p in t;
      FreshPut(t[1..], k, e);
    }
    PromoteSizes(g, caps, k, e);
  }

  lemma StoredThere(s: Items, k: CacheKey)
    requires Has(s, k)
    ensures Lookup(s, k).Some?
  {
  }

  lemma PromoteSizes(g: Segments, caps: Caps, k: CacheKey, e: CacheEntry)
    requires WithinCaps(g, caps) && caps.prot >= 1 && Has(g.probation, k)
    ensures WithinCaps(Promote(g, caps.prot, k, e), caps)
  {
  }

  /** No key of probation, with or without `k`, is in the protected segment. */
  lemma WithoutMemberKeys(g: Segments, k: CacheKey)
    requires Distinct(g.All()) && Has(g.probation, k)
    ensures forall p :: p in g.protected ==> p.0 != k
    ensures g.protected != [] ==> forall p :: p in Without(g.probation, k) ==> p.0 != g.protected[0].0
  {
    SegmentKeys(g);
    WithoutMember(g.probation, k);
    LookupMember(g.probation, k);
    assert (k, Lookup(g.probation, k).value) in g.probation;
    if g.protected != [] {
      assert g.protected[0] in g.protected;
    }
  }

  /** Writing a key replaces its entry, and no other. */
  lemma InsertEffect(g: Segments, caps: Caps, k: CacheKey, e: CacheEntry, q: CacheKey)
    requires Distinct(g.All()) && WithinCaps(g, caps)
    ensures Distinct(Insert(g, k, e).All())
    ensures Lookup(Insert(g, k, e).All(), q) == if q == k then Some(e) else Lookup(g.All(), q)
  {
    hide Drop, Insert, Segments.All, Distinct, Lookup, WithinCaps;
    var d, r := Drop(g, k), Insert(g, k, e);
    DropEffect(g, k, caps);
    InsertBag(g, k, e);
    DroppedGone(g, k, caps, q);
    ExtendDistinct(d.All(), k, e);
    DistinctSub(d.All() + [(k, e)], r.All());
    ConservesLookup(r.All(), d.All(), [(k, e)], q);
    assert KeySeq([(k, e)]) == [k];
    LookupMember(r.All(), k);
    assert (k, e) in multiset(r.All());
  }

  lemma ExtendDistinct(s: Items, k: CacheKey, e: CacheEntry)
    requires Distinct(s) && Lookup(s, k) == None
    ensures Distinct(s + [(k, e)])
    ensures multiset(s + [(k, e)]) == multiset(s) + multiset([(k, e)])
  {
  }

  lemma DroppedGone(g: Segments, k: CacheKey, caps: Caps, q: CacheKey)
    requires Distinct(g.All()) && WithinCaps(g, caps)
    ensures Distinct(Drop(g, k).All())
    ensures Lookup(Drop(g, k).All(), k) == None
    ensures Lookup(Drop(g, k).All(), q) == if q == k then None else Lookup(g.All(), q)
  {
    DropEffect(g, k, caps);
    match Lookup(g.All(), k) {
      case Some(e) =>
        assert KeySeq([(k, e)]) == [k];
        ConservesLookup(g.All(), Drop(g, k).All(), [(k, e)], k);
        ConservesLookup(g.All(), Drop(g, k).All(), [(k, e)], q);
      case None =>
    }
  }

  lemma InsertBag(g: Segments, k: CacheKey, e: CacheEntry)
    requires Distinct(g.All())
    ensures multiset(Insert(g, k, e).All()) == multiset(Drop(g, k).All()) + multiset([(k, e)])
  {
    WhichSegment(g, k);
    WithoutBag(g.window, k);
    WithoutBag(g.probation, k);
    WithoutBag(g.protected, k);
    hide Distinct, Without, Lookup, Has;
    AllParts(Insert(g, k, e));
    AllParts(Drop(g, k));
  }

  /** After a write only the window can be over its capacity, by one entry. */
  lemma InsertSizes(g: Segments, caps: Caps, k: CacheKey, e: CacheEntry)
    requires WithinCaps(g, caps)
    ensures var r := Insert(g, k, e);
            && |r.probation| <= caps.prob && |r.protected| <= caps.prot && |r.window| <= caps.win + 1
            && (WithinCaps(r, caps) || (r.window != [] && r.window[|r.window| - 1] == (k, e)))
  {
  }

  /** Making room after a write never drops the key just written. */
  lemma WrittenStays(g: Segments, caps: Caps, freq: Weight, k: CacheKey, e: CacheEntry)
    requires Distinct(g.All()) && WithinCaps(g, caps) && caps.win >= 1
    ensures k !in KeySeq(Evict(Insert(g, k, e), caps, freq).dropped)
  {
    var mid := Insert(g, k, e);
    InsertEffect(g, caps, k, e, k);
    InsertSizes(g, caps, k, e);
    hide Insert, Evict, Segments.All, Distinct;
    if WithinCaps(mid, caps) {
      EvictIdle(mid, caps, freq);
    } else {
      var r := Evict(mid, caps, freq);
      NewestSurvives(mid, caps, freq);
      EvictConserves(mid, caps, freq);
      ConservesDistinct(mid.All(), r.segs.All(), r.dropped);
      WindowInAll(r.segs, (k, e));
      KeysOfPairs(r.dropped, k);
    }
  }

  lemma WindowInAll(g: Segments, p: (CacheKey, CacheEntry))
    requires p in g.window
    ensures p in g.All()
  {
  }

  lemma KeysOfPairs(s: Items, k: CacheKey)
    ensures k in KeySeq(s) <==> exists p :: p in s && p.0 == k
  {
    if k in KeySeq(s) {
      var i :| 0 <= i < |s| && KeySeq(s)[i] == k;
      assert s[i] in s;
    }
    forall p | p in s && p.0 == k
      ensures k in KeySeq(s)
    {
      var i :| 0 <= i < |s| && s[i] == p;
      assert KeySeq(s)[i] == k;
    }
  }

  /** The segments after a put: room made, and perhaps a purge. */
  function PutSegs(g: Segments, caps: Caps, freq: Weight, k: CacheKey, e: CacheEntry, purge: bool, now: real,
                   sw: real): Trimmed {
    var r := Evict(Insert(g, k, e), caps, freq);
    Trimmed(if purge then PurgeAll(r.segs, now, sw) else r.segs, r.dropped)
  }

  lemma PutSegsEffect(g: Segments, caps: Caps, freq: Weight, k: CacheKey, e: CacheEntry, purge: bool, now: real,
                      sw: real, q: CacheKey)
    requires Distinct(g.All()) && WithinCaps(g, caps) && caps.win >= 1
    ensures var r := PutSegs(g, caps, freq, k, e, purge, now, sw);
            && Distinct(r.segs.All()) && WithinCaps(r.segs, caps)
            && KeyEffect(q, Lookup(g.All(), q), Lookup(r.segs.All(), q), Some((k, e)), KeySeq(r.dropped), now)
  {
    InsertEffect(g, caps, k, e, q);
    hide Insert, Evict, Segments.All, Distinct, PurgeAll, Lookup, Conserves, WithinCaps;
    var mid := Insert(g, k, e);
    var r := Evict(mid, caps, freq);
    WrittenStays(g, caps, freq, k, e);
    EvictConserves(mid, caps, freq);
    ConservesLookup(mid.All(), r.segs.All(), r.dropped, q);
    if purge {
      var gone := PurgeAllEffect(r.segs, now, sw);
      ReadEffect(r.segs.All(), PurgeAll(r.segs, now, sw).All(), gone, now, q);
    }
  }

  lemma PutEffect(t: Tiny, hash: CacheKey -> nat, k: CacheKey, e: CacheEntry, now: real, q: CacheKey)
    requires Valid(t)
    ensures var r := Put(t, hash, k, e, now);
            && Valid(r.state)
            && KeyEffect(q, Stored(t, q), Stored(r.state, q), Some((k, e)), r.evicted, now)
  {
    hide Insert, Evict, PurgeAll, Distinct, Segments.All, Lookup, WithinCaps, DefaultCaps, Sketch.Inc, Sketch.Valid,
         Sketch.Freq, KeyEffect, KeySeq;
    DefaultCapsSum(t.totalCap);
    PutSegsEffect(t.segs, t.caps, FreqOf(Used(t, hash, k).sketch, hash), k, e, (t.puts + 1) % 32 == 0, now,
        t.staleWindow as real, q);
  }

  lemma SetCapacityEffect(t: Tiny, hash: CacheKey -> nat, n: nat, q: CacheKey)
    requires Valid(t)
    ensures var r := SetCapacity(t, hash, n);
            && Valid(r.state)
            && Stored(r.state, q) == if q in r.evicted then None else Stored(t, q)
  {
    hide Evict, Segments.All, Distinct, ComputeRatio, Lookup, Sketch.Valid, Conserves;
    var cap := ClampCapacity(n);
    var caps := ComputeRatio(cap, t.policy.winPct, t.policy.probPct);
    var r := Evict(t.segs, caps, FreqOf(t.sketch, hash));
    EvictConserves(t.segs, caps, FreqOf(t.sketch, hash));
    ConservesLookup(t.segs.All(), r.segs.All(), r.dropped, q);
  }

  /** A read only reorders, or loses expired entries. */
  lemma GetEffect(t: Tiny, hash: CacheKey -> nat, k: CacheKey, now: real) returns (gone: Items)
    requires Valid(t)
    ensures var r := Get(t, hash, k, now);
            && Conserves(t.segs.All(), r.state.segs.All(), gone) && AllExpired(gone, now)
            && WithinCaps(r.state.segs, t.caps)
    ensures var s := Get(t, hash, k, now).state;
            s.sketch.Valid() && s.(segs := t.segs, sketch := t.sketch, misses := t.misses) == t
  {
    hide Segments.All, WithinCaps, GetMiss, Distinct, HitSegs, Drop, DefaultCaps, Sketch.Valid, Sketch.Inc,
         Sketch.Freq, PromotionAllowed, Lookup;
    gone := [];
    match Stored(t, k) {
      case None =>
        gone := MissEffect(t, now);
      case Some(e) =>
        if e.expiresAt > now {
          DefaultCapsSum(t.totalCap);
          HitSegsEffect(t.segs, t.caps, k, e, PromotionAllowed(t, FreqOf(t.sketch, hash), t.sketch.Freq(hash(k))));
        } else if t.staleWindow == 0 {
          DropEffect(t.segs, k, t.caps);
          gone := [(k, e)];
        }
    }
  }

  lemma HitSegsEffect(g: Segments, caps: Caps, k: CacheKey, e: CacheEntry, promote: bool)
    requires Distinct(g.All()) && WithinCaps(g, caps) && caps.prot >= 1 && Lookup(g.All(), k) == Some(e)
    ensures var r := HitSegs(g, caps.prot, k, e, promote);
            Conserves(g.All(), r.All(), []) && WithinCaps(r, caps)
  {
    WhichSegment(g, k);
    TouchInEffect(g, k, caps);
    hide Distinct, Segments.All, WithinCaps, TouchIn, Promote;
    if !Has(g.window, k) && Has(g.probation, k) {
      PromoteEffect(g, caps, k);
    }
  }

  lemma SweepAllEffect(g: Segments, now: real) returns (gone: Items)
    ensures Conserves(g.All(), SweepAll(g, now).All(), gone) && AllExpired(gone, now)
    ensures forall caps :: WithinCaps(g, caps) ==> WithinCaps(SweepAll(g, now), caps)
  {
    SweepFrontPrefix(g.window, now, 4);
    SweepFrontPrefix(g.probation, now, 4);
    SweepFrontPrefix(g.protected, now, 4);
    gone := CutFronts(g, SweepAll(g, now), now);
  }

  lemma MissEffect(t: Tiny, now: real) returns (gone: Items)
    requires WithinCaps(t.segs, t.caps)
    ensures var s := GetMiss(t, now);
            && Conserves(t.segs.All(), s.segs.All(), gone) && AllExpired(gone, now)
            && WithinCaps(s.segs, t.caps)
            && s.(segs := t.segs, misses := t.misses) == t
  {
    hide Segments.All, WithinCaps, SweepAll;
    gone := [];
    if t.staleWindow == 0 && (t.misses + 1) % 32 == 0 {
      gone := SweepAllEffect(t.segs, now);
    }
  }
}
