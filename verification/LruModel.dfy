/** The sharded LRU cache as a value: what each operation does to the shards, and
    what every sequence of operations keeps. */
module LruModel {
  import opened Wrappers
  import opened Assoc
  import opened Entries
  import opened Operations

  const SHARDS: nat := 8
  const PURGE_SCAN_STEP: nat := 64

  /** One shard: its pairs from least to most recently used. */
  datatype Shard = Shard(cap: nat, items: Items, putCount: nat, cursor: nat)

  datatype Lru = Lru(totalCap: nat, shards: seq<Shard>, staleWindow: nat, group: Option<string>)

  function ShardCap(total: nat, i: nat): nat {
    total / SHARDS + if i < total % SHARDS then 1 else 0
  }

  function Index(hash: CacheKey -> nat, k: CacheKey): (i: nat)
    ensures i < SHARDS
  {
    hash(k) % SHARDS
  }

  // ---- one shard ----

  function Overflow(items: Items, cap: nat): (n: nat)
    ensures n <= |items|
  {
    if |items| > cap then |items| - cap else 0
  }

  /** The head of the list goes first until the shard fits again. */
  function Fit(items: Items, cap: nat): Items {
    items[Overflow(items, cap)..]
  }

  function Evicted(items: Items, cap: nat): seq<CacheKey> {
    KeySeq(items[..Overflow(items, cap)])
  }

  /** The list without its leading run of removable entries. */
  function Swept(items: Items, now: real, sw: real): (r: Items) {
    if items != [] && Removable(items[0].1, now, sw) then Swept(items[1..], now, sw) else items
  }

  /** The list without its removable entries. */
  function Kept(items: Items, now: real, sw: real): (r: Items)
    ensures |r| <= |items|
  {
    if items == [] then []
    else if Removable(items[0].1, now, sw) then Kept(items[1..], now, sw)
    else [items[0]] + Kept(items[1..], now, sw)
  }

  function Min(a: nat, b: nat): nat { if a < b then a else b }

  /** Where the rotating scan starts, and how many positions it covers. */
  function ScanStart(cursor: nat, n: nat): nat {
    if Min(PURGE_SCAN_STEP, n) >= n || cursor >= n then 0 else cursor
  }

  function ScanEnd(cursor: nat, n: nat): nat {
    Min(ScanStart(cursor, n) + Min(PURGE_SCAN_STEP, n), n)
  }

  function Scanned(items: Items, cursor: nat, now: real, sw: real): Items {
    var a, b := ScanStart(cursor, |items|), ScanEnd(cursor, |items|);
    items[..a] + Kept(items[a..b], now, sw) + items[b..]
  }

  function Purge(s: Shard, now: real, sw: real): Shard {
    var swept := Swept(s.items, now, sw);
    if swept == [] then s.(items := [])
    else
      s.(items := Scanned(swept, s.cursor, now, sw),
         cursor := (ScanStart(s.cursor, |swept|) + Min(PURGE_SCAN_STEP, |swept|)) % |swept|)
  }

  function ShardPut(s: Shard, k: CacheKey, e: CacheEntry, now: real, sw: real): Shard {
    var s' := s.(items := Fit(PutBack(s.items, k, e), s.cap), putCount := s.putCount + 1);
    if s'.putCount % 32 == 0 then Purge(s', now, sw) else s'
  }

  function ShardGet(s: Shard, k: CacheKey, now: real, sw: real): (Shard, Option<CacheEntry>) {
    match Lookup(s.items, k)
    case None => (s, None)
    case Some(e) =>
      if e.expiresAt <= now then
        (if sw <= 0.0 then s.(items := Without(s.items, k)) else s, None)
      else
        (s.(items := Touch(s.items, k)), Some(e))
  }

  function ShardGetStale(s: Shard, k: CacheKey, now: real, window: real): (Shard, Option<CacheEntry>) {
    match Lookup(s.items, k)
    case None => (s, None)
    case Some(e) =>
      if e.expiresAt > now then (s, None)
      else if now - e.expiresAt > window then (s.(items := Without(s.items, k)), None)
      else (s.(items := Touch(s.items, k)), Some(e))
  }

  function ShardPeek(s: Shard, k: CacheKey, now: real): (Shard, Option<CacheEntry>) {
    match Lookup(s.items, k)
    case None => (s, None)
    case Some(e) =>
      if e.expiresAt <= now then (s.(items := Without(s.items, k)), None) else (s, Some(e))
  }

  function ShardDelete(s: Shard, k: CacheKey): Shard {
    s.(items := Without(s.items, k))
  }

  function ShardResize(s: Shard, cap: nat): Shard {
    s.(cap := cap, items := Fit(s.items, cap))
  }

  ghost predicate ShardValid(s: Shard, hash: CacheKey -> nat, i: nat) {
    && 1 <= s.cap && |s.items| <= s.cap
    && Distinct(s.items)
    && forall p :: p in s.items ==> Index(hash, p.0) == i
  }

  // ---- the purge ----

  /** `b` is `a` with some removable entries left out; the rest keeps its order. */
  ghost predicate Thinned(a: Items, b: Items, now: real, sw: real) {
    if a == [] then
      b == []
    else
      || (b != [] && a[0] == b[0] && Thinned(a[1..], b[1..], now, sw))
      || (Removable(a[0].1, now, sw) && Thinned(a[1..], b, now, sw))
  }

  lemma {:induction false} ThinnedSame(a: Items, now: real, sw: real)
    ensures Thinned(a, a, now, sw)
  {
    if a != [] {
      ThinnedSame(a[1..], now, sw);
    }
  }

  lemma {:induction false} ThinnedConcat(a: Items, b: Items, a': Items, b': Items, now: real, sw: real)
    requires Thinned(a, a', now, sw) && Thinned(b, b', now, sw)
    ensures Thinned(a + b, a' + b', now, sw)
  {
    if a == [] {
      assert a + b == b && a' + b' == b';
    } else {
      assert (a + b)[1..] == a[1..] + b;
      if a' != [] && a[0] == a'[0] && Thinned(a[1..], a'[1..], now, sw) {
        ThinnedConcat(a[1..], b, a'[1..], b', now, sw);
        assert (a' + b')[1..] == a'[1..] + b';
      } else {
        ThinnedConcat(a[1..], b, a', b', now, sw);
      }
    }
  }

  lemma {:induction false} ThinnedKept(a: Items, now: real, sw: real)
    ensures Thinned(a, Kept(a, now, sw), now, sw)
    ensures forall p :: p in Kept(a, now, sw) <==> p in a && !Removable(p.1, now, sw)
  {
    if a != [] {
      ThinnedKept(a[1..], now, sw);
      assert a == [a[0]] + a[1..];
    }
  }

  lemma {:induction false} KeptAppend(a: Items, p: (CacheKey, CacheEntry), now: real, sw: real)
    ensures Kept(a + [p], now, sw) == if Removable(p.1, now, sw) then Kept(a, now, sw) else Kept(a, now, sw) + [p]
  {
    if a != [] {
      assert (a + [p])[1..] == a[1..] + [p];
      KeptAppend(a[1..], p, now, sw);
    }
  }

  lemma {:induction false} ThinnedSwept(a: Items, now: real, sw: real)
    ensures Thinned(a, Swept(a, now, sw), now, sw)
    ensures Swept(a, now, sw) != [] ==> !Removable(Swept(a, now, sw)[0].1, now, sw)
  {
    if a != [] && Removable(a[0].1, now, sw) {
      ThinnedSwept(a[1..], now, sw);
    } else {
      ThinnedSame(a, now, sw);
    }
  }

  lemma {:induction false} ThinnedTrans(a: Items, b: Items, c: Items, now: real, sw: real)
    requires Thinned(a, b, now, sw) && Thinned(b, c, now, sw)
    ensures Thinned(a, c, now, sw)
  {
    if a != [] {
      if b != [] && a[0] == b[0] && Thinned(a[1..], b[1..], now, sw) {
        if c != [] && b[0] == c[0] && Thinned(b[1..], c[1..], now, sw) {
          ThinnedTrans(a[1..], b[1..], c[1..], now, sw);
        } else {
          ThinnedTrans(a[1..], b[1..], c, now, sw);
        }
      } else {
        ThinnedTrans(a[1..], b, c, now, sw);
      }
    }
  }

  /** What a thinned list holds: everything that was there, except removable entries. */
  lemma {:induction false} ThinnedMembers(a: Items, b: Items, now: real, sw: real)
    requires Thinned(a, b, now, sw)
    ensures |b| <= |a|
    ensures forall p :: p in b ==> p in a
    ensures forall p :: p in a && p !in b ==> Removable(p.1, now, sw)
    ensures Distinct(a) ==> Distinct(b)
  {
    if a != [] {
      assert a == [a[0]] + a[1..];
      if b != [] && a[0] == b[0] && Thinned(a[1..], b[1..], now, sw) {
        ThinnedMembers(a[1..], b[1..], now, sw);
        assert b == [b[0]] + b[1..];
        if Distinct(a) {
          forall j | 0 < j < |b|
            ensures b[j].0 != b[0].0
          {
            assert b[1..][j - 1] in a[1..];
            var m :| 0 <= m < |a[1..]| && a[1..][m] == b[j];
            assert a[m + 1] == b[j];
          }
          forall i, j | 0 <= i < j < |b|
            ensures b[i].0 != b[j].0
          {
            if i > 0 {
              assert b[1..][i - 1].0 != b[1..][j - 1].0;
            }
          }
        }
      } else {
        ThinnedMembers(a[1..], b, now, sw);
      }
    }
  }

  lemma MiddleThinned(items: Items, a: nat, b: nat, now: real, sw: real)
    requires a <= b <= |items|
    ensures Thinned(items, items[..a] + Kept(items[a..b], now, sw) + items[b..], now, sw)
  {
    hide Thinned, Kept;
    var x, y, z, y' := items[..a], items[a..b], items[b..], Kept(items[a..b], now, sw);
    ThinnedSame(x, now, sw);
    ThinnedKept(y, now, sw);
    ThinnedSame(z, now, sw);
    ThinnedConcat(x, y, x, y', now, sw);
    ThinnedConcat(x + y, z, x + y', z, now, sw);
    assert items == x + y + z;
  }

  lemma ScannedThinned(items: Items, cursor: nat, now: real, sw: real)
    ensures Thinned(items, Scanned(items, cursor, now, sw), now, sw)
    ensures |items| <= PURGE_SCAN_STEP ==> Scanned(items, cursor, now, sw) == Kept(items, now, sw)
  {
    hide Thinned, Kept;
    var a, b := ScanStart(cursor, |items|), ScanEnd(cursor, |items|);
    MiddleThinned(items, a, b, now, sw);
    if |items| <= PURGE_SCAN_STEP {
      assert items[..a] == [] && items[a..b] == items && items[b..] == [];
    }
  }

  /** A purge removes only entries expired beyond the stale window, keeps all others
      in order, and leaves none behind when at most 64 entries survive the sweep. */
  lemma PurgeThins(s: Shard, now: real, sw: real)
    ensures Thinned(s.items, Purge(s, now, sw).items, now, sw)
    ensures |Swept(s.items, now, sw)| <= PURGE_SCAN_STEP ==>
              forall p :: p in Purge(s, now, sw).items <==> p in s.items && !Removable(p.1, now, sw)
    ensures Purge(s, now, sw).cap == s.cap && Purge(s, now, sw).putCount == s.putCount
  {
    var swept := Swept(s.items, now, sw);
    ThinnedSwept(s.items, now, sw);
    ScannedThinned(swept, s.cursor, now, sw);
    ThinnedTrans(s.items, swept, Scanned(swept, s.cursor, now, sw), now, sw);
    ThinnedMembers(s.items, swept, now, sw);
    ThinnedKept(swept, now, sw);
    if swept == [] {
      assert Scanned(swept, s.cursor, now, sw) == [];
    }
  }

  // ---- what shard operations do, key by key ----

  lemma ThinnedLookup(a: Items, b: Items, now: real, sw: real, q: CacheKey)
    requires Distinct(a) && Thinned(a, b, now, sw)
    ensures Distinct(b) && Aged(Lookup(a, q), Lookup(b, q), now)
  {
    ThinnedMembers(a, b, now, sw);
    LookupMember(a, q);
    LookupMember(b, q);
    if Lookup(b, q).Some? {
      assert (q, Lookup(b, q).value) in a;
    } else if Lookup(a, q).Some? {
      assert (q, Lookup(a, q).value) in a;
    }
  }

  /** The part of a put before the occasional purge. */
  lemma FitEffect(items: Items, hash: CacheKey -> nat, i: nat, cap: nat, q: CacheKey)
    requires Distinct(items) && cap >= 1 && forall p :: p in items ==> Index(hash, p.0) == i
    ensures Distinct(Fit(items, cap)) && |Fit(items, cap)| <= cap
    ensures forall p :: p in Fit(items, cap) ==> Index(hash, p.0) == i
    ensures Lookup(Fit(items, cap), q) == if q in Evicted(items, cap) then None else Lookup(items, q)
    ensures forall x :: x in Evicted(items, cap) ==> Index(hash, x) == i
    ensures items != [] ==> items[|items| - 1].0 !in Evicted(items, cap)
  {
    LookupDrop(items, Overflow(items, cap), q);
    forall p | p in Fit(items, cap)
      ensures p in items
    {
    }
    forall x | x in Evicted(items, cap)
      ensures Index(hash, x) == i
    {
      var j :| 0 <= j < Overflow(items, cap) && Evicted(items, cap)[j] == x;
      assert items[j].0 == x && items[j] in items;
    }
  }

  lemma ShardPutEffect(s: Shard, hash: CacheKey -> nat, k: CacheKey, e: CacheEntry, now: real, sw: real, q: CacheKey)
    requires ShardValid(s, hash, Index(hash, k))
    ensures ShardValid(ShardPut(s, k, e, now, sw), hash, Index(hash, k))
    ensures KeyEffect(q, Lookup(s.items, q), Lookup(ShardPut(s, k, e, now, sw).items, q),
                      Some((k, e)), Evicted(PutBack(s.items, k, e), s.cap), now)
    ensures ShardPut(s, k, e, now, sw).cap == s.cap
    ensures forall x :: x in Evicted(PutBack(s.items, k, e), s.cap) ==> Index(hash, x) == Index(hash, k)
  {
    hide Evicted, Fit, Purge, PutBack, Removable;
    var items := PutBack(s.items, k, e);
    PutBackMember(s.items, k, e);
    LookupPutBack(s.items, k, e, q);
    FitEffect(items, hash, Index(hash, k), s.cap, q);
    PutBackLast(s.items, k, e);
    var fit := s.(items := Fit(items, s.cap), putCount := s.putCount + 1);
    if fit.putCount % 32 == 0 {
      PurgeThins(fit, now, sw);
      ThinnedMembers(fit.items, Purge(fit, now, sw).items, now, sw);
      ThinnedLookup(fit.items, Purge(fit, now, sw).items, now, sw, q);
    }
  }

  lemma PutBackLast(items: Items, k: CacheKey, e: CacheEntry)
    ensures PutBack(items, k, e) != [] && PutBack(items, k, e)[|PutBack(items, k, e)| - 1] == (k, e)
  {
  }

  lemma ShardReadEffect(s: Shard, hash: CacheKey -> nat, k: CacheKey, now: real, sw: real, q: CacheKey)
    requires ShardValid(s, hash, Index(hash, k))
    ensures forall s' | s' in {ShardGet(s, k, now, sw).0, ShardGetStale(s, k, now, sw).0, ShardPeek(s, k, now).0} ::
              && ShardValid(s', hash, Index(hash, k)) && s'.cap == s.cap
              && KeyEffect(q, Lookup(s.items, q), Lookup(s'.items, q), None, [], now)
  {
    WithoutMember(s.items, k);
    LookupWithout(s.items, k, q);
    LookupTouch(s.items, k, q);
  }

  lemma ShardDropEffect(s: Shard, hash: CacheKey -> nat, i: nat, k: CacheKey, q: CacheKey)
    requires ShardValid(s, hash, i)
    ensures ShardValid(ShardDelete(s, k), hash, i) && ShardDelete(s, k).cap == s.cap
    ensures Lookup(ShardDelete(s, k).items, q) == if q == k then None else Lookup(s.items, q)
  {
    WithoutMember(s.items, k);
    LookupWithout(s.items, k, q);
  }

  // ---- the whole cache ----

  ghost predicate Valid(c: Lru, hash: CacheKey -> nat) {
    && c.totalCap >= 16 && |c.shards| == SHARDS
    && forall i :: 0 <= i < SHARDS ==>
         c.shards[i].cap == ShardCap(c.totalCap, i) && ShardValid(c.shards[i], hash, i)
  }

  function Fresh(capacity: nat, group: Option<string>): Lru {
    var cap := ClampCapacity(capacity);
    Lru(cap, seq(SHARDS, i requires 0 <= i < SHARDS => Shard(ShardCap(cap, i), [], 0, 0)), 0, group)
  }

  /** The entry stored under `k`, expired or not. */
  function Stored(c: Lru, hash: CacheKey -> nat, k: CacheKey): Option<CacheEntry>
    requires |c.shards| == SHARDS
  {
    Lookup(c.shards[Index(hash, k)].items, k)
  }

  function Put(c: Lru, hash: CacheKey -> nat, k: CacheKey, e: CacheEntry, now: real): Outcome<Lru>
    requires |c.shards| == SHARDS
  {
    var i := Index(hash, k);
    var s := c.shards[i];
    Outcome(c.(shards := c.shards[i := ShardPut(s, k, e, now, c.staleWindow as real)]),
            Evicted(PutBack(s.items, k, e), s.cap), None)
  }

  function Get(c: Lru, hash: CacheKey -> nat, k: CacheKey, now: real): Outcome<Lru>
    requires |c.shards| == SHARDS
  {
    var i := Index(hash, k);
    var (s, found) := ShardGet(c.shards[i], k, now, c.staleWindow as real);
    Outcome(c.(shards := c.shards[i := s]), [], found)
  }

  function GetStale(c: Lru, hash: CacheKey -> nat, k: CacheKey, now: real, window: real): Outcome<Lru>
    requires |c.shards| == SHARDS
  {
    var i := Index(hash, k);
    var (s, found) := ShardGetStale(c.shards[i], k, now, window);
    Outcome(c.(shards := c.shards[i := s]), [], found)
  }

  function Peek(c: Lru, hash: CacheKey -> nat, k: CacheKey, now: real): Outcome<Lru>
    requires |c.shards| == SHARDS
  {
    var i := Index(hash, k);
    var (s, found) := ShardPeek(c.shards[i], k, now);
    Outcome(c.(shards := c.shards[i := s]), [], found)
  }

  function Delete(c: Lru, hash: CacheKey -> nat, k: CacheKey): Outcome<Lru>
    requires |c.shards| == SHARDS
  {
    var i := Index(hash, k);
    Outcome(c.(shards := c.shards[i := ShardDelete(c.shards[i], k)]), [], None)
  }

  function Clear(c: Lru): Outcome<Lru> {
    Outcome(c.(shards := seq(|c.shards|, i requires 0 <= i < |c.shards| => c.shards[i].(items := []))), [], None)
  }

  function EvictedFrom(shards: seq<Shard>, total: nat, i: nat): seq<CacheKey>
    requires i <= |shards|
    decreases |shards| - i
  {
    if i == |shards| then []
    else Evicted(shards[i].items, ShardCap(total, i)) + EvictedFrom(shards, total, i + 1)
  }

  function SetCapacity(c: Lru, n: nat): Outcome<Lru> {
    var cap := ClampCapacity(n);
    Outcome(c.(totalCap := cap,
               shards := ResizedTo(c.shards, cap, |c.shards|)),
            EvictedFrom(c.shards, cap, 0), None)
  }

  function SetStaleWindow(c: Lru, v: nat): Outcome<Lru> {
    Outcome(c.(staleWindow := v), [], None)
  }

  /** The shards once the first `i` of them have been resized. */
  function ResizedTo(shards: seq<Shard>, total: nat, i: nat): (r: seq<Shard>)
    ensures |r| == |shards|
  {
    seq(|shards|, j requires 0 <= j < |shards| =>
      if j < i then ShardResize(shards[j], ShardCap(total, j)) else shards[j])
  }

  lemma ResizedStep(shards: seq<Shard>, total: nat, i: nat, evicted: seq<CacheKey>)
    requires i < |shards|
    ensures ResizedTo(shards, total, i)[i] == shards[i]
    ensures ResizedTo(shards, total, i + 1) == ResizedTo(shards, total,
            i)[i := ShardResize(shards[i], ShardCap(total, i))]
    ensures evicted + EvictedFrom(shards, total, i)
         == evicted + Evicted(shards[i].items, ShardCap(total, i)) + EvictedFrom(shards, total, i + 1)
  {
  }

  lemma ResizedEnds(shards: seq<Shard>, total: nat)
    ensures ResizedTo(shards, total, 0) == shards
    ensures EvictedFrom(shards, total, |shards|) == []
  {
  }

  function Apply(c: Lru, hash: CacheKey -> nat, op: Op): Outcome<Lru>
    requires |c.shards| == SHARDS
  {
    match op
    case Put(k, e, now) => Put(c, hash, k, e, now)
    case Get(k, now) => Get(c, hash, k, now)
    case GetStale(k, now, w) => GetStale(c, hash, k, now, w)
    case Peek(k, now) => Peek(c, hash, k, now)
    case Delete(k) => Delete(c, hash, k)
    case Clear => Clear(c)
    case SetCapacity(n) => SetCapacity(c, n)
    case SetStaleWindow(v) => SetStaleWindow(c, v)
  }

  lemma ShardCapPositive(total: nat, i: nat)
    requires total >= 16
    ensures ShardCap(total, i) >= 2
  {
  }

  lemma EvictedIndex(s: Shard, hash: CacheKey -> nat, i: nat, cap: nat, q: CacheKey)
    requires ShardValid(s, hash, i)
    ensures q in Evicted(s.items, cap) ==> Index(hash, q) == i
  {
    var ev := Evicted(s.items, cap);
    if q in ev {
      var j :| 0 <= j < |ev| && ev[j] == q;
      assert s.items[j] in s.items;
    }
  }

  lemma {:induction false} EvictedFromKeys(shards: seq<Shard>, total: nat, i: nat, hash: CacheKey -> nat, q: CacheKey)
    requires i <= |shards| == SHARDS
    requires forall j :: 0 <= j < SHARDS ==> ShardValid(shards[j], hash, j)
    ensures q in EvictedFrom(shards, total, i) <==>
              Index(hash, q) >= i && q in Evicted(shards[Index(hash, q)].items, ShardCap(total, Index(hash, q)))
    decreases |shards| - i
  {
    hide Evicted, ShardCap, ShardValid, Index;
    if i < |shards| {
      EvictedFromKeys(shards, total, i + 1, hash, q);
      EvictedIndex(shards[i], hash, i, ShardCap(total, i), q);
    }
  }

  lemma ValidShard(c: Lru, hash: CacheKey -> nat, k: CacheKey)
    requires Valid(c, hash)
    ensures ShardValid(c.shards[Index(hash, k)], hash, Index(hash, k))
  {
  }

  /** Replacing the shard of `k` changes no key that hashes elsewhere. */
  lemma ReplacedShard(c: Lru, hash: CacheKey -> nat, k: CacheKey, s: Shard, q: CacheKey)
    requires Valid(c, hash)
    requires ShardValid(s, hash, Index(hash, k)) && s.cap == c.shards[Index(hash, k)].cap
    ensures var c' := c.(shards := c.shards[Index(hash, k) := s]);
            && Valid(c', hash)
            && Stored(c', hash, q) == (if Index(hash, q) == Index(hash, k) then Lookup(s.items, q)
               else Stored(c, hash, q))
    ensures Index(hash, q) == Index(hash, k) ==> Stored(c, hash, q) == Lookup(c.shards[Index(hash, k)].items, q)
  {
  }

  lemma ClearEffect(c: Lru, hash: CacheKey -> nat, q: CacheKey)
    requires Valid(c, hash)
    ensures Valid(Clear(c).state, hash) && Stored(Clear(c).state, hash, q) == None
  {
  }

  lemma SetCapacityEffect(c: Lru, hash: CacheKey -> nat, n: nat, q: CacheKey)
    requires Valid(c, hash)
    ensures Valid(SetCapacity(c, n).state, hash)
    ensures var r := SetCapacity(c, n);
            Stored(r.state, hash, q) == if q in r.evicted then None else Stored(c, hash, q)
  {
    var cap := ClampCapacity(n);
    forall i | 0 <= i < SHARDS
      ensures ShardValid(ShardResize(c.shards[i], ShardCap(cap, i)), hash, i)
    {
      ShardCapPositive(cap, i);
      FitEffect(c.shards[i].items, hash, i, ShardCap(cap, i), q);
    }
    var i := Index(hash, q);
    ShardCapPositive(cap, i);
    FitEffect(c.shards[i].items, hash, i, ShardCap(cap, i), q);
    EvictedFromKeys(c.shards, cap, 0, hash, q);
  }

  lemma WindowEffect(c: Lru, hash: CacheKey -> nat, v: nat, q: CacheKey)
    requires Valid(c, hash)
    ensures Valid(SetStaleWindow(c, v).state, hash)
    ensures Stored(SetStaleWindow(c, v).state, hash, q) == Stored(c, hash, q)
  {
  }

  lemma ApplyValid(c: Lru, hash: CacheKey -> nat, op: Op)
    requires Valid(c, hash)
    ensures Valid(Apply(c, hash, op).state, hash)
  {
    hide *;
    ApplyEffect(c, hash, op, CacheKey(None, "", ""), 0.0);
  }

  lemma SetCapacityValid(c: Lru, hash: CacheKey -> nat, n: nat)
    requires Valid(c, hash)
    ensures Valid(SetCapacity(c, n).state, hash)
  {
    SetCapacityEffect(c, hash, n, CacheKey(None, "", ""));
  }

  /** Every operation keeps the cache valid and changes every key as accounted for. */
  lemma ApplyEffect(c: Lru, hash: CacheKey -> nat, op: Op, q: CacheKey, clock: real)
    requires Valid(c, hash)
    ensures Valid(Apply(c, hash, op).state, hash)
    ensures var r := Apply(c, hash, op);
            if op.Clear? then Stored(r.state, hash, q) == None
            else KeyEffect(q, Stored(c, hash, q), Stored(r.state, hash, q), PutOf(op), Taken(op, r.evicted),
                TimeOf(op, clock))
  {
    hide ShardPut, ShardGet, ShardGetStale, ShardPeek, ShardDelete, ShardCap, Evicted, ShardValid, Stored, Index,
         SetCapacity;
    match op {
      case Put(k, e, now) =>
        ValidShard(c, hash, k);
        ShardPutEffect(c.shards[Index(hash, k)], hash, k, e, now, c.staleWindow as real, q);
        ReplacedShard(c, hash, k, ShardPut(c.shards[Index(hash, k)], k, e, now, c.staleWindow as real), q);
      case Get(k, now) =>
        ValidShard(c, hash, k);
        ShardReadEffect(c.shards[Index(hash, k)], hash, k, now, c.staleWindow as real, q);
        ReplacedShard(c, hash, k, ShardGet(c.shards[Index(hash, k)], k, now, c.staleWindow as real).0, q);
      case GetStale(k, now, w) =>
        ValidShard(c, hash, k);
        ShardReadEffect(c.shards[Index(hash, k)], hash, k, now, w, q);
        ReplacedShard(c, hash, k, ShardGetStale(c.shards[Index(hash, k)], k, now, w).0, q);
      case Peek(k, now) =>
        ValidShard(c, hash, k);
        ShardReadEffect(c.shards[Index(hash, k)], hash, k, now, 0.0, q);
        ReplacedShard(c, hash, k, ShardPeek(c.shards[Index(hash, k)], k, now).0, q);
      case Delete(k) =>
        ValidShard(c, hash, k);
        ShardDropEffect(c.shards[Index(hash, k)], hash, Index(hash, k), k, q);
        ReplacedShard(c, hash, k, ShardDelete(c.shards[Index(hash, k)], k), q);
      case Clear =>
        ClearEffect(c, hash, q);
      case SetCapacity(n) =>
        SetCapacityEffect(c, hash, n, q);
      case SetStaleWindow(v) =>
        WindowEffect(c, hash, v, q);
    }
  }

  /** What is evicted was stored before, or is the key just put. */
  lemma EvictedStored(c: Lru, hash: CacheKey -> nat, op: Op, x: CacheKey)
    requires Valid(c, hash) && x in Apply(c, hash, op).evicted
    ensures Stored(c, hash, x).Some? || (op.Put? && op.key == x)
  {
    match op {
      case Put(k, e, now) =>
        ValidShard(c, hash, k);
        EvictedMember(PutBack(c.shards[Index(hash, k)].items, k, e), c.shards[Index(hash, k)].cap, x);
        PutBackMember(c.shards[Index(hash, k)].items, k, e);
        LookupMember(c.shards[Index(hash, k)].items, x);
      case SetCapacity(n) =>
        EvictedFromKeys(c.shards, ClampCapacity(n), 0, hash, x);
        EvictedMember(c.shards[Index(hash, x)].items, ShardCap(ClampCapacity(n), Index(hash, x)), x);
        ValidShard(c, hash, x);
        LookupMember(c.shards[Index(hash, x)].items, x);
      case _ =>
    }
  }

  lemma EvictedMember(items: Items, cap: nat, x: CacheKey)
    requires x in Evicted(items, cap)
    ensures exists v :: (x, v) in items
  {
    var j :| 0 <= j < |Evicted(items, cap)| && Evicted(items, cap)[j] == x;
    assert items[j] in items && items[j] == (x, items[j].1);
  }

  lemma SameGroup(c: Lru, hash: CacheKey -> nat, op: Op)
    requires |c.shards| == SHARDS
    ensures Apply(c, hash, op).state.group == c.group
    ensures !op.SetCapacity? ==> Apply(c, hash, op).state.totalCap == c.totalCap
  {
  }

  // ---- whole runs ----

  function Run(c: Lru, hash: CacheKey -> nat, ops: seq<Op>): (r: Lru)
    requires |c.shards| == SHARDS
    ensures |r.shards| == SHARDS
  {
    if ops == [] then c
    else Apply(Run(c, hash, ops[..|ops| - 1]), hash, ops[|ops| - 1]).state
  }

  lemma {:induction false} RunValid(c: Lru, hash: CacheKey -> nat, ops: seq<Op>)
    requires Valid(c, hash)
    ensures Valid(Run(c, hash, ops), hash)
  {
    if ops != [] {
      RunValid(c, hash, ops[..|ops| - 1]);
      ApplyValid(Run(c, hash, ops[..|ops| - 1]), hash, ops[|ops| - 1]);
    }
  }

  /** A put stores or refreshes its key; a read uses it when it hands its entry out. */
  predicate Uses(c: Lru, hash: CacheKey -> nat, op: Op, k: CacheKey)
    requires |c.shards| == SHARDS
  {
    || (op.Put? && op.key == k)
    || ((op.Get? || op.GetStale?) && op.key == k && Apply(c, hash, op).found.Some?)
  }

  /** The number of the operation that last used `k`, or -1. */
  function LastUse(c: Lru, hash: CacheKey -> nat, ops: seq<Op>, k: CacheKey): (n: int)
    requires |c.shards| == SHARDS
    ensures -1 <= n < |ops|
  {
    if ops == [] then -1
    else
      var before := ops[..|ops| - 1];
      if Uses(Run(c, hash, before), hash, ops[|ops| - 1], k) then |ops| - 1
      else LastUse(c, hash, before, k)
  }

  ghost predicate Ordered(items: Items, rank: CacheKey -> int) {
    forall a, b :: 0 <= a < b < |items| ==> rank(items[a].0) < rank(items[b].0)
  }

  lemma {:induction false} OrderedThinned(a: Items, b: Items, now: real, sw: real, rank: CacheKey -> int)
    requires Thinned(a, b, now, sw) && Ordered(a, rank)
    ensures Ordered(b, rank)
  {
    if a != [] {
      if b != [] && a[0] == b[0] && Thinned(a[1..], b[1..], now, sw) {
        OrderedThinned(a[1..], b[1..], now, sw, rank);
        ThinnedMembers(a[1..], b[1..], now, sw);
        forall j | 0 < j < |b|
          ensures rank(b[0].0) < rank(b[j].0)
        {
          assert b[1..][j - 1] in a[1..];
          var m :| 0 <= m < |a[1..]| && a[1..][m] == b[j];
          assert a[m + 1] == b[j];
        }
        forall i, j | 0 <= i < j < |b|
          ensures rank(b[i].0) < rank(b[j].0)
        {
          if i > 0 {
            assert b[1..][i - 1] == b[i] && b[1..][j - 1] == b[j];
          }
        }
      } else {
        OrderedThinned(a[1..], b, now, sw, rank);
      }
    }
  }

  /** Deleting a key, or using it and so moving it to the back, keeps the order. */
  lemma OrderedEdit(items: Items, k: CacheKey, e: CacheEntry, rank: CacheKey -> int, rank': CacheKey -> int)
    requires Distinct(items) && Ordered(items, rank)
    requires forall q :: q != k ==> rank'(q) == rank(q)
    ensures Ordered(Without(items, k), rank')
    ensures (forall q :: rank(q) < rank'(k)) ==> Ordered(PutBack(items, k, e), rank')
  {
    var r, i := Without(items, k), Position(items, k);
    forall j | 0 <= j < |r|
      ensures r[j] == items[if j < i then j else j + 1] && r[j].0 != k
    {
      WithoutMember(items, k);
      assert r[j] in r;
    }
  }

  lemma PutOrder(s: Shard, k: CacheKey, e: CacheEntry, now: real, sw: real, rank: CacheKey -> int,
                 rank': CacheKey -> int)
    requires Distinct(s.items) && Ordered(s.items, rank)
    requires forall q :: q != k ==> rank'(q) == rank(q)
    requires forall q :: rank(q) < rank'(k)
    ensures Ordered(ShardPut(s, k, e, now, sw).items, rank')
  {
    hide Purge, PutBack, Distinct, Thinned;
    OrderedEdit(s.items, k, e, rank, rank');
    var s' := s.(items := Fit(PutBack(s.items, k, e), s.cap), putCount := s.putCount + 1);
    if s'.putCount % 32 == 0 {
      PurgeThins(s', now, sw);
      OrderedThinned(s'.items, Purge(s', now, sw).items, now, sw, rank');
    }
  }

  /** One operation keeps every shard in order of last use. */
  lemma ShardOrder(c: Lru, hash: CacheKey -> nat, op: Op, i: nat, rank: CacheKey -> int, n: int, rank': CacheKey -> int)
    requires Valid(c, hash) && i < SHARDS && Ordered(c.shards[i].items, rank)
    requires forall q :: rank(q) < n
    requires forall q :: rank'(q) == if Uses(c, hash, op, q) then n else rank(q)
    ensures Ordered(Apply(c, hash, op).state.shards[i].items, rank')
  {
    var items := c.shards[i].items;
    match op {
      case Put(k, e, now) =>
        if Index(hash, k) == i {
          PutOrder(c.shards[i], k, e, now, c.staleWindow as real, rank, rank');
        } else {
          OrderKept(c, hash, op, k, i, rank, rank');
        }
      case Get(k, now) => ReadOrder(c, hash, op, k, i, rank, n, rank');
      case GetStale(k, now, w) => ReadOrder(c, hash, op, k, i, rank, n, rank');
      case Peek(k, now) => ReadOrder(c, hash, op, k, i, rank, n, rank');
      case Delete(k) => ReadOrder(c, hash, op, k, i, rank, n, rank');
      case Clear =>
      case SetCapacity(m) =>
      case SetStaleWindow(v) =>
    }
  }

  /** Keys of another shard keep both their place and their rank. */
  lemma OrderKept(c: Lru, hash: CacheKey -> nat, op: Op, k: CacheKey, i: nat, rank: CacheKey -> int,
                  rank': CacheKey -> int)
    requires Valid(c, hash) && i < SHARDS && Ordered(c.shards[i].items, rank)
    requires Index(hash, k) != i && forall q :: q != k ==> rank'(q) == rank(q)
    ensures Ordered(c.shards[i].items, rank')
  {
    var items := c.shards[i].items;
    forall j | 0 <= j < |items|
      ensures items[j].0 != k
    {
      assert items[j] in items;
    }
  }

  lemma ReadOrder(c: Lru, hash: CacheKey -> nat, op: Op, k: CacheKey, i: nat, rank: CacheKey -> int, n: int,
                  rank': CacheKey -> int)
    requires Valid(c, hash) && i < SHARDS && Ordered(c.shards[i].items, rank)
    requires (op.Get? || op.GetStale? || op.Peek? || op.Delete?) && op.key == k
    requires forall q :: rank(q) < n
    requires forall q :: rank'(q) == if Uses(c, hash, op, q) then n else rank(q)
    ensures Ordered(Apply(c, hash, op).state.shards[i].items, rank')
  {
    if Index(hash, k) == i {
      var items := c.shards[i].items;
      match Lookup(items, k) {
        case Some(e) => OrderedEdit(items, k, e, rank, rank');
        case None =>
      }
    } else {
      OrderKept(c, hash, op, k, i, rank, rank');
    }
  }

  /** After any run, whatever the stale window along the way, every shard lists its keys in
      order of their last put or hit. */
  lemma {:induction false} RecencyOrder(capacity: nat, group: Option<string>, hash: CacheKey -> nat, ops: seq<Op>,
                                        i: nat)
    requires i < SHARDS
    ensures var c := Fresh(capacity, group);
            Ordered(Run(c, hash, ops).shards[i].items, q => LastUse(c, hash, ops, q))
  {
    var c := Fresh(capacity, group);
    if ops != [] {
      var before, n := ops[..|ops| - 1], |ops| - 1;
      RecencyOrder(capacity, group, hash, before, i);
      FreshValid(capacity, group, hash);
      RunValid(c, hash, before);
      ShardOrder(Run(c, hash, before), hash, ops[n], i, q => LastUse(c, hash, before, q), n,
          q => LastUse(c, hash, ops, q));
    }
  }

  lemma FreshValid(capacity: nat, group: Option<string>, hash: CacheKey -> nat)
    ensures Valid(Fresh(capacity, group), hash)
    ensures forall q :: Stored(Fresh(capacity, group), hash, q) == None
  {
  }

  /** After any run, a put evicts exactly when its key is new and its shard is full, and
      then the one key of that shard whose last use is longest ago. */
  lemma PutEvictsLeastRecent(capacity: nat, group: Option<string>, hash: CacheKey -> nat, ops: seq<Op>,
                             k: CacheKey, e: CacheEntry, now: real)
    ensures var c := Run(Fresh(capacity, group), hash, ops);
            var s, evicted := c.shards[Index(hash, k)], Put(c, hash, k, e, now).evicted;
            && (evicted != [] <==> Stored(c, hash, k) == None && |s.items| == s.cap)
            && (evicted != [] ==>
                  && |evicted| == 1 && Has(s.items, evicted[0])
                  && forall p :: p in s.items && p.0 != evicted[0] ==>
                       LastUse(Fresh(capacity, group), hash, ops, evicted[0])
                       < LastUse(Fresh(capacity, group), hash, ops, p.0))
  {
    var c0, i := Fresh(capacity, group), Index(hash, k);
    FreshValid(capacity, group, hash);
    RunValid(c0, hash, ops);
    RecencyOrder(capacity, group, hash, ops, i);
    var s := Run(c0, hash, ops).shards[i];
    LookupMember(s.items, k);
    hide Run, LastUse;
    PutBackMember(s.items, k, e);
    if !Has(s.items, k) && |s.items| == s.cap {
      assert PutBack(s.items, k, e)[0] == s.items[0];
      PositionAt(s.items, 0);
    }
  }

  // ---- capacity ----

  function CapSum(shards: seq<Shard>): nat {
    if shards == [] then 0 else shards[0].cap + CapSum(shards[1..])
  }

  function Size(shards: seq<Shard>): nat {
    if shards == [] then 0 else |shards[0].items| + Size(shards[1..])
  }

  lemma {:induction false} SizeWithinCaps(shards: seq<Shard>)
    requires forall s :: s in shards ==> |s.items| <= s.cap
    ensures Size(shards) <= CapSum(shards)
  {
    if shards != [] {
      assert shards[0] in shards;
      SizeWithinCaps(shards[1..]);
    }
  }

  lemma {:induction false} CapSumFrom(shards: seq<Shard>, total: nat, i: nat)
    requires i <= SHARDS && |shards| == SHARDS - i
    requires forall j :: 0 <= j < |shards| ==> shards[j].cap == ShardCap(total, i + j)
    ensures CapSum(shards) == (SHARDS - i) * (total / SHARDS) + if i < total % SHARDS then total % SHARDS - i else 0
    decreases |shards|
  {
    if shards != [] {
      assert forall j :: 0 <= j < |shards[1..]| ==> shards[1..][j] == shards[j + 1];
      CapSumFrom(shards[1..], total, i + 1);
    }
  }

  /** The shard capacities always add up to the configured total, which bounds the
      number of entries. */
  lemma CapacityBound(c: Lru, hash: CacheKey -> nat)
    requires Valid(c, hash)
    ensures CapSum(c.shards) == c.totalCap
    ensures Size(c.shards) <= c.totalCap
  {
    CapSumFrom(c.shards, c.totalCap, 0);
    SizeWithinCaps(c.shards);
  }

  /** Growing evicts nothing and leaves every shard's list alone. */
  lemma GrowthEvictsNothing(c: Lru, hash: CacheKey -> nat, n: nat)
    requires Valid(c, hash) && n >= c.totalCap
    ensures SetCapacity(c, n).evicted == []
    ensures forall i :: 0 <= i < SHARDS ==> SetCapacity(c, n).state.shards[i].items == c.shards[i].items
  {
    GrowthFrom(c, hash, n, 0);
    forall i | 0 <= i < SHARDS
      ensures ShardCap(n, i) >= ShardCap(c.totalCap, i)
    {
    }
  }

  lemma {:induction false} GrowthFrom(c: Lru, hash: CacheKey -> nat, n: nat, i: nat)
    requires Valid(c, hash) && n >= c.totalCap && i <= SHARDS
    ensures EvictedFrom(c.shards, n, i) == []
    decreases SHARDS - i
  {
    if i < SHARDS {
      GrowthFrom(c, hash, n, i + 1);
      assert ShardCap(n, i) >= ShardCap(c.totalCap, i);
    }
  }

  /** An entry that is not yet expired is returned by a get right after its put. */
  lemma PutThenGet(c: Lru, hash: CacheKey -> nat, k: CacheKey, e: CacheEntry, now: real)
    requires Valid(c, hash) && e.expiresAt > now
    ensures Get(Put(c, hash, k, e, now).state, hash, k, now).found == Some(e)
  {
    ApplyEffect(c, hash, Op.Put(k, e, now), k, now);
  }
}
