/** Where the sharded LRU cache puts things: which pair goes where, and which ones go, when a
    key is read or written, when a shard is purged and when the capacity changes. */
module LruMoves {
  import opened Wrappers
  import opened Assoc
  import opened Entries
  import opened Operations
  import opened LruModel

  /** The pair of `k` stands in its shard between `a` and `b`. */
  ghost predicate Stands(c: Lru, hash: CacheKey -> nat, a: Items, k: CacheKey, e: CacheEntry, b: Items) {
    |c.shards| == 8 && c.shards[hash(k) % 8].items == a + [(k, e)] + b
  }

  /** The cache with other pairs in the shard of `k`. */
  function Holding(c: Lru, hash: CacheKey -> nat, k: CacheKey, items: Items): Lru
    requires |c.shards| == 8
  {
    var i := hash(k) % 8;
    c.(shards := c.shards[i := c.shards[i].(items := items)])
  }

  /** Writing back what is there changes nothing. */
  lemma SameShard(c: Lru, i: nat)
    requires i < |c.shards|
    ensures c.(shards := c.shards[i := c.shards[i]]) == c
  {
    assert c.shards[i := c.shards[i]] == c.shards;
  }

  lemma ShardDistinct(c: Lru, hash: CacheKey -> nat, k: CacheKey)
    requires Valid(c, hash)
    ensures |c.shards| == 8 && Distinct(c.shards[hash(k) % 8].items)
  {
    ValidShard(c, hash, k);
  }

  // ---- reads ----

  /** A get hands out an unexpired entry and moves it to the back of its shard. An expired one
      goes if there is no stale window, and stays where it is otherwise. */
  lemma GetMoves(c: Lru, hash: CacheKey -> nat, now: real, a: Items, k: CacheKey, e: CacheEntry, b: Items)
    requires Valid(c, hash) && Stands(c, hash, a, k, e, b)
    ensures LruModel.Get(c, hash, k, now) ==
            if e.expiresAt > now then Outcome(Holding(c, hash, k, a + b + [(k, e)]), [], Some(e))
            else Outcome(if c.staleWindow == 0 then Holding(c, hash, k, a + b) else c, [], None)
  {
    ShardDistinct(c, hash, k);
    ListMoves(a, k, e, b, e);
    SameShard(c, hash(k) % 8);
    hide Touch, Without, Lookup, Valid, Distinct;
  }

  /** A stale read hands out only what has expired within its window, and moves it to the
      back; beyond the window the pair goes. */
  lemma GetStaleMoves(c: Lru, hash: CacheKey -> nat, now: real, window: real, a: Items, k: CacheKey, e: CacheEntry,
                      b: Items)
    requires Valid(c, hash) && Stands(c, hash, a, k, e, b)
    ensures LruModel.GetStale(c, hash, k, now, window) ==
            if e.expiresAt > now then Outcome(c, [], None)
            else if now - e.expiresAt <= window then Outcome(Holding(c, hash, k, a + b + [(k, e)]), [], Some(e))
            else Outcome(Holding(c, hash, k, a + b), [], None)
  {
    ShardDistinct(c, hash, k);
    ListMoves(a, k, e, b, e);
    SameShard(c, hash(k) % 8);
    hide Touch, Without, Lookup, Valid, Distinct;
  }

  /** A peek hands out an unexpired entry and moves nothing, but drops an expired one. */
  lemma PeekMoves(c: Lru, hash: CacheKey -> nat, now: real, a: Items, k: CacheKey, e: CacheEntry, b: Items)
    requires Valid(c, hash) && Stands(c, hash, a, k, e, b)
    ensures LruModel.Peek(c, hash, k, now) ==
            if e.expiresAt > now then Outcome(c, [], Some(e)) else Outcome(Holding(c, hash, k, a + b), [], None)
  {
    ShardDistinct(c, hash, k);
    ListMoves(a, k, e, b, e);
    SameShard(c, hash(k) % 8);
    hide Touch, Without, Lookup, Valid, Distinct;
  }

  /** A deletion takes the pair out and leaves the rest as it is. */
  lemma DeleteMoves(c: Lru, hash: CacheKey -> nat, a: Items, k: CacheKey, e: CacheEntry, b: Items)
    requires Valid(c, hash) && Stands(c, hash, a, k, e, b)
    ensures LruModel.Delete(c, hash, k) == Outcome(Holding(c, hash, k, a + b), [], None)
  {
    ShardDistinct(c, hash, k);
    ListMoves(a, k, e, b, e);
    hide Without, Lookup, Valid, Distinct;
  }

  /** Reading or deleting a key that is not stored changes nothing. */
  lemma MissKeeps(c: Lru, hash: CacheKey -> nat, k: CacheKey, now: real, window: real)
    requires Valid(c, hash) && Stored(c, hash, k) == None
    ensures LruModel.Get(c, hash, k, now) == LruModel.GetStale(c, hash, k, now, window)
         == LruModel.Peek(c, hash, k, now) == LruModel.Delete(c, hash, k) == Outcome(c, [], None)
  {
    SameShard(c, hash(k) % 8);
  }

  // ---- purges ----

  /** Expired, and for longer than the stale window. */
  predicate Beyond(e: CacheEntry, now: real, sw: real) {
    e.expiresAt <= now && (sw <= 0.0 || now - e.expiresAt > sw)
  }

  /** `after` is `before` less the whole leading run of pairs beyond the window. */
  ghost predicate HeadGone(before: Items, after: Items, now: real, sw: real) {
    && |after| <= |before| && after == before[|before| - |after|..]
    && (forall i :: 0 <= i < |before| - |after| ==> Beyond(before[i].1, now, sw))
    && (after != [] ==> !Beyond(after[0].1, now, sw))
  }

  lemma {:induction false} SweptHead(s: Items, now: real, sw: real)
    ensures HeadGone(s, Swept(s, now, sw), now, sw)
  {
    if s != [] && Removable(s[0].1, now, sw) {
      SweptHead(s[1..], now, sw);
      var r := Swept(s[1..], now, sw);
      assert s[1..][|s| - 1 - |r|..] == s[|s| - |r|..];
      forall i | 0 <= i < |s| - |r|
        ensures Beyond(s[i].1, now, sw)
      {
        assert i > 0 ==> s[1..][i - 1] == s[i];
      }
    }
  }

  /** A purge first clears the head of the shard of pairs beyond the stale window. Of what is
      left it looks at 64 pairs from the cursor on, or from the front if the cursor is past the
      end or there are no more than 64, drops those beyond the window, keeps all others in
      order, and leaves the cursor behind the pairs looked at, going round. */
  lemma PurgeExact(s: Shard, now: real, sw: real) returns (head: Items, mid: Items)
    ensures HeadGone(s.items, head, now, sw)
    ensures var n, r := |head|, Purge(s, now, sw);
            var from := if n <= 64 || s.cursor >= n then 0 else s.cursor;
            var to := if from + 64 < n then from + 64 else n;
            && Thinned(head[from..to], mid, now, sw) && (forall p :: p in mid ==> !Beyond(p.1, now, sw))
            && r == s.(items := head[..from] + mid + head[to..],
                       cursor := if n == 0 then s.cursor else if n <= 64 then 0 else (from + 64) % n)
  {
    hide Swept, Kept, Thinned, HeadGone, ScanStart, ScanEnd, Scanned, Min;
    head := Swept(s.items, now, sw);
    SweptHead(s.items, now, sw);
    var n := |head|;
    var from := if n <= 64 || s.cursor >= n then 0 else s.cursor;
    var to := if from + 64 < n then from + 64 else n;
    mid := Kept(head[from..to], now, sw);
    KeptBeyond(head[from..to], now, sw);
    if n == 0 {
      NothingKept(now, sw);
      assert head[from..to] == [] && head[..from] + [] + head[to..] == [];
    } else {
      ScanRange(s.cursor, n);
      ScannedIs(head, s.cursor, now, sw);
    }
  }

  lemma ScannedIs(items: Items, cursor: nat, now: real, sw: real)
    ensures var a, b := ScanStart(cursor, |items|), ScanEnd(cursor, |items|);
            Scanned(items, cursor, now, sw) == items[..a] + Kept(items[a..b], now, sw) + items[b..]
  {
  }

  lemma ScanRange(cursor: nat, n: nat)
    requires n > 0
    ensures var from := if n <= 64 || cursor >= n then 0 else cursor;
            && ScanStart(cursor, n) == from && ScanEnd(cursor, n) == (if from + 64 < n then from + 64 else n)
            && (ScanStart(cursor, n) + Min(PURGE_SCAN_STEP, n)) % n == if n <= 64 then 0 else (from + 64) % n
  {
    if n <= 64 {
      WholeRound(n);
    }
  }

  lemma WholeRound(n: nat)
    requires n > 0
    ensures n % n == 0
  {
  }

  lemma KeptBeyond(s: Items, now: real, sw: real)
    ensures Thinned(s, Kept(s, now, sw), now, sw) && forall p :: p in Kept(s, now, sw) ==> !Beyond(p.1, now, sw)
  {
    ThinnedKept(s, now, sw);
  }

  lemma NothingKept(now: real, sw: real)
    ensures Kept([], now, sw) == []
  {
  }

  // ---- writes ----

  /** A put moves its key to the back of its shard with the new entry; if the shard is then too
      long its first pair goes, and is reported. The put is counted; every 32nd one purges. */
  lemma PutMoves(c: Lru, hash: CacheKey -> nat, k: CacheKey, e: CacheEntry, now: real, others: Items)
    requires Valid(c, hash)
    requires var items := c.shards[hash(k) % 8].items;
             if Stored(c, hash, k) == None then others == items
             else exists i :: 0 <= i < |items| && items[i].0 == k && others == items[..i] + items[i + 1..]
    ensures var r, i := LruModel.Put(c, hash, k, e, now), hash(k) % 8;
            var s, all := c.shards[i], others + [(k, e)];
            var full := |all| > s.cap;
            var mid := s.(items := if full then all[1..] else all, putCount := s.putCount + 1);
            && r.found == None && r.evicted == (if full then [all[0].0] else [])
            && r.state == c.(shards := c.shards[i :=
                             if (s.putCount + 1) % 32 == 0 then Purge(mid, now, c.staleWindow as real) else mid])
  {
    assert |c.shards| == 8;
    hide Purge, Valid, Distinct, PutBack, Lookup, ShardPut, Evicted;
    var i := hash(k) % 8;
    var s := c.shards[i];
    ValidShard(c, hash, k);
    PutOthers(s.items, k, e, others);
    ShardPutMoves(s, k, e, others + [(k, e)], now, c.staleWindow as real);
  }

  lemma ShardPutMoves(s: Shard, k: CacheKey, e: CacheEntry, all: Items, now: real, sw: real)
    requires PutBack(s.items, k, e) == all && 0 < |all| <= s.cap + 1
    ensures var full := |all| > s.cap;
            var mid := s.(items := if full then all[1..] else all, putCount := s.putCount + 1);
            && Evicted(all, s.cap) == (if full then [all[0].0] else [])
            && ShardPut(s, k, e, now, sw) == if (s.putCount + 1) % 32 == 0 then Purge(mid, now, sw) else mid
  {
    hide Purge, PutBack;
    if |all| > s.cap {
      assert KeySeq(all[..1]) == [all[0].0];
    } else {
      assert all[0..] == all && KeySeq(all[..0]) == [];
    }
  }

  lemma PutOthers(items: Items, k: CacheKey, e: CacheEntry, others: Items)
    requires Distinct(items)
    requires if Lookup(items, k) == None then others == items
             else exists i :: 0 <= i < |items| && items[i].0 == k && others == items[..i] + items[i + 1..]
    ensures PutBack(items, k, e) == others + [(k, e)] && |others| <= |items|
    ensures Lookup(items, k) != None ==> |others| == |items| - 1
  {
    if Lookup(items, k) == None {
      AbsentMoves(items, k, e);
    } else {
      var i :| 0 <= i < |items| && items[i].0 == k && others == items[..i] + items[i + 1..];
      assert items == items[..i] + [(k, items[i].1)] + items[i + 1..];
      hide PutBack, Lookup, Distinct;
      ListMoves(items[..i], k, items[i].1, items[i + 1..], e);
    }
  }

  // ---- capacities ----

  /** The capacity is at least 16 and is dealt out evenly to the 8 shards, the first ones
      getting one more each for the remainder. */
  lemma FreshShards(capacity: nat, group: Option<string>, i: nat)
    requires i < 8
    ensures var c, total := Fresh(capacity, group), if capacity < 16 then 16 else capacity;
            && c.totalCap == total && |c.shards| == 8 && c.staleWindow == 0 && c.group == group
            && c.shards[i] == Shard(total / 8 + if i < total % 8 then 1 else 0, [], 0, 0)
  {
  }

  function Flat(lists: seq<seq<CacheKey>>): seq<CacheKey> {
    if lists == [] then [] else lists[0] + Flat(lists[1..])
  }

  /** What a shard has to give up for a new capacity. */
  function Excess(c: Lru, total: nat, i: nat): (n: nat)
    requires i < |c.shards|
    ensures n <= |c.shards[i].items|
  {
    var cap := total / 8 + if i < total % 8 then 1 else 0;
    if |c.shards[i].items| > cap then |c.shards[i].items| - cap else 0
  }

  function Victims(c: Lru, total: nat, from: nat): (v: seq<seq<CacheKey>>)
    requires from <= |c.shards|
    ensures |v| == |c.shards| - from
    ensures forall j :: 0 <= j < |v| ==> v[j] == KeySeq(c.shards[from + j].items[..Excess(c, total, from + j)])
  {
    seq(|c.shards| - from, j requires 0 <= j < |c.shards| - from =>
      KeySeq(c.shards[from + j].items[..Excess(c, total, from + j)]))
  }

  lemma {:induction false} EvictedFlat(c: Lru, total: nat, i: nat)
    requires i <= |c.shards| == 8
    ensures EvictedFrom(c.shards, total, i) == Flat(Victims(c, total, i))
    decreases |c.shards| - i
  {
    if i < |c.shards| {
      EvictedFlat(c, total, i + 1);
      assert Victims(c, total, i)[1..] == Victims(c, total, i + 1);
    }
  }

  /** A resize takes from every shard the pairs used least recently, as many as it holds too
      many, and reports them shard by shard; all others stay in order. */
  lemma ResizeMoves(c: Lru, hash: CacheKey -> nat, n: nat, i: nat)
    requires Valid(c, hash) && i < 8
    ensures var r, total := LruModel.SetCapacity(c, n), if n < 16 then 16 else n;
            var s := c.shards[i];
            && r.evicted == Flat(Victims(c, total, 0))
            && r.state == c.(totalCap := total, shards := r.state.shards) && |r.state.shards| == 8
            && r.state.shards[i] == s.(cap := total / 8 + if i < total % 8 then 1 else 0,
                                       items := s.items[Excess(c, total, i)..])
  {
    EvictedFlat(c, if n < 16 then 16 else n, 0);
    hide EvictedFrom, Victims, Flat;
  }

  /** A cleared cache keeps its capacities, its stale window, and its counters. */
  lemma ClearMoves(c: Lru, hash: CacheKey -> nat, i: nat)
    requires Valid(c, hash) && i < 8
    ensures var r := LruModel.Clear(c).state;
            && r == c.(shards := r.shards) && |r.shards| == 8 && r.shards[i] == c.shards[i].(items := [])
  {
  }
}
