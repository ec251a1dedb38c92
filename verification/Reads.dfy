/** What readers see, whatever the policy: never anything but the last entry written to
    the slot, and that one as long as it is neither evicted nor expired. */
module Reads {
  import opened Wrappers
  import opened Assoc
  import opened Entries
  import opened Operations
  import opened Replay
  import LruModel
  import TinyModel
  import TinyRuns
  import PartitionModel

  /** The answer a read owes its caller, given what its slot holds. */
  function Answer(op: Op, held: Option<CacheEntry>): Option<CacheEntry> {
    match op
    case Get(_, now) => Unexpired(held, now)
    case Peek(_, now) => Unexpired(held, now)
    case GetStale(_, now, window) =>
      if held.Some? && 0.0 <= now - held.value.expiresAt <= window then held else None
    case _ => None
  }

  predicate IsRead(op: Op) {
    op.Get? || op.GetStale? || op.Peek?
  }

  lemma LruAnswers(c: LruModel.Lru, hash: CacheKey -> nat, op: Op)
    requires LruModel.Valid(c, hash)
    ensures |c.shards| == LruModel.SHARDS
    ensures LruModel.Apply(c, hash, op).found == if IsRead(op) then Answer(op, LruModel.Stored(c, hash, op.key))
            else None
  {
  }

  lemma TinyAnswers(t: TinyModel.Tiny, hash: CacheKey -> nat, op: Op)
    requires TinyModel.Valid(t)
    ensures TinyModel.Apply(t, hash, op).found == if IsRead(op) then Answer(op, TinyModel.Stored(t, op.key)) else None
  {
    hide TinyModel.Stored, TinyModel.GetMiss, TinyModel.PromotionAllowed, TinyModel.HitSegs, TinyModel.Evict,
         TinyModel.Insert;
  }

  lemma PartAnswers(p: PartitionModel.Parts, hash: CacheKey -> nat, op: Op)
    requires PartitionModel.Valid(p, hash)
    ensures PartitionModel.Shaped(p)
    ensures PartitionModel.Apply(p, hash, op).found == if IsRead(op)
            then Answer(op, PartitionModel.Stored(p, hash, op.key)) else None
  {
    hide LruModel.Apply, LruModel.Stored, LruModel.Valid, Answer;
    PartitionModel.ValidShaped(p, hash);
    if Keyed(op) {
      var i := PartitionModel.Resolve(p.names, op.key);
      if i < |p.names| {
        assert PartitionModel.PartValid(p, hash, i);
        LruAnswers(p.caches[i], hash, PartitionModel.Inner(op));
        SameAnswer(op, LruModel.Stored(p.caches[i], hash, PartitionModel.InnerKey(op.key)));
      } else {
        SameAnswer(op, None);
      }
    }
  }

  lemma SameAnswer(op: Op, held: Option<CacheEntry>)
    requires Keyed(op)
    ensures Answer(PartitionModel.Inner(op), held) == Answer(op, held) && Answer(op, None) == None
    ensures IsRead(PartitionModel.Inner(op)) == IsRead(op) && PartitionModel.Inner(op).key
            == PartitionModel.InnerKey(op.key)
    ensures !IsRead(op) ==> Answer(op, held) == None
  {
  }

  /** All three policies answer a read in the same way, by what the slot holds alone. */
  lemma ReadsAnswer(c: Cache, hash: CacheKey -> nat, op: Op)
    requires Valid(c, hash)
    ensures Apply(c, hash, op).found == if IsRead(op) then Answer(op, Stored(c, hash, op.key)) else None
  {
    hide LruModel.Apply, TinyModel.Apply, PartitionModel.Apply, LruModel.Valid, TinyModel.Valid, PartitionModel.Valid,
         Answer,
         LruModel.Stored, TinyModel.Stored, PartitionModel.Stored;
    match c {
      case LruCase(lru) => LruAnswers(lru, hash, op);
      case TinyCase(tiny) => TinyAnswers(tiny, hash, op);
      case PartCase(parts) => PartAnswers(parts, hash, op);
    }
  }

  // ---- peeking ----

  predicate Expired(held: Option<CacheEntry>, now: real) {
    held.Some? && held.value.expiresAt <= now
  }

  lemma LruPeek(c: LruModel.Lru, hash: CacheKey -> nat, k: CacheKey, now: real)
    requires LruModel.Valid(c, hash)
    ensures var c' := LruModel.Peek(c, hash, k, now).state;
            if Expired(LruModel.Stored(c, hash, k), now) then LruModel.Stored(c', hash, k) == None else c' == c
  {
    var i := LruModel.Index(hash, k);
    assert c.shards[i := c.shards[i]] == c.shards;
    LruModel.ValidShard(c, hash, k);
    LookupWithout(c.shards[i].items, k, k);
  }

  lemma TinyPeek(t: TinyModel.Tiny, k: CacheKey, now: real)
    requires TinyModel.Valid(t)
    ensures var t' := TinyModel.Peek(t, k, now).state;
            if Expired(TinyModel.Stored(t, k), now) then TinyModel.Stored(t', k) == None else t' == t
  {
    TinyRuns.DeleteEffect(t, k, k);
  }

  lemma PartPeek(p: PartitionModel.Parts, hash: CacheKey -> nat, k: CacheKey, now: real)
    requires PartitionModel.Valid(p, hash)
    ensures PartitionModel.Shaped(p)
    ensures var p' := PartitionModel.Apply(p, hash, Op.Peek(k, now)).state;
            if Expired(PartitionModel.Stored(p, hash, k), now) then PartitionModel.Stored(p', hash, k) == None
                else p' == p
  {
    hide LruModel.Peek, LruModel.Stored, LruModel.Valid, Expired, PartitionModel.Resolve, PartitionModel.InnerKey;
    PartitionModel.ValidShaped(p, hash);
    var i := PartitionModel.Resolve(p.names, k);
    if i < |p.names| {
      assert PartitionModel.PartValid(p, hash, i);
      LruPeek(p.caches[i], hash, PartitionModel.InnerKey(k), now);
      LruGroup(p.caches[i], hash, Op.Peek(PartitionModel.InnerKey(k), now));
      assert p.caches[i := p.caches[i]] == p.caches;
    } else {
      NotExpired(now);
    }
  }

  lemma NotExpired(now: real)
    ensures !Expired(None, now)
  {
  }

  /** Peeking leaves the cache as it is exactly when the slot holds nothing that has
      expired; whatever the policy, an expired entry is dropped. */
  lemma PeekKeepsIff(c: Cache, hash: CacheKey -> nat, k: CacheKey, now: real)
    requires Valid(c, hash)
    ensures var s := Apply(c, hash, Op.Peek(k, now)).state;
            && (s == c <==> !Expired(Stored(c, hash, k), now))
            && (s != c ==> Stored(s, hash, k) == None)
  {
    hide LruModel.Peek, TinyModel.Peek, PartitionModel.Apply, LruModel.Valid, TinyModel.Valid, PartitionModel.Valid,
         LruModel.Stored, TinyModel.Stored, PartitionModel.Stored;
    match c {
      case LruCase(lru) =>
        LruPeek(lru, hash, k, now);
        LruGroup(lru, hash, Op.Peek(k, now));
      case TinyCase(tiny) => TinyPeek(tiny, k, now);
      case PartCase(parts) => PartPeek(parts, hash, k, now);
    }
  }

  const LONE_KEY := CacheKey(None, "a", "A")
  const LONE_ENTRY := CacheEntry("a", "A", [], "", 1.0, 0, 1.0, 1, 0)

  /** Under each policy: one entry, put at 0 and expiring at 1, is stored until it is
      peeked at 1, and gone afterwards. */
  lemma PeekDropsLoneEntry(hash: CacheKey -> nat, c: Cache)
    requires c in [LruCase(LruModel.Fresh(16, None)), TinyCase(TinyModel.Fresh(16, TinyModel.BASELINE)),
                   PartCase(PartitionModel.Fresh(16, ["default"], [1.0]))]
    ensures Valid(c, hash)
    ensures var s := Apply(c, hash, Op.Put(LONE_KEY, LONE_ENTRY, 0.0)).state;
            && Valid(s, hash) && Stored(s, hash, LONE_KEY) == Some(LONE_ENTRY)
            && Stored(Apply(s, hash, Op.Peek(LONE_KEY, 1.0)).state, hash, LONE_KEY) == None
  {
    hide LruModel.Fresh, TinyModel.Fresh, PartitionModel.Fresh, LruModel.Valid, TinyModel.Valid, PartitionModel.Valid,
         Apply, Stored, Slot;
    FreshOnes(hash);
    ApplyEffect(c, hash, Op.Put(LONE_KEY, LONE_ENTRY, 0.0), LONE_KEY, 0.0);
    PeekKeepsIff(Apply(c, hash, Op.Put(LONE_KEY, LONE_ENTRY, 0.0)).state, hash, LONE_KEY, 1.0);
  }

  lemma FreshOnes(hash: CacheKey -> nat)
    ensures Valid(LruCase(LruModel.Fresh(16, None)), hash)
    ensures Valid(TinyCase(TinyModel.Fresh(16, TinyModel.BASELINE)), hash)
    ensures var c := PartCase(PartitionModel.Fresh(16, ["default"], [1.0])); Valid(c, hash) && !Homeless(c)
  {
    LruModel.FreshValid(16, None, hash);
    TinyRuns.FreshValid(16, TinyModel.BASELINE);
    PartitionModel.FreshValid(16, ["default"], [1.0], hash);
    hide LruModel.Valid, TinyModel.Valid, PartitionModel.Valid;
  }

  /** An unexpired entry is found by the next read of any key that shares its slot. */
  lemma ReadAfterWrite(c: Cache, hash: CacheKey -> nat, k: CacheKey, e: CacheEntry, now: real, q: CacheKey)
    requires Valid(c, hash) && !Homeless(c) && e.expiresAt > now && Slot(c, q) == Slot(c, k)
    ensures var s := Apply(c, hash, Op.Put(k, e, now)).state;
            Valid(s, hash) && Apply(s, hash, Op.Get(q, now)).found == Apply(s, hash, Op.Peek(q, now)).found == Some(e)
  {
    hide Valid, Apply, Stored, Slot;
    ApplyEffect(c, hash, Op.Put(k, e, now), q, now);
    var s := Apply(c, hash, Op.Put(k, e, now)).state;
    ReadsAnswer(s, hash, Op.Get(q, now));
    ReadsAnswer(s, hash, Op.Peek(q, now));
  }

  // ---- runs ----

  ghost function After(c: Cache, hash: CacheKey -> nat, ops: seq<Op>): Cache
    requires Valid(c, hash)
    decreases |ops|
  {
    if ops == [] then c
    else
      ApplyValid(c, hash, ops[0]);
      After(Apply(c, hash, ops[0]).state, hash, ops[1..])
  }

  lemma ApplyValid(c: Cache, hash: CacheKey -> nat, op: Op)
    requires Valid(c, hash)
    ensures Valid(Apply(c, hash, op).state, hash)
    ensures forall q :: Slot(Apply(c, hash, op).state, q) == Slot(c, q)
  {
    hide Valid, Apply, Stored, Slot, KeyEffect;
    forall q
      ensures Slot(Apply(c, hash, op).state, q) == Slot(c, q)
    {
      ApplyEffect(c, hash, op, q, 0.0);
    }
    ApplyEffect(c, hash, op, CacheKey(None, "", ""), 0.0);
  }

  /** What was last written to a slot: the last put, unless it was deleted since. */
  function LastWrite(slot: CacheKey -> CacheKey, ops: seq<Op>, q: CacheKey,
                     before: Option<CacheEntry>): Option<CacheEntry> {
    if ops == [] then before
    else LastWrite(slot, ops[1..], q, Written(slot, ops[0], q, before))
  }

  function Written(slot: CacheKey -> CacheKey, op: Op, q: CacheKey, before: Option<CacheEntry>): Option<CacheEntry> {
    match op
    case Put(k, e, _) => if slot(k) == slot(q) then Some(e) else before
    case Delete(k) => if slot(k) == slot(q) then None else before
    case Clear => None
    case _ => before
  }

  lemma WriteStep(c: Cache, hash: CacheKey -> nat, op: Op, slot: CacheKey -> CacheKey, q: CacheKey,
                  before: Option<CacheEntry>)
    requires Valid(c, hash) && forall k :: slot(k) == Slot(c, k)
    requires Stored(c, hash, q).Some? ==> Stored(c, hash, q) == before
    ensures var s := Apply(c, hash, op).state;
            Stored(s, hash, q).Some? ==> Stored(s, hash, q) == Written(slot, op, q, before)
  {
    hide Valid, Apply, Stored, Slot;
    ApplyEffect(c, hash, op, q, 0.0);
  }

  /** After any run, with or without evictions and expiry, a slot holds nothing or what
      was last written to it. */
  lemma {:induction false} HoldsLastWrite(c: Cache, hash: CacheKey -> nat, ops: seq<Op>, slot: CacheKey -> CacheKey,
                                          q: CacheKey, before: Option<CacheEntry>)
    requires Valid(c, hash) && forall k :: slot(k) == Slot(c, k)
    requires Stored(c, hash, q).Some? ==> Stored(c, hash, q) == before
    ensures var s := After(c, hash, ops);
            && Valid(s, hash)
            && (Stored(s, hash, q).Some? ==> Stored(s, hash, q) == LastWrite(slot, ops, q, before))
    decreases |ops|
  {
    hide Valid, Apply, Stored, Slot, Written;
    if ops != [] {
      ApplyValid(c, hash, ops[0]);
      WriteStep(c, hash, ops[0], slot, q, before);
      HoldsLastWrite(Apply(c, hash, ops[0]).state, hash, ops[1..], slot, q, Written(slot, ops[0], q, before));
    }
  }

  /** Whatever was done to a cache that started empty, a read finds nothing or the last
      entry written to its slot; a plain read never finds an expired one, and a stale
      read only one that expired within the window. */
  lemma ReadsLastWrite(c: Cache, hash: CacheKey -> nat, ops: seq<Op>, slot: CacheKey -> CacheKey, op: Op)
    requires IsFresh(c, hash) && (forall k :: slot(k) == Slot(c, k))
    ensures var s := After(c, hash, ops);
            && Valid(s, hash)
            && var found := Apply(s, hash, op).found;
               found.Some? ==>
                 && IsRead(op) && found == LastWrite(slot, ops, op.key, None)
                 && (if op.GetStale? then 0.0 <= op.now - found.value.expiresAt <= op.window
                    else found.value.expiresAt > op.now)
  {
    hide Valid, Apply, Stored, Slot, LastWrite, After;
    var q := if IsRead(op) then op.key else CacheKey(None, "", "");
    HoldsLastWrite(c, hash, ops, slot, q, None);
    ReadsAnswer(After(c, hash, ops), hash, op);
  }
}
