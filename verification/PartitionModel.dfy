/** The partitioned cache as a value: one LRU per partition, and the rules that send
    a key to its partition and name it in the journal. */
module PartitionModel {
  import opened Wrappers
  import opened Entries
  import opened Operations
  import LruModel
  import Allocation

  type Lru = LruModel.Lru

  /** `names` lists the partitions in name order; `caches` belong to them in turn. */
  datatype Parts = Parts(totalCap: nat, names: seq<string>, weights: seq<real>, caches: seq<Lru>)

  /** The place of a name, or `|names|` when it is unknown. */
  function IndexOf(names: seq<string>, name: string): (i: nat)
    ensures i <= |names|
    ensures i < |names| ==> names[i] == name
    ensures i == |names| <==> name !in names
  {
    if names == [] then 0
    else if names[0] == name then 0
    else 1 + IndexOf(names[1..], name)
  }

  const DEFAULT := "default"

  /** The partition of a key: its own group, else the default one, else the first. */
  function Resolve(names: seq<string>, k: CacheKey): (i: nat)
    ensures i <= |names| && (i == |names| <==> names == [])
  {
    var want := if k.group.Some? then k.group.value else DEFAULT;
    var i := IndexOf(names, want);
    if i < |names| then i
    else
      var j := IndexOf(names, DEFAULT);
      if j < |names| then j else 0
  }

  /** Inside a partition keys carry no group. */
  function InnerKey(k: CacheKey): CacheKey {
    if k.group.None? then k else CacheKey(None, k.domain, k.qtype)
  }

  function JournalKey(names: seq<string>, k: CacheKey): CacheKey {
    var i := Resolve(names, k);
    if i < |names| then k.(group := Some(names[i])) else k
  }

  ghost predicate DistinctNames(names: seq<string>) {
    forall i, j :: 0 <= i < j < |names| ==> names[i] != names[j]
  }

  /** Two keys are written to the journal under one key exactly when they share a slot:
      the same partition and the same key inside it. */
  lemma JournalKeyNamesSlot(names: seq<string>, a: CacheKey, b: CacheKey)
    requires DistinctNames(names) && names != []
    ensures JournalKey(names, a) == JournalKey(names, b) <==>
              Resolve(names, a) == Resolve(names, b) && InnerKey(a) == InnerKey(b)
  {
  }

  /** The journal key leads back to the same slot. */
  lemma JournalKeyStays(names: seq<string>, k: CacheKey)
    requires DistinctNames(names)
    ensures JournalKey(names, JournalKey(names, k)) == JournalKey(names, k)
    ensures Resolve(names, JournalKey(names, k)) == Resolve(names, k)
    ensures InnerKey(JournalKey(names, k)) == InnerKey(k) || names == []
  {
    var i := Resolve(names, k);
    if i < |names| {
      assert names[i] in names;
      var j := IndexOf(names, names[i]);
      assert j == i;
    }
  }

  /** Keys inside a partition have no group, so naming them by partition loses nothing. */
  ghost predicate Bare(c: Lru, hash: CacheKey -> nat)
    requires |c.shards| == LruModel.SHARDS
  {
    forall x :: LruModel.Stored(c, hash, x).Some? ==> x.group == None
  }

  ghost predicate PartValid(p: Parts, hash: CacheKey -> nat, i: nat)
    requires i < |p.caches| == |p.names|
  {
    && LruModel.Valid(p.caches[i], hash)
    && p.caches[i].group == Some(p.names[i])
    && Bare(p.caches[i], hash)
  }

  ghost predicate Valid(p: Parts, hash: CacheKey -> nat) {
    && p.totalCap >= 16 && |p.names| == |p.weights| == |p.caches|
    && DistinctNames(p.names) && Allocation.Normalised(p.weights)
    && (forall i :: 0 <= i < |p.names| ==> PartValid(p, hash, i))
    && (forall i :: 0 <= i < |p.names| ==>
         p.caches[i].totalCap == ClampCapacity(Allocation.Shares(p.weights, p.totalCap)[i]))
  }

  function Fresh(capacity: nat, names: seq<string>, raw: seq<real>): Parts
    requires |names| == |raw|
  {
    Allocation.NormaliseCorrect(raw);
    var cap, ws := ClampCapacity(capacity), Allocation.Normalise(raw);
    var shares := Allocation.Shares(ws, cap);
    Parts(cap, names, ws,
          seq(|names|, i requires 0 <= i < |shares| && 0 <= i < |names| => LruModel.Fresh(shares[i], Some(names[i]))))
  }

  lemma FreshValid(capacity: nat, names: seq<string>, raw: seq<real>, hash: CacheKey -> nat)
    requires |names| == |raw| && DistinctNames(names)
    ensures Valid(Fresh(capacity, names, raw), hash)
    ensures forall q :: Stored(Fresh(capacity, names, raw), hash, q) == None
  {
    Allocation.NormaliseCorrect(raw);
    var p := Fresh(capacity, names, raw);
    forall i | 0 <= i < |names|
      ensures PartValid(p, hash, i)
      ensures p.caches[i].totalCap == ClampCapacity(Allocation.Shares(p.weights, p.totalCap)[i])
    {
      hide LruModel.Valid, Allocation.Shares, Allocation.Normalised, LruModel.Stored;
      var share := Allocation.Shares(p.weights, p.totalCap)[i];
      LruModel.FreshValid(share, Some(names[i]), hash);
      assert p.caches[i] == LruModel.Fresh(share, Some(names[i]));
    }
    forall q
      ensures Stored(p, hash, q) == None
    {
      var i := Resolve(p.names, q);
      if i < |p.names| {
        LruModel.FreshValid(Allocation.Shares(p.weights, p.totalCap)[i], Some(names[i]), hash);
      }
    }
  }

  function Part(p: Parts, k: CacheKey): (i: nat)
    ensures i <= |p.names|
  {
    Resolve(p.names, k)
  }

  /** The entry in the slot of `k`, expired or not. */
  function Stored(p: Parts, hash: CacheKey -> nat, k: CacheKey): Option<CacheEntry> {
    var i := Resolve(p.names, k);
    if i < |p.caches| && |p.caches[i].shards| == LruModel.SHARDS then LruModel.Stored(p.caches[i], hash, InnerKey(k))
        else None
  }

  /** Keys of partition `i` as the journal names them. */
  function Named(name: string, keys: seq<CacheKey>): (r: seq<CacheKey>)
    ensures |r| == |keys| && forall i :: 0 <= i < |r| ==> r[i] == keys[i].(group := Some(name))
  {
    seq(|keys|, i requires 0 <= i < |keys| => keys[i].(group := Some(name)))
  }

  ghost predicate Shaped(p: Parts) {
    && |p.names| == |p.weights| == |p.caches|
    && Allocation.Normalised(p.weights)
    && forall i :: 0 <= i < |p.caches| ==> |p.caches[i].shards| == LruModel.SHARDS
  }

  /** An operation on one key goes to the partition of the key, or nowhere. */
  function OnPart(p: Parts, hash: CacheKey -> nat, op: Op): Outcome<Parts>
    requires Shaped(p) && Keyed(op)
  {
    var i := Resolve(p.names, op.key);
    if i == |p.names| then Outcome(p, [], None)
    else
      var r := LruModel.Apply(p.caches[i], hash, Inner(op));
      Outcome(p.(caches := p.caches[i := r.state]), Named(p.names[i], r.evicted), r.found)
  }

  function Inner(op: Op): Op {
    match op
    case Put(k, e, now) => Op.Put(InnerKey(k), e, now)
    case Get(k, now) => Op.Get(InnerKey(k), now)
    case GetStale(k, now, w) => Op.GetStale(InnerKey(k), now, w)
    case Peek(k, now) => Op.Peek(InnerKey(k), now)
    case Delete(k) => Op.Delete(InnerKey(k))
    case Clear => Op.Clear
    case SetCapacity(n) => Op.SetCapacity(n)
    case SetStaleWindow(v) => Op.SetStaleWindow(v)
  }

  function Clear(p: Parts): Outcome<Parts> {
    Outcome(p.(caches := seq(|p.caches|, i requires 0 <= i < |p.caches| => LruModel.Clear(p.caches[i]).state)), [],
        None)
  }

  /** The partitions once the first `i` have been given their share. */
  function ResizedTo(caches: seq<Lru>, shares: seq<nat>, i: nat): (r: seq<Lru>)
    requires |shares| == |caches|
    ensures |r| == |caches|
  {
    seq(|caches|, j requires 0 <= j < |caches| =>
      if j < i then LruModel.SetCapacity(caches[j], shares[j]).state else caches[j])
  }

  /** What resizing the first `i` partitions evicts. */
  function EvictedTo(names: seq<string>, caches: seq<Lru>, shares: seq<nat>, i: nat): seq<CacheKey>
    requires |shares| == |caches| == |names| && i <= |caches|
  {
    if i == 0 then []
    else
      EvictedTo(names, caches, shares, i - 1)
      + Named(names[i - 1], LruModel.SetCapacity(caches[i - 1], shares[i - 1]).evicted)
  }

  function SetCapacity(p: Parts, n: nat): Outcome<Parts>
    requires Shaped(p)
  {
    var cap := ClampCapacity(n);
    var shares := Allocation.Shares(p.weights, cap);
    Outcome(p.(totalCap := cap, caches := ResizedTo(p.caches, shares, |p.caches|)),
            EvictedTo(p.names, p.caches, shares, |p.caches|), None)
  }

  /** The partitions once the first `i` have been given the window. */
  function WindowTo(caches: seq<Lru>, v: nat, i: nat): (r: seq<Lru>)
    ensures |r| == |caches|
  {
    seq(|caches|, j requires 0 <= j < |caches| => if j < i then LruModel.SetStaleWindow(caches[j], v).state
        else caches[j])
  }

  function SetStaleWindow(p: Parts, v: nat): Outcome<Parts> {
    Outcome(p.(caches := WindowTo(p.caches, v, |p.caches|)), [], None)
  }

  function Apply(p: Parts, hash: CacheKey -> nat, op: Op): Outcome<Parts>
    requires Shaped(p)
  {
    match op
    case Clear => Clear(p)
    case SetCapacity(n) => SetCapacity(p, n)
    case SetStaleWindow(v) => SetStaleWindow(p, v)
    case _ => OnPart(p, hash, op)
  }

  lemma ValidShaped(p: Parts, hash: CacheKey -> nat)
    requires Valid(p, hash)
    ensures Shaped(p)
  {
    forall i | 0 <= i < |p.caches|
      ensures |p.caches[i].shards| == LruModel.SHARDS
    {
      assert PartValid(p, hash, i);
    }
  }

  // ---- what the operations do, slot by slot ----

  /** A key names its slot in the journal as its partition names the inner key. */
  lemma NamedMember(names: seq<string>, keys: seq<CacheKey>, i: nat, q: CacheKey)
    requires DistinctNames(names) && i < |names| && forall x :: x in keys ==> x.group == None
    ensures JournalKey(names, q) in Named(names[i], keys) <==> Resolve(names, q) == i && InnerKey(q) in keys
  {
    var j := Resolve(names, q);
    var named := Named(names[i], keys);
    if j == i && InnerKey(q) in keys {
      var m :| 0 <= m < |keys| && keys[m] == InnerKey(q);
      assert named[m] == JournalKey(names, q);
    }
    if JournalKey(names, q) in named {
      var m :| 0 <= m < |named| && named[m] == JournalKey(names, q);
      assert keys[m] in keys;
    }
  }

  /** One partition changes; the others, and all names, stay. */
  lemma ReplacedPart(p: Parts, hash: CacheKey -> nat, i: nat, c: Lru)
    requires Valid(p, hash) && i < |p.caches|
    requires LruModel.Valid(c, hash) && c.group == p.caches[i].group && c.totalCap == p.caches[i].totalCap
             && Bare(c, hash)
    ensures Valid(p.(caches := p.caches[i := c]), hash)
  {
    hide LruModel.Valid, Bare, Allocation.Normalised, Allocation.Shares;
    assert PartValid(p, hash, i);
    var p' := p.(caches := p.caches[i := c]);
    forall j | 0 <= j < |p'.names|
      ensures PartValid(p', hash, j)
    {
      assert PartValid(p, hash, j);
    }
  }

  /** An operation on an inner key keeps inner keys bare, and evicts only such keys. */
  lemma InnerEffect(c: Lru, hash: CacheKey -> nat, op: Op)
    requires LruModel.Valid(c, hash) && Bare(c, hash)
    requires Keyed(op) ==> op.key.group == None
    ensures var r := LruModel.Apply(c, hash, op);
            && LruModel.Valid(r.state, hash) && Bare(r.state, hash) && r.state.group == c.group
            && (!op.SetCapacity? ==> r.state.totalCap == c.totalCap)
            && (forall x :: x in r.evicted ==> x.group == None)
  {
    LruModel.ApplyValid(c, hash, op);
    var r := LruModel.Apply(c, hash, op);
    forall x | LruModel.Stored(r.state, hash, x).Some?
      ensures x.group == None
    {
      hide LruModel.Valid, LruModel.Stored, LruModel.Apply;
      LruModel.ApplyEffect(c, hash, op, x, 0.0);
    }
    forall x | x in r.evicted
      ensures x.group == None
    {
      LruModel.EvictedStored(c, hash, op, x);
    }
    LruModel.SameGroup(c, hash, op);
  }

  ghost predicate Effect(names: seq<string>, q: CacheKey, before: Option<CacheEntry>, after: Option<CacheEntry>, op: Op,
                         evicted: seq<CacheKey>, clock: real)
  {
    KeyEffect(JournalKey(names, q), before, after, SlotPut(names, op), SlotTaken(names, op, evicted), TimeOf(op, clock))
  }

  function SlotPut(names: seq<string>, op: Op): Option<(CacheKey, CacheEntry)> {
    if op.Put? then Some((JournalKey(names, op.key), op.entry)) else None
  }

  function SlotTaken(names: seq<string>, op: Op, evicted: seq<CacheKey>): seq<CacheKey> {
    if op.Delete? then [JournalKey(names, op.key)] else evicted
  }

  lemma OnPartEffect(p: Parts, hash: CacheKey -> nat, op: Op, q: CacheKey, clock: real)
    requires Valid(p, hash) && Shaped(p) && Keyed(op) && p.names != []
    ensures var r := OnPart(p, hash, op);
            Valid(r.state, hash) && Effect(p.names, q, Stored(p, hash, q), Stored(r.state, hash, q), op, r.evicted,
                clock)
  {
    var i := Resolve(p.names, op.key);
    var inner := LruModel.Apply(p.caches[i], hash, Inner(op));
    assert PartValid(p, hash, i);
    InnerEffect(p.caches[i], hash, Inner(op));
    ReplacedPart(p, hash, i, inner.state);
    LruModel.ApplyEffect(p.caches[i], hash, Inner(op), InnerKey(q), clock);
    NamedMember(p.names, inner.evicted, i, q);
    JournalKeyNamesSlot(p.names, q, op.key);
    hide Valid, LruModel.Valid, LruModel.Stored, LruModel.Apply, Resolve, JournalKey, InnerKey, DistinctNames, Bare,
         Allocation.Normalised, Named;
    InnerEffectMoves(p, hash, op, q, i, inner.state);
  }

  /** The entry of `q` before and after, when partition `i` has changed to `c`. */
  lemma InnerEffectMoves(p: Parts, hash: CacheKey -> nat, op: Op, q: CacheKey, i: nat, c: Lru)
    requires Shaped(p) && i < |p.names| && |c.shards| == LruModel.SHARDS
    ensures var p' := p.(caches := p.caches[i := c]);
            if Resolve(p.names, q) == i then
              && Stored(p, hash, q) == LruModel.Stored(p.caches[i], hash, InnerKey(q))
              && Stored(p', hash, q) == LruModel.Stored(c, hash, InnerKey(q))
            else Stored(p', hash, q) == Stored(p, hash, q)
  {
  }

  lemma ClearEffect(p: Parts, hash: CacheKey -> nat, q: CacheKey)
    requires Valid(p, hash)
    ensures Valid(Clear(p).state, hash) && Stored(Clear(p).state, hash, q) == None
  {
    var p' := Clear(p).state;
    forall i | 0 <= i < |p.caches|
      ensures PartValid(p', hash, i) && p'.caches[i].totalCap == p.caches[i].totalCap
      ensures LruModel.Stored(p'.caches[i], hash, InnerKey(q)) == None
    {
      assert PartValid(p, hash, i);
      hide Valid, LruModel.Stored, Allocation.Normalised;
      forall x
        ensures LruModel.Stored(LruModel.Clear(p.caches[i]).state, hash, x) == None
      {
        LruModel.ClearEffect(p.caches[i], hash, x);
      }
      hide LruModel.Valid;
      LruModel.ClearEffect(p.caches[i], hash, InnerKey(q));
    }
    hide Bare, LruModel.Valid, LruModel.Stored, Allocation.Normalised;
  }

  lemma {:induction false} EvictedToMember(p: Parts, hash: CacheKey -> nat, shares: seq<nat>, i: nat, q: CacheKey)
    requires |shares| == |p.caches| == |p.names| && i <= |p.caches| && DistinctNames(p.names)
    requires forall j :: 0 <= j < |p.caches| ==>
               forall x :: x in LruModel.SetCapacity(p.caches[j], shares[j]).evicted ==> x.group == None
    ensures JournalKey(p.names, q) in EvictedTo(p.names, p.caches, shares, i) <==>
              (var j := Resolve(p.names, q);
               j < i && InnerKey(q) in LruModel.SetCapacity(p.caches[j], shares[j]).evicted)
  {
    if i > 0 {
      EvictedToMember(p, hash, shares, i - 1, q);
      hide JournalKey, Resolve, InnerKey, LruModel.SetCapacity, Named, DistinctNames;
      NamedMember(p.names, LruModel.SetCapacity(p.caches[i - 1], shares[i - 1]).evicted, i - 1, q);
    }
  }

  lemma ResizedPart(p: Parts, hash: CacheKey -> nat, shares: seq<nat>, i: nat)
    requires Valid(p, hash) && |shares| == |p.caches| && i < |p.caches|
    ensures var r := LruModel.SetCapacity(p.caches[i], shares[i]);
            && LruModel.Valid(r.state, hash) && Bare(r.state, hash) && r.state.group == Some(p.names[i])
            && r.state.totalCap == ClampCapacity(shares[i])
            && (forall x :: x in r.evicted ==> x.group == None)
  {
    hide LruModel.Valid, Bare, LruModel.Stored, Allocation.Normalised;
    assert PartValid(p, hash, i);
    InnerEffect(p.caches[i], hash, Op.SetCapacity(shares[i]));
  }

  lemma SetCapacityValid(p: Parts, hash: CacheKey -> nat, n: nat)
    requires Valid(p, hash) && Shaped(p)
    ensures Valid(SetCapacity(p, n).state, hash)
  {
    var cap := ClampCapacity(n);
    var shares := Allocation.Shares(p.weights, cap);
    var p' := SetCapacity(p, n).state;
    forall i | 0 <= i < |p.caches|
      ensures PartValid(p', hash, i) && p'.caches[i].totalCap == ClampCapacity(shares[i])
    {
      hide Valid, LruModel.Valid, Bare, LruModel.SetCapacity;
      ResizedPart(p, hash, shares, i);
    }
  }

  lemma SetCapacityEffect(p: Parts, hash: CacheKey -> nat, n: nat, q: CacheKey)
    requires Valid(p, hash) && Shaped(p) && p.names != []
    ensures var r := SetCapacity(p, n);
            Stored(r.state, hash, q) == if JournalKey(p.names, q) in r.evicted then None else Stored(p, hash, q)
  {
    var shares := Allocation.Shares(p.weights, ClampCapacity(n));
    var i := Resolve(p.names, q);
    assert PartValid(p, hash, i);
    LruModel.SetCapacityEffect(p.caches[i], hash, shares[i], InnerKey(q));
    forall j | 0 <= j < |p.caches|
      ensures forall x :: x in LruModel.SetCapacity(p.caches[j], shares[j]).evicted ==> x.group == None
    {
      hide Valid, LruModel.SetCapacity;
      ResizedPart(p, hash, shares, j);
    }
    hide Valid, LruModel.Stored, LruModel.SetCapacity, Bare, LruModel.Valid, Allocation.Normalised, JournalKey,
         InnerKey, Resolve;
    EvictedToMember(p, hash, shares, |p.caches|, q);
  }

  /** A new stale window changes no slot. */
  lemma WindowEffect(p: Parts, hash: CacheKey -> nat, v: nat, q: CacheKey)
    requires Valid(p, hash) && Shaped(p)
    ensures Valid(SetStaleWindow(p, v).state, hash)
    ensures Stored(SetStaleWindow(p, v).state, hash, q) == Stored(p, hash, q)
  {
    var p' := SetStaleWindow(p, v).state;
    forall i | 0 <= i < |p.caches|
      ensures PartValid(p', hash, i) && p'.caches[i].totalCap == p.caches[i].totalCap
    {
      hide LruModel.Valid, Bare, Allocation.Normalised, Allocation.Shares;
      assert PartValid(p, hash, i);
      hide Valid;
      WindowPart(p.caches[i], hash, v);
    }
  }

  lemma WindowPart(c: Lru, hash: CacheKey -> nat, v: nat)
    requires LruModel.Valid(c, hash) && Bare(c, hash)
    ensures var c' := LruModel.SetStaleWindow(c, v).state;
            LruModel.Valid(c', hash) && Bare(c', hash)
  {
    InnerEffect(c, hash, Op.SetStaleWindow(v));
  }

  lemma WindowNone(caches: seq<Lru>, v: nat)
    ensures WindowTo(caches, v, 0) == caches
  {
  }

  lemma WindowNext(caches: seq<Lru>, v: nat, i: nat)
    requires i < |caches|
    ensures WindowTo(caches, v, i)[i] == caches[i]
    ensures WindowTo(caches, v, i + 1) == WindowTo(caches, v, i)[i := LruModel.SetStaleWindow(caches[i], v).state]
  {
  }

  /** What an operation owes the slot of `q`. */
  ghost predicate Accounted(p: Parts, hash: CacheKey -> nat, op: Op, q: CacheKey, clock: real)
    requires Shaped(p)
  {
    var r := Apply(p, hash, op);
    && Valid(r.state, hash) && r.state.names == p.names
    && if p.names == [] then r.evicted == [] && Stored(r.state, hash, q) == None
       else if op.Clear? then Stored(r.state, hash, q) == None
       else Effect(p.names, q, Stored(p, hash, q), Stored(r.state, hash, q), op, r.evicted, clock)
  }

  lemma ClearAccounted(p: Parts, hash: CacheKey -> nat, q: CacheKey, clock: real)
    requires Valid(p, hash) && Shaped(p)
    ensures Accounted(p, hash, Op.Clear, q, clock)
  {
    hide Valid, Effect, Resolve;
    ClearEffect(p, hash, q);
  }

  lemma ResizeAccounted(p: Parts, hash: CacheKey -> nat, n: nat, q: CacheKey, clock: real)
    requires Valid(p, hash) && Shaped(p)
    ensures Accounted(p, hash, Op.SetCapacity(n), q, clock)
  {
    hide Valid, Resolve, JournalKey, Allocation.Shares, Allocation.Normalised, LruModel.SetCapacity;
    SetCapacityValid(p, hash, n);
    if p.names != [] {
      SetCapacityEffect(p, hash, n, q);
    }
  }

  lemma WindowAccounted(p: Parts, hash: CacheKey -> nat, v: nat, q: CacheKey, clock: real)
    requires Valid(p, hash) && Shaped(p)
    ensures Accounted(p, hash, Op.SetStaleWindow(v), q, clock)
  {
    hide Valid, Resolve, JournalKey, WindowTo;
    WindowEffect(p, hash, v, q);
    NothingStored(p, hash, q);
  }

  lemma NothingStored(p: Parts, hash: CacheKey -> nat, q: CacheKey)
    requires Shaped(p)
    ensures p.names == [] ==> Stored(p, hash, q) == None
  {
  }

  lemma KeyedAccounted(p: Parts, hash: CacheKey -> nat, op: Op, q: CacheKey, clock: real)
    requires Valid(p, hash) && Shaped(p) && Keyed(op)
    ensures Accounted(p, hash, op, q, clock)
  {
    hide Valid, Effect, LruModel.Apply, Stored;
    NothingStored(p, hash, q);
    if p.names != [] {
      OnPartEffect(p, hash, op, q, clock);
    }
  }

  /** Every operation keeps the partitions valid and changes every slot as accounted for. */
  lemma ApplyEffect(p: Parts, hash: CacheKey -> nat, op: Op, q: CacheKey, clock: real)
    requires Valid(p, hash)
    ensures Shaped(p) && Valid(Apply(p, hash, op).state, hash) && Apply(p, hash, op).state.names == p.names
    ensures var r := Apply(p, hash, op);
            if p.names == [] then r.evicted == [] && Stored(r.state, hash, q) == None
            else if op.Clear? then Stored(r.state, hash, q) == None
            else Effect(p.names, q, Stored(p, hash, q), Stored(r.state, hash, q), op, r.evicted, clock)
  {
    hide Valid, Shaped, Apply, Stored, Effect;
    ValidShaped(p, hash);
    match op {
      case Clear => ClearAccounted(p, hash, q, clock);
      case SetCapacity(n) => ResizeAccounted(p, hash, n, q, clock);
      case SetStaleWindow(v) => WindowAccounted(p, hash, v, q, clock);
      case _ => KeyedAccounted(p, hash, op, q, clock);
    }
  }

  lemma OnPartUnfold(p: Parts, hash: CacheKey -> nat, op: Op)
    requires Shaped(p) && Keyed(op)
    ensures var i := Resolve(p.names, op.key);
            if i == |p.names| then OnPart(p, hash, op) == Outcome(p, [], None)
            else
              && |p.caches[i].shards| == LruModel.SHARDS
              && var r := LruModel.Apply(p.caches[i], hash, Inner(op));
                 OnPart(p, hash, op) == Outcome(p.(caches := p.caches[i := r.state]), Named(p.names[i], r.evicted),
                     r.found)
  {
  }

  /** Without partitions a put changes nothing, whatever its entry. */
  lemma NowhereToPut(p: Parts, hash: CacheKey -> nat, k: CacheKey, e: CacheEntry, f: CacheEntry, now: real)
    requires Shaped(p)
    ensures p.names == [] ==>
              OnPart(p, hash, Op.Put(k, e, now)) == OnPart(p, hash, Op.Put(k, f, now)) == Outcome(p, [], None)
  {
  }

  lemma InnerOp(op: Op)
    ensures op.Put? ==> Inner(op) == Op.Put(InnerKey(op.key), op.entry, op.now)
    ensures op.Get? ==> Inner(op) == Op.Get(InnerKey(op.key), op.now)
    ensures op.GetStale? ==> Inner(op) == Op.GetStale(InnerKey(op.key), op.now, op.window)
    ensures op.Peek? ==> Inner(op) == Op.Peek(InnerKey(op.key), op.now)
    ensures op.Delete? ==> Inner(op) == Op.Delete(InnerKey(op.key))
  {
  }

  /** The journal's name for a slot is the inner key with the partition's name. */
  lemma InnerNamed(names: seq<string>, k: CacheKey)
    ensures var i := Resolve(names, k);
            i < |names| ==> InnerKey(k).(group := Some(names[i])) == JournalKey(names, k)
  {
  }

  lemma ResizedNone(p: Parts, shares: seq<nat>)
    requires |shares| == |p.caches| == |p.names|
    ensures ResizedTo(p.caches, shares, 0) == p.caches && EvictedTo(p.names, p.caches, shares, 0) == []
  {
  }

  lemma ResizedNext(p: Parts, shares: seq<nat>, i: nat)
    requires |shares| == |p.caches| == |p.names| && i < |p.caches|
    ensures var o := LruModel.SetCapacity(p.caches[i], shares[i]);
            && ResizedTo(p.caches, shares, i)[i] == p.caches[i]
            && ResizedTo(p.caches, shares, i + 1) == ResizedTo(p.caches, shares, i)[i := o.state]
            && EvictedTo(p.names, p.caches, shares, i + 1) == EvictedTo(p.names, p.caches, shares, i)
               + Named(p.names[i], o.evicted)
  {
  }

  lemma OnPartValid(p: Parts, hash: CacheKey -> nat, op: Op)
    requires Valid(p, hash) && Shaped(p) && Keyed(op)
    ensures Valid(OnPart(p, hash, op).state, hash) && Shaped(OnPart(p, hash, op).state)
  {
    hide Valid, Resolve, LruModel.Apply;
    if p.names != [] {
      OnPartEffect(p, hash, op, op.key, 0.0);
    }
    ValidShaped(OnPart(p, hash, op).state, hash);
  }

  // ---- capacity ----

  function Size(caches: seq<Lru>): nat {
    if caches == [] then 0 else Size(caches[..|caches| - 1]) + LruModel.Size(caches[|caches| - 1].shards)
  }

  lemma {:induction false} SizeBound(caches: seq<Lru>, shares: seq<nat>, hash: CacheKey -> nat)
    requires |shares| == |caches|
    requires forall i :: 0 <= i < |caches| ==>
               LruModel.Valid(caches[i], hash) && caches[i].totalCap == ClampCapacity(shares[i])
    ensures Size(caches) <= Allocation.Sum(Allocation.Raised(shares))
  {
    if caches != [] {
      var n := |caches| - 1;
      hide LruModel.Valid;
      SizeBound(caches[..n], shares[..n], hash);
      LruModel.CapacityBound(caches[n], hash);
      assert Allocation.Raised(shares)[..n] == Allocation.Raised(shares[..n]);
    }
  }

  /** With room for 16 entries per partition, the partitions together never hold more
      than the configured capacity. */
  lemma OccupancyBound(p: Parts, hash: CacheKey -> nat)
    requires Valid(p, hash) && p.totalCap >= 16 * |p.names|
    ensures Size(p.caches) <= p.totalCap
  {
    var shares := Allocation.Shares(p.weights, p.totalCap);
    forall i | 0 <= i < |p.caches|
      ensures LruModel.Valid(p.caches[i], hash)
    {
      assert PartValid(p, hash, i);
    }
    hide LruModel.Valid, Allocation.Normalised, Allocation.Sum, Allocation.Shares;
    SizeBound(p.caches, shares, hash);
    Allocation.WithinTotalIff(p.weights, p.totalCap);
  }
}
