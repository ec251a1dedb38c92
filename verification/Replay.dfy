/** The write-ahead journal against memory: folding the journalled events rebuilds
    what the live cache still holds, whatever the policy. */
module Replay {
  import opened Wrappers
  import opened Entries
  import opened Operations
  import opened Journals
  import LruModel
  import TinyModel
  import TinyRuns
  import PartitionModel

  type Table = map<CacheKey, CacheEntry>

  function ReplayOne(t: Table, ev: Event): Table {
    match ev
    case PutEvent(_, k, e) => t[k := e]
    case EvictEvent(_, k, _) => t - {k}
    case ClearEvent(_, _) => map[]
  }

  function Replay(t: Table, log: seq<Event>): Table {
    if log == [] then t else ReplayOne(Replay(t, log[..|log| - 1]), log[|log| - 1])
  }

  function Find(t: Table, k: CacheKey): Option<CacheEntry> {
    if k in t then Some(t[k]) else None
  }

  lemma {:induction false} ReplayConcat(t: Table, a: seq<Event>, b: seq<Event>)
    ensures Replay(t, a + b) == Replay(Replay(t, a), b)
  {
    if b == [] {
      assert a + b == a;
    } else {
      ReplayConcat(t, a, b[..|b| - 1]);
      assert (a + b)[..|a + b| - 1] == a + b[..|b| - 1];
    }
  }

  lemma ReplayOneEvent(t: Table, ev: Event)
    ensures Replay(t, [ev]) == ReplayOne(t, ev)
  {
    assert [ev][..0] == [];
  }

  lemma {:induction false} ReplayEvictions(t: Table, keys: seq<CacheKey>, reason: EvictReason, first: nat, k: CacheKey)
    ensures Find(Replay(t, EvictBatch(keys, reason, first)), k) == if k in keys then None else Find(t, k)
  {
    if keys != [] {
      var n := |keys| - 1;
      assert EvictBatch(keys, reason, first)[..n] == EvictBatch(keys[..n], reason, first);
      ReplayEvictions(t, keys[..n], reason, first, k);
      assert keys == keys[..n] + [keys[n]];
    }
  }

  lemma SameTable(a: Table, b: Table)
    requires forall k :: Find(a, k) == Find(b, k)
    ensures a == b
  {
    forall k | k in a
      ensures k in b && a[k] == b[k]
    {
      assert Find(a, k) == Find(b, k);
    }
    forall k | k in b
      ensures k in a
    {
      assert Find(a, k) == Find(b, k);
    }
  }

  // ---- queue order and number order ----

  /** The events of a put by number: first the put, then what it evicted. */
  function PutInOrder(k: CacheKey, e: CacheEntry, evicted: seq<CacheKey>, last: nat): seq<Event> {
    [PutEvent(last + 1, k, Stamped(e, last))] + EvictBatch(evicted, Capacity, last + 2)
  }

  lemma PutFind(t: Table, k: CacheKey, e: CacheEntry, evicted: seq<CacheKey>, last: nat, q: CacheKey)
    ensures Find(Replay(t, PutBatch(k, e, evicted, last)), q)
         == if q == k then Some(Stamped(e, last)) else if q in evicted then None else Find(t, q)
    ensures Find(Replay(t, PutInOrder(k, e, evicted, last)), q)
         == if q in evicted then None else if q == k then Some(Stamped(e, last)) else Find(t, q)
  {
    var ev := PutEvent(last + 1, k, Stamped(e, last));
    var batch := EvictBatch(evicted, Capacity, last + 2);
    ReplayConcat(t, batch, [ev]);
    ReplayOneEvent(Replay(t, batch), ev);
    ReplayEvictions(t, evicted, Capacity, last + 2, q);
    ReplayConcat(t, [ev], batch);
    ReplayOneEvent(t, ev);
    ReplayEvictions(ReplayOne(t, ev), evicted, Capacity, last + 2, q);
  }

  /** A put never evicts its own key, so both orders rebuild the same table. */
  lemma PutEitherOrder(t: Table, k: CacheKey, e: CacheEntry, evicted: seq<CacheKey>, last: nat)
    requires k !in evicted
    ensures Replay(t, PutBatch(k, e, evicted, last)) == Replay(t, PutInOrder(k, e, evicted, last))
  {
    forall q
      ensures Find(Replay(t, PutBatch(k, e, evicted, last)), q) == Find(Replay(t, PutInOrder(k, e, evicted, last)), q)
    {
      PutFind(t, k, e, evicted, last, q);
    }
    SameTable(Replay(t, PutBatch(k, e, evicted, last)), Replay(t, PutInOrder(k, e, evicted, last)));
  }

  /** Strictly increasing numbers, all above `low` and at most `high`. */
  ghost predicate Numbered(log: seq<Event>, low: nat, high: nat) {
    && (forall i :: 0 <= i < |log| ==> low < log[i].seqNo <= high)
    && (forall i, j :: 0 <= i < j < |log| ==> log[i].seqNo < log[j].seqNo)
  }

  /** There is only one way to put events in the order of their numbers. */
  lemma {:induction false} OneOrder(a: seq<Event>, b: seq<Event>, low: nat, high: nat)
    requires Numbered(a, low, high) && Numbered(b, low, high) && multiset(a) == multiset(b)
    ensures a == b
  {
    if a != [] {
      assert b != [] by {
        assert a[0] in multiset(b);
      }
      SmallestFirst(a, b, low, high);
      hide Numbered;
      Tail(a, low, high);
      Tail(b, low, high);
      OneOrder(a[1..], b[1..], low, high);
    } else {
      assert |multiset(b)| == 0;
    }
  }

  lemma Tail(a: seq<Event>, low: nat, high: nat)
    requires a != [] && Numbered(a, low, high)
    ensures Numbered(a[1..], low, high)
    ensures a == [a[0]] + a[1..] && multiset(a[1..]) == multiset(a) - multiset{a[0]}
  {
    assert a == [a[0]] + a[1..];
  }

  lemma SmallestFirst(a: seq<Event>, b: seq<Event>, low: nat, high: nat)
    requires Numbered(a, low, high) && Numbered(b, low, high) && multiset(a) == multiset(b)
    requires a != [] && b != []
    ensures a[0] == b[0]
  {
    assert a[0] in multiset(b);
    assert b[0] in multiset(a);
    var i :| 0 <= i < |b| && b[i] == a[0];
    var j :| 0 <= j < |a| && a[j] == b[0];
  }

  // ---- a cache of any policy ----

  datatype Cache =
    | LruCase(lru: LruModel.Lru)
    | TinyCase(tiny: TinyModel.Tiny)
    | PartCase(parts: PartitionModel.Parts)

  ghost predicate Valid(c: Cache, hash: CacheKey -> nat) {
    match c
    case LruCase(lru) => LruModel.Valid(lru, hash) && lru.group == None
    case TinyCase(tiny) => TinyModel.Valid(tiny)
    case PartCase(parts) => PartitionModel.Valid(parts, hash)
  }

  /** The entry in the slot of `k`, expired or not. */
  function Stored(c: Cache, hash: CacheKey -> nat, k: CacheKey): Option<CacheEntry> {
    match c
    case LruCase(lru) => if |lru.shards| == LruModel.SHARDS then LruModel.Stored(lru, hash, k) else None
    case TinyCase(tiny) => TinyModel.Stored(tiny, k)
    case PartCase(parts) => PartitionModel.Stored(parts, hash, k)
  }

  /** The journal's name for the slot of `k`. */
  function Slot(c: Cache, k: CacheKey): CacheKey {
    match c
    case LruCase(_) => k
    case TinyCase(_) => k
    case PartCase(parts) => PartitionModel.JournalKey(parts.names, k)
  }

  /** Without a single partition there is nowhere to store anything. */
  predicate Homeless(c: Cache) {
    c.PartCase? && c.parts.names == []
  }

  function Lift<S>(o: Outcome<S>, f: S -> Cache): Outcome<Cache> {
    Outcome(f(o.state), o.evicted, o.found)
  }

  ghost function Apply(c: Cache, hash: CacheKey -> nat, op: Op): Outcome<Cache>
    requires Valid(c, hash)
  {
    match c
    case LruCase(lru) =>
      Lift(LruModel.Apply(lru, hash, op), s => LruCase(s))
    case TinyCase(tiny) =>
      Lift(TinyModel.Apply(tiny, hash, op), s => TinyCase(s))
    case PartCase(parts) =>
      PartitionModel.ValidShaped(parts, hash);
      Lift(PartitionModel.Apply(parts, hash, op), s => PartCase(s))
  }

  function SlotPut(c: Cache, op: Op): Option<(CacheKey, CacheEntry)> {
    if op.Put? then Some((Slot(c, op.key), op.entry)) else None
  }

  function SlotTaken(c: Cache, op: Op, evicted: seq<CacheKey>): seq<CacheKey> {
    if op.Delete? then [Slot(c, op.key)] else evicted
  }

  /** Whatever the policy: an operation keeps the cache valid, and changes the slot of
      every key as its put, its evictions and the passing of time account for. */
  lemma ApplyEffect(c: Cache, hash: CacheKey -> nat, op: Op, q: CacheKey, clock: real)
    requires Valid(c, hash)
    ensures var r := Apply(c, hash, op);
            && Valid(r.state, hash) && Slot(r.state, q) == Slot(c, q) && Homeless(r.state) == Homeless(c)
            && if Homeless(c) then r.evicted == [] && Stored(r.state, hash, q) == None
               else if op.Clear? then Stored(r.state, hash, q) == None
               else KeyEffect(Slot(c, q), Stored(c, hash, q), Stored(r.state, hash, q),
                              SlotPut(c, op), SlotTaken(c, op, r.evicted), TimeOf(op, clock))
  {
    hide LruModel.Valid, TinyModel.Valid, PartitionModel.Valid, LruModel.Apply, TinyModel.Apply, PartitionModel.Apply,
         PartitionModel.Stored, TinyModel.Stored, LruModel.Stored, TimeOf, PartitionModel.JournalKey, KeyEffect;
    match c {
      case LruCase(lru) =>
        LruModel.ApplyEffect(lru, hash, op, q, clock);
        LruGroup(lru, hash, op);
      case TinyCase(tiny) =>
        TinyRuns.ApplyEffect(tiny, hash, op, q, clock);
      case PartCase(parts) =>
        PartitionModel.ApplyEffect(parts, hash, op, q, clock);
    }
  }

  lemma LruGroup(lru: LruModel.Lru, hash: CacheKey -> nat, op: Op)
    requires LruModel.Valid(lru, hash)
    ensures |lru.shards| == |LruModel.Apply(lru, hash, op).state.shards| == LruModel.SHARDS
    ensures LruModel.Apply(lru, hash, op).state.group == lru.group
  {
    LruModel.SameGroup(lru, hash, op);
  }

  lemma SlotTwice(c: Cache, hash: CacheKey -> nat, q: CacheKey)
    requires Valid(c, hash)
    ensures Slot(c, Slot(c, q)) == Slot(c, q)
    ensures Stored(c, hash, Slot(c, q)) == Stored(c, hash, q)
  {
    if c.PartCase? {
      PartitionModel.JournalKeyStays(c.parts.names, q);
    }
  }

  // ---- runs under the swappable shell ----

  /** The live cache, the last number drawn, the queue as filled, and the same events
      in the order of their numbers. */
  datatype Live = Live(cache: Cache, lastSeq: nat, queue: seq<Event>, ordered: seq<Event>)

  /** The operation as the inner cache performs it: a put carries its number. */
  function Numbering(op: Op, last: nat): Op {
    if op.Put? then op.(entry := Stamped(op.entry, last)) else op
  }

  /** The events an operation queues, when `last` was the newest number. */
  function Events(c: Cache, op: Op, evicted: seq<CacheKey>, last: nat): seq<Event> {
    match op
    case Put(k, e, _) => if Homeless(c) then [] else PutBatch(Slot(c, k), e, evicted, last)
    case Delete(k) => [EvictEvent(last + 1, Slot(c, k), Explicit)]
    case Clear => [ClearEvent(last + 1, AdminClear)]
    case SetCapacity(_) => EvictBatch(evicted, Resize, last + 1)
    case _ => []
  }

  /** The same events in the order of their numbers. */
  function EventsInOrder(c: Cache, op: Op, evicted: seq<CacheKey>, last: nat): seq<Event> {
    if op.Put? && !Homeless(c) then PutInOrder(Slot(c, op.key), op.entry, evicted, last)
        else Events(c, op, evicted, last)
  }

  /** One operation through the shell, with the journal listening. */
  ghost function Step(s: Live, hash: CacheKey -> nat, op: Op): Live
    requires Valid(s.cache, hash)
  {
    var op' := Numbering(op, s.lastSeq);
    var r := Apply(s.cache, hash, op');
    var events := Events(s.cache, op', r.evicted, s.lastSeq);
    Live(r.state, s.lastSeq + |events|, s.queue + events,
         s.ordered + EventsInOrder(s.cache, op', r.evicted, s.lastSeq))
  }

  /** What one operation queues, when the journal listens: a put one eviction for lack of room
      per key it drops, numbered from the second new number on, and behind them itself, under
      the first, with the entry carrying that number; a deletion and a clear one event each; a
      resize one eviction per key; anything else nothing. */
  lemma StepQueues(s: Live, hash: CacheKey -> nat, op: Op) returns (added: seq<Event>, dropped: seq<CacheKey>)
    requires Valid(s.cache, hash)
    ensures var t := Step(s, hash, op);
            && t.queue == s.queue + added && t.lastSeq == s.lastSeq + |added|
            && (op.Put? && !Homeless(s.cache) ==>
                  var entry := op.entry.(seqNo := s.lastSeq + 1);
                  && dropped == Apply(s.cache, hash, Op.Put(op.key, entry, op.now)).evicted
                  && |added| == |dropped| + 1
                  && added[|dropped|] == PutEvent(s.lastSeq + 1, Slot(s.cache, op.key), entry)
                  && (forall i :: 0 <= i < |dropped| ==>
                        added[i] == EvictEvent(s.lastSeq + 2 + i, dropped[i], Capacity)))
            && (op.SetCapacity? ==>
                  && dropped == Apply(s.cache, hash, op).evicted && |added| == |dropped|
                  && (forall i :: 0 <= i < |dropped| ==>
                        added[i] == EvictEvent(s.lastSeq + 1 + i, dropped[i], Resize)))
            && (op.Delete? ==> added == [EvictEvent(s.lastSeq + 1, Slot(s.cache, op.key), Explicit)])
            && (op.Clear? ==> added == [ClearEvent(s.lastSeq + 1, AdminClear)])
            && (op.Get? || op.GetStale? || op.Peek? || op.SetStaleWindow? || (op.Put? && Homeless(s.cache)) ==>
                  added == [])
  {
    hide Valid, Apply, Slot;
    var op' := Numbering(op, s.lastSeq);
    dropped := Apply(s.cache, hash, op').evicted;
    added := Events(s.cache, op', dropped, s.lastSeq);
  }

  /** The state after one numbered and queued event. */
  function Logged(s: Live, cache: Cache, ev: Event): Live {
    Live(cache, s.lastSeq + 1, s.queue + [ev], s.ordered + [ev])
  }

  /** The table matches the cache up to entries that have expired by `clock`. */
  ghost predicate AgreesAt(c: Cache, hash: CacheKey -> nat, t: Table, clock: real, q: CacheKey) {
    var mem, rec := Stored(c, hash, q), Find(t, Slot(c, q));
    mem == rec || (mem == None && rec.Some? && rec.value.expiresAt <= clock)
  }

  ghost predicate Agrees(c: Cache, hash: CacheKey -> nat, t: Table, clock: real) {
    && (forall q :: AgreesAt(c, hash, t, clock, q))
    && (forall j :: j in t ==> Slot(c, j) == j)
  }

  ghost predicate Good(s: Live, hash: CacheKey -> nat, t0: Table, first: nat, clock: real) {
    && Valid(s.cache, hash)
    && Agrees(s.cache, hash, Replay(t0, s.queue), clock)
    && Replay(t0, s.ordered) == Replay(t0, s.queue)
    && multiset(s.ordered) == multiset(s.queue)
    && first <= s.lastSeq && Numbered(s.ordered, first, s.lastSeq)
  }

  /** Time does not run backwards. */
  ghost predicate Timely(ops: seq<Op>, start: real) {
    ops == [] || (TimeOf(ops[0], start) >= start && Timely(ops[1..], TimeOf(ops[0], start)))
  }

  function ClockAfter(ops: seq<Op>, start: real): real {
    if ops == [] then start else ClockAfter(ops[1..], TimeOf(ops[0], start))
  }

  ghost function Run(s: Live, hash: CacheKey -> nat, ops: seq<Op>): Live
    requires Valid(s.cache, hash)
    decreases |ops|
  {
    if ops == [] then s
    else
      StepValid(s, hash, ops[0]);
      Run(Step(s, hash, ops[0]), hash, ops[1..])
  }

  lemma StepValid(s: Live, hash: CacheKey -> nat, op: Op)
    requires Valid(s.cache, hash)
    ensures Valid(Step(s, hash, op).cache, hash)
  {
    hide Valid, Apply, Stored, Slot, KeyEffect;
    ApplyEffect(s.cache, hash, Numbering(op, s.lastSeq), CacheKey(None, "", ""), 0.0);
  }

  lemma NumberedExtend(log: seq<Event>, more: seq<Event>, low: nat, mid: nat, high: nat)
    requires Numbered(log, low, mid) && Numbered(more, mid, high) && low <= mid <= high
    ensures Numbered(log + more, low, high)
  {
    forall i, j | 0 <= i < j < |log + more|
      ensures (log + more)[i].seqNo < (log + more)[j].seqNo
    {
      if i < |log| <= j {
        assert log[i].seqNo <= mid < more[j - |log|].seqNo;
      }
    }
  }

  /** How the entry recorded under slot `j` changes when the events of `op` are replayed. */
  ghost predicate Recorded(c: Cache, op: Op, evicted: seq<CacheKey>, t: Table, t': Table, j: CacheKey) {
    Find(t', j) == if op.Clear? then None
                   else if op.Put? && Slot(c, op.key) == j then Some(op.entry)
                   else if j in SlotTaken(c, op, evicted) then None
                   else Find(t, j)
  }

  lemma AgreeStep(c: Cache, hash: CacheKey -> nat, op: Op, t: Table, t': Table, clock: real, q: CacheKey)
    requires Valid(c, hash) && !Homeless(c)
    requires AgreesAt(c, hash, t, clock, q) && TimeOf(op, clock) >= clock
    requires Recorded(c, op, Apply(c, hash, op).evicted, t, t', Slot(c, q))
    ensures AgreesAt(Apply(c, hash, op).state, hash, t', TimeOf(op, clock), q)
  {
    ApplyEffect(c, hash, op, q, clock);
    hide Valid, Apply, Stored, Slot;
    AgreeAged(Slot(c, q), SlotPut(c, op), SlotTaken(c, op, Apply(c, hash, op).evicted), op,
              Stored(c, hash, q), Stored(Apply(c, hash, op).state, hash, q),
              Find(t, Slot(c, q)), Find(t', Slot(c, q)), clock);
  }

  /** Memory and record of one slot, before and after an operation. */
  lemma AgreeAged(j: CacheKey, put: Option<(CacheKey, CacheEntry)>, taken: seq<CacheKey>, op: Op,
                  mem: Option<CacheEntry>, mem': Option<CacheEntry>, rec: Option<CacheEntry>, rec': Option<CacheEntry>,
                      clock: real)
    requires TimeOf(op, clock) >= clock
    requires if op.Clear? then mem' == None else KeyEffect(j, mem, mem', put, taken, TimeOf(op, clock))
    requires put.Some? ==> op.Put?
    requires rec' == if op.Clear? then None
                     else if put.Some? && put.value.0 == j then Some(put.value.1)
                     else if j in taken then None
                     else rec
    requires mem == rec || (mem == None && rec.Some? && rec.value.expiresAt <= clock)
    ensures mem' == rec' || (mem' == None && rec'.Some? && rec'.value.expiresAt <= TimeOf(op, clock))
  {
  }

  lemma AgreeAll(c: Cache, hash: CacheKey -> nat, op: Op, t: Table, t': Table, clock: real)
    requires Valid(c, hash) && !Homeless(c)
    requires Agrees(c, hash, t, clock) && TimeOf(op, clock) >= clock
    requires forall j :: Recorded(c, op, Apply(c, hash, op).evicted, t, t', j)
    ensures Agrees(Apply(c, hash, op).state, hash, t', TimeOf(op, clock))
  {
    var c' := Apply(c, hash, op).state;
    hide Valid, Apply, Stored, Slot, AgreesAt, KeyEffect, TimeOf;
    forall q
      ensures AgreesAt(c', hash, t', TimeOf(op, clock), q)
    {
      AgreeStep(c, hash, op, t, t', clock, q);
    }
    forall j | j in t'
      ensures Slot(c', j) == j
    {
      ApplyEffect(c, hash, op, j, clock);
      assert Recorded(c, op, Apply(c, hash, op).evicted, t, t', j);
      if op.Put? && Slot(c, op.key) == j {
        SlotTwice(c, hash, op.key);
      }
    }
  }

  /** What the events of one operation do to a table, in either order. */
  lemma EventsRecord(c: Cache, op: Op, evicted: seq<CacheKey>, last: nat, t: Table, j: CacheKey)
    requires !Homeless(c)
    requires op.Put? ==> op.entry == Stamped(op.entry, last) && Slot(c, op.key) !in evicted
    requires op.Get? || op.GetStale? || op.Peek? || op.SetStaleWindow? ==> evicted == []
    ensures Recorded(c, op, evicted, t, Replay(t, Events(c, op, evicted, last)), j)
  {
    hide Replay, Find, Slot;
    match op {
      case Put(k, e, _) => PutFind(t, Slot(c, k), e, evicted, last, j);
      case Delete(k) =>
        ReplayOneEvent(t, EvictEvent(last + 1, Slot(c, k), Explicit));
        FindWithout(t, Slot(c, k), j);
      case Clear =>
        ReplayOneEvent(t, ClearEvent(last + 1, AdminClear));
        FindNothing(j);
      case SetCapacity(_) => ReplayEvictions(t, evicted, Resize, last + 1, j);
      case _ => ReplayNothing(t);
    }
  }

  lemma FindWithout(t: Table, k: CacheKey, j: CacheKey)
    ensures Find(t - {k}, j) == if j == k then None else Find(t, j)
  {
  }

  lemma FindNothing(j: CacheKey)
    ensures Find(map[], j) == None
  {
  }

  lemma ReplayNothing(t: Table)
    ensures Replay(t, []) == t
  {
  }

  /** An operation evicts neither what it puts nor anything when it only reads. */
  lemma EvictsOthers(c: Cache, hash: CacheKey -> nat, op: Op)
    requires Valid(c, hash) && !Homeless(c)
    ensures op.Put? ==> Slot(c, op.key) !in Apply(c, hash, op).evicted
    ensures op.Get? || op.GetStale? || op.Peek? || op.SetStaleWindow? ==> Apply(c, hash, op).evicted == []
  {
    if op.Put? {
      ApplyEffect(c, hash, op, op.key, 0.0);
    }
    hide LruModel.Valid, TinyModel.Valid, PartitionModel.Valid, PartitionModel.Shaped, Slot, Stored, KeyEffect,
         LruModel.Put,
         TinyModel.Put, LruModel.SetCapacity, TinyModel.SetCapacity, PartitionModel.SetCapacity;
  }

  /** Without partitions nothing is stored, and no event can add anything. */
  lemma HomelessStep(c: Cache, hash: CacheKey -> nat, op: Op, last: nat, t: Table, clock: real)
    requires Valid(c, hash) && Homeless(c) && Agrees(c, hash, t, clock) && TimeOf(op, clock) >= clock
    ensures var r := Apply(c, hash, op);
            Agrees(r.state, hash, Replay(t, Events(c, op, r.evicted, last)), TimeOf(op, clock))
  {
    var r := Apply(c, hash, op);
    var events := Events(c, op, r.evicted, last);
    ApplyEffect(c, hash, op, CacheKey(None, "", ""), 0.0);
    ReplayNothing(t);
    if op.Delete? || op.Clear? {
      ReplayOneEvent(t, events[0]);
    }
    forall q
      ensures AgreesAt(r.state, hash, Replay(t, events), TimeOf(op, clock), q)
    {
      ApplyEffect(c, hash, op, q, clock);
      assert AgreesAt(c, hash, t, clock, q);
    }
  }

  lemma EventNumbers(c: Cache, op: Op, evicted: seq<CacheKey>, last: nat)
    requires op.Put? ==> op.entry == Stamped(op.entry, last)
    ensures var a, b := Events(c, op, evicted, last), EventsInOrder(c, op, evicted, last);
            |a| == |b| && multiset(a) == multiset(b) && Numbered(b, last, last + |b|)
  {
    hide Slot, Homeless, Numbered, PutBatch, PutInOrder, Events, EventsInOrder;
    if op.Put? {
      PutNumbers(Slot(c, op.key), op.entry, evicted, last);
      NoNumbers(last);
      PutEventsAre(c, op, evicted, last);
    } else {
      OtherNumbers(c, op, evicted, last);
    }
  }

  lemma PutEventsAre(c: Cache, op: Op, evicted: seq<CacheKey>, last: nat)
    requires op.Put?
    ensures Events(c, op, evicted, last) == if Homeless(c) then []
            else PutBatch(Slot(c, op.key), op.entry, evicted, last)
    ensures EventsInOrder(c, op, evicted, last) == if Homeless(c) then []
            else PutInOrder(Slot(c, op.key), op.entry, evicted, last)
  {
    hide Slot, Homeless, PutBatch, PutInOrder;
  }

  lemma OtherNumbers(c: Cache, op: Op, evicted: seq<CacheKey>, last: nat)
    requires !op.Put?
    ensures EventsInOrder(c, op, evicted, last) == Events(c, op, evicted, last)
    ensures Numbered(Events(c, op, evicted, last), last, last + |Events(c, op, evicted, last)|)
  {
    hide Slot, Homeless, Numbered;
    BatchNumbers(evicted, last);
    NoNumbers(last);
    match op {
      case Delete(k) => SingleNumbers(EvictEvent(last + 1, Slot(c, k), Explicit), last);
      case Clear => SingleNumbers(ClearEvent(last + 1, AdminClear), last);
      case _ =>
    }
  }

  lemma NoNumbers(last: nat)
    ensures Numbered([], last, last)
  {
  }

  lemma SingleNumbers(ev: Event, last: nat)
    requires ev.seqNo == last + 1
    ensures Numbered([ev], last, last + 1)
  {
  }

  lemma PutNumbers(k: CacheKey, e: CacheEntry, evicted: seq<CacheKey>, last: nat)
    ensures var a, b := PutBatch(k, e, evicted, last), PutInOrder(k, e, evicted, last);
            |a| == |b| && multiset(a) == multiset(b) && Numbered(b, last, last + |b|)
  {
  }

  lemma BatchNumbers(evicted: seq<CacheKey>, last: nat)
    ensures Numbered(EvictBatch(evicted, Resize, last + 1), last, last + |evicted|)
  {
  }

  /** The events of one operation rebuild the same table in either order. */
  lemma EitherOrder(c: Cache, hash: CacheKey -> nat, op: Op, last: nat, t: Table)
    requires Valid(c, hash)
    ensures var evicted := Apply(c, hash, op).evicted;
            Replay(t, EventsInOrder(c, op, evicted, last)) == Replay(t, Events(c, op, evicted, last))
  {
    if op.Put? && !Homeless(c) {
      EvictsOthers(c, hash, op);
      PutEitherOrder(t, Slot(c, op.key), op.entry, Apply(c, hash, op).evicted, last);
    }
  }

  /** One operation through the shell keeps journal and memory in agreement. */
  lemma StepGood(s: Live, hash: CacheKey -> nat, op: Op, t0: Table, first: nat, clock: real)
    requires Good(s, hash, t0, first, clock) && TimeOf(op, clock) >= clock
    ensures Good(Step(s, hash, op), hash, t0, first, TimeOf(op, clock))
  {
    hide Valid, Apply, Agrees, Numbered, Events, EventsInOrder, Replay, Homeless, Numbering, TimeOf;
    NumberingKeeps(op, s.lastSeq, clock);
    var op' := Numbering(op, s.lastSeq);
    var evicted := Apply(s.cache, hash, op').evicted;
    var a, b := Events(s.cache, op', evicted, s.lastSeq), EventsInOrder(s.cache, op', evicted, s.lastSeq);
    StepValid(s, hash, op);
    EventNumbers(s.cache, op', evicted, s.lastSeq);
    NumberedExtend(s.ordered, b, first, s.lastSeq, s.lastSeq + |b|);
    ReplayConcat(t0, s.queue, a);
    ReplayConcat(t0, s.ordered, b);
    EitherOrder(s.cache, hash, op', s.lastSeq, Replay(t0, s.queue));
    StepAgrees(s.cache, hash, op', s.lastSeq, Replay(t0, s.queue), clock);
  }

  lemma NumberingKeeps(op: Op, last: nat, clock: real)
    ensures var op' := Numbering(op, last);
            TimeOf(op', clock) == TimeOf(op, clock) && (op'.Put? ==> op'.entry == Stamped(op'.entry, last))
  {
  }

  lemma StepAgrees(c: Cache, hash: CacheKey -> nat, op: Op, last: nat, t: Table, clock: real)
    requires Valid(c, hash) && Agrees(c, hash, t, clock) && TimeOf(op, clock) >= clock
    requires op.Put? ==> op.entry == Stamped(op.entry, last)
    ensures var r := Apply(c, hash, op);
            Agrees(r.state, hash, Replay(t, Events(c, op, r.evicted, last)), TimeOf(op, clock))
  {
    hide Valid, Apply, Agrees, Events, Replay, Recorded, Homeless;
    if Homeless(c) {
      HomelessStep(c, hash, op, last, t, clock);
    } else {
      var evicted := Apply(c, hash, op).evicted;
      EvictsOthers(c, hash, op);
      forall j
        ensures Recorded(c, op, evicted, t, Replay(t, Events(c, op, evicted, last)), j)
      {
        EventsRecord(c, op, evicted, last, t, j);
      }
      AgreeAll(c, hash, op, t, Replay(t, Events(c, op, evicted, last)), clock);
    }
  }

  lemma {:induction false} RunGood(s: Live, hash: CacheKey -> nat, ops: seq<Op>, t0: Table, first: nat, clock: real)
    requires Good(s, hash, t0, first, clock) && Timely(ops, clock)
    ensures Good(Run(s, hash, ops), hash, t0, first, ClockAfter(ops, clock))
    decreases |ops|
  {
    if ops != [] {
      hide Good, Step;
      StepValid(s, hash, ops[0]);
      StepGood(s, hash, ops[0], t0, first, clock);
      RunGood(Step(s, hash, ops[0]), hash, ops[1..], t0, first, TimeOf(ops[0], clock));
    }
  }

  ghost predicate IsFresh(c: Cache, hash: CacheKey -> nat) {
    Valid(c, hash) && forall q :: Stored(c, hash, q) == None
  }

  /** After any sequential run with time moving forward, folding the journal in queue
      order or in number order gives the same table, and that table holds, for every
      key that has not expired, exactly what the cache holds for it. */
  lemma JournalRebuildsMemory(c: Cache, hash: CacheKey -> nat, ops: seq<Op>, start: real, sorted: seq<Event>,
                              last: nat, now: real, q: CacheKey)
    requires IsFresh(c, hash) && Timely(ops, start)
    requires var s := Run(Live(c, last, [], []), hash, ops);
             && multiset(sorted) == multiset(s.queue)
             && forall i, j :: 0 <= i < j < |sorted| ==> sorted[i].seqNo < sorted[j].seqNo
    requires now >= ClockAfter(ops, start)
    ensures var s := Run(Live(c, last, [], []), hash, ops);
            var t := Replay(map[], s.queue);
            && Replay(map[], sorted) == t
            && Unexpired(Stored(s.cache, hash, q), now) == Unexpired(Find(t, Slot(s.cache, q)), now)
            && (q in t ==> Slot(s.cache, q) == q)
  {
    hide IsFresh, Agrees;
    var init := Live(c, last, [], []);
    FreshGood(c, hash, last, start);
    RunGood(init, hash, ops, map[], last, start);
    var s := Run(init, hash, ops);
    hide Valid, Slot, Stored, Run, Timely, ClockAfter, Numbered, Replay;
    AgreesNow(s.cache, hash, Replay(map[], s.queue), ClockAfter(ops, start), now, q);
    SortedIsOrdered(sorted, s.ordered, last, s.lastSeq);
  }

  lemma FreshGood(c: Cache, hash: CacheKey -> nat, last: nat, start: real)
    requires IsFresh(c, hash)
    ensures Good(Live(c, last, [], []), hash, map[], last, start)
  {
  }

  lemma AgreesNow(c: Cache, hash: CacheKey -> nat, t: Table, clock: real, now: real, q: CacheKey)
    requires Agrees(c, hash, t, clock) && now >= clock
    ensures Unexpired(Stored(c, hash, q), now) == Unexpired(Find(t, Slot(c, q)), now)
    ensures q in t ==> Slot(c, q) == q
  {
    assert AgreesAt(c, hash, t, clock, q);
  }

  lemma SortedIsOrdered(sorted: seq<Event>, ordered: seq<Event>, low: nat, high: nat)
    requires multiset(sorted) == multiset(ordered) && Numbered(ordered, low, high)
    requires forall i, j :: 0 <= i < j < |sorted| ==> sorted[i].seqNo < sorted[j].seqNo
    ensures sorted == ordered
  {
    forall i | 0 <= i < |sorted|
      ensures low < sorted[i].seqNo <= high
    {
      assert sorted[i] in multiset(ordered);
      var j :| 0 <= j < |ordered| && ordered[j] == sorted[i];
    }
    OneOrder(sorted, ordered, low, high);
  }
}
