/** Which partition an operation goes to, and what it does there and to the others. */
module PartitionMoves {
  import opened Wrappers
  import opened Entries
  import opened Operations
  import opened PartitionModel
  import LruModel
  import LruMoves
  import Allocation

  /** A key belongs to the partition of its own group if there is one, else to the one called
      default, and else to the first by name. Inside it has no group; in the journal it has the
      partition's name as its group. */
  lemma Resolved(names: seq<string>, k: CacheKey)
    requires names != [] && DistinctNames(names)
    ensures var i := Resolve(names, k);
            && i < |names|
            && names[i] == (if k.group.Some? && k.group.value in names then k.group.value
                            else if "default" in names then "default" else names[0])
            && InnerKey(k) == CacheKey(None, k.domain, k.qtype)
            && JournalKey(names, k) == CacheKey(Some(names[i]), k.domain, k.qtype)
  {
  }

  /** An operation on one key is the same operation of the LRU in the key's partition, with the
      key stripped of its group; no other partition changes, and evicted keys are reported under
      the partition's name. */
  lemma KeyedMoves(p: Parts, hash: CacheKey -> nat, op: Op, j: nat)
    requires PartitionModel.Valid(p, hash) && Keyed(op) && p.names != [] && j < |p.names|
    ensures Shaped(p) && Resolve(p.names, op.key) < |p.names|
    ensures var i := Resolve(p.names, op.key);
            var inner := LruModel.Apply(p.caches[i], hash, op.(key := CacheKey(None, op.key.domain, op.key.qtype)));
            var r := PartitionModel.Apply(p, hash, op);
            && r.found == inner.found && r.state == p.(caches := r.state.caches) && |r.state.caches| == |p.caches|
            && r.state.caches[j] == (if j == i then inner.state else p.caches[j])
            && |r.evicted| == |inner.evicted|
            && forall x :: 0 <= x < |r.evicted| ==> r.evicted[x] == inner.evicted[x].(group := Some(p.names[i]))
  {
    ValidShaped(p, hash);
    Resolved(p.names, op.key);
    InnerSame(op);
    hide LruModel.Apply, Resolve, Inner, PartitionModel.Valid;
  }

  lemma InnerSame(op: Op)
    requires Keyed(op)
    ensures Inner(op) == op.(key := CacheKey(None, op.key.domain, op.key.qtype))
  {
  }

  /** Fresh partitions are fresh LRU caches of their names, with the shares of the weights. */
  lemma FreshMoves(capacity: nat, names: seq<string>, raw: seq<real>, i: nat)
    requires |names| == |raw| && i < |names|
    ensures Allocation.Normalised(Allocation.Normalise(raw))
    ensures var p, total := Fresh(capacity, names, raw), if capacity < 16 then 16 else capacity;
            && p.totalCap == total && p.names == names && p.weights == Allocation.Normalise(raw)
            && |p.caches| == |names|
            && p.caches[i] == LruModel.Fresh(Allocation.Shares(Allocation.Normalise(raw), total)[i], Some(names[i]))
  {
    Allocation.NormaliseCorrect(raw);
    hide Allocation.Shares, Allocation.Normalise, Allocation.Normalised, LruModel.Fresh;
  }

  /** The keys that the partitions up to the `i`-th give up, each list under its name. */
  function Lists(p: Parts, shares: seq<nat>, i: nat): (r: seq<seq<CacheKey>>)
    requires |shares| == |p.caches| == |p.names| && i <= |p.caches|
    ensures |r| == i
    ensures forall j :: 0 <= j < i ==>
              var keys := LruModel.SetCapacity(p.caches[j], shares[j]).evicted;
              && |r[j]| == |keys|
              && forall x :: 0 <= x < |keys| ==> r[j][x] == keys[x].(group := Some(p.names[j]))
  {
    seq(i, j requires 0 <= j < i =>
      var keys := LruModel.SetCapacity(p.caches[j], shares[j]).evicted;
      seq(|keys|, x requires 0 <= x < |keys| => keys[x].(group := Some(p.names[j]))))
  }

  lemma {:induction false} FlatLast(lists: seq<seq<CacheKey>>, last: seq<CacheKey>)
    ensures LruMoves.Flat(lists + [last]) == LruMoves.Flat(lists) + last
  {
    if lists == [] {
      assert ([] + [last])[1..] == [] && [] + last == last && last + [] == last;
    } else {
      FlatLast(lists[1..], last);
      assert (lists + [last])[1..] == lists[1..] + [last];
    }
  }

  lemma {:induction false} EvictedFlat(p: Parts, shares: seq<nat>, i: nat)
    requires |shares| == |p.caches| == |p.names| && i <= |p.caches|
    ensures EvictedTo(p.names, p.caches, shares, i) == LruMoves.Flat(Lists(p, shares, i))
  {
    hide LruModel.SetCapacity;
    if i > 0 {
      EvictedFlat(p, shares, i - 1);
      var lists, last := Lists(p, shares, i - 1), Lists(p, shares, i)[i - 1];
      assert Lists(p, shares, i) == lists + [last];
      assert last == Named(p.names[i - 1], LruModel.SetCapacity(p.caches[i - 1], shares[i - 1]).evicted);
      FlatLast(lists, last);
    }
  }

  /** A resize gives every partition its share of the new total; what they evict is reported
      partition by partition, under their names. */
  lemma ResizeMoves(p: Parts, hash: CacheKey -> nat, n: nat, i: nat)
    requires PartitionModel.Valid(p, hash) && i < |p.names|
    ensures Shaped(p)
    ensures var r, total := PartitionModel.SetCapacity(p, n), if n < 16 then 16 else n;
            var shares := Allocation.Shares(p.weights, total);
            && r.evicted == LruMoves.Flat(Lists(p, shares, |p.caches|))
            && r.state == p.(totalCap := total, caches := r.state.caches) && |r.state.caches| == |p.caches|
            && r.state.caches[i] == LruModel.SetCapacity(p.caches[i], shares[i]).state
  {
    ValidShaped(p, hash);
    EvictedFlat(p, Allocation.Shares(p.weights, if n < 16 then 16 else n), |p.caches|);
    hide PartitionModel.Valid, Allocation.Shares, LruModel.SetCapacity, EvictedTo, Lists, LruMoves.Flat, Shaped;
  }

  /** A clear empties every partition, and a new stale window reaches every one. */
  lemma AllMove(p: Parts, hash: CacheKey -> nat, v: nat, i: nat)
    requires PartitionModel.Valid(p, hash) && i < |p.names|
    ensures var r := PartitionModel.Clear(p).state;
            r == p.(caches := r.caches) && |r.caches| == |p.caches| && r.caches[i] == LruModel.Clear(p.caches[i]).state
    ensures var r := PartitionModel.SetStaleWindow(p, v).state;
            r == p.(caches := r.caches) && |r.caches| == |p.caches| && r.caches[i] == p.caches[i].(staleWindow := v)
  {
    hide PartitionModel.Valid, LruModel.Clear;
    ValidShaped(p, hash);
  }
}
