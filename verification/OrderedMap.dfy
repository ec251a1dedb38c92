/** The ordered map: an arena-backed doubly linked list with a hash index and a
    free list, proved to behave as the sequence of its pairs. */
module OrderedMaps {
  import opened Wrappers
  import opened Assoc
  import opened Arenas

  class OrderedMap<K(==,!new), V(!new)> {
    var index: map<K, nat>
    var nodes: Arena<K, V>
    var head: Option<nat>
    var tail: Option<nat>
    var free: seq<nat>
    var len: nat
    ghost var chain: seq<nat>

    ghost predicate Valid()
      reads this
    {
      && Linked(nodes, chain, head, tail)
      && Indexed(index, nodes, chain)
      && FreeSlots(free, nodes, chain)
      && len == |chain|
    }

    /** The abstract value: the stored pairs from least to most recently placed. */
    ghost function Contents(): (s: seq<(K, V)>)
      reads this
      requires Valid()
      ensures |s| == len
    {
      Pairs(nodes, chain)
    }

    constructor ()
      ensures Valid() && Contents() == []
    {
      index, nodes, head, tail, free, len := map[], [], None, None, [], 0;
      chain := [];
    }

    lemma ContentsDistinct()
      requires Valid()
      ensures Distinct(Contents())
    {
    }

    /** Where the index sends a key, and where its pair sits in the contents. */
    lemma Find(k: K)
      requires Valid()
      ensures Position(Contents(), k) < |chain| <==> k in index
      ensures k in index ==>
        && index[k] < |nodes| && nodes[index[k]].Some? && nodes[index[k]].value.key == k
        && chain[Position(Contents(), k)] == index[k]
        && Contents()[Position(Contents(), k)] == (k, nodes[index[k]].value.value)
    {
      var s := Contents();
      ContentsDistinct();
      if k in index {
        var i :| 0 <= i < |chain| && chain[i] == index[k];
        assert s[i].0 == k;
        PositionAt(s, i);
      }
    }

    // ---- internal steps on the arena ----

    /** Takes a slot for a new, still unlinked node: a free one if there is one,
        else a fresh slot at the end of the arena. */
    method Alloc(key: K, value: V) returns (i: nat)
      requires Linked(nodes, chain, head, tail) && FreeSlots(free, nodes, chain)
      modifies this`nodes, this`free
      ensures Allocated(old(nodes), old(free), nodes, free, i, key, value)
      ensures i !in chain && Linked(nodes, chain, head, tail)
    {
      if |free| > 0 {
        i := free[|free| - 1];
        assert i in free;
        free := free[..|free| - 1];
        nodes := nodes[i := Some(Node(None, None, key, value))];
      } else {
        nodes := nodes + [Some(Node(None, None, key, value))];
        i := |nodes| - 1;
      }
      AllocatedSlot(old(free), old(nodes), chain, head, tail, nodes, free, i, key, value);
    }

    /** Takes the node at position `p` of the chain out of it; its slot stays occupied. */
    method Unlink(idx: nat, ghost p: nat)
      requires Linked(nodes, chain, head, tail)
      requires p < |chain| && chain[p] == idx
      modifies this`nodes, this`head, this`tail, this`chain
      ensures chain == Unchain(old(chain), p) && idx !in chain
      ensures Linked(nodes, chain, head, tail)
      ensures SameData(old(nodes), nodes)
    {
      UnlinkedArena(nodes, chain, p);
      var prev, next := nodes[idx].value.prev, nodes[idx].value.next;
      if prev.Some? {
        nodes := nodes[prev.value := Some(nodes[prev.value].value.(next := next))];
      } else {
        head := next;
      }
      if next.Some? {
        nodes := nodes[next.value := Some(nodes[next.value].value.(prev := prev))];
      } else {
        tail := prev;
      }
      nodes := nodes[idx := Some(nodes[idx].value.(prev := None, next := None))];
      BypassedLinks(old(nodes), nodes, chain, p);
      RemoveEnds(chain, p);
      chain := Unchain(chain, p);
    }

    method PushBackIdx(idx: nat)
      requires Linked(nodes, chain, head, tail)
      requires idx < |nodes| && nodes[idx].Some? && idx !in chain
      modifies this`nodes, this`head, this`tail, this`chain
      ensures chain == old(chain) + [idx]
      ensures Linked(nodes, chain, head, tail)
      ensures SameData(old(nodes), nodes)
    {
      match tail {
        case Some(t) =>
          nodes := nodes[t := Some(nodes[t].value.(next := Some(idx)))];
          nodes := nodes[idx := Some(nodes[idx].value.(prev := Some(t), next := None))];
          tail := Some(idx);
        case None =>
          head := Some(idx);
          tail := Some(idx);
          nodes := nodes[idx := Some(nodes[idx].value.(prev := None, next := None))];
      }
      chain := chain + [idx];
    }

    method PushFrontIdx(idx: nat)
      requires Linked(nodes, chain, head, tail)
      requires idx < |nodes| && nodes[idx].Some? && idx !in chain
      modifies this`nodes, this`head, this`tail, this`chain
      ensures chain == [idx] + old(chain)
      ensures Linked(nodes, chain, head, tail)
      ensures SameData(old(nodes), nodes)
    {
      match head {
        case Some(h) =>
          nodes := nodes[h := Some(nodes[h].value.(prev := Some(idx)))];
          nodes := nodes[idx := Some(nodes[idx].value.(next := Some(h), prev := None))];
          head := Some(idx);
        case None =>
          head := Some(idx);
          tail := Some(idx);
          nodes := nodes[idx := Some(nodes[idx].value.(prev := None, next := None))];
      }
      chain := [idx] + chain;
    }

    /** Empties an unlinked slot and puts it on the free list. */
    method DropNode(idx: nat) returns (r: (K, V))
      requires Linked(nodes, chain, head, tail)
      requires idx < |nodes| && nodes[idx].Some? && idx !in chain && len > 0
      modifies this`nodes, this`free, this`len
      ensures nodes == old(nodes)[idx := None] && free == old(free) + [idx] && len == old(len) - 1
      ensures r == (old(nodes)[idx].value.key, old(nodes)[idx].value.value)
      ensures Linked(nodes, chain, head, tail)
    {
      r := (nodes[idx].value.key, nodes[idx].value.value);
      EmptiedSlot(nodes, chain, head, tail, idx);
      nodes := nodes[idx := None];
      free := free + [idx];
      len := len - 1;
    }

    // ---- operations ----

    method Len() returns (n: nat)
      requires Valid()
      ensures n == |Contents()|
    {
      n := len;
    }

    method ContainsKey(k: K) returns (b: bool)
      requires Valid()
      ensures b == Has(Contents(), k)
    {
      Find(k);
      b := k in index;
    }

    method Get(k: K) returns (v: Option<V>)
      requires Valid()
      ensures v == Lookup(Contents(), k)
    {
      Find(k);
      if k in index {
        v := Some(nodes[index[k]].value.value);
      } else {
        v := None;
      }
    }

    /** Inserts or replaces `k` at the back (most recently used end). */
    method Insert(k: K, v: V)
      requires Valid()
      modifies this
      ensures Valid() && Contents() == PutBack(old(Contents()), k, v)
    {
      hide Linked, Indexed, FreeSlots, SameData, Revalued, Occupied, Injective, Allocated, Pairs;
      LinkedParts(nodes, chain, head, tail);
      Find(k);
      if k in index {
        ghost var p := Position(Contents(), k);
        var idx := index[k];
        Unlink(idx, p);
        ghost var mid := nodes;
        StoredValue(nodes, chain, head, tail, idx, v);
        nodes := nodes[idx := Some(nodes[idx].value.(value := v))];
        PushBackIdx(idx);
        Rewritten(old(nodes), mid, nodes, idx, v);
        Moved(index, free, old(nodes), old(chain), nodes, p, v);
      } else {
        var idx := Alloc(k, v);
        ghost var mid := nodes;
        index := index[k := idx];
        PushBackIdx(idx);
        len := len + 1;
        Added(old(index), old(free), old(nodes), old(chain), mid, free, idx, k, v, nodes, chain);
      }
    }

    /** Inserts or replaces `k` at the front (least recently used end). */
    method PushFront(k: K, v: V)
      requires Valid()
      modifies this
      ensures Valid() && Contents() == PutFront(old(Contents()), k, v)
    {
      hide Linked, Indexed, FreeSlots, SameData, Revalued, Occupied, Injective, Allocated, Pairs;
      LinkedParts(nodes, chain, head, tail);
      Find(k);
      if k in index {
        ghost var p := Position(Contents(), k);
        var idx := index[k];
        Unlink(idx, p);
        ghost var mid := nodes;
        StoredValue(nodes, chain, head, tail, idx, v);
        nodes := nodes[idx := Some(nodes[idx].value.(value := v))];
        PushFrontIdx(idx);
        Rewritten(old(nodes), mid, nodes, idx, v);
        Moved(index, free, old(nodes), old(chain), nodes, p, v);
      } else {
        var idx := Alloc(k, v);
        ghost var mid := nodes;
        index := index[k := idx];
        PushFrontIdx(idx);
        len := len + 1;
        Added(old(index), old(free), old(nodes), old(chain), mid, free, idx, k, v, nodes, chain);
      }
    }

    method MoveToEnd(k: K)
      requires Valid()
      modifies this
      ensures Valid() && Contents() == Touch(old(Contents()), k)
    {
      hide Linked, Indexed, FreeSlots, SameData, Revalued, Occupied, Injective, Allocated, Pairs;
      LinkedParts(nodes, chain, head, tail);
      Find(k);
      if k in index {
        ghost var p := Position(Contents(), k);
        var idx := index[k];
        Unlink(idx, p);
        ghost var mid := nodes;
        PushBackIdx(idx);
        SameValue(old(nodes), mid, nodes, idx);
        Moved(index, free, old(nodes), old(chain), nodes, p, old(nodes)[idx].value.value);
      }
    }

    method MoveToFront(k: K)
      requires Valid()
      modifies this
      ensures Valid() && Contents() == TouchFront(old(Contents()), k)
    {
      hide Linked, Indexed, FreeSlots, SameData, Revalued, Occupied, Injective, Allocated, Pairs;
      LinkedParts(nodes, chain, head, tail);
      Find(k);
      if k in index {
        ghost var p := Position(Contents(), k);
        var idx := index[k];
        Unlink(idx, p);
        ghost var mid := nodes;
        PushFrontIdx(idx);
        SameValue(old(nodes), mid, nodes, idx);
        Moved(index, free, old(nodes), old(chain), nodes, p, old(nodes)[idx].value.value);
      }
    }

    /** Deletes `k` and hands back the stored pair. */
    method RemoveEntry(k: K) returns (r: Option<(K, V)>)
      requires Valid()
      modifies this
      ensures Valid() && Contents() == Without(old(Contents()), k)
      ensures r == match old(Lookup(Contents(), k)) case Some(v) => Some((k, v)) case None => None
    {
      hide Linked, Indexed, FreeSlots, SameData, Occupied, Injective, Pairs;
      LinkedParts(nodes, chain, head, tail);
      Find(k);
      if k !in index {
        return None;
      }
      ghost var p := Position(Contents(), k);
      var idx := index[k];
      index := index - {k};
      Unlink(idx, p);
      ghost var mid := nodes;
      SameSlot(old(nodes), mid, idx);
      var dropped := DropNode(idx);
      Dropped(old(index), old(free), old(nodes), old(chain), mid, p);
      r := Some(dropped);
    }

    method Remove(k: K) returns (v: Option<V>)
      requires Valid()
      modifies this
      ensures Valid() && Contents() == Without(old(Contents()), k)
      ensures v == old(Lookup(Contents(), k))
    {
      var r := RemoveEntry(k);
      v := if r.Some? then Some(r.value.1) else None;
    }

    /** The least recently used pair. */
    method Front() returns (r: Option<(K, V)>)
      requires Valid()
      ensures r == if Contents() == [] then None else Some(Contents()[0])
    {
      if head.Some? {
        assert nodes[chain[0]].Some?;
        r := Some((nodes[head.value].value.key, nodes[head.value].value.value));
      } else {
        r := None;
      }
    }

    method PopFront() returns (r: Option<(K, V)>)
      requires Valid()
      modifies this
      ensures Valid()
      ensures if old(Contents()) == [] then r == None && Contents() == []
              else r == Some(old(Contents())[0]) && Contents() == old(Contents())[1..]
    {
      hide Linked, Indexed, FreeSlots, SameData, Occupied, Injective, Pairs;
      LinkedParts(nodes, chain, head, tail);
      if head.None? {
        return None;
      }
      var h := head.value;
      HeadOccupied();
      Unlink(h, 0);
      ghost var mid := nodes;
      SameSlot(old(nodes), mid, h);
      var dropped := DropNode(h);
      index := index - {dropped.0};
      Dropped(old(index), old(free), old(nodes), old(chain), mid, 0);
      r := Some(dropped);
    }

    method Clear()
      modifies this
      ensures Valid() && Contents() == []
    {
      index := map[];
      nodes := [];
      free := [];
      head, tail, len := None, None, 0;
      chain := [];
    }

    // ---- access by arena slot ----

    /** The pair in slot `j`, if any. */
    ghost function PairAt(j: nat): Option<(K, V)>
      reads this
    {
      Slot(nodes, j)
    }

    /** The chain position of an occupied slot. */
    ghost function SlotPosition(idx: nat): (p: nat)
      reads this
      requires Valid() && idx < |nodes| && nodes[idx].Some?
      ensures p < |chain| && chain[p] == idx
    {
      assert idx in chain;
      var p :| 0 <= p < |chain| && chain[p] == idx;
      p
    }

    lemma SlotPair(idx: nat, p: nat)
      requires Valid() && idx < |nodes| && nodes[idx].Some? && p < |chain| && chain[p] == idx
      ensures Contents()[p] == (nodes[idx].value.key, nodes[idx].value.value)
      ensures PairAt(idx) == Some((nodes[idx].value.key, nodes[idx].value.value))
      ensures Without(Contents(), nodes[idx].value.key) == Unchain(Contents(), p)
    {
      ContentsDistinct();
      PositionAt(Contents(), p);
    }

    lemma HeadOccupied()
      requires Valid() && |chain| > 0
      ensures chain[0] < |nodes| && nodes[chain[0]].Some?
      ensures Contents()[0] == (nodes[chain[0]].value.key, nodes[chain[0]].value.value)
    {
    }

    /** The slots of at most `count` pairs from position `start` on. */
    method RangeIndices(start: nat, count: nat) returns (out: seq<nat>)
      requires Valid()
      ensures |out| == if start >= |Contents()| then 0 else if count <= |Contents()| - start then count
              else |Contents()| - start
      ensures forall i {:trigger out[i]} :: 0 <= i < |out| ==> PairAt(out[i]) == Some(Contents()[start + i])
    {
      out := [];
      var cur := head;
      var i := 0;
      while cur.Some?
        invariant 0 <= i <= |chain|
        invariant cur == if i < |chain| then Some(chain[i]) else None
        invariant |out| == if i <= start then 0 else i - start
        invariant i <= start + count
        invariant forall j {:trigger out[j]} :: 0 <= j < |out| ==> out[j] == chain[start + j]
        decreases |chain| - i
      {
        var idx := cur.value;
        assert nodes[chain[i]].Some?;
        if i >= start + count {
          break;
        }
        if i >= start {
          out := out + [idx];
        }
        i := i + 1;
        cur := nodes[idx].value.next;
      }
    }

    method ValueAt(idx: nat) returns (v: Option<V>)
      requires Valid()
      ensures v == match PairAt(idx) case Some(p) => Some(p.1) case None => None
    {
      if idx < |nodes| && nodes[idx].Some? {
        v := Some(nodes[idx].value.value);
      } else {
        v := None;
      }
    }

    /** Deletes whatever slot `idx` holds; every other slot keeps its pair. */
    method RemoveIndex(idx: nat) returns (v: Option<V>)
      requires Valid()
      modifies this
      ensures Valid()
      ensures match old(PairAt(idx))
              case None => v == None && Contents() == old(Contents())
              case Some(p) => v == Some(p.1) && Contents() == Without(old(Contents()), p.0)
      ensures PairAt(idx) == None
      ensures forall j: nat {:trigger PairAt(j)} :: j != idx ==> PairAt(j) == old(PairAt(j))
    {
      if idx >= |nodes| || nodes[idx].None? {
        return None;
      }
      var taken := RemoveOccupied(idx);
      v := Some(taken);
    }

    method RemoveOccupied(idx: nat) returns (v: V)
      requires Valid() && PairAt(idx).Some?
      modifies this
      ensures Valid() && v == old(PairAt(idx)).value.1
      ensures Contents() == Without(old(Contents()), old(PairAt(idx)).value.0)
      ensures PairAt(idx) == None
      ensures forall j: nat {:trigger PairAt(j)} :: j != idx ==> PairAt(j) == old(PairAt(j))
    {
      hide Linked, Indexed, FreeSlots, SameData, Occupied, Injective, Pairs, Unlinked, Unchain, Without;
      LinkedParts(nodes, chain, head, tail);
      ghost var p := SlotPosition(idx);
      ghost var mid := Unlinked(nodes, chain, p);
      SlotPair(idx, p);
      UnlinkedArena(nodes, chain, p);
      OtherSlots(nodes, mid, idx);
      RemoveEnds(chain, p);
      Dropped(index, free, nodes, chain, mid, p);
      var node := TakeOut(idx, p);
      index := index - {node.key};
      free := free + [idx];
      len := len - 1;
      v := node.value;
      chain := Unchain(chain, p);
    }

    /** Empties a slot and links its neighbours to each other in place. */
    method TakeOut(idx: nat, ghost p: nat) returns (node: Node<K, V>)
      requires Linked(nodes, chain, head, tail) && p < |chain| && chain[p] == idx
      modifies this`nodes, this`head, this`tail
      ensures idx < |old(nodes)| && old(nodes)[idx] == Some(node)
      ensures old(Linked(nodes, chain, First(chain), Last(chain)))
      ensures nodes == old(Unlinked(nodes, chain, p))[idx := None]
      ensures SameData(old(nodes), old(Unlinked(nodes, chain, p)))
      ensures Linked(nodes, Unchain(chain, p), head, tail)
    {
      LinkedParts(nodes, chain, head, tail);
      hide Linked, SameData, Occupied, Injective, Unlinked, Unchain;
      TakenArena(nodes, chain, p);
      RemoveEnds(chain, p);
      node := nodes[idx].value;
      nodes := nodes[idx := None];
      if node.prev.Some? {
        nodes := nodes[node.prev.value := Some(nodes[node.prev.value].value.(next := node.next))];
      } else {
        head := node.next;
      }
      if node.next.Some? {
        nodes := nodes[node.next.value := Some(nodes[node.next.value].value.(prev := node.prev))];
      } else {
        tail := node.prev;
      }
    }
  }
}
