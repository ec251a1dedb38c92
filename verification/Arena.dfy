/** The arena of a doubly linked list, as a value: what each write to it does to
    the chain, the hash index, the free slots and the stored pairs. */
module Arenas {
  import opened Wrappers

  datatype Node<K, V> = Node(prev: Option<nat>, next: Option<nat>, key: K, value: V)

  type Arena<K, V> = seq<Option<Node<K, V>>>

  // ---- the list threaded through the arena ----

  function Before(chain: seq<nat>, i: nat): Option<nat>
    requires i < |chain|
  {
    if i == 0 then None else Some(chain[i - 1])
  }

  function After(chain: seq<nat>, i: nat): Option<nat>
    requires i < |chain|
  {
    if i + 1 == |chain| then None else Some(chain[i + 1])
  }

  function First(chain: seq<nat>): Option<nat> {
    if chain == [] then None else Some(chain[0])
  }

  function Last(chain: seq<nat>): Option<nat> {
    if chain == [] then None else Some(chain[|chain| - 1])
  }

  ghost predicate Occupied<K, V>(nodes: Arena<K, V>, chain: seq<nat>) {
    && (forall i {:trigger chain[i]} :: 0 <= i < |chain| ==> chain[i] < |nodes|)
    && (forall i {:trigger nodes[chain[i]]} :: 0 <= i < |chain| ==> nodes[chain[i]].Some?)
  }

  ghost predicate Injective(chain: seq<nat>) {
    forall i, j :: 0 <= i < j < |chain| ==> chain[i] != chain[j]
  }

  /** Following `next` from `head` and `prev` from `tail` both spell out `chain`. */
  ghost predicate Linked<K, V>(nodes: Arena<K, V>, chain: seq<nat>, head: Option<nat>, tail: Option<nat>) {
    && Occupied(nodes, chain)
    && Injective(chain)
    && head == First(chain)
    && tail == Last(chain)
    && (forall i {:trigger nodes[chain[i]]} :: 0 <= i < |chain| ==>
          && nodes[chain[i]].value.prev == Before(chain, i)
          && nodes[chain[i]].value.next == After(chain, i))
  }

  /** The pairs stored along `chain`. */
  ghost function Pairs<K, V>(nodes: Arena<K, V>, chain: seq<nat>): (s: seq<(K, V)>)
    requires Occupied(nodes, chain)
    ensures |s| == |chain|
    ensures forall i {:trigger s[i]} :: 0 <= i < |s| ==>
              s[i] == (nodes[chain[i]].value.key, nodes[chain[i]].value.value)
  {
    if chain == [] then []
    else [(nodes[chain[0]].value.key, nodes[chain[0]].value.value)] + Pairs(nodes, chain[1..])
  }

  /** Two arenas hold the same pairs in the same slots; only links may differ. */
  ghost predicate SameData<K, V>(a: Arena<K, V>, b: Arena<K, V>) {
    && |a| == |b|
    && forall j :: 0 <= j < |a| ==>
         && a[j].Some? == b[j].Some?
         && (a[j].Some? ==> a[j].value.key == b[j].value.key && a[j].value.value == b[j].value.value)
  }

  /** The hash index maps exactly the stored keys to their slots. */
  ghost predicate Indexed<K, V>(index: map<K, nat>, nodes: Arena<K, V>, chain: seq<nat>)
    requires Occupied(nodes, chain)
  {
    && (forall i {:trigger nodes[chain[i]]} :: 0 <= i < |chain| ==>
          nodes[chain[i]].value.key in index && index[nodes[chain[i]].value.key] == chain[i])
    && (forall k :: k in index ==> index[k] in chain && nodes[index[k]].value.key == k)
  }

  /** The free list names exactly the empty slots, each once. */
  ghost predicate FreeSlots<K, V>(free: seq<nat>, nodes: Arena<K, V>, chain: seq<nat>) {
    && Injective(free)
    && (forall i :: 0 <= i < |free| ==> free[i] < |nodes| && nodes[free[i]].None?)
    && (forall j :: 0 <= j < |nodes| ==> if nodes[j].Some? then j in chain else j in free)
  }

  ghost function Unchain<T>(s: seq<T>, p: nat): seq<T>
    requires p < |s|
  {
    s[..p] + s[p + 1..]
  }

  /** `b` is `a` with the neighbours of position `p` linked to each other. */
  ghost predicate Bypassed<K, V>(a: Arena<K, V>, b: Arena<K, V>, chain: seq<nat>, p: nat)
    requires Occupied(a, chain) && Occupied(b, chain) && p < |chain|
  {
    forall i {:trigger b[chain[i]]} :: 0 <= i < |chain| && i != p ==>
      && b[chain[i]].value.prev == (if i == p + 1 then a[chain[p]].value.prev else a[chain[i]].value.prev)
      && b[chain[i]].value.next == (if i + 1 == p then a[chain[p]].value.next else a[chain[i]].value.next)
  }

  function LinkNext<K, V>(nodes: Arena<K, V>, at: Option<nat>, next: Option<nat>): Arena<K, V>
    requires at.Some? ==> at.value < |nodes| && nodes[at.value].Some?
  {
    if at.Some? then nodes[at.value := Some(nodes[at.value].value.(next := next))] else nodes
  }

  function LinkPrev<K, V>(nodes: Arena<K, V>, at: Option<nat>, prev: Option<nat>): Arena<K, V>
    requires at.Some? ==> at.value < |nodes| && nodes[at.value].Some?
  {
    if at.Some? then nodes[at.value := Some(nodes[at.value].value.(prev := prev))] else nodes
  }

  /** The arena once position `p` is unlinked but still occupied. */
  ghost function Unlinked<K, V>(a: Arena<K, V>, chain: seq<nat>, p: nat): Arena<K, V>
    requires Linked(a, chain, First(chain), Last(chain)) && p < |chain|
  {
    assert a[chain[p]].Some?;
    assert p > 0 ==> a[chain[p - 1]].Some?;
    assert p + 1 < |chain| ==> a[chain[p + 1]].Some?;
    var idx, prev, next := chain[p], Before(chain, p), After(chain, p);
    var b := LinkPrev(LinkNext(a, prev, next), next, prev);
    b[idx := Some(b[idx].value.(prev := None, next := None))]
  }

  /** Unlinking changes no data and leaves a well-linked rest. */
  lemma UnlinkedArena<K, V>(a: Arena<K, V>, chain: seq<nat>, p: nat)
    requires Linked(a, chain, First(chain), Last(chain)) && p < |chain|
    ensures var c := Unlinked(a, chain, p);
            SameData(a, c) && Occupied(c, chain) && Bypassed(a, c, chain, p)
    ensures chain[p] < |a| && a[chain[p]].Some?
    ensures a[chain[p]].value.prev == Before(chain, p) && a[chain[p]].value.next == After(chain, p)
  {
    assert a[chain[p]].Some?;
    if p > 0 { assert a[chain[p - 1]].Some?; }
    if p + 1 < |chain| { assert a[chain[p + 1]].Some?; }
  }

  lemma BypassedLinks<K, V>(a: Arena<K, V>, b: Arena<K, V>, chain: seq<nat>, p: nat)
    requires Linked(a, chain, First(chain), Last(chain))
    requires Occupied(b, chain) && p < |chain| && Bypassed(a, b, chain, p)
    ensures var rest := Unchain(chain, p);
            Linked(b, rest, First(rest), Last(rest))
  {
    var rest := Unchain(chain, p);
    forall i {:trigger b[rest[i]]} | 0 <= i < |rest|
      ensures rest[i] < |b| && b[rest[i]].Some?
      ensures b[rest[i]].value.prev == Before(rest, i) && b[rest[i]].value.next == After(rest, i)
    {
      var j := if i < p then i else i + 1;
      assert rest[i] == chain[j] && a[chain[j]].Some? && b[chain[j]].Some?;
      assert a[chain[p]].Some?;
    }
  }

  /** What is left of a chain after position `p` is taken out. */
  lemma RemoveEnds(chain: seq<nat>, p: nat)
    requires Injective(chain) && p < |chain|
    ensures |Unchain(chain, p)| == |chain| - 1 && chain[p] !in Unchain(chain, p)
    ensures First(Unchain(chain, p)) == if p == 0 then After(chain, p) else First(chain)
    ensures Last(Unchain(chain, p)) == if p + 1 == |chain| then Before(chain, p) else Last(chain)
  {
  }

  lemma PairsRemoved<K, V>(a: Arena<K, V>, b: Arena<K, V>, chain: seq<nat>, p: nat)
    requires Occupied(a, chain) && p < |chain| && SameData(a, b)
    ensures Occupied(b, Unchain(chain, p))
    ensures Pairs(b, Unchain(chain, p)) == Unchain(Pairs(a, chain), p)
  {
    var rest := Unchain(chain, p);
    forall i {:trigger rest[i]} | 0 <= i < |rest|
      ensures rest[i] < |b| && b[rest[i]].Some?
      ensures Unchain(Pairs(a, chain), p)[i] == (b[rest[i]].value.key, b[rest[i]].value.value)
    {
      var j := if i < p then i else i + 1;
      assert rest[i] == chain[j] && a[chain[j]].Some?;
    }
  }

  /** `b` is `a` with other links and, in slot `idx`, the value `v`. */
  ghost predicate Revalued<K, V>(a: Arena<K, V>, b: Arena<K, V>, idx: nat, v: V) {
    && |a| == |b|
    && forall j :: 0 <= j < |a| ==>
         && a[j].Some? == b[j].Some?
         && (a[j].Some? ==> a[j].value.key == b[j].value.key)
         && (a[j].Some? ==> b[j].value.value == if j == idx then v else a[j].value.value)
  }

  lemma PairsMoved<K, V>(a: Arena<K, V>, b: Arena<K, V>, chain: seq<nat>, p: nat, v: V)
    requires Occupied(a, chain) && Injective(chain) && p < |chain| && Revalued(a, b, chain[p], v)
    ensures var rest := Unchain(chain, p);
            var others := Unchain(Pairs(a, chain), p);
            var k := a[chain[p]].value.key;
            && Occupied(b, rest + [chain[p]]) && Pairs(b, rest + [chain[p]]) == others + [(k, v)]
            && Occupied(b, [chain[p]] + rest) && Pairs(b, [chain[p]] + rest) == [(k, v)] + others
    ensures forall x :: x in Unchain(chain, p) + [chain[p]] <==> x in chain
    ensures forall x :: x in [chain[p]] + Unchain(chain, p) <==> x in chain
  {
    var rest := Unchain(chain, p);
    assert a[chain[p]].Some?;
    forall i {:trigger rest[i]} | 0 <= i < |rest|
      ensures rest[i] < |b| && b[rest[i]].Some?
      ensures Unchain(Pairs(a, chain), p)[i] == (b[rest[i]].value.key, b[rest[i]].value.value)
    {
      var j := if i < p then i else i + 1;
      assert rest[i] == chain[j] && a[chain[j]].Some?;
    }
    RemoveElements(chain, p);
  }

  lemma RemoveElements(chain: seq<nat>, p: nat)
    requires p < |chain|
    ensures forall x :: x in Unchain(chain, p) || x == chain[p] <==> x in chain
  {
    assert chain == chain[..p] + [chain[p]] + chain[p + 1..];
  }

  /** Moving a node within the chain disturbs neither the index nor the free list. */
  lemma Relinked<K, V>(index: map<K, nat>, free: seq<nat>,
                       a: Arena<K, V>, chain: seq<nat>,
                       b: Arena<K, V>, chain': seq<nat>)
    requires Occupied(a, chain) && Indexed(index, a, chain) && FreeSlots(free, a, chain)
    requires |a| == |b|
    requires forall j :: 0 <= j < |a| ==> a[j].Some? == b[j].Some? && (a[j].Some? ==> a[j].value.key == b[j].value.key)
    requires Occupied(b, chain')
    requires forall x :: x in chain' <==> x in chain
    ensures Indexed(index, b, chain') && FreeSlots(free, b, chain')
  {
    forall i {:trigger b[chain'[i]]} | 0 <= i < |chain'|
      ensures b[chain'[i]].value.key in index && index[b[chain'[i]].value.key] == chain'[i]
    {
      assert chain'[i] in chain';
      var j :| 0 <= j < |chain| && chain[j] == chain'[i];
      assert a[chain[j]].Some?;
    }
  }

  /** Relinking slot `idx` after storing `v` in it. */
  lemma Rewritten<K, V>(a: Arena<K, V>, mid: Arena<K, V>, b: Arena<K, V>, idx: nat, v: V)
    requires SameData(a, mid) && idx < |mid| && mid[idx].Some?
    requires SameData(mid[idx := Some(mid[idx].value.(value := v))], b)
    ensures Revalued(a, b, idx, v)
  {
  }

  /** Relinking slot `idx` without storing anything. */
  lemma SameValue<K, V>(a: Arena<K, V>, mid: Arena<K, V>, b: Arena<K, V>, idx: nat)
    requires SameData(a, mid) && SameData(mid, b) && idx < |a| && a[idx].Some?
    ensures Revalued(a, b, idx, a[idx].value.value)
  {
  }

  lemma SameSlot<K, V>(a: Arena<K, V>, b: Arena<K, V>, idx: nat)
    requires SameData(a, b) && idx < |a| && a[idx].Some?
    ensures idx < |b| && b[idx].Some? && b[idx].value.key == a[idx].value.key
            && b[idx].value.value == a[idx].value.value
  {
  }

  /** A node moved to either end of the chain, carrying `v`. */
  lemma Moved<K, V>(index: map<K, nat>, free: seq<nat>, a: Arena<K, V>, chain: seq<nat>,
                    b: Arena<K, V>, p: nat, v: V)
    requires Occupied(a, chain) && Injective(chain) && Indexed(index, a, chain) && FreeSlots(free, a, chain)
    requires p < |chain| && Revalued(a, b, chain[p], v)
    ensures var others := Unchain(Pairs(a, chain), p);
            var k := a[chain[p]].value.key;
            var back := Unchain(chain, p) + [chain[p]];
            && Occupied(b, back) && Indexed(index, b, back) && FreeSlots(free, b, back)
            && Pairs(b, back) == others + [(k, v)]
    ensures var others := Unchain(Pairs(a, chain), p);
            var k := a[chain[p]].value.key;
            var front := [chain[p]] + Unchain(chain, p);
            && Occupied(b, front) && Indexed(index, b, front) && FreeSlots(free, b, front)
            && Pairs(b, front) == [(k, v)] + others
  {
    PairsMoved(a, b, chain, p, v);
    Relinked(index, free, a, chain, b, Unchain(chain, p) + [chain[p]]);
    Relinked(index, free, a, chain, b, [chain[p]] + Unchain(chain, p));
  }

  lemma LinkedParts<K, V>(nodes: Arena<K, V>, chain: seq<nat>, head: Option<nat>, tail: Option<nat>)
    requires Linked(nodes, chain, head, tail)
    ensures Occupied(nodes, chain) && Injective(chain) && head == First(chain) && tail == Last(chain)
  {
  }

  /** Storing a value in an occupied slot leaves every link alone. */
  lemma StoredValue<K, V>(a: Arena<K, V>, chain: seq<nat>, head: Option<nat>, tail: Option<nat>, idx: nat, v: V)
    requires Linked(a, chain, head, tail) && idx < |a| && a[idx].Some?
    ensures Linked(a[idx := Some(a[idx].value.(value := v))], chain, head, tail)
  {
  }

  /** An occupied slot outside the chain can be emptied without touching the links. */
  lemma EmptiedSlot<K, V>(a: Arena<K, V>, chain: seq<nat>, head: Option<nat>, tail: Option<nat>, idx: nat)
    requires Linked(a, chain, head, tail) && idx < |a| && idx !in chain
    ensures Linked(a[idx := None], chain, head, tail)
  {
  }

  /** The outcome of emptying the slot at position `p` once it is unlinked. */
  ghost predicate Dropping<K, V>(index: map<K, nat>, free: seq<nat>, a: Arena<K, V>, chain: seq<nat>,
                                 mid: Arena<K, V>, p: nat)
    requires Occupied(a, chain) && p < |chain| && |mid| == |a|
  {
    var idx, rest := chain[p], Unchain(chain, p);
    var b := mid[idx := None];
    && Occupied(b, rest) && Pairs(b, rest) == Unchain(Pairs(a, chain), p)
    && a[idx].Some? && Indexed(index - {a[idx].value.key}, b, rest)
    && FreeSlots(free + [idx], b, rest)
  }

  /** Taking the node at position `p` out of chain, arena and index. */
  lemma Dropped<K, V>(index: map<K, nat>, free: seq<nat>, a: Arena<K, V>, chain: seq<nat>,
                      mid: Arena<K, V>, p: nat)
    requires Occupied(a, chain) && Injective(chain) && Indexed(index, a, chain) && FreeSlots(free, a, chain)
    requires p < |chain| && SameData(a, mid)
    ensures Dropping(index, free, a, chain, mid, p)
  {
    hide Indexed, FreeSlots, SameData, Injective, Occupied, Unchain;
    RemoveEnds(chain, p);
    DroppedPairs(a, chain, mid, p);
    DroppedIndex(index, a, chain, mid, p);
    DroppedFree(free, a, chain, mid, p);
  }

  lemma DroppedPairs<K, V>(a: Arena<K, V>, chain: seq<nat>, mid: Arena<K, V>, p: nat)
    requires Occupied(a, chain) && Injective(chain) && p < |chain| && SameData(a, mid)
    ensures chain[p] < |a| && a[chain[p]].Some?
    ensures Occupied(mid[chain[p] := None], Unchain(chain, p))
    ensures Pairs(mid[chain[p] := None], Unchain(chain, p)) == Unchain(Pairs(a, chain), p)
  {
    assert a[chain[p]].Some?;
    PairsRemoved(a, mid, chain, p);
    var rest := Unchain(chain, p);
    forall i {:trigger rest[i]} | 0 <= i < |rest|
      ensures mid[chain[p] := None][rest[i]] == mid[rest[i]] && rest[i] != chain[p]
    {
    }
  }

  lemma DroppedIndex<K, V>(index: map<K, nat>, a: Arena<K, V>, chain: seq<nat>,
                           mid: Arena<K, V>, p: nat)
    requires Occupied(a, chain) && Indexed(index, a, chain) && p < |chain| && SameData(a, mid)
    requires a[chain[p]].Some? && Occupied(mid[chain[p] := None], Unchain(chain, p))
    ensures Indexed(index - {a[chain[p]].value.key}, mid[chain[p] := None], Unchain(chain, p))
  {
    var rest, b, k := Unchain(chain, p), mid[chain[p] := None], a[chain[p]].value.key;
    RemoveElements(chain, p);
    forall i {:trigger b[rest[i]]} | 0 <= i < |rest|
      ensures b[rest[i]].value.key != k
      ensures b[rest[i]].value.key in index && index[b[rest[i]].value.key] == rest[i]
    {
      var j := if i < p then i else i + 1;
      assert rest[i] == chain[j] && a[chain[j]].Some?;
      assert b[rest[i]].Some?;
    }
  }

  lemma DroppedFree<K, V>(free: seq<nat>, a: Arena<K, V>, chain: seq<nat>,
                          mid: Arena<K, V>, p: nat)
    requires FreeSlots(free, a, chain) && p < |chain| && SameData(a, mid)
    requires chain[p] < |a| && a[chain[p]].Some?
    ensures FreeSlots(free + [chain[p]], mid[chain[p] := None], Unchain(chain, p))
  {
    RemoveElements(chain, p);
    var free', b := free + [chain[p]], mid[chain[p] := None];
    forall i | 0 <= i < |free'|
      ensures free'[i] < |b| && b[free'[i]].None?
    {
      assert i < |free| ==> free'[i] == free[i];
    }
  }

  /** A freshly allocated slot, seen from the arena it was taken from. */
  ghost predicate Allocated<K, V>(a: Arena<K, V>, free: seq<nat>,
                                  b: Arena<K, V>, free': seq<nat>, i: nat, k: K, v: V) {
    && |a| <= |b| && i < |b| && b[i] == Some(Node(None, None, k, v))
    && (if |free| > 0 then i == free[|free| - 1] && free' == free[..|free| - 1] && |b| == |a|
        else i == |a| && free' == free && |b| == |a| + 1)
    && forall j :: 0 <= j < |a| && j != i ==> b[j] == a[j]
  }

  lemma AllocatedSlot<K, V>(free: seq<nat>, a: Arena<K, V>, chain: seq<nat>,
                            head: Option<nat>, tail: Option<nat>,
                            b: Arena<K, V>, free': seq<nat>, i: nat, k: K, v: V)
    requires Linked(a, chain, head, tail) && FreeSlots(free, a, chain)
    requires Allocated(a, free, b, free', i, k, v)
    ensures i !in chain && Linked(b, chain, head, tail)
  {
    assert |free| > 0 ==> free[|free| - 1] in free;
  }

  /** A new key added at either end of the chain. */
  lemma Added<K, V>(index: map<K, nat>, free: seq<nat>, a: Arena<K, V>, chain: seq<nat>,
                    b: Arena<K, V>, free': seq<nat>, i: nat, k: K, v: V,
                    c: Arena<K, V>, chain': seq<nat>)
    requires Occupied(a, chain) && Indexed(index, a, chain) && FreeSlots(free, a, chain)
    requires k !in index && i !in chain
    requires Allocated(a, free, b, free', i, k, v) && SameData(b, c)
    requires chain' == chain + [i] || chain' == [i] + chain
    ensures Occupied(c, chain') && Indexed(index[k := i], c, chain') && FreeSlots(free', c, chain')
    ensures Pairs(c, chain') == if chain' == chain + [i] then Pairs(a, chain) + [(k, v)] else [(k, v)] + Pairs(a, chain)
  {
    hide Indexed, FreeSlots, Allocated, SameData, Occupied;
    AddedOccupied(a, chain, b, free, free', i, k, v, c, chain');
    AddedIndex(index, a, chain, i, k, v, c, chain');
    AddedFree(free, a, chain, b, free', i, k, v, c, chain');
  }

  /** `c` extends the data of `a` along `chain` by a node in slot `i`. */
  ghost predicate Extended<K, V>(a: Arena<K, V>, chain: seq<nat>, i: nat, k: K, v: V, c: Arena<K, V>)
    requires Occupied(a, chain)
  {
    && i < |c| && c[i].Some? && c[i].value.key == k && c[i].value.value == v
    && forall j {:trigger chain[j]} :: 0 <= j < |chain| ==>
         && chain[j] < |c| && c[chain[j]].Some? && a[chain[j]].Some?
         && c[chain[j]].value.key == a[chain[j]].value.key
         && c[chain[j]].value.value == a[chain[j]].value.value
  }

  lemma AddedIndex<K, V>(index: map<K, nat>, a: Arena<K, V>, chain: seq<nat>,
                         i: nat, k: K, v: V, c: Arena<K, V>, chain': seq<nat>)
    requires Occupied(a, chain) && Indexed(index, a, chain)
    requires k !in index && Extended(a, chain, i, k, v, c) && Occupied(c, chain')
    requires chain' == chain + [i] || chain' == [i] + chain
    ensures Indexed(index[k := i], c, chain')
    ensures Pairs(c, chain') == if chain' == chain + [i] then Pairs(a, chain) + [(k, v)] else [(k, v)] + Pairs(a, chain)
  {
    AddedPairs(a, chain, i, k, v, c, chain');
    hide Pairs, Occupied;
    forall j {:trigger c[chain'[j]]} | 0 <= j < |chain'|
      ensures chain'[j] < |c| && c[chain'[j]].Some?
      ensures c[chain'[j]].value.key in index[k := i] && index[k := i][c[chain'[j]].value.key] == chain'[j]
    {
      AddedSlot(index, a, chain, i, k, v, c, chain', j);
    }
    forall x | x in index
      ensures index[x] in chain && index[x] in chain'
      ensures index[x] < |c| && c[index[x]].Some? && c[index[x]].value.key == x
    {
      KeptSlot(index, a, chain, i, k, v, c, x);
    }
  }

  lemma AddedSlot<K, V>(index: map<K, nat>, a: Arena<K, V>, chain: seq<nat>, i: nat, k: K, v: V, c: Arena<K, V>,
                        chain': seq<nat>, j: nat)
    requires Occupied(a, chain) && Indexed(index, a, chain) && k !in index && Extended(a, chain, i, k, v, c)
    requires (chain' == chain + [i] || chain' == [i] + chain) && j < |chain'|
    ensures chain'[j] < |c| && c[chain'[j]].Some?
    ensures c[chain'[j]].value.key in index[k := i] && index[k := i][c[chain'[j]].value.key] == chain'[j]
  {
    var m := if chain' == chain + [i] then j else j - 1;
    assert (0 <= m < |chain| && chain'[j] == chain[m] && a[chain[m]].Some?) || chain'[j] == i;
  }

  lemma KeptSlot<K, V>(index: map<K, nat>, a: Arena<K, V>, chain: seq<nat>, i: nat, k: K, v: V, c: Arena<K, V>, x: K)
    requires Occupied(a, chain) && Indexed(index, a, chain) && Extended(a, chain, i, k, v, c) && x in index
    ensures index[x] in chain && index[x] < |c| && c[index[x]].Some? && c[index[x]].value.key == x
  {
    var j :| 0 <= j < |chain| && chain[j] == index[x];
    assert a[chain[j]].Some?;
  }

  lemma {:induction false} AddedPairs<K, V>(a: Arena<K, V>, chain: seq<nat>, i: nat, k: K, v: V,
                                            c: Arena<K, V>, chain': seq<nat>)
    requires Occupied(a, chain) && Extended(a, chain, i, k, v, c) && Occupied(c, chain')
    requires chain' == chain + [i] || chain' == [i] + chain
    ensures Pairs(c, chain') == if chain' == chain + [i] then Pairs(a, chain) + [(k, v)] else [(k, v)] + Pairs(a, chain)
  {
    hide Pairs;
    var all := if chain' == chain + [i] then Pairs(a, chain) + [(k, v)] else [(k, v)] + Pairs(a, chain);
    forall j | 0 <= j < |chain'|
      ensures Pairs(c, chain')[j] == all[j]
    {
      var m := if chain' == chain + [i] then j else j - 1;
      assert (0 <= m < |chain| && chain'[j] == chain[m] && a[chain[m]].Some?) || chain'[j] == i;
    }
  }

  lemma AddedOccupied<K, V>(a: Arena<K, V>, chain: seq<nat>, b: Arena<K, V>,
                            free: seq<nat>, free': seq<nat>, i: nat, k: K, v: V,
                            c: Arena<K, V>, chain': seq<nat>)
    requires Occupied(a, chain) && i !in chain
    requires Allocated(a, free, b, free', i, k, v) && SameData(b, c)
    requires chain' == chain + [i] || chain' == [i] + chain
    ensures Occupied(c, chain')
    ensures Extended(a, chain, i, k, v, c)
  {
    forall j {:trigger chain[j]} | 0 <= j < |chain|
      ensures chain[j] < |c| && chain[j] != i && c[chain[j]].Some? && a[chain[j]].Some?
      ensures c[chain[j]].value.key == a[chain[j]].value.key && c[chain[j]].value.value == a[chain[j]].value.value
    {
      assert a[chain[j]].Some? && chain[j] in chain;
      assert b[chain[j]] == a[chain[j]];
    }
    forall j {:trigger chain'[j]} | 0 <= j < |chain'|
      ensures chain'[j] < |c| && c[chain'[j]].Some?
    {
      var m := if chain' == chain + [i] then j else j - 1;
      assert (0 <= m < |chain| && chain'[j] == chain[m]) || chain'[j] == i;
    }
  }

  lemma AddedFree<K, V>(free: seq<nat>, a: Arena<K, V>, chain: seq<nat>,
                        b: Arena<K, V>, free': seq<nat>, i: nat, k: K, v: V,
                        c: Arena<K, V>, chain': seq<nat>)
    requires FreeSlots(free, a, chain) && i !in chain
    requires Allocated(a, free, b, free', i, k, v) && SameData(b, c)
    requires chain' == chain + [i] || chain' == [i] + chain
    ensures FreeSlots(free', c, chain')
  {
    if |free| > 0 {
      assert free == free' + [i];
    }
    assert forall x :: x in chain' <==> x in chain || x == i;
    forall j | 0 <= j < |c|
      ensures if c[j].Some? then j in chain' else j in free'
    {
      if j != i {
        assert b[j] == a[j];
      }
    }
    forall j | 0 <= j < |free'|
      ensures free'[j] < |c| && c[free'[j]].None?
    {
      assert free'[j] == free[j] && free[j] != i;
      assert b[free[j]] == a[free[j]];
    }
  }

  /** Emptying the slot first and bypassing it afterwards writes the same arena
      as unlinking it first and emptying it afterwards. */
  lemma TakenArena<K, V>(a: Arena<K, V>, chain: seq<nat>, p: nat)
    requires Linked(a, chain, First(chain), Last(chain)) && p < |chain|
    ensures var idx, prev, next := chain[p], Before(chain, p), After(chain, p);
            && idx < |a| && a[idx].Some? && a[idx].value.prev == prev && a[idx].value.next == next
            && var t := a[idx := None];
            && (prev.Some? ==> prev.value < |t| && t[prev.value].Some?)
            && var t' := LinkNext(t, prev, next);
            && (next.Some? ==> next.value < |t'| && t'[next.value].Some?)
            && LinkPrev(t', next, prev) == Unlinked(a, chain, p)[idx := None]
    ensures SameData(a, Unlinked(a, chain, p))
    ensures var rest := Unchain(chain, p);
            Linked(Unlinked(a, chain, p)[chain[p] := None], rest, First(rest), Last(rest))
  {
    assert a[chain[p]].Some?;
    if p > 0 { assert a[chain[p - 1]].Some?; }
    if p + 1 < |chain| { assert a[chain[p + 1]].Some?; }
    UnlinkedArena(a, chain, p);
    BypassedLinks(a, Unlinked(a, chain, p), chain, p);
    RemoveEnds(chain, p);
    var rest := Unchain(chain, p);
    EmptiedSlot(Unlinked(a, chain, p), rest, First(rest), Last(rest), chain[p]);
  }

  /** The pair in slot `j`, if any. */
  ghost function Slot<K, V>(nodes: Arena<K, V>, j: nat): Option<(K, V)> {
    if j < |nodes| && nodes[j].Some? then Some((nodes[j].value.key, nodes[j].value.value)) else None
  }

  lemma OtherSlots<K, V>(a: Arena<K, V>, b: Arena<K, V>, idx: nat)
    requires SameData(a, b) && idx < |a|
    ensures Slot(b[idx := None], idx) == None
    ensures forall j: nat {:trigger Slot(a, j)} :: j != idx ==> Slot(b[idx := None], j) == Slot(a, j)
  {
  }
}
