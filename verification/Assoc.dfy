/** Ordered association lists: the plain sequence-of-pairs view that the linked
    structures of the cache are proved to implement. */
module Assoc {
  import opened Wrappers

  /** No key occurs twice. */
  ghost predicate Distinct<K, V>(s: seq<(K, V)>) {
    forall i, j :: 0 <= i < j < |s| ==> s[i].0 != s[j].0
  }

  /** The first position of `k`, or `|s|` when it does not occur. */
  function Position<K(==), V>(s: seq<(K, V)>, k: K): (i: nat)
    ensures i <= |s|
    ensures i < |s| ==> s[i].0 == k
    ensures forall j :: 0 <= j < i ==> s[j].0 != k
  {
    if s == [] then 0
    else if s[0].0 == k then 0
    else 1 + Position(s[1..], k)
  }

  predicate Has<K(==), V>(s: seq<(K, V)>, k: K) {
    Position(s, k) < |s|
  }

  function Lookup<K(==), V>(s: seq<(K, V)>, k: K): Option<V> {
    var i := Position(s, k);
    if i < |s| then Some(s[i].1) else None
  }

  /** The list without its first entry for `k`. */
  function Without<K(==), V>(s: seq<(K, V)>, k: K): seq<(K, V)> {
    var i := Position(s, k);
    if i < |s| then s[..i] + s[i + 1..] else s
  }

  /** The list with `k` moved (or added) to the back, carrying `v`. */
  function PutBack<K(==), V>(s: seq<(K, V)>, k: K, v: V): seq<(K, V)> {
    Without(s, k) + [(k, v)]
  }

  /** The list with `k` moved (or added) to the front, carrying `v`. */
  function PutFront<K(==), V>(s: seq<(K, V)>, k: K, v: V): seq<(K, V)> {
    [(k, v)] + Without(s, k)
  }

  /** The list with `k`, when present, moved to the back unchanged. */
  function Touch<K(==), V>(s: seq<(K, V)>, k: K): seq<(K, V)> {
    match Lookup(s, k)
    case Some(v) => PutBack(s, k, v)
    case None => s
  }

  /** The list with `k`, when present, moved to the front unchanged. */
  function TouchFront<K(==), V>(s: seq<(K, V)>, k: K): seq<(K, V)> {
    match Lookup(s, k)
    case Some(v) => PutFront(s, k, v)
    case None => s
  }

  function KeySeq<K, V>(s: seq<(K, V)>): (ks: seq<K>)
    ensures |ks| == |s|
    ensures forall i :: 0 <= i < |s| ==> ks[i] == s[i].0
  {
    seq(|s|, i requires 0 <= i < |s| => s[i].0)
  }

  lemma PositionAt<K, V>(s: seq<(K, V)>, i: nat)
    requires Distinct(s) && i < |s|
    ensures Position(s, s[i].0) == i
  {
  }

  /** In a list of distinct keys, looking a key up and finding its pair are the same. */
  lemma LookupMember<K, V>(s: seq<(K, V)>, k: K)
    requires Distinct(s)
    ensures forall v :: (k, v) in s <==> Lookup(s, k) == Some(v)
    ensures Has(s, k) <==> Lookup(s, k).Some?
    ensures Has(s, k) <==> k in KeySeq(s)
  {
    forall v | (k, v) in s
      ensures Lookup(s, k) == Some(v)
    {
      var i :| 0 <= i < |s| && s[i] == (k, v);
      PositionAt(s, i);
    }
    if Has(s, k) {
      assert KeySeq(s)[Position(s, k)] == k;
    }
  }

  lemma WithoutMember<K, V>(s: seq<(K, V)>, k: K)
    requires Distinct(s)
    ensures Distinct(Without(s, k))
    ensures forall p :: p in Without(s, k) <==> p in s && p.0 != k
    ensures |Without(s, k)| == if Has(s, k) then |s| - 1 else |s|
  {
    var i, r := Position(s, k), Without(s, k);
    if i < |s| {
      assert s == s[..i] + [s[i]] + s[i + 1..];
      forall p | p in s && p.0 != k
        ensures p in r
      {
        assert p in s[..i] || p in s[i + 1..];
      }
    }
  }

  lemma WithoutAt<K, V>(a: seq<(K, V)>, p: (K, V), b: seq<(K, V)>)
    requires Distinct(a + [p] + b)
    ensures Without(a + [p] + b, p.0) == a + b
  {
    var s := a + [p] + b;
    assert s[|a|] == p;
    PositionAt(s, |a|);
  }

  /** What every edit makes of a list that holds `k` between `a` and `b`. */
  lemma ListMoves<K, V>(a: seq<(K, V)>, k: K, e: V, b: seq<(K, V)>, f: V)
    requires Distinct(a + [(k, e)] + b)
    ensures var s := a + [(k, e)] + b;
            && Has(s, k) && Lookup(s, k) == Some(e) && Without(s, k) == a + b
            && Touch(s, k) == a + b + [(k, e)] && TouchFront(s, k) == [(k, e)] + a + b
            && PutBack(s, k, f) == a + b + [(k, f)] && PutFront(s, k, f) == [(k, f)] + a + b
  {
    var s := a + [(k, e)] + b;
    assert s[|a|] == (k, e);
    PositionAt(s, |a|);
    WithoutAt(a, (k, e), b);
    assert [(k, e)] + (a + b) == [(k, e)] + a + b && [(k, f)] + (a + b) == [(k, f)] + a + b;
  }

  /** And of one that does not hold it. */
  lemma AbsentMoves<K, V>(s: seq<(K, V)>, k: K, f: V)
    requires !Has(s, k)
    ensures Lookup(s, k) == None && Without(s, k) == s && Touch(s, k) == s && TouchFront(s, k) == s
    ensures PutBack(s, k, f) == s + [(k, f)] && PutFront(s, k, f) == [(k, f)] + s
  {
  }

  /** Looking up in a list after the operations that edit it. */
  lemma LookupWithout<K, V>(s: seq<(K, V)>, k: K, q: K)
    requires Distinct(s)
    ensures Lookup(Without(s, k), q) == if q == k then None else Lookup(s, q)
  {
    WithoutMember(s, k);
    LookupMember(s, q);
    LookupMember(Without(s, k), q);
    if q != k && Lookup(s, q).Some? {
      assert (q, Lookup(s, q).value) in s;
    }
  }

  lemma PutBackMember<K, V>(s: seq<(K, V)>, k: K, v: V)
    requires Distinct(s)
    ensures Distinct(PutBack(s, k, v))
    ensures forall p :: p in PutBack(s, k, v) <==> p == (k, v) || (p in s && p.0 != k)
    ensures |PutBack(s, k, v)| == if Has(s, k) then |s| else |s| + 1
  {
    WithoutMember(s, k);
    var r := Without(s, k);
    forall i | 0 <= i < |r|
      ensures r[i].0 != k
    {
      assert r[i] in r;
    }
  }

  lemma LookupPutBack<K, V>(s: seq<(K, V)>, k: K, v: V, q: K)
    requires Distinct(s)
    ensures Lookup(PutBack(s, k, v), q) == if q == k then Some(v) else Lookup(s, q)
  {
    PutBackMember(s, k, v);
    LookupMember(s, q);
    LookupMember(PutBack(s, k, v), q);
    if q == k {
      assert (k, v) in PutBack(s, k, v);
    } else if Lookup(s, q).Some? {
      assert (q, Lookup(s, q).value) in s;
    }
  }

  lemma LookupTouch<K, V>(s: seq<(K, V)>, k: K, q: K)
    requires Distinct(s)
    ensures Distinct(Touch(s, k)) && |Touch(s, k)| == |s|
    ensures Lookup(Touch(s, k), q) == Lookup(s, q)
    ensures forall p :: p in Touch(s, k) <==> p in s
  {
    LookupMember(s, k);
    match Lookup(s, k) {
      case Some(v) =>
        PutBackMember(s, k, v);
        LookupPutBack(s, k, v, q);
        assert (k, v) in s;
        forall p | p in s
          ensures p in Touch(s, k)
        {
          if p.0 == k {
            assert (k, p.1) in s;
          }
        }
      case None =>
    }
  }

  /** Cutting a list in two splits its keys between the parts. */
  lemma LookupDrop<K, V>(s: seq<(K, V)>, n: nat, q: K)
    requires Distinct(s) && n <= |s|
    ensures Distinct(s[n..]) && Distinct(s[..n])
    ensures q in KeySeq(s[..n]) ==> Lookup(s[n..], q) == None
    ensures q !in KeySeq(s[..n]) ==> Lookup(s[n..], q) == Lookup(s, q)
  {
    LookupMember(s, q);
    LookupMember(s[n..], q);
    LookupMember(s[..n], q);
    assert s == s[..n] + s[n..];
    if q in KeySeq(s[..n]) {
      var i :| 0 <= i < n && KeySeq(s[..n])[i] == q;
      assert s[i].0 == q;
    } else if Lookup(s, q).Some? {
      var p := (q, Lookup(s, q).value);
      assert p in s && p !in s[..n];
      assert p in s[n..];
    }
  }
}
