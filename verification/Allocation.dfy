/** How partition weights become partition capacities: the largest-remainder method
    over real arithmetic. Partitions are numbered in the order of their names. */
module Allocation {
  const LEAST: nat := 16

  function Sum(s: seq<nat>): nat {
    if s == [] then 0 else Sum(s[..|s| - 1]) + s[|s| - 1]
  }

  function Total(ws: seq<real>): real {
    if ws == [] then 0.0 else Total(ws[..|ws| - 1]) + ws[|ws| - 1]
  }

  /** Negative weights count as zero; the rest are scaled to add up to one. */
  function Normalise(raw: seq<real>): (ws: seq<real>)
    ensures |ws| == |raw|
  {
    var clamped := seq(|raw|, i requires 0 <= i < |raw| => if raw[i] < 0.0 then 0.0 else raw[i]);
    var total := Total(clamped);
    Scaled(clamped, if total > 0.0 then total else 1.0)
  }

  function Scaled(ws: seq<real>, d: real): (r: seq<real>)
    requires d != 0.0
    ensures |r| == |ws|
  {
    seq(|ws|, i requires 0 <= i < |ws| => ws[i] / d)
  }

  ghost predicate Normalised(ws: seq<real>) {
    && (forall i :: 0 <= i < |ws| ==> ws[i] >= 0.0)
    && (Total(ws) == 1.0 || forall i :: 0 <= i < |ws| ==> ws[i] == 0.0)
  }

  lemma {:induction false} TotalScaled(ws: seq<real>, d: real)
    requires d != 0.0
    ensures Total(Scaled(ws, d)) == Total(ws) / d
  {
    if ws != [] {
      var n := |ws| - 1;
      TotalScaled(ws[..n], d);
      assert Scaled(ws, d)[..n] == Scaled(ws[..n], d);
    }
  }

  lemma {:induction false} TotalPositive(ws: seq<real>)
    requires forall i :: 0 <= i < |ws| ==> ws[i] >= 0.0
    ensures Total(ws) >= 0.0
    ensures Total(ws) == 0.0 ==> forall i :: 0 <= i < |ws| ==> ws[i] == 0.0
  {
    if ws != [] {
      TotalPositive(ws[..|ws| - 1]);
    }
  }

  /** The sum of the positive weights. */
  function PositiveSum(raw: seq<real>): (s: real)
    ensures s >= 0.0
  {
    if raw == [] then 0.0
    else PositiveSum(raw[..|raw| - 1]) + if raw[|raw| - 1] > 0.0 then raw[|raw| - 1] else 0.0
  }

  lemma {:induction false} ClampedTotal(raw: seq<real>, clamped: seq<real>)
    requires |clamped| == |raw| && forall i :: 0 <= i < |raw| ==> clamped[i] == if raw[i] < 0.0 then 0.0 else raw[i]
    ensures Total(clamped) == PositiveSum(raw)
  {
    if raw != [] {
      ClampedTotal(raw[..|raw| - 1], clamped[..|raw| - 1]);
    }
  }

  /** Every positive weight becomes its part of the sum of the positive ones, every other weight
      zero. */
  lemma NormalisedWeight(raw: seq<real>, i: nat)
    requires i < |raw|
    ensures Normalise(raw)[i] == if raw[i] > 0.0 && PositiveSum(raw) > 0.0 then raw[i] / PositiveSum(raw) else 0.0
    ensures raw[i] > 0.0 ==> PositiveSum(raw) > 0.0
  {
    var clamped := seq(|raw|, i requires 0 <= i < |raw| => if raw[i] < 0.0 then 0.0 else raw[i]);
    ClampedTotal(raw, clamped);
    TotalPositive(clamped);
    assert raw[i] > 0.0 ==> clamped[i] > 0.0;
    var d := if Total(clamped) > 0.0 then Total(clamped) else 1.0;
    if raw[i] <= 0.0 {
      NothingOf(d);
    }
  }

  lemma NothingOf(d: real)
    requires d != 0.0
    ensures 0.0 / d == 0.0
  {
  }

  lemma NormaliseCorrect(raw: seq<real>)
    ensures Normalised(Normalise(raw))
    ensures (exists i :: 0 <= i < |raw| && raw[i] > 0.0) ==> Total(Normalise(raw)) == 1.0
  {
    var clamped := seq(|raw|, i requires 0 <= i < |raw| => if raw[i] < 0.0 then 0.0 else raw[i]);
    TotalPositive(clamped);
    var d := if Total(clamped) > 0.0 then Total(clamped) else 1.0;
    TotalScaled(clamped, d);
    Quotient(d);
    forall i | 0 <= i < |raw|
      ensures Normalise(raw)[i] >= 0.0 && (clamped[i] == 0.0 ==> Normalise(raw)[i] == 0.0)
    {
      DivPositive(clamped[i], d);
    }
    forall i | 0 <= i < |raw| && raw[i] > 0.0
      ensures Total(clamped) > 0.0
    {
      assert clamped[i] > 0.0;
    }
  }

  lemma Quotient(d: real)
    requires d != 0.0
    ensures d / d == 1.0
  {
  }

  lemma DivPositive(a: real, d: real)
    requires a >= 0.0 && d > 0.0
    ensures a / d >= 0.0
  {
  }

  // ---- ordering by fractional part ----

  datatype Quota = Quota(part: nat, amount: real)

  function Frac(x: real): real {
    x - x.Floor as real
  }

  /** Larger fractional part first; equal ones in the order of the partitions. */
  predicate Before(a: Quota, b: Quota) {
    Frac(a.amount) > Frac(b.amount) || (Frac(a.amount) == Frac(b.amount) && a.part < b.part)
  }

  /** The exact quota of a weight. */
  function Exact(amount: nat, w: real): real {
    amount as real * w
  }

  function Quotas(ws: seq<real>, amount: nat): (q: seq<Quota>)
    ensures |q| == |ws| && forall i :: 0 <= i < |q| ==> q[i] == Quota(i, Exact(amount, ws[i]))
  {
    seq(|ws|, i requires 0 <= i < |ws| => Quota(i, Exact(amount, ws[i])))
  }

  /** A stable sort by descending fractional part. */
  function Sorted(q: seq<Quota>): (r: seq<Quota>)
    ensures |r| == |q|
  {
    if q == [] then [] else Inserted(Sorted(q[..|q| - 1]), q[|q| - 1])
  }

  function Inserted(s: seq<Quota>, x: Quota): (r: seq<Quota>)
    ensures |r| == |s| + 1
  {
    if s == [] then [x]
    else if Frac(s[|s| - 1].amount) >= Frac(x.amount) then s + [x]
    else Inserted(s[..|s| - 1], x) + [s[|s| - 1]]
  }

  ghost predicate Ranked(s: seq<Quota>) {
    forall i, j :: 0 <= i < j < |s| ==> Before(s[i], s[j])
  }

  lemma {:induction false} InsertedRanked(s: seq<Quota>, x: Quota)
    requires Ranked(s) && forall y :: y in s ==> y.part < x.part
    ensures Ranked(Inserted(s, x)) && multiset(Inserted(s, x)) == multiset(s) + multiset{x}
  {
    hide Frac;
    if s != [] {
      var n := |s| - 1;
      assert s == s[..n] + [s[n]];
      if Frac(s[n].amount) >= Frac(x.amount) {
        RankedBack(s, x);
      } else {
        InsertedRanked(s[..n], x);
        RankedFront(Inserted(s[..n], x), s[..n], x, s[n]);
      }
    }
  }

  lemma RankedBack(s: seq<Quota>, x: Quota)
    requires Ranked(s) && s != [] && Frac(s[|s| - 1].amount) >= Frac(x.amount)
    requires forall y :: y in s ==> y.part < x.part
    ensures Ranked(s + [x])
  {
    hide Frac;
    forall i | 0 <= i < |s|
      ensures Before(s[i], x)
    {
      assert s[i] in s;
      assert i < |s| - 1 ==> Before(s[i], s[|s| - 1]);
    }
  }

  lemma RankedFront(r: seq<Quota>, front: seq<Quota>, x: Quota, last: Quota)
    requires Ranked(r) && Ranked(front + [last]) && Before(x, last)
    requires multiset(r) == multiset(front) + multiset{x}
    ensures Ranked(r + [last])
  {
    hide Before;
    forall i | 0 <= i < |r|
      ensures Before(r[i], last)
    {
      assert r[i] in multiset(front) + multiset{x};
      if r[i] != x {
        var j :| 0 <= j < |front| && front[j] == r[i];
        assert (front + [last])[j] == r[i] && (front + [last])[|front|] == last;
      }
    }
  }

  function FracSum(q: seq<Quota>): real {
    if q == [] then 0.0 else FracSum(q[..|q| - 1]) + Frac(q[|q| - 1].amount)
  }

  lemma {:induction false} InsertedSum(s: seq<Quota>, x: Quota)
    ensures FracSum(Inserted(s, x)) == FracSum(s) + Frac(x.amount)
  {
    hide Frac;
    if s != [] {
      var n := |s| - 1;
      if Frac(s[n].amount) >= Frac(x.amount) {
        assert (s + [x])[..|s|] == s;
      } else {
        var r := Inserted(s[..n], x);
        InsertedSum(s[..n], x);
        assert (r + [s[n]])[..|r|] == r;
      }
    }
  }

  lemma {:induction false} SortedRanked(q: seq<Quota>)
    requires forall i :: 0 <= i < |q| ==> q[i].part == i
    ensures Ranked(Sorted(q)) && multiset(Sorted(q)) == multiset(q) && FracSum(Sorted(q)) == FracSum(q)
  {
    hide Frac, Ranked, Inserted;
    if q != [] {
      var n := |q| - 1;
      SortedRanked(q[..n]);
      forall y | y in Sorted(q[..n])
        ensures y.part < n
      {
        assert y in multiset(q[..n]);
      }
      InsertedRanked(Sorted(q[..n]), q[n]);
      InsertedSum(Sorted(q[..n]), q[n]);
      assert q == q[..n] + [q[n]];
    } else {
      EmptyRanked();
    }
  }

  lemma EmptyRanked()
    ensures Ranked([])
  {
  }

  function Order(q: seq<Quota>): (order: seq<nat>)
    ensures |order| == |q| && forall i :: 0 <= i < |q| ==> order[i] == Sorted(q)[i].part
  {
    var s := Sorted(q);
    seq(|q|, i requires 0 <= i < |s| => s[i].part)
  }

  /** Every partition has exactly one place in the order. */
  ghost predicate Covers(order: seq<nat>, n: nat) {
    && |order| == n
    && (forall p :: 0 <= p < n ==> order[p] < n)
    && (forall p, p' :: 0 <= p < p' < n ==> order[p] != order[p'])
    && (forall g :: 0 <= g < n ==> g in order)
  }

  lemma OrderCovers(q: seq<Quota>)
    requires forall i :: 0 <= i < |q| ==> q[i].part == i
    ensures Covers(Order(q), |q|)
    ensures forall p :: 0 <= p < |q| ==> Order(q)[p] < |q| && Sorted(q)[p] == q[Order(q)[p]]
  {
    SortedRanked(q);
    var s, order := Sorted(q), Order(q);
    forall p | 0 <= p < |q|
      ensures order[p] < |q| && s[p] == q[order[p]]
    {
      assert s[p] in multiset(q);
    }
    forall g | 0 <= g < |q|
      ensures g in order
    {
      assert q[g] in multiset(s);
      var p :| 0 <= p < |s| && s[p] == q[g];
      assert order[p] == g;
    }
    forall p, p' | 0 <= p < p' < |q|
      ensures order[p] != order[p']
    {
      assert Before(s[p], s[p']);
    }
  }

  // ---- handing out what rounding left over ----

  /** One more for each of the first `k` places, round and round. */
  function Bumped(s: seq<nat>, order: seq<nat>, k: nat): (r: seq<nat>)
    requires Covers(order, |s|) && |s| > 0
    ensures |r| == |s|
  {
    if k == 0 then s
    else
      var t := Bumped(s, order, k - 1);
      var g := order[(k - 1) % |s|];
      t[g := t[g] + 1]
  }

  /** How many of the first `k` turns fall on place `p`. */
  function Turns(p: nat, k: nat, n: nat): nat
    requires n > 0
  {
    if k == 0 then 0 else Turns(p, k - 1, n) + if (k - 1) % n == p then 1 else 0
  }

  lemma {:induction false} BumpedAt(s: seq<nat>, order: seq<nat>, k: nat, p: nat)
    requires Covers(order, |s|) && p < |s|
    ensures Bumped(s, order, k)[order[p]] == s[order[p]] + Turns(p, k, |s|)
  {
    if k > 0 {
      BumpedAt(s, order, k - 1, p);
    }
  }

  lemma {:induction false} TurnsFew(p: nat, k: nat, n: nat)
    requires k <= n && p < n
    ensures Turns(p, k, n) == if p < k then 1 else 0
  {
    if k > 0 {
      TurnsFew(p, k - 1, n);
      SmallMod(k - 1, n);
    }
  }

  lemma SmallMod(a: nat, n: nat)
    requires a < n
    ensures a % n == a
  {
  }

  lemma {:induction false} TurnsMany(p: nat, k: nat, n: nat)
    requires p < n
    ensures Turns(p, k, n) == k / n + if p < k % n then 1 else 0
  {
    if k > 0 {
      TurnsMany(p, k - 1, n);
      NextMod(k - 1, n);
    }
  }

  lemma NextMod(a: nat, n: nat)
    requires n > 0
    ensures a % n < n - 1 ==> (a + 1) / n == a / n && (a + 1) % n == a % n + 1
    ensures a % n == n - 1 ==> (a + 1) / n == a / n + 1 && (a + 1) % n == 0
  {
    var q, r := a / n, a % n;
    assert a == q * n + r;
    if r < n - 1 {
      DivModUnique(a + 1, n, q, r + 1);
    } else {
      assert a + 1 == (q + 1) * n + 0;
      DivModUnique(a + 1, n, q + 1, 0);
    }
  }

  lemma DivModUnique(a: nat, n: nat, q: nat, r: nat)
    requires n > 0 && a == q * n + r && r < n
    ensures a / n == q && a % n == r
  {
    var d := a / n - q;
    assert d * n == r - a % n;
    Multiple(d, n);
  }

  lemma Multiple(d: int, n: nat)
    ensures d >= 1 ==> d * n >= n
    ensures d <= -1 ==> d * n <= 0 - n
  {
  }

  lemma {:induction false} SumUpdate(s: seq<nat>, g: nat, v: nat)
    requires g < |s|
    ensures Sum(s[g := v]) == Sum(s) - s[g] + v
  {
    var n := |s| - 1;
    if g == n {
      assert s[g := v][..n] == s[..n];
    } else {
      SumUpdate(s[..n], g, v);
      assert s[g := v][..n] == s[..n][g := v];
    }
  }

  lemma {:induction false} BumpedSum(s: seq<nat>, order: seq<nat>, k: nat)
    requires Covers(order, |s|) && |s| > 0
    ensures Sum(Bumped(s, order, k)) == Sum(s) + k
  {
    if k > 0 {
      BumpedSum(s, order, k - 1);
      var t, g := Bumped(s, order, k - 1), order[(k - 1) % |s|];
      SumUpdate(t, g, t[g] + 1);
    }
  }

  // ---- taking back what the minimum of one gave too much ----

  /** The first place from `i` on, within `tries`, that still has more than one. */
  function NextAbove(s: seq<nat>, order: seq<nat>, i: nat, tries: nat): (j: nat)
    requires Covers(order, |s|) && |s| > 0
    ensures i <= j <= i + tries
    ensures j < i + tries ==> s[order[j % |s|]] > 1
    ensures forall t :: i <= t < j ==> s[order[t % |s|]] <= 1
    decreases tries
  {
    if tries == 0 then i
    else if s[order[i % |s|]] > 1 then i
    else NextAbove(s, order, i + 1, tries - 1)
  }

  function Trimmed(s: seq<nat>, order: seq<nat>, i: nat, need: nat): (r: seq<nat>)
    requires Covers(order, |s|) && |s| > 0
    ensures |r| == |s|
    decreases need
  {
    if need == 0 then s
    else
      var j := NextAbove(s, order, i, |s|);
      if j == i + |s| then s
      else
        var g := order[j % |s|];
        Trimmed(s[g := s[g] - 1], order, j, need - 1)
  }

  /** Some turn among any `n` in a row falls on place `p`. */
  lemma SomeTurn(i: nat, p: nat, n: nat) returns (t: nat)
    requires p < n
    ensures i <= t < i + n && t % n == p
  {
    var q, r := i / n, i % n;
    assert i == q * n + r;
    if p >= r {
      t := q * n + p;
      DivModUnique(t, n, q, p);
    } else {
      t := (q + 1) * n + p;
      assert t == q * n + n + p;
      DivModUnique(t, n, q + 1, p);
    }
  }

  lemma NoneAbove(s: seq<nat>, order: seq<nat>, i: nat)
    requires Covers(order, |s|) && |s| > 0 && NextAbove(s, order, i, |s|) == i + |s|
    ensures forall g :: 0 <= g < |s| ==> s[g] <= 1
  {
    forall g | 0 <= g < |s|
      ensures s[g] <= 1
    {
      assert g in order;
      var p :| 0 <= p < |s| && order[p] == g;
      var t := SomeTurn(i, p, |s|);
    }
  }

  lemma {:induction false} SumAtLeast(s: seq<nat>)
    requires forall g :: 0 <= g < |s| ==> s[g] >= 1
    ensures Sum(s) >= |s|
    ensures (forall g :: 0 <= g < |s| ==> s[g] <= 1) ==> Sum(s) == |s|
  {
    if s != [] {
      SumAtLeast(s[..|s| - 1]);
    }
  }

  lemma {:induction false} TrimmedSum(s: seq<nat>, order: seq<nat>, i: nat, need: nat)
    requires Covers(order, |s|) && |s| > 0 && need <= Sum(s)
    requires forall g :: 0 <= g < |s| ==> s[g] >= 1
    ensures var r := Trimmed(s, order, i, need);
            && (forall g :: 0 <= g < |s| ==> 1 <= r[g] <= s[g])
            && Sum(r) == if Sum(s) - need < |s| then |s| else Sum(s) - need
    decreases need
  {
    hide Sum, Trimmed, Covers, NextAbove;
    SumAtLeast(s);
    if need > 0 {
      TrimStep(s, order, i, need);
      var j := NextAbove(s, order, i, |s|);
      if j == i + |s| {
        NoneAbove(s, order, i);
      } else {
        var g := order[j % |s|];
        SumUpdate(s, g, s[g] - 1);
        TrimmedSum(s[g := s[g] - 1], order, j, need - 1);
      }
    } else {
      TrimDone(s, order, i);
    }
  }

  // ---- the allocation ----

  function Floors(ws: seq<real>, amount: nat, low: nat): (f: seq<nat>)
    requires forall i :: 0 <= i < |ws| ==> ws[i] >= 0.0
    ensures |f| == |ws|
    ensures forall i :: 0 <= i < |ws| ==>
              (var w := Exact(amount, ws[i]).Floor; w >= 0 && f[i] == if w < low then low else w)
  {
    FloorsPositive(ws, amount);
    seq(|ws|, i requires 0 <= i < |ws| && Exact(amount, ws[i]).Floor >= 0 =>
      var w := Exact(amount, ws[i]).Floor; if w < low then low else w)
  }

  lemma FloorsPositive(ws: seq<real>, amount: nat)
    requires forall i :: 0 <= i < |ws| ==> ws[i] >= 0.0
    ensures forall i :: 0 <= i < |ws| ==> Exact(amount, ws[i]).Floor >= 0
  {
    forall i | 0 <= i < |ws|
      ensures Exact(amount, ws[i]) >= 0.0
    {
    }
  }

  /** The share of every partition. */
  function Shares(ws: seq<real>, cap: nat): (r: seq<nat>)
    requires Normalised(ws)
    ensures |r| == |ws|
  {
    var n := |ws|;
    if n == 0 then []
    else if cap >= LEAST * n then
      var rem := cap - LEAST * n;
      var floored := Floors(ws, rem, 0);
      OrderCovers(Quotas(ws, rem));
      PlusLeast(Bumped(floored, Order(Quotas(ws, rem)), Rest(rem, Sum(floored))))
    else
      var floored := Floors(ws, cap, 1);
      OrderCovers(Quotas(ws, cap));
      var order := Order(Quotas(ws, cap));
      if Sum(floored) <= cap then Bumped(floored, order, cap - Sum(floored))
      else Trimmed(floored, order, 0, Sum(floored) - cap)
  }

  function Rest(a: nat, b: nat): nat {
    if a < b then 0 else a - b
  }

  function PlusLeast(s: seq<nat>): (r: seq<nat>)
    ensures |r| == |s| && forall i :: 0 <= i < |s| ==> r[i] == LEAST + s[i]
  {
    seq(|s|, i requires 0 <= i < |s| => LEAST + s[i])
  }

  method Allocate(ws: seq<real>, cap: nat) returns (shares: seq<nat>)
    requires Normalised(ws)
    ensures shares == Shares(ws, cap)
  {
    hide Normalised, Quotas, Sum, Floors, Order, Bumped, Trimmed, Covers;
    var n := |ws|;
    if n == 0 {
      return [];
    }
    NonNegative(ws);
    if cap >= LEAST * n {
      var rem := cap - LEAST * n;
      var floored := Floors(ws, rem, 0);
      OrderCovers(Quotas(ws, rem));
      var more := Spread(floored, Order(Quotas(ws, rem)), Rest(rem, Sum(floored)));
      shares := PlusLeast(more);
    } else {
      var floored := Floors(ws, cap, 1);
      OrderCovers(Quotas(ws, cap));
      var diff := cap - Sum(floored);
      if diff >= 0 {
        shares := Spread(floored, Order(Quotas(ws, cap)), diff);
      } else {
        shares := TakeBack(floored, Order(Quotas(ws, cap)), diff);
      }
    }
  }

  lemma NonNegative(ws: seq<real>)
    requires Normalised(ws)
    ensures forall i :: 0 <= i < |ws| ==> ws[i] >= 0.0
  {
  }

  method Spread(s: seq<nat>, order: seq<nat>, extra: nat) returns (r: seq<nat>)
    requires Covers(order, |s|) && |s| > 0
    ensures r == Bumped(s, order, extra)
  {
    r := s;
    var leftover, i := extra, 0;
    while leftover > 0
      invariant 0 <= i <= extra && leftover == extra - i
      invariant r == Bumped(s, order, i)
    {
      var g := order[i % |s|];
      r := r[g := r[g] + 1];
      leftover := leftover - 1;
      i := i + 1;
    }
  }

  method TakeBack(s: seq<nat>, order: seq<nat>, short: int) returns (r: seq<nat>)
    requires Covers(order, |s|) && |s| > 0 && short < 0
    ensures r == Trimmed(s, order, 0, -short)
  {
    hide Covers, NextAbove, Trimmed;
    r := s;
    var diff, i: nat := short, 0;
    while diff < 0
      invariant short <= diff <= 0 && |r| == |s|
      invariant Trimmed(s, order, 0, -short) == Trimmed(r, order, i, -diff)
    {
      TrimStep(r, order, i, -diff);
      var j := FirstAbove(r, order, i);
      if j == i + |s| {
        return;
      }
      i := j;
      var g := order[i % |s|];
      r := r[g := r[g] - 1];
      diff := diff + 1;
    }
    TrimDone(r, order, i);
  }

  lemma TrimStep(s: seq<nat>, order: seq<nat>, i: nat, need: nat)
    requires Covers(order, |s|) && |s| > 0 && need > 0
    ensures var j := NextAbove(s, order, i, |s|);
            && j % |s| < |order| && order[j % |s|] < |s|
            && if j == i + |s| then Trimmed(s, order, i, need) == s
               else
                 var g := order[j % |s|];
                 && s[g] > 1
                 && Trimmed(s, order, i, need) == Trimmed(s[g := s[g] - 1], order, j, need - 1)
  {
  }

  lemma TrimDone(s: seq<nat>, order: seq<nat>, i: nat)
    requires Covers(order, |s|) && |s| > 0
    ensures Trimmed(s, order, i, 0) == s
  {
  }

  method FirstAbove(s: seq<nat>, order: seq<nat>, start: nat) returns (i: nat)
    requires Covers(order, |s|) && |s| > 0
    ensures i == NextAbove(s, order, start, |s|)
  {
    hide Covers;
    i := start;
    var tries := 0;
    while tries < |s|
      invariant 0 <= tries <= |s| && i == start + tries
      invariant NextAbove(s, order, start, |s|) == NextAbove(s, order, i, |s| - tries)
    {
      PlaceIn(order, |s|, i);
      if s[order[i % |s|]] > 1 {
        return;
      }
      i := i + 1;
      tries := tries + 1;
    }
  }

  lemma PlaceIn(order: seq<nat>, n: nat, i: nat)
    requires Covers(order, n) && n > 0
    ensures |order| == n && order[i % n] < n
  {
  }

  // ---- what the shares are ----

  lemma {:induction false} FracSplit(ws: seq<real>, amount: nat)
    requires forall i :: 0 <= i < |ws| ==> ws[i] >= 0.0
    ensures Exact(amount, Total(ws)) == Sum(Floors(ws, amount, 0)) as real + FracSum(Quotas(ws, amount))
  {
    if ws != [] {
      var n := |ws| - 1;
      FracSplit(ws[..n], amount);
      FloorsLast(ws, amount);
      QuotasLast(ws, amount);
      TotalLast(ws);
      hide *;
      var x := Exact(amount, ws[n]);
      Distribute(amount, Total(ws[..n]), ws[n]);
    }
  }

  lemma FloorsLast(ws: seq<real>, amount: nat)
    requires ws != [] && forall i :: 0 <= i < |ws| ==> ws[i] >= 0.0
    ensures var n := |ws| - 1;
            Sum(Floors(ws, amount, 0)) as real == Sum(Floors(ws[..n], amount, 0)) as real
                + Exact(amount, ws[n]).Floor as real
  {
    hide Exact;
    assert Floors(ws, amount, 0)[..|ws| - 1] == Floors(ws[..|ws| - 1], amount, 0);
  }

  lemma QuotasLast(ws: seq<real>, amount: nat)
    requires ws != []
    ensures var n := |ws| - 1;
            FracSum(Quotas(ws, amount)) == FracSum(Quotas(ws[..n], amount)) + Frac(Exact(amount, ws[n]))
    ensures var x := Exact(amount, ws[|ws| - 1]);
            x == x.Floor as real + Frac(x)
  {
    hide Exact;
    assert Quotas(ws, amount)[..|ws| - 1] == Quotas(ws[..|ws| - 1], amount);
  }

  lemma TotalLast(ws: seq<real>)
    requires ws != []
    ensures Total(ws) == Total(ws[..|ws| - 1]) + ws[|ws| - 1]
  {
  }

  lemma Distribute(a: nat, b: real, c: real)
    ensures Exact(a, b + c) == Exact(a, b) + Exact(a, c)
  {
  }

  lemma {:induction false} FracSumBelow(s: seq<Quota>, k: nat)
    requires Ranked(s) && k <= |s|
    requires forall j :: k <= j < |s| ==> Frac(s[j].amount) == 0.0
    ensures 0.0 <= FracSum(s) <= k as real && (k > 0 ==> FracSum(s) < k as real)
  {
    if s != [] {
      var n := |s| - 1;
      if k == |s| {
        FracSumBelow(s[..n], k - 1);
      } else {
        FracSumBelow(s[..n], k);
      }
    }
  }

  /** If place `k - 1` has no fractional part, the parts add up to less than `k`. */
  lemma NoneFrom(s: seq<Quota>, k: nat)
    requires Ranked(s)
    ensures 0 < k <= |s| && Frac(s[k - 1].amount) <= 0.0 ==> FracSum(s) < k as real
  {
    if 0 < k <= |s| && Frac(s[k - 1].amount) <= 0.0 {
      forall j | k - 1 <= j < |s|
        ensures Frac(s[j].amount) == 0.0
      {
        assert j > k - 1 ==> Before(s[k - 1], s[j]);
      }
      FracSumBelow(s, k - 1);
    }
  }

  /** The places that get the leftover all have a fractional part to be rounded up. */
  lemma LeftoverFits(s: seq<Quota>, k: nat)
    requires Ranked(s) && k as real <= FracSum(s)
    ensures k <= |s| && forall p :: 0 <= p < k ==> Frac(s[p].amount) > 0.0
  {
    FracSumBelow(s, |s|);
    NoneFrom(s, k);
    assert forall p :: 0 <= p < k - 1 ==> Before(s[p], s[k - 1]);
  }

  ghost predicate RoundedUp(share: nat, q: Quota, low: nat) {
    share == low + q.amount.Floor + 1
  }

  /** The first `k` places get one more, the others none. */
  lemma BumpedOnce(s: seq<nat>, q: seq<Quota>, k: nat, p: nat)
    requires |s| == |q| > 0 && k <= |q| && p < |q|
    requires forall i :: 0 <= i < |q| ==> q[i].part == i
    requires Covers(Order(q), |q|)
    ensures Bumped(s, Order(q), k)[Order(q)[p]] == s[Order(q)[p]] + if p < k then 1 else 0
  {
    BumpedAt(s, Order(q), k, p);
    TurnsFew(p, k, |s|);
  }

  /** With some positive weight, rounding leaves fewer units than there are quotas
      to round up. */
  lemma LeftoverOf(ws: seq<real>, amount: nat)
    requires Normalised(ws) && Total(ws) == 1.0
    ensures Sum(Floors(ws, amount, 0)) <= amount
    ensures (amount - Sum(Floors(ws, amount, 0))) as real == FracSum(Sorted(Quotas(ws, amount)))
  {
    FracSplit(ws, amount);
    SortedRanked(Quotas(ws, amount));
    FracSumBelow(Sorted(Quotas(ws, amount)), |ws|);
  }

  function Portion(n: nat, w: real): real {
    n as real * w
  }

  /** Partition `i` with the exact quota `x` has 16 and its quota rounded down, or up unless it is
      whole; if it is rounded up and `j` is not, it has the larger fractional part, or the same
      and comes first by name. */
  predicate ByRemainder(share: nat, i: nat, x: real, share': nat, j: nat, y: real) {
    && (share == 16 + x.Floor || (share == 17 + x.Floor && x > x.Floor as real))
    && (share == 17 + x.Floor && share' == 16 + y.Floor ==>
          || x - x.Floor as real > y - y.Floor as real
          || (x - x.Floor as real == y - y.Floor as real && i < j))
  }

  /** With room for the minimum everywhere, the shares add up to the capacity; each is
      16 plus its exact quota rounded down or up; and whoever is rounded up comes before
      whoever is not, by fractional part and then by name. */
  lemma LargestRemainder(ws: seq<real>, cap: nat, i: nat, j: nat)
    requires Normalised(ws) && Total(ws) == 1.0 && cap >= LEAST * |ws|
    requires i < |ws| && j < |ws|
    ensures var r, rem := Shares(ws, cap), cap - 16 * |ws|;
            Sum(r) == cap && ByRemainder(r[i], i, Portion(rem, ws[i]), r[j], j, Portion(rem, ws[j]))
  {
    RemainderQuotas(ws, cap, i, j);
    var q := Quotas(ws, cap - LEAST * |ws|);
    Parts(q[i], q[j]);
  }

  /** The parts that decide, spelled out. */
  lemma Parts(a: Quota, b: Quota)
    ensures Before(a, b) <==>
              || a.amount - a.amount.Floor as real > b.amount - b.amount.Floor as real
              || (a.amount - a.amount.Floor as real == b.amount - b.amount.Floor as real && a.part < b.part)
    ensures Frac(a.amount) == a.amount - a.amount.Floor as real
  {
  }

  lemma RemainderQuotas(ws: seq<real>, cap: nat, i: nat, j: nat)
    requires Normalised(ws) && Total(ws) == 1.0 && cap >= LEAST * |ws|
    requires i < |ws| && j < |ws|
    ensures var r, q := Shares(ws, cap), Quotas(ws, cap - LEAST * |ws|);
            && Sum(r) == cap
            && (r[i] == LEAST + q[i].amount.Floor || (RoundedUp(r[i], q[i], LEAST) && Frac(q[i].amount) > 0.0))
            && (RoundedUp(r[i], q[i], LEAST) && !RoundedUp(r[j], q[j], LEAST) ==> Before(q[i], q[j]))
  {
    hide Shares, Frac, Sum, Order, Quotas, Before, Total, Normalised, Exact, Floors;
    var q := Quotas(ws, cap - LEAST * |ws|);
    var a, k := ShareAt(ws, cap, i);
    var b, k' := ShareAt(ws, cap, j);
    PlaceOrder(q, a, b);
    FloorIsQuota(ws, cap - LEAST * |ws|, i);
    FloorIsQuota(ws, cap - LEAST * |ws|, j);
  }

  /** The part of a weight in the sum of the positive ones. */
  function Weight(raw: seq<real>, i: nat): real
    requires i < |raw| && PositiveSum(raw) > 0.0
  {
    if raw[i] > 0.0 then raw[i] / PositiveSum(raw) else 0.0
  }

  lemma WeightIs(raw: seq<real>, i: nat)
    requires i < |raw| && PositiveSum(raw) > 0.0
    ensures Normalise(raw)[i] == Weight(raw, i)
  {
    NormalisedWeight(raw, i);
  }

  /** The same from the configured weights: what is left after 16 each is divided in proportion
      to the positive ones. */
  lemma SharesByWeight(raw: seq<real>, cap: nat, i: nat, j: nat)
    requires PositiveSum(raw) > 0.0 && cap >= 16 * |raw| && i < |raw| && j < |raw|
    ensures Normalised(Normalise(raw))
    ensures var r, rem := Shares(Normalise(raw), cap), cap - 16 * |raw|;
            && Sum(r) == cap
            && ByRemainder(r[i], i, Portion(rem, Weight(raw, i)), r[j], j, Portion(rem, Weight(raw, j)))
  {
    hide Shares, Normalised, Sum, Total, Normalise, PositiveSum, Weight, ByRemainder, Portion;
    NormaliseCorrect(raw);
    var k := SomePositive(raw);
    WeightIs(raw, i);
    WeightIs(raw, j);
    LargestRemainder(Normalise(raw), cap, i, j);
  }

  lemma {:induction false} SomePositive(raw: seq<real>) returns (k: nat)
    requires PositiveSum(raw) > 0.0
    ensures k < |raw| && raw[k] > 0.0
  {
    k := |raw| - 1;
    if raw[k] <= 0.0 {
      k := SomePositive(raw[..k]);
    }
  }

  lemma FloorIsQuota(ws: seq<real>, amount: nat, i: nat)
    requires i < |ws| && Normalised(ws)
    ensures Floors(ws, amount, 0)[i] == Quotas(ws, amount)[i].amount.Floor
  {
  }

  lemma PlaceOrder(q: seq<Quota>, a: nat, b: nat)
    requires a < |q| && b < |q| && forall i :: 0 <= i < |q| ==> q[i].part == i
    ensures Order(q)[a] < |q| && Order(q)[b] < |q|
    ensures a < b ==> Before(q[Order(q)[a]], q[Order(q)[b]])
  {
    SortedRanked(q);
    OrderCovers(q);
  }

  /** The place of a partition in the order decides whether it is rounded up. */
  lemma ShareAt(ws: seq<real>, cap: nat, i: nat) returns (a: nat, k: nat)
    requires Normalised(ws) && Total(ws) == 1.0 && cap >= LEAST * |ws| && i < |ws|
    ensures var rem := cap - LEAST * |ws|;
            var r, q, f := Shares(ws, cap), Quotas(ws, rem), Floors(ws, rem, 0);
            && k == Rest(rem, Sum(f)) && Sum(r) == cap
            && a < |ws| && Order(q)[a] == i
            && r[i] == LEAST + f[i] + (if a < k then 1 else 0)
            && (a < k ==> Frac(q[i].amount) > 0.0)
  {
    var n, rem := |ws|, cap - LEAST * |ws|;
    var f, q := Floors(ws, rem, 0), Quotas(ws, rem);
    k := Rest(rem, Sum(f));
    OrderCovers(q);
    SortedRanked(q);
    LeftoverOf(ws, rem);
    LeftoverFits(Sorted(q), k);
    hide Normalised, Total, Sum, Ranked, Sorted, Bumped, Frac;
    BumpedSum(f, Order(q), k);
    SumPlus(Bumped(f, Order(q), k));
    assert i in Order(q);
    a :| 0 <= a < n && Order(q)[a] == i;
    BumpedOnce(f, q, k, a);
  }

  lemma {:induction false} SumPlus(s: seq<nat>)
    ensures Sum(PlusLeast(s)) == Sum(s) + LEAST * |s|
  {
    if s != [] {
      var n := |s| - 1;
      SumPlus(s[..n]);
      assert PlusLeast(s)[..n] == PlusLeast(s[..n]);
    }
  }

  /** With all weights zero the capacity is dealt out round robin. */
  lemma RoundRobin(ws: seq<real>, cap: nat, i: nat)
    requires Normalised(ws) && (forall i :: 0 <= i < |ws| ==> ws[i] == 0.0) && cap >= LEAST * |ws|
    requires i < |ws|
    ensures var r, n, rem := Shares(ws, cap), |ws|, cap - LEAST * |ws|;
            && Sum(r) == cap
            && r[i] == LEAST + rem / n + if i < rem % n then 1 else 0
  {
    hide Normalised, Total, Sum, Bumped, Trimmed, Exact, Covers, Sorted, Frac, Turns;
    var n, rem := |ws|, cap - LEAST * |ws|;
    var f, q := Floors(ws, rem, 0), Quotas(ws, rem);
    var order, k := Order(q), Rest(rem, Sum(f));
    OrderCovers(q);
    ZeroQuotas(ws, rem);
    SortedAlready(q);
    BumpedSum(f, order, k);
    SumPlus(Bumped(f, order, k));
    BumpedAt(f, order, k, i);
    TurnsMany(i, k, n);
  }

  lemma {:induction false} ZeroQuotas(ws: seq<real>, amount: nat)
    requires forall i :: 0 <= i < |ws| ==> ws[i] == 0.0
    ensures Sum(Floors(ws, amount, 0)) == 0
    ensures forall i :: 0 <= i < |ws| ==> Frac(Quotas(ws, amount)[i].amount) == 0.0 && Floors(ws, amount, 0)[i] == 0
  {
    if ws != [] {
      var n := |ws| - 1;
      ZeroQuotas(ws[..n], amount);
      assert Floors(ws, amount, 0)[..n] == Floors(ws[..n], amount, 0);
      assert Quotas(ws, amount)[..n] == Quotas(ws[..n], amount);
    }
  }

  lemma {:induction false} SortedAlready(q: seq<Quota>)
    requires forall i :: 0 <= i < |q| ==> Frac(q[i].amount) == 0.0
    ensures Sorted(q) == q
  {
    if q != [] {
      SortedAlready(q[..|q| - 1]);
    }
  }

  /** Without that room every share is at least one, and they add up to the capacity
      unless there are more partitions than that. */
  lemma SmallShares(ws: seq<real>, cap: nat)
    requires Normalised(ws) && cap < LEAST * |ws|
    ensures var r := Shares(ws, cap);
            && Sum(r) == (if cap < |ws| then |ws| else cap)
            && forall i :: 0 <= i < |ws| ==> r[i] >= 1
  {
    hide Total, Sum, Bumped, Trimmed, Order, Exact, Covers, Quotas;
    var f, order := Floors(ws, cap, 1), Order(Quotas(ws, cap));
    OrderCovers(Quotas(ws, cap));
    if Sum(f) <= cap {
      SpreadOne(f, order, cap - Sum(f));
    } else {
      TrimmedSum(f, order, 0, Sum(f) - cap);
    }
  }

  /** Taking back goes down the ranking: whoever comes before some place is left with one, and
      whoever comes after it keeps what rounding down gave. */
  lemma {:induction false} TrimmedGreedy(s: seq<nat>, order: seq<nat>, i: nat, need: nat) returns (a: nat)
    requires Covers(order, |s|) && i < |s| && forall g :: 0 <= g < |s| ==> s[g] >= 1
    requires forall p :: 0 <= p < i ==> s[order[p]] == 1
    ensures var r := Trimmed(s, order, i, need);
            && i <= a < |s| && (forall p :: 0 <= p < a ==> r[order[p]] == 1)
            && (forall p :: a < p < |s| ==> r[order[p]] == s[order[p]])
    decreases need
  {
    hide Trimmed, Covers, NextAbove;
    a := i;
    InRange(order, |s|);
    if need > 0 {
      TrimStep(s, order, i, need);
      var j := NextAbove(s, order, i, |s|);
      if j < i + |s| {
        NoWrap(s, order, i);
        TakenOne(s, order, i, j);
        a := TrimmedGreedy(s[order[j] := s[order[j]] - 1], order, j, need - 1);
      } else {
        NoneAbove(s, order, i);
      }
    } else {
      TrimDone(s, order, i);
    }
  }

  lemma TakenOne(s: seq<nat>, order: seq<nat>, i: nat, j: nat)
    requires Covers(order, |s|) && i <= j < |s| && s[order[j]] > 1 && j == NextAbove(s, order, i, |s|)
    requires (forall g :: 0 <= g < |s| ==> s[g] >= 1) && forall p :: 0 <= p < i ==> s[order[p]] == 1
    ensures var s' := s[order[j] := s[order[j]] - 1];
            && (forall g :: 0 <= g < |s| ==> s'[g] >= 1) && (forall p :: 0 <= p < j ==> s'[order[p]] == 1)
            && forall p :: 0 <= p < |s| && p != j ==> s'[order[p]] == s[order[p]]
  {
    forall p | i <= p < j
      ensures s[order[p]] == 1
    {
      assert s[order[p % |s|]] <= 1;
      SmallMod(p, |s|);
    }
  }

  lemma NoWrap(s: seq<nat>, order: seq<nat>, i: nat)
    requires Covers(order, |s|) && i < |s| && forall p :: 0 <= p < i ==> s[order[p]] == 1
    requires NextAbove(s, order, i, |s|) < i + |s|
    ensures var j := NextAbove(s, order, i, |s|); i <= j < |s| && j % |s| == j && s[order[j]] > 1
  {
    var j, n := NextAbove(s, order, i, |s|), |s|;
    if j >= n {
      DivModUnique(j, n, 1, j - n);
    } else {
      SmallMod(j, n);
    }
  }

  /** Without room for 16 each every partition first gets its quota rounded down, and at least
      one. What is left over is dealt out by fractional part; what is too much is taken from
      the first in that ranking until it has one left, then from the next, and so on. */
  lemma SmallSharesExact(ws: seq<real>, cap: nat, i: nat) returns (rank: seq<nat>, a: nat)
    requires Normalised(ws) && cap < 16 * |ws| && i < |ws|
    ensures Covers(rank, |ws|)
    ensures forall p, q :: 0 <= p < q < |ws| ==>
              var x, y := cap as real * ws[rank[p]], cap as real * ws[rank[q]];
              || x - x.Floor as real > y - y.Floor as real
              || (x - x.Floor as real == y - y.Floor as real && rank[p] < rank[q])
    ensures var f, r := Floors(ws, cap, 1), Shares(ws, cap);
            && f[i] == (var x := (cap as real * ws[i]).Floor; if x < 1 then 1 else x)
            && if Sum(f) <= cap then
                 forall p :: 0 <= p < |ws| ==> r[rank[p]] == f[rank[p]] + Turns(p, cap - Sum(f), |ws|)
               else
                 && a < |ws| && (forall p :: 0 <= p < a ==> r[rank[p]] == 1)
                 && (forall p :: a < p < |ws| ==> r[rank[p]] == f[rank[p]])
  {
    hide Normalised, Total, Sum, Bumped, Trimmed, Order, Covers, Sorted, Turns;
    var q := Quotas(ws, cap);
    rank, a := Order(q), 0;
    OrderCovers(q);
    SmallBranch(ws, cap);
    forall p, p' | 0 <= p < p' < |ws|
      ensures Before(q[rank[p]], q[rank[p']])
    {
      PlaceOrder(q, p, p');
    }
    FloorsAtLeast(ws, cap);
    var f := Floors(ws, cap, 1);
    if Sum(f) <= cap {
      forall p | 0 <= p < |ws|
        ensures Shares(ws, cap)[rank[p]] == f[rank[p]] + Turns(p, cap - Sum(f), |ws|)
      {
        BumpedAt(f, rank, cap - Sum(f), p);
      }
    } else {
      a := TrimmedGreedy(f, rank, 0, Sum(f) - cap);
    }
    InRange(rank, |ws|);
  }

  lemma InRange(order: seq<nat>, n: nat)
    requires Covers(order, n)
    ensures |order| == n && forall p :: 0 <= p < n ==> order[p] < n
  {
  }

  lemma FloorsAtLeast(ws: seq<real>, cap: nat)
    requires Normalised(ws)
    ensures forall i :: 0 <= i < |ws| ==> ws[i] >= 0.0
    ensures forall g :: 0 <= g < |ws| ==> Floors(ws, cap, 1)[g] >= 1
  {
  }

  lemma SmallBranch(ws: seq<real>, cap: nat)
    requires Normalised(ws) && cap < LEAST * |ws|
    ensures var f, order := Floors(ws, cap, 1), Order(Quotas(ws, cap));
            && Covers(order, |ws|)
            && Shares(ws, cap) == if Sum(f) <= cap then Bumped(f, order, cap - Sum(f))
                                  else Trimmed(f, order, 0, Sum(f) - cap)
  {
    OrderCovers(Quotas(ws, cap));
    hide Sum, Bumped, Trimmed, Order, Covers, Quotas;
  }

  lemma SpreadOne(f: seq<nat>, order: seq<nat>, k: nat)
    requires Covers(order, |f|) && |f| > 0
    requires forall g :: 0 <= g < |f| ==> f[g] >= 1
    ensures var r := Bumped(f, order, k);
            Sum(r) == Sum(f) + k && Sum(r) >= |r| && forall g :: 0 <= g < |f| ==> r[g] >= 1
  {
    BumpedSum(f, order, k);
    BumpedKeeps(f, order, k);
    SumAtLeast(Bumped(f, order, k));
  }

  lemma {:induction false} BumpedKeeps(s: seq<nat>, order: seq<nat>, k: nat)
    requires Covers(order, |s|) && |s| > 0
    ensures forall g :: 0 <= g < |s| ==> Bumped(s, order, k)[g] >= s[g]
  {
    if k > 0 {
      BumpedKeeps(s, order, k - 1);
    }
  }

  /** What the partitions can really hold, each share being raised to the least
      capacity of an LRU cache. */
  function Raised(shares: seq<nat>): (r: seq<nat>)
    ensures |r| == |shares|
    ensures forall i :: 0 <= i < |r| ==> r[i] == if shares[i] < LEAST then LEAST else shares[i]
  {
    seq(|shares|, i requires 0 <= i < |shares| => if shares[i] < LEAST then LEAST else shares[i])
  }

  lemma {:induction false} RaisedSum(s: seq<nat>)
    ensures Sum(Raised(s)) >= Sum(s) && Sum(Raised(s)) >= LEAST * |s|
    ensures (forall i :: 0 <= i < |s| ==> s[i] >= LEAST) ==> Raised(s) == s
  {
    if s != [] {
      var n := |s| - 1;
      RaisedSum(s[..n]);
      assert Raised(s)[..n] == Raised(s[..n]);
    }
  }

  /** The partitions together stay within the configured total exactly when it has
      room for the least capacity of each. */
  lemma WithinTotalIff(ws: seq<real>, cap: nat)
    requires Normalised(ws)
    ensures Sum(Raised(Shares(ws, cap))) <= cap <==> cap >= LEAST * |ws|
  {
    var r := Shares(ws, cap);
    RaisedSum(r);
    if ws != [] && cap >= LEAST * |ws| {
      if Total(ws) == 1.0 {
        LargestRemainder(ws, cap, 0, 0);
      } else {
        RoundRobin(ws, cap, 0);
      }
    }
  }
}
