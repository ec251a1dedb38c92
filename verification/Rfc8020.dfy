/** The table of names known not to exist: a name in it stands for everything below it
    (section 2 of RFC 8020). */
module Rfc8020 {
  import opened Wrappers
  import Names

  const MAX_ENTRIES: nat := 65536

  datatype Entry = Entry(expiresAt: real, ruleGen: nat)

  datatype Hit = Hit(ttlLeft: real, stale: bool)

  type Table = map<string, Entry>

  /** What a lookup is asked with, besides the time and the name. */
  datatype Settings = Settings(ruleGen: nat, serveStale: bool, staleTtl: real, maxLabels: nat)

  function LabelCount(d: string): nat {
    |Names.Labels(d)|
  }

  function DepthLimit(maxLabels: nat): nat {
    if maxLabels < 1 then 1 else maxLabels
  }

  function StaleWindow(st: Settings): real {
    if st.serveStale && st.staleTtl > 0.0 then st.staleTtl else 0.0
  }

  /** The place of the first dot, or the length. */
  function FirstDot(s: string): (i: nat)
    ensures i <= |s| && (i < |s| ==> s[i] == '.') && forall j :: 0 <= j < i ==> s[j] != '.'
  {
    if s == "" || s[0] == '.' then 0 else 1 + FirstDot(s[1..])
  }

  /** The name itself and what is left after dropping one label after the other. */
  function Chain(d: string): (c: seq<string>)
    ensures |c| >= 1 && c[0] == d
    decreases |d|
  {
    var i := FirstDot(d);
    if i < |d| then [d] + Chain(d[i + 1..]) else [d]
  }

  /** An entry that answers for the name `s`: live, or stale but still served. */
  function Answer(e: Entry, s: string, now: real, st: Settings): Option<Hit> {
    if e.ruleGen != st.ruleGen || LabelCount(s) > DepthLimit(st.maxLabels) then None
    else if e.expiresAt - now > 0.0 then Some(Hit(e.expiresAt - now, false))
    else if StaleWindow(st) > 0.0 && e.expiresAt - now + StaleWindow(st) > 0.0 then Some(Hit(0.0, true))
    else None
  }

  datatype Found = Found(hit: Option<Hit>, drop: Option<string>)

  /** Walks up from `s`; `drop` is the last dead entry passed on the way. */
  function Search(m: Table, s: string, now: real, st: Settings, drop: Option<string>): Found
    decreases |s|
  {
    var here := if s in m then Answer(m[s], s, now, st) else None;
    if here.Some? then Found(here, drop)
    else
      var drop' := if s in m then Some(s) else drop;
      var i := FirstDot(s);
      if i < |s| then Search(m, s[i + 1..], now, st, drop') else Found(None, drop')
  }

  function Asked(d: string, st: Settings): bool {
    d != "" && LabelCount(d) <= DepthLimit(st.maxLabels)
  }

  function Dropped(m: Table, drop: Option<string>): Table {
    match drop case None => m case Some(k) => m - {k}
  }

  /** The answer, and the table with the dropped entry gone. */
  function Lookup(m: Table, now: real, d: string, st: Settings): (Option<Hit>, Table) {
    if !Asked(d, st) then (None, m)
    else
      var f := Search(m, d, now, st, None);
      (f.hit, Dropped(m, f.drop))
  }

  /** The table before any room has to be made. */
  function Registered(m: Table, now: real, name: string, expiresAt: real, ruleGen: nat, maxLabels: nat): (Table, bool) {
    if name == "" || expiresAt <= now || LabelCount(name) > DepthLimit(maxLabels) then (m, false)
    else if name in m && m[name].ruleGen == ruleGen && expiresAt <= m[name].expiresAt then (m, false)
    else (m[name := Entry(expiresAt, ruleGen)], true)
  }

  /** Down to `target` entries, those that expire first going first. */
  ghost predicate EvictedTo(m: Table, m': Table, target: nat) {
    && (forall k :: k in m' ==> k in m && m'[k] == m[k])
    && |m'| == (if |m| <= target then |m| else target)
    && (forall gone, kept :: gone in m && gone !in m' && kept in m' ==> m[gone].expiresAt <= m[kept].expiresAt)
  }

  // ---- hits ----

  /** The answer of the first name that has one. */
  function FirstAnswer(m: Table, names: seq<string>, now: real, st: Settings): Option<Hit> {
    if names == [] then None
    else
      var here := if names[0] in m then Answer(m[names[0]], names[0], now, st) else None;
      if here.Some? then here else FirstAnswer(m, names[1..], now, st)
  }

  /** A search finds the answer of the first name of the chain that has one; what it
      drops has none. */
  lemma {:induction false} SearchFirst(m: Table, s: string, now: real, st: Settings, drop: Option<string>)
    ensures var f := Search(m, s, now, st, drop);
            && f.hit == FirstAnswer(m, Chain(s), now, st)
            && (f.drop == drop || (f.drop.Some? && f.drop.value in m && !AnswersAt(m, f.drop.value, now, st)))
    decreases |s|
  {
    hide Answer, AnswersAt, HitFor, Chain, FirstDot;
    if s in m {
      AnswerIs(m, s, now, st);
    }
    AnswerPresent(m, s, now, st);
    ChainStep(s);
    var i := FirstDot(s);
    var rest := if i < |s| then Chain(s[i + 1..]) else [];
    assert Chain(s)[0] == s && Chain(s)[1..] == rest;
    if i < |s| && !AnswersAt(m, s, now, st) {
      SearchFirst(m, s[i + 1..], now, st, if s in m then Some(s) else drop);
    }
  }

  lemma {:induction false} FirstAnswerIff(m: Table, names: seq<string>, now: real, st: Settings)
    ensures FirstAnswer(m, names, now, st).Some? <==> exists i :: 0 <= i < |names| && AnswersAt(m, names[i], now, st)
  {
    if names != [] {
      FirstAnswerIff(m, names[1..], now, st);
      if names[0] in m {
        AnswerIs(m, names[0], now, st);
      }
      hide Answer, AnswersAt;
      if AnswersAt(m, names[0], now, st) {
        assert FirstAnswer(m, names, now, st).Some?;
      } else if i :| 0 <= i < |names| && AnswersAt(m, names[i], now, st) {
        assert AnswersAt(m, names[1..][i - 1], now, st);
      }
    }
  }

  /** The table holds `s` under the current rules, `s` is not too deep, and its entry is
      live or, where stale answers are served, not expired for longer than that. */
  ghost predicate AnswersAt(m: Table, s: string, now: real, st: Settings) {
    && s in m && m[s].ruleGen == st.ruleGen
    && |Names.Labels(s)| <= (if st.maxLabels == 0 then 1 else st.maxLabels)
    && (m[s].expiresAt > now || (st.serveStale && st.staleTtl > 0.0 && m[s].expiresAt + st.staleTtl > now))
  }

  /** Only then does the lookup of that very name accept the entry, and this is the hit. */
  lemma AnswerIs(m: Table, s: string, now: real, st: Settings)
    requires s in m
    ensures Answer(m[s], s, now, st).Some? <==> AnswersAt(m, s, now, st)
    ensures AnswersAt(m, s, now, st) ==> Answer(m[s], s, now, st) == Some(HitFor(m[s], now))
  {
  }

  function HitFor(e: Entry, now: real): Hit {
    if e.expiresAt > now then Hit(e.expiresAt - now, false) else Hit(0.0, true)
  }

  /** `s` is `d`, or what follows one of its dots. */
  predicate AtBoundary(s: string, d: string) {
    s == d || (|s| < |d| && d[|d| - |s| - 1] == '.' && d[|d| - |s|..] == s)
  }

  lemma {:induction false} ChainIsBoundaries(d: string, s: string)
    ensures s in Chain(d) <==> AtBoundary(s, d)
    decreases |d|
  {
    hide Chain;
    ChainStep(d);
    var i := FirstDot(d);
    if i < |d| {
      ChainIsBoundaries(d[i + 1..], s);
      BoundaryBehind(d, s);
    } else {
      NoBoundary(d, s);
    }
  }

  lemma {:induction false} ChainStep(d: string)
    ensures var i := FirstDot(d); Chain(d) == if i < |d| then [d] + Chain(d[i + 1..]) else [d]
  {
  }

  lemma {:induction false} BoundaryBehind(d: string, s: string)
    requires FirstDot(d) < |d|
    ensures AtBoundary(s, d) <==> s == d || AtBoundary(s, d[FirstDot(d) + 1..])
  {
    DotAt(d);
    hide FirstDot;
    var i := FirstDot(d);
    var rest, a, b := d[i + 1..], |d| - |s|, |d| - i - 1 - |s|;
    if i + 1 + |s| <= |d| {
      assert d[a..] == rest[b..];
      assert b > 0 ==> rest[b - 1] == d[a - 1];
    }
  }

  lemma {:induction false} DotAt(d: string)
    requires FirstDot(d) < |d|
    ensures d[FirstDot(d)] == '.' && forall j :: 0 <= j < FirstDot(d) ==> d[j] != '.'
  {
  }

  lemma {:induction false} NoBoundary(d: string, s: string)
    requires FirstDot(d) == |d|
    ensures AtBoundary(s, d) <==> s == d
  {
  }

  /** A lookup hits exactly when the name, or what follows one of its dots, has an entry
      of the current rules, within the depth limit, that is live or still served stale. */
  lemma HitIff(m: Table, now: real, d: string, st: Settings)
    ensures Lookup(m, now, d, st).0.Some? <==>
              && d != "" && |Names.Labels(d)| <= (if st.maxLabels == 0 then 1 else st.maxLabels)
              && exists s :: AtBoundary(s, d) && AnswersAt(m, s, now, st)
  {
    SearchFirst(m, d, now, st, None);
    FirstAnswerIff(m, Chain(d), now, st);
    var c := Chain(d);
    forall s
      ensures AtBoundary(s, d) <==> s in c
    {
      ChainIsBoundaries(d, s);
    }
    if Asked(d, st) && Lookup(m, now, d, st).0.Some? {
      var i :| 0 <= i < |c| && AnswersAt(m, c[i], now, st);
      assert AtBoundary(c[i], d) && AnswersAt(m, c[i], now, st);
    }
    if s :| AtBoundary(s, d) && AnswersAt(m, s, now, st) {
      var i :| 0 <= i < |c| && c[i] == s;
      assert AnswersAt(m, c[i], now, st);
    }
  }

  // ---- which hit, and what is deleted ----

  /** The boundaries of a name are the name and those behind its first dot. */
  lemma {:induction false} BoundarySplit(d: string, s: string)
    ensures var i := FirstDot(d);
            AtBoundary(s, d) <==> s == d || (i < |d| && AtBoundary(s, d[i + 1..]))
  {
    var i := FirstDot(d);
    ChainIsBoundaries(d, s);
    if i < |d| {
      ChainIsBoundaries(d[i + 1..], s);
    }
  }

  /** `s` answers for `d`, and nothing nearer to `d` does. */
  ghost predicate Nearest(m: Table, d: string, s: string, now: real, st: Settings) {
    && AtBoundary(s, d) && AnswersAt(m, s, now, st)
    && forall x :: AtBoundary(x, d) && |x| > |s| ==> !AnswersAt(m, x, now, st)
  }

  /** The walk from `d` comes upon an entry for `k` before it finds an answer. */
  ghost predicate Passed(m: Table, d: string, k: string, now: real, st: Settings) {
    && AtBoundary(k, d) && k in m
    && forall x :: AtBoundary(x, d) && |x| >= |k| ==> !AnswersAt(m, x, now, st)
  }

  /** The last entry passed. */
  ghost predicate LastPassed(m: Table, d: string, k: string, now: real, st: Settings) {
    Passed(m, d, k, now, st) && forall x :: Passed(m, d, x, now, st) ==> |k| <= |x|
  }

  lemma {:induction false} SearchExact(m: Table, d: string, now: real, st: Settings, drop: Option<string>)
    returns (at: Option<string>, last: Option<string>)
    ensures var f := Search(m, d, now, st, drop);
            && f.hit == (if at.Some? && at.value in m then Some(HitFor(m[at.value], now)) else None)
            && f.drop == if last.Some? then last else drop
    ensures if at.Some? then Nearest(m, d, at.value, now, st) else forall x :: AtBoundary(x, d) ==>
                  !AnswersAt(m, x, now, st)
    ensures if last.Some? then LastPassed(m, d, last.value, now, st) else forall x :: !Passed(m, d, x, now, st)
    decreases |d|
  {
    hide Answer, AnswersAt, AtBoundary, HitFor;
    WholeIsBoundary(d);
    if d in m {
      AnswerIs(m, d, now, st);
      AnswerPresent(m, d, now, st);
    }
    var i := FirstDot(d);
    forall x
      ensures AtBoundary(x, d) <==> x == d || (i < |d| && AtBoundary(x, d[i + 1..]))
    {
      BoundarySplit(d, x);
    }
    forall x | AtBoundary(x, d)
      ensures |x| <= |d| && (|x| == |d| ==> x == d)
    {
      BoundaryLength(x, d);
    }
    if AnswersAt(m, d, now, st) {
      AnswerPresent(m, d, now, st);
      at, last := Some(d), None;
    } else if i < |d| {
      forall x | AtBoundary(x, d[i + 1..])
        ensures |x| < |d|
      {
        BoundaryLength(x, d[i + 1..]);
      }
      at, last := SearchExact(m, d[i + 1..], now, st, if d in m then Some(d) else drop);
      if at.Some? {
        AnswerPresent(m, at.value, now, st);
      }
      PassedSplit(m, d, now, st);
      if last.None? && d in m {
        last := Some(d);
      }
    } else {
      at, last := None, if d in m then Some(d) else None;
    }
  }

  lemma WholeIsBoundary(d: string)
    ensures AtBoundary(d, d)
  {
  }

  lemma BoundaryLength(s: string, d: string)
    requires AtBoundary(s, d)
    ensures |s| <= |d| && (|s| == |d| ==> s == d)
  {
  }

  lemma AnswerPresent(m: Table, s: string, now: real, st: Settings)
    ensures AnswersAt(m, s, now, st) ==> s in m
  {
  }

  /** Entries passed behind the first dot are those passed from the whole name on, apart
      from its own. */
  lemma PassedSplit(m: Table, d: string, now: real, st: Settings)
    requires FirstDot(d) < |d| && !AnswersAt(m, d, now, st)
    ensures forall k :: Passed(m, d, k, now, st) <==>
              (k == d && d in m) || Passed(m, d[FirstDot(d) + 1..], k, now, st)
  {
    hide AnswersAt, AtBoundary, Passed, FirstDot;
    forall k
      ensures Passed(m, d, k, now, st) <==> (k == d && d in m) || Passed(m, d[FirstDot(d) + 1..], k, now, st)
    {
      PassedAt(m, d, k, now, st);
    }
  }

  lemma PassedAt(m: Table, d: string, k: string, now: real, st: Settings)
    requires FirstDot(d) < |d| && !AnswersAt(m, d, now, st)
    ensures Passed(m, d, k, now, st) <==> (k == d && d in m) || Passed(m, d[FirstDot(d) + 1..], k, now, st)
  {
    hide AnswersAt, AtBoundary, FirstDot;
    var rest := d[FirstDot(d) + 1..];
    forall x
      ensures AtBoundary(x, d) <==> x == d || AtBoundary(x, rest)
      ensures AtBoundary(x, rest) ==> |x| < |d|
    {
      BoundarySplit(d, x);
      if AtBoundary(x, rest) {
        BoundaryLength(x, rest);
      }
    }
  }

  /** A lookup within the depth limit hits exactly when something answers; the hit is that
      of the nearest, live with the time left or stale with none. It deletes the last
      entry passed on the way, if there is one, and nothing else. Too deep a name, or none, is
      not looked up at all. */
  lemma LookupExact(m: Table, now: real, d: string, st: Settings) returns (at: Option<string>, last: Option<string>)
    ensures if at.Some? then Nearest(m, d, at.value, now, st) else forall x :: AtBoundary(x, d) ==>
                  !AnswersAt(m, x, now, st)
    ensures if last.Some? then LastPassed(m, d, last.value, now, st) else forall x :: !Passed(m, d, x, now, st)
    ensures at.Some? ==> at.value in m
    ensures var (hit, m') := Lookup(m, now, d, st);
            if d == "" || |Names.Labels(d)| > (if st.maxLabels == 0 then 1 else st.maxLabels)
            then hit == None && m' == m
            else
              && m' == (if last.Some? then m - {last.value} else m)
              && hit == if at == None then None
                        else
                          var left := m[at.value].expiresAt - now;
                          Some(if left > 0.0 then Hit(left, false) else Hit(0.0, true))
  {
    hide Search, AnswersAt, AtBoundary, LastPassed, Passed;
    at, last := SearchExact(m, d, now, st, None);
    if at.Some? {
      NearestHeld(m, d, at.value, now, st);
    }
  }

  lemma NearestHeld(m: Table, d: string, s: string, now: real, st: Settings)
    requires Nearest(m, d, s, now, st)
    ensures s in m && AtBoundary(s, d)
  {
  }

  // ---- registering ----

  /** A registration that is in time and not too deep stores the name under the new rules,
      for the later of the two times if the rules are the same; it reports a change exactly
      when the entry is new, of other rules, or prolonged. Any other does nothing. */
  lemma RegisterStores(m: Table, now: real, name: string, expiresAt: real, ruleGen: nat, maxLabels: nat)
    ensures var (r, changed) := Registered(m, now, name, expiresAt, ruleGen, maxLabels);
            if name == "" || expiresAt <= now || |Names.Labels(name)| > (if maxLabels == 0 then 1 else maxLabels)
            then r == m && !changed
            else
              && name in r && r[name].ruleGen == ruleGen
              && r[name].expiresAt == (if name in m && m[name].ruleGen == ruleGen && m[name].expiresAt > expiresAt
                                       then m[name].expiresAt else expiresAt)
              && (changed <==> name !in m || m[name].ruleGen != ruleGen || m[name].expiresAt < expiresAt)
              && (forall k :: k != name ==> (k in r <==> k in m) && (k in m ==> r[k] == m[k]))
  {
  }

  /** A name cut at a boundary has no more labels. */
  lemma BoundaryLabels(s: string, d: string)
    requires AtBoundary(s, d)
    ensures |Names.Labels(s)| <= |Names.Labels(d)|
  {
    if s != d {
      var a := d[..|d| - |s| - 1];
      assert d == a + [Names.DOT] + s;
      Names.SplitConcat(a, Names.DOT, s);
      Names.NonEmptyConcat(Names.Split(a, Names.DOT), Names.Split(s, Names.DOT));
    }
  }

  /** Until it expires, a registered name answers for itself and every name below it. */
  lemma RegisterFound(m: Table, now: real, name: string, expiresAt: real, ruleGen: nat, maxLabels: nat,
                      later: real, d: string, st: Settings)
    requires name != "" && |Names.Labels(name)| <= if maxLabels == 0 then 1 else maxLabels
    requires now <= later < expiresAt && st.ruleGen == ruleGen
    requires AtBoundary(name, d) && |Names.Labels(d)| <= if st.maxLabels == 0 then 1 else st.maxLabels
    ensures var hit := Lookup(Registered(m, now, name, expiresAt, ruleGen, maxLabels).0, later, d, st).0;
            && hit.Some? && (d == name ==> !hit.value.stale && hit.value.ttlLeft >= expiresAt - later)
  {
    hide Lookup, Registered, AtBoundary, AnswersAt;
    RegisterStores(m, now, name, expiresAt, ruleGen, maxLabels);
    BoundaryLabels(name, d);
    BoundaryLength(name, d);
    var r := Registered(m, now, name, expiresAt, ruleGen, maxLabels).0;
    HeldAnswers(r, name, later, st);
    var at, last := LookupExact(r, later, d, st);
    if at.Some? {
      BoundaryLength(at.value, d);
    }
  }

  /** Registering a name changes the answers for that name and the names below it only:
      no ancestor and no sibling begins to match, whether room is made or not. */
  lemma RegisterOnlyBelow(m: Table, now: real, name: string, expiresAt: real, ruleGen: nat, maxLabels: nat,
                          m': Table, later: real, d: string, st: Settings)
    requires forall k :: k in m' ==>
               (var r := Registered(m, now, name, expiresAt, ruleGen, maxLabels).0; k in r && m'[k] == r[k])
    requires !AtBoundary(name, d)
    ensures Lookup(m', later, d, st).0.Some? ==> Lookup(m, later, d, st).0.Some?
    ensures m' == Registered(m, now, name, expiresAt, ruleGen, maxLabels).0 ==>
            Lookup(m', later, d, st).0 == Lookup(m, later, d, st).0
  {
    HitIff(m, later, d, st);
    HitIff(m', later, d, st);
    if s :| AtBoundary(s, d) && AnswersAt(m', s, later, st) {
      assert AnswersAt(m, s, later, st);
    }
    if m' == Registered(m, now, name, expiresAt, ruleGen, maxLabels).0 {
      ChainIsBoundaries(d, name);
      SameAnswers(m, m', later, d, st, None, None);
    }
  }

  lemma {:induction false} SameAnswers(m: Table, m': Table, now: real, d: string, st: Settings, x: Option<string>,
                                       y: Option<string>)
    requires forall s :: s in Chain(d) ==> (AnswersAt(m, s, now, st) <==> AnswersAt(m', s, now, st))
    requires forall s :: s in Chain(d) && AnswersAt(m, s, now, st) ==> s in m' && m[s] == m'[s]
    ensures Search(m, d, now, st, x).hit == Search(m', d, now, st, y).hit
    decreases |d|
  {
    hide Answer, AnswersAt, HitFor;
    var i := FirstDot(d);
    assert d in Chain(d);
    AnswerPresent(m, d, now, st);
    AnswerPresent(m', d, now, st);
    if d in m {
      AnswerIs(m, d, now, st);
    }
    if d in m' {
      AnswerIs(m', d, now, st);
    }
    assert AnswersAt(m, d, now, st) <==> AnswersAt(m', d, now, st);
    if i < |d| && !AnswersAt(m, d, now, st) {
      forall s | s in Chain(d[i + 1..])
        ensures s in Chain(d)
      {
      }
      SameAnswers(m, m', now, d[i + 1..], st, if d in m then Some(d) else x, if d in m' then Some(d) else y);
    }
  }

  // ---- lookups that delete ----

  /** `m'` lacks only entries that will never answer again under these settings. */
  ghost predicate Lacks(m: Table, m': Table, now: real, st: Settings) {
    && (forall k :: k in m' ==> k in m && m'[k] == m[k])
    && (forall k :: k in m && k !in m' ==> !AnswersAt(m, k, now, st))
  }

  lemma DeadStays(e: Entry, s: string, now: real, later: real, st: Settings)
    requires Answer(e, s, now, st).None? && later >= now
    ensures Answer(e, s, later, st).None?
  {
  }

  lemma LacksLater(m: Table, m': Table, now: real, later: real, st: Settings)
    requires Lacks(m, m', now, st) && later >= now
    ensures Lacks(m, m', later, st)
  {
    forall k | k in m && k !in m'
      ensures !AnswersAt(m, k, later, st)
    {
      DeadStays(m[k], k, now, later, st);
    }
  }

  /** The same lookup gives the same answer on both tables, and keeps them related when
      only the second one deletes. */
  lemma LookupAgrees(m: Table, m': Table, now: real, d: string, st: Settings)
    requires Lacks(m, m', now, st)
    ensures Lookup(m, now, d, st).0 == Lookup(m', now, d, st).0
    ensures Lacks(m, Lookup(m', now, d, st).1, now, st)
  {
    SameAnswers(m, m', now, d, st, None, None);
    SearchFirst(m', d, now, st, None);
  }

  /** Registering under the same rules does the same to both tables. */
  lemma RegisterAgrees(m: Table, m': Table, now: real, name: string, expiresAt: real, st: Settings)
    requires Lacks(m, m', now, st)
    ensures var (r, b) := Registered(m, now, name, expiresAt, st.ruleGen, st.maxLabels);
            var (r', b') := Registered(m', now, name, expiresAt, st.ruleGen, st.maxLabels);
            b == b' && Lacks(r, r', now, st)
  {
    if name in m && name !in m' {
      assert !AnswersAt(m, name, now, st);
    }
  }

  // ---- whole runs ----

  datatype Op =
    | Register(now: real, name: string, expiresAt: real, ruleGen: nat, maxLabels: nat)
    | Query(now: real, name: string, st: Settings)

  /** One operation on the table, which makes room when it has to. */
  ghost predicate Step(m: Table, op: Op, m': Table) {
    match op
    case Register(now, name, expiresAt, ruleGen, maxLabels) =>
      var r := Registered(m, now, name, expiresAt, ruleGen, maxLabels).0;
      if |r| > MAX_ENTRIES then EvictedTo(r, m', MAX_ENTRIES * 3 / 4) else m' == r
    case Query(now, d, st) => m' == Lookup(m, now, d, st).1
  }

  ghost predicate Runs(tables: seq<Table>, ops: seq<Op>) {
    |tables| == |ops| + 1 && forall i :: 0 <= i < |ops| ==> Step(tables[i], ops[i], tables[i + 1])
  }

  /** The answer an operation gives. */
  function HitOf(m: Table, op: Op): Option<Hit> {
    match op
    case Register(_, _, _, _, _) => None
    case Query(now, d, st) => Lookup(m, now, d, st).0
  }

  /** The table that takes every registration and never loses anything. */
  function Whole(m: Table, ops: seq<Op>): Table {
    if ops == [] then m else WholeStep(Whole(m, ops[..|ops| - 1]), ops[|ops| - 1])
  }

  function WholeStep(m: Table, op: Op): Table {
    match op
    case Register(now, name, expiresAt, ruleGen, maxLabels) => Registered(m, now, name, expiresAt, ruleGen, maxLabels).0
    case Query(_, _, _) => m
  }

  /** Every entry has one in `full` of the same rules that lives at least as long. */
  ghost predicate Covered(m: Table, full: Table) {
    forall k :: k in m ==> k in full && full[k].ruleGen == m[k].ruleGen && m[k].expiresAt <= full[k].expiresAt
  }

  lemma StepCovered(m: Table, full: Table, op: Op, m': Table)
    requires Covered(m, full) && Step(m, op, m')
    ensures Covered(m', WholeStep(full, op))
  {
    match op {
      case Register(_, _, _, _, _) =>
      case Query(now, d, st) =>
        hide Search;
        SearchFirst(m, d, now, st, None);
    }
  }

  lemma {:induction false} RunCovered(tables: seq<Table>, ops: seq<Op>, i: nat)
    requires Runs(tables, ops) && i <= |ops|
    ensures Covered(tables[i], Whole(tables[0], ops[..i]))
  {
    if i > 0 {
      RunCovered(tables, ops, i - 1);
      assert ops[..i][..i - 1] == ops[..i - 1];
      hide Step, Covered, WholeStep;
      StepCovered(tables[i - 1], Whole(tables[0], ops[..i - 1]), ops[i - 1], tables[i]);
    }
  }

  lemma CoveredHits(m: Table, full: Table, op: Op)
    requires Covered(m, full)
    ensures HitOf(m, op).Some? ==> HitOf(full, op).Some?
  {
    if op.Query? {
      HitIff(m, op.now, op.name, op.st);
      HitIff(full, op.now, op.name, op.st);
      if s :| AtBoundary(s, op.name) && AnswersAt(m, s, op.now, op.st) {
        assert AnswersAt(full, s, op.now, op.st);
      }
    }
  }

  /** Over any run, with any settings at any time, deleting and making room never produce
      a hit that the table losing nothing would not have given. */
  lemma LossesAddNoHits(tables: seq<Table>, ops: seq<Op>, i: nat)
    requires Runs(tables, ops) && i < |ops|
    ensures HitOf(tables[i], ops[i]).Some? ==> HitOf(Whole(tables[0], ops[..i]), ops[i]).Some?
  {
    RunCovered(tables, ops, i);
    CoveredHits(tables[i], Whole(tables[0], ops[..i]), ops[i]);
  }

  ghost predicate Timely(ops: seq<Op>) {
    forall i, j :: 0 <= i < j < |ops| ==> ops[i].now <= ops[j].now
  }

  /** All operations are under the same settings. */
  ghost predicate Uniform(ops: seq<Op>, st: Settings) {
    forall i :: 0 <= i < |ops| ==>
      match ops[i]
      case Register(_, _, _, ruleGen, maxLabels) => ruleGen == st.ruleGen && maxLabels == st.maxLabels
      case Query(_, _, s) => s == st
  }

  /** No registration has to make room. */
  ghost predicate Roomy(tables: seq<Table>, ops: seq<Op>)
    requires |tables| > |ops|
  {
    forall i :: 0 <= i < |ops| && ops[i].Register? ==>
      var op := ops[i];
      |Registered(tables[i], op.now, op.name, op.expiresAt, op.ruleGen, op.maxLabels).0| <= MAX_ENTRIES
  }

  lemma {:induction false} RunLacks(tables: seq<Table>, ops: seq<Op>, st: Settings, i: nat)
    requires Runs(tables, ops) && Timely(ops) && Uniform(ops, st) && Roomy(tables, ops) && i < |ops|
    ensures Lacks(Whole(tables[0], ops[..i]), tables[i], ops[i].now, st)
  {
    if i > 0 {
      RunLacks(tables, ops, st, i - 1);
      var full, m, op := Whole(tables[0], ops[..i - 1]), tables[i - 1], ops[i - 1];
      assert ops[..i][..i - 1] == ops[..i - 1];
      assert Step(m, op, tables[i]);
      hide Lacks, Registered, Lookup;
      match op {
        case Register(now, name, expiresAt, _, _) => RegisterAgrees(full, m, now, name, expiresAt, st);
        case Query(now, d, _) => LookupAgrees(full, m, now, d, st);
      }
      LacksLater(Whole(tables[0], ops[..i]), tables[i], ops[i - 1].now, ops[i].now, st);
    }
  }

  /** What lookups delete is never missed: over any run under one set of rules, with time
      moving forward and no room to be made, every answer is that of the table losing
      nothing. */
  lemma DeletionsNeverMissed(tables: seq<Table>, ops: seq<Op>, st: Settings, i: nat)
    requires Runs(tables, ops) && Timely(ops) && Uniform(ops, st) && Roomy(tables, ops) && i < |ops|
    ensures HitOf(tables[i], ops[i]) == HitOf(Whole(tables[0], ops[..i]), ops[i])
  {
    RunLacks(tables, ops, st, i);
    if ops[i].Query? {
      LookupAgrees(Whole(tables[0], ops[..i]), tables[i], ops[i].now, ops[i].name, st);
    }
  }

  /** A registration is in force in the table losing nothing ever after. */
  lemma {:induction false} WholeHolds(m: Table, ops: seq<Op>, st: Settings, i: nat)
    requires Uniform(ops, st) && i < |ops| && ops[i].Register?
    requires var op := ops[i];
             op.name != "" && op.now < op.expiresAt
             && |Names.Labels(op.name)| <= if st.maxLabels == 0 then 1 else st.maxLabels
    ensures var full, op := Whole(m, ops), ops[i];
            op.name in full && full[op.name].ruleGen == st.ruleGen && full[op.name].expiresAt >= op.expiresAt
  {
    var n := |ops| - 1;
    var before := Whole(m, ops[..n]);
    if i < n {
      assert ops[..n][i] == ops[i];
      WholeHolds(m, ops[..n], st, i);
    }
    match ops[n] {
      case Register(now, name, expiresAt, ruleGen, maxLabels) =>
        RegisterStores(before, now, name, expiresAt, ruleGen, maxLabels);
      case Query(_, _, _) =>
    }
  }

  /** Over such a run every lookup of a registered name, or of one below it, hits until the
      registration expires, whatever was registered and looked up in between. */
  lemma RegisteredHits(tables: seq<Table>, ops: seq<Op>, st: Settings, i: nat, j: nat)
    requires Runs(tables, ops) && Timely(ops) && Uniform(ops, st) && Roomy(tables, ops) && i < j < |ops|
    requires ops[i].Register? && ops[j].Query? && ops[j].now < ops[i].expiresAt
    requires ops[i].name != "" && AtBoundary(ops[i].name, ops[j].name)
    requires |Names.Labels(ops[j].name)| <= if st.maxLabels == 0 then 1 else st.maxLabels
    ensures HitOf(tables[j], ops[j]).Some?
  {
    hide AnswersAt, AtBoundary, Lookup;
    var full, name, d, now := Whole(tables[0], ops[..j]), ops[i].name, ops[j].name, ops[j].now;
    DeletionsNeverMissed(tables, ops, st, j);
    BoundaryLength(name, d);
    BoundaryLabels(name, d);
    assert ops[..j][i] == ops[i] && ops[i].now <= now;
    WholeHolds(tables[0], ops[..j], st, i);
    var at, last := LookupExact(full, now, d, st);
    HeldAnswers(full, name, now, st);
  }

  lemma HeldAnswers(m: Table, s: string, now: real, st: Settings)
    requires s in m && m[s].ruleGen == st.ruleGen && m[s].expiresAt > now
    requires |Names.Labels(s)| <= if st.maxLabels == 0 then 1 else st.maxLabels
    ensures AnswersAt(m, s, now, st)
  {
  }

  // ---- making room ----

  /** Making room keeps an entry unless `target` others expire no earlier. */
  lemma LateStays(m: Table, m': Table, target: nat, name: string)
    requires EvictedTo(m, m', target) && name in m
    requires |set k | k in m && k != name && m[k].expiresAt >= m[name].expiresAt| < target
    ensures name in m' && m'[name] == m[name]
  {
    var later := set k | k in m && k != name && m[k].expiresAt >= m[name].expiresAt;
    if name !in m' && |m| > target {
      assert forall k :: k in m'.Keys ==> k in later;
      Fewer(m'.Keys, later);
    } else if name !in m' {
      assert m'.Keys <= m.Keys - {name};
      Fewer(m'.Keys, m.Keys - {name});
    }
  }

  lemma {:induction false} Fewer(a: set<string>, b: set<string>)
    requires a <= b
    ensures |a| <= |b|
    decreases |a|
  {
    if x :| x in a {
      Fewer(a - {x}, b - {x});
    }
  }

  /** Some entry expires no later than all others. */
  lemma {:induction false} EarliestExists(m: Table) returns (k: string)
    requires m != map[]
    ensures k in m && forall j :: j in m ==> m[k].expiresAt <= m[j].expiresAt
    decreases |m|
  {
    k :| k in m;
    var rest := m - {k};
    assert forall j :: j in m ==> j == k || j in rest;
    if rest != map[] {
      var j := EarliestExists(rest);
      if m[j].expiresAt < m[k].expiresAt {
        k := j;
      }
    }
  }

  class Rfc8020Domains {
    var entries: Table

    constructor ()
      ensures entries == map[]
    {
      entries := map[];
    }

    method Register(now: real, name: string, expiresAt: real, ruleGen: nat, maxLabels: nat) returns (changed: bool)
      requires |entries| <= MAX_ENTRIES
      modifies this
      ensures var (r, b) := Registered(old(entries), now, name, expiresAt, ruleGen, maxLabels);
              && changed == b
              && (if |r| > 65536 then EvictedTo(r, entries, 49152) else entries == r)
      ensures Step(old(entries), Op.Register(now, name, expiresAt, ruleGen, maxLabels), entries)
      ensures |entries| <= MAX_ENTRIES
    {
      if name == "" || expiresAt <= now {
        return false;
      }
      if LabelCount(name) > DepthLimit(maxLabels) {
        return false;
      }
      changed := false;
      if name in entries {
        if entries[name].ruleGen != ruleGen || expiresAt > entries[name].expiresAt {
          entries := entries[name := Entry(expiresAt, ruleGen)];
          changed := true;
        }
      } else {
        entries := entries[name := Entry(expiresAt, ruleGen)];
        changed := true;
      }
      if |entries| > MAX_ENTRIES {
        entries := EvictOldest(entries, MAX_ENTRIES * 3 / 4);
      }
    }

    /** Takes out the entry that expires first until `target` are left. */
    static method EvictOldest(m: Table, target: nat) returns (r: Table)
      ensures EvictedTo(m, r, target)
    {
      r := m;
      while |r| > target
        invariant |r| <= |m| && (|m| > target ==> |r| >= target) && (|m| <= target ==> r == m)
        invariant forall k :: k in r ==> k in m && r[k] == m[k]
        invariant forall gone, kept :: gone in m && gone !in r && kept in r ==> m[gone].expiresAt <= m[kept].expiresAt
        decreases |r|
      {
        ghost var first := EarliestExists(r);
        var k :| k in r && forall j :: j in r ==> r[k].expiresAt <= r[j].expiresAt;
        r := r - {k};
      }
    }

    method LookUp(now: real, d: string, st: Settings) returns (hit: Option<Hit>)
      modifies this
      ensures (hit, entries) == Lookup(old(entries), now, d, st)
      ensures Step(old(entries), Query(now, d, st), entries) && hit == HitOf(old(entries), Query(now, d, st))
    {
      hide LabelCount, Answer;
      if d == "" {
        return None;
      }
      if LabelCount(d) > DepthLimit(st.maxLabels) {
        return None;
      }
      var cur: string, drop: Option<string> := d, None;
      hit := None;
      while true
        invariant hit == None && entries == old(entries)
        invariant Search(entries, d, now, st, None) == Search(entries, cur, now, st, drop)
        decreases |cur|
      {
        if cur in entries {
          hit := Answer(entries[cur], cur, now, st);
          if hit.Some? {
            break;
          }
          drop := Some(cur);
        }
        var i := FirstDot(cur);
        if i == |cur| {
          break;
        }
        cur := cur[i + 1..];
      }
      if drop.Some? {
        entries := entries - {drop.value};
      }
    }

    method Clear()
      modifies this
      ensures entries == map[]
    {
      entries := map[];
    }
  }
}
