/** Circuit breakers, one per upstream: failures open them for windows that double, a
    success or a good probe closes them, and upstreams that are gone are forgotten. Times
    are in seconds and do not run backwards. */
module Breaker {
  import opened Bytes

  const U32_MAX: u32 := 0xFFFF_FFFF
  const U64_MAX: nat := 0xFFFF_FFFF_FFFF_FFFF
  const MAX_SHIFT: nat := 4

  datatype Circuit = Circuit(fails: u32, until: real, openCount: u32, probeOk: nat, probeFail: nat)

  const CLOSED := Circuit(0, 0.0, 0, 0, 0)

  /** How many failures open a circuit, for how long at first, and for how long at most. */
  datatype Settings = Settings(threshold: u32, openS: real, maxOpenS: real)

  function Saturating(n: nat, max: nat): (r: nat)
    ensures n <= max ==> r <= max
  {
    if n >= max then max else n + 1
  }

  function Power(n: nat): (p: nat)
    ensures p >= 1
  {
    if n == 0 then 1 else 2 * Power(n - 1)
  }

  function Larger(a: real, b: real): real {
    if a < b then b else a
  }

  function Smaller(a: real, b: real): real {
    if b < a then b else a
  }

  /** The window at a given back-off level. */
  function Window(st: Settings, openCount: nat): real {
    var shift := if openCount == 0 then 0 else if openCount - 1 > MAX_SHIFT then MAX_SHIFT else openCount - 1;
    var cap := if st.maxOpenS > 0.0 then Larger(st.openS, st.maxOpenS) else st.openS;
    var win := Smaller(st.openS * Power(shift) as real, cap);
    if win > 0.0 then win else st.openS
  }

  predicate Open(c: Circuit, now: real) {
    c.until > now
  }

  function Failed(c: Circuit, st: Settings, now: real): Circuit {
    var fails := Saturating(c.fails, U32_MAX);
    if fails < st.threshold then c.(fails := fails)
    else
      var opens := if c.until <= now then Saturating(c.openCount, U32_MAX) else c.openCount;
      c.(fails := fails, openCount := opens, until := now + Window(st, opens))
  }

  function Recovered(c: Circuit): Circuit {
    c.(fails := 0, until := 0.0, openCount := 0)
  }

  // ---- all upstreams ----

  type Circuits = map<string, Circuit>

  /** A failure is recorded with the settings of the moment. */
  datatype Op =
    | Fail(uid: string, now: real, st: Settings)
    | Success(uid: string)
    | ProbeOk(uid: string)
    | ProbeFail(uid: string)
    | Retain(keep: set<string>)
    | Clear

  function At(m: Circuits, uid: string): Circuit {
    if uid in m then m[uid] else CLOSED
  }

  function Apply(m: Circuits, op: Op): Circuits {
    match op
    case Fail(u, now, st) => m[u := Failed(At(m, u), st, now)]
    case Success(u) => if u in m then m[u := Recovered(m[u])] else m
    case ProbeOk(u) => m[u := Recovered(At(m, u)).(probeOk := Saturating(At(m, u).probeOk, U64_MAX))]
    case ProbeFail(u) => m[u := At(m, u).(probeFail := Saturating(At(m, u).probeFail, U64_MAX))]
    case Retain(keep) => map u | u in m && u in keep :: m[u]
    case Clear => map[]
  }

  function Run(ops: seq<Op>): Circuits {
    if ops == [] then map[] else Apply(Run(ops[..|ops| - 1]), ops[|ops| - 1])
  }

  /** Every failure comes with a positive opening time. */
  predicate Proper(ops: seq<Op>) {
    forall i :: 0 <= i < |ops| ==> ops[i].Fail? ==> ops[i].st.openS > 0.0
  }

  /** The latest time mentioned so far. */
  function Clock(ops: seq<Op>): real {
    if ops == [] then 0.0
    else if ops[|ops| - 1].Fail? then ops[|ops| - 1].now
    else Clock(ops[..|ops| - 1])
  }

  predicate Timely(ops: seq<Op>) {
    ops == [] || (Timely(ops[..|ops| - 1]) && (ops[|ops| - 1].Fail? ==> ops[|ops| - 1].now >= Clock(ops[..|ops| - 1])))
  }

  predicate Fails(op: Op, uid: string) {
    op.Fail? && op.uid == uid
  }

  predicate Recovers(op: Op, uid: string) {
    (op.Success? || op.ProbeOk?) && op.uid == uid
  }

  predicate Forgets(op: Op, uid: string) {
    op.Clear? || (op.Retain? && uid !in op.keep)
  }

  /** The upstream starts over: it recovers or is forgotten. */
  predicate Resets(op: Op, uid: string) {
    Recovers(op, uid) || Forgets(op, uid)
  }

  /** How often the upstream failed since it last started over. */
  function Failures(ops: seq<Op>, uid: string): nat {
    if ops == [] then 0
    else
      var before, op := ops[..|ops| - 1], ops[|ops| - 1];
      if Resets(op, uid) then 0 else if Fails(op, uid) then Failures(before, uid) + 1 else Failures(before, uid)
  }

  /** How many of those failures reached the threshold while the circuit was not open. */
  function Openings(ops: seq<Op>, uid: string): nat {
    if ops == [] then 0
    else
      var before, op := ops[..|ops| - 1], ops[|ops| - 1];
      if Resets(op, uid) then 0
      else if Fails(op, uid) && Failures(ops, uid) >= op.st.threshold && !Open(At(Run(before), uid), op.now)
      then Openings(before, uid) + 1
      else Openings(before, uid)
  }

  function Capped(n: nat): u32 {
    if n > U32_MAX then U32_MAX else n
  }

  lemma Last(ops: seq<Op>, op: Op)
    ensures var all := ops + [op]; all[..|all| - 1] == ops && all[|all| - 1] == op
    ensures Run(ops + [op]) == Apply(Run(ops), op)
    ensures Timely(ops + [op]) <==> Timely(ops) && (op.Fail? ==> op.now >= Clock(ops))
    ensures Clock(ops + [op]) == if op.Fail? then op.now else Clock(ops)
  {
    var all := ops + [op];
    assert all[..|all| - 1] == ops && all[|all| - 1] == op;
  }

  // ---- windows ----

  lemma WindowBounds(st: Settings, n: nat)
    requires st.openS > 0.0
    ensures 0.0 < Window(st, n) <= Larger(st.openS, st.maxOpenS)
    ensures Window(st, n) >= st.openS
  {
    var shift := if n == 0 then 0 else if n - 1 > MAX_SHIFT then MAX_SHIFT else n - 1;
    Scaled(st.openS, Power(shift));
  }

  lemma Scaled(a: real, p: nat)
    requires a > 0.0 && p >= 1
    ensures a * p as real >= a
  {
    assert a * p as real == a + a * (p - 1) as real;
  }

  /** The first window doubled once for every further opening, four times at most, and
      never beyond the larger of the limits. */
  function Backoff(st: Settings, openings: nat): real
    requires openings >= 1
  {
    var doublings := if openings - 1 > 4 then 4 else openings - 1;
    Smaller(st.openS * Power(doublings) as real, Larger(st.openS, st.maxOpenS))
  }

  /** How long a circuit is opened for the n-th time: for that back-off, or for the opening
      time itself where that is not positive. */
  function Span(st: Settings, openings: nat): real
    requires openings >= 1
  {
    if st.openS > 0.0 then Backoff(st, openings) else st.openS
  }

  lemma WindowDoubles(st: Settings, n: nat)
    requires n >= 1
    ensures Window(st, n) == Span(st, n)
  {
    if st.openS > 0.0 {
      WindowBounds(st, n);
    } else {
      NotPositive(st.openS, Power(if n - 1 > MAX_SHIFT then MAX_SHIFT else n - 1));
    }
  }

  lemma NotPositive(a: real, p: nat)
    requires a <= 0.0
    ensures a * p as real <= 0.0
  {
  }

  // ---- what every run keeps ----

  lemma {:induction false} ClockPositive(ops: seq<Op>)
    requires Timely(ops)
    ensures Clock(ops) >= 0.0
  {
    if ops != [] {
      ClockPositive(ops[..|ops| - 1]);
    }
  }

  /** After any run the failure count is the number of failures since the upstream last
      recovered or was forgotten, and the back-off level the number of openings since. */
  lemma {:induction false} CountsKept(ops: seq<Op>, uid: string)
    ensures At(Run(ops), uid).fails == Capped(Failures(ops, uid))
    ensures At(Run(ops), uid).openCount == Capped(Openings(ops, uid))
  {
    if ops != [] {
      CountsKept(ops[..|ops| - 1], uid);
      hide Window;
    }
  }

  /** How many good probes of the upstream, or bad ones, there were since it was last
      forgotten. */
  function Probes(ops: seq<Op>, uid: string, good: bool): nat {
    if ops == [] then 0
    else
      var before, op := Probes(ops[..|ops| - 1], uid, good), ops[|ops| - 1];
      if op.Clear? || (op.Retain? && uid !in op.keep) then 0
      else if op == (if good then ProbeOk(uid) else ProbeFail(uid)) then before + 1
      else before
  }

  /** The probe counts are numbers of probes; a recovery does not reset them. */
  lemma {:induction false} ProbesCounted(ops: seq<Op>, uid: string)
    ensures var c, most := At(Run(ops), uid), 0xFFFF_FFFF_FFFF_FFFF;
            var good, bad := Probes(ops, uid, true), Probes(ops, uid, false);
            && c.probeOk == (if good > most then most else good)
            && c.probeFail == (if bad > most then most else bad)
  {
    if ops != [] {
      ProbesCounted(ops[..|ops| - 1], uid);
      hide Failed;
      if ops[|ops| - 1].Fail? {
        FailedProbes(ops[|ops| - 1], At(Run(ops[..|ops| - 1]), ops[|ops| - 1].uid));
      }
    }
  }

  lemma FailedProbes(op: Op, c: Circuit)
    requires op.Fail?
    ensures var d := Failed(c, op.st, op.now); d.probeOk == c.probeOk && d.probeFail == c.probeFail
  {
  }

  /** What has never been opened since has no deadline; with positive opening times only
      that has none. */
  lemma {:induction false} RunSound(ops: seq<Op>, uid: string)
    requires Timely(ops)
    ensures var c := At(Run(ops), uid);
            && (c.openCount == 0 ==> c.until == 0.0)
            && (Proper(ops) && c.openCount > 0 ==> c.until > 0.0)
  {
    if ops != [] {
      var before, op := ops[..|ops| - 1], ops[|ops| - 1];
      RunSound(before, uid);
      ClockPositive(before);
      if Fails(op, uid) && op.st.openS > 0.0 {
        var c := At(Run(before), uid);
        WindowBounds(op.st, c.openCount);
        WindowBounds(op.st, Saturating(c.openCount, U32_MAX));
      }
      hide Window, Clock;
    }
  }

  /** A failure that reaches the threshold leaves the circuit open if and only if the
      opening time is positive, and sets the deadline that belongs to the number of openings. */
  lemma FailureOpensIff(ops: seq<Op>, uid: string, now: real, st: Settings)
    requires Timely(ops) && now >= Clock(ops) && Failures(ops, uid) + 1 >= st.threshold
    ensures var all := ops + [Fail(uid, now, st)];
            var c := At(Run(all), uid);
            && Openings(all, uid) >= 1 && c.until == now + Span(st, Openings(all, uid))
            && (Open(c, now) <==> st.openS > 0.0)
  {
    hide Timely, Clock, Failed, Span, Failures, Openings;
    Last(ops, Fail(uid, now, st));
    CountsKept(ops, uid);
    CountsKept(ops + [Fail(uid, now, st)], uid);
    RunSound(ops, uid);
    ClockPositive(ops);
    FailedOpens(At(Run(ops), uid), st, now);
    SpanCapped(st, Openings(ops + [Fail(uid, now, st)], uid));
  }

  lemma FailedOpens(c: Circuit, st: Settings, now: real)
    requires Saturating(c.fails, U32_MAX) >= st.threshold && now >= 0.0 && (c.openCount == 0 ==> c.until == 0.0)
    ensures var d := Failed(c, st, now);
            d.openCount >= 1 && d.until == now + Span(st, d.openCount) && (Open(d, now) <==> st.openS > 0.0)
  {
    var d := Failed(c, st, now);
    WindowDoubles(st, d.openCount);
    if st.openS > 0.0 {
      WindowBounds(st, d.openCount);
    }
    hide Window, Power, Larger, Smaller, Backoff;
  }

  lemma SpanCapped(st: Settings, n: nat)
    requires n >= 1
    ensures Span(st, n) == Span(st, Capped(n))
  {
  }

  /** A failure below the threshold is counted and changes nothing else. */
  lemma FewFailuresKeep(ops: seq<Op>, uid: string, now: real, st: Settings)
    requires Failures(ops, uid) + 1 < st.threshold
    ensures var c, d := At(Run(ops), uid), At(Run(ops + [Fail(uid, now, st)]), uid);
            d == c.(fails := d.fails) && d.fails == c.fails + 1
  {
    Last(ops, Fail(uid, now, st));
    CountsKept(ops, uid);
    hide Window;
  }

  /** An opened circuit's deadline is the window of its level after one of its failures. */
  lemma {:induction false} RunDated(ops: seq<Op>, uid: string) returns (i: nat)
    requires Timely(ops) && At(Run(ops), uid).openCount > 0
    ensures i < |ops| && Fails(ops[i], uid) && ops[i].now <= Clock(ops)
    ensures var c := At(Run(ops), uid); c.until == ops[i].now + Window(ops[i].st, c.openCount)
  {
    var before, op := ops[..|ops| - 1], ops[|ops| - 1];
    var c := At(Run(before), uid);
    hide Window, Clock;
    if Fails(op, uid) && Saturating(c.fails, U32_MAX) >= op.st.threshold {
      i := |ops| - 1;
      ClockAt(ops);
    } else {
      i := RunDated(before, uid);
      ClockAt(ops);
    }
  }

  lemma ClockAt(ops: seq<Op>)
    requires ops != []
    ensures var op := ops[|ops| - 1]; Clock(ops) == if op.Fail? then op.now else Clock(ops[..|ops| - 1])
  {
  }

  // ---- when the deadline moves back ----

  /** No window of `b` is shorter than that of `a` at the same level. From the fifth
      level on the windows stay the same. */
  predicate NoShorter(a: Settings, b: Settings) {
    forall n :: 1 <= n <= 5 ==> Window(a, n) <= Window(b, n)
  }

  /** Each failure of the upstream comes with settings no shorter than earlier ones. */
  predicate Widening(ops: seq<Op>, uid: string) {
    forall i, j :: 0 <= i < j < |ops| && Fails(ops[i], uid) && Fails(ops[j], uid) ==> NoShorter(ops[i].st, ops[j].st)
  }

  lemma NoShorterAt(a: Settings, b: Settings, n: nat)
    requires NoShorter(a, b) && n >= 1
    ensures Window(a, n) <= Window(b, n)
  {
    hide Window;
    if n > 5 {
      WindowRepeats(a, n);
      WindowRepeats(b, n);
    }
  }

  lemma WindowRepeats(st: Settings, n: nat)
    requires n > 5
    ensures Window(st, n) == Window(st, 5)
  {
  }

  /** While no setting makes a window shorter, the deadline of an upstream moves back only
      when that very upstream recovers or is forgotten. */
  lemma DeadlineNeverBack(ops: seq<Op>, op: Op, uid: string)
    requires Proper(ops + [op]) && Timely(ops + [op]) && Widening(ops + [op], uid) && !Resets(op, uid)
    ensures At(Run(ops + [op]), uid).until >= At(Run(ops), uid).until
  {
    hide Timely, Clock, Window, NoShorter;
    var all, c := ops + [op], At(Run(ops), uid);
    Last(ops, op);
    RunSound(ops, uid);
    ClockPositive(ops);
    if Fails(op, uid) {
      assert all[|ops|].st.openS > 0.0;
      WindowBounds(op.st, c.openCount);
      WindowBounds(op.st, Saturating(c.openCount, U32_MAX));
      if c.openCount > 0 {
        var i := RunDated(ops, uid);
        assert all[i] == ops[i] && all[|ops|] == op;
        NoShorterAt(ops[i].st, op.st, c.openCount);
      }
    }
  }

  /** Whatever the settings, the deadline moves back exactly when a failure that reaches
      the threshold is given one that comes sooner. */
  lemma DeadlineBackIff(ops: seq<Op>, op: Op, uid: string)
    requires Timely(ops + [op]) && !Resets(op, uid)
    ensures var c := At(Run(ops), uid);
            At(Run(ops + [op]), uid).until < c.until <==>
              && Fails(op, uid) && Failures(ops, uid) + 1 >= op.st.threshold && Openings(ops + [op], uid) >= 1
              && op.now + Span(op.st, Openings(ops + [op], uid)) < c.until
  {
    hide Timely, Clock, Window, Span;
    Last(ops, op);
    if Fails(op, uid) {
      if Failures(ops, uid) + 1 >= op.st.threshold {
        FailureOpensIff(ops, uid, op.now, op.st);
      } else {
        FewFailuresKeep(ops, uid, op.now, op.st);
      }
    }
  }

  /** Only failures under `a`, then one under `b`. */
  predicate Under(ops: seq<Op>, op: Op, a: Settings, b: Settings) {
    op.Fail? && op.st == b && forall i :: 0 <= i < |ops| ==> ops[i].Fail? ==> ops[i].st == a
  }

  ghost predicate MovesBack(ops: seq<Op>, op: Op, uid: string) {
    Timely(ops + [op]) && !Resets(op, uid) && At(Run(ops + [op]), uid).until < At(Run(ops), uid).until
  }

  /** Changing the settings from `a` to `b` can move a deadline back exactly when some
      window of `b` is shorter than that of `a`. */
  lemma SettingsMoveBackIff(a: Settings, b: Settings)
    requires a.openS > 0.0 && b.openS > 0.0
    ensures (exists ops, op, uid :: Under(ops, op, a, b) && MovesBack(ops, op, uid)) <==> !NoShorter(a, b)
  {
    hide NoShorter, Under, MovesBack;
    if !NoShorter(a, b) {
      var ops, op := ShorterMovesBack(a, b);
      assert Under(ops, op, a, b) && MovesBack(ops, op, "u");
    } else {
      forall ops, op, uid | Under(ops, op, a, b)
        ensures !MovesBack(ops, op, uid)
      {
        NoShorterKeeps(ops, op, uid, a, b);
      }
    }
  }

  lemma NoShorterKeeps(ops: seq<Op>, op: Op, uid: string, a: Settings, b: Settings)
    requires a.openS > 0.0 && b.openS > 0.0 && NoShorter(a, b) && Under(ops, op, a, b)
    ensures !MovesBack(ops, op, uid)
  {
    hide Timely, Clock, Window, Run;
    var all := ops + [op];
    if MovesBack(ops, op, uid) {
      assert forall i :: 0 <= i < |ops| ==> all[i] == ops[i];
      assert NoShorter(a, a);
      hide NoShorter;
      DeadlineNeverBack(ops, op, uid);
    }
  }

  /** Failures of one upstream: as many as the number of thresholds asks for, at the
      start, and then one at each deadline until the level is reached. */
  function Climb(a: Settings, count: nat, n: nat): seq<Op>
    requires n >= 1
  {
    if n > 1 then
      var before := Climb(a, count, n - 1);
      before + [Fail("u", At(Run(before), "u").until, a)]
    else if count == 0 then []
    else Climb(a, count - 1, 1) + [Fail("u", 0.0, a)]
  }

  predicate AllUnder(ops: seq<Op>, a: Settings) {
    forall i :: 0 <= i < |ops| ==> ops[i].Fail? && ops[i].uid == "u" && ops[i].st == a
  }

  /** One failure more. */
  lemma OneMore(ops: seq<Op>, now: real, a: Settings)
    requires a.openS > 0.0 && Timely(ops) && AllUnder(ops, a) && now >= Clock(ops)
    ensures var all := ops + [Fail("u", now, a)];
            var c, d := At(Run(ops), "u"), At(Run(all), "u");
            && Timely(all) && AllUnder(all, a) && Clock(all) == now && Failures(all, "u") == Failures(ops, "u") + 1
            && d == Failed(c, a, now) && c.fails == Capped(Failures(ops, "u"))
  {
    hide Timely, Clock, Window, Failed;
    Last(ops, Fail("u", now, a));
    CountsKept(ops, "u");
  }

  lemma {:induction false} ClimbFirst(a: Settings, count: nat)
    requires a.openS > 0.0
    ensures var ops := Climb(a, count, 1);
            var c := At(Run(ops), "u");
            && Timely(ops) && Clock(ops) == 0.0 && AllUnder(ops, a) && Failures(ops, "u") == count
            && (if count >= a.threshold && count >= 1 then c.openCount == 1 && c.until == Window(a, 1)
                else c.openCount == 0 && c.until == 0.0)
  {
    hide Window, Timely, Clock, Failures;
    if count == 0 {
      ClimbStart();
    } else {
      ClimbFirst(a, count - 1);
      OneMore(Climb(a, count - 1, 1), 0.0, a);
      WindowBounds(a, 1);
    }
  }

  /** How the climb leaves the circuit. */
  lemma {:induction false} Climbed(a: Settings, count: nat, n: nat)
    requires a.openS > 0.0 && 1 <= n <= 5 && count >= a.threshold && count >= 1
    ensures var ops := Climb(a, count, n);
            var c := At(Run(ops), "u");
            && Timely(ops) && AllUnder(ops, a) && Failures(ops, "u") >= count
            && c.openCount == n && c.until == Clock(ops) + Window(a, n)
    decreases n
  {
    hide Window, Timely, Clock, Failures, Run;
    if n == 1 {
      ClimbFirst(a, count);
    } else {
      var before := Climb(a, count, n - 1);
      Climbed(a, count, n - 1);
      WindowBounds(a, n - 1);
      OneMore(before, At(Run(before), "u").until, a);
    }
  }

  lemma ClimbStart()
    ensures Timely([]) && Clock([]) == 0.0 && Failures([], "u") == 0
  {
  }

  lemma ShorterMovesBack(a: Settings, b: Settings) returns (ops: seq<Op>, op: Op)
    requires a.openS > 0.0 && b.openS > 0.0 && !NoShorter(a, b)
    ensures Under(ops, op, a, b) && MovesBack(ops, op, "u")
  {
    hide Window, Timely, Clock, Run, Failed;
    var n :| 1 <= n <= 5 && Window(b, n) < Window(a, n);
    var count := 1 + a.threshold + b.threshold;
    ops := Climb(a, count, n);
    op := Fail("u", Clock(ops), b);
    Climbed(a, count, n);
    CountsKept(ops, "u");
    WindowBounds(a, n);
    Last(ops, op);
    Refreshed(At(Run(ops), "u"), b, Clock(ops));
  }

  lemma Refreshed(c: Circuit, st: Settings, now: real)
    requires Open(c, now) && c.fails >= st.threshold
    ensures Failed(c, st, now).until == now + Window(st, c.openCount)
  {
  }

  /** For example two failures, the second under a shorter opening time. */
  lemma ShorterWindowMovesBack()
    ensures var ops := [Fail("u", 0.0, Settings(1, 30.0, 0.0))];
            var next := Fail("u", 1.0, Settings(1, 10.0, 0.0));
            At(Run(ops + [next]), "u").until == 11.0 && At(Run(ops), "u").until == 30.0
  {
    var first, next := Fail("u", 0.0, Settings(1, 30.0, 0.0)), Fail("u", 1.0, Settings(1, 10.0, 0.0));
    Last([], first);
    Last([first], next);
    assert [] + [first] == [first];
  }

  /** Probe failures, everything about other upstreams, and keeping the upstream, leave a
      circuit as open or as closed as it was, at every time. */
  lemma OthersDoNotMatter(m: Circuits, op: Op, uid: string, now: real)
    requires !Resets(op, uid) && !Fails(op, uid)
    ensures Open(At(Apply(m, op), uid), now) == Open(At(m, uid), now)
    ensures At(Apply(m, op), uid).fails == At(m, uid).fails
    ensures At(Apply(m, op), uid).openCount == At(m, uid).openCount
  {
  }

  /** A recovery or being forgotten leaves the circuit closed at every time. */
  lemma ResetCloses(m: Circuits, op: Op, uid: string, now: real)
    requires Resets(op, uid) && now >= 0.0
    ensures !Open(At(Apply(m, op), uid), now) && At(Apply(m, op), uid).fails == 0
  {
  }

  // ---- the shared object ----

  class SharedCircuit {
    var circuits: Circuits
    var allOpen: nat
    var lastAllOpen: seq<string>

    constructor ()
      ensures circuits == map[] && allOpen == 0 && lastAllOpen == []
    {
      circuits, allOpen, lastAllOpen := map[], 0, [];
    }

    method RecordFail(uid: string, now: real, st: Settings)
      modifies this`circuits
      ensures circuits == Apply(old(circuits), Fail(uid, now, st))
    {
      var s := if uid in circuits then circuits[uid] else CLOSED;
      s := s.(fails := Saturating(s.fails, U32_MAX));
      circuits := circuits[uid := s];
      if s.fails < st.threshold {
        return;
      }
      if s.until <= now {
        s := s.(openCount := Saturating(s.openCount, U32_MAX));
      }
      s := s.(until := now + Window(st, s.openCount));
      circuits := circuits[uid := s];
    }

    method RecordOk(uid: string)
      modifies this`circuits
      ensures circuits == Apply(old(circuits), Success(uid))
    {
      if uid in circuits {
        circuits := circuits[uid := circuits[uid].(fails := 0, until := 0.0, openCount := 0)];
      }
    }

    /** Whether there was anything to recover from. */
    method RecordProbeOk(uid: string) returns (recovered: bool)
      modifies this`circuits
      ensures circuits == Apply(old(circuits), ProbeOk(uid))
      ensures recovered <==> At(old(circuits), uid).until > 0.0 || At(old(circuits), uid).fails > 0
    {
      var s := if uid in circuits then circuits[uid] else CLOSED;
      s := s.(probeOk := Saturating(s.probeOk, U64_MAX));
      recovered := s.until > 0.0 || s.fails > 0;
      s := s.(fails := 0, until := 0.0, openCount := 0);
      circuits := circuits[uid := s];
    }

    method RecordProbeFail(uid: string) returns (count: nat)
      modifies this`circuits
      ensures circuits == Apply(old(circuits), ProbeFail(uid))
      ensures count == At(circuits, uid).probeFail
    {
      var s := if uid in circuits then circuits[uid] else CLOSED;
      s := s.(probeFail := Saturating(s.probeFail, U64_MAX));
      circuits := circuits[uid := s];
      count := s.probeFail;
    }

    method IsOpen(uid: string, now: real) returns (b: bool)
      ensures b == (uid in circuits && Open(circuits[uid], now))
    {
      b := uid in circuits && circuits[uid].until > now;
    }

    /** Notes that every upstream was open and one was let through all the same. */
    method NoteAllOpen(ids: seq<string>) returns (count: nat)
      modifies this`allOpen, this`lastAllOpen
      ensures lastAllOpen == ids && allOpen == old(allOpen) + 1 && count == allOpen
    {
      lastAllOpen, allOpen := ids, allOpen + 1;
      count := allOpen;
    }

    method Retain(keep: set<string>)
      modifies this`circuits
      ensures circuits == Apply(old(circuits), Op.Retain(keep))
      ensures forall u :: u in circuits <==> u in old(circuits) && u in keep
      ensures forall u :: u in circuits ==> circuits[u] == old(circuits)[u]
    {
      circuits := map u | u in circuits && u in keep :: circuits[u];
    }

    /** Forgets every upstream and the count. */
    method Clear()
      modifies this
      ensures circuits == Apply(old(circuits), Op.Clear)
      ensures circuits == map[] && lastAllOpen == [] && allOpen == 0
    {
      circuits, lastAllOpen, allOpen := map[], [], 0;
    }
  }
}
