/** Single-flight: concurrent callers of one key share a cell that is filled once. The
    callers move in atomic steps, in any order; a caller may give up while it waits or
    while it computes. */
module SingleFlight {

  type Key = string
  type Answer = string

  /** A cell is empty, being filled by one caller, or filled for good. */
  datatype Cell = Empty | Running(who: nat) | Filled(answer: Answer, who: nat)

  datatype Entry = Entry(key: Key, refs: nat, cell: Cell)

  /** Where a caller stands. `Joined` has its entry but is not counted yet; `Leaving` has
      its outcome and is about to be discounted; `Unmapping` was the last one counted. */
  datatype Caller =
    | Idle
    | Joined(entry: nat)
    | Counted(entry: nat)
    | Computing(entry: nat)
    | Leaving(entry: nat, outcome: Outcome)
    | Unmapping(entry: nat, outcome: Outcome)
    | Gone(entry: nat, outcome: Outcome)

  /** Cancelled, or an answer with the tag that says whether this caller computed it. */
  datatype Outcome = Cancelled | Got(answer: Answer, leader: bool)

  datatype State = State(table: map<Key, nat>, entries: seq<Entry>, callers: seq<Caller>)

  datatype Step =
    | Join(p: nat, key: Key)
    | Count(p: nat)
    | Run(p: nat)
    | Finish(p: nat, answer: Answer)
    | Read(p: nat)
    | Cancel(p: nat)
    | Uncount(p: nat)
    | Unmap(p: nat)

  predicate Enabled(s: State, step: Step) {
    step.p < |s.callers| && CanTake(s, s.callers[step.p], step)
  }

  predicate CanTake(s: State, c: Caller, step: Step) {
    && (step.Join? || (!c.Idle? && c.entry < |s.entries|))
    && match step
       case Join(_, k) => c.Idle? && (k in s.table ==> s.table[k] < |s.entries|)
       case Count(_) => c.Joined?
       case Run(_) => c.Counted? && s.entries[c.entry].cell.Empty?
       case Finish(_, _) => c.Computing?
       case Read(_) => c.Counted? && s.entries[c.entry].cell.Filled?
       case Cancel(_) => c.Counted? || c.Computing?
       case Uncount(_) => c.Leaving? && s.entries[c.entry].refs > 0
       case Unmap(_) => c.Unmapping?
  }

  function SetCaller(s: State, p: nat, c: Caller): State
    requires p < |s.callers|
  {
    s.(callers := s.callers[p := c])
  }

  function SetEntry(s: State, e: nat, entry: Entry): State
    requires e < |s.entries|
  {
    s.(entries := s.entries[e := entry])
  }

  /** The shared entry of the key, made if there is none. */
  function DoJoin(s: State, p: nat, k: Key): State
    requires p < |s.callers|
  {
    if k in s.table then SetCaller(s, p, Joined(s.table[k]))
    else
      State(s.table[k := |s.entries|], s.entries + [Entry(k, 0, Empty)], s.callers[p := Joined(|s.entries|)])
  }

  function DoUncount(s: State, p: nat): State
    requires Enabled(s, Uncount(p))
  {
    var c := s.callers[p];
    var entry := s.entries[c.entry];
    SetCaller(SetEntry(s, c.entry, entry.(refs := entry.refs - 1)), p,
              if entry.refs == 1 then Unmapping(c.entry, c.outcome) else Gone(c.entry, c.outcome))
  }

  /** Only the caller's own generation of the entry is taken out of the table. */
  function DoUnmap(s: State, p: nat): State
    requires Enabled(s, Unmap(p))
  {
    var c := s.callers[p];
    var k := s.entries[c.entry].key;
    var kept := if k in s.table && s.table[k] == c.entry then s.(table := s.table - {k}) else s;
    SetCaller(kept, p, Gone(c.entry, c.outcome))
  }

  function Do(s: State, step: Step): State
    requires Enabled(s, step)
  {
    var c := s.callers[step.p];
    match step
    case Join(p, k) => DoJoin(s, p, k)
    case Count(p) =>
      SetCaller(SetEntry(s, c.entry, s.entries[c.entry].(refs := s.entries[c.entry].refs + 1)), p, Counted(c.entry))
    case Run(p) =>
      SetCaller(SetEntry(s, c.entry, s.entries[c.entry].(cell := Running(p))), p, Computing(c.entry))
    case Finish(p, a) =>
      SetCaller(SetEntry(s, c.entry, s.entries[c.entry].(cell := Filled(a, p))), p, Leaving(c.entry, Got(a, true)))
    case Read(p) =>
      SetCaller(s, p, Leaving(c.entry, Got(s.entries[c.entry].cell.answer, false)))
    case Cancel(p) =>
      var kept := if c.Computing? then SetEntry(s, c.entry, s.entries[c.entry].(cell := Empty)) else s;
      SetCaller(kept, p, Leaving(c.entry, Cancelled))
    case Uncount(p) => DoUncount(s, p)
    case Unmap(p) => DoUnmap(s, p)
  }

  // ---- the invariant ----

  /** This caller is counted in the entry's `refs`. */
  predicate Holds(c: Caller, e: nat) {
    (c.Counted? || c.Computing? || c.Leaving?) && c.entry == e
  }

  function Holders(callers: seq<Caller>, e: nat): nat {
    if callers == [] then 0
    else Holders(callers[..|callers| - 1], e) + if Holds(callers[|callers| - 1], e) then 1 else 0
  }

  lemma {:induction false} HoldersUpdate(callers: seq<Caller>, p: nat, c: Caller, e: nat)
    requires p < |callers|
    ensures Holders(callers[p := c], e) + (if Holds(callers[p], e) then 1 else 0)
         == Holders(callers, e) + (if Holds(c, e) then 1 else 0)
  {
    var n := |callers| - 1;
    if p == n {
      assert callers[p := c][..n] == callers[..n];
    } else {
      HoldersUpdate(callers[..n], p, c, e);
      assert callers[p := c][..n] == callers[..n][p := c];
    }
  }

  lemma {:induction false} HolderExists(callers: seq<Caller>, e: nat) returns (p: nat)
    requires Holders(callers, e) > 0
    ensures p < |callers| && Holds(callers[p], e)
  {
    var n := |callers| - 1;
    if Holds(callers[n], e) {
      p := n;
    } else {
      p := HolderExists(callers[..n], e);
    }
  }

  /** This caller is still on its way through the entry. */
  predicate Active(c: Caller, e: nat) {
    !c.Idle? && !c.Gone? && c.entry == e
  }

  /** What a caller's place says about its cell. */
  predicate CallerFits(s: State, p: nat)
    requires p < |s.callers|
  {
    var c := s.callers[p];
    c.Idle? ||
    (c.entry < |s.entries|
     && var cell := s.entries[c.entry].cell;
        && (c.Computing? <==> cell == Running(p))
        && (c.Leaving? || c.Unmapping? || c.Gone? ==>
              c.outcome.Cancelled? || (cell.Filled? && cell.answer == c.outcome.answer
                  && (c.outcome.leader <==> cell.who == p)))
        && (c.Joined? || c.Counted? ==> cell.Filled? ==> cell.who != p))
  }

  predicate EntryFits(s: State, e: nat)
    requires e < |s.entries|
  {
    var entry := s.entries[e];
    && entry.refs == Holders(s.callers, e)
    && (entry.cell.Running? ==> entry.cell.who < |s.callers| && s.callers[entry.cell.who] == Computing(e))
    && (entry.cell.Filled? ==> entry.cell.who < |s.callers| && HasLed(s.callers[entry.cell.who], e, entry.cell.answer))
  }

  /** The caller that filled a cell leaves with that answer, tagged as its leader. */
  predicate HasLed(c: Caller, e: nat, a: Answer) {
    (c.Leaving? || c.Unmapping? || c.Gone?) && c.entry == e && c.outcome == Got(a, true)
  }

  ghost predicate KeyFits(s: State, k: Key)
    requires k in s.table
  {
    && s.table[k] < |s.entries| && s.entries[s.table[k]].key == k
    && exists p :: 0 <= p < |s.callers| && Active(s.callers[p], s.table[k])
  }

  ghost predicate Inv(s: State) {
    && (forall p :: 0 <= p < |s.callers| ==> CallerFits(s, p))
    && (forall e :: 0 <= e < |s.entries| ==> EntryFits(s, e))
    && (forall k :: k in s.table ==> KeyFits(s, k))
  }

  function Start(n: nat): State {
    State(map[], [], seq(n, _ => Idle))
  }

  lemma StartInv(n: nat)
    ensures Inv(Start(n))
  {
  }

  // ---- every step keeps the invariant ----

  /** How the caller `p` may change a cell. */
  predicate CellMove(a: Cell, b: Cell, p: nat) {
    b == a || (a.Empty? && b == Running(p)) || (a == Running(p) && (b.Empty? || (b.Filled? && b.who == p)))
  }

  /** Only the caller `p` and, in a legal way, its entry have changed. */
  ghost predicate Moved(s: State, s': State, p: nat, e: nat) {
    && p < |s.callers| == |s'.callers| && e < |s.entries| == |s'.entries|
    && (forall q :: 0 <= q < |s.callers| && q != p ==> s'.callers[q] == s.callers[q])
    && (forall x :: 0 <= x < |s.entries| && x != e ==> s'.entries[x] == s.entries[x])
    && s'.entries[e].key == s.entries[e].key && CellMove(s.entries[e].cell, s'.entries[e].cell, p)
    && (s.callers[p].Idle? || s.callers[p].entry == e)
    && !s'.callers[p].Idle? && s'.callers[p].entry == e
  }

  lemma OtherCallers(s: State, s': State, p: nat, e: nat, q: nat)
    requires Inv(s) && Moved(s, s', p, e) && q < |s.callers| && q != p
    ensures CallerFits(s', q)
  {
    assert CallerFits(s, q);
  }

  lemma OtherEntries(s: State, s': State, p: nat, e: nat, x: nat)
    requires Inv(s) && Moved(s, s', p, e) && x < |s.entries| && x != e
    ensures EntryFits(s', x)
  {
    assert s'.callers == s.callers[p := s'.callers[p]];
    HoldersUpdate(s.callers, p, s'.callers[p], x);
    assert EntryFits(s, x);
    assert CallerFits(s, p);
  }

  /** The entry whose caller moved. */
  lemma MovedEntry(s: State, s': State, p: nat, e: nat)
    requires Inv(s) && Moved(s, s', p, e) && CallerFits(s', p)
    requires s'.entries[e].refs + (if Holds(s.callers[p], e) then 1 else 0) == s.entries[e].refs
             + (if Holds(s'.callers[p], e) then 1 else 0)
    requires forall a :: HasLed(s.callers[p], e, a) ==> HasLed(s'.callers[p], e, a)
    requires s'.entries[e].cell.Filled? && s'.entries[e].cell != s.entries[e].cell ==>
             HasLed(s'.callers[p], e, s'.entries[e].cell.answer)
    ensures EntryFits(s', e)
  {
    assert s'.callers == s.callers[p := s'.callers[p]];
    HoldersUpdate(s.callers, p, s'.callers[p], e);
    assert EntryFits(s, e);
    assert CallerFits(s, p);
  }

  lemma MovedKeys(s: State, s': State, p: nat, e: nat)
    requires Inv(s) && Moved(s, s', p, e) && s'.table == s.table && Active(s'.callers[p], e)
    ensures forall k :: k in s'.table ==> KeyFits(s', k)
  {
    forall k | k in s'.table
      ensures KeyFits(s', k)
    {
      assert KeyFits(s, k);
      var q :| 0 <= q < |s.callers| && Active(s.callers[q], s.table[k]);
      assert Active(s'.callers[q], s.table[k]);
    }
  }

  lemma MovedInv(s: State, s': State, p: nat, e: nat)
    requires Inv(s) && Moved(s, s', p, e) && CallerFits(s', p) && EntryFits(s', e)
    requires forall k :: k in s'.table ==> KeyFits(s', k)
    ensures Inv(s')
  {
    forall q | 0 <= q < |s'.callers|
      ensures CallerFits(s', q)
    {
      if q != p {
        OtherCallers(s, s', p, e, q);
      }
    }
    forall x | 0 <= x < |s'.entries|
      ensures EntryFits(s', x)
    {
      if x != e {
        OtherEntries(s, s', p, e, x);
      }
    }
  }

  /** A step that leaves the table alone and its caller on the way. */
  lemma PlainStep(s: State, step: Step)
    requires Inv(s) && Enabled(s, step) && (step.Count? || step.Run? || step.Finish? || step.Read? || step.Cancel?)
    ensures Inv(Do(s, step))
  {
    var p, s' := step.p, Do(s, step);
    var e := s.callers[p].entry;
    assert CallerFits(s, p) && EntryFits(s, e);
    hide Inv, EntryFits;
    assert Moved(s, s', p, e);
    assert CallerFits(s', p);
    MovedEntry(s, s', p, e);
    MovedKeys(s, s', p, e);
    MovedInv(s, s', p, e);
  }

  lemma JoinInv(s: State, p: nat, k: Key)
    requires Inv(s) && Enabled(s, Join(p, k))
    ensures Inv(DoJoin(s, p, k))
  {
    var s' := DoJoin(s, p, k);
    if k in s.table {
      var e := s.table[k];
      assert KeyFits(s, k) && EntryFits(s, e) && CallerFits(s, p);
      assert Moved(s, s', p, e);
      MovedEntry(s, s', p, e);
      MovedKeys(s, s', p, e);
      MovedInv(s, s', p, e);
    } else {
      JoinNew(s, p, k);
    }
  }

  lemma {:induction false} NoHolders(callers: seq<Caller>, e: nat)
    requires forall q :: 0 <= q < |callers| ==> callers[q].Idle? || callers[q].entry < e
    ensures Holders(callers, e) == 0
  {
    if callers != [] {
      NoHolders(callers[..|callers| - 1], e);
    }
  }

  /** The first caller of a key makes its entry. */
  lemma JoinNew(s: State, p: nat, k: Key)
    requires Inv(s) && Enabled(s, Join(p, k)) && k !in s.table
    ensures Inv(DoJoin(s, p, k))
  {
    var s', e := DoJoin(s, p, k), |s.entries|;
    forall q | 0 <= q < |s.callers|
      ensures CallerFits(s', q) && (s.callers[q].Idle? || s.callers[q].entry < e)
    {
      assert CallerFits(s, q);
    }
    NoHolders(s.callers, e);
    forall x | 0 <= x < |s'.entries|
      ensures EntryFits(s', x)
    {
      HoldersUpdate(s.callers, p, Joined(e), x);
      if x < e {
        assert EntryFits(s, x);
      }
    }
    forall j | j in s'.table
      ensures KeyFits(s', j)
    {
      if j == k {
        assert Active(s'.callers[p], e);
      } else {
        assert KeyFits(s, j);
        var q :| 0 <= q < |s.callers| && Active(s.callers[q], s.table[j]);
        assert Active(s'.callers[q], s.table[j]);
      }
    }
  }

  lemma UncountInv(s: State, p: nat)
    requires Inv(s) && Enabled(s, Uncount(p))
    ensures Inv(DoUncount(s, p))
  {
    var s', e := DoUncount(s, p), s.callers[p].entry;
    assert CallerFits(s, p) && EntryFits(s, e);
    assert Moved(s, s', p, e);
    assert CallerFits(s', p);
    MovedEntry(s, s', p, e);
    if s.entries[e].refs == 1 {
      MovedKeys(s, s', p, e);
    } else {
      assert EntryFits(s', e);
      var other := HolderExists(s'.callers, e);
      forall k | k in s'.table
        ensures KeyFits(s', k)
      {
        assert KeyFits(s, k);
        var q :| 0 <= q < |s.callers| && Active(s.callers[q], s.table[k]);
        assert Active(s'.callers[if q == p then other else q], s.table[k]);
      }
    }
    MovedInv(s, s', p, e);
  }

  lemma UnmapInv(s: State, p: nat)
    requires Inv(s) && Enabled(s, Unmap(p))
    ensures Inv(DoUnmap(s, p))
  {
    var s', e := DoUnmap(s, p), s.callers[p].entry;
    assert CallerFits(s, p) && EntryFits(s, e);
    assert Moved(s, s', p, e);
    assert CallerFits(s', p);
    MovedEntry(s, s', p, e);
    forall k | k in s'.table
      ensures KeyFits(s', k)
    {
      assert KeyFits(s, k);
      var q :| 0 <= q < |s.callers| && Active(s.callers[q], s.table[k]);
      assert q != p;
      assert Active(s'.callers[q], s.table[k]);
    }
    MovedInv(s, s', p, e);
  }

  /** Every step of every caller keeps the invariant. */
  lemma StepInv(s: State, step: Step)
    requires Inv(s) && Enabled(s, step)
    ensures Inv(Do(s, step))
  {
    hide Inv, DoJoin, DoUncount, DoUnmap;
    match step {
      case Join(p, k) => JoinInv(s, p, k);
      case Uncount(p) => UncountInv(s, p);
      case Unmap(p) => UnmapInv(s, p);
      case _ => PlainStep(s, step);
    }
  }

  // ---- whole behaviours ----

  /** The steps can be taken one after the other. */
  predicate Possible(s: State, steps: seq<Step>)
    decreases |steps|
  {
    steps == [] || (Enabled(s, steps[0]) && Possible(Do(s, steps[0]), steps[1..]))
  }

  function After(s: State, steps: seq<Step>): State
    requires Possible(s, steps)
    decreases |steps|
  {
    if steps == [] then s else After(Do(s, steps[0]), steps[1..])
  }

  lemma {:induction false} BehaviourInv(s: State, steps: seq<Step>)
    requires Inv(s) && Possible(s, steps)
    ensures Inv(After(s, steps))
    decreases |steps|
  {
    hide Inv, Do, Enabled;
    if steps != [] {
      StepInv(s, steps[0]);
      BehaviourInv(Do(s, steps[0]), steps[1..]);
    }
  }

  /** Under every interleaving of any number of callers: at most one caller computes for
      a cell; all that return from it have the same answer; at most one of them is tagged
      as the leader, and it is the one that filled the cell. */
  lemma OnePerCell(n: nat, steps: seq<Step>, p: nat, q: nat)
    requires Possible(Start(n), steps)
    requires var s := After(Start(n), steps);
             && p < |s.callers| && q < |s.callers| && !s.callers[p].Idle? && !s.callers[q].Idle?
             && s.callers[p].entry == s.callers[q].entry
    ensures var s := After(Start(n), steps);
            var a, b := s.callers[p], s.callers[q];
            && a.entry < |s.entries|
            && (a.Computing? && b.Computing? ==> p == q)
            && (Returned(a) && Returned(b) ==> a.outcome.answer == b.outcome.answer)
            && (Returned(a) && Returned(b) && a.outcome.leader && b.outcome.leader ==> p == q)
            && (Returned(a) ==> s.entries[a.entry].cell.Filled? && s.entries[a.entry].cell.answer == a.outcome.answer
                                && (a.outcome.leader <==> s.entries[a.entry].cell.who == p))
            && (Returned(a) ==> !b.Computing?)
  {
    StartInv(n);
    BehaviourInv(Start(n), steps);
    var s := After(Start(n), steps);
    assert CallerFits(s, p) && CallerFits(s, q);
  }

  predicate Returned(c: Caller) {
    (c.Leaving? || c.Unmapping? || c.Gone?) && c.outcome.Got?
  }

  /** Once every caller is gone the table is empty. */
  lemma TableEmpties(n: nat, steps: seq<Step>)
    requires Possible(Start(n), steps)
    requires var s := After(Start(n), steps); forall p :: 0 <= p < |s.callers| ==>
             s.callers[p].Idle? || s.callers[p].Gone?
    ensures After(Start(n), steps).table == map[]
  {
    StartInv(n);
    BehaviourInv(Start(n), steps);
    var s := After(Start(n), steps);
    forall k
      ensures k !in s.table
    {
      assert k in s.table ==> KeyFits(s, k);
    }
  }

  /** A filled cell stays as it is: no second computation can even begin. */
  lemma FilledStays(s: State, step: Step, e: nat)
    requires Inv(s) && Enabled(s, step) && e < |s.entries| && s.entries[e].cell.Filled?
    ensures e < |Do(s, step).entries| && Do(s, step).entries[e].cell == s.entries[e].cell
    ensures !(step.Run? && s.callers[step.p].entry == e) && !(step.Finish? && s.callers[step.p].entry == e)
  {
    assert CallerFits(s, step.p);
  }

  /** A caller that comes while an entry with a filled cell is mapped shares it, and returns with
      its answer without computing. */
  lemma LateCallerReads(s: State, p: nat, k: Key) returns (steps: seq<Step>)
    requires Inv(s) && p < |s.callers| && s.callers[p].Idle?
    requires k in s.table && s.table[k] < |s.entries| && s.entries[s.table[k]].cell.Filled?
    ensures Possible(s, steps) && steps == [Join(p, k), Count(p), Read(p)]
    ensures var t, e := After(s, steps), s.table[k];
            p < |t.callers| && t.callers[p] == Leaving(e, Got(s.entries[e].cell.answer, false))
  {
    var s1 := Do(s, Join(p, k));
    var s2 := Do(s1, Count(p));
    var end := Do(s2, Read(p));
    assert Possible(end, []) && After(end, []) == end;
    hide Do, Enabled;
    steps := Before(s2, Read(p), end, []);
    steps := Before(s1, Count(p), end, steps);
    steps := Before(s, Join(p, k), end, steps);
  }

  /** A caller goes on to unmap the entry exactly when no other is counted on it. */
  lemma LastUnmaps(s: State, p: nat)
    requires Inv(s) && Enabled(s, Uncount(p))
    ensures var e, t := s.callers[p].entry, Do(s, Uncount(p));
            && (t.callers[p].Unmapping? <==> forall q :: 0 <= q < |s.callers| && q != p ==> !Holds(s.callers[q], e))
            && t.table == s.table
  {
    var c := s.callers[p];
    var e := c.entry;
    assert CallerFits(s, p) && EntryFits(s, e);
    HoldersUpdate(s.callers, p, Idle, e);
    var others := s.callers[p := Idle];
    if Holders(others, e) > 0 {
      var q := HolderExists(others, e);
      assert q != p && Holds(s.callers[q], e);
    } else {
      forall q | 0 <= q < |s.callers| && q != p
        ensures !Holds(s.callers[q], e)
      {
        HoldersUpdate(others, q, Idle, e);
      }
    }
  }

  /** A computation given up is not lost on the others: any waiting caller can run it
      from the start and return, as its leader, with its answer. The cell itself hands on in
      the order of its queue; letting any of them go next allows all that it does. */
  lemma CancelledCanRerun(s: State, p: nat, q: nat, a: Answer) returns (steps: seq<Step>)
    requires Inv(s) && Enabled(s, Cancel(p)) && s.callers[p].Computing?
    requires q < |s.callers| && q != p && s.callers[q] == Counted(s.callers[p].entry)
    ensures Possible(s, [Cancel(p)] + steps)
    ensures var t := After(s, [Cancel(p)] + steps);
            q < |t.callers| && t.callers[q] == Leaving(s.callers[p].entry, Got(a, true))
  {
    var s1 := Do(s, Cancel(p));
    var s2 := Do(s1, Run(q));
    var end := Do(s2, Finish(q, a));
    assert Possible(end, []) && After(end, []) == end;
    hide Do, Enabled;
    steps := Before(s2, Finish(q, a), end, []);
    steps := Before(s1, Run(q), end, steps);
    assert ([Cancel(p)] + steps)[1..] == steps;
  }

  /** No waiting caller is stuck: it can run, read, or the caller that computes for it
      can still finish. */
  lemma NoneStuck(s: State, q: nat, a: Answer)
    requires Inv(s) && q < |s.callers| && s.callers[q].Counted?
    ensures Enabled(s, Run(q)) || Enabled(s, Read(q))
              || exists p: nat :: Enabled(s, Finish(p, a)) && s.callers[p].entry == s.callers[q].entry
  {
    var e := s.callers[q].entry;
    assert CallerFits(s, q) && EntryFits(s, e);
    if s.entries[e].cell.Running? {
      assert Enabled(s, Finish(s.entries[e].cell.who, a));
    }
  }

  /** Leaving always ends: the entry still counts a caller that has yet to be discounted. */
  lemma LeavingCanLeave(s: State, p: nat)
    requires Inv(s) && p < |s.callers| && s.callers[p].Leaving?
    ensures Enabled(s, Uncount(p))
  {
    var e := s.callers[p].entry;
    assert CallerFits(s, p) && EntryFits(s, e);
    HoldersUpdate(s.callers, p, Idle, e);
  }

  // ---- one computation per key, and when there can be two ----

  /** This caller has yet to get its answer from the entry. */
  predicate Using(c: Caller, e: nat) {
    (c.Joined? || c.Counted? || c.Computing?) && c.entry == e
  }

  /** The step takes an unfilled entry out of the table while a caller still uses it. */
  ghost predicate Orphans(s: State, step: Step)
    requires Enabled(s, step)
  {
    step.Unmap? &&
    var e := s.callers[step.p].entry;
    && s.entries[e].key in s.table && s.table[s.entries[e].key] == e
    && !s.entries[e].cell.Filled?
    && exists q :: 0 <= q < |s.callers| && Using(s.callers[q], e)
  }

  /** No step of the behaviour orphans anyone. */
  ghost predicate NoOrphans(s: State, steps: seq<Step>)
    requires Possible(s, steps)
    decreases |steps|
  {
    steps == [] || (!Orphans(s, steps[0]) && NoOrphans(Do(s, steps[0]), steps[1..]))
  }

  /** Whoever uses an unfilled entry finds it in the table. */
  ghost predicate Mapped(s: State) {
    forall p :: 0 <= p < |s.callers| ==> MappedAt(s, p)
  }

  predicate MappedAt(s: State, p: nat)
    requires p < |s.callers|
  {
    var c := s.callers[p];
    (c.Joined? || c.Counted? || c.Computing?) && c.entry < |s.entries| && !s.entries[c.entry].cell.Filled? ==>
      s.entries[c.entry].key in s.table && s.table[s.entries[c.entry].key] == c.entry
  }

  /** Two callers compute for the key. */
  ghost predicate Twice(s: State, k: Key) {
    exists p, q :: ComputeBoth(s, k, p, q)
  }

  predicate ComputeBoth(s: State, k: Key, p: nat, q: nat) {
    && p < |s.callers| && q < |s.callers| && p != q
    && ComputesFor(s, k, s.callers[p]) && ComputesFor(s, k, s.callers[q])
  }

  predicate ComputesFor(s: State, k: Key, c: Caller) {
    c.Computing? && c.entry < |s.entries| && s.entries[c.entry].key == k
  }

  lemma StepMapped(s: State, step: Step)
    requires Inv(s) && Mapped(s) && Enabled(s, step) && !Orphans(s, step)
    ensures Mapped(Do(s, step))
  {
    var s' := Do(s, step);
    forall q | 0 <= q < |s'.callers|
      ensures MappedAt(s', q)
    {
      assert CallerFits(s, q) && CallerFits(s, step.p) && MappedAt(s, q) && MappedAt(s, step.p);
      StepMappedAt(s, step, q);
    }
  }

  lemma StepMappedAt(s: State, step: Step, q: nat)
    requires Inv(s) && Enabled(s, step) && !Orphans(s, step) && q < |s.callers|
    requires CallerFits(s, q) && CallerFits(s, step.p) && MappedAt(s, q) && MappedAt(s, step.p)
    ensures |Do(s, step).callers| == |s.callers| && MappedAt(Do(s, step), q)
  {
    match step {
      case Join(p, k) => assert k in s.table ==> KeyFits(s, k);
      case Unmap(p) => assert Using(s.callers[q], s.callers[p].entry) || !Using(s.callers[q], s.callers[p].entry);
      case _ =>
    }
  }

  lemma {:induction false} BehaviourMapped(s: State, steps: seq<Step>)
    requires Inv(s) && Mapped(s) && Possible(s, steps) && NoOrphans(s, steps)
    ensures Inv(After(s, steps)) && Mapped(After(s, steps))
    decreases |steps|
  {
    hide Inv, Mapped, Do, Enabled, Orphans;
    if steps != [] {
      StepInv(s, steps[0]);
      StepMapped(s, steps[0]);
      BehaviourMapped(Do(s, steps[0]), steps[1..]);
    }
  }

  /** Under every interleaving in which no unfilled entry is unmapped while a caller
      still uses it, at most one caller computes for a key at a time. */
  lemma OnePerKey(n: nat, steps: seq<Step>, k: Key)
    requires Possible(Start(n), steps) && NoOrphans(Start(n), steps)
    ensures !Twice(After(Start(n), steps), k)
  {
    StartInv(n);
    BehaviourMapped(Start(n), steps);
    var s := After(Start(n), steps);
    forall p: nat, q: nat
      ensures !ComputeBoth(s, k, p, q)
    {
      if p < |s.callers| && q < |s.callers| {
        NotBoth(s, k, p, q);
      }
    }
  }

  lemma NotBoth(s: State, k: Key, p: nat, q: nat)
    requires Inv(s) && Mapped(s) && p < |s.callers| && q < |s.callers|
    ensures !ComputeBoth(s, k, p, q)
  {
    assert MappedAt(s, p) && MappedAt(s, q) && CallerFits(s, p) && CallerFits(s, q);
  }

  /** That condition cannot be weakened: wherever such an unmapping is possible and one
      more caller may come, it can be followed by two computations for the key. */
  lemma OrphaningAllowsTwo(s: State, p: nat, r: nat) returns (steps: seq<Step>)
    requires Inv(s) && Enabled(s, Unmap(p)) && Orphans(s, Unmap(p))
    requires r < |s.callers| && s.callers[r].Idle?
    ensures Possible(s, [Unmap(p)] + steps)
    ensures Twice(After(s, [Unmap(p)] + steps), s.entries[s.callers[p].entry].key)
  {
    var e := s.callers[p].entry;
    var q: nat :| q < |s.callers| && Using(s.callers[q], e);
    var t := Do(s, Unmap(p));
    StepInv(s, Unmap(p));
    var more, end := FirstComputes(t, q, e, r);
    steps := more;
    assert ([Unmap(p)] + steps)[1..] == steps;
  }

  /** From an entry out of the table that `q` still uses, two computations are reached. */
  lemma FirstComputes(t: State, q: nat, e: nat, r: nat) returns (steps: seq<Step>, end: State)
    requires Inv(t) && q < |t.callers| && Using(t.callers[q], e) && r < |t.callers| && t.callers[r].Idle?
    requires e < |t.entries| && !t.entries[e].cell.Filled? && t.entries[e].key !in t.table
    ensures Possible(t, steps) && After(t, steps) == end && Twice(end, t.entries[e].key)
    decreases if t.callers[q].Joined? then 1 else 0
  {
    assert CallerFits(t, q) && EntryFits(t, e);
    if t.callers[q].Joined? {
      StepInv(t, Count(q));
      steps, end := FirstComputes(Do(t, Count(q)), q, e, r);
      steps := Before(t, Count(q), end, steps);
    } else if t.entries[e].cell.Running? {
      steps, end := SecondComputes(t, t.entries[e].cell.who, e, r);
    } else {
      StepInv(t, Run(q));
      steps, end := SecondComputes(Do(t, Run(q)), q, e, r);
      steps := Before(t, Run(q), end, steps);
    }
  }

  /** While `w` computes for an entry out of the table, a newcomer gets a new entry. */
  lemma SecondComputes(t: State, w: nat, e: nat, r: nat) returns (steps: seq<Step>, end: State)
    requires w < |t.callers| && t.callers[w] == Computing(e) && r < |t.callers| && t.callers[r].Idle?
    requires e < |t.entries| && t.entries[e].key !in t.table
    ensures Possible(t, steps) && After(t, steps) == end && Twice(end, t.entries[e].key)
  {
    var k := t.entries[e].key;
    var t1 := Do(t, Join(r, k));
    var t2 := Do(t1, Count(r));
    end := Do(t2, Run(r));
    assert ComputeBoth(end, k, w, r);
    assert Possible(end, []) && After(end, []) == end;
    hide Possible, After, Do, Enabled;
    steps := Before(t2, Run(r), end, []);
    steps := Before(t1, Count(r), end, steps);
    steps := Before(t, Join(r, k), end, steps);
  }

  /** Such an unmapping does happen: the last one counted decides to unmap, a newcomer
      joins and is counted, and only then the entry goes. */
  lemma TwoRunsOfOneKey(k: Key) returns (steps: seq<Step>)
    ensures Possible(Start(3), steps) && Twice(After(Start(3), steps), k)
  {
    var late := LateUnmap(k);
    StartInv(3);
    var first := ReachesLateUnmap(k);
    BehaviourInv(Start(3), first);
    assert Using(late.callers[1], 0);
    var more := OrphaningAllowsTwo(late, 0, 2);
    Chained(Start(3), first, [Unmap(0)] + more);
    steps := first + ([Unmap(0)] + more);
  }

  /** One caller was cancelled and is about to unmap the entry; another has joined it
      and is counted. */
  function LateUnmap(k: Key): State {
    State(map[k := 0], [Entry(k, 1, Empty)], [Unmapping(0, Cancelled), Counted(0), Idle])
  }

  lemma ReachesLateUnmap(k: Key) returns (steps: seq<Step>)
    ensures Possible(Start(3), steps) && After(Start(3), steps) == LateUnmap(k)
  {
    var end := LateUnmap(k);
    assert Possible(end, []) && After(end, []) == end;
    hide Possible, After;
    var s0 := Start(3);
    var s1 := Do(s0, Join(0, k));
    var s2 := Do(s1, Count(0));
    var s3 := Do(s2, Cancel(0));
    var s4 := Do(s3, Uncount(0));
    var s5 := Do(s4, Join(1, k));
    assert Do(s5, Count(1)) == end;
    hide Enabled, Do, LateUnmap;
    steps := Before(s5, Count(1), end, []);
    steps := Before(s4, Join(1, k), end, steps);
    steps := Before(s3, Uncount(0), end, steps);
    steps := Before(s2, Cancel(0), end, steps);
    steps := Before(s1, Count(0), end, steps);
    steps := Before(s0, Join(0, k), end, steps);
  }

  lemma {:induction false} Chained(s: State, a: seq<Step>, b: seq<Step>)
    requires Possible(s, a) && Possible(After(s, a), b)
    ensures Possible(s, a + b) && After(s, a + b) == After(After(s, a), b)
    decreases |a|
  {
    hide Do, Enabled;
    if a == [] {
      assert a + b == b;
    } else {
      Chained(Do(s, a[0]), a[1..], b);
      assert (a + b)[1..] == a[1..] + b;
    }
  }

  /** One more step in front of a behaviour. */
  lemma Before(s: State, step: Step, end: State, steps: seq<Step>) returns (more: seq<Step>)
    requires Enabled(s, step) && Possible(Do(s, step), steps) && After(Do(s, step), steps) == end
    ensures Possible(s, more) && After(s, more) == end && more == [step] + steps
  {
    more := [step] + steps;
    assert more[1..] == steps;
  }

  /** The shared table, its entries and its callers. Each method is one atomic step, so
      any interleaving of calls is a behaviour of the model. */
  class Flights {
    var table: map<Key, nat>
    var entries: seq<Entry>
    var callers: seq<Caller>

    function Model(): State
      reads this
    {
      State(table, entries, callers)
    }

    constructor (n: nat)
      ensures Model() == Start(n) && Inv(Model())
    {
      table, entries, callers := map[], [], seq(n, _ => Idle);
      new;
      StartInv(n);
    }

    /** Under the map lock. */
    method JoinEntry(p: nat, k: Key)
      requires Inv(Model()) && Enabled(Model(), Join(p, k))
      modifies this
      ensures Inv(Model()) && Model() == Do(old(Model()), Join(p, k))
    {
      hide Inv;
      StepInv(Model(), Join(p, k));
      if k !in table {
        table := table[k := |entries|];
        entries := entries + [Entry(k, 0, Empty)];
      }
      callers := callers[p := Joined(table[k])];
    }

    /** After the map lock has been released. */
    method AddRef(p: nat)
      requires Inv(Model()) && Enabled(Model(), Count(p))
      modifies this
      ensures Inv(Model()) && Model() == Do(old(Model()), Count(p))
    {
      hide Inv;
      StepInv(Model(), Count(p));
      var e := callers[p].entry;
      entries := entries[e := entries[e].(refs := entries[e].refs + 1)];
      callers := callers[p := Counted(e)];
    }

    method StartComputing(p: nat)
      requires Inv(Model()) && Enabled(Model(), Run(p))
      modifies this
      ensures Inv(Model()) && Model() == Do(old(Model()), Run(p))
    {
      hide Inv;
      StepInv(Model(), Run(p));
      var e := callers[p].entry;
      entries := entries[e := entries[e].(cell := Running(p))];
      callers := callers[p := Computing(e)];
    }

    method FillCell(p: nat, a: Answer)
      requires Inv(Model()) && Enabled(Model(), Finish(p, a))
      modifies this
      ensures Inv(Model()) && Model() == Do(old(Model()), Finish(p, a))
    {
      hide Inv;
      StepInv(Model(), Finish(p, a));
      var e := callers[p].entry;
      entries := entries[e := entries[e].(cell := Filled(a, p))];
      callers := callers[p := Leaving(e, Got(a, true))];
    }

    method ReadCell(p: nat)
      requires Inv(Model()) && Enabled(Model(), Read(p))
      modifies this
      ensures Inv(Model()) && Model() == Do(old(Model()), Read(p))
    {
      hide Inv;
      StepInv(Model(), Read(p));
      var e := callers[p].entry;
      callers := callers[p := Leaving(e, Got(entries[e].cell.answer, false))];
    }

    /** The future is dropped: an unfinished computation is discarded. */
    method GiveUp(p: nat)
      requires Inv(Model()) && Enabled(Model(), Cancel(p))
      modifies this
      ensures Inv(Model()) && Model() == Do(old(Model()), Cancel(p))
    {
      hide Inv;
      StepInv(Model(), Cancel(p));
      var e := callers[p].entry;
      if callers[p].Computing? {
        entries := entries[e := entries[e].(cell := Empty)];
      }
      callers := callers[p := Leaving(e, Cancelled)];
    }

    /** The guard is dropped: discount, and the last one counted goes on to unmap. */
    method DropRef(p: nat)
      requires Inv(Model()) && Enabled(Model(), Uncount(p))
      modifies this
      ensures Inv(Model()) && Model() == Do(old(Model()), Uncount(p))
    {
      hide Inv;
      StepInv(Model(), Uncount(p));
      var e, outcome := callers[p].entry, callers[p].outcome;
      var was := entries[e].refs;
      entries := entries[e := entries[e].(refs := was - 1)];
      callers := callers[p := if was == 1 then Unmapping(e, outcome) else Gone(e, outcome)];
    }

    method RemoveEntry(p: nat)
      requires Inv(Model()) && Enabled(Model(), Unmap(p))
      modifies this
      ensures Inv(Model()) && Model() == Do(old(Model()), Unmap(p))
    {
      hide Inv;
      StepInv(Model(), Unmap(p));
      var e, outcome := callers[p].entry, callers[p].outcome;
      var k := entries[e].key;
      if k in table && table[k] == e {
        table := table - {k};
      }
      callers := callers[p := Gone(e, outcome)];
    }
  }
}
