/** The count-min sketch that estimates how often a key was used. */
module Sketches {

  const SKETCH_D: nat := 4
  const SKETCH_W: nat := 1024
  const AGE_INTERVAL: nat := 16384

  const ROW_MULTS: seq<nat> :=
    [0x9E37_79B9_7F4A_7C15, 0xBF58_476D_1CE4_E5B9, 0x94D0_49BB_1331_11EB, 0xC2B2_AE3D_27D4_EB4F]

  /** The column of hash `h` in a row: bits of the product modulo 2^64. */
  function ColFor(row: nat, h: nat): (c: nat)
    requires row < SKETCH_D
    ensures c < SKETCH_W
  {
    (h * ROW_MULTS[row]) % 0x1_0000_0000_0000_0000 / 0x1_0000_0000 % SKETCH_W
  }

  /** A counter is one byte wide. */
  type u8 = n: nat | n < 256

  function SatAdd(v: u8, n: nat): u8 {
    if v + n > 255 then 255 else v + n
  }

  function Min255(n: nat): u8 {
    if n > 255 then 255 else n
  }

  datatype Sketch = Sketch(table: seq<seq<u8>>, ops: nat, ageRow: nat) {

    predicate Valid() {
      && |table| == SKETCH_D && ageRow < SKETCH_D && ops < AGE_INTERVAL
      && forall i :: 0 <= i < SKETCH_D ==> |table[i]| == SKETCH_W
    }

    /** Whether adding `n` units triggers the halving of a row. */
    predicate Ages(n: nat) {
      ops + n >= AGE_INTERVAL
    }

    function Cell(row: nat, h: nat): u8
      requires Valid() && row < SKETCH_D
    {
      table[row][ColFor(row, h)]
    }

    function Inc(h: nat, n: nat): (s: Sketch)
      requires Valid()
      ensures s.Valid()
    {
      Sketch(seq(SKETCH_D, i requires 0 <= i < SKETCH_D =>
               var row := if Ages(n) && i == ageRow then Halved(table[i]) else table[i];
               row[ColFor(i, h) := SatAdd(row[ColFor(i, h)], Min255(n))]),
             if Ages(n) then 0 else ops + n,
             if Ages(n) then (ageRow + 1) % SKETCH_D else ageRow)
    }

    function Freq(h: nat): u8
      requires Valid()
    {
      Least(Least(Cell(0, h), Cell(1, h)), Least(Cell(2, h), Least(Cell(3, h), 255)))
    }
  }

  function Least(a: u8, b: u8): u8 {
    if b < a then b else a
  }

  function Halved(row: seq<u8>): (r: seq<u8>)
    ensures |r| == |row|
    ensures forall j :: 0 <= j < |row| ==> r[j] == row[j] / 2
  {
    seq(|row|, j requires 0 <= j < |row| => row[j] / 2)
  }

  function Empty(): (s: Sketch)
    ensures s.Valid()
  {
    Sketch(seq(SKETCH_D, _ => seq(SKETCH_W, _ => 0)), 0, 0)
  }

  // ---- what the sketch promises about one key ----

  /** A sequence of increments: hash and amount. */
  type History = seq<(nat, nat)>

  function After(s: Sketch, hist: History): (r: Sketch)
    requires s.Valid()
    ensures r.Valid()
  {
    if hist == [] then s
    else After(s, hist[..|hist| - 1]).Inc(hist[|hist| - 1].0, hist[|hist| - 1].1)
  }

  /** A private saturating counter for hash `h` in one row: it sees the increments of
      `h` alone, and is halved whenever its row is. */
  function PrivateCounter(s: Sketch, hist: History, h: nat, row: nat): u8
    requires s.Valid() && row < SKETCH_D
  {
    if hist == [] then 0
    else
      var before, inc := hist[..|hist| - 1], hist[|hist| - 1];
      var t, v := After(s, before), PrivateCounter(s, before, h, row);
      var v' := if t.Ages(inc.1) && row == t.ageRow then v / 2 else v;
      if inc.0 != h then v' else if v' + inc.1 > 255 then 255 else v' + inc.1
  }

  /** What one increment does to the cell of hash `h`. */
  lemma IncCell(s: Sketch, k: nat, n: nat, h: nat, row: nat)
    requires s.Valid() && row < SKETCH_D
    ensures var v := s.Cell(row, h);
            var v' := if s.Ages(n) && row == s.ageRow then v / 2 else v;
            s.Inc(k, n).Cell(row, h) ==
            if ColFor(row, k) != ColFor(row, h) then v' else if v' + n > 255 then 255 else v' + n
  {
    hide ColFor;
  }

  /** In every row the cell of a key is at least what its private counter holds. */
  lemma {:induction false} NeverUnderestimates(s: Sketch, hist: History, h: nat, row: nat)
    requires s.Valid() && row < SKETCH_D
    ensures PrivateCounter(s, hist, h, row) <= After(s, hist).Cell(row, h)
  {
    if hist != [] {
      hide ColFor, Sketch.Inc, Sketch.Cell, Sketch.Valid, Sketch.Ages;
      var before, inc := hist[..|hist| - 1], hist[|hist| - 1];
      NeverUnderestimates(s, before, h, row);
      IncCell(After(s, before), inc.0, inc.1, h, row);
    }
  }

  /** The units since the last ageing, and the number of ageings. */
  function Ageing(hist: History): (nat, nat) {
    if hist == [] then (0, 0)
    else
      var (units, aged) := Ageing(hist[..|hist| - 1]);
      var n := hist[|hist| - 1].1;
      if units + n >= 16384 then (0, aged + 1) else (units + n, aged)
  }

  /** A counter for the column of `h` in a row: it sees the increments of all hashes that
      share the column, stops at 255, and is halved before the increment with which its
      turn to age comes. */
  function ColumnCounter(hist: History, h: nat, row: nat): (v: nat)
    requires row < SKETCH_D
    ensures v <= 255
  {
    if hist == [] then 0
    else
      var before, inc := hist[..|hist| - 1], hist[|hist| - 1];
      var (units, aged) := Ageing(before);
      var v := ColumnCounter(before, h, row);
      var v' := if units + inc.1 >= 16384 && aged % 4 == row then v / 2 else v;
      if ColFor(row, inc.0) != ColFor(row, h) then v' else if v' + inc.1 > 255 then 255 else v' + inc.1
  }

  /** Over any history every cell is exactly its column's counter. */
  lemma {:induction false} CellExact(hist: History, h: nat, row: nat)
    requires row < SKETCH_D
    ensures var s := After(Empty(), hist);
            && s.Cell(row, h) == ColumnCounter(hist, h, row)
            && s.ops == Ageing(hist).0 && s.ageRow == Ageing(hist).1 % 4
  {
    if hist != [] {
      hide ColFor, Sketch.Cell, Sketch.Valid;
      var before, inc := hist[..|hist| - 1], hist[|hist| - 1];
      CellExact(before, h, row);
      IncCell(After(Empty(), before), inc.0, inc.1, h, row);
      NextTurn(Ageing(before).1);
    }
  }

  lemma NextTurn(a: nat)
    ensures (a % 4 + 1) % 4 == (a + 1) % 4
  {
  }

  /** The column is made of the bits 32 to 41 of the product. */
  lemma ColumnBits(row: nat, h: nat) returns (high: nat, low: nat)
    requires row < SKETCH_D
    ensures low < 0x1_0000_0000 && ColFor(row, h) < 1024
    ensures (h * [0x9E37_79B9_7F4A_7C15, 0xBF58_476D_1CE4_E5B9, 0x94D0_49BB_1331_11EB, 0xC2B2_AE3D_27D4_EB4F][row])
            % 0x1_0000_0000_0000_0000 == (high * 1024 + ColFor(row, h)) * 0x1_0000_0000 + low
  {
    var p := (h * ROW_MULTS[row]) % 0x1_0000_0000_0000_0000;
    low := p % 0x1_0000_0000;
    high := p / 0x1_0000_0000 / 1024;
    var x := p / 0x1_0000_0000;
    assert p == x * 0x1_0000_0000 + low && x == high * 1024 + x % 1024;
  }

  function Units(hist: History): nat {
    if hist == [] then 0 else Units(hist[..|hist| - 1]) + hist[|hist| - 1].1
  }

  function UnitsOf(hist: History, h: nat): nat {
    if hist == [] then 0
    else UnitsOf(hist[..|hist| - 1], h) + if hist[|hist| - 1].0 == h then hist[|hist| - 1].1 else 0
  }

  /** The units of all hashes that share a column with `h`. */
  function SharedUnits(hist: History, h: nat, row: nat): nat
    requires row < SKETCH_D
  {
    if hist == [] then 0
    else
      var inc := hist[|hist| - 1];
      SharedUnits(hist[..|hist| - 1], h, row) + if ColFor(row, inc.0) == ColFor(row, h) then inc.1 else 0
  }

  /** Until the next ageing a cell holds what it held plus all that its column gained, up
      to 255. */
  lemma {:induction false} NoAgeing(s: Sketch, hist: History, h: nat, row: nat)
    requires s.Valid() && row < SKETCH_D && s.ops + Units(hist) < 16384
    ensures After(s, hist).ops == s.ops + Units(hist)
    ensures var sum := s.Cell(row, h) + SharedUnits(hist, h, row);
            After(s, hist).Cell(row, h) == if sum > 255 then 255 else sum
  {
    if hist != [] {
      hide ColFor, Sketch.Cell;
      var before, inc := hist[..|hist| - 1], hist[|hist| - 1];
      NoAgeing(s, before, h, row);
      IncCell(After(s, before), inc.0, inc.1, h, row);
    }
  }

  lemma {:induction false} SharedBounds(hist: History, h: nat, row: nat)
    requires row < SKETCH_D
    ensures UnitsOf(hist, h) <= SharedUnits(hist, h, row) <= Units(hist)
  {
    if hist != [] {
      hide ColFor;
      SharedBounds(hist[..|hist| - 1], h, row);
    }
  }

  /** Nobody else in the history uses the column of `h` in this row. */
  ghost predicate Alone(hist: History, h: nat, row: nat)
    requires row < SKETCH_D
  {
    forall i :: 0 <= i < |hist| && hist[i].0 != h ==> ColFor(row, hist[i].0) != ColFor(row, h)
  }

  lemma {:induction false} AloneUnits(hist: History, h: nat, row: nat)
    requires row < SKETCH_D && Alone(hist, h, row)
    ensures SharedUnits(hist, h, row) == UnitsOf(hist, h)
  {
    if hist != [] {
      hide ColFor;
      AloneUnits(hist[..|hist| - 1], h, row);
    }
  }

  lemma FreqCountsBetweenAgeings(s: Sketch, hist: History, h: nat)
    requires s.Valid() && s.ops + Units(hist) < 16384
    ensures var sum := s.Freq(h) + UnitsOf(hist, h);
            After(s, hist).Freq(h) >= if sum > 255 then 255 else sum
  {
    hide Sketch.Cell, After, UnitsOf, Units, SharedUnits;
    NoAgeing(s, hist, h, 0);
    NoAgeing(s, hist, h, 1);
    NoAgeing(s, hist, h, 2);
    NoAgeing(s, hist, h, 3);
    SharedBounds(hist, h, 0);
    SharedBounds(hist, h, 1);
    SharedBounds(hist, h, 2);
    SharedBounds(hist, h, 3);
  }

  lemma {:induction false} CounterBound(hist: History, h: nat, row: nat)
    requires row < SKETCH_D
    ensures ColumnCounter(hist, h, row) <= SharedUnits(hist, h, row)
  {
    if hist != [] {
      hide ColFor, Ageing;
      CounterBound(hist[..|hist| - 1], h, row);
    }
  }

  /** The estimate of a key never exceeds the units of all keys, nor in any row those of
      the keys that share its column. */
  lemma NeverInvents(hist: History, h: nat, row: nat)
    requires row < SKETCH_D
    ensures After(Empty(), hist).Freq(h) <= SharedUnits(hist, h, row) <= Units(hist)
  {
    hide ColFor, Ageing, After, SharedUnits, ColumnCounter, Sketch.Cell;
    CellExact(hist, h, row);
    CounterBound(hist, h, row);
    SharedBounds(hist, h, row);
  }

  /** Before the first ageing the estimate is exact, up to 255, for a key that is alone in
      its column of some row. */
  lemma ExactWhenAlone(hist: History, h: nat, row: nat)
    requires row < SKETCH_D && Units(hist) < 16384 && Alone(hist, h, row)
    ensures After(Empty(), hist).Freq(h) == if UnitsOf(hist, h) > 255 then 255 else UnitsOf(hist, h)
  {
    hide ColFor, After, SharedUnits, Sketch.Cell, UnitsOf, Units, Alone;
    assert Empty().Freq(h) == 0 && Empty().Cell(row, h) == 0 by {
      EmptyCell(h, 0);
      EmptyCell(h, 1);
      EmptyCell(h, 2);
      EmptyCell(h, 3);
    }
    FreqCountsBetweenAgeings(Empty(), hist, h);
    NoAgeing(Empty(), hist, h, row);
    AloneUnits(hist, h, row);
  }

  lemma EmptyCell(h: nat, row: nat)
    requires row < SKETCH_D
    ensures Empty().Cell(row, h) == 0
  {
  }

  /** The rows halved by a history, in order. */
  function AgedRows(s: Sketch, hist: History): seq<nat>
    requires s.Valid()
  {
    if hist == [] then []
    else
      var before := hist[..|hist| - 1];
      AgedRows(s, before) +
      if After(s, before).Ages(hist[|hist| - 1].1) then [After(s, before).ageRow] else []
  }

  ghost predicate UnitSteps(hist: History) {
    forall i :: 0 <= i < |hist| ==> hist[i].1 == 1
  }

  /** Unit increments halve the rows in turn, one every 16384 increments. */
  lemma {:induction false} AgeingSchedule(hist: History)
    requires UnitSteps(hist)
    ensures After(Empty(), hist).ops == |hist| % 16384
    ensures After(Empty(), hist).ageRow == |hist| / 16384 % 4
    ensures |AgedRows(Empty(), hist)| == |hist| / 16384
    ensures forall i :: 0 <= i < |AgedRows(Empty(), hist)| ==> AgedRows(Empty(), hist)[i] == i % 4
  {
    if hist != [] {
      var before := hist[..|hist| - 1];
      AgeingSchedule(before);
      NextMultiple(|before|);
      hide Sketch.Valid;
    }
  }

  lemma NextMultiple(m: nat)
    ensures m % AGE_INTERVAL + 1 < AGE_INTERVAL ==>
              (m + 1) % AGE_INTERVAL == m % AGE_INTERVAL + 1 && (m + 1) / AGE_INTERVAL == m / AGE_INTERVAL
    ensures m % AGE_INTERVAL + 1 >= AGE_INTERVAL ==>
              (m + 1) % AGE_INTERVAL == 0 && (m + 1) / AGE_INTERVAL == m / AGE_INTERVAL + 1
  {
  }

  lemma EachRowOncePerCycle(hist: History)
    requires UnitSteps(hist) && |hist| == 4 * 16384
    ensures AgedRows(Empty(), hist) == [0, 1, 2, 3]
  {
    AgeingSchedule(hist);
  }

  // ---- the sketch in place ----

  class CmSketch {
    const table: array2<u8>
    var ops: nat
    var ageRow: nat

    ghost predicate Valid()
      reads this, table
    {
      table.Length0 == SKETCH_D && table.Length1 == SKETCH_W && ageRow < SKETCH_D && ops < AGE_INTERVAL
    }

    ghost function Row(i: nat): (r: seq<u8>)
      reads this, table
      requires i < table.Length0
      ensures |r| == table.Length1 && forall j :: 0 <= j < |r| ==> r[j] == table[i, j]
    {
      seq(table.Length1, j requires 0 <= j < table.Length1 reads this, table => table[i, j])
    }

    ghost function Model(): (s: Sketch)
      reads this, table
      requires Valid()
      ensures s.Valid() && forall i :: 0 <= i < SKETCH_D ==> s.table[i] == Row(i)
    {
      Sketch(seq(SKETCH_D, i requires 0 <= i < SKETCH_D && Valid() reads this, table => Row(i)), ops, ageRow)
    }

    constructor ()
      ensures Valid() && fresh(table) && Model() == Empty()
    {
      table := new u8[SKETCH_D, SKETCH_W]((_, _) => 0);
      ops, ageRow := 0, 0;
      new;
      assert forall i :: 0 <= i < SKETCH_D ==> Row(i) == Empty().table[i];
      assert Model().table == Empty().table;
    }

    method Reset()
      requires Valid()
      modifies this, table
      ensures Valid() && Model() == Empty()
    {
      forall i, j | 0 <= i < table.Length0 && 0 <= j < table.Length1 {
        table[i, j] := 0;
      }
      ops, ageRow := 0, 0;
      assert forall i :: 0 <= i < SKETCH_D ==> Row(i) == Empty().table[i];
      assert Model().table == Empty().table;
    }

    method Freq(h: nat) returns (mn: u8)
      requires Valid()
      ensures mn == Model().Freq(h)
    {
      mn := 255;
      var i := 0;
      while i < SKETCH_D
        invariant 0 <= i <= SKETCH_D
        invariant mn == LeastOf(Model(), h, i)
      {
        var col := ColFor(i, h);
        var v := table[i, col];
        if v < mn {
          mn := v;
        }
        i := i + 1;
      }
      FreqIsLeast(Model(), h);
    }

    /** Halves every counter of the current row and moves on to the next row. */
    method AgeOneRow()
      requires Valid()
      modifies this`ageRow, table
      ensures Valid() && ageRow == (old(ageRow) + 1) % SKETCH_D
      ensures forall i :: 0 <= i < SKETCH_D ==> Row(i) == if i == old(ageRow) then Halved(old(Row(ageRow)))
              else old(Row(i))
    {
      var r := ageRow;
      var j := 0;
      while j < SKETCH_W
        invariant 0 <= j <= SKETCH_W && ageRow == r
        invariant forall m :: 0 <= m < SKETCH_W ==> table[r, m] == if m < j then old(table[r, m]) / 2
                  else old(table[r, m])
        invariant forall i, m :: 0 <= i < SKETCH_D && 0 <= m < SKETCH_W && i != r ==> table[i, m] == old(table[i, m])
      {
        table[r, j] := table[r, j] / 2;
        j := j + 1;
      }
      ageRow := (ageRow + 1) % SKETCH_D;
    }

    method Inc(h: nat, n: nat)
      requires Valid()
      modifies this, table
      ensures Valid() && Model() == old(Model()).Inc(h, n)
    {
      hide ColFor, Halved;
      ops := ops + n;
      if ops >= AGE_INTERVAL {
        ops := 0;
        AgeOneRow();
      }
      var add := if n < 255 then n else 255;
      Bump(h, add);
      forall i | 0 <= i < SKETCH_D
        ensures Model().table[i] == old(Model()).Inc(h, n).table[i]
      {
        assert Model().table[i] == Row(i);
      }
      assert Model().table == old(Model()).Inc(h, n).table;
    }

    /** Adds to the key's counter in every row, saturating at 255. */
    method Bump(h: nat, add: nat)
      requires Valid()
      modifies table
      ensures Valid()
      ensures forall i :: 0 <= i < SKETCH_D ==>
              Row(i) == old(Row(i))[ColFor(i, h) := SatAdd(old(Row(i))[ColFor(i, h)], add)]
    {
      hide ColFor;
      var i := 0;
      while i < SKETCH_D
        invariant 0 <= i <= SKETCH_D
        invariant forall r, m :: 0 <= r < SKETCH_D && 0 <= m < SKETCH_W ==>
                    table[r, m] == if r < i && m == ColFor(r, h) then SatAdd(old(table[r, m]), add)
                        else old(table[r, m])
      {
        var col := ColFor(i, h);
        table[i, col] := SatAdd(table[i, col], add);
        i := i + 1;
      }
    }
  }

  function LeastOf(s: Sketch, h: nat, i: nat): u8
    requires s.Valid() && i <= SKETCH_D
  {
    if i == 0 then 255 else Least(LeastOf(s, h, i - 1), s.Cell(i - 1, h))
  }

  lemma FreqIsLeast(s: Sketch, h: nat)
    requires s.Valid()
    ensures LeastOf(s, h, SKETCH_D) == s.Freq(h)
  {
    assert LeastOf(s, h, 1) == Least(255, s.Cell(0, h));
    assert LeastOf(s, h, 2) == Least(LeastOf(s, h, 1), s.Cell(1, h));
    assert LeastOf(s, h, 3) == Least(LeastOf(s, h, 2), s.Cell(2, h));
  }
}
