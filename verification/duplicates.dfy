/**
 Duplicate-plate detection in its two variants. The App's effect counts only
 rows with a plate and no date-in yet and records their 1-based positions;
 the Grid's effect counts every row with a plate. Both keep, as
 `duplicatePlates`, only the plates counted more than once.
 */
module DuplicateDetection {
  import opened Records
  import opened Seqs
  import opened Sheet

  /** A row the App's effect counts: it has a plate and no date-in yet. */
  predicate Unresolved(row: Row)
  {
    PlateOf(row) != "" && !HasDateIn(row)
  }

  /** The App counts `row` under plate `p`. */
  predicate CountsFor(row: Row, p: string)
  {
    Unresolved(row) && PlateOf(row) == p
  }

  function CountedFor(p: string): Row -> bool
  {
    row => CountsFor(row, p)
  }

  /** The 1-based positions of the rows the App counts under `p`, in order. */
  function Positions(rows: seq<Row>, p: string): (ps: seq<nat>)
    ensures forall i :: 0 <= i < |ps| ==> 1 <= ps[i] <= |rows|
    decreases |rows|
  {
    if |rows| == 0 then []
    else
      var front := Positions(rows[..|rows| - 1], p);
      var last: seq<nat> := if CountsFor(rows[|rows| - 1], p) then [|rows|] else [];
      assert forall i :: 0 <= i < |front + last| ==> (front + last)[i] == if i < |front| then front[i] else |rows|;
      front + last
  }

  /** A position is listed exactly when the row there is counted under `p`. */
  lemma {:induction false} PositionsMembership(rows: seq<Row>, p: string, x: nat)
    ensures x in Positions(rows, p) <==> 1 <= x <= |rows| && CountsFor(rows[x - 1], p)
    decreases |rows|
  {
    if |rows| > 0 {
      var front := rows[..|rows| - 1];
      PositionsMembership(front, p, x);
      if 1 <= x < |rows| {
        assert front[x - 1] == rows[x - 1];
      }
    }
  }

  /** The positions are listed in strictly increasing order. */
  lemma {:induction false} PositionsIncrease(rows: seq<Row>, p: string)
    ensures forall i, j :: 0 <= i < j < |Positions(rows, p)| ==> Positions(rows, p)[i] < Positions(rows, p)[j]
    decreases |rows|
  {
    if |rows| > 0 {
      PositionsIncrease(rows[..|rows| - 1], p);
    }
  }

  /** As many positions as rows counted under `p`. */
  lemma {:induction false} PositionsCount(rows: seq<Row>, p: string)
    ensures |Positions(rows, p)| == |Filter(rows, CountedFor(p))|
    decreases |rows|
  {
    if |rows| > 0 {
      var front := rows[..|rows| - 1];
      PositionsCount(front, p);
      assert rows == front + [rows[|rows| - 1]];
      FilterSnoc(front, rows[|rows| - 1], CountedFor(p));
    }
  }

  /** The App effect's two accumulators: `counts` and `rowMap`. */
  datatype Tally = Tally(counts: map<string, nat>, rowMap: map<string, seq<nat>>)

  /** One step of the App's `forEach`, for `row` at 1-based position `pos`. */
  function Step(t: Tally, row: Row, pos: nat): Tally
  {
    if Unresolved(row) then
      var p := PlateOf(row);
      Tally(t.counts[p := (if p in t.counts then t.counts[p] else 0) + 1],
            t.rowMap[p := (if p in t.rowMap then t.rowMap[p] else []) + [pos]])
    else t
  }

  /** The App's duplicate effect over `modifiedData`: every plate it saw, its count and its positions. */
  function TallyRows(rows: seq<Row>): (t: Tally)
    ensures t.counts.Keys == t.rowMap.Keys
    ensures forall p :: p in t.counts ==> p != "" && t.counts[p] == |t.rowMap[p]|
    decreases |rows|
  {
    if |rows| == 0 then Tally(map[], map[])
    else
      var t := TallyRows(rows[..|rows| - 1]);
      StepKeeps(t, rows[|rows| - 1], |rows|);
      Step(t, rows[|rows| - 1], |rows|)
  }

  /** A step keeps the two maps on the same plates, a non-empty plate's count the length of its positions. */
  lemma StepKeeps(t: Tally, row: Row, pos: nat)
    requires t.counts.Keys == t.rowMap.Keys
    requires forall p :: p in t.counts ==> p != "" && t.counts[p] == |t.rowMap[p]|
    ensures Step(t, row, pos).counts.Keys == Step(t, row, pos).rowMap.Keys
    ensures forall p :: p in Step(t, row, pos).counts ==> p != "" && Step(t, row, pos).counts[p] == |Step(t, row, pos).rowMap[p]|
  {
  }

  /** `duplicateRows[p]` lists exactly the positions of the rows counted under `p`; uncounted plates are absent. */
  lemma {:induction false} TallyPositions(rows: seq<Row>, p: string)
    ensures p in TallyRows(rows).rowMap <==> Positions(rows, p) != []
    ensures p in TallyRows(rows).rowMap ==> TallyRows(rows).rowMap[p] == Positions(rows, p)
    decreases |rows|
  {
    if |rows| > 0 {
      TallyPositions(rows[..|rows| - 1], p);
    }
  }

  /** `Object.fromEntries(Object.entries(counts).filter(([_, c]) => c > 1))`. */
  function Repeated(counts: map<string, nat>): (dups: map<string, nat>)
    ensures dups.Keys <= counts.Keys
  {
    map p | p in counts && counts[p] > 1 :: counts[p]
  }

  /** The App's `duplicatePlates`. */
  function DuplicatePlates(rows: seq<Row>): map<string, nat>
  {
    Repeated(TallyRows(rows).counts)
  }

  /** A plate is a duplicate exactly when more than one uncleared row carries it, and its entry is that number. */
  lemma DuplicatePlatesExact(rows: seq<Row>, p: string)
    ensures p in DuplicatePlates(rows) <==> |Filter(rows, CountedFor(p))| > 1
    ensures p in DuplicatePlates(rows) ==> DuplicatePlates(rows)[p] == |Filter(rows, CountedFor(p))|
  {
    TallyPositions(rows, p);
    PositionsCount(rows, p);
  }

  /** A row in the App's Duplicates view: uncleared, and its plate carried by another uncleared row. */
  predicate DuplicatedRow(rows: seq<Row>, row: Row)
  {
    Unresolved(row) && PlateOf(row) in DuplicatePlates(rows)
  }

  function DuplicatedIn(rows: seq<Row>): Row -> bool
  {
    row => DuplicatedRow(rows, row)
  }

  /** The sum of `m`'s values over `keys`. */
  ghost function SumOver(m: map<string, nat>, keys: set<string>): nat
    requires keys <= m.Keys
    decreases keys
  {
    if keys == {} then 0 else var k :| k in keys; m[k] + SumOver(m, keys - {k})
  }

  /** The sum does not depend on which key is taken first. */
  lemma {:induction false} SumOverRemove(m: map<string, nat>, keys: set<string>, k: string)
    requires keys <= m.Keys && k in keys
    ensures SumOver(m, keys) == m[k] + SumOver(m, keys - {k})
    decreases keys
  {
    var j :| j in keys && SumOver(m, keys) == m[j] + SumOver(m, keys - {j});
    if j != k {
      SumOverRemove(m, keys - {j}, k);
      SumOverRemove(m, keys - {k}, j);
      assert keys - {j} - {k} == keys - {k} - {j};
    }
  }

  function InPlates(plates: set<string>): Row -> bool
  {
    row => Unresolved(row) && PlateOf(row) in plates
  }

  /** Summing the duplicate counts over some duplicate plates counts the uncleared rows carrying them. */
  lemma {:induction false} SumCountsRows(rows: seq<Row>, plates: set<string>)
    requires plates <= DuplicatePlates(rows).Keys
    ensures SumOver(DuplicatePlates(rows), plates) == |Filter(rows, InPlates(plates))|
    decreases plates
  {
    var dups := DuplicatePlates(rows);
    if plates == {} {
      FilterNone(rows, InPlates(plates));
    } else {
      var k :| k in plates;
      SumOverRemove(dups, plates, k);
      SumCountsRows(rows, plates - {k});
      DuplicatePlatesExact(rows, k);
      FilterPartition(rows, InPlates(plates), InPlates(plates - {k}), CountedFor(k));
    }
  }

  /** `duplicatesCount`: the sum of `duplicatePlates`' values, which is the number of rows the Duplicates view can show. */
  method DuplicatesCount(rows: seq<Row>) returns (total: nat)
    ensures total == |Filter(rows, DuplicatedIn(rows))|
  {
    var dups := DuplicatePlates(rows);
    var rest := dups.Keys;
    total := 0;
    while rest != {}
      invariant rest <= dups.Keys
      invariant total + SumOver(dups, rest) == SumOver(dups, dups.Keys)
      decreases rest
    {
      var k :| k in rest;
      SumOverRemove(dups, rest, k);
      total := total + dups[k];
      rest := rest - {k};
    }
    SumCountsRows(rows, dups.Keys);
    FilterCongruent(rows, InPlates(dups.Keys), DuplicatedIn(rows));
  }

  /** The Grid counts a row under `p` whenever its plate is `p`, date-in or not. */
  function PlateIs(p: string): Row -> bool
  {
    row => PlateOf(row) == p
  }

  /** The Grid's `counts`: every non-empty plate and the number of rows carrying it. */
  function GridCounts(rows: seq<Row>): (counts: map<string, nat>)
    ensures forall p :: p in counts ==> p != "" && counts[p] >= 1
    decreases |rows|
  {
    if |rows| == 0 then map[]
    else
      var counts := GridCounts(rows[..|rows| - 1]);
      var p := PlateOf(rows[|rows| - 1]);
      if p != "" then counts[p := (if p in counts then counts[p] else 0) + 1] else counts
  }

  /** The Grid's count for a plate is the number of rows carrying it. */
  lemma {:induction false} GridCountsExact(rows: seq<Row>, p: string)
    requires p != ""
    ensures p in GridCounts(rows) <==> |Filter(rows, PlateIs(p))| > 0
    ensures p in GridCounts(rows) ==> GridCounts(rows)[p] == |Filter(rows, PlateIs(p))|
    decreases |rows|
  {
    if |rows| > 0 {
      var front := rows[..|rows| - 1];
      GridCountsExact(front, p);
      assert rows == front + [rows[|rows| - 1]];
      FilterSnoc(front, rows[|rows| - 1], PlateIs(p));
    }
  }

  /** The Grid's `duplicatePlates`. */
  function GridDuplicatePlates(rows: seq<Row>): map<string, nat>
  {
    Repeated(GridCounts(rows))
  }

  /** A Grid duplicate is a non-empty plate carried by more than one row. */
  lemma GridDuplicatePlatesExact(rows: seq<Row>, p: string)
    ensures p in GridDuplicatePlates(rows) <==> p != "" && |Filter(rows, PlateIs(p))| > 1
  {
    if p != "" {
      GridCountsExact(rows, p);
    }
  }

  /** Every App duplicate is a Grid duplicate, with at least as large a Grid count. */
  lemma AppDuplicateIsGridDuplicate(rows: seq<Row>, p: string)
    requires p in DuplicatePlates(rows)
    ensures p in GridDuplicatePlates(rows)
    ensures DuplicatePlates(rows)[p] <= GridDuplicatePlates(rows)[p]
  {
    DuplicatePlatesExact(rows, p);
    FilterMonotone(rows, CountedFor(p), PlateIs(p));
    GridCountsExact(rows, p);
  }

  /** When no row has come back yet, both variants find the same duplicates with the same counts. */
  lemma DuplicatesAgreeWithoutDateIn(rows: seq<Row>)
    requires forall i :: 0 <= i < |rows| ==> !HasDateIn(rows[i])
    ensures DuplicatePlates(rows) == GridDuplicatePlates(rows)
  {
    forall p
      ensures p in DuplicatePlates(rows) <==> p in GridDuplicatePlates(rows)
      ensures p in DuplicatePlates(rows) ==> DuplicatePlates(rows)[p] == GridDuplicatePlates(rows)[p]
    {
      DuplicatePlatesExact(rows, p);
      GridDuplicatePlatesExact(rows, p);
      if p != "" {
        GridCountsExact(rows, p);
        FilterCongruent(rows, CountedFor(p), PlateIs(p));
      }
    }
  }
}
