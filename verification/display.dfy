/**
 The App's display rows: `getDisplayRows` puts a 1-based `Index` in front of
 each row and a `"Days Delayed"` cell after it, and every view is then
 renumbered `1..N` by `{ ...row, Index: i + 1 }`.
 */
module Display {
  import opened Optional
  import opened Text
  import opened Records
  import opened Seqs
  import opened Delay

  /** Spreading a well-formed row after a one-key front keeps the row's values, and the front's where the row lacks its key. */
  lemma SpreadAfter(front: Row, row: Row)
    requires |front| == 1
    ensures WellFormed(row) ==> forall k :: k != front[0].0 ==> Get(Merge(front, row), k) == Get(row, k)
    ensures front[0].0 !in Keys(row) ==> Get(Merge(front, row), front[0].0) == Some(front[0].1)
  {
    if WellFormed(row) {
      forall k | k != front[0].0 ensures Get(Merge(front, row), k) == Get(row, k) {
        if k in Keys(row) {
          MergeGetIn(front, row, k);
        } else {
          MergeGetOther(front, row, k);
        }
      }
    }
    if front[0].0 !in Keys(row) {
      MergeGetOther(front, row, front[0].0);
    }
  }

  /** `{ Index: i + 1, ...row, "Days Delayed": daysPassed }` for the row at position `i`. */
  function DisplayRow(elapsed: Elapsed, row: Row, i: nat): (d: Row)
    ensures WellFormed(d) && "Index" in Keys(d)
    ensures Get(d, "Days Delayed") == Some(DaysDelayedCell(elapsed, row))
    ensures WellFormed(row) ==> forall k :: k != "Index" && k != "Days Delayed" ==> Get(d, k) == Get(row, k)
    ensures WellFormed(row) && "Index" !in Keys(row) ==> Get(d, "Index") == Some(NatToString(i + 1))
  {
    var front: Row := [("Index", NatToString(i + 1))];
    MergeKeeps(front, row);
    SpreadAfter(front, row);
    Set(Merge(front, row), "Days Delayed", DaysDelayedCell(elapsed, row))
  }

  /** `getDisplayRows`' step for the row at position `i`. */
  function Displayer(elapsed: Elapsed): (Row, nat) -> Row
  {
    (row: Row, i: nat) => DisplayRow(elapsed, row, i)
  }

  /** `{ ...row, Index: i + 1 }`. */
  function Renumber(row: Row, i: nat): (r: Row)
    ensures Get(r, "Index") == Some(NatToString(i + 1))
    ensures forall k :: k != "Index" ==> Get(r, k) == Get(row, k)
    ensures WellFormed(row) ==> WellFormed(r)
  {
    Set(row, "Index", NatToString(i + 1))
  }

  function Renumberer(): (Row, nat) -> Row
  {
    (row: Row, i: nat) => Renumber(row, i)
  }

  /** `getDisplayRows(rows)`. */
  function DisplayRows(elapsed: Elapsed, rows: seq<Row>): (ds: seq<Row>)
    ensures |ds| == |rows|
  {
    MapFrom(Displayer(elapsed), rows, 0)
  }

  /** `rows.map((row, i) => ({ ...row, Index: i + 1 }))`. */
  function Reindex(rows: seq<Row>): (rs: seq<Row>)
    ensures |rs| == |rows|
  {
    MapFrom(Renumberer(), rows, 0)
  }

  /** A renumbered view of `rows`: display rows numbered `1..N`. */
  function View(elapsed: Elapsed, rows: seq<Row>): (v: seq<Row>)
    ensures |v| == |rows|
  {
    Reindex(DisplayRows(elapsed, rows))
  }

  /** Row `j` of a view is row `j` of its source, numbered `j + 1`, with its `"Days Delayed"` cell. */
  lemma ViewRow(elapsed: Elapsed, rows: seq<Row>, j: nat)
    requires j < |rows|
    ensures Get(View(elapsed, rows)[j], "Index") == Some(NatToString(j + 1))
    ensures Get(View(elapsed, rows)[j], "Days Delayed") == Some(DaysDelayedCell(elapsed, rows[j]))
    ensures WellFormed(View(elapsed, rows)[j])
    ensures WellFormed(rows[j]) ==> forall k :: k != "Index" && k != "Days Delayed" ==>
      Get(View(elapsed, rows)[j], k) == Get(rows[j], k)
  {
    MapFromAt(Displayer(elapsed), rows, 0, j);
    MapFromAt(Renumberer(), DisplayRows(elapsed, rows), 0, j);
    assert View(elapsed, rows)[j] == Renumber(DisplayRow(elapsed, rows[j], j), j);
  }

  /** Once renumbered, a display row no longer depends on the position it was built at. */
  lemma RenumberForgetsPosition(elapsed: Elapsed, row: Row, i: nat, j: nat, k: nat)
    ensures Renumber(DisplayRow(elapsed, row, i), k) == Renumber(DisplayRow(elapsed, row, j), k)
  {
    var a: Row := [("Index", NatToString(i + 1))];
    var b: Row := [("Index", NatToString(j + 1))];
    assert AgreeExcept(a, b, "Index");
    MergeKeepsAgree(a, b, "Index", row);
    SetKeepsAgree(Merge(a, row), Merge(b, row), "Index", "Days Delayed", DaysDelayedCell(elapsed, row));
    SetMakesEqual(DisplayRow(elapsed, row, i), DisplayRow(elapsed, row, j), "Index", NatToString(k + 1));
  }

  /** The App's test on a display row: `row["Days Delayed"] !== ""`. */
  function ShowsDelay(): Row -> bool
  {
    d => Get(d, "Days Delayed") != Some("")
  }

  /** The car is overdue by the App's rule. */
  function Overdue(elapsed: Elapsed): Row -> bool
  {
    row => AppDelay(elapsed, row).Some?
  }

  lemma ShowsDelayIsOverdue(elapsed: Elapsed)
    ensures forall row, i :: ShowsDelay()(Displayer(elapsed)(row, i)) == Overdue(elapsed)(row)
  {
  }

  /** The Delayed view as the App builds it is the view of the overdue rows, renumbered. */
  lemma DelayedView(elapsed: Elapsed, data: seq<Row>)
    ensures Reindex(Filter(DisplayRows(elapsed, data), ShowsDelay())) == View(elapsed, Filter(data, Overdue(elapsed)))
  {
    ShowsDelayIsOverdue(elapsed);
    forall row, i, j, k ensures Renumberer()(Displayer(elapsed)(row, i), k) == Renumberer()(Displayer(elapsed)(row, j), k) {
      RenumberForgetsPosition(elapsed, row, i, j, k);
    }
    FilterThenRenumber(Displayer(elapsed), Renumberer(), ShowsDelay(), Overdue(elapsed), data, 0, 0, 0);
  }

  /** `delayedCount`: counting display rows with a delay cell counts the overdue rows. */
  lemma DelayedCountIsOverdue(elapsed: Elapsed, data: seq<Row>)
    ensures |Filter(DisplayRows(elapsed, data), ShowsDelay())| == |Filter(data, Overdue(elapsed))|
  {
    ShowsDelayIsOverdue(elapsed);
    FilterMapFromCount(Displayer(elapsed), ShowsDelay(), Overdue(elapsed), data, 0);
  }
}
