/**
 The App's export: the workbook name and the column pruning of
 `filterColumnsWithData`, applied to the view rows with their notes.
 */
module Export {
  import opened Optional
  import opened Text
  import opened Records
  import opened Seqs
  import opened Sheet
  import opened Delay
  import opened Display
  import opened Notes

  /** The export's sheet and file name. */
  function ExportName(search: string, mode: Mode): (name: string)
    ensures name == "search" <==> Trim(search) != ""
    ensures name == "Maintenance" <==> Trim(search) == "" && mode == All
  {
    if Trim(search) != "" then "search"
    else match mode
      case Delayed => "Delayed"
      case Duplicates => "Duplicates"
      case Accident => "Accident"
      case Invygo => "Invygo"
      case NotReady => "NotReady"
      case Ready => "Ready"
      case All => "Maintenance"
  }

  /** With a blank search, the name depends on the mode alone. */
  lemma ExportNameIgnoresBlankSearch(s1: string, s2: string, mode: Mode)
    requires Trim(s1) == "" && Trim(s2) == ""
    ensures ExportName(s1, mode) == ExportName(s2, mode)
  {
  }

  /** With a blank search, the name tells the modes apart. */
  lemma ExportNameNamesMode(search: string, m1: Mode, m2: Mode)
    requires Trim(search) == ""
    ensures ExportName(search, m1) == ExportName(search, m2) <==> m1 == m2
  {
  }

  /** A pruned row: a key may hold `undefined` when the row lacks a column of the first row. */
  type Cells = seq<(string, Option<string>)>

  /** `row[key] && row[key].toString().trim() !== ""`. */
  predicate NonBlankAt(row: Row, key: string)
  {
    Get(row, key).Some? && Get(row, key).value != "" && Trim(Get(row, key).value) != ""
  }

  /** `rows.some(row => …)` for that test. */
  predicate SomeNonBlank(rows: seq<Row>, key: string)
    decreases |rows|
  {
    |rows| > 0 && (NonBlankAt(rows[0], key) || SomeNonBlank(rows[1..], key))
  }

  lemma {:induction false} SomeNonBlankExists(rows: seq<Row>, key: string)
    ensures SomeNonBlank(rows, key) <==> exists i :: 0 <= i < |rows| && NonBlankAt(rows[i], key)
    decreases |rows|
  {
    if |rows| > 0 {
      SomeNonBlankExists(rows[1..], key);
      if exists i :: 0 <= i < |rows| && NonBlankAt(rows[i], key) {
        var i :| 0 <= i < |rows| && NonBlankAt(rows[i], key);
        if i > 0 {
          assert rows[1..][i - 1] == rows[i];
        }
      }
    }
  }

  function WithData(rows: seq<Row>): string -> bool
  {
    k => k != "Index" && k != "Days Delayed" && SomeNonBlank(rows, k)
  }

  /** `columnsWithData`: the first row's keys, other than `Index` and `Days Delayed`, that some row fills. */
  function DataColumns(rows: seq<Row>): seq<string>
    requires |rows| > 0
  {
    Filter(Keys(rows[0]), WithData(rows))
  }

  /** A column is kept exactly when the first row has it, it is not one of the two computed columns, and some row fills it. */
  lemma DataColumnsExact(rows: seq<Row>, k: string)
    requires |rows| > 0
    ensures k in DataColumns(rows) <==>
      k in Keys(rows[0]) && k != "Index" && k != "Days Delayed" && exists i :: 0 <= i < |rows| && NonBlankAt(rows[i], k)
  {
    FilterMembership(Keys(rows[0]), WithData(rows), k);
    SomeNonBlankExists(rows, k);
  }

  /** The kept columns keep the first row's order. */
  lemma DataColumnsInOrder(rows: seq<Row>)
    requires |rows| > 0
    ensures IsSubseq(DataColumns(rows), Keys(rows[0]))
  {
    FilterIsSubseq(Keys(rows[0]), WithData(rows));
  }

  /** One output row: `Index`, the kept columns, then `Days Delayed`, each with the row's own value. */
  function Prune(row: Row, cols: seq<string>): (out: Cells)
    ensures |out| == |cols| + 2
    ensures forall p :: 0 <= p < |out| ==> out[p].1 == Get(row, out[p].0)
  {
    [("Index", Get(row, "Index"))] +
    seq(|cols|, i requires 0 <= i < |cols| => (cols[i], Get(row, cols[i]))) +
    [("Days Delayed", Get(row, "Days Delayed"))]
  }

  function CellKeys(out: Cells): (ks: seq<string>)
    ensures |ks| == |out|
  {
    seq(|out|, p requires 0 <= p < |out| => out[p].0)
  }

  /** `filterColumnsWithData`. */
  function FilterColumnsWithData(rows: seq<Row>): (out: seq<Cells>)
    ensures |out| == |rows|
    ensures |rows| == 0 ==> out == []
    ensures forall i :: 0 <= i < |out| ==> forall p :: 0 <= p < |out[i]| ==> out[i][p].1 == Get(rows[i], out[i][p].0)
  {
    if |rows| == 0 then []
    else
      var cols := DataColumns(rows);
      seq(|rows|, i requires 0 <= i < |rows| => Prune(rows[i], cols))
  }

  /** A pruned row's keys are `Index`, the given columns in order, then `Days Delayed`. */
  lemma PruneKeys(row: Row, cols: seq<string>)
    ensures CellKeys(Prune(row, cols)) == ["Index"] + cols + ["Days Delayed"]
  {
    var out := Prune(row, cols);
    var ks := ["Index"] + cols + ["Days Delayed"];
    forall p | 0 <= p < |out| ensures CellKeys(out)[p] == ks[p] {
      if 0 < p <= |cols| {
        assert out[p] == (cols[p - 1], Get(row, cols[p - 1]));
      }
    }
  }

  /** Every pruned row has the same keys: `Index`, the kept columns, `Days Delayed`. */
  lemma PrunedKeys(rows: seq<Row>, i: nat)
    requires i < |rows|
    ensures CellKeys(FilterColumnsWithData(rows)[i]) == ["Index"] + DataColumns(rows) + ["Days Delayed"]
  {
    PruneKeys(rows[i], DataColumns(rows));
  }

  /** Distinct columns, framed by two keys that are neither among them nor equal, stay distinct. */
  lemma FramedDistinct(first: string, cols: seq<string>, last: string)
    requires first != last && first !in cols && last !in cols
    requires forall a, b :: 0 <= a < b < |cols| ==> cols[a] != cols[b]
    ensures var ks := [first] + cols + [last];
      forall p, q :: 0 <= p < q < |ks| ==> ks[p] != ks[q]
  {
    var ks := [first] + cols + [last];
    forall p, q | 0 <= p < q < |ks| ensures ks[p] != ks[q] {
      if 0 < p && q <= |cols| {
        assert ks[p] == cols[p - 1] && ks[q] == cols[q - 1];
      } else if 0 < p <= |cols| {
        assert ks[p] == cols[p - 1];
      } else if q <= |cols| {
        assert ks[q] == cols[q - 1];
      }
    }
  }

  /** No key of a pruned row repeats when the first row has none twice. */
  lemma PrunedKeysDistinct(rows: seq<Row>, i: nat)
    requires i < |rows| && WellFormed(rows[0])
    ensures var ks := CellKeys(FilterColumnsWithData(rows)[i]);
      forall p, q :: 0 <= p < q < |ks| ==> ks[p] != ks[q]
  {
    var cols := DataColumns(rows);
    PrunedKeys(rows, i);
    ColumnsDistinct(rows);
    FramedDistinct("Index", cols, "Days Delayed");
  }

  /** The kept columns of a first row with no repeated key are distinct and never the computed ones. */
  lemma ColumnsDistinct(rows: seq<Row>)
    requires |rows| > 0 && WellFormed(rows[0])
    ensures forall a, b :: 0 <= a < b < |DataColumns(rows)| ==> DataColumns(rows)[a] != DataColumns(rows)[b]
    ensures forall a :: 0 <= a < |DataColumns(rows)| ==> DataColumns(rows)[a] != "Index" && DataColumns(rows)[a] != "Days Delayed"
  {
    var ks := Keys(rows[0]);
    KeptIndicesCorrect(ks, WithData(rows), 0);
    KeptIndicesIncrease(ks, WithData(rows), 0);
  }

  /** `{ ...row, Notes: getNote(row, i) }` for every row of the view. */
  function WithNotes(plates: seq<string>, dups: map<string, nat>, rowMap: map<string, seq<nat>>, view: seq<Row>): (noted: seq<Row>)
    ensures |noted| == |view|
  {
    seq(|view|, i requires 0 <= i < |view| => Set(view[i], "Notes", Note(plates, dups, rowMap, view[i], i)))
  }

  /** `exportRows`. */
  function ExportRows(plates: seq<string>, dups: map<string, nat>, rowMap: map<string, seq<nat>>, view: seq<Row>): seq<Cells>
  {
    FilterColumnsWithData(WithNotes(plates, dups, rowMap, view))
  }

  /** A note is never blank: it starts with its car type. */
  lemma NoteNotBlank(plates: seq<string>, dups: map<string, nat>, rowMap: map<string, seq<nat>>, row: Row, i: nat)
    ensures NonBlankAt(Set(row, "Notes", Note(plates, dups, rowMap, row, i)), "Notes")
  {
    var note := Note(plates, dups, rowMap, row, i);
    assert note[0] == 'I' || note[0] == 'Y';
    assert !IsSpace(note[0]);
    assert !Blank(note);
  }

  /** A pruned row carries every kept column with the row's value. */
  lemma PruneHas(row: Row, cols: seq<string>, k: string)
    requires k in cols
    ensures (k, Get(row, k)) in Prune(row, cols)
  {
    var j :| 0 <= j < |cols| && cols[j] == k;
    assert Prune(row, cols)[j + 1] == (k, Get(row, k));
  }

  /** The export of a non-empty view always keeps the `Notes` column, holding each row's note. */
  lemma ExportKeepsNotes(plates: seq<string>, dups: map<string, nat>, rowMap: map<string, seq<nat>>, view: seq<Row>, i: nat)
    requires i < |view|
    ensures "Notes" in DataColumns(WithNotes(plates, dups, rowMap, view))
    ensures ("Notes", Some(Note(plates, dups, rowMap, view[i], i))) in ExportRows(plates, dups, rowMap, view)[i]
  {
    var noted := WithNotes(plates, dups, rowMap, view);
    NoteNotBlank(plates, dups, rowMap, view[0], 0);
    assert "Notes" in Keys(noted[0]);
    DataColumnsExact(noted, "Notes");
    PruneHas(noted[i], DataColumns(noted), "Notes");
  }

  /** The App's table rows: the view's display rows, pruned the same way. */
  function TableRows(elapsed: Elapsed, view: seq<Row>): (out: seq<Cells>)
    ensures |out| == |view|
  {
    FilterColumnsWithData(DisplayRows(elapsed, view))
  }
}
