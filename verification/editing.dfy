/**
 Editing a cell and moving between cells: `handleEdit`'s state update, the
 sheet address the App writes an edited cell back to, and `handleKeyDown`'s
 arrow-key cursor.
 */
module Editing {
  import opened Optional
  import opened Text
  import opened Records
  import opened Seqs

  /** `updated[rowIndex] = { ...updated[rowIndex], [key]: value }` on a copy of the rows. */
  function EditRows(rows: seq<Row>, rowIndex: nat, key: string, value: string): (r: seq<Row>)
    requires rowIndex < |rows|
    ensures |r| == |rows|
    ensures forall i :: 0 <= i < |rows| && i != rowIndex ==> r[i] == rows[i]
    ensures Get(r[rowIndex], key) == Some(value)
    ensures WellFormed(rows[rowIndex]) ==> forall k :: k != key ==> Get(r[rowIndex], k) == Get(rows[rowIndex], k)
    ensures WellFormed(rows[rowIndex]) && key in Keys(rows[rowIndex]) ==> Keys(r[rowIndex]) == Keys(rows[rowIndex])
    ensures WellFormed(rows[rowIndex]) ==> WellFormed(r[rowIndex])
  {
    var row := rows[rowIndex];
    MergeKeeps([], row);
    SpreadCopies(row);
    rows[rowIndex := Set(Merge([], row), key, value)]
  }

  /** `{ ...row }` copies a row. */
  lemma SpreadCopies(row: Row)
    ensures WellFormed(row) ==> Merge([], row) == row
  {
    if WellFormed(row) {
      assert [] + row == row;
      MergeAppends([], row);
    }
  }

  /** Typing the same value into the same cell twice is typing it once. */
  lemma EditIdempotent(rows: seq<Row>, rowIndex: nat, key: string, value: string)
    requires rowIndex < |rows| && WellFormed(rows[rowIndex])
    ensures EditRows(EditRows(rows, rowIndex, key, value), rowIndex, key, value) == EditRows(rows, rowIndex, key, value)
  {
    var row := rows[rowIndex];
    SpreadCopies(row);
    var edited := Set(row, key, value);
    var once := rows[rowIndex := edited];
    assert EditRows(rows, rowIndex, key, value) == once;
    SpreadCopies(edited);
    SetSame(edited, key, value);
    assert once[rowIndex := Set(Merge([], once[rowIndex]), key, value)] == once;
  }

  /** Putting back a cell's old value undoes the edit. */
  lemma EditUndo(rows: seq<Row>, rowIndex: nat, key: string, value: string)
    requires rowIndex < |rows| && WellFormed(rows[rowIndex])
    requires Get(rows[rowIndex], key).Some?
    ensures EditRows(EditRows(rows, rowIndex, key, value), rowIndex, key, Get(rows[rowIndex], key).value) == rows
  {
    var row := rows[rowIndex];
    var once := EditRows(rows, rowIndex, key, value);
    var i := IndexOf(row, key).value;
    SpreadCopies(row);
    assert once[rowIndex] == row[i := (key, value)];
    var edited := once[rowIndex];
    SpreadCopies(edited);
    assert IndexOf(edited, key) == Some(i) by {
      IndexOfSameKeys(edited, row, key);
    }
    assert edited[i := (key, row[i].1)] == row;
  }

  // ---- The write-through address -------------------------------------------

  /** `Object.keys(modifiedData[0]).indexOf(key)`: the key's column, or -1. */
  function ColumnIndex(first: Row, key: string): (c: int)
    ensures -1 <= c < |first|
    ensures c == -1 <==> key !in Keys(first)
    ensures c >= 0 ==> first[c].0 == key
  {
    match IndexOf(first, key)
    case None => -1
    case Some(i) => i
  }

  /** `String.fromCharCode(65 + colIndex)`, below the surrogate range. */
  function LetterAsWritten(colIndex: int): (c: char)
    requires -1 <= colIndex < 0xD800 - 65
    ensures c as int == 65 + colIndex
  {
    (65 + colIndex) as char
  }

  /**
   The App's range for a cell as written: the sheet name, one character for
   the column and the one-based sheet row (the header is row 1). With no rows
   `Object.keys(undefined)` throws, and the update is abandoned.
   */
  function CellAddressAsWritten(modified: seq<Row>, rowIndex: nat, key: string): (r: Option<string>)
    requires |modified| > 0 ==> |modified[0]| < 0xD800 - 65
    ensures r.None? <==> |modified| == 0
    ensures r.Some? ==> (|r.value| >= 9 && r.value[..7] == "Sheet1!" &&
      r.value[7] as int == 65 + ColumnIndex(modified[0], key) &&
      AllDigits(r.value[8..]) && DigitsValue(r.value[8..]) == rowIndex + 2)
  {
    if |modified| == 0 then None
    else
      var digits := NatToString(rowIndex + 2);
      var a := "Sheet1!" + [LetterAsWritten(ColumnIndex(modified[0], key))] + digits;
      assert a[8..] == digits;
      NatToStringRoundTrip(rowIndex + 2);
      Some(a)
  }

  predicate AllDigits(s: string)
  {
    forall i :: 0 <= i < |s| ==> '0' <= s[i] <= '9'
  }

  /** The twenty-seventh column is addressed as "[": past "Z" the letter is no column name. */
  lemma AddressPastZ(modified: seq<Row>, rowIndex: nat, key: string)
    requires |modified| > 0 && |modified[0]| < 0xD800 - 65
    requires IndexOf(modified[0], key) == Some(26)
    ensures CellAddressAsWritten(modified, rowIndex, key).value[7] == '['
    ensures !IsColumnName(CellAddressAsWritten(modified, rowIndex, key).value[7..8])
  {
  }

  /** A key the first row lacks is addressed as column "@". */
  lemma AddressMissingKey(modified: seq<Row>, rowIndex: nat, key: string)
    requires |modified| > 0 && |modified[0]| < 0xD800 - 65
    requires key !in Keys(modified[0])
    ensures CellAddressAsWritten(modified, rowIndex, key).value[7] == '@'
    ensures !IsColumnName(CellAddressAsWritten(modified, rowIndex, key).value[7..8])
  {
  }

  /** A spreadsheet column name: one or more capital letters. */
  predicate IsColumnName(s: string)
  {
    |s| >= 1 && forall i :: 0 <= i < |s| ==> 'A' <= s[i] <= 'Z'
  }

  function Letter(d: nat): (c: char)
    requires d < 26
    ensures 'A' <= c <= 'Z'
    ensures c as int - 'A' as int == d
  {
    ('A' as int + d) as char
  }

  /** The sheet's name for the column at zero-based position `n`: A … Z, AA … AZ, BA, … */
  function ColumnName(n: nat): (s: string)
    ensures IsColumnName(s)
    decreases n
  {
    if n < 26 then [Letter(n)] else ColumnName(n / 26 - 1) + [Letter(n % 26)]
  }

  /** The zero-based position a column name stands for (A is 1 … Z is 26 in base 26, less one). */
  function ColumnNumber(s: string): int
    requires forall i :: 0 <= i < |s| ==> 'A' <= s[i] <= 'Z'
    decreases |s|
  {
    if |s| == 0 then -1 else (ColumnNumber(s[..|s| - 1]) + 1) * 26 + (s[|s| - 1] as int - 'A' as int)
  }

  /** Reading the name back gives the position, so distinct columns get distinct names. */
  lemma {:induction false} ColumnNameRoundTrip(n: nat)
    ensures ColumnNumber(ColumnName(n)) == n
    decreases n
  {
    var s := ColumnName(n);
    if n >= 26 {
      ColumnNameRoundTrip(n / 26 - 1);
      assert s[..|s| - 1] == ColumnName(n / 26 - 1);
    }
  }

  lemma ColumnNameInjective(m: nat, n: nat)
    requires ColumnName(m) == ColumnName(n)
    ensures m == n
  {
    ColumnNameRoundTrip(m);
    ColumnNameRoundTrip(n);
  }

  /** For the first twenty-six columns the name is the single letter the App computes. */
  lemma ColumnNameAgreesBelowZ(n: nat)
    requires n < 26
    ensures ColumnName(n) == [LetterAsWritten(n)]
  {
  }

  /**
   The corrected address: the key's column name and the sheet row, or none
   when there is no row or the key is not a column.
   */
  function CellAddress(modified: seq<Row>, rowIndex: nat, key: string): (r: Option<string>)
    ensures r.None? <==> |modified| == 0 || key !in Keys(modified[0])
  {
    if |modified| == 0 || key !in Keys(modified[0]) then None
    else Some("Sheet1!" + ColumnName(ColumnIndex(modified[0], key)) + NatToString(rowIndex + 2))
  }

  /** A corrected address names the key's column and the cell's sheet row, and nothing else does. */
  lemma CellAddressDecodes(modified: seq<Row>, rowIndex: nat, key: string)
    requires CellAddress(modified, rowIndex, key).Some?
    ensures exists col, digits ::
      CellAddress(modified, rowIndex, key).value == "Sheet1!" + col + digits &&
      IsColumnName(col) && 0 <= ColumnNumber(col) < |modified[0]| && modified[0][ColumnNumber(col)].0 == key &&
      AllDigits(digits) && DigitsValue(digits) == rowIndex + 2
  {
    var c := ColumnIndex(modified[0], key);
    ColumnNameRoundTrip(c);
    NatToStringRoundTrip(rowIndex + 2);
    var col, digits := ColumnName(c), NatToString(rowIndex + 2);
    assert CellAddress(modified, rowIndex, key).value == "Sheet1!" + col + digits;
  }

  /** For the first twenty-six columns the corrected address is the App's. */
  lemma CellAddressAgreesBelowZ(modified: seq<Row>, rowIndex: nat, key: string)
    requires |modified| > 0 && key in Keys(modified[0]) && |modified[0]| <= 26
    ensures CellAddress(modified, rowIndex, key) == CellAddressAsWritten(modified, rowIndex, key)
  {
  }

  // ---- Editing a filtered view ---------------------------------------------

  /** The Grid's edit as written: the view's row number used as a position in all the rows. */
  function GridEditAsWritten(data: seq<Row>, keep: Row -> bool, viewIndex: nat, key: string, value: string): (r: seq<Row>)
    requires viewIndex < |Filter(data, keep)|
    ensures |r| == |data|
  {
    EditRows(data, viewIndex, key, value)
  }

  /** With the first row hidden and the second shown, editing the first shown row changes the hidden one. */
  lemma GridEditMissesShownRow(data: seq<Row>, keep: Row -> bool, key: string, value: string)
    requires |data| == 2 && !keep(data[0]) && keep(data[1])
    requires WellFormed(data[0]) && Get(data[0], key) != Some(value)
    ensures Filter(data, keep) == [data[1]]
    ensures GridEditAsWritten(data, keep, 0, key, value)[1] == data[1]
    ensures GridEditAsWritten(data, keep, 0, key, value)[0] != data[0]
  {
    assert Filter(data, keep) == Filter(data[1..], keep);
    assert data[1..][0] == data[1];
  }

  /** The corrected edit: the shown row at `viewIndex` is found among all the rows first. */
  function GridEdit(data: seq<Row>, keep: Row -> bool, viewIndex: nat, key: string, value: string): (r: seq<Row>)
    requires viewIndex < |Filter(data, keep)|
    ensures |r| == |data|
  {
    KeptIndicesInRange(data, keep, viewIndex);
    EditRows(data, KeptIndices(data, keep, 0)[viewIndex], key, value)
  }

  /** The corrected edit changes exactly the row on screen and leaves every other row alone. */
  lemma GridEditChangesShownRow(data: seq<Row>, keep: Row -> bool, viewIndex: nat, key: string, value: string)
    requires viewIndex < |Filter(data, keep)|
    ensures var p := KeptIndices(data, keep, 0)[viewIndex];
      p < |data| && data[p] == Filter(data, keep)[viewIndex] &&
      Get(GridEdit(data, keep, viewIndex, key, value)[p], key) == Some(value) &&
      forall i :: 0 <= i < |data| && i != p ==> GridEdit(data, keep, viewIndex, key, value)[i] == data[i]
  {
    KeptIndicesInRange(data, keep, viewIndex);
  }

  // ---- Arrow keys ------------------------------------------------------------

  /** The keys `handleKeyDown` distinguishes. */
  datatype Key = ArrowRight | ArrowLeft | ArrowUp | ArrowDown | Enter | OtherKey {
    predicate IsArrow()
    {
      this != Enter && this != OtherKey
    }
  }

  /** A cell of the view: its row and its column. */
  datatype Pos = Pos(row: int, col: int)

  predicate InBounds(p: Pos, rowCount: nat, colCount: nat)
  {
    0 <= p.row < rowCount && 0 <= p.col < colCount
  }

  /** The cell an arrow key moves to: one step its way unless the view's edge is there. */
  function NextPos(key: Key, p: Pos, rowCount: nat, colCount: nat): (q: Pos)
    ensures InBounds(p, rowCount, colCount) ==> InBounds(q, rowCount, colCount)
    ensures q.row == p.row || q.col == p.col
    ensures -1 <= q.row - p.row <= 1 && -1 <= q.col - p.col <= 1
    ensures !key.IsArrow() ==> q == p
  {
    match key
    case ArrowRight => if p.col < colCount - 1 then p.(col := p.col + 1) else p
    case ArrowLeft => if p.col > 0 then p.(col := p.col - 1) else p
    case ArrowUp => if p.row > 0 then p.(row := p.row - 1) else p
    case ArrowDown => if p.row < rowCount - 1 then p.(row := p.row + 1) else p
    case _ => p
  }

  /** Away from the edges every arrow moves, and the opposite arrow moves back. */
  lemma ArrowsUndo(p: Pos, rowCount: nat, colCount: nat)
    requires InBounds(p, rowCount, colCount)
    ensures p.col < colCount - 1 ==> (NextPos(ArrowRight, p, rowCount, colCount) != p &&
      NextPos(ArrowLeft, NextPos(ArrowRight, p, rowCount, colCount), rowCount, colCount) == p)
    ensures p.col > 0 ==> (NextPos(ArrowLeft, p, rowCount, colCount) != p &&
      NextPos(ArrowRight, NextPos(ArrowLeft, p, rowCount, colCount), rowCount, colCount) == p)
    ensures p.row < rowCount - 1 ==> (NextPos(ArrowDown, p, rowCount, colCount) != p &&
      NextPos(ArrowUp, NextPos(ArrowDown, p, rowCount, colCount), rowCount, colCount) == p)
    ensures p.row > 0 ==> (NextPos(ArrowUp, p, rowCount, colCount) != p &&
      NextPos(ArrowDown, NextPos(ArrowUp, p, rowCount, colCount), rowCount, colCount) == p)
  {
  }

  /** What a key press does: focus the input at a cell, leave the input, or nothing. */
  datatype Effect = Focus(at: Pos) | Blur | NoEffect

  /** `handleKeyDown` on the view: its row count, and the first row's key count as the column count. */
  function KeyDown(view: seq<Row>, key: Key, p: Pos): (e: Effect)
    ensures key.IsArrow() <==> e.Focus?
    ensures e.Focus? ==> e.at == NextPos(key, p, |view|, if |view| > 0 then |view[0]| else 0)
    ensures key == Enter <==> e == Blur
    ensures e.Focus? && |view| > 0 && InBounds(p, |view|, |view[0]|) ==> 0 <= e.at.row < |view| && 0 <= e.at.col < |view[0]|
  {
    var colCount := if |view| > 0 then |view[0]| else 0;
    if key.IsArrow() then Focus(NextPos(key, p, |view|, colCount))
    else if key == Enter then Blur
    else NoEffect
  }
}
