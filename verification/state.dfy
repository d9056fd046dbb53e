/**
 The App's editing state as an explicit snapshot: the rows as loaded, the
 rows as edited, the search box, the filter button and the selected row.
 Loading, editing and `resetData` move from one snapshot to the next.
 */
module AppState {
  import opened Optional
  import opened Text
  import opened Records
  import opened Seqs
  import opened Sheet
  import opened Delay
  import DuplicateDetection
  import opened AppView
  import opened Editing

  datatype Snapshot = Snapshot(data: seq<Row>, modified: seq<Row>, search: string, mode: Mode, selected: Option<nat>)

  /** The state once the sheet has loaded: both row lists hold the parsed rows, nothing is filtered or selected. */
  function Loaded(parsed: seq<Row>): (st: Snapshot)
    ensures st.modified == st.data == parsed
  {
    Snapshot(parsed, parsed, "", All, None)
  }

  /** `resetData`: when confirmed, the edits, the search, the filter and the selection are dropped. */
  function ResetData(st: Snapshot, confirmed: bool): (r: Snapshot)
    ensures !confirmed ==> r == st
    ensures confirmed ==> r.data == r.modified == st.data
  {
    if confirmed then Snapshot(st.data, st.data, "", All, None) else st
  }

  /**
   `handleEdit`: the edited rows, and, when signed in, the range the cell is
   written back to. The range is read off the rows before the edit, one
   character `65 + indexOf(key)` for the column: "@" for a key the first row
   lacks, "[" and on past "Z".
   */
  function HandleEdit(st: Snapshot, signedIn: bool, rowIndex: nat, key: string, value: string): (r: (Snapshot, Option<string>))
    requires rowIndex < |st.modified|
    requires |st.modified[0]| < 0xD800 - 65
    ensures r.0.data == st.data && r.0.search == st.search && r.0.mode == st.mode && r.0.selected == st.selected
    ensures |r.0.modified| == |st.modified|
    ensures forall i :: 0 <= i < |st.modified| && i != rowIndex ==> r.0.modified[i] == st.modified[i]
    ensures Get(r.0.modified[rowIndex], key) == Some(value)
    ensures WellFormed(st.modified[rowIndex]) ==>
      forall k :: k != key ==> Get(r.0.modified[rowIndex], k) == Get(st.modified[rowIndex], k)
    ensures r.1.Some? <==> signedIn
    ensures r.1.Some? ==> (|r.1.value| >= 9 && r.1.value[..7] == "Sheet1!" &&
      r.1.value[7] as int == 65 + ColumnIndex(st.modified[0], key) &&
      AllDigits(r.1.value[8..]) && DigitsValue(r.1.value[8..]) == rowIndex + 2)
  {
    var rows := EditRows(st.modified, rowIndex, key, value);
    (st.(modified := rows), if signedIn then CellAddressAsWritten(st.modified, rowIndex, key) else None)
  }

  /** `handleEdit` with the corrected write-back: no range for a key that is not a column, a full column name past "Z". */
  function HandleEditCorrected(st: Snapshot, signedIn: bool, rowIndex: nat, key: string, value: string): (r: (Snapshot, Option<string>))
    requires rowIndex < |st.modified|
    ensures r.0.data == st.data && r.0.search == st.search && r.0.mode == st.mode && r.0.selected == st.selected
    ensures |r.0.modified| == |st.modified|
    ensures forall i :: 0 <= i < |st.modified| && i != rowIndex ==> r.0.modified[i] == st.modified[i]
    ensures Get(r.0.modified[rowIndex], key) == Some(value)
    ensures WellFormed(st.modified[rowIndex]) ==>
      forall k :: k != key ==> Get(r.0.modified[rowIndex], k) == Get(st.modified[rowIndex], k)
    ensures r.1.Some? <==> signedIn && key in Keys(st.modified[0])
  {
    var rows := EditRows(st.modified, rowIndex, key, value);
    (st.(modified := rows), if signedIn then CellAddress(st.modified, rowIndex, key) else None)
  }

  /** With at most twenty-six columns and a key that is one of them, the corrected edit is the App's. */
  lemma HandleEditAgreesBelowZ(st: Snapshot, signedIn: bool, rowIndex: nat, key: string, value: string)
    requires rowIndex < |st.modified| && |st.modified[0]| <= 26 && key in Keys(st.modified[0])
    ensures HandleEditCorrected(st, signedIn, rowIndex, key, value) == HandleEdit(st, signedIn, rowIndex, key, value)
  {
  }

  /** Resetting after any edit gives the state a reset gives without it: the edits are forgotten. */
  lemma ResetForgetsEdit(st: Snapshot, signedIn: bool, rowIndex: nat, key: string, value: string)
    requires rowIndex < |st.modified| && |st.modified[0]| < 0xD800 - 65
    ensures ResetData(HandleEdit(st, signedIn, rowIndex, key, value).0, true) == ResetData(st, true)
  {
  }

  /** A confirmed reset returns to the state right after loading. */
  lemma ResetIsReload(st: Snapshot)
    ensures ResetData(st, true) == Loaded(st.data)
  {
  }

  /** After a reset the App lists every row with a shown vehicle, in sheet order. */
  lemma ResetShowsEveryVehicle(elapsed: Elapsed, plates: seq<string>, st: Snapshot)
    ensures var r := ResetData(st, true);
      Source(elapsed, r.mode, r.search, plates, r.modified) == Filter(st.data, VehicleShown)
  {
    var r := ResetData(st, true);
    var keep := Keep(elapsed, All, "", plates, DuplicateDetection.DuplicatePlates(st.data));
    forall i | 0 <= i < |st.data| ensures keep(st.data[i]) == VehicleShown(st.data[i]) {
      var row := st.data[i];
      if VehicleShown(row) {
        assert |row| > 0;
        assert Includes(Lower(row[0].1), Lower(""));
      }
    }
    FilterCongruent(st.data, keep, VehicleShown);
  }
}
