/**
 The note the App writes for each row of a view, in the export and in the
 table: the car type, the repair status, and, for a duplicated plate, the
 other positions the plate was recorded at.
 */
module Notes {
  import opened Optional
  import opened Text
  import opened Records
  import opened Seqs
  import opened Sheet
  import opened DuplicateDetection
  import opened Delay

  datatype Status = StatusDelayed | StatusAccident | StatusRepaired | StatusNotRepaired

  /** `row["Days Delayed"]` is truthy: present and not "". */
  predicate DelayCellSet(row: Row)
  {
    Get(row, "Days Delayed").Some? && Get(row, "Days Delayed").value != ""
  }

  /** The repair status, in the order the App tests it. */
  function StatusOf(row: Row): (s: Status)
    ensures s == StatusDelayed <==> DelayCellSet(row)
    ensures s == StatusAccident ==> MentionsAccident(Damage(row))
    ensures s == StatusRepaired ==> HasDateIn(row) && !MentionsAccident(Damage(row))
    ensures s == StatusNotRepaired ==> !HasDateIn(row) && !MentionsAccident(Damage(row))
  {
    if DelayCellSet(row) then StatusDelayed
    else if MentionsAccident(Damage(row)) then StatusAccident
    else if HasDateIn(row) then StatusRepaired
    else StatusNotRepaired
  }

  function StatusText(s: Status): string
  {
    match s
    case StatusDelayed => "Delayed"
    case StatusAccident => "Accident"
    case StatusRepaired => "Repaired"
    case StatusNotRepaired => "Not Repaired"
  }

  /** Reads a status word back. */
  function ParseStatus(text: string): Option<Status>
  {
    if text == "Delayed" then Some(StatusDelayed)
    else if text == "Accident" then Some(StatusAccident)
    else if text == "Repaired" then Some(StatusRepaired)
    else if text == "Not Repaired" then Some(StatusNotRepaired)
    else None
  }

  /** Each status word reads back as its status, so the note names the status unambiguously. */
  lemma StatusTextRoundTrip(s: Status)
    ensures ParseStatus(StatusText(s)) == Some(s)
  {
  }

  /** An accident note wins over a date-in: a repaired accident car is still noted "Accident". */
  lemma AccidentNoteIgnoresDateIn(row: Row)
    requires !DelayCellSet(row) && MentionsAccident(Damage(row))
    ensures StatusOf(row) == StatusAccident
  {
  }

  function CarType(plates: seq<string>, row: Row): string
  {
    if PlateOf(row) in plates then "Invygo" else "Yelo"
  }

  function NotAt(rowIndex: nat): nat -> bool
  {
    n => n != rowIndex + 1
  }

  /** `(duplicateRows[plate] || []).filter(n => n !== rowIndex + 1)`. */
  function OtherPositions(rowMap: map<string, seq<nat>>, plate: string, rowIndex: nat): seq<nat>
  {
    Filter(if plate in rowMap then rowMap[plate] else [], NotAt(rowIndex))
  }

  /** The numbers as JavaScript prints them, joined by ", ". */
  function JoinNumbers(ns: seq<nat>): string
  {
    Join(seq(|ns|, i requires 0 <= i < |ns| => NatToString(ns[i])), ", ")
  }

  /** The `, Duplicate with rows: …` suffix, or "". */
  function DuplicateSuffix(dups: map<string, nat>, rowMap: map<string, seq<nat>>, plate: string, rowIndex: nat): (suffix: string)
    ensures suffix != "" <==> plate != "" && plate in dups && |OtherPositions(rowMap, plate, rowIndex)| > 0
  {
    if plate != "" && plate in dups then
      var others := OtherPositions(rowMap, plate, rowIndex);
      if |others| > 0 then ", Duplicate with rows: " + JoinNumbers(others) else ""
    else ""
  }

  /** A note's first word is its car type. */
  lemma CarTypeLeads(plates: seq<string>, row: Row, rest: string)
    ensures StartsWith(CarType(plates, row) + " " + rest, "Invygo ") <==> PlateOf(row) in plates
    ensures StartsWith(CarType(plates, row) + " " + rest, "Yelo ") <==> PlateOf(row) !in plates
  {
    var note := CarType(plates, row) + " " + rest;
    if PlateOf(row) in plates {
      assert note[..7] == "Invygo ";
      assert note[0] != "Yelo "[0];
    } else {
      assert note[..5] == "Yelo ";
      assert note[0] != "Invygo "[0];
    }
  }

  /** `getNote(row, rowIndex)`. */
  function Note(plates: seq<string>, dups: map<string, nat>, rowMap: map<string, seq<nat>>, row: Row, rowIndex: nat): (note: string)
    ensures StartsWith(note, "Invygo ") <==> PlateOf(row) in plates
    ensures StartsWith(note, "Yelo ") <==> PlateOf(row) !in plates
  {
    var rest := StatusText(StatusOf(row)) + DuplicateSuffix(dups, rowMap, PlateOf(row), rowIndex);
    CarTypeLeads(plates, row, rest);
    CarType(plates, row) + " " + rest
  }

  /** The status whose word `text` starts with. */
  function StatusPrefix(text: string): Option<Status>
  {
    if StartsWith(text, "Delayed") then Some(StatusDelayed)
    else if StartsWith(text, "Accident") then Some(StatusAccident)
    else if StartsWith(text, "Repaired") then Some(StatusRepaired)
    else if StartsWith(text, "Not Repaired") then Some(StatusNotRepaired)
    else None
  }

  /** No status word begins another, so the status is read off the front of whatever follows it. */
  lemma StatusPrefixOf(s: Status, rest: string)
    ensures StatusPrefix(StatusText(s) + rest) == Some(s)
  {
    var t := StatusText(s) + rest;
    assert t[..|StatusText(s)|] == StatusText(s);
    assert t[0] == StatusText(s)[0];
  }

  /** Reads a note back into its car type, its status and whatever follows the status word. */
  function ParseNote(note: string): Option<(string, Status, string)>
  {
    var car := if StartsWith(note, "Invygo ") then "Invygo" else if StartsWith(note, "Yelo ") then "Yelo" else "";
    if car == "" then None
    else
      var rest := note[|car| + 1..];
      match StatusPrefix(rest)
      case None => None
      case Some(s) => Some((car, s, rest[|StatusText(s)|..]))
  }

  /** A note reads back as its car type, then the row's status, then exactly the duplicate suffix. */
  lemma NoteReadsBack(plates: seq<string>, dups: map<string, nat>, rowMap: map<string, seq<nat>>, row: Row, rowIndex: nat)
    ensures ParseNote(Note(plates, dups, rowMap, row, rowIndex)) ==
      Some((CarType(plates, row), StatusOf(row), DuplicateSuffix(dups, rowMap, PlateOf(row), rowIndex)))
  {
    var car, st, suffix := CarType(plates, row), StatusText(StatusOf(row)), DuplicateSuffix(dups, rowMap, PlateOf(row), rowIndex);
    var note := Note(plates, dups, rowMap, row, rowIndex);
    assert note == car + " " + (st + suffix);
    CarTypeLeads(plates, row, st + suffix);
    assert note[|car| + 1..] == st + suffix;
    StatusPrefixOf(StatusOf(row), suffix);
    assert (st + suffix)[|st|..] == suffix;
  }

  /**
   With the App's own `duplicateRows`, the suffix cites exactly the
   positions in `modifiedData` of the uncleared rows carrying the plate,
   except position `rowIndex + 1`. Since `rowIndex` counts rows of the
   view, not of `modifiedData`, a row shown at view position `j` that is
   data row `k != j` has its own position `k + 1` cited as another row.
   */
  lemma SuffixCites(data: seq<Row>, plate: string, rowIndex: nat, x: nat)
    ensures x in OtherPositions(TallyRows(data).rowMap, plate, rowIndex) <==>
      x != rowIndex + 1 && 1 <= x <= |data| && CountsFor(data[x - 1], plate)
  {
    var rowMap := TallyRows(data).rowMap;
    TallyPositions(data, plate);
    PositionsMembership(data, plate, x);
    FilterMembership(if plate in rowMap then rowMap[plate] else [], NotAt(rowIndex), x);
  }
}
