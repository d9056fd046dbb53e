/**
 The per-row facts both components read off a maintenance row: its plate,
 its date-out, date-in and damage columns (found by a lower-cased substring
 test on the header), whether it matches the search box, and the view modes
 and row-style categories the two components share.
 */
module Sheet {
  import opened Optional
  import opened Text
  import opened Records
  import opened Seqs

  /**
   The filter modes `filterMode` is compared against. No button of either
   component sets Ready, so that mode is modelled but never reached.
   */
  datatype Mode = All | Accident | Invygo | Ready | NotReady | Duplicates | Delayed

  /** The row colours of `getRowStyle`, one category per distinct style. */
  datatype RowStyle =
    | DuplicateStyle    // red: the plate is duplicated
    | DelayedStyle      // orange: the car is overdue
    | InvygoReady       // blue
    | InvygoNotReady
    | OtherReady        // green
    | AccidentStyle     // pink
    | OtherNotReady     // yellow (App only)
    | NoStyle           // `{}`

  /** `row["Vehicle"]`. */
  function Vehicle(row: Row): Option<string>
  {
    Get(row, "Vehicle")
  }

  /** `normalizePlate`: trimmed, lower-cased, every white-space run removed; `undefined` gives "". */
  function NormalizePlate(plate: Option<string>): (r: string)
    ensures NoSpace(r) && NoUpper(r)
    ensures plate.None? ==> r == ""
    ensures plate.Some? ==> (r == "" <==> Blank(plate.value))
  {
    match plate
    case None => ""
    case Some(p) =>
      var t := Trim(p);
      RemoveSpacesEmptyIffBlank(Lower(t));
      RemoveSpacesKeepsNoUpper(Lower(t));
      assert Blank(Lower(t)) <==> Blank(t);
      RemoveSpaces(Lower(t))
  }

  /** Normalising a normalised plate changes nothing. */
  lemma NormalizePlateIdempotent(plate: Option<string>)
    ensures NormalizePlate(Some(NormalizePlate(plate))) == NormalizePlate(plate)
  {
    var p := NormalizePlate(plate);
    RemoveSpacesNoSpace(Lower(p));
  }

  /** Trimming first changes nothing: the key is the lower-cased text with every white-space character removed. */
  lemma NormalizePlateRemovesSpaces(p: string)
    ensures NormalizePlate(Some(p)) == RemoveSpaces(Lower(p))
    ensures NormalizePlate(Some(p)) == Filter(Lower(p), NotSpace())
  {
    TrimIsSlice(p);
    var i, j :| 0 <= i <= j <= |p| && Trim(p) == p[i..j] && Blank(p[..i]) && Blank(p[j..]);
    var a, m, b := p[..i], p[i..j], p[j..];
    assert NormalizePlate(Some(p)) == RemoveSpaces(Lower(m));
    SliceThree(p, i, j);
    RemoveSpacesLowerBlankEnds(a, m, b);
    RemoveSpacesIsFilter(Lower(p));
  }

  /** The plate key a row is grouped and looked up by. */
  function PlateOf(row: Row): string
  {
    NormalizePlate(Vehicle(row))
  }

  /** The first column whose lower-cased header contains "date out". */
  function DateOut(row: Row): Option<string>
  {
    Field(row, "date out")
  }

  /** The first column whose lower-cased header contains "date in". */
  function DateIn(row: Row): Option<string>
  {
    Field(row, "date in")
  }

  /** `dateInKey && row[dateInKey]?.trim() !== ""`: the car has come back. */
  predicate HasDateIn(row: Row)
  {
    DateIn(row).Some? && Trim(DateIn(row).value) != ""
  }

  /** The lower-cased damage text; a missing damage column reads as "", which no keyword matches. */
  function Damage(row: Row): string
  {
    match Field(row, "damag")
    case None => ""
    case Some(v) => Lower(v)
  }

  /** `Object.values(row).some(v => v.toLowerCase().includes(search.toLowerCase()))`. */
  predicate MatchesSearch(row: Row, search: string)
    decreases |row|
  {
    |row| > 0 && (Includes(Lower(row[0].1), Lower(search)) || MatchesSearch(row[1..], search))
  }

  /** The search matches exactly when some value of the row contains it, ignoring ASCII case. */
  lemma {:induction false} MatchesSearchSomeValue(row: Row, search: string)
    ensures MatchesSearch(row, search) <==>
      exists i :: 0 <= i < |row| && Includes(Lower(row[i].1), Lower(search))
    decreases |row|
  {
    if |row| > 0 {
      MatchesSearchSomeValue(row[1..], search);
      if exists i :: 0 <= i < |row| && Includes(Lower(row[i].1), Lower(search)) {
        var i :| 0 <= i < |row| && Includes(Lower(row[i].1), Lower(search));
        if i > 0 {
          assert row[1..][i - 1] == row[i];
        }
      }
    }
  }

  /** The App's row gate: `Vehicle` present, and after trimming neither empty nor "#N/A". */
  predicate VehicleShown(row: Row)
  {
    Vehicle(row).Some? && Trim(Vehicle(row).value) != "" && Trim(Vehicle(row).value) != "#N/A"
  }

  /** A shown vehicle always has a non-empty plate. */
  lemma VehicleShownHasPlate(row: Row)
    requires VehicleShown(row)
    ensures PlateOf(row) != ""
  {
  }
}
