/**
 The row-style categories of the two `getRowStyle` copies. The App styles a
 view row and tests its delay cell first; the Grid styles a row of
 `modifiedData` and tests duplicates first, then its own delay rule.
 */
module Styles {
  import opened Records
  import opened Sheet
  import opened Delay
  import opened Notes

  /** The App's `getRowStyle` on a view row. */
  function AppRowStyle(plates: seq<string>, dups: map<string, nat>, row: Row): (style: RowStyle)
    ensures style != NoStyle
    ensures style == DelayedStyle <==> DelayCellSet(row)
    ensures style == DuplicateStyle <==> !DelayCellSet(row) && PlateOf(row) != "" && PlateOf(row) in dups
    ensures style == AccidentStyle <==>
      !DelayCellSet(row) && !(PlateOf(row) != "" && PlateOf(row) in dups) &&
      PlateOf(row) !in plates && !HasDateIn(row) && MentionsAccident(Damage(row))
    ensures style == InvygoReady <==>
      !DelayCellSet(row) && !(PlateOf(row) != "" && PlateOf(row) in dups) && PlateOf(row) in plates && HasDateIn(row)
    ensures style == InvygoNotReady <==>
      !DelayCellSet(row) && !(PlateOf(row) != "" && PlateOf(row) in dups) && PlateOf(row) in plates && !HasDateIn(row)
    ensures style == OtherReady <==>
      !DelayCellSet(row) && !(PlateOf(row) != "" && PlateOf(row) in dups) && PlateOf(row) !in plates && HasDateIn(row)
    ensures style == OtherNotReady <==>
      !DelayCellSet(row) && !(PlateOf(row) != "" && PlateOf(row) in dups) &&
      PlateOf(row) !in plates && !HasDateIn(row) && !MentionsAccident(Damage(row))
  {
    if DelayCellSet(row) then DelayedStyle
    else
      var plate := PlateOf(row);
      var invygo := plate in plates;
      var ready := HasDateIn(row);
      var accident := MentionsAccident(Damage(row)) && !ready;
      if plate != "" && plate in dups then DuplicateStyle
      else if invygo && ready then InvygoReady
      else if invygo && !ready then InvygoNotReady
      else if !invygo && ready then OtherReady
      else if accident then AccidentStyle
      else if !invygo && !ready then OtherNotReady
      else NoStyle
  }

  /** A repaired accident car is noted "Accident" but not styled as one: the note ignores date-in, the style does not. */
  lemma AccidentNoteWithoutAccidentStyle(plates: seq<string>, dups: map<string, nat>, row: Row)
    requires !DelayCellSet(row) && MentionsAccident(Damage(row)) && HasDateIn(row)
    ensures StatusOf(row) == StatusAccident
    ensures AppRowStyle(plates, dups, row) != AccidentStyle
  {
  }

  /** Whether the Grid's hard-coded list holds the row's plate; a row without a `Vehicle` never matches. */
  predicate GridInvygo(list: seq<string>, row: Row)
  {
    Vehicle(row).Some? && PlateOf(row) in list
  }

  /** The Grid's `getRowStyle` on a row of `modifiedData`. */
  function GridRowStyle(elapsed: Elapsed, list: seq<string>, dups: map<string, nat>, row: Row): (style: RowStyle)
    ensures style != OtherNotReady
    ensures style == InvygoReady <==>
      !(PlateOf(row) != "" && PlateOf(row) in dups) && !GridDelayed(elapsed, row) && GridInvygo(list, row) && HasDateIn(row)
    ensures style == InvygoNotReady <==>
      !(PlateOf(row) != "" && PlateOf(row) in dups) && !GridDelayed(elapsed, row) && GridInvygo(list, row) && !HasDateIn(row)
    ensures style == OtherReady <==>
      !(PlateOf(row) != "" && PlateOf(row) in dups) && !GridDelayed(elapsed, row) && !GridInvygo(list, row) && HasDateIn(row)
    ensures style == DuplicateStyle <==> PlateOf(row) != "" && PlateOf(row) in dups
    ensures style == DelayedStyle <==> !(PlateOf(row) != "" && PlateOf(row) in dups) && GridDelayed(elapsed, row)
    ensures style == AccidentStyle <==>
      !(PlateOf(row) != "" && PlateOf(row) in dups) && !GridDelayed(elapsed, row) &&
      !GridInvygo(list, row) && !HasDateIn(row) && MentionsAccident(Damage(row))
    ensures style == NoStyle <==>
      !(PlateOf(row) != "" && PlateOf(row) in dups) && !GridDelayed(elapsed, row) &&
      !GridInvygo(list, row) && !HasDateIn(row) && !MentionsAccident(Damage(row))
  {
    var plate := PlateOf(row);
    var invygo := GridInvygo(list, row);
    var ready := HasDateIn(row);
    var accident := MentionsAccident(Damage(row)) && !ready;
    if plate != "" && plate in dups then DuplicateStyle
    else if GridDelayed(elapsed, row) then DelayedStyle
    else if invygo && ready then InvygoReady
    else if invygo && !ready then InvygoNotReady
    else if !invygo && ready then OtherReady
    else if accident then AccidentStyle
    else NoStyle
  }
}
