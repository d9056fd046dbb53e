/**
 The App's filter pipeline and its button counts. In every mode but Delayed
 the rows of `modifiedData` are gated on a shown vehicle and the mode's test,
 then turned into display rows; in Delayed mode the display rows of all of
 `modifiedData` are kept when their `"Days Delayed"` cell is set. Either way
 the result is renumbered `1..N`.
 */
module AppView {
  import opened Optional
  import opened Text
  import opened Records
  import opened Seqs
  import opened Sheet
  import opened DuplicateDetection
  import opened Delay
  import opened Display

  /** The test of the App's `baseRows` filter for every mode but Delayed. */
  predicate BaseKeep(mode: Mode, search: string, plates: seq<string>, dups: map<string, nat>, row: Row)
  {
    VehicleShown(row) &&
    match mode
    case Accident => MatchesSearch(row, search) && MentionsAccident(Damage(row)) && !HasDateIn(row)
    case Invygo => MatchesSearch(row, search) && PlateOf(row) != "" && PlateOf(row) in plates && !HasDateIn(row)
    case Ready => MatchesSearch(row, search) && HasDateIn(row)
    case NotReady => MatchesSearch(row, search) && !HasDateIn(row)
    case Duplicates => Unresolved(row) && PlateOf(row) in dups
    case _ => MatchesSearch(row, search)
  }

  /** Whether a mode shows a row of `modifiedData`. */
  predicate Keeps(elapsed: Elapsed, mode: Mode, search: string, plates: seq<string>, dups: map<string, nat>, row: Row)
  {
    if mode == Delayed then AppDelay(elapsed, row).Some?
    else BaseKeep(mode, search, plates, dups, row)
  }

  /** Which rows of `modifiedData` a mode shows, as the test handed to `filter`. */
  function Keep(elapsed: Elapsed, mode: Mode, search: string, plates: seq<string>, dups: map<string, nat>): Row -> bool
  {
    row => Keeps(elapsed, mode, search, plates, dups, row)
  }

  /** The App's `filtered`, with `duplicatePlates` as its effect computes it from `data`. */
  function Visible(elapsed: Elapsed, mode: Mode, search: string, plates: seq<string>, data: seq<Row>): seq<Row>
  {
    if mode == Delayed then Reindex(Filter(DisplayRows(elapsed, data), ShowsDelay()))
    else Reindex(DisplayRows(elapsed, Filter(data, Keep(elapsed, mode, search, plates, DuplicatePlates(data)))))
  }

  /** Whatever the mode, the view is the renumbered display of the rows the mode keeps. */
  lemma VisibleIsView(elapsed: Elapsed, mode: Mode, search: string, plates: seq<string>, data: seq<Row>)
    ensures Visible(elapsed, mode, search, plates, data) ==
      View(elapsed, Filter(data, Keep(elapsed, mode, search, plates, DuplicatePlates(data))))
  {
    if mode == Delayed {
      DelayedView(elapsed, data);
      FilterCongruent(data, Keep(elapsed, mode, search, plates, DuplicatePlates(data)), Overdue(elapsed));
    }
  }

  /** The rows of `modifiedData` the mode keeps, in order. */
  function Source(elapsed: Elapsed, mode: Mode, search: string, plates: seq<string>, data: seq<Row>): seq<Row>
  {
    Filter(data, Keep(elapsed, mode, search, plates, DuplicatePlates(data)))
  }

  /** Where those rows sit in `modifiedData`. */
  function SourcePositions(elapsed: Elapsed, mode: Mode, search: string, plates: seq<string>, data: seq<Row>): seq<nat>
  {
    KeptIndices(data, Keep(elapsed, mode, search, plates, DuplicatePlates(data)), 0)
  }

  /** The kept rows are a subsequence of `modifiedData`: strictly increasing positions, each holding a kept row. */
  lemma SourceIsSubsequence(elapsed: Elapsed, mode: Mode, search: string, plates: seq<string>, data: seq<Row>, j: nat)
    requires j < |Source(elapsed, mode, search, plates, data)|
    ensures |SourcePositions(elapsed, mode, search, plates, data)| == |Source(elapsed, mode, search, plates, data)|
    ensures SourcePositions(elapsed, mode, search, plates, data)[j] < |data|
    ensures Source(elapsed, mode, search, plates, data)[j] == data[SourcePositions(elapsed, mode, search, plates, data)[j]]
    ensures Keep(elapsed, mode, search, plates, DuplicatePlates(data))(Source(elapsed, mode, search, plates, data)[j])
    ensures forall a, b :: 0 <= a < b < |SourcePositions(elapsed, mode, search, plates, data)| ==>
      SourcePositions(elapsed, mode, search, plates, data)[a] < SourcePositions(elapsed, mode, search, plates, data)[b]
  {
    var keep := Keep(elapsed, mode, search, plates, DuplicatePlates(data));
    KeptIndicesInRange(data, keep, j);
    KeptIndicesIncrease(data, keep, 0);
  }

  /** Row `j` of the view is kept row `j`, numbered `j + 1`, with its `"Days Delayed"` cell and its own values. */
  lemma VisibleRow(elapsed: Elapsed, mode: Mode, search: string, plates: seq<string>, data: seq<Row>, j: nat)
    requires j < |Source(elapsed, mode, search, plates, data)|
    ensures |Visible(elapsed, mode, search, plates, data)| == |Source(elapsed, mode, search, plates, data)|
    ensures Get(Visible(elapsed, mode, search, plates, data)[j], "Index") == Some(NatToString(j + 1))
    ensures Get(Visible(elapsed, mode, search, plates, data)[j], "Days Delayed") ==
      Some(DaysDelayedCell(elapsed, Source(elapsed, mode, search, plates, data)[j]))
    ensures WellFormed(Source(elapsed, mode, search, plates, data)[j]) ==> forall k :: k != "Index" && k != "Days Delayed" ==>
      Get(Visible(elapsed, mode, search, plates, data)[j], k) == Get(Source(elapsed, mode, search, plates, data)[j], k)
  {
    VisibleIsView(elapsed, mode, search, plates, data);
    ViewRow(elapsed, Source(elapsed, mode, search, plates, data), j);
  }

  /** Outside Delayed mode every row shown has a vehicle that is neither blank nor "#N/A". */
  lemma ShownVehiclesOnly(elapsed: Elapsed, mode: Mode, search: string, plates: seq<string>, data: seq<Row>, row: Row)
    requires mode != Delayed
    requires row in Filter(data, Keep(elapsed, mode, search, plates, DuplicatePlates(data)))
    ensures VehicleShown(row)
  {
    var keep := Keep(elapsed, mode, search, plates, DuplicatePlates(data));
    FilterMembership(data, keep, row);
  }

  /** The Delayed and Duplicates views do not depend on the search text. */
  lemma SearchIgnored(elapsed: Elapsed, mode: Mode, s1: string, s2: string, plates: seq<string>, data: seq<Row>)
    requires mode == Delayed || mode == Duplicates
    ensures Visible(elapsed, mode, s1, plates, data) == Visible(elapsed, mode, s2, plates, data)
  {
    if mode == Duplicates {
      var dups := DuplicatePlates(data);
      FilterCongruent(data, Keep(elapsed, mode, s1, plates, dups), Keep(elapsed, mode, s2, plates, dups));
    }
  }

  /** Among the rows the All view shows, Ready and Not Ready split them between them. */
  lemma ReadyNotReadyPartition(elapsed: Elapsed, search: string, plates: seq<string>, data: seq<Row>)
    ensures |Visible(elapsed, Ready, search, plates, data)| + |Visible(elapsed, NotReady, search, plates, data)| ==
            |Visible(elapsed, All, search, plates, data)|
  {
    var dups := DuplicatePlates(data);
    var all, ready, notReady := Keep(elapsed, All, search, plates, dups),
      Keep(elapsed, Ready, search, plates, dups), Keep(elapsed, NotReady, search, plates, dups);
    forall i | 0 <= i < |data|
      ensures ready(data[i]) == (all(data[i]) && !notReady(data[i]))
      ensures notReady(data[i]) ==> all(data[i])
    {
      ReadyNotReadyRow(elapsed, search, plates, dups, data[i]);
    }
    FilterPartition(data, all, ready, notReady);
    VisibleIsView(elapsed, All, search, plates, data);
    VisibleIsView(elapsed, Ready, search, plates, data);
    VisibleIsView(elapsed, NotReady, search, plates, data);
  }

  /** A row the All view keeps is Ready or Not Ready and not both. */
  lemma ReadyNotReadyRow(elapsed: Elapsed, search: string, plates: seq<string>, dups: map<string, nat>, row: Row)
    ensures Keep(elapsed, Ready, search, plates, dups)(row) ==
      (Keep(elapsed, All, search, plates, dups)(row) && !Keep(elapsed, NotReady, search, plates, dups)(row))
    ensures Keep(elapsed, NotReady, search, plates, dups)(row) ==> Keep(elapsed, All, search, plates, dups)(row)
  {
  }

  /** The Duplicates view shows the shown-vehicle rows that are uncleared and share their plate with another uncleared row. */
  lemma DuplicatesViewRows(elapsed: Elapsed, search: string, plates: seq<string>, data: seq<Row>, row: Row)
    ensures row in Filter(data, Keep(elapsed, Duplicates, search, plates, DuplicatePlates(data))) <==>
      row in data && VehicleShown(row) && Unresolved(row) && |Filter(data, CountedFor(PlateOf(row)))| > 1
  {
    var dups := DuplicatePlates(data);
    var keep := Keep(elapsed, Duplicates, search, plates, dups);
    var inView := row in Filter(data, keep);
    assert inView <==> row in data && keep(row) by {
      FilterMembership(data, keep, row);
    }
    assert keep(row) <==> VehicleShown(row) && Unresolved(row) && PlateOf(row) in dups by {
      KeepDuplicates(elapsed, search, plates, dups, row);
    }
    assert PlateOf(row) in dups <==> |Filter(data, CountedFor(PlateOf(row)))| > 1 by {
      DuplicatePlatesExact(data, PlateOf(row));
    }
  }

  lemma BaseKeepDuplicates(search: string, plates: seq<string>, dups: map<string, nat>, row: Row)
    ensures BaseKeep(Duplicates, search, plates, dups, row) <==> VehicleShown(row) && Unresolved(row) && PlateOf(row) in dups
  {
  }

  lemma KeepDuplicates(elapsed: Elapsed, search: string, plates: seq<string>, dups: map<string, nat>, row: Row)
    ensures Keep(elapsed, Duplicates, search, plates, dups)(row) <==> VehicleShown(row) && Unresolved(row) && PlateOf(row) in dups
  {
    assert Keep(elapsed, Duplicates, search, plates, dups)(row) == BaseKeep(Duplicates, search, plates, dups, row);
    BaseKeepDuplicates(search, plates, dups, row);
  }

  /** The rows `accidentCount` counts: uncleared, with damage that mentions an accident. */
  function AccidentCounted(): Row -> bool
  {
    row => MentionsAccident(Damage(row)) && !HasDateIn(row)
  }

  /** `accidentCount`: uncleared rows whose damage mentions an accident, with no search or vehicle gate. */
  function AccidentCount(data: seq<Row>): nat
  {
    |Filter(data, AccidentCounted())|
  }

  /** The rows `invygoCount` counts: uncleared, with a plate on the list. */
  function InvygoCounted(plates: seq<string>): Row -> bool
  {
    row => PlateOf(row) != "" && PlateOf(row) in plates && !HasDateIn(row)
  }

  /** `invygoCount`: uncleared rows whose plate is on the list. */
  function InvygoCount(plates: seq<string>, data: seq<Row>): nat
  {
    |Filter(data, InvygoCounted(plates))|
  }

  /** `notReadyCount`: rows that have a date-in column and leave it blank. */
  function NotReadyCount(data: seq<Row>): nat
  {
    |Filter(data, row => DateIn(row).Some? && Trim(DateIn(row).value) == "")|
  }

  /** `delayedCount`. */
  function DelayedCount(elapsed: Elapsed, data: seq<Row>): nat
  {
    |Filter(DisplayRows(elapsed, data), ShowsDelay())|
  }

  /** A button count is never below the size of the view it opens. */
  lemma CountsBoundViews(elapsed: Elapsed, search: string, plates: seq<string>, data: seq<Row>)
    ensures |Visible(elapsed, Accident, search, plates, data)| <= AccidentCount(data)
    ensures |Visible(elapsed, Invygo, search, plates, data)| <= InvygoCount(plates, data)
    ensures |Visible(elapsed, Delayed, search, plates, data)| == DelayedCount(elapsed, data)
    ensures |Visible(elapsed, Duplicates, search, plates, data)| <= |Filter(data, DuplicatedIn(data))|
  {
    var dups := DuplicatePlates(data);
    var accident, invygo, duplicates :=
      Keep(elapsed, Accident, search, plates, dups), Keep(elapsed, Invygo, search, plates, dups),
      Keep(elapsed, Duplicates, search, plates, dups);
    forall i | 0 <= i < |data|
      ensures accident(data[i]) ==> AccidentCounted()(data[i])
      ensures invygo(data[i]) ==> InvygoCounted(plates)(data[i])
      ensures duplicates(data[i]) ==> DuplicatedIn(data)(data[i])
    {
      AccidentKeptCounted(elapsed, search, plates, dups, data[i]);
      InvygoKeptCounted(elapsed, search, plates, dups, data[i]);
      DuplicatesKeptCounted(elapsed, search, plates, data, data[i]);
    }
    FilterMonotone(data, accident, AccidentCounted());
    FilterMonotone(data, invygo, InvygoCounted(plates));
    FilterMonotone(data, duplicates, DuplicatedIn(data));
    VisibleIsView(elapsed, Accident, search, plates, data);
    VisibleIsView(elapsed, Invygo, search, plates, data);
    VisibleIsView(elapsed, Duplicates, search, plates, data);
    DelayedCountIsOverdue(elapsed, data);
    VisibleIsView(elapsed, Delayed, search, plates, data);
  }

  /** A row the Accident view keeps is one `accidentCount` counts. */
  lemma AccidentKeptCounted(elapsed: Elapsed, search: string, plates: seq<string>, dups: map<string, nat>, row: Row)
    ensures Keep(elapsed, Accident, search, plates, dups)(row) ==> AccidentCounted()(row)
  {
  }

  /** A row the Invygo view keeps is one `invygoCount` counts. */
  lemma InvygoKeptCounted(elapsed: Elapsed, search: string, plates: seq<string>, dups: map<string, nat>, row: Row)
    ensures Keep(elapsed, Invygo, search, plates, dups)(row) ==> InvygoCounted(plates)(row)
  {
  }

  /** A row the Duplicates view keeps is one `duplicatesCount` counts. */
  lemma DuplicatesKeptCounted(elapsed: Elapsed, search: string, plates: seq<string>, data: seq<Row>, row: Row)
    ensures Keep(elapsed, Duplicates, search, plates, DuplicatePlates(data))(row) ==> DuplicatedIn(data)(row)
  {
    KeepDuplicates(elapsed, search, plates, DuplicatePlates(data), row);
  }

  /** Not Ready's count misses exactly the uncleared rows that have no date-in column at all. */
  lemma NotReadyCountMissesRowsWithoutDateIn(data: seq<Row>)
    ensures NotReadyCount(data) + |Filter(data, row => DateIn(row).None?)| == |Filter(data, row => !HasDateIn(row))|
  {
    FilterPartition(data, row => !HasDateIn(row), row => DateIn(row).Some? && Trim(DateIn(row).value) == "",
      row => DateIn(row).None?);
  }
}
