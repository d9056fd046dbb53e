/**
 The Grid's `filtered`: a plain filter of `modifiedData` with no vehicle
 gate, no display rows and no renumbering.
 */
module GridView {
  import opened Records
  import opened Seqs
  import opened Sheet
  import opened DuplicateDetection
  import opened Delay
  import opened Styles

  /** The Grid filter's test for one row. */
  predicate GridKeep(elapsed: Elapsed, mode: Mode, search: string, list: seq<string>, dups: map<string, nat>, row: Row)
  {
    match mode
    case Accident => MatchesSearch(row, search) && MentionsAccident(Damage(row)) && !HasDateIn(row)
    case Invygo => MatchesSearch(row, search) && PlateOf(row) != "" && PlateOf(row) in list && !HasDateIn(row)
    case Ready => MatchesSearch(row, search) && HasDateIn(row)
    case NotReady => MatchesSearch(row, search) && !HasDateIn(row)
    case Duplicates => PlateOf(row) != "" && PlateOf(row) in dups
    case Delayed => GridDelayed(elapsed, row)
    case All => MatchesSearch(row, search)
  }

  function GridKeeper(elapsed: Elapsed, mode: Mode, search: string, list: seq<string>, dups: map<string, nat>): Row -> bool
  {
    row => GridKeep(elapsed, mode, search, list, dups, row)
  }

  /** The Grid's `filtered`, with `duplicatePlates` as its effect computes it from `data`. */
  function GridVisible(elapsed: Elapsed, mode: Mode, search: string, list: seq<string>, data: seq<Row>): (rows: seq<Row>)
    ensures |rows| <= |data|
    ensures forall i :: 0 <= i < |rows| ==> rows[i] in data
  {
    Filter(data, GridKeeper(elapsed, mode, search, list, GridDuplicatePlates(data)))
  }

  /** The Grid view is a subsequence of `modifiedData`. */
  lemma GridVisibleSubseq(elapsed: Elapsed, mode: Mode, search: string, list: seq<string>, data: seq<Row>)
    ensures IsSubseq(GridVisible(elapsed, mode, search, list, data), data)
  {
    FilterIsSubseq(data, GridKeeper(elapsed, mode, search, list, GridDuplicatePlates(data)));
  }

  /** The Grid's Duplicates view: every row whose plate another row carries too, whatever the search or date-in. */
  lemma GridDuplicatesView(elapsed: Elapsed, search: string, list: seq<string>, data: seq<Row>, row: Row)
    ensures row in GridVisible(elapsed, Duplicates, search, list, data) <==>
      row in data && PlateOf(row) != "" && |Filter(data, PlateIs(PlateOf(row)))| > 1
  {
    var dups := GridDuplicatePlates(data);
    var keep := GridKeeper(elapsed, Duplicates, search, list, dups);
    assert row in Filter(data, keep) <==> row in data && keep(row) by {
      FilterMembership(data, keep, row);
    }
    assert keep(row) <==> PlateOf(row) != "" && PlateOf(row) in dups by {
      GridKeepDuplicates(elapsed, search, list, dups, row);
    }
    assert PlateOf(row) in dups <==> PlateOf(row) != "" && |Filter(data, PlateIs(PlateOf(row)))| > 1 by {
      GridDuplicatePlatesExact(data, PlateOf(row));
    }
  }

  /** The Grid's Delayed view ignores the search: it is `getDelayedCars(modifiedData)`. */
  lemma GridDelayedView(elapsed: Elapsed, search: string, list: seq<string>, data: seq<Row>)
    ensures GridVisible(elapsed, Delayed, search, list, data) == GetDelayedCars(elapsed, data)
  {
    var keep := GridKeeper(elapsed, Delayed, search, list, GridDuplicatePlates(data));
    forall i | 0 <= i < |data| ensures keep(data[i]) == Flagged(elapsed)(data[i]) {
      GridKeepDelayed(elapsed, search, list, GridDuplicatePlates(data), data[i]);
    }
    FilterCongruent(data, keep, Flagged(elapsed));
  }

  lemma GridKeepDelayed(elapsed: Elapsed, search: string, list: seq<string>, dups: map<string, nat>, row: Row)
    ensures GridKeeper(elapsed, Delayed, search, list, dups)(row) == Flagged(elapsed)(row)
  {
  }

  lemma GridKeepDuplicates(elapsed: Elapsed, search: string, list: seq<string>, dups: map<string, nat>, row: Row)
    ensures GridKeeper(elapsed, Duplicates, search, list, dups)(row) <==> PlateOf(row) != "" && PlateOf(row) in dups
  {
    assert GridKeeper(elapsed, Duplicates, search, list, dups)(row) == GridKeep(elapsed, Duplicates, search, list, dups, row);
  }

  /** The Accident and Invygo views show only rows without a date-in. */
  lemma GridOpenCarsOnly(elapsed: Elapsed, mode: Mode, search: string, list: seq<string>, data: seq<Row>, i: nat)
    requires mode == Accident || mode == Invygo
    requires i < |GridVisible(elapsed, mode, search, list, data)|
    ensures !HasDateIn(GridVisible(elapsed, mode, search, list, data)[i])
  {
  }

  /** Ready and Not Ready split the rows that match the search. */
  lemma GridReadyNotReadyPartition(elapsed: Elapsed, search: string, list: seq<string>, data: seq<Row>)
    ensures |GridVisible(elapsed, Ready, search, list, data)| + |GridVisible(elapsed, NotReady, search, list, data)| ==
            |GridVisible(elapsed, All, search, list, data)|
  {
    var dups := GridDuplicatePlates(data);
    var all, ready, notReady := GridKeeper(elapsed, All, search, list, dups),
      GridKeeper(elapsed, Ready, search, list, dups), GridKeeper(elapsed, NotReady, search, list, dups);
    forall i | 0 <= i < |data|
      ensures ready(data[i]) == (all(data[i]) && !notReady(data[i]))
      ensures notReady(data[i]) ==> all(data[i])
    {
      GridReadyNotReadyRow(elapsed, search, list, dups, data[i]);
    }
    FilterPartition(data, all, ready, notReady);
  }

  /** A row the search matches is Ready or Not Ready and not both. */
  lemma GridReadyNotReadyRow(elapsed: Elapsed, search: string, list: seq<string>, dups: map<string, nat>, row: Row)
    ensures GridKeep(elapsed, Ready, search, list, dups, row) ==
      (GridKeep(elapsed, All, search, list, dups, row) && !GridKeep(elapsed, NotReady, search, list, dups, row))
    ensures GridKeep(elapsed, NotReady, search, list, dups, row) ==> GridKeep(elapsed, All, search, list, dups, row)
  {
  }
}
