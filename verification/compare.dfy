/**
 The two components side by side. Each has its own plate list: the App
 checks Invygo rows against the list it fetched (`plates`), the Grid against
 its hard-coded `invygoList` (`list`). Where the lists agree on a row, the
 App's view keeps a subset of the rows the Grid's view keeps, and apart from
 the vehicle gate the two agree in every mode but Delayed and Duplicates;
 where they do not, the Invygo views can differ either way.
 */
module Compare {
  import opened Text
  import opened Records
  import opened Seqs
  import opened Sheet
  import opened DuplicateDetection
  import opened Delay
  import opened Display
  import opened AppView
  import opened GridView

  /**
   Outside Delayed and Duplicates, the App keeps exactly the Grid's rows that
   have a shown vehicle, when the two plate lists agree on the row's plate.
   */
  lemma AppIsGatedGrid(elapsed: Elapsed, mode: Mode, search: string, plates: seq<string>, list: seq<string>,
                       data: seq<Row>, row: Row)
    requires mode != Delayed && mode != Duplicates
    requires mode == Invygo ==> (PlateOf(row) in plates <==> PlateOf(row) in list)
    ensures Keep(elapsed, mode, search, plates, DuplicatePlates(data))(row) <==>
      VehicleShown(row) && GridKeep(elapsed, mode, search, list, GridDuplicatePlates(data), row)
  {
  }

  /** For an open, matching row with a shown vehicle, each component's Invygo test is its own list's membership. */
  lemma InvygoListDecides(elapsed: Elapsed, search: string, plates: seq<string>, list: seq<string>,
                          data: seq<Row>, row: Row)
    requires VehicleShown(row) && MatchesSearch(row, search) && !HasDateIn(row)
    ensures Keep(elapsed, Invygo, search, plates, DuplicatePlates(data))(row) <==> PlateOf(row) in plates
    ensures GridKeep(elapsed, Invygo, search, list, GridDuplicatePlates(data), row) <==> PlateOf(row) in list
  {
    VehicleShownHasPlate(row);
  }

  /** A fetched list holding a plate the hard-coded list lacks makes the App's Invygo view longer than the Grid's. */
  lemma ListsCanMakeAppShowMore(elapsed: Elapsed, row: Row)
    requires VehicleShown(row) && !HasDateIn(row)
    ensures |Visible(elapsed, Invygo, "", [PlateOf(row)], [row])| == 1
    ensures |GridVisible(elapsed, Invygo, "", [], [row])| == 0
  {
    assert |row| > 0;
    assert Includes(Lower(row[0].1), Lower(""));
    assert MatchesSearch(row, "");
    InvygoListDecides(elapsed, "", [PlateOf(row)], [], [row], row);
    var keep := Keep(elapsed, Invygo, "", [PlateOf(row)], DuplicatePlates([row]));
    assert [row][1..] == [];
    assert Filter([row], keep) == [row];
    VisibleIsView(elapsed, Invygo, "", [PlateOf(row)], [row]);
  }

  /** On rows without a date-in, the two Duplicates views differ only by the vehicle gate. */
  lemma DuplicatesGatedWithoutDateIn(elapsed: Elapsed, search: string, plates: seq<string>, data: seq<Row>, row: Row)
    requires forall i :: 0 <= i < |data| ==> !HasDateIn(data[i])
    requires !HasDateIn(row)
    ensures Keep(elapsed, Duplicates, search, plates, DuplicatePlates(data))(row) <==>
      VehicleShown(row) && GridKeep(elapsed, Duplicates, search, plates, GridDuplicatePlates(data), row)
  {
    DuplicatesAgreeWithoutDateIn(data);
    var dups := DuplicatePlates(data);
    KeepDuplicates(elapsed, search, plates, dups, row);
    GridKeepDuplicates(elapsed, search, plates, dups, row);
    assert GridKeep(elapsed, Duplicates, search, plates, dups, row) == GridKeeper(elapsed, Duplicates, search, plates, dups)(row);
  }

  /**
   Every row the App keeps, the Grid keeps too, once date-outs parse the same
   trimmed or not and the Grid's list holds the plate whenever the App's does.
   */
  lemma AppRowIsGridRow(elapsed: Elapsed, mode: Mode, search: string, plates: seq<string>, list: seq<string>,
                        data: seq<Row>, row: Row)
    requires mode == Delayed ==> TrimInsensitive(elapsed, row)
    requires mode == Invygo && PlateOf(row) in plates ==> PlateOf(row) in list
    requires Keep(elapsed, mode, search, plates, DuplicatePlates(data))(row)
    ensures GridKeep(elapsed, mode, search, list, GridDuplicatePlates(data), row)
  {
    if mode == Delayed {
      AppDelayedIsGridDelayed(elapsed, row);
    } else if mode == Duplicates {
      AppDuplicateIsGridDuplicate(data, PlateOf(row));
    }
  }

  /** So the App never lists more rows than the Grid, when the Grid's list holds every plate of the App's. */
  lemma AppShowsNoMoreThanGrid(elapsed: Elapsed, mode: Mode, search: string, plates: seq<string>, list: seq<string>,
                               data: seq<Row>)
    requires forall i :: 0 <= i < |data| ==> TrimInsensitive(elapsed, data[i])
    requires mode == Invygo ==> forall p :: p in plates ==> p in list
    ensures |Visible(elapsed, mode, search, plates, data)| <= |GridVisible(elapsed, mode, search, list, data)|
  {
    var keep := Keep(elapsed, mode, search, plates, DuplicatePlates(data));
    var gridKeep := GridKeeper(elapsed, mode, search, list, GridDuplicatePlates(data));
    forall i | 0 <= i < |data| ensures keep(data[i]) ==> gridKeep(data[i]) {
      if keep(data[i]) {
        AppRowIsGridRow(elapsed, mode, search, plates, list, data, data[i]);
      }
    }
    FilterMonotone(data, keep, gridKeep);
    VisibleIsView(elapsed, mode, search, plates, data);
  }
}
