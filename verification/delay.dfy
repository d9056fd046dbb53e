/**
 Delay classification in its two variants. The App's `getDisplayRows` takes
 the largest waiting period that applies and never flags a total loss; the
 Grid's `getDelayedCars` flags a car if any single rule fires. Parsing the
 date-out text and counting days to today are outside the model: they are
 the `elapsed` parameter, which gives the whole days since a date text or
 nothing when the text does not parse.
 */
module Delay {
  import opened Optional
  import opened Text
  import opened Records
  import opened Seqs
  import opened Sheet

  /** Whole days from a date text to today, or `None` when the text is not a date. */
  type Elapsed = string -> Option<int>

  /** `parseDate` then `differenceInDays`: the empty text is rejected before any parsing. */
  function DaysSince(elapsed: Elapsed, s: string): (r: Option<int>)
    ensures s == "" ==> r.None?
    ensures s != "" ==> r == elapsed(s)
  {
    if s == "" then None else elapsed(s)
  }

  predicate MentionsOil(damage: string)
  {
    Includes(damage, "oil")
  }

  predicate MentionsAccident(damage: string)
  {
    Includes(damage, "accident")
  }

  predicate TotalLoss(damage: string)
  {
    Includes(damage, "total loss")
  }

  /** The App's `requiredDays`: 3 for oil, 30 for an accident, 3 when neither applies. */
  function RequiredDays(damage: string): (req: seq<int>)
    ensures |req| > 0
    ensures forall i :: 0 <= i < |req| ==> req[i] == 3 || req[i] == 30
    ensures 30 in req <==> MentionsAccident(damage)
  {
    (if MentionsOil(damage) then [3] else []) +
    (if MentionsAccident(damage) then [30] else []) +
    (if !MentionsOil(damage) && !MentionsAccident(damage) then [3] else [])
  }

  /** `Math.max(...xs)`. */
  function Max(xs: seq<int>): (m: int)
    requires |xs| > 0
    ensures m in xs
    ensures forall i :: 0 <= i < |xs| ==> xs[i] <= m
    decreases |xs|
  {
    if |xs| == 1 then xs[0]
    else
      var rest := Max(xs[1..]);
      if xs[0] >= rest then xs[0] else rest
  }

  /** `maxRequired`: the longest waiting period that applies, 3 if the list were empty. */
  function Threshold(damage: string): (t: int)
    ensures t == if MentionsAccident(damage) then 30 else 3
  {
    var req := RequiredDays(damage);
    if |req| > 0 then Max(req) else 3
  }

  /** The App's `daysPassed`: the days since date-out when the car is overdue, nothing otherwise. */
  function AppDelay(elapsed: Elapsed, row: Row): (r: Option<int>)
    ensures r.Some? ==> DateOut(row).Some? && !HasDateIn(row) && !TotalLoss(Damage(row))
    ensures r.Some? ==> DaysSince(elapsed, DateOut(row).value) == r
    ensures r.Some? ==> r.value > (if MentionsAccident(Damage(row)) then 30 else 3) && r.value > 3
    ensures DateOut(row).Some? && !HasDateIn(row) && !TotalLoss(Damage(row)) &&
            DaysSince(elapsed, DateOut(row).value).Some? &&
            DaysSince(elapsed, DateOut(row).value).value > (if MentionsAccident(Damage(row)) then 30 else 3)
            ==> r.Some?
  {
    match DateOut(row)
    case None => None
    case Some(out) =>
      if out == "" || HasDateIn(row) then None
      else match DaysSince(elapsed, out)
        case None => None
        case Some(days) =>
          var damage := Damage(row);
          if TotalLoss(damage) then None
          else if days > Threshold(damage) then Some(days)
          else None
  }

  /** The `"Days Delayed"` cell: the day count as decimal text, or "" when the car is not overdue. */
  function DaysDelayedCell(elapsed: Elapsed, row: Row): (cell: string)
    ensures cell == "" <==> AppDelay(elapsed, row).None?
    ensures forall i :: 0 <= i < |cell| ==> '0' <= cell[i] <= '9'
    ensures AppDelay(elapsed, row).Some? ==> DigitsValue(cell) == AppDelay(elapsed, row).value
  {
    match AppDelay(elapsed, row)
    case None => ""
    case Some(days) =>
      NatToStringRoundTrip(days);
      NatToString(days)
  }

  /** The Grid's rule for one row of `getDelayedCars`. */
  predicate GridDelayed(elapsed: Elapsed, row: Row)
  {
    match DateOut(row)
    case None => false
    case Some(out) =>
      var t := Trim(out);
      if t == "" || HasDateIn(row) then false
      else match DaysSince(elapsed, t)
        case None => false
        case Some(days) =>
          var damage := Damage(row);
          (MentionsOil(damage) && days > 3) ||
          (MentionsAccident(damage) && days > 30) ||
          (!MentionsOil(damage) && !MentionsAccident(damage) && days > 3)
  }

  /** A row the Grid can flag has a non-blank date-out that parses and no date-in. */
  lemma GridDelayedNeeds(elapsed: Elapsed, row: Row)
    requires GridDelayed(elapsed, row)
    ensures DateOut(row).Some? && !Blank(DateOut(row).value) && !HasDateIn(row)
    ensures DaysSince(elapsed, Trim(DateOut(row).value)).Some?
  {
  }

  /** The Grid waits 30 days only for an accident that does not also mention oil, 3 days otherwise. */
  lemma GridThreshold(elapsed: Elapsed, row: Row, out: string, days: int)
    requires DateOut(row) == Some(out) && Trim(out) != "" && !HasDateIn(row)
    requires DaysSince(elapsed, Trim(out)) == Some(days)
    ensures GridDelayed(elapsed, row) <==>
      days > (if MentionsAccident(Damage(row)) && !MentionsOil(Damage(row)) then 30 else 3)
  {
  }

  function Flagged(elapsed: Elapsed): Row -> bool
  {
    row => GridDelayed(elapsed, row)
  }

  /** `getDelayedCars`: the rows the Grid flags, in their original order. */
  function GetDelayedCars(elapsed: Elapsed, rows: seq<Row>): (delayed: seq<Row>)
    ensures forall i :: 0 <= i < |delayed| ==> delayed[i] in rows && GridDelayed(elapsed, delayed[i])
    ensures forall row :: row in rows && GridDelayed(elapsed, row) ==> row in delayed
  {
    FilterMembershipAll(rows, Flagged(elapsed));
    Filter(rows, Flagged(elapsed))
  }

  lemma FilterMembershipAll<T>(s: seq<T>, f: T -> bool)
    ensures forall x :: x in s && f(x) ==> x in Filter(s, f)
  {
    forall x | x in s && f(x) ensures x in Filter(s, f) {
      FilterMembership(s, f, x);
    }
  }

  /** The delayed rows are a subsequence of the input. */
  lemma GetDelayedCarsSubseq(elapsed: Elapsed, rows: seq<Row>)
    ensures IsSubseq(GetDelayedCars(elapsed, rows), rows)
  {
    FilterIsSubseq(rows, Flagged(elapsed));
  }

  /** The date parser reads this row's date-out text the same with or without surrounding blanks. */
  predicate TrimInsensitive(elapsed: Elapsed, row: Row)
  {
    DateOut(row).Some? ==>
      DaysSince(elapsed, DateOut(row).value) == DaysSince(elapsed, Trim(DateOut(row).value))
  }

  /** Every car the App flags, the Grid flags too. */
  lemma AppDelayedIsGridDelayed(elapsed: Elapsed, row: Row)
    requires TrimInsensitive(elapsed, row)
    requires AppDelay(elapsed, row).Some?
    ensures GridDelayed(elapsed, row)
  {
    var out := DateOut(row).value;
    assert Trim(out) != "";
  }

  /** The two variants disagree only on a total loss, or on damage that mentions both oil and an accident. */
  lemma DelayAgreement(elapsed: Elapsed, row: Row)
    requires TrimInsensitive(elapsed, row)
    requires !TotalLoss(Damage(row))
    requires !(MentionsOil(Damage(row)) && MentionsAccident(Damage(row)))
    ensures AppDelay(elapsed, row).Some? <==> GridDelayed(elapsed, row)
  {
    if AppDelay(elapsed, row).Some? {
      AppDelayedIsGridDelayed(elapsed, row);
    }
    if GridDelayed(elapsed, row) {
      var out := DateOut(row).value;
      assert out != "";
    }
  }

  /** A total loss overdue by more than 30 days: the Grid flags it, the App does not. */
  lemma TotalLossSplitsVariants(elapsed: Elapsed, row: Row, days: int)
    requires TrimInsensitive(elapsed, row)
    requires TotalLoss(Damage(row))
    requires DateOut(row).Some? && !Blank(DateOut(row).value) && !HasDateIn(row)
    requires DaysSince(elapsed, DateOut(row).value) == Some(days) && days > 30
    ensures GridDelayed(elapsed, row)
    ensures AppDelay(elapsed, row).None?
  {
    assert Trim(DateOut(row).value) != "";
  }

  /** Oil and an accident, out between 4 and 30 days: the Grid flags it, the App waits for 30. */
  lemma OilAccidentSplitsVariants(elapsed: Elapsed, row: Row, days: int)
    requires TrimInsensitive(elapsed, row)
    requires MentionsOil(Damage(row)) && MentionsAccident(Damage(row))
    requires DateOut(row).Some? && !Blank(DateOut(row).value) && !HasDateIn(row)
    requires DaysSince(elapsed, DateOut(row).value) == Some(days) && 3 < days <= 30
    ensures GridDelayed(elapsed, row)
    ensures AppDelay(elapsed, row).None?
  {
    assert Trim(DateOut(row).value) != "";
  }
}
