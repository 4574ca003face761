/** Sales windows and trend periods by business date. Dates are day numbers. */
module SalesHistory {
  import opened Prelude
  import opened Aggregates

  const WINDOW_DAYS := 30
  const APPROVED_WINDOW_DAYS := 90

  datatype WindowKey = Previous30 | Middle30 | Latest30

  function WindowIndex(key: WindowKey): int {
    match key case Latest30 => 0 case Middle30 => 1 case Previous30 => 2
  }

  datatype Window = Window(key: WindowKey, startDate: int, endDate: int)

  function WindowOf(cutoff: int, key: WindowKey): Window {
    var endDate := cutoff - WindowIndex(key) * WINDOW_DAYS;
    Window(key, endDate - (WINDOW_DAYS - 1), endDate)
  }

  function SalesWindows(cutoff: int): seq<Window> {
    [WindowOf(cutoff, Previous30), WindowOf(cutoff, Middle30), WindowOf(cutoff, Latest30)]
  }

  /** The windows in full, oldest first; the latest ends on the cutoff. */
  lemma WindowDates(cutoff: int)
    ensures SalesWindows(cutoff) == [
      Window(Previous30, cutoff - 89, cutoff - 60), Window(Middle30, cutoff - 59, cutoff - 30), Window(Latest30, cutoff - 29, cutoff)]
  {
  }

  predicate Holds(w: Window, date: int) { w.startDate <= date <= w.endDate }

  /** The SQL window index of a sale date; integer division truncates, and no sale is after the cutoff. */
  function Widx(cutoff: int, date: int): int
    requires date <= cutoff
  {
    (cutoff - date) / WINDOW_DAYS
  }

  /** The three windows tile exactly the 90 dates that end at the cutoff: a date lies in exactly one of
      them or in none, and the SQL index names the window that holds it. */
  lemma WindowsTile(cutoff: int, date: int, key: WindowKey)
    requires date <= cutoff
    ensures Holds(WindowOf(cutoff, key), date) <==> Widx(cutoff, date) == WindowIndex(key)
    ensures (exists w :: w in SalesWindows(cutoff) && Holds(w, date)) <==> cutoff - APPROVED_WINDOW_DAYS < date
    ensures forall i, j :: 0 <= i < j < 3 ==> !(Holds(SalesWindows(cutoff)[i], date) && Holds(SalesWindows(cutoff)[j], date))
  {
    var windows := SalesWindows(cutoff);
    assert windows[0] in windows && windows[1] in windows && windows[2] in windows;
  }

  // ----- Quantities -----

  datatype Sale = Sale(date: int, category: string, quantity: real)

  function QuantityOf(): Sale -> real { (s: Sale) => s.quantity }

  /** The window index of a sale, with everything older than three windows as index 3. */
  function WindowClass(cutoff: int): Sale -> int {
    (s: Sale) => if s.date > cutoff then -1 else if Widx(cutoff, s.date) <= 2 then Widx(cutoff, s.date) else 3
  }

  /** SUM(qty) FILTER (WHERE widx = i) */
  function WindowSum(sales: seq<Sale>, cutoff: int, i: int): real {
    SumIn(sales, WindowClass(cutoff), {i}, QuantityOf())
  }

  predicate UpTo(sales: seq<Sale>, cutoff: int) {
    forall i :: 0 <= i < |sales| ==> sales[i].date <= cutoff
  }

  /** The quantity of any sales up to the cutoff is what the three windows hold plus what is older. */
  lemma QuantityByWindow(sales: seq<Sale>, cutoff: int)
    requires UpTo(sales, cutoff)
    ensures Sum(sales, QuantityOf())
      == WindowSum(sales, cutoff, 0) + WindowSum(sales, cutoff, 1) + WindowSum(sales, cutoff, 2) + WindowSum(sales, cutoff, 3)
  {
    var index, qty := WindowClass(cutoff), QuantityOf();
    SumInAll(sales, index, {0, 1} + {2, 3}, qty);
    SumInSplit(sales, index, {0, 1}, {2, 3}, qty);
    assert {0, 1} == {0} + {1} && {2, 3} == {2} + {3};
    SumInSplit(sales, index, {0}, {1}, qty);
    SumInSplit(sales, index, {2}, {3}, qty);
  }

  /** Any sales up to the cutoff add up to their three windows if and only if those older than the three windows
      add up to nothing. */
  lemma TotalIsThreeWindows(sales: seq<Sale>, cutoff: int)
    requires UpTo(sales, cutoff)
    ensures Sum(sales, QuantityOf()) == WindowSum(sales, cutoff, 2) + WindowSum(sales, cutoff, 1) + WindowSum(sales, cutoff, 0)
      <==> WindowSum(sales, cutoff, 3) == 0.0
  {
    QuantityByWindow(sales, cutoff);
  }

  // ----- The category report -----

  /** The quantities of one row of the category report. */
  datatype CategoryRow = CategoryRow(previous30: real, middle30: real, latest30: real, total90: real)

  /** The row of a category, from its sales up to the cutoff. The windows are reported for runs of exactly 90
      days only, the total for every run. */
  function CategoryRowOf(sales: seq<Sale>, cutoff: int, windowDays: int): CategoryRow {
    var approved := windowDays == APPROVED_WINDOW_DAYS;
    CategoryRow(
      if approved then WindowSum(sales, cutoff, WindowIndex(Previous30)) else 0.0,
      if approved then WindowSum(sales, cutoff, WindowIndex(Middle30)) else 0.0,
      if approved then WindowSum(sales, cutoff, WindowIndex(Latest30)) else 0.0,
      Sum(sales, QuantityOf()))
  }

  /** The quantity sold on the dates a window holds. */
  function HeldBy(sales: seq<Sale>, w: Window): real {
    if sales == [] then 0.0 else (if Holds(w, sales[0].date) then sales[0].quantity else 0.0) + HeldBy(sales[1..], w)
  }

  lemma {:induction false} WindowSumIsHeld(sales: seq<Sale>, cutoff: int, key: WindowKey)
    requires UpTo(sales, cutoff)
    ensures WindowSum(sales, cutoff, WindowIndex(key)) == HeldBy(sales, WindowOf(cutoff, key))
  {
    if sales != [] {
      WindowsTile(cutoff, sales[0].date, key);
      WindowSumIsHeld(sales[1..], cutoff, key);
    }
  }

  /** Each reported window of a 90-day run is what was sold on the dates of its own entry in the list of windows. */
  lemma RowHoldsItsWindows(sales: seq<Sale>, cutoff: int)
    requires UpTo(sales, cutoff)
    ensures
      var row := CategoryRowOf(sales, cutoff, APPROVED_WINDOW_DAYS);
      && row.previous30 == HeldBy(sales, SalesWindows(cutoff)[0]) && row.middle30 == HeldBy(sales, SalesWindows(cutoff)[1])
      && row.latest30 == HeldBy(sales, SalesWindows(cutoff)[2])
  {
    WindowSumIsHeld(sales, cutoff, Previous30);
    WindowSumIsHeld(sales, cutoff, Middle30);
    WindowSumIsHeld(sales, cutoff, Latest30);
  }

  predicate AddsUp(row: CategoryRow) { row.previous30 + row.middle30 + row.latest30 == row.total90 }

  /** The reported windows of a category add up to its reported total if and only if the run covers 90 days and
      the older sales add up to nothing, or the run covers another number of days and all sales add up to nothing. */
  lemma CategoryRowAddsUp(sales: seq<Sale>, cutoff: int, windowDays: int)
    requires UpTo(sales, cutoff)
    ensures AddsUp(CategoryRowOf(sales, cutoff, windowDays)) <==>
      if windowDays == APPROVED_WINDOW_DAYS then WindowSum(sales, cutoff, 3) == 0.0 else Sum(sales, QuantityOf()) == 0.0
  {
    TotalIsThreeWindows(sales, cutoff);
  }

  // ----- Sales within the days of a run -----

  /** The sales on the days a run covers. The customer report keeps these and no others. */
  function Windowed(sales: seq<Sale>, cutoff: int, windowDays: int): seq<Sale> {
    Filter(sales, (s: Sale) => s.date <= cutoff && s.date >= cutoff - (windowDays - 1))
  }

  lemma {:induction false} NoOlderSales(sales: seq<Sale>, cutoff: int)
    requires forall i :: 0 <= i < |sales| ==> cutoff - APPROVED_WINDOW_DAYS < sales[i].date <= cutoff
    ensures WindowSum(sales, cutoff, 3) == 0.0
  {
    if sales != [] {
      NoOlderSales(sales[1..], cutoff);
    }
  }

  predicate ThreeWindowsTotal(sales: seq<Sale>, cutoff: int) {
    Sum(sales, QuantityOf()) == WindowSum(sales, cutoff, 2) + WindowSum(sales, cutoff, 1) + WindowSum(sales, cutoff, 0)
  }

  /** In the customer report the total is previous + middle + latest for every table of sales, if and only
      if the run covers at most 90 days. */
  lemma CustomerTotalsAddUp(cutoff: int, windowDays: int)
    ensures (forall sales :: ThreeWindowsTotal(Windowed(sales, cutoff, windowDays), cutoff)) <==> windowDays <= APPROVED_WINDOW_DAYS
  {
    if windowDays <= APPROVED_WINDOW_DAYS {
      forall sales
        ensures ThreeWindowsTotal(Windowed(sales, cutoff, windowDays), cutoff)
      {
        var kept := Windowed(sales, cutoff, windowDays);
        forall i | 0 <= i < |kept|
          ensures cutoff - APPROVED_WINDOW_DAYS < kept[i].date <= cutoff
        {
          assert kept[i] in kept;
        }
        NoOlderSales(kept, cutoff);
        TotalIsThreeWindows(kept, cutoff);
      }
    } else {
      var early := Sale(cutoff - APPROVED_WINDOW_DAYS, "", 1.0);
      var sales := [early];
      assert sales[1..] == [];
      assert Windowed(sales, cutoff, windowDays) == sales;
      assert WindowClass(cutoff)(early) == 3;
      assert SumIn(sales[1..], WindowClass(cutoff), {3}, QuantityOf()) == 0.0;
      assert WindowSum(sales, cutoff, 3) == 1.0;
      TotalIsThreeWindows(sales, cutoff);
    }
  }

  /** A single sale on the cutoff, which every run of at least one day covers. */
  lemma LatestSaleRow(cutoff: int, windowDays: int)
    requires windowDays >= 1
    ensures var sales := [Sale(cutoff, "", 1.0)]; Windowed(sales, cutoff, windowDays) == sales && Sum(sales, QuantityOf()) == 1.0
  {
    var sales := [Sale(cutoff, "", 1.0)];
    assert sales[1..] == [];
  }

  lemma KeptAreRecent(sales: seq<Sale>, cutoff: int, windowDays: int)
    ensures UpTo(Windowed(sales, cutoff, windowDays), cutoff)
    ensures forall i :: 0 <= i < |Windowed(sales, cutoff, windowDays)| ==>
      cutoff - windowDays < Windowed(sales, cutoff, windowDays)[i].date <= cutoff
  {
    var kept := Windowed(sales, cutoff, windowDays);
    forall i | 0 <= i < |kept|
      ensures cutoff - windowDays < kept[i].date <= cutoff
    {
      assert kept[i] in kept;
    }
  }

  /** For a run that covers at least one day, and whatever sales on those days, the rows of the category report
      add up if and only if the run covers 90 days: any other run reports empty windows beside a full total. */
  lemma CategoryTotalsAddUp(cutoff: int, windowDays: int)
    requires windowDays >= 1
    ensures (forall sales :: AddsUp(CategoryRowOf(Windowed(sales, cutoff, windowDays), cutoff, windowDays)))
      <==> windowDays == APPROVED_WINDOW_DAYS
  {
    if windowDays == APPROVED_WINDOW_DAYS {
      forall sales
        ensures AddsUp(CategoryRowOf(Windowed(sales, cutoff, windowDays), cutoff, windowDays))
      {
        var kept := Windowed(sales, cutoff, windowDays);
        KeptAreRecent(sales, cutoff, windowDays);
        NoOlderSales(kept, cutoff);
        CategoryRowAddsUp(kept, cutoff, windowDays);
      }
    } else {
      var sales := [Sale(cutoff, "", 1.0)];
      LatestSaleRow(cutoff, windowDays);
      CategoryRowAddsUp(sales, cutoff, windowDays);
      assert !AddsUp(CategoryRowOf(Windowed(sales, cutoff, windowDays), cutoff, windowDays));
    }
  }

  // ----- Trend periods -----

  datatype Interval = Day | Week | Window30

  function Span(interval: Interval): int {
    match interval case Day => 1 case Week => 7 case Window30 => WINDOW_DAYS
  }

  function PeriodEnd(interval: Interval, cutoff: int, date: int): int
    requires date <= cutoff
  {
    match interval
    case Day => date
    case Week => cutoff - (cutoff - date) / 7 * 7
    case Window30 => cutoff - Widx(cutoff, date) * WINDOW_DAYS
  }

  function PeriodStart(interval: Interval, end: int): int { end - (Span(interval) - 1) }

  /** Periods have 1, 7 and 30 days, and the last one ends on the cutoff. */
  lemma PeriodsEndOnCutoff(cutoff: int)
    ensures forall interval :: PeriodEnd(interval, cutoff, cutoff) == cutoff
    ensures PeriodStart(Day, cutoff) == cutoff && PeriodStart(Week, cutoff) == cutoff - 6 && PeriodStart(Window30, cutoff) == cutoff - 29
  {
  }

  lemma SameBucket(a: int, b: int, n: int)
    requires 0 <= a && 0 <= b && (n == 7 || n == 30)
    ensures b / n * n <= a <= b / n * n + (n - 1) <==> a / n == b / n
  {
  }

  /** Every sale lies in its own period and in no other one. */
  lemma PeriodsPartition(interval: Interval, cutoff: int, date: int, other: int)
    requires date <= cutoff && other <= cutoff
    ensures
      var end := PeriodEnd(interval, cutoff, other);
      PeriodStart(interval, end) <= date <= end <==> PeriodEnd(interval, cutoff, date) == end
  {
    match interval
    case Day =>
    case Week => SameBucket(cutoff - date, cutoff - other, 7);
    case Window30 => SameBucket(cutoff - date, cutoff - other, WINDOW_DAYS);
  }

  function PeriodKey(interval: Interval, cutoff: int): Sale -> int {
    (s: Sale) => if s.date <= cutoff then PeriodEnd(interval, cutoff, s.date) else cutoff
  }

  datatype Trend = NotAvailable | LimitExceeded | Periods(rows: seq<Group<int>>)

  /** getSalesPeriodTrend on a result of its grouped query, of which it fetches one group more than the
      ceiling. */
  function TrendOf(interval: Interval, windowDays: int, ceiling: nat, groups: seq<Group<int>>): Trend {
    if interval.Window30? && windowDays != APPROVED_WINDOW_DAYS then NotAvailable
    else
      var fetched := groups[..Min(ceiling + 1, |groups|)];
      if |fetched| > ceiling then LimitExceeded else Periods(fetched)
  }

  /** Day, week and 30-day trends of the same sales conserve the total quantity: whenever rows are
      returned at all, they add up to it; and rows are refused exactly above the ceiling. */
  lemma TrendsConserveQuantity(sales: seq<Sale>, cutoff: int, interval: Interval, windowDays: int, ceiling: nat, groups: seq<Group<int>>)
    requires IsGroupBy(sales, PeriodKey(interval, cutoff), QuantityOf(), groups)
    ensures
      var trend := TrendOf(interval, windowDays, ceiling, groups);
      && (trend.Periods? ==> SumOf(trend.rows) == Sum(sales, QuantityOf()))
      && (trend.LimitExceeded? <==> !(interval.Window30? && windowDays != APPROVED_WINDOW_DAYS) && |groups| > ceiling)
  {
    LimitedSum(sales, PeriodKey(interval, cutoff), QuantityOf(), groups, ceiling + 1);
  }

  /** Which of the three answers is given: the 30-day trend is unavailable unless the run covers 90 days; otherwise the
      request is refused above the ceiling, and below it all groups are returned as they are. */
  lemma TrendIsComplete(interval: Interval, windowDays: int, ceiling: nat, groups: seq<Group<int>>)
    ensures
      var trend := TrendOf(interval, windowDays, ceiling, groups);
      if interval.Window30? && windowDays != 90 then trend == NotAvailable
      else if |groups| > ceiling then trend == LimitExceeded
      else trend == Periods(groups)
  {
    if |groups| <= ceiling {
      assert groups[..Min(ceiling + 1, |groups|)] == groups;
    }
  }

  /** Any two intervals that return rows agree on the total. */
  lemma TrendsAgree(sales: seq<Sale>, cutoff: int, windowDays: int, ceiling: nat, a: Interval, b: Interval,
                    inA: seq<Group<int>>, inB: seq<Group<int>>)
    requires IsGroupBy(sales, PeriodKey(a, cutoff), QuantityOf(), inA)
    requires IsGroupBy(sales, PeriodKey(b, cutoff), QuantityOf(), inB)
    requires TrendOf(a, windowDays, ceiling, inA).Periods? && TrendOf(b, windowDays, ceiling, inB).Periods?
    ensures SumOf(TrendOf(a, windowDays, ceiling, inA).rows) == SumOf(TrendOf(b, windowDays, ceiling, inB).rows)
  {
    TrendsConserveQuantity(sales, cutoff, a, windowDays, ceiling, inA);
    TrendsConserveQuantity(sales, cutoff, b, windowDays, ceiling, inB);
  }
}
