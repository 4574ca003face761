/** The excess report: its states, its filters, its totals, and the latest sale of each exported row. */
module Excess {
  import opened Prelude
  import opened LikePattern
  import opened DemandMetrics

  datatype State = AboveTarget | AtTarget | BelowTarget | NoTarget | ReviewRequired

  datatype Filters = Filters(common: Common, state: Option<State>, dataState: Option<DataState>, excessOnly: bool)

  function StateOf(m: Metric): State {
    if DataStateOf(m.status) != ConfirmedData then ReviewRequired
    else if m.target == 0 then NoTarget
    else if m.excess > 0 then AboveTarget
    else if m.shortage > 0 then BelowTarget
    else AtTarget
  }

  /** The assignments of one state, on top of what the record already holds. */
  function WithState(w: Where, s: State): Where {
    match s
    case ReviewRequired => w.(status := ReviewOrBlocked)
    case AboveTarget => w.(status := NeitherReviewNorBlocked, excess := Positive)
    case NoTarget => w.(status := NeitherReviewNorBlocked, excess := EqualTo(0), target := EqualTo(0))
    case BelowTarget => w.(status := NeitherReviewNorBlocked, excess := EqualTo(0), shortage := Positive)
    case AtTarget => w.(status := NeitherReviewNorBlocked, excess := EqualTo(0), shortage := EqualTo(0), target := Positive)
  }

  function WhereOf(f: Filters): Where {
    var w1 := if f.excessOnly then CommonWhere(f.common).(excess := Positive) else CommonWhere(f.common);
    var w2 := if f.dataState.Some? then w1.(status := DataStateCond(f.dataState.value)) else w1;
    if f.state.Some? then WithState(w2, f.state.value) else w2
  }

  method WhereFor(f: Filters) returns (where: Where)
    ensures where == WhereOf(f)
  {
    where := CommonWhere(f.common);
    if f.excessOnly {
      where := where.(excess := Positive);
    }
    if f.dataState.Some? {
      where := where.(status := DataStateCond(f.dataState.value));
    }
    if f.state.Some? {
      match f.state.value {
        case ReviewRequired =>
          where := where.(status := ReviewOrBlocked);
        case AboveTarget =>
          where := where.(status := NeitherReviewNorBlocked);
          where := where.(excess := Positive);
        case NoTarget =>
          where := where.(status := NeitherReviewNorBlocked);
          where := where.(excess := EqualTo(0));
          where := where.(target := EqualTo(0));
        case BelowTarget =>
          where := where.(status := NeitherReviewNorBlocked);
          where := where.(excess := EqualTo(0));
          where := where.(shortage := Positive);
        case AtTarget =>
          where := where.(status := NeitherReviewNorBlocked);
          where := where.(excess := EqualTo(0));
          where := where.(shortage := EqualTo(0));
          where := where.(target := Positive);
      }
    }
  }

  /** Stock held with no target at all: the label says "no target", the filters say "above target". */
  predicate Untargeted(m: Metric) {
    DataStateOf(m.status) == ConfirmedData && m.target == 0 && m.excess > 0
  }

  /** The state whose filter takes the row. */
  function FilteredAs(m: Metric): State {
    if Untargeted(m) then AboveTarget else StateOf(m)
  }

  /** What a filter combination asks for. Every state filter replaces the data state. "No target", "below
      target" and "at target" also replace the condition of the "excess only" flag; "above target" sets the
      same condition; "review required" leaves it in force. */
  predicate Meant(fold: char -> char, f: Filters, m: Metric) {
    Base(fold, f.common, m)
    && match f.state
       case None => (f.excessOnly ==> m.excess > 0) && (f.dataState.Some? ==> DataStateOf(m.status) == f.dataState.value)
       case Some(s) => FilteredAs(m) == s && (s.ReviewRequired? && f.excessOnly ==> m.excess > 0)
  }

  /** For every combination of filters and every computed metric, the record selects exactly the rows
      that are meant. */
  lemma WhereSelectsWhatIsMeant(fold: char -> char, f: Filters, m: Metric)
    requires IsCaseFold(fold) && Computed(m)
    ensures Selects(fold, WhereOf(f), m) <==> Meant(fold, f, m)
  {
    CommonWhereSelects(fold, f.common, WhereOf(f), m);
  }

  function Plain(f: Filters): Filters { f.(state := None, dataState := None, excessOnly := false) }

  /** With no data state and the flag off, the five state filters partition the rows the other filters
      leave: a row passes the filter of one state and of no other. */
  lemma StateFiltersPartition(fold: char -> char, f: Filters, m: Metric, s: State)
    requires IsCaseFold(fold) && Computed(m)
    requires f.dataState.None? && !f.excessOnly
    ensures Selects(fold, WhereOf(f.(state := Some(s))), m) <==> Selects(fold, WhereOf(Plain(f)), m) && FilteredAs(m) == s
  {
    WhereSelectsWhatIsMeant(fold, f.(state := Some(s)), m);
    WhereSelectsWhatIsMeant(fold, Plain(f), m);
  }

  /** The filters select a row exactly by its label, for all five states, unless the row is confirmed stock
      with no target. */
  lemma FiltersFollowLabels(fold: char -> char, f: Filters, m: Metric)
    requires IsCaseFold(fold) && Computed(m)
    requires f.dataState.None? && !f.excessOnly && Selects(fold, WhereOf(Plain(f)), m)
    ensures (forall s :: Selects(fold, WhereOf(f.(state := Some(s))), m) <==> StateOf(m) == s) <==> !Untargeted(m)
  {
    forall s
      ensures Selects(fold, WhereOf(f.(state := Some(s))), m) <==> FilteredAs(m) == s
    {
      StateFiltersPartition(fold, f, m, s);
    }
    assert Untargeted(m) ==> Selects(fold, WhereOf(f.(state := Some(AboveTarget))), m);
  }

  lemma FlagRow(fold: char -> char, f: Filters, m: Metric)
    requires IsCaseFold(fold) && Computed(m)
    requires f.state != Some(NoTarget) && f.state != Some(BelowTarget) && f.state != Some(AtTarget)
    ensures Selects(fold, WhereOf(f.(excessOnly := true)), m) <==>
      Selects(fold, WhereOf(f.(excessOnly := false)), m) && m.excess > 0
  {
    WhereSelectsWhatIsMeant(fold, f.(excessOnly := true), m);
    WhereSelectsWhatIsMeant(fold, f.(excessOnly := false), m);
  }

  /** The "excess only" flag narrows the list to the rows with excess, on every row, if and only if the state
      is not "no target", "below target" or "at target", whose own condition replaces the flag's. */
  lemma FlagNarrowsUnlessReplaced(fold: char -> char, f: Filters, sample: Metric)
    requires IsCaseFold(fold) && Base(fold, f.common, sample)
    ensures (forall m :: Computed(m) ==>
              (Selects(fold, WhereOf(f.(excessOnly := true)), m) <==>
                Selects(fold, WhereOf(f.(excessOnly := false)), m) && m.excess > 0))
      <==> f.state != Some(NoTarget) && f.state != Some(BelowTarget) && f.state != Some(AtTarget)
  {
    if f.state != Some(NoTarget) && f.state != Some(BelowTarget) && f.state != Some(AtTarget) {
      forall m | Computed(m)
        ensures Selects(fold, WhereOf(f.(excessOnly := true)), m) <==>
          Selects(fold, WhereOf(f.(excessOnly := false)), m) && m.excess > 0
      {
        FlagRow(fold, f, m);
      }
    } else {
      var m := Confirmed(sample, if f.state == Some(NoTarget) then 0 else 1, if f.state == Some(AtTarget) then 1 else 0);
      WhereSelectsWhatIsMeant(fold, f.(excessOnly := true), m);
      assert Selects(fold, WhereOf(f.(excessOnly := true)), m) && m.excess == 0;
    }
  }

  // ----- Totals -----

  function ExcessCountWhere(w: Where): Where { ConfirmedOnly(w).(excess := Positive) }

  predicate ListedConfirmed(fold: char -> char, f: Filters, m: Metric) {
    Selects(fold, WhereOf(f), m) && DataStateOf(m.status) == ConfirmedData
  }

  predicate ListedWithExcess(fold: char -> char, f: Filters, m: Metric) {
    ListedConfirmed(fold, f, m) && m.excess > 0
  }

  lemma ExcessRowCounted(fold: char -> char, f: Filters, m: Metric)
    requires IsCaseFold(fold) && Computed(m)
    requires ListsConfirmed(f.state, ReviewRequired, f.dataState) && f.state != Some(NoTarget) && f.state != Some(AtTarget)
    ensures Selects(fold, ExcessCountWhere(WhereOf(f)), m) <==> ListedWithExcess(fold, f, m)
  {
    CommonWhereSelects(fold, f.common, ExcessCountWhere(WhereOf(f)), m);
    CommonWhereSelects(fold, f.common, WhereOf(f), m);
  }

  lemma UnlistedRowCounted(fold: char -> char, f: Filters, sample: Metric)
    returns (m: Metric)
    requires IsCaseFold(fold) && Base(fold, f.common, sample)
    requires !(ListsConfirmed(f.state, ReviewRequired, f.dataState) && f.state != Some(NoTarget) && f.state != Some(AtTarget))
    ensures Computed(m) && Selects(fold, ExcessCountWhere(WhereOf(f)), m) && !ListedWithExcess(fold, f, m)
  {
    m := Confirmed(sample, if f.state == Some(NoTarget) then 0 else 1, 2);
    CommonWhereSelects(fold, f.common, ExcessCountWhere(WhereOf(f)), m);
    WhereSelectsWhatIsMeant(fold, f, m);
  }

  /** The "categories with excess" total counts exactly the listed confirmed rows with excess, on every
      table, if and only if the filters can list confirmed rows and do not ask for "no target" or "at
      target", whose own excess condition the count overwrites. */
  lemma ExcessCountDescribesList(fold: char -> char, f: Filters, sample: Metric)
    requires IsCaseFold(fold) && Base(fold, f.common, sample)
    ensures (forall m :: Computed(m) ==> (Selects(fold, ExcessCountWhere(WhereOf(f)), m) <==> ListedWithExcess(fold, f, m)))
      <==> ListsConfirmed(f.state, ReviewRequired, f.dataState) && f.state != Some(NoTarget) && f.state != Some(AtTarget)
  {
    if ListsConfirmed(f.state, ReviewRequired, f.dataState) && f.state != Some(NoTarget) && f.state != Some(AtTarget) {
      forall m | Computed(m)
        ensures Selects(fold, ExcessCountWhere(WhereOf(f)), m) <==> ListedWithExcess(fold, f, m)
      {
        ExcessRowCounted(fold, f, m);
      }
    } else {
      var m := UnlistedRowCounted(fold, f, sample);
    }
  }

  /** A target and a stock level that pass the conditions the state filter leaves in the record. */
  function Passing(f: Filters): (nat, nat) {
    if f.state == Some(NoTarget) then (0, 0) else if f.state == Some(BelowTarget) then (1, 0)
    else if f.state == Some(AtTarget) then (1, 1) else (0, 1)
  }

  /** For every combination of filters, some row passes all of the record but its status. */
  lemma SomeRowPasses(fold: char -> char, f: Filters, sample: Metric) returns (m: Metric)
    requires IsCaseFold(fold) && Base(fold, f.common, sample)
    ensures Computed(m) && Selects(fold, WhereOf(f).(status := AnyStatus), m)
  {
    m := Confirmed(sample, Passing(f).0, Passing(f).1);
    CommonWhereSelects(fold, f.common, WhereOf(f).(status := AnyStatus), m);
  }

  /** What the state and the data state leave of the status condition. */
  lemma StatusOfWhere(f: Filters)
    ensures WhereOf(f).status.AnyStatus? <==> f.state.None? && f.dataState.None?
    ensures WhereOf(f).status.AnyStatus? || WhereOf(f).status.NeitherReviewNorBlocked?
      <==> ListsConfirmed(f.state, ReviewRequired, f.dataState)
    ensures WhereOf(f).status.AnyStatus? || WhereOf(f).status.ReviewOrBlocked?
      <==> f.state == Some(ReviewRequired) || (f.state.None? && f.dataState.None?)
  {
  }

  /** The sums of the totals range over exactly the listed confirmed rows, on every table, if and only if the
      filters can list confirmed rows; otherwise they range over confirmed rows that are not listed. */
  lemma SumsDescribeList(fold: char -> char, f: Filters, sample: Metric)
    requires IsCaseFold(fold) && Base(fold, f.common, sample)
    ensures SumsRangeOverList(fold, WhereOf(f)) <==> ListsConfirmed(f.state, ReviewRequired, f.dataState)
  {
    var row := SomeRowPasses(fold, f, sample);
    StatusOfWhere(f);
    ConfirmedOnlyDescribes(fold, WhereOf(f), row);
  }

  /** The review count counts exactly the listed rows under review, on every table, if and only if the state
      is "review required", or there is neither a state nor a data state. */
  lemma ReviewCountDescribesList(fold: char -> char, f: Filters, sample: Metric)
    requires IsCaseFold(fold) && Base(fold, f.common, sample)
    ensures ReviewCountsList(fold, WhereOf(f)) <==> f.state == Some(ReviewRequired) || (f.state.None? && f.dataState.None?)
  {
    var row := SomeRowPasses(fold, f, sample);
    StatusOfWhere(f);
    ReviewCountDescribes(fold, WhereOf(f), row);
  }

  /** The listed rows are exactly those in one of the confirmed totals and the review count, on every table, if
      and only if there is neither a state nor a data state. */
  lemma ListSplitsIntoConfirmedAndReview(fold: char -> char, f: Filters, sample: Metric)
    requires IsCaseFold(fold) && Base(fold, f.common, sample)
    ensures TotalsSplitList(fold, WhereOf(f)) <==> f.state.None? && f.dataState.None?
  {
    var row := SomeRowPasses(fold, f, sample);
    StatusOfWhere(f);
    ListSplits(fold, WhereOf(f), row);
  }

  // ----- The latest sale of a category -----

  datatype TraceItem = TraceItem(category: string, kind: string, included: bool, docDate: Option<int>)

  predicate IsSaleOf(t: TraceItem, category: string) { t.category == category && t.kind == "SALE" && t.included }

  /** MAX over a nullable column: nulls are ignored, and the maximum of nothing is null. */
  function LatestSale(items: seq<TraceItem>, category: string): Option<int> {
    if items == [] then None
    else
      var rest := LatestSale(items[1..], category);
      if IsSaleOf(items[0], category) then Later(items[0].docDate, rest) else rest
  }

  /** The latest sale is the latest date among the included sales of the category, and there is none when none of
      them has a date. */
  lemma {:induction false} LatestSaleIsLatest(items: seq<TraceItem>, category: string)
    ensures LatestSale(items, category).None? <==> forall t :: t in items && IsSaleOf(t, category) ==> t.docDate.None?
    ensures LatestSale(items, category).Some? ==>
      && (exists t :: t in items && IsSaleOf(t, category) && t.docDate == LatestSale(items, category))
      && (forall t :: t in items && IsSaleOf(t, category) && t.docDate.Some? ==> t.docDate.value <= LatestSale(items, category).value)
  {
    if items != [] {
      LatestSaleIsLatest(items[1..], category);
      assert forall t :: t in items <==> t == items[0] || t in items[1..];
    }
  }

  /** One group of the grouped query. */
  datatype Latest = Latest(category: string, maxDate: Option<int>)

  /** `groups` answers: for the listed categories that have included sales, their latest date. */
  ghost predicate IsLatestQuery(items: seq<TraceItem>, categories: seq<string>, groups: seq<Latest>) {
    && (forall i, j :: 0 <= i < j < |groups| ==> groups[i].category != groups[j].category)
    && (forall i :: 0 <= i < |groups| ==>
          groups[i].category in categories && groups[i].maxDate == LatestSale(items, groups[i].category))
    && (forall c :: c in categories && (exists t :: t in items && IsSaleOf(t, c)) ==>
          exists i :: 0 <= i < |groups| && groups[i].category == c)
  }

  lemma {:induction false} NoSaleNoDate(items: seq<TraceItem>, category: string)
    requires forall t :: t in items ==> !IsSaleOf(t, category)
    ensures LatestSale(items, category) == None
  {
    if items != [] {
      NoSaleNoDate(items[1..], category);
    }
  }

  function Lookup(m: map<string, int>, k: string): Option<int> { if k in m then Some(m[k]) else None }

  /** The loop that fills the map: looking a listed category up gives its latest sale, or nothing when it
      has none or when its sales carry no date. */
  method LatestSalesFor(ghost items: seq<TraceItem>, categories: seq<string>, groups: seq<Latest>) returns (latest: map<string, int>)
    requires IsLatestQuery(items, categories, groups)
    ensures forall c :: c in categories ==> Lookup(latest, c) == LatestSale(items, c)
  {
    latest := map[];
    if |categories| == 0 {
      return;
    }
    for n := 0 to |groups|
      invariant forall i :: 0 <= i < n ==> Lookup(latest, groups[i].category) == groups[i].maxDate
      invariant forall c :: c in latest ==> exists i :: 0 <= i < n && groups[i].category == c
    {
      if groups[n].maxDate.Some? {
        latest := latest[groups[n].category := groups[n].maxDate.value];
      }
    }
    forall c | c in categories
      ensures Lookup(latest, c) == LatestSale(items, c)
    {
      if forall i :: 0 <= i < |groups| ==> groups[i].category != c {
        NoSaleNoDate(items, c);
      }
    }
  }

  // ----- The export -----

  datatype Row = Row(
    categoryId: string,
    categoryLabel: string,
    lab: Option<string>,
    shape: Option<string>,
    weightBand: Option<string>,
    sales90d: int,
    targetQuantity: int,
    physicalAvailable: int,
    excessQuantity: int,
    memoQuantity: int,
    wipQuantity: int,
    latestSale: Option<string>,
    state: State,
    dataState: DataState)

  /** Formatting that other modules do: the date of a sale, and the label of lab, shape and band. */
  datatype Format = Format(date: int -> string, category: (string, string, string) -> string)

  function OrEmpty(v: Option<string>): string { if v.Some? then v.value else "" }

  function ToRow(m: Metric, latestSale: Option<string>, format: Format): Row {
    Row(m.category, format.category(OrEmpty(m.lab), OrEmpty(m.shape), OrEmpty(m.weightBand)), m.lab, m.shape, m.weightBand,
        m.sales90d, m.target, m.available, m.excess, m.memo, m.wipCoverage + m.unallocatedWip, latestSale,
        StateOf(m), DataStateOf(m.status))
  }

  function Shown(latest: Option<int>, format: Format): Option<string> {
    if latest.Some? then Some(format.date(latest.value)) else None
  }

  /** The row with the latest sale of its own category, whatever batch it is read in. */
  function RowOf(items: seq<TraceItem>, format: Format): Metric -> Row {
    (m: Metric) => ToRow(m, Shown(LatestSale(items, m.category), format), format)
  }

  /** What the columns of an exported row say about each other and about the metric: the excess is the stock above the
      target, the label and the data state follow from the columns beside them, the quantity in process is both kinds
      together, and the sale is the latest one of the row's own category. */
  lemma ExportedRowMeans(m: Metric, items: seq<TraceItem>, format: Format, r: Row)
    requires Computed(m) && r == RowOf(items, format)(m)
    ensures r.categoryId == m.category && r.lab == m.lab && r.shape == m.shape && r.weightBand == m.weightBand
    ensures r.targetQuantity == m.target && r.physicalAvailable == m.available && r.sales90d == m.sales90d
    ensures r.excessQuantity == Max(0, r.physicalAvailable - r.targetQuantity)
    ensures r.memoQuantity == m.memo && r.wipQuantity - m.wipCoverage == m.unallocatedWip
    ensures r.dataState.ConfirmedData? <==> m.status != "REVIEW_REQUIRED" && m.status != "BLOCKED_BY_DATA_QUALITY"
    ensures r.dataState.BlockedData? <==> m.status == "BLOCKED_BY_DATA_QUALITY"
    ensures r.state.ReviewRequired? <==> !r.dataState.ConfirmedData?
    ensures r.dataState.ConfirmedData? ==>
      && (r.state.NoTarget? <==> r.targetQuantity == 0)
      && (r.targetQuantity > 0 ==>
            (r.state.AboveTarget? <==> r.physicalAvailable > r.targetQuantity)
            && (r.state.BelowTarget? <==> r.physicalAvailable < r.targetQuantity)
            && (r.state.AtTarget? <==> r.physicalAvailable == r.targetQuantity))
    ensures r.latestSale.None? <==> forall t :: t in items && IsSaleOf(t, r.categoryId) ==> t.docDate.None?
    ensures r.latestSale.Some? ==>
      exists t :: t in items && IsSaleOf(t, r.categoryId) && t.docDate.Some? && r.latestSale == Some(format.date(t.docDate.value))
  {
    LatestSaleIsLatest(items, m.category);
  }

  function CategoryOf(): Metric -> string { (m: Metric) => m.category }

  function WithLatest(latest: map<string, int>, format: Format): Metric -> Row {
    (m: Metric) => ToRow(m, Shown(Lookup(latest, m.category), format), format)
  }

  lemma BatchRows(batch: seq<Metric>, items: seq<TraceItem>, latest: map<string, int>, format: Format)
    requires forall c :: c in Map(batch, CategoryOf()) ==> Lookup(latest, c) == LatestSale(items, c)
    ensures Map(batch, WithLatest(latest, format)) == Map(batch, RowOf(items, format))
  {
    var categories := Map(batch, CategoryOf());
    forall i | 0 <= i < |batch|
      ensures Map(batch, WithLatest(latest, format))[i] == Map(batch, RowOf(items, format))[i]
    {
      assert categories[i] == batch[i].category;
      assert categories[i] in categories;
    }
  }

  /** Reading in batches, with the latest sales looked up batch by batch, gives each row the latest sale of
      its own category; and on a table that does not change, exactly its first min(total, limit) rows. */
  method ReadExcessForExport(tables: nat -> seq<Metric>, ghost items: seq<TraceItem>, answers: seq<string> -> seq<Latest>,
                             format: Format, total: nat, limit: nat)
    returns (rows: seq<Row>, truncated: bool)
    requires forall categories :: IsLatestQuery(items, categories, answers(categories))
    ensures |rows| <= Min(total, limit)
    ensures truncated <==> total > limit
    ensures (forall i: nat :: tables(i) == tables(0)) && total == |tables(0)| ==>
      rows == Map(tables(0)[..Min(total, limit)], RowOf(items, format)) && (truncated <==> |rows| < |tables(0)|)
  {
    var target := Min(total, limit);
    rows := [];
    ghost var steady := (forall i: nat :: tables(i) == tables(0)) && total == |tables(0)|;
    var attempt := 0;
    while |rows| < target
      invariant |rows| <= target
      invariant steady ==> rows == Map(tables(0)[..|rows|], RowOf(items, format))
      decreases target - |rows|
    {
      var batch := FindMany(tables(attempt), |rows|, Min(EXPORT_READ_BATCH, target - |rows|));
      if steady {
        BatchExtends(tables(0), rows, target, batch, RowOf(items, format));
      }
      if |batch| == 0 {
        break;
      }
      var categories := Map(batch, CategoryOf());
      var latest := LatestSalesFor(items, categories, answers(categories));
      BatchRows(batch, items, latest, format);
      rows := rows + Map(batch, WithLatest(latest, format));
      attempt := attempt + 1;
    }
    truncated := total > limit;
  }
}
