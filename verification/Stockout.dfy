/** The stockout report: its states, its filters, and what its totals count. */
module Stockout {
  import opened Prelude
  import opened LikePattern
  import opened DemandMetrics

  datatype State = OutOfStock | Shortage | Covered | Excess | ReviewRequired

  datatype Filters = Filters(common: Common, state: Option<State>, dataState: Option<DataState>, shortageOnly: bool)

  function StateOf(m: Metric): State {
    if DataStateOf(m.status) != ConfirmedData then ReviewRequired
    else if m.target > 0 && m.available == 0 then OutOfStock
    else if m.shortage > 0 then Shortage
    else if m.excess > 0 then Excess
    else Covered
  }

  /** What the labels say of a computed metric: one under review is labelled so, and the others are labelled by how
      their stock compares with their target. */
  lemma LabelsCompareStockToTarget(m: Metric)
    requires Computed(m)
    ensures StateOf(m).ReviewRequired? <==> m.status == "REVIEW_REQUIRED" || m.status == "BLOCKED_BY_DATA_QUALITY"
    ensures !StateOf(m).ReviewRequired? ==>
      && (StateOf(m).OutOfStock? <==> 0 == m.available < m.target) && (StateOf(m).Shortage? <==> 0 < m.available < m.target)
      && (StateOf(m).Covered? <==> m.available == m.target) && (StateOf(m).Excess? <==> m.available > m.target)
  {
  }

  /** The assignments of one state, on top of what the record already holds. */
  function WithState(w: Where, s: State): Where {
    match s
    case ReviewRequired => w.(status := ReviewOrBlocked)
    case OutOfStock => w.(status := NeitherReviewNorBlocked, target := Positive, available := EqualTo(0))
    case Shortage => w.(status := NeitherReviewNorBlocked, shortage := Positive, available := Positive)
    case Excess => w.(status := NeitherReviewNorBlocked, shortage := EqualTo(0), excess := Positive)
    case Covered => w.(status := NeitherReviewNorBlocked, shortage := EqualTo(0), excess := EqualTo(0))
  }

  function WhereOf(f: Filters): Where {
    var w1 := if f.shortageOnly then CommonWhere(f.common).(shortage := Positive) else CommonWhere(f.common);
    var w2 := if f.dataState.Some? then w1.(status := DataStateCond(f.dataState.value)) else w1;
    if f.state.Some? then WithState(w2, f.state.value) else w2
  }

  method WhereFor(f: Filters) returns (where: Where)
    ensures where == WhereOf(f)
  {
    where := CommonWhere(f.common);
    if f.shortageOnly {
      where := where.(shortage := Positive);
    }
    if f.dataState.Some? {
      where := where.(status := DataStateCond(f.dataState.value));
    }
    if f.state.Some? {
      match f.state.value {
        case ReviewRequired =>
          where := where.(status := ReviewOrBlocked);
        case OutOfStock =>
          where := where.(status := NeitherReviewNorBlocked);
          where := where.(target := Positive);
          where := where.(available := EqualTo(0));
        case Shortage =>
          where := where.(status := NeitherReviewNorBlocked);
          where := where.(shortage := Positive);
          where := where.(available := Positive);
        case Excess =>
          where := where.(status := NeitherReviewNorBlocked);
          where := where.(shortage := EqualTo(0));
          where := where.(excess := Positive);
        case Covered =>
          where := where.(status := NeitherReviewNorBlocked);
          where := where.(shortage := EqualTo(0));
          where := where.(excess := EqualTo(0));
      }
    }
  }

  /** What a filter combination asks for. Every state filter replaces the data state. "Excess" and
      "covered" also replace the condition of the "shortage only" flag; "out of stock" and "shortage"
      imply it; "review required" leaves it in force. */
  predicate Meant(fold: char -> char, f: Filters, m: Metric) {
    Base(fold, f.common, m)
    && match f.state
       case None => (f.shortageOnly ==> m.shortage > 0) && (f.dataState.Some? ==> DataStateOf(m.status) == f.dataState.value)
       case Some(s) => StateOf(m) == s && (s.ReviewRequired? && f.shortageOnly ==> m.shortage > 0)
  }

  /** For every combination of filters and every computed metric, the record selects exactly the rows
      that are meant; so a list asked for one state shows no other label. */
  lemma WhereSelectsWhatIsMeant(fold: char -> char, f: Filters, m: Metric)
    requires IsCaseFold(fold) && Computed(m)
    ensures Selects(fold, WhereOf(f), m) <==> Meant(fold, f, m)
    ensures Selects(fold, WhereOf(f), m) && f.state.Some? ==> StateOf(m) == f.state.value
  {
    CommonWhereSelects(fold, f.common, WhereOf(f), m);
  }

  function Plain(f: Filters): Filters { f.(state := None, dataState := None, shortageOnly := false) }

  /** With no data state and the flag off, each state filter selects exactly the rows labelled with that
      state. So the five filters partition the rows the other filters leave. */
  lemma StatesPartition(fold: char -> char, f: Filters, m: Metric, s: State)
    requires IsCaseFold(fold) && Computed(m)
    requires f.dataState.None? && !f.shortageOnly
    ensures Selects(fold, WhereOf(f.(state := Some(s))), m) <==> Selects(fold, WhereOf(Plain(f)), m) && StateOf(m) == s
  {
    WhereSelectsWhatIsMeant(fold, f.(state := Some(s)), m);
    WhereSelectsWhatIsMeant(fold, Plain(f), m);
  }

  /** The "shortage only" flag narrows a state filter on every row if and only if the state is not
      "excess" or "covered", whose own condition replaces the flag's. */
  lemma FlagNarrowsUnlessReplaced(fold: char -> char, f: Filters, sample: Metric)
    requires IsCaseFold(fold) && Base(fold, f.common, sample)
    ensures (forall m :: Computed(m) ==>
              (Selects(fold, WhereOf(f.(shortageOnly := true)), m) <==>
                Selects(fold, WhereOf(f.(shortageOnly := false)), m) && m.shortage > 0))
      <==> f.state != Some(Excess) && f.state != Some(Covered)
  {
    var on, off := f.(shortageOnly := true), f.(shortageOnly := false);
    forall m | Computed(m)
      ensures Selects(fold, WhereOf(on), m) <==> Meant(fold, on, m)
      ensures Selects(fold, WhereOf(off), m) <==> Meant(fold, off, m)
    {
      WhereSelectsWhatIsMeant(fold, on, m);
      WhereSelectsWhatIsMeant(fold, off, m);
    }
    if f.state == Some(Excess) {
      var m := Confirmed(sample, 0, 1);
      assert Meant(fold, on, m) && m.shortage == 0;
    } else if f.state == Some(Covered) {
      var m := Confirmed(sample, 1, 1);
      assert Meant(fold, on, m) && m.shortage == 0;
    }
  }

  // ----- Totals -----

  function ShortageCountWhere(w: Where): Where { ConfirmedOnly(w).(shortage := Positive) }

  function OutOfStockCountWhere(w: Where): Where { ConfirmedOnly(w).(target := Positive, available := EqualTo(0)) }

  predicate ListedConfirmed(fold: char -> char, f: Filters, m: Metric) {
    Selects(fold, WhereOf(f), m) && DataStateOf(m.status) == ConfirmedData
  }

  lemma ShortageRowCounted(fold: char -> char, f: Filters, m: Metric)
    requires IsCaseFold(fold) && Computed(m) && ListsConfirmed(f.state, ReviewRequired, f.dataState) && f.state != Some(Covered)
    ensures Selects(fold, ShortageCountWhere(WhereOf(f)), m) <==> ListedConfirmed(fold, f, m) && m.shortage > 0
  {
    CommonWhereSelects(fold, f.common, ShortageCountWhere(WhereOf(f)), m);
    WhereSelectsWhatIsMeant(fold, f, m);
  }

  /** The "categories with shortage" total counts exactly the listed confirmed rows with a shortage, on
      every table, if and only if the filters can list confirmed rows and do not ask for "covered" (whose
      condition the count overwrites, so that it counts rows that are not listed). */
  lemma ShortageCountDescribesList(fold: char -> char, f: Filters, sample: Metric)
    requires IsCaseFold(fold) && Base(fold, f.common, sample)
    ensures (forall m :: Computed(m) ==>
              (Selects(fold, ShortageCountWhere(WhereOf(f)), m) <==> ListedConfirmed(fold, f, m) && m.shortage > 0))
      <==> ListsConfirmed(f.state, ReviewRequired, f.dataState) && f.state != Some(Covered)
  {
    if ListsConfirmed(f.state, ReviewRequired, f.dataState) && f.state != Some(Covered) {
      forall m | Computed(m)
        ensures Selects(fold, ShortageCountWhere(WhereOf(f)), m) <==> ListedConfirmed(fold, f, m) && m.shortage > 0
      {
        ShortageRowCounted(fold, f, m);
      }
    } else {
      var m := Confirmed(sample, 2, 1);
      CommonWhereSelects(fold, f.common, ShortageCountWhere(WhereOf(f)), m);
      WhereSelectsWhatIsMeant(fold, f, m);
      assert Selects(fold, ShortageCountWhere(WhereOf(f)), m);
      assert !ListedConfirmed(fold, f, m);
    }
  }

  lemma OutOfStockRowCounted(fold: char -> char, f: Filters, m: Metric)
    requires IsCaseFold(fold) && Computed(m) && ListsConfirmed(f.state, ReviewRequired, f.dataState) && f.state != Some(Shortage)
    ensures Selects(fold, OutOfStockCountWhere(WhereOf(f)), m) <==> ListedConfirmed(fold, f, m) && m.target > 0 && m.available == 0
  {
    CommonWhereSelects(fold, f.common, OutOfStockCountWhere(WhereOf(f)), m);
    WhereSelectsWhatIsMeant(fold, f, m);
  }

  /** The "out of stock" total counts exactly the listed rows without stock, on every table, if and only if
      the filters can list confirmed rows and do not ask for "shortage". */
  lemma OutOfStockCountDescribesList(fold: char -> char, f: Filters, sample: Metric)
    requires IsCaseFold(fold) && Base(fold, f.common, sample)
    ensures (forall m :: Computed(m) ==>
              (Selects(fold, OutOfStockCountWhere(WhereOf(f)), m) <==>
                ListedConfirmed(fold, f, m) && m.target > 0 && m.available == 0))
      <==> ListsConfirmed(f.state, ReviewRequired, f.dataState) && f.state != Some(Shortage)
  {
    if ListsConfirmed(f.state, ReviewRequired, f.dataState) && f.state != Some(Shortage) {
      forall m | Computed(m)
        ensures Selects(fold, OutOfStockCountWhere(WhereOf(f)), m) <==> ListedConfirmed(fold, f, m) && m.target > 0 && m.available == 0
      {
        OutOfStockRowCounted(fold, f, m);
      }
    } else {
      var m := Confirmed(sample, 1, 0);
      CommonWhereSelects(fold, f.common, OutOfStockCountWhere(WhereOf(f)), m);
      WhereSelectsWhatIsMeant(fold, f, m);
      assert Selects(fold, OutOfStockCountWhere(WhereOf(f)), m);
      assert !ListedConfirmed(fold, f, m);
    }
  }

  /** A target and a stock level that pass the conditions the state filter leaves in the record. */
  function Passing(f: Filters): (nat, nat) {
    if f.state == Some(Shortage) then (2, 1) else if f.state == Some(Excess) then (0, 1)
    else if f.state == Some(Covered) then (1, 1) else (1, 0)
  }

  /** For every combination of filters, some row passes all of the record but its status. */
  lemma SomeRowPasses(fold: char -> char, f: Filters, sample: Metric) returns (m: Metric)
    requires IsCaseFold(fold) && Base(fold, f.common, sample)
    ensures Computed(m) && Selects(fold, WhereOf(f).(status := AnyStatus), m)
  {
    m := Confirmed(sample, Passing(f).0, Passing(f).1);
    CommonWhereSelects(fold, f.common, WhereOf(f).(status := AnyStatus), m);
  }

  /** What the state and the data state leave of the status condition. */
  lemma StatusOfWhere(f: Filters)
    ensures WhereOf(f).status.AnyStatus? <==> f.state.None? && f.dataState.None?
    ensures WhereOf(f).status.AnyStatus? || WhereOf(f).status.NeitherReviewNorBlocked?
      <==> ListsConfirmed(f.state, ReviewRequired, f.dataState)
    ensures WhereOf(f).status.AnyStatus? || WhereOf(f).status.ReviewOrBlocked?
      <==> f.state == Some(ReviewRequired) || (f.state.None? && f.dataState.None?)
  {
  }

  /** The sums of the totals range over exactly the listed confirmed rows, on every table, if and only if the
      filters can list confirmed rows; otherwise they range over confirmed rows that are not listed. */
  lemma SumsDescribeList(fold: char -> char, f: Filters, sample: Metric)
    requires IsCaseFold(fold) && Base(fold, f.common, sample)
    ensures SumsRangeOverList(fold, WhereOf(f)) <==> ListsConfirmed(f.state, ReviewRequired, f.dataState)
  {
    var row := SomeRowPasses(fold, f, sample);
    StatusOfWhere(f);
    ConfirmedOnlyDescribes(fold, WhereOf(f), row);
  }

  /** The review count counts exactly the listed rows under review, on every table, if and only if the state
      is "review required", or there is neither a state nor a data state. */
  lemma ReviewCountDescribesList(fold: char -> char, f: Filters, sample: Metric)
    requires IsCaseFold(fold) && Base(fold, f.common, sample)
    ensures ReviewCountsList(fold, WhereOf(f)) <==> f.state == Some(ReviewRequired) || (f.state.None? && f.dataState.None?)
  {
    var row := SomeRowPasses(fold, f, sample);
    StatusOfWhere(f);
    ReviewCountDescribes(fold, WhereOf(f), row);
  }

  /** The listed rows are exactly those in one of the confirmed totals and the review count, on every table, if
      and only if there is neither a state nor a data state. */
  lemma ListSplitsIntoConfirmedAndReview(fold: char -> char, f: Filters, sample: Metric)
    requires IsCaseFold(fold) && Base(fold, f.common, sample)
    ensures TotalsSplitList(fold, WhereOf(f)) <==> f.state.None? && f.dataState.None?
  {
    var row := SomeRowPasses(fold, f, sample);
    StatusOfWhere(f);
    ListSplits(fold, WhereOf(f), row);
  }
}
