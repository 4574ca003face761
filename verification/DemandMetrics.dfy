/** Demand metrics, the filter records built for them, and the batched export read. */
module DemandMetrics {
  import opened Prelude
  import opened LikePattern

  datatype Metric = Metric(
    category: string,
    lab: Option<string>,
    shape: Option<string>,
    weightBand: Option<string>,
    target: int,
    available: int,
    shortage: int,
    excess: int,
    sales90d: int,
    memo: int,
    wipCoverage: int,
    unallocatedWip: int,
    status: string)

  /** What the demand calculation guarantees of every metric it stores. */
  predicate Computed(m: Metric) {
    m.target >= 0 && m.available >= 0
    && m.shortage == Max(0, m.target - m.available) && m.excess == Max(0, m.available - m.target)
  }

  // ----- Data states -----

  datatype DataState = ConfirmedData | ReviewData | BlockedData

  const REVIEW := "REVIEW_REQUIRED"
  const BLOCKED := "BLOCKED_BY_DATA_QUALITY"

  function DataStateOf(status: string): DataState {
    if status == BLOCKED then BlockedData else if status == REVIEW then ReviewData else ConfirmedData
  }

  /** The sample row, confirmed, with the given target and stock. */
  function Confirmed(sample: Metric, target: nat, available: nat): (m: Metric)
    ensures Computed(m) && DataStateOf(m.status) == ConfirmedData
  {
    sample.(status := "COMPLETED", target := target, available := available,
            shortage := Max(0, target - available), excess := Max(0, available - target))
  }

  // ----- Filter records -----

  datatype IntCond = AnyInt | Positive | EqualTo(n: int)

  datatype StatusCond = AnyStatus | IsReview | IsBlocked | ReviewOrBlocked | NeitherReviewNorBlocked

  datatype TextCond = AnyText | TextIs(s: string) | TextIn(items: seq<string>)

  /** The fields of the where record; assigning a field again replaces its condition. */
  datatype Where = Where(
    lab: TextCond,
    shape: TextCond,
    weightBand: TextCond,
    categoryLike: Option<string>,
    status: StatusCond,
    target: IntCond,
    available: IntCond,
    shortage: IntCond,
    excess: IntCond)

  predicate IntHolds(c: IntCond, n: int) {
    match c case AnyInt => true case Positive => n > 0 case EqualTo(k) => n == k
  }

  predicate StatusHolds(c: StatusCond, status: string) {
    match c
    case AnyStatus => true
    case IsReview => status == REVIEW
    case IsBlocked => status == BLOCKED
    case ReviewOrBlocked => status == REVIEW || status == BLOCKED
    case NeitherReviewNorBlocked => status != REVIEW && status != BLOCKED
  }

  function DataStateCond(d: DataState): StatusCond {
    match d case BlockedData => IsBlocked case ReviewData => IsReview case ConfirmedData => NeitherReviewNorBlocked
  }

  predicate TextHolds(c: TextCond, v: Option<string>) {
    match c case AnyText => true case TextIs(s) => v == Some(s) case TextIn(items) => v.Some? && v.value in items
  }

  predicate Selects(fold: char -> char, w: Where, m: Metric) {
    TextHolds(w.lab, m.lab) && TextHolds(w.shape, m.shape) && TextHolds(w.weightBand, m.weightBand)
    && (w.categoryLike.Some? ==> ILike(fold, w.categoryLike.value, m.category))
    && StatusHolds(w.status, m.status) && IntHolds(w.target, m.target) && IntHolds(w.available, m.available)
    && IntHolds(w.shortage, m.shortage) && IntHolds(w.excess, m.excess)
  }

  // ----- The filters both reports share -----

  /** `labs` are the labs of the caller's scope, or None when it is not restricted. */
  datatype Common = Common(
    labs: Option<seq<string>>,
    lab: Option<string>,
    shape: Option<string>,
    weightBand: Option<string>,
    search: Option<string>)

  predicate Given(v: Option<string>) { v.Some? && v.value != "" }

  function GivenText(v: Option<string>): TextCond { if Given(v) then TextIs(v.value) else AnyText }

  /** A requested lab replaces the condition of the scope; the callers reject labs outside it. */
  function CommonWhere(f: Common): Where {
    Where(
      if Given(f.lab) then TextIs(f.lab.value) else if f.labs.Some? then TextIn(f.labs.value) else AnyText,
      GivenText(f.shape), GivenText(f.weightBand),
      if Given(f.search) then Some(EscapedSearch(f.search.value)) else None,
      AnyStatus, AnyInt, AnyInt, AnyInt, AnyInt)
  }

  predicate Base(fold: char -> char, f: Common, m: Metric) {
    (if Given(f.lab) then m.lab == f.lab else f.labs.Some? ==> m.lab.Some? && m.lab.value in f.labs.value)
    && (Given(f.shape) ==> m.shape == f.shape) && (Given(f.weightBand) ==> m.weightBand == f.weightBand)
    && (Given(f.search) ==> ContainsIgnoringCase(fold, m.category, f.search.value))
  }

  /** The shared conditions select the rows they name, the search being "contains" ignoring case. */
  lemma CommonWhereSelects(fold: char -> char, f: Common, w: Where, m: Metric)
    requires IsCaseFold(fold)
    requires w == CommonWhere(f).(status := w.status, target := w.target, available := w.available,
                                  shortage := w.shortage, excess := w.excess)
    ensures Selects(fold, w, m) <==>
      && Base(fold, f, m) && StatusHolds(w.status, m.status) && IntHolds(w.target, m.target)
      && IntHolds(w.available, m.available) && IntHolds(w.shortage, m.shortage) && IntHolds(w.excess, m.excess)
  {
    if Given(f.search) {
      EscapedSearchMeansContains(fold, f.search.value, m.category);
    }
  }

  // ----- The records of the totals, made by overwriting the record of the list -----

  function ConfirmedOnly(w: Where): Where { w.(status := NeitherReviewNorBlocked) }

  function ReviewCountWhere(w: Where): Where { w.(status := ReviewOrBlocked) }

  /** A report filtered by this state and data state can list confirmed rows at all. */
  predicate ListsConfirmed<S(==)>(state: Option<S>, review: S, dataState: Option<DataState>) {
    if state.Some? then state.value != review else dataState.None? || dataState == Some(ConfirmedData)
  }

  predicate IsReviewRow(m: Metric) { DataStateOf(m.status) != ConfirmedData }

  /** On every table the confirmed record selects exactly the confirmed rows that the list's record selects. */
  ghost predicate SumsRangeOverList(fold: char -> char, w: Where) {
    forall m :: Computed(m) ==> (Selects(fold, ConfirmedOnly(w), m) <==> Selects(fold, w, m) && !IsReviewRow(m))
  }

  /** On every table the review record selects exactly the rows under review that the list's record selects. */
  ghost predicate ReviewCountsList(fold: char -> char, w: Where) {
    forall m :: Computed(m) ==> (Selects(fold, ReviewCountWhere(w), m) <==> Selects(fold, w, m) && IsReviewRow(m))
  }

  /** On every table the list's record selects exactly the rows that one of the two selects, and never both. */
  ghost predicate TotalsSplitList(fold: char -> char, w: Where) {
    forall m :: Computed(m) ==>
      (Selects(fold, w, m) <==> Selects(fold, ConfirmedOnly(w), m) != Selects(fold, ReviewCountWhere(w), m))
  }

  lemma StatusAlone(fold: char -> char, w: Where, m: Metric)
    ensures Selects(fold, w, m) <==> Selects(fold, w.(status := AnyStatus), m) && StatusHolds(w.status, m.status)
  {
  }

  lemma ConfirmedRow(fold: char -> char, w: Where, m: Metric)
    requires w.status.AnyStatus? || w.status.NeitherReviewNorBlocked?
    ensures Selects(fold, ConfirmedOnly(w), m) <==> Selects(fold, w, m) && !IsReviewRow(m)
  {
    StatusAlone(fold, w, m);
    StatusAlone(fold, ConfirmedOnly(w), m);
  }

  lemma HiddenConfirmedRow(fold: char -> char, w: Where, sample: Metric) returns (m: Metric)
    requires Computed(sample) && Selects(fold, w.(status := AnyStatus), sample)
    requires !w.status.AnyStatus? && !w.status.NeitherReviewNorBlocked?
    ensures Computed(m) && Selects(fold, ConfirmedOnly(w), m) && !Selects(fold, w, m) && !IsReviewRow(m)
  {
    m := sample.(status := "COMPLETED");
    assert Selects(fold, w.(status := AnyStatus), m);
    StatusAlone(fold, w, m);
    StatusAlone(fold, ConfirmedOnly(w), m);
  }

  /** Sums over the confirmed record range over the listed confirmed rows, on every table, if and only if the
      record of the list lets confirmed rows through. */
  lemma ConfirmedOnlyDescribes(fold: char -> char, w: Where, sample: Metric)
    requires Computed(sample) && Selects(fold, w.(status := AnyStatus), sample)
    ensures SumsRangeOverList(fold, w) <==> w.status.AnyStatus? || w.status.NeitherReviewNorBlocked?
  {
    if w.status.AnyStatus? || w.status.NeitherReviewNorBlocked? {
      forall m | Computed(m)
        ensures Selects(fold, ConfirmedOnly(w), m) <==> Selects(fold, w, m) && !IsReviewRow(m)
      {
        ConfirmedRow(fold, w, m);
      }
    } else {
      var m := HiddenConfirmedRow(fold, w, sample);
    }
  }

  lemma ReviewRow(fold: char -> char, w: Where, m: Metric)
    requires w.status.AnyStatus? || w.status.ReviewOrBlocked?
    ensures Selects(fold, ReviewCountWhere(w), m) <==> Selects(fold, w, m) && IsReviewRow(m)
  {
    StatusAlone(fold, w, m);
    StatusAlone(fold, ReviewCountWhere(w), m);
  }

  lemma HiddenReviewRow(fold: char -> char, w: Where, sample: Metric) returns (m: Metric)
    requires Computed(sample) && Selects(fold, w.(status := AnyStatus), sample)
    requires !w.status.AnyStatus? && !w.status.ReviewOrBlocked?
    ensures Computed(m) && Selects(fold, ReviewCountWhere(w), m) && !Selects(fold, w, m) && IsReviewRow(m)
  {
    m := sample.(status := if w.status.IsBlocked? then REVIEW else BLOCKED);
    assert Selects(fold, w.(status := AnyStatus), m);
    StatusAlone(fold, w, m);
    StatusAlone(fold, ReviewCountWhere(w), m);
  }

  /** The review count counts the listed rows under review, on every table, if and only if the record of the
      list lets all of them through. */
  lemma ReviewCountDescribes(fold: char -> char, w: Where, sample: Metric)
    requires Computed(sample) && Selects(fold, w.(status := AnyStatus), sample)
    ensures ReviewCountsList(fold, w) <==> w.status.AnyStatus? || w.status.ReviewOrBlocked?
  {
    if w.status.AnyStatus? || w.status.ReviewOrBlocked? {
      forall m | Computed(m)
        ensures Selects(fold, ReviewCountWhere(w), m) <==> Selects(fold, w, m) && IsReviewRow(m)
      {
        ReviewRow(fold, w, m);
      }
    } else {
      var m := HiddenReviewRow(fold, w, sample);
    }
  }

  lemma SplitRow(fold: char -> char, w: Where, m: Metric)
    requires w.status.AnyStatus?
    ensures Selects(fold, w, m) <==> Selects(fold, ConfirmedOnly(w), m) != Selects(fold, ReviewCountWhere(w), m)
  {
    StatusAlone(fold, ConfirmedOnly(w), m);
    StatusAlone(fold, ReviewCountWhere(w), m);
  }

  /** Every listed row is in exactly one of the two, and no other row is, on every table, if and only if the
      record of the list does not look at the status. */
  lemma ListSplits(fold: char -> char, w: Where, sample: Metric)
    requires Computed(sample) && Selects(fold, w.(status := AnyStatus), sample)
    ensures TotalsSplitList(fold, w) <==> w.status.AnyStatus?
  {
    if w.status.AnyStatus? {
      forall m | Computed(m)
        ensures Selects(fold, w, m) <==> Selects(fold, ConfirmedOnly(w), m) != Selects(fold, ReviewCountWhere(w), m)
      {
        SplitRow(fold, w, m);
      }
    } else if w.status.NeitherReviewNorBlocked? {
      var m := HiddenReviewRow(fold, w, sample);
      StatusAlone(fold, ConfirmedOnly(w), m);
    } else {
      var m := HiddenConfirmedRow(fold, w, sample);
      StatusAlone(fold, ReviewCountWhere(w), m);
    }
  }

  // ----- Conservation -----

  function Shortages(rows: seq<Metric>): int { if rows == [] then 0 else rows[0].shortage + Shortages(rows[1..]) }

  function Excesses(rows: seq<Metric>): int { if rows == [] then 0 else rows[0].excess + Excesses(rows[1..]) }

  function Targets(rows: seq<Metric>): int { if rows == [] then 0 else rows[0].target + Targets(rows[1..]) }

  function Availables(rows: seq<Metric>): int { if rows == [] then 0 else rows[0].available + Availables(rows[1..]) }

  /** Over any rows, shortage minus excess is target minus available. */
  lemma {:induction false} ShortageBalancesExcess(rows: seq<Metric>)
    requires forall i :: 0 <= i < |rows| ==> Computed(rows[i])
    ensures Shortages(rows) - Excesses(rows) == Targets(rows) - Availables(rows)
  {
    if rows != [] {
      ShortageBalancesExcess(rows[1..]);
    }
  }

  // ----- The batched export -----

  const EXPORT_READ_BATCH := 2_000

  /** findMany with skip and take. */
  function FindMany<R>(table: seq<R>, skip: nat, take: nat): seq<R> {
    if skip >= |table| then [] else table[skip..Min(skip + take, |table|)]
  }

  /** One batch extends the rows read so far to a longer prefix of an unchanged table. */
  lemma BatchExtends<R, T>(table: seq<R>, rows: seq<T>, target: nat, batch: seq<R>, toRow: R -> T)
    requires |rows| < target <= |table|
    requires rows == Map(table[..|rows|], toRow)
    requires batch == FindMany(table, |rows|, Min(EXPORT_READ_BATCH, target - |rows|))
    ensures |batch| == Min(EXPORT_READ_BATCH, target - |rows|)
    ensures rows + Map(batch, toRow) == Map(table[..|rows| + |batch|], toRow)
  {
    assert batch == table[|rows|..|rows| + |batch|];
  }

  /** The export loop over the ordered, filtered table, which may differ from read to read. It ends in
      any case with at most `limit` rows; and when the table does not change it returns exactly its first
      min(total, limit) rows, and reports truncation exactly when rows were left out. */
  method ReadForExport<R, T>(tables: nat -> seq<R>, toRow: R -> T, total: nat, limit: nat) returns (rows: seq<T>, truncated: bool)
    ensures |rows| <= Min(total, limit)
    ensures truncated <==> total > limit
    ensures (forall i: nat :: tables(i) == tables(0)) && total == |tables(0)| ==>
      rows == Map(tables(0)[..Min(total, limit)], toRow) && (truncated <==> |rows| < |tables(0)|)
  {
    var target := Min(total, limit);
    rows := [];
    ghost var steady := (forall i: nat :: tables(i) == tables(0)) && total == |tables(0)|;
    var attempt := 0;
    while |rows| < target
      invariant |rows| <= target
      invariant steady ==> rows == Map(tables(0)[..|rows|], toRow)
      decreases target - |rows|
    {
      var batch := FindMany(tables(attempt), |rows|, Min(EXPORT_READ_BATCH, target - |rows|));
      if steady {
        BatchExtends(tables(0), rows, target, batch, toRow);
      }
      if |batch| == 0 {
        break;
      }
      rows := rows + Map(batch, toRow);
      attempt := attempt + 1;
    }
    truncated := total > limit;
  }
}
