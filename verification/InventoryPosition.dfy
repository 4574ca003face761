/** The inventory position: the band join, the six groupings and the reconciliation with the mirrors. */
module InventoryPosition {
  import opened Prelude
  import opened Aggregates
  import SqlLogic
  import Buckets = InventoryBuckets

  const GROUP_CEILING := 5_000

  datatype LotRecord = LotRecord(
    lot: Buckets.Lot,
    weight: Option<real>,
    country: string,
    branch: string,
    labNormalized: Option<string>,
    shapeNormalized: Option<string>,
    shape: Option<string>)

  datatype Band = Band(title: string, minCt: real, maxCt: real, active: bool)

  /** A row of the `inv` table: a lot with the title of one matching band, or without one. */
  datatype InvRow = InvRow(record: LotRecord, bandTitle: Option<string>)

  predicate Joins(r: LotRecord, b: Band) {
    r.weight.Some? && r.weight.value >= b.minCt && r.weight.value <= b.maxCt && b.active
  }

  function Matching(r: LotRecord, bands: seq<Band>): seq<Band> {
    if bands == [] then [] else (if Joins(r, bands[0]) then [bands[0]] else []) + Matching(r, bands[1..])
  }

  /** LEFT JOIN of one lot with the bands. */
  function JoinLot(r: LotRecord, bands: seq<Band>): (rows: seq<InvRow>)
    ensures rows != []
  {
    var matching := Matching(r, bands);
    if matching == [] then [InvRow(r, None)]
    else seq(|matching|, i requires 0 <= i < |matching| => InvRow(r, Some(matching[i].title)))
  }

  function Join(records: seq<LotRecord>, bands: seq<Band>): seq<InvRow> {
    if records == [] then [] else JoinLot(records[0], bands) + Join(records[1..], bands)
  }

  /** The lots of the report: current stock that passes the filters, which are an arbitrary predicate. */
  function CurrentLots(records: seq<LotRecord>, filter: LotRecord -> bool): seq<LotRecord> {
    Filter(records, (r: LotRecord) => Buckets.IsCurrentStock(r.lot) && filter(r))
  }

  // ----- One row per lot -----

  /** Some weight lies in both bands. */
  predicate Overlap(a: Band, b: Band) {
    a.minCt <= a.maxCt && b.minCt <= b.maxCt && a.minCt <= b.maxCt && b.minCt <= a.maxCt
  }

  ghost predicate Disjoint(bands: seq<Band>) {
    forall i, j :: 0 <= i < j < |bands| && bands[i].active && bands[j].active ==> !Overlap(bands[i], bands[j])
  }

  lemma {:induction false} MatchingNone(r: LotRecord, bands: seq<Band>)
    ensures Matching(r, bands) == [] <==> forall i :: 0 <= i < |bands| ==> !Joins(r, bands[i])
  {
    if bands != [] {
      MatchingNone(r, bands[1..]);
      assert forall i :: 0 < i < |bands| ==> bands[i] == bands[1..][i - 1];
      assert forall i :: 0 <= i < |bands[1..]| ==> bands[1..][i] == bands[i + 1];
    }
  }

  predicate AtMostOneJoins(r: LotRecord, bands: seq<Band>) {
    forall i, j :: 0 <= i < j < |bands| ==> !(Joins(r, bands[i]) && Joins(r, bands[j]))
  }

  lemma {:induction false} MatchingAtMostOne(r: LotRecord, bands: seq<Band>)
    ensures |Matching(r, bands)| <= 1 <==> AtMostOneJoins(r, bands)
  {
    if bands != [] {
      var rest := bands[1..];
      MatchingAtMostOne(r, rest);
      MatchingNone(r, rest);
      assert forall i :: 0 < i < |bands| ==> bands[i] == rest[i - 1];
      if AtMostOneJoins(r, bands) {
        forall i, j | 0 <= i < j < |rest|
          ensures !(Joins(r, rest[i]) && Joins(r, rest[j]))
        {
          assert rest[i] == bands[i + 1] && rest[j] == bands[j + 1];
        }
        forall i | 0 <= i < |rest| && Joins(r, bands[0])
          ensures !Joins(r, rest[i])
        {
          assert rest[i] == bands[i + 1];
        }
      }
    }
  }

  /** The join gives exactly one row for a lot if and only if at most one active band holds its weight. */
  lemma OneRowPerLot(r: LotRecord, bands: seq<Band>)
    ensures |JoinLot(r, bands)| == 1 <==> AtMostOneJoins(r, bands)
  {
    MatchingAtMostOne(r, bands);
  }

  /** Every conceivable lot gives exactly one row if and only if the active bands are pairwise disjoint. */
  lemma DisjointBandsKeepLots(sample: LotRecord, bands: seq<Band>)
    ensures Disjoint(bands) <==> forall r :: |JoinLot(r, bands)| == 1
  {
    if Disjoint(bands) {
      forall r
        ensures |JoinLot(r, bands)| == 1
      {
        OneRowPerLot(r, bands);
      }
    } else {
      var i, j :| 0 <= i < j < |bands| && bands[i].active && bands[j].active && Overlap(bands[i], bands[j]);
      var shared := if bands[i].minCt >= bands[j].minCt then bands[i].minCt else bands[j].minCt;
      var r := sample.(weight := Some(shared));
      assert Joins(r, bands[i]) && Joins(r, bands[j]);
      OneRowPerLot(r, bands);
    }
  }

  // ----- Groupings -----

  datatype Grouping = Bucket | Country | Branch | Lab | Shape | WeightBand

  function Coalesce(v: Option<string>, otherwise: string): string { if v.Some? then v.value else otherwise }

  function GroupKey(grouping: Grouping, row: InvRow): string {
    match grouping
    case Bucket => Buckets.DeriveInventoryBucket(row.record.lot)
    case Country => row.record.country
    case Branch => row.record.branch
    case Lab => Coalesce(row.record.labNormalized, "")
    case Shape => Coalesce(row.record.shapeNormalized, Coalesce(row.record.shape, ""))
    case WeightBand => Coalesce(row.bandTitle, "")
  }

  function KeyOf(grouping: Grouping): InvRow -> string { (row: InvRow) => GroupKey(grouping, row) }

  /** The columns the report adds up. */
  datatype Column = Quantity | Weight | Records | ReviewRequired | Unconfirmed

  function Amount(r: LotRecord, c: Column): real {
    match c
    case Quantity => var confirmed := Buckets.ConfirmedPieces(r.lot); if confirmed.Some? then confirmed.value else 0.0
    case Weight => if r.weight.Some? && r.weight.value > 0.0 then r.weight.value else 0.0
    case Records => 1.0
    case ReviewRequired => if Buckets.DeriveInventoryBucket(r.lot) == "REVIEW_REQUIRED" then 1.0 else 0.0
    case Unconfirmed => if Buckets.ConfirmedPieces(r.lot).None? then 1.0 else 0.0
  }

  /** What the amounts are, in the terms of the database: the quantity is the confirmed one, or 0 where that is NULL;
      the weight is the measured one where it is positive, and 0 otherwise; and the two counters count the rows of
      the review bucket and those without a confirmed quantity. */
  lemma AmountsFollowTheFragments(r: LotRecord)
    ensures
      var confirmed := SqlLogic.Eval(Buckets.CONFIRMED_QUANTITY_SQL, Buckets.AsRow(r.lot));
      && (confirmed == SqlLogic.Null || confirmed.Num?)
      && Amount(r, Quantity) == (if confirmed.Num? then confirmed.n else 0.0) && Amount(r, Quantity) >= 0.0
      && Amount(r, Unconfirmed) == (if confirmed == SqlLogic.Null then 1.0 else 0.0)
    ensures Amount(r, ReviewRequired)
      == if SqlLogic.Eval(Buckets.INVENTORY_BUCKET_SQL, Buckets.AsRow(r.lot)) == SqlLogic.Text("REVIEW_REQUIRED") then 1.0 else 0.0
    ensures Amount(r, Weight) >= 0.0 && (Amount(r, Weight) > 0.0 ==> r.weight == Some(Amount(r, Weight)))
    ensures r.weight.Some? && r.weight.value > 0.0 ==> Amount(r, Weight) == r.weight.value
  {
    Buckets.ConfirmedQuantityMeans(r.lot);
    Buckets.InventoryBucketAgrees(r.lot);
  }

  /** The lots of the report are exactly those the SQL condition of current stock keeps and the filters pass. */
  lemma CurrentLotsAreKept(records: seq<LotRecord>, filter: LotRecord -> bool, r: LotRecord)
    ensures r in CurrentLots(records, filter) <==>
      r in records && SqlLogic.Keeps(Buckets.CURRENT_STOCK_SQL, Buckets.AsRow(r.lot)) && filter(r)
  {
    Buckets.CurrentStockAgrees(r.lot);
  }

  function RowAmount(c: Column): InvRow -> real { (row: InvRow) => Amount(row.record, c) }

  function LotAmount(c: Column): LotRecord -> real { (r: LotRecord) => Amount(r, c) }

  /** The grouped query: one column of sums for each reported amount, over the same groups. */
  type Report = Column -> seq<Group<string>>

  ghost predicate IsReport(rows: seq<InvRow>, grouping: Grouping, report: Report) {
    forall c :: IsGroupBy(rows, KeyOf(grouping), RowAmount(c), report(c))
  }

  function SumRounded(groups: seq<Group<string>>): real {
    if groups == [] then 0.0 else Round6(groups[0].sum) + SumRounded(groups[1..])
  }

  lemma {:induction false} SumRoundedIsNear(groups: seq<Group<string>>)
    ensures -(|groups| as real) * 0.0000005 <= SumRounded(groups) - SumOf(groups) <= |groups| as real * 0.0000005
  {
    if groups != [] {
      Round6IsNear(groups[0].sum);
      SumRoundedIsNear(groups[1..]);
    }
  }

  /** The total of a column: the reduce over the groups that the LIMIT keeps. Weights are rounded group by group,
      and their total once more. */
  function ReportTotal(report: Report, c: Column): real {
    var kept := report(c)[..Min(GROUP_CEILING, |report(c)|)];
    if c.Weight? then Round6(SumRounded(kept)) else SumOf(kept)
  }

  lemma {:induction false} JoinKeepsSums(records: seq<LotRecord>, bands: seq<Band>, c: Column)
    requires forall i :: 0 <= i < |records| ==> AtMostOneJoins(records[i], bands)
    ensures Sum(Join(records, bands), RowAmount(c)) == Sum(records, LotAmount(c))
  {
    if records != [] {
      var head, rest := JoinLot(records[0], bands), Join(records[1..], bands);
      OneRowPerLot(records[0], bands);
      JoinKeepsSums(records[1..], bands, c);
      SumConcat(head, rest, RowAmount(c));
      assert head == [head[0]] && head[0].record == records[0];
      assert Sum(head, RowAmount(c)) == Amount(records[0], c) + Sum(head[1..], RowAmount(c));
    }
  }

  // ----- What one group holds -----

  /** The title of the first active band that holds the weight of the lot, or nothing. */
  function BandOf(r: LotRecord, bands: seq<Band>): string {
    if bands == [] then "" else if Joins(r, bands[0]) then bands[0].title else BandOf(r, bands[1..])
  }

  lemma {:induction false} BandOfMatching(r: LotRecord, bands: seq<Band>)
    ensures BandOf(r, bands) == if Matching(r, bands) == [] then "" else Matching(r, bands)[0].title
  {
    if bands != [] {
      BandOfMatching(r, bands[1..]);
    }
  }

  /** The group a lot belongs in, from the lot alone: its bucket as the database computes it, its own columns with
      nothing for a missing one, the cleaned shape before the raw one, and its weight band. */
  function LotGroup(grouping: Grouping, bands: seq<Band>): LotRecord -> SqlLogic.Value {
    (r: LotRecord) =>
      match grouping
      case Bucket => SqlLogic.Eval(Buckets.INVENTORY_BUCKET_SQL, Buckets.AsRow(r.lot))
      case Country => SqlLogic.Text(r.country)
      case Branch => SqlLogic.Text(r.branch)
      case Lab => SqlLogic.Text(if r.labNormalized.Some? then r.labNormalized.value else "")
      case Shape =>
        SqlLogic.Text(if r.shapeNormalized.Some? then r.shapeNormalized.value else if r.shape.Some? then r.shape.value else "")
      case WeightBand => SqlLogic.Text(BandOf(r, bands))
  }

  lemma RowGroupIsLotGroup(r: LotRecord, bands: seq<Band>, grouping: Grouping)
    requires AtMostOneJoins(r, bands)
    ensures |JoinLot(r, bands)| == 1
    ensures JoinLot(r, bands)[0].record == r
    ensures LotGroup(grouping, bands)(r) == SqlLogic.Text(KeyOf(grouping)(JoinLot(r, bands)[0]))
  {
    OneRowPerLot(r, bands);
    BandOfMatching(r, bands);
    Buckets.InventoryBucketAgrees(r.lot);
  }

  lemma {:induction false} SumInConcat<R, K>(a: seq<R>, b: seq<R>, key: R -> K, keys: set<K>, f: R -> real)
    ensures SumIn(a + b, key, keys, f) == SumIn(a, key, keys, f) + SumIn(b, key, keys, f)
  {
    if a == [] {
      assert a + b == b;
    } else {
      assert (a + b)[1..] == a[1..] + b;
      SumInConcat(a[1..], b, key, keys, f);
    }
  }

  lemma {:induction false} GroupSum(records: seq<LotRecord>, bands: seq<Band>, grouping: Grouping, key: string, c: Column)
    requires forall i :: 0 <= i < |records| ==> AtMostOneJoins(records[i], bands)
    ensures SumIn(Join(records, bands), KeyOf(grouping), {key}, RowAmount(c))
      == SumIn(records, LotGroup(grouping, bands), {SqlLogic.Text(key)}, LotAmount(c))
  {
    if records != [] {
      var head, rest := JoinLot(records[0], bands), Join(records[1..], bands);
      RowGroupIsLotGroup(records[0], bands, grouping);
      GroupSum(records[1..], bands, grouping, key, c);
      SumInConcat(head, rest, KeyOf(grouping), {key}, RowAmount(c));
      assert head == [head[0]] && head[1..] == [];
      assert SumIn(head, KeyOf(grouping), {key}, RowAmount(c))
        == if KeyOf(grouping)(head[0]) == key then Amount(records[0], c) else 0.0;
    }
  }

  /** With disjoint active bands, every group of every grouping sums exactly the current lots that belong in it. */
  lemma GroupHoldsItsLots(records: seq<LotRecord>, filter: LotRecord -> bool, bands: seq<Band>,
                          grouping: Grouping, report: Report, c: Column, g: nat)
    requires IsReport(Join(CurrentLots(records, filter), bands), grouping, report)
    requires Disjoint(bands) && g < |report(c)|
    ensures report(c)[g].sum
      == SumIn(CurrentLots(records, filter), LotGroup(grouping, bands), {SqlLogic.Text(report(c)[g].key)}, LotAmount(c))
  {
    var lots := CurrentLots(records, filter);
    forall i | 0 <= i < |lots|
      ensures AtMostOneJoins(lots[i], bands)
    {
    }
    GroupSum(lots, bands, grouping, report(c)[g].key, c);
  }

  // ----- Totals -----

  /** How far rounding can move the total weight of a report with n groups. */
  function Margin(n: nat): real { (n + 1) as real * 0.0000005 }

  /** Below the group ceiling and with disjoint active bands, every column of every one of the six
      groupings totals to the sum over the current lots, each counted once; the weight up to half a
      millionth for each group and one for the total. So all groupings agree. */
  lemma GroupingsAgree(records: seq<LotRecord>, filter: LotRecord -> bool, bands: seq<Band>,
                       grouping: Grouping, report: Report, c: Column)
    requires IsReport(Join(CurrentLots(records, filter), bands), grouping, report)
    requires Disjoint(bands) && |report(c)| <= GROUP_CEILING
    ensures !c.Weight? ==> ReportTotal(report, c) == Sum(CurrentLots(records, filter), LotAmount(c))
    ensures c.Weight? ==>
      -Margin(|report(c)|) <= ReportTotal(report, c) - Sum(CurrentLots(records, filter), LotAmount(c)) <= Margin(|report(c)|)
  {
    var lots := CurrentLots(records, filter);
    LimitedSum(Join(lots, bands), KeyOf(grouping), RowAmount(c), report(c), GROUP_CEILING);
    forall i | 0 <= i < |lots|
      ensures AtMostOneJoins(lots[i], bands)
    {
    }
    JoinKeepsSums(lots, bands, c);
    assert report(c)[..Min(GROUP_CEILING, |report(c)|)] == report(c);
    SumRoundedIsNear(report(c));
    Round6IsNear(SumRounded(report(c)));
  }

  /** A report counts every joined row if and only if it has no more groups than the ceiling. */
  lemma ReportIsCompleteBelowCeiling(rows: seq<InvRow>, grouping: Grouping, report: Report)
    requires IsReport(rows, grouping, report)
    ensures ReportTotal(report, Records) == |rows| as real <==> |report(Records)| <= GROUP_CEILING
  {
    LimitedCount(rows, KeyOf(grouping), RowAmount(Records), report(Records), GROUP_CEILING);
  }
}
