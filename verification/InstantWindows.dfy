/** 30-day windows by instant: the segments of a stockout category and the buckets of the executive
    summary. Instants are whole milliseconds. */
module InstantWindows {
  import opened Prelude
  import opened Aggregates

  const DAY := 86_400_000

  datatype Sale = Sale(at: int, category: string, quantity: real)

  function QuantityOf(): Sale -> real { (s: Sale) => s.quantity }

  function CategoryOf(): Sale -> string { (s: Sale) => s.category }

  /** The included sales with from <= docDate <= to. */
  function Between(sales: seq<Sale>, from: int, to: int): seq<Sale> {
    if sales == [] then [] else
      (if from <= sales[0].at <= to then [sales[0]] else []) + Between(sales[1..], from, to)
  }

  function SumBetween(sales: seq<Sale>, from: int, to: int): real {
    if sales == [] then 0.0
    else (if from <= sales[0].at <= to then sales[0].quantity else 0.0) + SumBetween(sales[1..], from, to)
  }

  lemma {:induction false} SumOfBetween(sales: seq<Sale>, from: int, to: int)
    ensures Sum(Between(sales, from, to), QuantityOf()) == SumBetween(sales, from, to)
  {
    if sales != [] {
      SumOfBetween(sales[1..], from, to);
      if from <= sales[0].at <= to {
        assert Between(sales, from, to)[1..] == Between(sales[1..], from, to);
      } else {
        assert Between(sales, from, to) == Between(sales[1..], from, to);
      }
    }
  }

  lemma {:induction false} SumSplits(sales: seq<Sale>, from: int, mid: int, to: int)
    requires from <= mid + 1 && mid <= to
    ensures SumBetween(sales, from, to) == SumBetween(sales, from, mid) + SumBetween(sales, mid + 1, to)
  {
    if sales != [] {
      SumSplits(sales[1..], from, mid, to);
    }
  }

  // ----- Executive summary: windows that end a millisecond before the next one -----

  function LatestBucket(sales: seq<Sale>, end: int): real { SumBetween(sales, end - 30 * DAY, end) }

  function MiddleBucket(sales: seq<Sale>, end: int): real { SumBetween(sales, end - 60 * DAY, end - 30 * DAY - 1) }

  function EarliestBucket(sales: seq<Sale>, end: int): real { SumBetween(sales, end - 90 * DAY, end - 60 * DAY - 1) }

  /** The three buckets tile the 90 days up to and including the end. */
  lemma BucketsTile(sales: seq<Sale>, end: int)
    ensures EarliestBucket(sales, end) + MiddleBucket(sales, end) + LatestBucket(sales, end) == SumBetween(sales, end - 90 * DAY, end)
  {
    SumSplits(sales, end - 90 * DAY, end - 60 * DAY - 1, end);
    SumSplits(sales, end - 60 * DAY, end - 30 * DAY - 1, end);
  }

  // ----- Stockout segments: both ends included -----

  datatype Segment = Segment(key: string, quantity: real)

  function SegmentsUpTo(sales: seq<Sale>, end: int): seq<Segment> {
    [Segment("previous30", SumBetween(sales, end - 90 * DAY, end - 60 * DAY)),
     Segment("middle30", SumBetween(sales, end - 60 * DAY, end - 30 * DAY)),
     Segment("latest30", SumBetween(sales, end - 30 * DAY, end))]
  }

  /** A run without both lookback bounds has no segments. */
  function ReadSegments(sales: seq<Sale>, lookbackStart: Option<int>, lookbackEnd: Option<int>): seq<Segment> {
    if lookbackStart.None? || lookbackEnd.None? then [] else SegmentsUpTo(sales, lookbackEnd.value)
  }

  /** A sale at exactly one of the two inner boundaries is counted in two segments. */
  function AtInnerBoundaries(sales: seq<Sale>, end: int): real {
    SumBetween(sales, end - 60 * DAY, end - 60 * DAY) + SumBetween(sales, end - 30 * DAY, end - 30 * DAY)
  }

  /** The segments add up to the 90 days plus the sales at the two inner boundaries, so they add up to the
      90 days, and agree with the executive buckets, if and only if those sales add up to nothing. */
  lemma SegmentsOverlap(sales: seq<Sale>, start: int, end: int)
    ensures
      var segments := ReadSegments(sales, Some(start), Some(end));
      var sum := segments[0].quantity + segments[1].quantity + segments[2].quantity;
      && segments[2] == Segment("latest30", LatestBucket(sales, end))
      && segments[1] == Segment("middle30", MiddleBucket(sales, end) + SumBetween(sales, end - 30 * DAY, end - 30 * DAY))
      && segments[0] == Segment("previous30", EarliestBucket(sales, end) + SumBetween(sales, end - 60 * DAY, end - 60 * DAY))
      && sum == SumBetween(sales, end - 90 * DAY, end) + AtInnerBoundaries(sales, end)
      && (sum == EarliestBucket(sales, end) + MiddleBucket(sales, end) + LatestBucket(sales, end) <==>
          AtInnerBoundaries(sales, end) == 0.0)
  {
    BucketsTile(sales, end);
    SumSplits(sales, end - 90 * DAY, end - 60 * DAY - 1, end - 60 * DAY);
    SumSplits(sales, end - 60 * DAY, end - 30 * DAY - 1, end - 30 * DAY);
  }

  // ----- Buckets per category -----

  datatype WindowName = Latest | Middle | Earliest

  datatype Buckets = Buckets(earliest30: int, middle30: int, latest30: int)

  function Lower(w: WindowName, end: int): int {
    match w case Latest => end - 30 * DAY case Middle => end - 60 * DAY case Earliest => end - 90 * DAY
  }

  function Upper(w: WindowName, end: int): int {
    match w case Latest => end case Middle => end - 30 * DAY - 1 case Earliest => end - 60 * DAY - 1
  }

  /** The windows of the three queries tile the 90 days up to and including the end: an instant in them lies in
      exactly one window, any other instant in none, and the sums add up. */
  lemma QueryWindowsTile(sales: seq<Sale>, end: int, at: int)
    ensures (exists w :: Lower(w, end) <= at <= Upper(w, end)) <==> end - 90 * DAY <= at <= end
    ensures forall v, w :: Lower(v, end) <= at <= Upper(v, end) && Lower(w, end) <= at <= Upper(w, end) ==> v == w
    ensures Upper(Latest, end) == end && Upper(Middle, end) == Lower(Latest, end) - 1 && Upper(Earliest, end) == Lower(Middle, end) - 1
    ensures SumBetween(sales, Lower(Earliest, end), Upper(Earliest, end)) + SumBetween(sales, Lower(Middle, end), Upper(Middle, end))
      + SumBetween(sales, Lower(Latest, end), Upper(Latest, end)) == SumBetween(sales, end - 90 * DAY, end)
  {
    BucketsTile(sales, end);
    if end - 90 * DAY <= at <= end {
      var w := if at >= end - 30 * DAY then Latest else if at >= end - 60 * DAY then Middle else Earliest;
      assert Lower(w, end) <= at <= Upper(w, end);
    }
  }

  function Get(b: Buckets, w: WindowName): int {
    match w case Latest => b.latest30 case Middle => b.middle30 case Earliest => b.earliest30
  }

  function Put(b: Buckets, w: WindowName, v: int): Buckets {
    match w case Latest => b.(latest30 := v) case Middle => b.(middle30 := v) case Earliest => b.(earliest30 := v)
  }

  /** The rounded quantity a category sold in a window. */
  function Sold(sales: seq<Sale>, category: string, from: int, to: int): int {
    JsRound(SumIn(Between(sales, from, to), CategoryOf(), {category}, QuantityOf()))
  }

  /** What a category sold in a window, exactly. */
  function SoldExactly(sales: seq<Sale>, category: string, from: int, to: int): real {
    if sales == [] then 0.0
    else
      (if from <= sales[0].at <= to && sales[0].category == category then sales[0].quantity else 0.0)
      + SoldExactly(sales[1..], category, from, to)
  }

  lemma {:induction false} SoldExactlyIsSum(sales: seq<Sale>, category: string, from: int, to: int)
    ensures SumIn(Between(sales, from, to), CategoryOf(), {category}, QuantityOf()) == SoldExactly(sales, category, from, to)
  {
    if sales != [] {
      SoldExactlyIsSum(sales[1..], category, from, to);
      if from <= sales[0].at <= to {
        assert Between(sales, from, to)[1..] == Between(sales[1..], from, to);
      } else {
        assert Between(sales, from, to) == Between(sales[1..], from, to);
      }
    }
  }

  /** The reported quantity is the nearest whole number, halves going up. */
  lemma SoldIsNearest(sales: seq<Sale>, category: string, from: int, to: int)
    ensures
      var sold := Sold(sales, category, from, to) as real;
      sold - 0.5 <= SoldExactly(sales, category, from, to) < sold + 0.5
  {
    SoldExactlyIsSum(sales, category, from, to);
  }

  /** An answer of the grouped query of one window. */
  ghost predicate IsWindowQuery(sales: seq<Sale>, w: WindowName, end: int, groups: seq<Group<string>>) {
    IsGroupBy(Between(sales, Lower(w, end), Upper(w, end)), CategoryOf(), QuantityOf(), groups)
  }

  lemma {:induction false} NoSales(sales: seq<Sale>, category: string)
    requires forall i :: 0 <= i < |sales| ==> sales[i].category != category
    ensures SumIn(sales, CategoryOf(), {category}, QuantityOf()) == 0.0
  {
    if sales != [] {
      NoSales(sales[1..], category);
    }
  }

  lemma AbsentGroupSoldNothing(sales: seq<Sale>, w: WindowName, end: int, groups: seq<Group<string>>, category: string)
    requires IsWindowQuery(sales, w, end, groups)
    requires forall g :: 0 <= g < |groups| ==> groups[g].key != category
    ensures Sold(sales, category, Lower(w, end), Upper(w, end)) == 0
  {
    NoSales(Between(sales, Lower(w, end), Upper(w, end)), category);
  }

  /** The value the first n groups leave in a category's bucket: that of its last group, or 0. */
  function Filled(groups: seq<Group<string>>, n: nat, category: string): int
    requires n <= |groups|
  {
    if n == 0 then 0
    else if groups[n - 1].key == category then JsRound(groups[n - 1].sum)
    else Filled(groups, n - 1, category)
  }

  lemma {:induction false} FilledMeans(groups: seq<Group<string>>, n: nat, category: string)
    requires n <= |groups| && DistinctKeys(groups)
    ensures forall g :: 0 <= g < n && groups[g].key == category ==> Filled(groups, n, category) == JsRound(groups[g].sum)
    ensures (forall g :: 0 <= g < n ==> groups[g].key != category) ==> Filled(groups, n, category) == 0
  {
    if n > 0 {
      FilledMeans(groups, n - 1, category);
    }
  }

  lemma FilledIsSold(sales: seq<Sale>, w: WindowName, end: int, groups: seq<Group<string>>, category: string)
    requires IsWindowQuery(sales, w, end, groups)
    ensures Filled(groups, |groups|, category) == Sold(sales, category, Lower(w, end), Upper(w, end))
  {
    FilledMeans(groups, |groups|, category);
    if forall g :: 0 <= g < |groups| ==> groups[g].key != category {
      AbsentGroupSoldNothing(sales, w, end, groups, category);
    }
  }

  /** One pass over the groups of a window: it fills that window of the listed categories and nothing else. */
  method FillWindow(out: map<string, Buckets>, w: WindowName, groups: seq<Group<string>>) returns (filled: map<string, Buckets>)
    requires forall c :: c in out ==> Get(out[c], w) == 0
    ensures filled.Keys == out.Keys
    ensures forall c :: c in out ==> filled[c] == Put(out[c], w, Filled(groups, |groups|, c))
  {
    filled := out;
    for i := 0 to |groups|
      invariant filled.Keys == out.Keys
      invariant forall c :: c in out ==> filled[c] == Put(out[c], w, Filled(groups, i, c))
    {
      var group := groups[i];
      if group.key in filled {
        filled := filled[group.key := Put(filled[group.key], w, JsRound(group.sum))];
      }
    }
  }

  lemma AllFilledAreSold(sales: seq<Sale>, w: WindowName, end: int, groups: seq<Group<string>>)
    requires IsWindowQuery(sales, w, end, groups)
    ensures forall c :: Filled(groups, |groups|, c) == Sold(sales, c, Lower(w, end), Upper(w, end))
  {
    forall c
      ensures Filled(groups, |groups|, c) == Sold(sales, c, Lower(w, end), Upper(w, end))
    {
      FilledIsSold(sales, w, end, groups, c);
    }
  }

  method ZeroBuckets(categories: seq<string>) returns (out: map<string, Buckets>)
    ensures out.Keys == set i | 0 <= i < |categories| :: categories[i]
    ensures forall c :: c in out ==> out[c] == Buckets(0, 0, 0)
  {
    out := map[];
    for i := 0 to |categories|
      invariant out.Keys == set k | 0 <= k < i :: categories[k]
      invariant forall c :: c in out ==> out[c] == Buckets(0, 0, 0)
    {
      out := out[categories[i] := Buckets(0, 0, 0)];
    }
  }

  /** readSalesWindowBuckets: every listed category, and no other, gets what it sold in each window; a run
      without an end of its lookback gets nothing. */
  method ReadSalesWindowBuckets(ghost sales: seq<Sale>, lookbackEnd: Option<int>, categories: seq<string>,
                                latest: seq<Group<string>>, middle: seq<Group<string>>, earliest: seq<Group<string>>)
    returns (out: map<string, Buckets>)
    requires lookbackEnd.Some? ==> IsWindowQuery(sales, Latest, lookbackEnd.value, latest)
    requires lookbackEnd.Some? ==> IsWindowQuery(sales, Middle, lookbackEnd.value, middle)
    requires lookbackEnd.Some? ==> IsWindowQuery(sales, Earliest, lookbackEnd.value, earliest)
    ensures out.Keys == if lookbackEnd.Some? then set i | 0 <= i < |categories| :: categories[i] else {}
    ensures forall c, w :: c in out ==> Get(out[c], w) == Sold(sales, c, Lower(w, lookbackEnd.value), Upper(w, lookbackEnd.value))
  {
    if |categories| == 0 || lookbackEnd.None? {
      return map[];
    }
    ghost var end := lookbackEnd.value;
    out := ZeroBuckets(categories);
    out := FillWindow(out, Latest, latest);
    out := FillWindow(out, Middle, middle);
    out := FillWindow(out, Earliest, earliest);
    AllFilledAreSold(sales, Latest, end, latest);
    AllFilledAreSold(sales, Middle, end, middle);
    AllFilledAreSold(sales, Earliest, end, earliest);
  }
}
