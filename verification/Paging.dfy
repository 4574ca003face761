/** Pages, page flags and totals of the reports. */
module Paging {
  import opened Prelude
  import opened Aggregates
  import opened Sorting

  const PAGE_MAX := 200

  /** The page size of the customer and executive reports. */
  function ClampedSize(pageSize: int): (size: int)
    ensures 1 <= size <= 200
    ensures 1 <= pageSize <= 200 ==> size == pageSize
    ensures pageSize < 1 ==> size == 1
    ensures pageSize > 200 ==> size == 200
  {
    Min(Max(1, pageSize), PAGE_MAX)
  }

  function PageOf<T>(rows: seq<T>, page: int, size: int): seq<T> {
    var start := (page - 1) * size;
    JsSlice(rows, start, start + size)
  }

  // The three ways the reports decide that there is more.

  predicate HasMoreBySlice(page: int, size: int, total: int) { (page - 1) * size + size < total }

  predicate HasMoreByProduct(page: int, size: int, total: int) { page * size < total }

  function TotalPages(total: nat, size: int): int
    requires size >= 1
  {
    if total == 0 then 0 else (total + size - 1) / size
  }

  predicate HasMoreByPages(page: int, size: int, total: nat)
    requires size >= 1
  {
    page < TotalPages(total, size)
  }

  // ----- Every row on exactly one page -----

  function PagesUpTo<T>(rows: seq<T>, size: int, n: nat): seq<seq<T>> {
    if n == 0 then [] else PagesUpTo(rows, size, n - 1) + [PageOf(rows, n, size)]
  }

  function Flatten<T>(pages: seq<seq<T>>): seq<T> {
    if pages == [] then [] else Flatten(pages[..|pages| - 1]) + pages[|pages| - 1]
  }

  /** Pages 1 to n, one after the other. */
  function FirstPages<T>(rows: seq<T>, size: int, n: nat): seq<T> { Flatten(PagesUpTo(rows, size, n)) }

  lemma FlattenNext<T>(pages: seq<seq<T>>, page: seq<T>)
    ensures Flatten(pages + [page]) == Flatten(pages) + page
  {
    assert (pages + [page])[..|pages|] == pages;
  }

  lemma NextStart(n: int, size: int)
    ensures (n - 1) * size + size == n * size
  {
  }

  lemma NextPage<T>(rows: seq<T>, start: nat, size: nat)
    ensures rows[..Min(start, |rows|)] + JsSlice(rows, start, start + size) == rows[..Min(start + size, |rows|)]
  {
  }

  lemma {:induction false} FirstPagesAreAPrefix<T>(rows: seq<T>, size: int, n: nat)
    requires size >= 1
    ensures n * size >= 0 && FirstPages(rows, size, n) == rows[..Min(n * size, |rows|)]
  {
    if n > 0 {
      FirstPagesAreAPrefix(rows, size, n - 1);
      FlattenNext(PagesUpTo(rows, size, n - 1), PageOf(rows, n, size));
      NextStart(n, size);
      NextPage(rows, (n - 1) * size, size);
    }
  }

  lemma Monotone(a: int, b: int, size: int)
    requires a <= b && size >= 1
    ensures a * size <= b * size
  {
    assert (b - a) * size >= 0;
  }

  lemma PagesSuffice(total: nat, size: int, n: int)
    requires size >= 1
    ensures n >= TotalPages(total, size) <==> (if total == 0 then n >= 0 else n * size >= total)
  {
    if total > 0 {
      var q := (total + size - 1) / size;
      assert q * size >= total > (q - 1) * size;
      if n >= q {
        Monotone(q, n, size);
      } else {
        Monotone(n, q - 1, size);
      }
    }
  }

  /** The pages up to the last one hold every row exactly once, in order; no page after it holds any. */
  lemma PagesHoldEveryRowOnce<T>(rows: seq<T>, size: int, n: nat)
    requires size >= 1
    ensures FirstPages(rows, size, n) == rows <==> n >= TotalPages(|rows|, size)
  {
    FirstPagesAreAPrefix(rows, size, n);
    PagesSuffice(|rows|, size, n);
  }

  /** The three formulas agree for every page from the first. */
  lemma HasMoreFormulasAgree(page: int, size: int, total: nat)
    requires page >= 1 && size >= 1
    ensures HasMoreBySlice(page, size, total) <==> HasMoreByProduct(page, size, total)
    ensures HasMoreByProduct(page, size, total) <==> HasMoreByPages(page, size, total)
  {
    NextStart(page, size);
    PagesSuffice(total, size, page);
    Monotone(1, page, size);
  }

  lemma PageIsEmptyPastTheEnd<T>(rows: seq<T>, page: int, size: int)
    requires page >= 1 && size >= 1
    ensures PageOf(rows, page, size) == [] <==> (page - 1) * size >= |rows|
  {
    Monotone(0, page - 1, size);
  }

  /** "There is more" holds exactly when some later page holds a row. */
  lemma HasMoreMeansALaterRow<T>(rows: seq<T>, page: int, size: int)
    requires page >= 1 && size >= 1
    ensures HasMoreByProduct(page, size, |rows|) <==> exists later :: later > page && PageOf(rows, later, size) != []
  {
    PageIsEmptyPastTheEnd(rows, page + 1, size);
    forall later | later > page && PageOf(rows, later, size) != []
      ensures page * size < |rows|
    {
      PageIsEmptyPastTheEnd(rows, later, size);
      Monotone(page, later - 1, size);
    }
    if page * size < |rows| {
      assert page + 1 > page && PageOf(rows, page + 1, size) != [];
    }
  }

  // ----- Totals -----

  function SumOfPages<T>(pages: seq<seq<T>>, f: T -> real): real {
    if pages == [] then 0.0 else SumOfPages(pages[..|pages| - 1], f) + Sum(pages[|pages| - 1], f)
  }

  /** The sums of pages 1 to n, added up. */
  function PageSums<T>(rows: seq<T>, size: int, n: nat, f: T -> real): real {
    SumOfPages(PagesUpTo(rows, size, n), f)
  }

  lemma {:induction false} PageSumsAdd<T>(pages: seq<seq<T>>, f: T -> real)
    ensures SumOfPages(pages, f) == Sum(Flatten(pages), f)
  {
    if pages != [] {
      PageSumsAdd(pages[..|pages| - 1], f);
      SumConcat(Flatten(pages[..|pages| - 1]), pages[|pages| - 1], f);
    }
  }

  lemma {:induction false} InsertKeepsSum<T>(o: Order<T>, x: T, s: seq<T>, f: T -> real)
    ensures Sum(Insert(o, x, s), f) == f(x) + Sum(s, f)
  {
    if s == [] {
      assert [x][1..] == [];
    } else if InOrder(o, x, s[0]) {
      assert ([x] + s)[1..] == s;
    } else {
      InsertKeepsSum(o, x, s[1..], f);
      assert ([s[0]] + Insert(o, x, s[1..]))[1..] == Insert(o, x, s[1..]);
    }
  }

  lemma {:induction false} SortKeepsSum<T>(o: Order<T>, s: seq<T>, f: T -> real)
    ensures Sum(Sort(o, s), f) == Sum(s, f)
  {
    if s != [] {
      SortKeepsSum(o, s[1..], f);
      InsertKeepsSum(o, s[0], Sort(o, s[1..]), f);
    }
  }

  datatype Totals = Totals(quantity: real, weight: real, records: real, rows: nat)

  datatype Columns<!T> = Columns(quantity: T -> real, weight: T -> real, records: T -> real)

  function TotalsOf<T>(rows: seq<T>, c: Columns<T>): Totals {
    Totals(Sum(rows, c.quantity), Sum(rows, c.weight), Sum(rows, c.records), |rows|)
  }

  lemma TotalsStep<T>(rows: seq<T>, x: T, c: Columns<T>)
    ensures TotalsOf(rows + [x], c)
      == Totals(Sum(rows, c.quantity) + c.quantity(x), Sum(rows, c.weight) + c.weight(x),
                Sum(rows, c.records) + c.records(x), |rows| + 1)
  {
    SumConcat(rows, [x], c.quantity);
    SumConcat(rows, [x], c.weight);
    SumConcat(rows, [x], c.records);
    assert [x][1..] == [];
  }

  lemma SortKeepsTotals<T>(o: Order<T>, rows: seq<T>, c: Columns<T>)
    ensures TotalsOf(Sort(o, rows), c) == TotalsOf(rows, c) && |Sort(o, rows)| == |rows|
  {
    SortKeepsSum(o, rows, c.quantity);
    SortKeepsSum(o, rows, c.weight);
    SortKeepsSum(o, rows, c.records);
    SortKeepsLength(o, rows);
  }

  /** The totals as reported: the weight is rounded once it is added up. */
  function Rounded(t: Totals): Totals { t.(weight := Round6(t.weight)) }

  datatype PageMeta = PageMeta(page: int, pageSize: int, total: nat, hasMore: bool)

  method TotalUp<T>(rows: seq<T>, columns: Columns<T>) returns (totals: Totals)
    ensures totals == TotalsOf(rows, columns)
  {
    totals := Totals(0.0, 0.0, 0.0, 0);
    for i := 0 to |rows|
      invariant totals == TotalsOf(rows[..i], columns)
    {
      assert rows[..i + 1] == rows[..i] + [rows[i]];
      TotalsStep(rows[..i], rows[i], columns);
      totals := Totals(totals.quantity + columns.quantity(rows[i]), totals.weight + columns.weight(rows[i]),
                       totals.records + columns.records(rows[i]), totals.rows + 1);
    }
    assert rows[..|rows|] == rows;
  }

  /** One report request: filter the aggregated rows, sort them, total them, and cut one page out. */
  method Summary<T>(all: seq<T>, keep: T -> bool, o: Order<T>, columns: Columns<T>, page: int, size: int)
    returns (rows: seq<T>, meta: PageMeta, totals: Totals)
    ensures rows == PageOf(Sort(o, Filter(all, keep)), page, size)
    ensures meta == PageMeta(page, size, |Filter(all, keep)|, HasMoreBySlice(page, size, |Filter(all, keep)|))
    ensures totals == Rounded(TotalsOf(Filter(all, keep), columns))
  {
    var filtered := Filter(all, keep);
    SortKeepsTotals(o, filtered, columns);
    filtered := Sort(o, filtered);
    totals := TotalUp(filtered, columns);
    totals := totals.(weight := Round6(totals.weight));
    rows := PageOf(filtered, page, size);
    meta := PageMeta(page, size, |filtered|, HasMoreBySlice(page, size, |filtered|));
  }

  /** The customer report does the same with a clamped page size and the other flag formula. */
  method CustomerSummary<T>(mapped: seq<T>, keep: T -> bool, o: Order<T>, columns: Columns<T>, page: int, pageSize: int)
    returns (rows: seq<T>, meta: PageMeta, totals: Totals)
    ensures rows == PageOf(Sort(o, Filter(mapped, keep)), page, ClampedSize(pageSize))
    ensures meta.total == |Filter(mapped, keep)| && meta.pageSize == ClampedSize(pageSize)
    ensures page >= 1 ==> (meta.hasMore <==> HasMoreBySlice(page, ClampedSize(pageSize), |Filter(mapped, keep)|))
    ensures totals == Rounded(TotalsOf(Filter(mapped, keep), columns))
  {
    var filtered := Filter(mapped, keep);
    SortKeepsTotals(o, filtered, columns);
    filtered := Sort(o, filtered);
    totals := TotalUp(filtered, columns);
    totals := totals.(weight := Round6(totals.weight));
    var size := ClampedSize(pageSize);
    var start := (page - 1) * size;
    rows := JsSlice(filtered, start, start + size);
    meta := PageMeta(page, size, |filtered|, HasMoreByProduct(page, size, |filtered|));
    if page >= 1 {
      HasMoreFormulasAgree(page, size, |filtered|);
    }
  }

  /** What the totals of any one request say about all of its pages: every kept row is on exactly one page,
      in order, and the totals are the sums over all pages, the weight rounded to half a millionth. */
  lemma SummaryDescribesItsPages<T>(kept: seq<T>, o: Order<T>, c: Columns<T>, size: int, n: int)
    requires size >= 1 && n == TotalPages(|kept|, size)
    ensures n >= 0
    ensures FirstPages(Sort(o, kept), size, n) == Sort(o, kept)
    ensures Sorted(o, Sort(o, kept)) && multiset(Sort(o, kept)) == multiset(kept)
    ensures Rounded(TotalsOf(kept, c)).quantity == PageSums(Sort(o, kept), size, n, c.quantity)
    ensures Rounded(TotalsOf(kept, c)).records == PageSums(Sort(o, kept), size, n, c.records)
    ensures -0.0000005 <= Rounded(TotalsOf(kept, c)).weight - PageSums(Sort(o, kept), size, n, c.weight) <= 0.0000005
  {
    SortSorts(o, kept);
    SortKeepsTotals(o, kept, c);
    PagesSuffice(|kept|, size, 0);
    var rows := Sort(o, kept);
    PagesHoldEveryRowOnce(rows, size, n);
    PageSumsAdd(PagesUpTo(rows, size, n), c.quantity);
    PageSumsAdd(PagesUpTo(rows, size, n), c.weight);
    PageSumsAdd(PagesUpTo(rows, size, n), c.records);
    Round6IsNear(TotalsOf(kept, c).weight);
  }

  // ----- The contribution report -----

  /** OFFSET and LIMIT over the ordered groups. */
  function Limited<T>(groups: seq<T>, offset: int, limit: int): seq<T> { JsSlice(groups, offset, offset + limit) }

  /** The total is read from the first row of the page; with no row on the page it is 0. */
  function ReportedTotal<T>(groups: seq<T>, page: int, size: int): nat {
    if Limited(groups, (page - 1) * size, size) == [] then 0 else |groups|
  }

  /** The reported total is the number of groups if and only if the page starts inside the groups or there
      are none; a page past the end reports 0. */
  lemma ContributionTotal<T>(groups: seq<T>, page: int, size: int)
    requires page >= 1 && size >= 1
    ensures ReportedTotal(groups, page, size) == |groups| <==> (page - 1) * size < |groups| || groups == []
  {
    PageIsEmptyPastTheEnd(groups, page, size);
  }

  /** Even so its "there is more" is right on every page. */
  lemma ContributionHasMore<T>(groups: seq<T>, page: int, size: int)
    requires page >= 1 && size >= 1
    ensures HasMoreBySlice(page, size, ReportedTotal(groups, page, size))
      <==> exists later :: later > page && PageOf(groups, later, size) != []
  {
    PageIsEmptyPastTheEnd(groups, page, size);
    HasMoreMeansALaterRow(groups, page, size);
    NextStart(page, size);
    Monotone(0, page - 1, size);
  }
}
