# Verified model of the diamond planning and analytics web application

This project models, in Dafny, the parts of the application that carry real arithmetic, query meaning,
parsing, paging and mutable state, and proves what they keep over all inputs and all runs. Every `.dfy` file
stands by itself or on the modules it imports; `dafny verify dfyconfig.toml` checks all of them.

What is modelled, by component:

- **Hash navigation** (`Utf8`, `FormUrlEncoded`, `ViewAliases`, `HashCodec`, `NavStore`): the URL hash printer and
  parser down to bytes (WHATWG URL Standard, sections 5.1, 5.2 and 6.2, over UTF-8), the legacy alias table, and
  the store as an object with its actions.
- **CSV export and search patterns** (`CsvExport`, `LikePattern`): the CSV printer against a reader for section 2
  of RFC 4180, the formula guard, and the LIKE escape against the pattern language of section 9.7.1 of the
  PostgreSQL documentation.
- **SQL fragments and their TypeScript twins** (`SqlLogic`, `InventoryBuckets`): an expression language with
  three-valued logic, and agreement of every fragment with its twin on every nullable row.
- **Tables and groupings** (`Aggregates`, `InventoryPosition`, `MirrorReconciliation`, `SalesHistory`,
  `InstantWindows`, `ExecutiveSummary`): a table is a finite sequence of rows, a grouped query is any result with
  one group per key; joins, windows, periods, accumulators and reconciliation are proved to conserve what they add up.
- **Business dates** (`ReportingDate`): an arbitrary zone is a function from instants to offsets.
- **Filters, labels, totals and exports** (`DemandMetrics`, `Stockout`, `Excess`): the filter record whose fields
  overwrite each other, the labels, the totals built by overwriting it once more, and the batched export loop.
- **Sorting and paging** (`Sorting`, `Paging`): the comparator, the stable sort, slices, the three "has more" formulas.
- **Stateful services** (`RateLimit`, `Motivation`): each as a class, and as steps of an arbitrary run.
- **Pricing** (`Valuation`): the scan for the most specific matching price.

Imperative code of the application is a method or a class here, proved against a function of its inputs; the
properties are then lemmas about that function.

## Where the code does less than it seems to promise

Each of these is stated exactly: a lemma says for all inputs when the property holds, and when it fails.

- `alias.tabs?.[tab]` also finds names every JavaScript object inherits, so `setView("fantasy-live", "constructor")` and
  the hash `#fantasy-live?tab=constructor` put an undefined view in the store (`NavStore.InheritedKeyExample`,
  `NavStore.InheritedKeyLoadExample`). Store and URL agree after a step if and only if the step avoids this and passes
  no empty or over-long text (`NavStore.StepKeepsAgreement`).
- A CSV table without columns is not read back (`CsvExport.CsvRoundTrip`).
- Some searches put the text into the pattern unescaped (`src/lib/analytics/sales-history.ts:175`,
  `src/lib/analysis/executive-summary.ts:253`, `src/lib/fantasy/overall-filters.ts:53-57`,
  `src/app/api/data-quality/route.ts:29`, `src/app/api/admin/users/route.ts:33`); such a search means "contains" if and
  only if its text holds none of `\`, `%` and `_` (`LikePattern.RawSearchMeansContains`).
- The start of a business day whose midnight is skipped by a forward jump can fall on the day before
  (`ReportingDate.SkippedMidnightExample`, `ReportingDate.StartIsBoundary`).
- The sums and counts of the stockout and excess totals overwrite conditions of the filter they are meant to describe,
  so for some filters they range over rows that are not listed (`Stockout.ShortageCountDescribesList`,
  `Stockout.OutOfStockCountDescribesList`, `Excess.ExcessCountDescribesList`; and for both reports `SumsDescribeList`,
  `ReviewCountDescribesList` and `ListSplitsIntoConfirmedAndReview`). The flags "shortage only" and "excess only" are
  likewise overwritten by some state filters (`Stockout.FlagNarrowsUnlessReplaced`, `Excess.FlagNarrowsUnlessReplaced`).
- The category report of a run that does not cover exactly 90 days shows three empty windows beside a full total, so
  they do not add up (`SalesHistory.CategoryRowAddsUp`, `SalesHistory.CategoryTotalsAddUp`).
- Sorting breaks ties by `localeCompare` of the identifiers. Distinct identifiers make the order unique if and only if the
  collation tells all distinct strings apart (`Sorting.DistinctIdentifiersSuffice`).
- Confirmed stock with a zero target is labelled "no target" but selected by the "excess" filter
  (`Excess.FiltersFollowLabels`).
- The three segments of a stockout category share their inner boundaries, so a sale at such an instant counts twice;
  the buckets of the executive summary do not (`InstantWindows.SegmentsOverlap`).
- A page of the contribution report past the end reports a total of 0 (`Paging.ContributionTotal`).
- With a restricted scope a partner row outside the scope is neither "in both" nor "only here", so the two sides of
  the mirror reconciliation need not add up (`MirrorReconciliation.CanonicalSideReconciles`).
- Overlapping active weight bands count a lot once per band (`InventoryPosition.DisjointBandsKeepLots`).
- Two locations share one row of the executive summary when their joined keys coincide, which takes a U+0001 in a
  country or branch (`ExecutiveSummary.KeyIsUnambiguous`).
- The first call of a rate-limit bucket is never compared with the limit, so a limit below 1 still lets one call
  through (`RateLimit.FirstCallIsAdmitted`). The limit itself is kept if and only if it is at least 1
  (`RateLimit.LimitIsKeptFromOne`); with the larger of the limit and 1 the bounds hold for every rule
  (`RateLimit.AcceptedCallsAreBounded`).

## Model

| member | source | states |
|---|---|---|
| Utf8.DecodeEncode | src/stores/nav-store.ts:225-246 | the text encoding under the query string loses nothing: decoding the bytes of any string gives it back |
| FormUrlEncoded.ComponentRoundTrip | src/stores/nav-store.ts:225-233 | any name or value, whatever separators or escapes it holds, survives encoding, and its encoding holds no separator |
| FormUrlEncoded.EscapedByte | src/stores/nav-store.ts:231-232 | an escaped byte is written as a percent sign and two upper-case hexadecimal digits of its value |
| FormUrlEncoded.GetAfterSet | src/stores/nav-store.ts:227-230 | reading a parameter list after `set` finds the new value under that name and every other name unchanged |
| FormUrlEncoded.SetLeavesOne | src/stores/nav-store.ts:227-230 | after `set` the name occurs exactly once and the other pairs keep their order |
| FormUrlEncoded.ParseSerialize | src/stores/nav-store.ts:231-243 | parsing a serialized parameter list gives exactly that list back |
| FormUrlEncoded.SerializedTextIsSafe | src/stores/nav-store.ts:231-232 | a serialized list holds no `#`, `?`, white space or other character that would end or alter the fragment |
| ViewAliases.ResolvedViewIsCanonical | src/stores/nav-store.ts:105-190 | one hop is enough: what an alias or one of its tabs resolves to is a current page and not itself an alias, unless the tab is a name inherited by every object |
| ViewAliases.TabsLeadToTheirTargets | src/stores/nav-store.ts:184-190 | a listed tab leads to its own target, an entry that keeps tabs passes any other tab on, and everything else leads to the entry's target |
| ViewAliases.CurrentViewIsKept | src/stores/nav-store.ts:185-186 | a current view keeps its tab, whatever it is |
| ViewAliases.KeptAndListedTabs | src/stores/nav-store.ts:112-121 | a kept and a listed tab resolved in full |
| ViewAliases.AliasResolvesElsewhere | src/stores/nav-store.ts:184-190 | an alias never resolves to itself, so every legacy hash is reported as aliased |
| HashCodec.TraceOfQuery | src/stores/nav-store.ts:199-223 | each acceptable parameter is read as it is, the others are dropped, and the trace is marked malformed exactly when one was refused |
| HashCodec.NavHash | src/stores/nav-store.ts:225-233 | the parameter object filled step by step prints the specified hash |
| HashCodec.NavParamsReadBack | src/stores/nav-store.ts:225-233 | every field of the hash is found again under its own name; empty ones are never written |
| HashCodec.ParsePrinted | src/stores/nav-store.ts:235-246 | parsing a printed hash resolves the view and tab and validates the trace, for any tab and any trace |
| HashCodec.HashMarkIsOptional | src/stores/nav-store.ts:238-239 | a hash is parsed alike with and without its leading mark |
| HashCodec.ReadBackKeepsValues | src/stores/nav-store.ts:203-223 | a trace is read back with exactly its values, unmarked, if and only if they are non-empty, within the limits and in the bucket vocabulary |
| HashCodec.PrintParseRoundTrip | src/stores/nav-store.ts:225-246 | the parser returns exactly what was printed, not aliased, if and only if the view is current, the tab null or non-empty, and the trace readable |
| NavStore.Store.constructor | src/stores/nav-store.ts:269-273 | the initial store |
| NavStore.Store.SetView | src/stores/nav-store.ts:274-278 | the whole new state and URL: the resolved view and tab, no trace |
| NavStore.Store.SetTab | src/stores/nav-store.ts:279-284 | the whole new state and URL; nothing changes for the current tab |
| NavStore.Store.OpenCategoryView | src/stores/nav-store.ts:285-297 | the whole new state and URL of opening a category elsewhere |
| NavStore.Store.SetTraceCategory | src/stores/nav-store.ts:298-311 | the whole new state and URL; nothing changes for the current, well-formed category |
| NavStore.Store.ClearTraceCategory | src/stores/nav-store.ts:312-322 | the whole new state and URL; the trace disappears when nothing else is in it |
| NavStore.Store.InitNavFromHash | src/stores/nav-store.ts:337-343 | the store takes what the hash says, and the URL is rewritten when the view was aliased |
| NavStore.SetViewEffect | src/stores/nav-store.ts:274-278 | setView ends on the resolved view and tab without a trace, and writes that URL |
| NavStore.SetTabEffect | src/stores/nav-store.ts:279-284 | setTab sets the tab and keeps view and trace |
| NavStore.OpenCategoryViewEffect | src/stores/nav-store.ts:285-297 | openCategoryView ends on the resolved view with exactly the given trace |
| NavStore.SetTraceCategoryEffect | src/stores/nav-store.ts:298-311 | setTraceCategory sets the category and keeps view, tab, run id and bucket, in the store and in the URL |
| NavStore.ClearTraceCategoryEffect | src/stores/nav-store.ts:312-322 | clearTraceCategory drops the category and nothing else; the trace goes when nothing is left in it |
| NavStore.LoadEffect | src/stores/nav-store.ts:337-343 | loading the hash of a current page opens that page with its tab and trace |
| NavStore.EmptyLoadEffect | src/stores/nav-store.ts:238-242 | loading a hash that names no view changes nothing |
| NavStore.LoadLeavesCanonicalUrl | src/stores/nav-store.ts:337-343 | after a load the URL names a current page, and it was rewritten exactly when the hash did not |
| NavStore.PageSurvivesRuns | src/stores/nav-store.ts:279-322 | over every run of tab and category actions the page, run id and bucket stay, and tab and category are the last ones set |
| NavStore.StepKeepsAgreement | src/stores/nav-store.ts:274-343 | from agreement, any one action or hash load ends in agreement of store and URL if and only if its arguments are good |
| NavStore.AgreementOverRuns | src/stores/nav-store.ts:269-343 | over every run of actions and hash loads from a page load, initialising again changes neither view, tab, trace values nor URL, and the first step that is not good breaks this |
| NavStore.DetailViewIsUndone | src/stores/nav-store.ts:323-343 | opening a detail page is undone by a later initialisation unless its view was open already |
| NavStore.LoadOutsideTableIsUndefined | src/stores/nav-store.ts:184-246 | loading a hash gives an undefined view exactly when its own view and tab look up an inherited name |
| NavStore.InheritedKeyExample | src/stores/nav-store.ts:184-190 | a concrete view and tab for which the lookup leaves the table |
| NavStore.InheritedKeyLoadExample | src/stores/nav-store.ts:235-343 | the hash that does the same when it is loaded |
| CsvExport.ExportsFirstPrimitive | src/lib/csv-export.ts:13-22 | a column exports its explicit value, or else the first primitive among cell, field (a date as text) and sort value, or else nothing |
| CsvExport.CellTextMeans | src/lib/csv-export.ts:24-30 | what a reader is meant to see of a number, a text, a flag and a missing value |
| CsvExport.CsvSafeCell | src/lib/csv-export.ts:24-30 | the printed cell is the number's text, or the quoted guarded text |
| CsvExport.ToCsv | src/lib/csv-export.ts:32-36 | the loop prints the header row and one line per row |
| CsvExport.PlainNumberMeans | src/lib/csv-export.ts:10 | the plain-number test accepts exactly an optional minus, digits, and optionally a point with more digits |
| CsvExport.FormulaTriggerMeans | src/lib/csv-export.ts:11 | the trigger test finds exactly the texts with a trigger character after white space only |
| CsvExport.GuardIsSafe | src/lib/csv-export.ts:27-28 | a guarded text starts like a formula only if it is a plain number; guarding is idempotent; harmless texts are untouched |
| CsvExport.GuardedTriggerIsHarmless | src/lib/csv-export.ts:10-28 | a guarded text that starts like a formula holds only digits, at most one point, and a minus in front |
| CsvExport.ExportedTextIsSafe | src/lib/csv-export.ts:24-30 | no text cell starts like a formula unless it is a plain number |
| CsvExport.CsvRoundTrip | src/lib/csv-export.ts:24-36 | an RFC 4180 reader gets the header and every guarded cell text back, whatever quotes, commas or breaks they hold, if and only if there is a column |
| CsvExport.ReaderSeesEveryCell | src/lib/csv-export.ts:24-36 | the table read back has the guarded headers and, cell by cell, the text of each column's value of each row |
| LikePattern.EscapedSearchMeansContains | src/lib/analysis/customers-orders.ts:72-78 | the escaped pattern matches exactly the values that contain the search text, ignoring case |
| LikePattern.RawSearchMeansContains | src/lib/analytics/sales-history.ts:175 | the unescaped search means "contains" for every value if and only if the text has no pattern character |
| InventoryBuckets.CurrentStockAgrees | src/lib/analysis/inventory-buckets.ts:30-54 | the SQL, Prisma and TypeScript statements of current stock agree on every nullable row, and the SQL one is never NULL |
| InventoryBuckets.InventoryBucketAgrees | src/lib/analysis/inventory-buckets.ts:56-108 | the SQL bucket equals the derived bucket on every nullable row |
| InventoryBuckets.ConfirmedQuantityMeans | src/lib/analysis/inventory-buckets.ts:110-126 | the confirmed quantity is the stored quantity exactly when it is vouched for, positive and whole, and NULL otherwise |
| InventoryBuckets.NeedsReviewAgrees | src/lib/analysis/inventory-buckets.ts:128-142 | the SQL review flag equals the TypeScript one fed with the confirmed quantity |
| Aggregates.GroupingConserves | src/lib/analysis/inventory-position.ts:292-331 | adding up the groups of any grouped query gives the sum over its rows, whatever the key and the order |
| InventoryPosition.OneRowPerLot | src/lib/analysis/inventory-position.ts:133-137 | the band join gives one row for a lot if and only if at most one active band holds its weight |
| InventoryPosition.DisjointBandsKeepLots | src/lib/analysis/inventory-position.ts:133-137 | every conceivable lot gives one row if and only if the active bands are pairwise disjoint |
| InventoryPosition.AmountsFollowTheFragments | src/lib/analysis/inventory-position.ts:48-51 | the amounts are the confirmed quantity of the database, the positive measured weight, and the two counters of the SQL conditions |
| InventoryPosition.CurrentLotsAreKept | src/lib/analysis/inventory-position.ts:133-137 | the lots of the report are exactly those the SQL condition keeps and the filters pass |
| InventoryPosition.GroupHoldsItsLots | src/lib/analysis/inventory-position.ts:102-140 | with disjoint bands every group of every grouping sums exactly the current lots that belong in it: by SQL bucket, own column or weight band |
| InventoryPosition.GroupingsAgree | src/lib/analysis/inventory-position.ts:281-334 | below the ceiling and with disjoint bands, every total of each of the six groupings counts every current lot once, the weight up to its rounding, so they agree |
| InventoryPosition.ReportIsCompleteBelowCeiling | src/lib/analysis/inventory-position.ts:302-331 | the record total covers all rows if and only if there are no more groups than the ceiling |
| MirrorReconciliation.CanonicalSideReconciles | src/lib/analysis/inventory-position.ts:526-560 | canonical = in both + canonical only, if and only if no counted lot has a mirror row hidden by the scope |
| MirrorReconciliation.MirrorSideReconciles | src/lib/analysis/inventory-position.ts:526-560 | mirror = in both + mirror only, if and only if no counted mirror row has a current lot hidden by the scope |
| MirrorReconciliation.UnrestrictedScopeReconciles | src/lib/analysis/inventory-position.ts:526-560 | with an unrestricted scope and unique ids both sides always add up |
| ReportingDate.ComputeStartOfBusinessDay | src/lib/analytics/reporting-date.ts:56-66 | the two-iteration loop computes the specified instant |
| ReportingDate.StartFindsMidnight | src/lib/analytics/reporting-date.ts:56-66 | with one change of offset near the date, the result reads that date at 00:00:00 if and only if some instant does |
| ReportingDate.NoMidnightMeansSkipped | src/lib/analytics/reporting-date.ts:56-66 | no instant does exactly when a forward jump skips midnight |
| ReportingDate.StartIsBoundary | src/lib/analytics/reporting-date.ts:37-66 | the result separates the date from earlier ones if and only if its start is clean, a condition on where the change lies |
| ReportingDate.WindowHoldsItsDates | src/lib/analytics/reporting-date.ts:37-80 | an instant is in the window if and only if its business date is in the window's dates, which are exactly the asked number with today last |
| ReportingDate.SkippedMidnightExample | src/lib/analytics/reporting-date.ts:56-66 | a zone for which the start falls on the day before |
| RateLimit.Limiter.Consume | src/lib/api/rate-limit.ts:8-20 | the whole new bucket map, after the in-place sweep, and the verdict |
| RateLimit.Limiter.ResetRateLimits | src/lib/api/rate-limit.ts:22-24 | every bucket is gone |
| RateLimit.SweepChangesNoVerdict | src/lib/api/rate-limit.ts:8-20 | over every run with a clock that never goes back, the sweeping limiter answers like one that never deletes |
| RateLimit.AcceptedCallsAreBounded | src/lib/api/rate-limit.ts:8-20 | over every run with one rule for a key, a span of one window holds at most twice the quota of accepted calls and one bucket at most the quota, the larger of the limit and 1 |
| RateLimit.FirstCallIsAdmitted | src/lib/api/rate-limit.ts:12-16 | the single call that every rule lets through, whatever its limit |
| RateLimit.LimitIsKeptFromOne | src/lib/api/rate-limit.ts:8-20 | every bucket keeps the limit, and every window twice the limit, over all runs if and only if the limit is at least 1 |
| RateLimit.RefusedOnlyAfterAFullQuota | src/lib/api/rate-limit.ts:8-20 | over every run with one rule for a key, a call is accepted if and only if no bucket opened within the last window has let a full quota through |
| RateLimit.RetryAfterIsExact | src/lib/api/rate-limit.ts:17-18 | repeated after s whole seconds the call is accepted if and only if s is at least the reported wait |
| RateLimit.EarlyCallsDoNotExtendTheWait | src/lib/api/rate-limit.ts:12-18 | whatever happens in between before the bucket expires, a call after the reported wait is accepted |
| Motivation.EveryIndexOnce | src/lib/motivation.ts:39-43 | over any n consecutive days, before or after the epoch, every index is used exactly once |
| Motivation.MotivationCache.GetDailyMotivation | src/lib/motivation.ts:105-130 | the whole new module state and the reply of one call |
| Motivation.MotivationCache.FetchEnded | src/lib/motivation.ts:116-125 | the whole new module state when the fetch brings a quote or fails |
| Motivation.MotivationCache.FlightCleared | src/lib/motivation.ts:125-127 | the in-flight promise is dropped and nothing else |
| Motivation.RunsAreOrderly | src/lib/motivation.ts:68-130 | over every interleaving: one fetch at most, none within the pause after a failure, every call answered once or waiting for the fetch in flight |
| Motivation.AnswersAreRight | src/lib/motivation.ts:105-130 | over every interleaving: who joined a fetch gets its quote, or the fallback of its date; who is answered at once gets a quote fetched for the date asked, or its fallback, and this only when fetching is disabled or failed within the pause |
| Motivation.NextCallFetchesAgain | src/lib/motivation.ts:113-129 | once the callback has run, the next call without a quote, enabled and outside the pause, starts a fetch for its date |
| Motivation.FetchesComeFromEvents | src/lib/motivation.ts:115-124 | every fetch was started by a call for its date and ended as an event of the run says |
| Motivation.QuoteLastsItsDay | src/lib/motivation.ts:105-130 | once a fetch brought a quote, and until another date is asked for, every answer is that quote and no fetch starts |
| Motivation.CallForgetsOtherDates | src/lib/motivation.ts:108-109 | asking for a date forgets the quote of any other date |
| Valuation.LoadEntries | src/lib/analytics/valuation.ts:107-129 | the loop keeps exactly the usable entries in order, and the list is empty if and only if none is usable |
| Valuation.LoadedIsEveryUsablePrice | src/lib/analytics/valuation.ts:107-121 | the entries are the usable prices, one for one and in order, each with its own price per carat |
| Valuation.LoadedEntryMatchesNormalizedText | src/lib/analytics/valuation.ts:55-57 | a loaded price and a stone match by their trimmed, case-normalised texts only |
| Valuation.ValueStone | src/lib/analytics/valuation.ts:168-217 | the scan with its running score computes the specified result |
| Valuation.ScoreOrdersBySpecificity | src/lib/analytics/valuation.ts:181-207 | among matching entries the bit-weighted score is the lexicographic order lab, shape, band, color, clarity, and ties mean identical patterns |
| Valuation.ValueMeans | src/lib/analytics/valuation.ts:168-217 | the price is that of the first most specific match, the value is within half a cent of weight times price, and a stone is unvalued, with the reason named, exactly in the three cases |
| Valuation.OrderMattersOnlyForTies | src/lib/analytics/valuation.ts:178-209 | reordering the policy never changes a price if and only if its most specific matches agree on it |
| Valuation.DistinctPatternsNeverTie | src/lib/analytics/valuation.ts:178-209 | so a policy without duplicate patterns can be written in any order |
| SalesHistory.WindowDates | src/lib/analytics/sales-history.ts:110-116 | the three windows in full, oldest first, the latest ending on the cutoff |
| SalesHistory.WindowsTile | src/lib/analytics/sales-history.ts:110-116 | the three windows tile exactly the 90 dates ending at the cutoff, and the SQL window index names the one that holds a date |
| SalesHistory.TotalIsThreeWindows | src/lib/analytics/sales-history.ts:375-378 | the queried sum is the three queried window sums if and only if the older sales add up to nothing |
| SalesHistory.RowHoldsItsWindows | src/lib/analytics/sales-history.ts:375-402 | each reported window of a 90-day run is what was sold on the dates of its entry in the list of windows |
| SalesHistory.CategoryRowAddsUp | src/lib/analytics/sales-history.ts:366-413 | the reported windows of a category add up to its reported total if and only if the run covers 90 days and the older sales sum to nothing, or another number of days and all sales sum to nothing |
| SalesHistory.CategoryTotalsAddUp | src/lib/analytics/sales-history.ts:366-413 | for a run of at least one day, and every table of sales on its days, they add up if and only if the run covers 90 days |
| SalesHistory.CustomerTotalsAddUp | src/lib/analysis/customers-orders.ts:114-119 | in the customer report the three windows give the total for every table if and only if the run covers at most 90 days |
| SalesHistory.PeriodsPartition | src/lib/analytics/sales-history.ts:532-544 | every sale lies in its own day, week or 30-day period and in no other |
| SalesHistory.PeriodsEndOnCutoff | src/lib/analytics/sales-history.ts:532-544 | periods have 1, 7 and 30 days and the last one ends on the cutoff |
| SalesHistory.TrendIsComplete | src/lib/analytics/sales-history.ts:523-569 | which answer is given: unavailable, refused above the ceiling, or all groups |
| SalesHistory.TrendsConserveQuantity | src/lib/analytics/sales-history.ts:523-569 | whenever a trend returns rows they add up to the whole quantity; rows are refused exactly above the ceiling |
| SalesHistory.TrendsAgree | src/lib/analytics/sales-history.ts:523-569 | any two intervals that return rows have the same total |
| InstantWindows.BucketsTile | src/lib/analysis/executive-summary.ts:443-449 | the three buckets tile the 90 days up to and including the end |
| InstantWindows.SegmentsOverlap | src/lib/analysis/stockout.ts:448-482 | each segment is its bucket plus the sales at its inner boundary, so the segments agree with the buckets and the 90 days if and only if those add up to nothing |
| InstantWindows.QueryWindowsTile | src/lib/analysis/executive-summary.ts:443-449 | the windows of the three queries tile the 90 days, instant by instant and in their sums |
| InstantWindows.SoldIsNearest | src/lib/analysis/executive-summary.ts:468-474 | a bucket is what the category sold in the window, to the nearest whole number with halves going up |
| InstantWindows.ReadSalesWindowBuckets | src/lib/analysis/executive-summary.ts:434-477 | the map-filling loops give each listed category, and no other, what it sold in each window |
| DemandMetrics.CommonWhereSelects | src/lib/analysis/stockout.ts:212-224 | the conditions both reports share select the rows they name |
| DemandMetrics.ShortageBalancesExcess | src/lib/analysis/stockout.ts:302-351 | over any rows, shortage minus excess equals target minus available |
| DemandMetrics.ReadForExport | src/lib/analysis/stockout.ts:353-377 | the loop ends, and on an unchanged table returns exactly its first min(total, limit) rows and reports truncation exactly when rows are left out |
| Stockout.LabelsCompareStockToTarget | src/lib/analysis/stockout.ts:199-210 | the label of a computed metric is review, or how its stock compares with its target |
| Stockout.WhereFor | src/lib/analysis/stockout.ts:212-260 | the assignments, in order, leave the specified record |
| Stockout.WhereSelectsWhatIsMeant | src/lib/analysis/stockout.ts:204-260 | for every combination of filters the overwritten record selects exactly the rows with the asked label and flags |
| Stockout.StatesPartition | src/lib/analysis/stockout.ts:204-260 | with no data state and the flag off, each state filter selects exactly the rows with that label, so the five partition the run |
| Stockout.FlagNarrowsUnlessReplaced | src/lib/analysis/stockout.ts:220-257 | the "shortage only" flag narrows the list if and only if the state filter is not "excess" or "covered" |
| Stockout.ShortageCountDescribesList | src/lib/analysis/stockout.ts:309-330 | the shortage count counts exactly the listed rows for every table if and only if the filters can list confirmed rows and are not "covered" |
| Stockout.OutOfStockCountDescribesList | src/lib/analysis/stockout.ts:309-331 | the same for the out-of-stock count, except for "shortage" |
| Stockout.SumsDescribeList | src/lib/analysis/stockout.ts:309-328 | the sums range over exactly the listed confirmed rows for every table if and only if the filters can list confirmed rows |
| Stockout.ReviewCountDescribesList | src/lib/analysis/stockout.ts:309-332 | the review count counts exactly the listed rows under review if and only if the state is "review required", or there is neither state nor data state |
| Stockout.ListSplitsIntoConfirmedAndReview | src/lib/analysis/stockout.ts:309-332 | the list is exactly what one of the confirmed totals and the review count covers if and only if there is neither state nor data state |
| Excess.WhereFor | src/lib/analysis/excess.ts:108-158 | the assignments, in order, leave the specified record |
| Excess.WhereSelectsWhatIsMeant | src/lib/analysis/excess.ts:95-158 | for every combination of filters the overwritten record selects exactly the rows it is meant to |
| Excess.StateFiltersPartition | src/lib/analysis/excess.ts:95-158 | with no data state and the flag off every row passes exactly one of the five state filters |
| Excess.FiltersFollowLabels | src/lib/analysis/excess.ts:95-158 | the five filters select a row by its label if and only if it is not confirmed stock with zero target and positive excess |
| Excess.FlagNarrowsUnlessReplaced | src/lib/analysis/excess.ts:116-155 | the "excess only" flag narrows the list if and only if the state filter is not "no target", "below target" or "at target" |
| Excess.ExcessCountDescribesList | src/lib/analysis/excess.ts:226-246 | the excess count counts exactly the listed rows for every table if and only if the filters can list confirmed rows and are not "no target" or "at target" |
| Excess.SumsDescribeList | src/lib/analysis/excess.ts:225-240 | the sums range over exactly the listed confirmed rows for every table if and only if the filters can list confirmed rows |
| Excess.ReviewCountDescribesList | src/lib/analysis/excess.ts:225-244 | the review count counts exactly the listed rows under review if and only if the state is "review required", or there is neither state nor data state |
| Excess.ListSplitsIntoConfirmedAndReview | src/lib/analysis/excess.ts:225-244 | the list is exactly what one of the two covers if and only if there is neither state nor data state |
| Excess.LatestSaleIsLatest | src/lib/analysis/excess.ts:206-210 | the latest sale is the latest date among the included sales of the category, or none |
| Excess.LatestSalesFor | src/lib/analysis/excess.ts:200-216 | looking a listed category up in the filled map gives its latest sale, or nothing when it has none or none with a date |
| Excess.ReadExcessForExport | src/lib/analysis/excess.ts:268-293 | the batched export gives each row the latest sale of its own category whatever batch it is in, and on an unchanged table exactly the first min(total, limit) rows |
| Excess.ExportedRowMeans | src/lib/analysis/excess.ts:178-198 | what the columns of an exported row say about each other and about the metric |
| Sorting.SortSorts | src/lib/analytics/sales-history.ts:441 | sorting keeps the rows and puts them in the comparator's order |
| Sorting.SortOrdersColumns | src/lib/analytics/sales-history.ts:234-240 | in the sorted rows: ascending nulls first and then smaller values, descending the reverse, and identifiers in order among equal columns both ways |
| Sorting.SortIsStable | src/lib/analytics/sales-history.ts:441 | rows that compare as equal keep their order |
| Sorting.OneOrder | src/lib/analytics/sales-history.ts:234-240 | the order is independent of the order of the database rows if and only if no two different rows compare as equal |
| Sorting.SeparatedIdentifiersGiveOneOrder | src/lib/analysis/customers-orders.ts:404-408 | identifiers the collation tells apart make the order the only one |
| Sorting.DistinctIdentifiersSuffice | src/lib/analysis/customers-orders.ts:404-408 | identifiers that are distinct strings do so for every table if and only if the collation tells all distinct strings apart |
| Paging.ClampedSize | src/lib/analysis/customers-orders.ts:59-62 | sizes from 1 to 200 are kept, smaller ones become 1 and larger ones 200 |
| Paging.Summary | src/lib/analytics/sales-history.ts:432-461 | the in-place sort, the reduce with its rounded weight and the slice give the page, the flag and the totals of the filtered rows |
| Paging.CustomerSummary | src/lib/analysis/customers-orders.ts:395-432 | the same with the clamped page size of the customer report |
| Paging.PagesHoldEveryRowOnce | src/lib/analytics/sales-history.ts:228-232 | pages 1 to n hold every row once and in order if and only if n reaches the number of pages |
| Paging.HasMoreFormulasAgree | src/lib/analysis/executive-summary.ts:283-293 | the three "has more" formulas agree on every page and total |
| Paging.HasMoreMeansALaterRow | src/lib/analytics/sales-history.ts:228-232 | the flag holds exactly when some later page holds a row |
| Paging.SummaryDescribesItsPages | src/lib/analytics/sales-history.ts:432-461 | the reported totals are the sums over all pages, the weight up to half a millionth, and the pages together are the sorted kept rows |
| Paging.ContributionTotal | src/lib/analytics/sales-history.ts:583-612 | the total read from the first row is the number of groups if and only if the page starts inside them or there are none |
| Paging.ContributionHasMore | src/lib/analytics/sales-history.ts:583-612 | the flag computed from that total is nevertheless right on every page |
| ExecutiveSummary.AddGroup | src/lib/analysis/executive-summary.ts:550-579 | one group changes exactly its cell, the total and the last-seen instant of its row |
| ExecutiveSummary.Accumulate | src/lib/analysis/executive-summary.ts:527-580 | the loop builds one row per location key that occurs, holding what the groups hold under that key |
| ExecutiveSummary.LastSeenIsLatest | src/lib/analysis/executive-summary.ts:552-554 | the last-seen instant of a row is the latest one of its groups, or none |
| ExecutiveSummary.RowBalances | src/lib/analysis/executive-summary.ts:550-579 | the total of a row is the sum of its seven cells |
| ExecutiveSummary.LocationsConserve | src/lib/analysis/executive-summary.ts:527-580 | over all rows the totals add up to all lots, also when locations share a key |
| ExecutiveSummary.KeyIsUnambiguous | src/lib/analysis/executive-summary.ts:527-548 | a location has its row to itself if and only if neither its country nor its branch holds the separator |
| ExecutiveSummary.RowsCountTheirLots | src/lib/analysis/executive-summary.ts:508-580 | when no country holds the separator, every cell counts exactly the current lots of its location that belong in it |
| ExecutiveSummary.TableIsInOrder | src/lib/analysis/executive-summary.ts:597 | countries in order, and within one country its branches in order |
| ExecutiveSummary.ReadInventoryPosition | src/lib/analysis/executive-summary.ts:503-609 | the answer is one page of the sorted table, whose rows cover all groups and lose no lot, with the number of pages, the flag and the availability that describe it |

## Left out

- NavStore.AgreementOverRuns: does not include `openDetail`, which never writes the URL; `NavStore.DetailViewIsUndone` says what follows from that.
- HashCodec.ParsePrinted: strings are sequences of Unicode scalar values, so lone surrogates are not modelled; view names are non-empty and hold no `?`, as all of them do.
- ReportingDate.WindowHoldsItsDates: dates are day numbers, so the text form YYYY-MM-DD, the Gregorian calendar and `Intl` are not modelled; a zone is any function with whole-second offsets below a day.
- Valuation.LoadEntries: the status branches before the loop of `loadValuationPolicy` are left out (one check each); `trim`, `toUpperCase` and the conversion of a price to a number are parameters.
- Valuation.ValueMeans: prices and weights are exact, so floating-point rounding of the product is not modelled.
- Motivation.RunsAreOrderly: `resetMotivationCache` is not an event of a run; fetching and parsing the quote is an arbitrary outcome.
- LikePattern.EscapedSearchMeansContains: case folding maps character by character, is idempotent and keeps the pattern characters; a pattern that ends in a bare backslash is an error in PostgreSQL and no match here.
- ExecutiveSummary.Accumulate: the row objects are values replaced in the map, so updating a row through its alias is not modelled.
- Excess.ReadExcessForExport: the text of a date and of a category label is a parameter.
- InventoryPosition.GroupingsAgree: the filters and the access scope are an arbitrary predicate on lots; sums are exact up to the roundings to six decimals.
- Paging.Summary: sums are exact up to the rounding of the weight to six decimals.
- Sorting.OneOrder: collation is a rank of each string, which stands for any total preorder on strings; which strings a locale equates is not modelled; NaN never occurs.
- Prisma, PostgreSQL execution, transactions and JSON: a query is given by the rows it must return.
- Modules the application imports but that only label or decide elsewhere (demand calculation, classification, synchronisation, raw ingestion, trend direction) are not part of this model; demand metrics are assumed to satisfy the two defining equations of shortage and excess.
- Readiness rows, messages, source disclosure, stock ageing, memo and geography reports: they would repeat the grouping and escaping results or add easy case splits.
- React components, styling, proxy headers, exports to Excel and PDF, and everything under `scripts/`.
- `detailId`, sidebar and collapsed groups of the navigation store, and the history stack: only the current hash matters.
