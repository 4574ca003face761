/** The stock by location table of the executive summary. */
module ExecutiveSummary {
  import opened Prelude
  import opened Aggregates
  import opened Sorting
  import opened Paging

  // ----- The groups -----

  /** The columns the groups are keyed by. */
  datatype GroupKey = GroupKey(country: string, branch: string, inventoryClass: Option<string>, roughOrPolished: string)

  datatype LotGroup = LotGroup(key: GroupKey, count: nat, lastSeen: Option<int>)

  datatype Lot = Lot(key: GroupKey, lastSeenAt: Option<int>)

  function LotKey(): Lot -> GroupKey { (l: Lot) => l.key }

  function One(): Lot -> real { (l: Lot) => 1.0 }

  function AsGroup(): LotGroup -> Group<GroupKey> { (g: LotGroup) => Group(g.key, g.count as real) }

  /** `groups` is the result of the grouped count over the current lots, in some order. */
  ghost predicate IsLotQuery(lots: seq<Lot>, groups: seq<LotGroup>) {
    IsGroupBy(lots, LotKey(), One(), Map(groups, AsGroup()))
  }

  // ----- Locations and cells -----

  const SEPARATOR := '\U{1}'

  function LocationKey(country: string, branch: string): string { country + [SEPARATOR] + branch }

  function KeyOf(g: LotGroup): string { LocationKey(g.key.country, g.key.branch) }

  datatype Cell = AvailablePolished | Reserved | Memo | Wip | RoughAvailable | HeldOrExcluded | Unclassified

  function CellOf(k: GroupKey): Cell {
    if k.inventoryClass.None? then Unclassified
    else
      var c := k.inventoryClass.value;
      if c == "PHYSICAL_AVAILABLE" then if k.roughOrPolished == "ROUGH" then RoughAvailable else AvailablePolished
      else if c == "RESERVED" then Reserved
      else if c == "MEMO" then Memo
      else if c == "WIP" then Wip
      else HeldOrExcluded
  }

  datatype Row = Row(
    country: string,
    branch: string,
    availablePolished: nat,
    reserved: nat,
    memo: nat,
    wip: nat,
    roughAvailable: nat,
    heldOrExcluded: nat,
    unclassified: nat,
    totalClassified: nat,
    lastSeen: Option<int>)

  function EmptyRow(country: string, branch: string): Row { Row(country, branch, 0, 0, 0, 0, 0, 0, 0, 0, None) }

  function Get(r: Row, c: Cell): nat {
    match c
    case AvailablePolished => r.availablePolished
    case Reserved => r.reserved
    case Memo => r.memo
    case Wip => r.wip
    case RoughAvailable => r.roughAvailable
    case HeldOrExcluded => r.heldOrExcluded
    case Unclassified => r.unclassified
  }

  // ----- What the groups hold for one location key -----

  function Last<T>(s: seq<T>): T requires s != [] { s[|s| - 1] }

  function Front<T>(s: seq<T>): seq<T> requires s != [] { s[..|s| - 1] }

  function Counted(groups: seq<LotGroup>, key: string, cell: Cell): nat {
    if groups == [] then 0
    else
      var g := Last(groups);
      Counted(Front(groups), key, cell) + if KeyOf(g) == key && CellOf(g.key) == cell then g.count else 0
  }

  function CountedAt(groups: seq<LotGroup>, key: string): nat {
    if groups == [] then 0
    else CountedAt(Front(groups), key) + if KeyOf(Last(groups)) == key then Last(groups).count else 0
  }

  function LastSeen(groups: seq<LotGroup>, key: string): Option<int> {
    if groups == [] then None
    else if KeyOf(Last(groups)) == key then Later(LastSeen(Front(groups), key), Last(groups).lastSeen)
    else LastSeen(Front(groups), key)
  }

  predicate SeenAt(g: LotGroup, key: string, at: int) { KeyOf(g) == key && g.lastSeen == Some(at) }

  /** The last-seen instant is the latest one of the groups under the key, and there is none when none has one. */
  lemma {:induction false} LastSeenIsLatest(groups: seq<LotGroup>, key: string)
    ensures LastSeen(groups, key).None? <==> forall g :: g in groups && KeyOf(g) == key ==> g.lastSeen.None?
    ensures LastSeen(groups, key).Some? ==>
      && (exists g :: g in groups && SeenAt(g, key, LastSeen(groups, key).value))
      && (forall g :: g in groups && KeyOf(g) == key && g.lastSeen.Some? ==> g.lastSeen.value <= LastSeen(groups, key).value)
  {
    if groups != [] {
      var front, last := Front(groups), Last(groups);
      LastSeenIsLatest(front, key);
      assert groups == front + [last];
      assert forall g :: g in groups <==> g in front || g == last;
      if LastSeen(front, key).Some? {
        var g :| g in front && SeenAt(g, key, LastSeen(front, key).value);
        assert g in groups;
      }
      if LastSeen(groups, key).Some? && LastSeen(groups, key) != LastSeen(front, key) {
        assert SeenAt(last, key, LastSeen(groups, key).value);
      }
    }
  }

  function CountedAll(groups: seq<LotGroup>): nat {
    if groups == [] then 0 else CountedAll(Front(groups)) + Last(groups).count
  }

  /** The row holds what the groups hold under its key, and names a location of that key. */
  predicate Describes(r: Row, groups: seq<LotGroup>, key: string) {
    && LocationKey(r.country, r.branch) == key
    && (forall c: Cell :: Get(r, c) == Counted(groups, key, c))
    && r.totalClassified == CountedAt(groups, key)
    && r.lastSeen == LastSeen(groups, key)
  }

  // ----- The accumulation -----

  /** One group added to the row of its location. */
  method AddGroup(r: Row, g: LotGroup) returns (row: Row)
    ensures row.country == r.country && row.branch == r.branch
    ensures forall c: Cell :: Get(row, c) == Get(r, c) + if c == CellOf(g.key) then g.count else 0
    ensures row.totalClassified == r.totalClassified + g.count
    ensures row.lastSeen == Later(r.lastSeen, g.lastSeen)
  {
    row := r.(totalClassified := r.totalClassified + g.count);
    if g.lastSeen.Some? && (row.lastSeen.None? || g.lastSeen.value > row.lastSeen.value) {
      row := row.(lastSeen := g.lastSeen);
    }
    if g.key.inventoryClass.None? {
      row := row.(unclassified := row.unclassified + g.count);
      return;
    }
    var isRough := g.key.roughOrPolished == "ROUGH";
    match g.key.inventoryClass.value {
      case "PHYSICAL_AVAILABLE" =>
        if isRough {
          row := row.(roughAvailable := row.roughAvailable + g.count);
        } else {
          row := row.(availablePolished := row.availablePolished + g.count);
        }
      case "RESERVED" => row := row.(reserved := row.reserved + g.count);
      case "MEMO" => row := row.(memo := row.memo + g.count);
      case "WIP" => row := row.(wip := row.wip + g.count);
      case _ => row := row.(heldOrExcluded := row.heldOrExcluded + g.count);
    }
  }

  lemma NothingYet(groups: seq<LotGroup>, key: string)
    requires forall g :: g in groups ==> KeyOf(g) != key
    ensures CountedAt(groups, key) == 0 && LastSeen(groups, key) == None
    ensures forall c :: Counted(groups, key, c) == 0
  {
    if groups != [] {
      assert Last(groups) in groups;
      forall g | g in Front(groups)
        ensures KeyOf(g) != key
      {
        assert g in groups;
      }
      NothingYet(Front(groups), key);
    }
  }

  lemma StepDescribes(r: Row, row: Row, groups: seq<LotGroup>, g: LotGroup)
    requires Describes(r, groups, KeyOf(g))
    requires row.country == r.country && row.branch == r.branch
    requires forall c: Cell :: Get(row, c) == Get(r, c) + if c == CellOf(g.key) then g.count else 0
    requires row.totalClassified == r.totalClassified + g.count
    requires row.lastSeen == Later(r.lastSeen, g.lastSeen)
    ensures Describes(row, groups + [g], KeyOf(g))
  {
    assert Front(groups + [g]) == groups;
  }

  lemma OthersKeep(r: Row, groups: seq<LotGroup>, g: LotGroup, key: string)
    requires Describes(r, groups, key) && key != KeyOf(g)
    ensures Describes(r, groups + [g], key)
  {
    assert Front(groups + [g]) == groups;
  }

  /** The loop over the groups: one row for each location key that occurs, each describing its key. */
  method Accumulate(groups: seq<LotGroup>) returns (order: seq<string>, byLocation: map<string, Row>)
    ensures Distinct(order)
    ensures forall k :: k in order <==> k in byLocation
    ensures forall k :: k in byLocation <==> exists g :: g in groups && KeyOf(g) == k
    ensures forall k :: k in byLocation ==> Describes(byLocation[k], groups, k)
  {
    order, byLocation := [], map[];
    for n := 0 to |groups|
      invariant Distinct(order)
      invariant forall k :: k in order <==> k in byLocation
      invariant forall k :: k in byLocation <==> exists g :: g in groups[..n] && KeyOf(g) == k
      invariant forall k :: k in byLocation ==> Describes(byLocation[k], groups[..n], k)
    {
      var g := groups[n];
      var key := KeyOf(g);
      var row := EmptyRow(g.key.country, g.key.branch);
      if key in byLocation {
        row := byLocation[key];
      } else {
        NothingYet(groups[..n], key);
        order := order + [key];
      }
      ghost var before := byLocation;
      var added := AddGroup(row, g);
      StepDescribes(row, added, groups[..n], g);
      byLocation := byLocation[key := added];
      assert groups[..n + 1] == groups[..n] + [g];
      forall k | k in byLocation
        ensures Describes(byLocation[k], groups[..n + 1], k)
      {
        if k != key {
          OthersKeep(before[k], groups[..n], g, k);
        }
      }
    }
    assert groups[..|groups|] == groups;
  }

  // ----- Every row balances -----

  function AllCells(groups: seq<LotGroup>, key: string): nat {
    Counted(groups, key, AvailablePolished) + Counted(groups, key, Reserved) + Counted(groups, key, Memo)
    + Counted(groups, key, Wip) + Counted(groups, key, RoughAvailable) + Counted(groups, key, HeldOrExcluded)
    + Counted(groups, key, Unclassified)
  }

  lemma {:induction false} CellsAddUp(groups: seq<LotGroup>, key: string)
    ensures AllCells(groups, key) == CountedAt(groups, key)
  {
    if groups != [] {
      CellsAddUp(Front(groups), key);
    }
  }

  /** The total of a row is the sum of its seven cells. */
  lemma RowBalances(r: Row, groups: seq<LotGroup>, key: string)
    requires Describes(r, groups, key)
    ensures r.totalClassified
      == r.availablePolished + r.reserved + r.memo + r.wip + r.roughAvailable + r.heldOrExcluded + r.unclassified
  {
    CellsAddUp(groups, key);
    assert Get(r, AvailablePolished) == Counted(groups, key, AvailablePolished);
    assert Get(r, Reserved) == Counted(groups, key, Reserved);
    assert Get(r, Memo) == Counted(groups, key, Memo);
    assert Get(r, Wip) == Counted(groups, key, Wip);
    assert Get(r, RoughAvailable) == Counted(groups, key, RoughAvailable);
    assert Get(r, HeldOrExcluded) == Counted(groups, key, HeldOrExcluded);
    assert Get(r, Unclassified) == Counted(groups, key, Unclassified);
  }

  // ----- No lot is lost or counted twice -----

  function CountedOver(groups: seq<LotGroup>, keys: seq<string>): nat {
    if keys == [] then 0 else CountedAt(groups, keys[0]) + CountedOver(groups, keys[1..])
  }

  lemma {:induction false} NothingCounted(keys: seq<string>)
    ensures CountedOver([], keys) == 0
  {
    if keys != [] {
      NothingCounted(keys[1..]);
    }
  }

  lemma {:induction false} GroupCountedOnce(groups: seq<LotGroup>, keys: seq<string>)
    requires groups != [] && Distinct(keys)
    ensures CountedOver(groups, keys)
      == CountedOver(Front(groups), keys) + if KeyOf(Last(groups)) in keys then Last(groups).count else 0
  {
    if keys != [] {
      var rest := keys[1..];
      assert keys == [keys[0]] + rest;
      assert keys[0] !in rest;
      GroupCountedOnce(groups, rest);
    }
  }

  /** Over all locations the totals add up to all the lots of the groups, also when locations share a key. */
  lemma {:induction false} LocationsConserve(groups: seq<LotGroup>, keys: seq<string>)
    requires Distinct(keys) && forall g :: g in groups ==> KeyOf(g) in keys
    ensures CountedOver(groups, keys) == CountedAll(groups)
  {
    if groups == [] {
      NothingCounted(keys);
    } else {
      GroupCountedOnce(groups, keys);
      assert Last(groups) in groups;
      LocationsConserve(Front(groups), keys);
    }
  }

  function SumTotals(rows: seq<Row>): nat { if rows == [] then 0 else rows[0].totalClassified + SumTotals(rows[1..]) }

  lemma {:induction false} TotalsOfRows(rows: seq<Row>, keys: seq<string>, groups: seq<LotGroup>)
    requires |rows| == |keys| && forall i :: 0 <= i < |rows| ==> Describes(rows[i], groups, keys[i])
    ensures SumTotals(rows) == CountedOver(groups, keys)
  {
    if rows != [] {
      TotalsOfRows(rows[1..], keys[1..], groups);
    }
  }

  /** Rows by country, then branch, compared through the collation. */
  function ByLocation(collation: Collation): Order<Row> {
    Order((r: Row) => Some(collation(r.country)), true, (r: Row) => r.branch, collation)
  }

  /** The table by hand: countries in order, and within one country its branches in order. */
  lemma TableIsInOrder(listed: seq<Row>, collation: Collation, i: int, j: int)
    requires 0 <= i < j < |Sort(ByLocation(collation), listed)|
    ensures
      var table := Sort(ByLocation(collation), listed);
      && collation(table[i].country) <= collation(table[j].country)
      && (collation(table[i].country) == collation(table[j].country) ==> collation(table[i].branch) <= collation(table[j].branch))
  {
    SortOrdersColumns(ByLocation(collation), listed, i, j);
  }

  datatype ExecutiveMeta = ExecutiveMeta(page: int, pageSize: int, total: nat, totalPages: int, hasMore: bool)

  datatype PositionResult = PositionResult(rows: seq<Row>, meta: ExecutiveMeta, isSimulated: bool, available: bool)

  lemma KeysOfSomeGroup(groups: seq<LotGroup>, keys: seq<string>)
    requires forall k :: k in keys <==> exists g :: g in groups && KeyOf(g) == k
    ensures keys != [] <==> groups != []
  {
    if groups != [] {
      assert groups[0] in groups && KeyOf(groups[0]) in keys;
    }
    if keys != [] {
      assert keys[0] in keys;
    }
  }

  /** The table: `listed` has one row for each location key of the groups and together they hold every lot
      of the groups; the answer is one page of its sort. Its pages number exactly what `listed` needs, the flag
      says whether a later page holds a row, and it is available exactly when there is any group. Whether the
      source is simulated is decided elsewhere. */
  method ReadInventoryPosition(groups: seq<LotGroup>, collation: Collation, page: int, pageSize: int, isSimulated: bool)
    returns (result: PositionResult, ghost keys: seq<string>, ghost listed: seq<Row>)
    ensures Distinct(keys) && |keys| == |listed|
    ensures forall k :: k in keys <==> exists g :: g in groups && KeyOf(g) == k
    ensures forall i :: 0 <= i < |keys| ==> Describes(listed[i], groups, keys[i])
    ensures SumTotals(listed) == CountedAll(groups)
    ensures result.rows == PageOf(Sort(ByLocation(collation), listed), page, ClampedSize(pageSize))
    ensures result.meta.page == page && result.meta.total == |listed| && result.meta.pageSize == ClampedSize(pageSize)
    ensures result.meta.totalPages == TotalPages(|listed|, ClampedSize(pageSize))
    ensures page >= 1 ==>
      (result.meta.hasMore <==>
        exists later :: later > page && PageOf(Sort(ByLocation(collation), listed), later, ClampedSize(pageSize)) != [])
    ensures result.available <==> groups != []
    ensures result.isSimulated == isSimulated
  {
    var order, byLocation := Accumulate(groups);
    var all := seq(|order|, i requires 0 <= i < |order| && order[i] in byLocation => byLocation[order[i]]);
    keys, listed := order, all;
    TotalsOfRows(listed, keys, groups);
    LocationsConserve(groups, keys);
    SortKeepsLength(ByLocation(collation), listed);
    KeysOfSomeGroup(groups, keys);
    all := Sort(ByLocation(collation), all);
    var size := ClampedSize(pageSize);
    var totalPages := TotalPages(|all|, size);
    var meta := ExecutiveMeta(page, size, |all|, totalPages, page < totalPages);
    if page >= 1 {
      HasMoreFormulasAgree(page, size, |all|);
      HasMoreMeansALaterRow(all, page, size);
    }
    result := PositionResult(PageOf(all, page, size), meta, isSimulated, |all| > 0);
  }

  // ----- Locations that share a key -----

  predicate FirstSeparatorAt(key: string, i: nat) {
    i < |key| && key[i] == SEPARATOR && forall j :: 0 <= j < i ==> key[j] != SEPARATOR
  }

  lemma FirstSeparatorIsUnique(key: string, i: nat, j: nat)
    requires FirstSeparatorAt(key, i) && FirstSeparatorAt(key, j)
    ensures i == j
  {
  }

  lemma KeySplits(c1: string, b1: string, c2: string, b2: string)
    requires LocationKey(c1, b1) == LocationKey(c2, b2) && SEPARATOR !in c1 && SEPARATOR !in c2
    ensures c1 == c2 && b1 == b2
  {
    var key := LocationKey(c1, b1);
    assert key == LocationKey(c2, b2);
    FirstSeparatorIsUnique(key, |c1|, |c2|);
    assert c1 == key[..|c1|] && c2 == key[..|c2|];
    assert b1 == key[|c1| + 1..] && b2 == key[|c2| + 1..];
  }

  lemma OneSeparator(c: string, b: string, country: string, branch: string)
    requires LocationKey(c, b) == LocationKey(country, branch) && SEPARATOR !in country && SEPARATOR !in branch
    ensures SEPARATOR !in c
  {
    var k := LocationKey(country, branch);
    assert LocationKey(c, b)[|c|] == SEPARATOR;
    assert forall i :: 0 <= i < |k| && k[i] == SEPARATOR ==> i == |country|;
    forall i | 0 <= i < |c|
      ensures c[i] != SEPARATOR
    {
      assert LocationKey(c, b)[i] == c[i];
    }
  }

  /** A location has its row to itself, whatever other locations there are, if and only if neither its
      country nor its branch contains the separator character. */
  lemma KeyIsUnambiguous(country: string, branch: string)
    ensures (forall c, b :: LocationKey(c, b) == LocationKey(country, branch) ==> c == country && b == branch)
      <==> SEPARATOR !in country && SEPARATOR !in branch
  {
    if SEPARATOR in country {
      var i :| 0 <= i < |country| && country[i] == SEPARATOR;
      var c, b := country[..i], country[i + 1..] + [SEPARATOR] + branch;
      assert country == c + [SEPARATOR] + country[i + 1..];
      assert LocationKey(c, b) == LocationKey(country, branch) && |c| < |country|;
    } else if SEPARATOR in branch {
      var i :| 0 <= i < |branch| && branch[i] == SEPARATOR;
      var c, b := country + [SEPARATOR] + branch[..i], branch[i + 1..];
      assert branch == branch[..i] + [SEPARATOR] + b;
      assert LocationKey(c, b) == LocationKey(country, branch) && |b| < |branch|;
    } else {
      forall c, b | LocationKey(c, b) == LocationKey(country, branch)
        ensures c == country && b == branch
      {
        OneSeparator(c, b, country, branch);
        KeySplits(c, b, country, branch);
      }
    }
  }

  // ----- From the groups to the lots -----

  predicate Here(k: GroupKey, key: string, cell: Cell) {
    LocationKey(k.country, k.branch) == key && CellOf(k) == cell
  }

  function GroupHere(key: string, cell: Cell): Group<GroupKey> -> bool { (g: Group<GroupKey>) => Here(g.key, key, cell) }

  function LotHere(key: string, cell: Cell): Lot -> bool { (l: Lot) => Here(l.key, key, cell) }

  lemma {:induction false} SumOfConcat(a: seq<Group<GroupKey>>, b: seq<Group<GroupKey>>)
    ensures SumOf(a + b) == SumOf(a) + SumOf(b)
  {
    if a == [] {
      assert a + b == b;
    } else {
      assert (a + b)[1..] == a[1..] + b;
      SumOfConcat(a[1..], b);
    }
  }

  lemma {:induction false} CountedIsASum(groups: seq<LotGroup>, key: string, cell: Cell)
    ensures Counted(groups, key, cell) as real == SumOf(Filter(Map(groups, AsGroup()), GroupHere(key, cell)))
  {
    if groups != [] {
      CountedIsASum(Front(groups), key, cell);
      var last := AsGroup()(Last(groups));
      assert Map(groups, AsGroup()) == Map(Front(groups), AsGroup()) + [last];
      FilterConcat(Map(Front(groups), AsGroup()), [last], GroupHere(key, cell));
      assert [last][1..] == [];
      SumOfConcat(Filter(Map(Front(groups), AsGroup()), GroupHere(key, cell)), Filter([last], GroupHere(key, cell)));
    }
  }

  lemma {:induction false} FilterKeepsDistinctKeys(groups: seq<Group<GroupKey>>, p: Group<GroupKey> -> bool)
    requires DistinctKeys(groups)
    ensures DistinctKeys(Filter(groups, p))
  {
    if groups != [] {
      FilterKeepsDistinctKeys(groups[1..], p);
      forall i | 0 <= i < |Filter(groups[1..], p)|
        ensures Filter(groups[1..], p)[i].key != groups[0].key
      {
        assert Filter(groups[1..], p)[i] in groups[1..];
      }
    }
  }

  lemma {:induction false} SumInIsACount(lots: seq<Lot>, keys: set<GroupKey>, p: Lot -> bool)
    requires forall l :: l in lots ==> (l.key in keys <==> p(l))
    ensures SumIn(lots, LotKey(), keys, One()) == |Filter(lots, p)| as real
  {
    if lots != [] {
      assert lots[0] in lots;
      SumInIsACount(lots[1..], keys, p);
    }
  }

  lemma KeyIsListed(lots: seq<Lot>, groups: seq<LotGroup>, l: Lot, key: string, cell: Cell)
    requires IsLotQuery(lots, groups) && l in lots
    ensures l.key in KeySet(Filter(Map(groups, AsGroup()), GroupHere(key, cell))) <==> Here(l.key, key, cell)
  {
    var all := Map(groups, AsGroup());
    var part := Filter(all, GroupHere(key, cell));
    var i :| 0 <= i < |lots| && lots[i] == l;
    assert LotKey()(lots[i]) in KeySet(all);
    var g :| 0 <= g < |all| && all[g].key == l.key;
    if Here(l.key, key, cell) {
      assert all[g] in part;
    } else {
      forall n | 0 <= n < |part|
        ensures part[n].key != l.key
      {
        assert part[n] in part && GroupHere(key, cell)(part[n]);
      }
    }
  }

  /** A cell of a row counts exactly the lots at the locations of its key that belong in the cell. */
  lemma CellCountsLots(lots: seq<Lot>, groups: seq<LotGroup>, key: string, cell: Cell)
    requires IsLotQuery(lots, groups)
    ensures Counted(groups, key, cell) == |Filter(lots, LotHere(key, cell))|
  {
    var all := Map(groups, AsGroup());
    var part := Filter(all, GroupHere(key, cell));
    CountedIsASum(groups, key, cell);
    FilterKeepsDistinctKeys(all, GroupHere(key, cell));
    forall g | 0 <= g < |part|
      ensures part[g].sum == SumIn(lots, LotKey(), {part[g].key}, One())
    {
      assert part[g] in all;
    }
    SumOfGroups(lots, LotKey(), One(), part);
    forall l | l in lots
      ensures l.key in KeySet(part) <==> LotHere(key, cell)(l)
    {
      KeyIsListed(lots, groups, l, key, cell);
    }
    SumInIsACount(lots, KeySet(part), LotHere(key, cell));
  }

  function LotAt(country: string, branch: string, cell: Cell): Lot -> bool {
    (l: Lot) => l.key.country == country && l.key.branch == branch && CellOf(l.key) == cell
  }

  lemma {:induction false} SameFilter(lots: seq<Lot>, p: Lot -> bool, q: Lot -> bool)
    requires forall l :: l in lots ==> p(l) == q(l)
    ensures Filter(lots, p) == Filter(lots, q)
  {
    if lots != [] {
      assert lots[0] in lots;
      SameFilter(lots[1..], p, q);
    }
  }

  /** When no country contains the separator, every cell of the row of a location counts exactly the
      current lots of that location that belong in the cell. */
  lemma RowsCountTheirLots(lots: seq<Lot>, groups: seq<LotGroup>, country: string, branch: string, r: Row, cell: Cell)
    requires IsLotQuery(lots, groups)
    requires SEPARATOR !in country && forall l :: l in lots ==> SEPARATOR !in l.key.country
    requires Describes(r, groups, LocationKey(country, branch))
    ensures Get(r, cell) == |Filter(lots, LotAt(country, branch, cell))|
  {
    var key := LocationKey(country, branch);
    CellCountsLots(lots, groups, key, cell);
    forall l | l in lots
      ensures LotHere(key, cell)(l) == LotAt(country, branch, cell)(l)
    {
      if LotHere(key, cell)(l) {
        KeySplits(l.key.country, l.key.branch, country, branch);
      }
    }
    SameFilter(lots, LotHere(key, cell), LotAt(country, branch, cell));
  }
}
