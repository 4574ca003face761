/** Inventory buckets, current stock and confirmed quantities: the SQL fragments, and the TypeScript
    functions that are meant to say the same. */
module InventoryBuckets {
  import opened Prelude
  import opened SqlLogic

  const NON_INVENTORY_LIFECYCLES: seq<string> := ["SOLD", "TRANSFERRED", "CLOSED"]

  /** The columns of a lot record that the fragments read. */
  datatype Column =
    | IsCurrent | CanonicalLifecycle | ClassificationState | InventoryClass | HoldState | RoughOrPolished
    | QuantityProvenance | Quantity | SourceType | IsSimulated

  datatype Lot = Lot(
    isCurrent: bool,
    canonicalLifecycle: Option<string>,
    classificationState: Option<string>,
    inventoryClass: Option<string>,
    holdState: Option<string>,
    roughOrPolished: Option<string>,
    quantityProvenance: Option<string>,
    quantity: Option<real>,
    sourceType: Option<string>,
    isSimulated: Option<bool>)

  function TextValue(v: Option<string>): Value { if v.Some? then Text(v.value) else Null }

  function NumValue(v: Option<real>): Value { if v.Some? then Num(v.value) else Null }

  function BoolValue(v: Option<bool>): Value { if v.Some? then Bool(v.value) else Null }

  function ColumnOf(m: Lot, c: Column): Value {
    match c
    case IsCurrent => Bool(m.isCurrent)
    case CanonicalLifecycle => TextValue(m.canonicalLifecycle)
    case ClassificationState => TextValue(m.classificationState)
    case InventoryClass => TextValue(m.inventoryClass)
    case HoldState => TextValue(m.holdState)
    case RoughOrPolished => TextValue(m.roughOrPolished)
    case QuantityProvenance => TextValue(m.quantityProvenance)
    case Quantity => NumValue(m.quantity)
    case SourceType => TextValue(m.sourceType)
    case IsSimulated => BoolValue(m.isSimulated)
  }

  /** The lot as the row the SQL fragments see. */
  function AsRow(m: Lot): Column -> Value { c => ColumnOf(m, c) }

  function Is(c: Column, s: string): Expr<Column> { Eq(Col(c), Lit(Text(s))) }

  // ----- Current stock -----

  const CURRENT_STOCK_SQL: Expr<Column> :=
    And(Eq(Col(IsCurrent), Lit(Bool(true))),
        Or(IsNull(Col(CanonicalLifecycle)), NotIn(Col(CanonicalLifecycle), NON_INVENTORY_LIFECYCLES)))

  /** A Prisma filter: equality, equality with null, notIn, OR and the implicit AND of its fields. A
      null column satisfies `null` and nothing else. */
  datatype Filter =
    | Equals(column: Column, v: Value)
    | NotAnyOf(column: Column, items: seq<string>)
    | Either(left: Filter, right: Filter)
    | Both(left: Filter, right: Filter)

  predicate Matches(f: Filter, m: Lot) {
    match f
    case Equals(c, v) => ColumnOf(m, c) == v
    case NotAnyOf(c, items) => ColumnOf(m, c).Text? && ColumnOf(m, c).s !in items
    case Either(l, r) => Matches(l, m) || Matches(r, m)
    case Both(l, r) => Matches(l, m) && Matches(r, m)
  }

  const CURRENT_STOCK_WHERE: Filter :=
    Both(Equals(IsCurrent, Bool(true)),
         Either(Equals(CanonicalLifecycle, Null), NotAnyOf(CanonicalLifecycle, NON_INVENTORY_LIFECYCLES)))

  function IsCurrentStock(m: Lot): bool {
    if !m.isCurrent then false
    else if m.canonicalLifecycle.None? then true
    else m.canonicalLifecycle.value !in NON_INVENTORY_LIFECYCLES
  }

  lemma CurrentStockSqlAgrees(m: Lot)
    ensures Eval(CURRENT_STOCK_SQL, AsRow(m)) == Bool(IsCurrentStock(m))
  {
    var row := AsRow(m);
    var lifecycle := Col(CanonicalLifecycle);
    assert Eval(lifecycle, row) == TextValue(m.canonicalLifecycle);
    assert Eval(NotIn(lifecycle, NON_INVENTORY_LIFECYCLES), row)
      == NotSql(InSql(TextValue(m.canonicalLifecycle), NON_INVENTORY_LIFECYCLES));
    assert Eval(Eq(Col(IsCurrent), Lit(Bool(true))), row) == EqSql(Bool(m.isCurrent), Bool(true));
  }

  lemma CurrentStockWhereAgrees(m: Lot)
    ensures Matches(CURRENT_STOCK_WHERE, m) <==> IsCurrentStock(m)
  {
    var either := CURRENT_STOCK_WHERE.right;
    assert Matches(either, m) <==> Matches(either.left, m) || Matches(either.right, m);
  }

  /** The three statements of "current stock" agree on every row, and the SQL one is never NULL. */
  lemma CurrentStockAgrees(m: Lot)
    ensures Eval(CURRENT_STOCK_SQL, AsRow(m)) == Bool(IsCurrentStock(m))
    ensures Keeps(CURRENT_STOCK_SQL, AsRow(m)) <==> Matches(CURRENT_STOCK_WHERE, m)
  {
    CurrentStockSqlAgrees(m);
    CurrentStockWhereAgrees(m);
  }

  // ----- Buckets -----

  const INVENTORY_BUCKET_SQL: Expr<Column> :=
    When(Or(Or(IsNull(Col(ClassificationState)), IsNull(Col(InventoryClass))), Ne(Col(ClassificationState), Lit(Text("CLASSIFIED")))),
         Lit(Text("REVIEW_REQUIRED")),
    When(Or(IsNull(Col(HoldState)), In(Col(HoldState), ["HELD", "UNKNOWN"])),
         Lit(Text("HELD_OR_EXCLUDED")),
    When(And(Is(InventoryClass, "PHYSICAL_AVAILABLE"), Is(RoughOrPolished, "ROUGH")),
         Lit(Text("ROUGH_AVAILABLE")),
    When(Is(InventoryClass, "PHYSICAL_AVAILABLE"), Lit(Text("PHYSICAL_AVAILABLE_POLISHED")),
    When(Is(InventoryClass, "RESERVED"), Lit(Text("RESERVED_POLISHED")),
    When(Is(InventoryClass, "MEMO"), Lit(Text("MEMO_POLISHED")),
    When(Is(InventoryClass, "WIP"), Lit(Text("MANUFACTURING_WIP")),
         Lit(Text("HELD_OR_EXCLUDED")))))))))

  function DeriveInventoryBucket(m: Lot): string {
    if m.classificationState.None? || m.inventoryClass.None? || m.classificationState.value != "CLASSIFIED" then "REVIEW_REQUIRED"
    else if m.holdState.None? || m.holdState.value == "HELD" || m.holdState.value == "UNKNOWN" then "HELD_OR_EXCLUDED"
    else if m.inventoryClass.value == "PHYSICAL_AVAILABLE" then
      if m.roughOrPolished == Some("ROUGH") then "ROUGH_AVAILABLE" else "PHYSICAL_AVAILABLE_POLISHED"
    else if m.inventoryClass.value == "RESERVED" then "RESERVED_POLISHED"
    else if m.inventoryClass.value == "MEMO" then "MEMO_POLISHED"
    else if m.inventoryClass.value == "WIP" then "MANUFACTURING_WIP"
    else "HELD_OR_EXCLUDED"
  }

  lemma ReviewCondition(m: Lot)
    ensures Eval(INVENTORY_BUCKET_SQL.cond, AsRow(m))
      == Bool(m.classificationState.None? || m.inventoryClass.None? || m.classificationState.value != "CLASSIFIED")
  {
    var state := Col(ClassificationState);
    assert Eval(state, AsRow(m)) == TextValue(m.classificationState);
    assert Eval(Or(IsNull(state), IsNull(Col(InventoryClass))), AsRow(m))
      == Bool(m.classificationState.None? || m.inventoryClass.None?);
    assert Eval(Ne(state, Lit(Text("CLASSIFIED"))), AsRow(m))
      == if m.classificationState.None? then Null else Bool(m.classificationState.value != "CLASSIFIED");
  }

  lemma HoldCondition(m: Lot)
    ensures Eval(INVENTORY_BUCKET_SQL.no.cond, AsRow(m))
      == Bool(m.holdState.None? || m.holdState.value == "HELD" || m.holdState.value == "UNKNOWN")
  {
    var hold := Col(HoldState);
    assert Eval(hold, AsRow(m)) == TextValue(m.holdState);
    assert Eval(IsNull(hold), AsRow(m)) == Bool(m.holdState.None?);
    assert Eval(In(hold, ["HELD", "UNKNOWN"]), AsRow(m)) == InSql(TextValue(m.holdState), ["HELD", "UNKNOWN"]);
  }

  lemma IsCondition(m: Lot, c: Column, s: string)
    ensures Eval(Is(c, s), AsRow(m)) == EqSql(ColumnOf(m, c), Text(s))
  {
    assert Eval(Col(c), AsRow(m)) == ColumnOf(m, c);
  }

  lemma RoughCondition(m: Lot)
    requires m.inventoryClass.Some?
    ensures Keeps(And(Is(InventoryClass, "PHYSICAL_AVAILABLE"), Is(RoughOrPolished, "ROUGH")), AsRow(m))
      <==> m.inventoryClass.value == "PHYSICAL_AVAILABLE" && m.roughOrPolished == Some("ROUGH")
  {
    IsCondition(m, InventoryClass, "PHYSICAL_AVAILABLE");
    IsCondition(m, RoughOrPolished, "ROUGH");
  }

  function ClassBucket(cls: string): string {
    if cls == "PHYSICAL_AVAILABLE" then "PHYSICAL_AVAILABLE_POLISHED"
    else if cls == "RESERVED" then "RESERVED_POLISHED"
    else if cls == "MEMO" then "MEMO_POLISHED"
    else if cls == "WIP" then "MANUFACTURING_WIP"
    else "HELD_OR_EXCLUDED"
  }

  lemma ClassBranches(m: Lot)
    requires m.inventoryClass.Some?
    ensures Eval(INVENTORY_BUCKET_SQL.no.no.no, AsRow(m)) == Text(ClassBucket(m.inventoryClass.value))
  {
    var row := AsRow(m);
    var physical := INVENTORY_BUCKET_SQL.no.no.no;
    var reserved := physical.no;
    var memo := reserved.no;
    var wip := memo.no;
    IsCondition(m, InventoryClass, "PHYSICAL_AVAILABLE");
    IsCondition(m, InventoryClass, "RESERVED");
    IsCondition(m, InventoryClass, "MEMO");
    IsCondition(m, InventoryClass, "WIP");
    assert Eval(wip, row) == if m.inventoryClass.value == "WIP" then Text("MANUFACTURING_WIP") else Text("HELD_OR_EXCLUDED");
    assert Eval(memo, row) == if m.inventoryClass.value == "MEMO" then Text("MEMO_POLISHED") else Eval(wip, row);
    assert Eval(reserved, row) == if m.inventoryClass.value == "RESERVED" then Text("RESERVED_POLISHED") else Eval(memo, row);
  }

  lemma AvailableBranches(m: Lot)
    requires m.inventoryClass.Some?
    ensures Eval(INVENTORY_BUCKET_SQL.no.no, AsRow(m))
      == Text(if m.inventoryClass.value == "PHYSICAL_AVAILABLE" && m.roughOrPolished == Some("ROUGH") then "ROUGH_AVAILABLE"
              else ClassBucket(m.inventoryClass.value))
  {
    RoughCondition(m);
    ClassBranches(m);
    var rough := INVENTORY_BUCKET_SQL.no.no;
    assert Eval(rough, AsRow(m)) == if Keeps(rough.cond, AsRow(m)) then Text("ROUGH_AVAILABLE") else Eval(rough.no, AsRow(m));
  }

  /** For every nullable row the SQL bucket is the TypeScript bucket, and it is never NULL. */
  lemma InventoryBucketAgrees(m: Lot)
    ensures Eval(INVENTORY_BUCKET_SQL, AsRow(m)) == Text(DeriveInventoryBucket(m))
  {
    var row := AsRow(m);
    var held := INVENTORY_BUCKET_SQL.no;
    ReviewCondition(m);
    if m.inventoryClass.Some? {
      HoldCondition(m);
      AvailableBranches(m);
      assert Eval(held, row) == if Keeps(held.cond, row) then Text("HELD_OR_EXCLUDED") else Eval(held.no, row);
    }
  }

  // ----- Confirmed quantities -----

  const CONFIRMED_PROVENANCES: seq<string> := ["EXPLICIT_FIXTURE", "LIVE_CONFIRMED"]

  const UNCONFIRMED_PROVENANCES: seq<string> :=
    ["MISSING", "INVALID", "UNSUPPORTED", "LEGACY_DEFAULT_AMBIGUOUS", "SEMANTICS_NOT_CONFIGURED"]

  const WHOLE_POSITIVE: Expr<Column> :=
    And(And(IsNotNull(Col(Quantity)), Gt(Col(Quantity), Lit(Num(0.0)))), Eq(Col(Quantity), Trunc(Col(Quantity))))

  const QUANTITY_IF_WHOLE: Expr<Column> := When(WHOLE_POSITIVE, Col(Quantity), Lit(Null))

  const CONFIRMED_QUANTITY_SQL: Expr<Column> :=
    When(In(Col(QuantityProvenance), CONFIRMED_PROVENANCES), QUANTITY_IF_WHOLE,
    When(In(Col(QuantityProvenance), UNCONFIRMED_PROVENANCES), Lit(Null),
    When(And(Is(SourceType, "FIXTURE"), Eq(Col(IsSimulated), Lit(Bool(true)))), QUANTITY_IF_WHOLE,
         Lit(Null))))

  predicate WholePositive(q: Option<real>) {
    q.Some? && q.value > 0.0 && q.value == q.value.Floor as real
  }

  /** Which rows have a confirmed quantity at all: their provenance vouches for it, or they carry no
      recognised provenance and are simulated fixture rows. */
  predicate Vouched(m: Lot) {
    if m.quantityProvenance.Some? && m.quantityProvenance.value in CONFIRMED_PROVENANCES then true
    else if m.quantityProvenance.Some? && m.quantityProvenance.value in UNCONFIRMED_PROVENANCES then false
    else m.sourceType == Some("FIXTURE") && m.isSimulated == Some(true)
  }

  lemma WholePositiveCondition(m: Lot)
    ensures Keeps(WHOLE_POSITIVE, AsRow(m)) <==> WholePositive(m.quantity)
  {
    var qty := Col(Quantity);
    var row := AsRow(m);
    assert Eval(qty, row) == NumValue(m.quantity);
    if m.quantity.Some? {
      var q := m.quantity.value;
      assert Eval(Gt(qty, Lit(Num(0.0))), row) == Bool(q > 0.0);
      assert Eval(Trunc(qty), row) == Num(TruncReal(q));
      assert Eval(Eq(qty, Trunc(qty)), row) == Bool(q == TruncReal(q));
    }
  }

  lemma QuantityIfWhole(m: Lot)
    ensures Eval(QUANTITY_IF_WHOLE, AsRow(m)) == if WholePositive(m.quantity) then Num(m.quantity.value) else Null
  {
    WholePositiveCondition(m);
  }

  lemma ProvenanceCondition(m: Lot, items: seq<string>)
    ensures Eval(In(Col(QuantityProvenance), items), AsRow(m)) == InSql(TextValue(m.quantityProvenance), items)
  {
    assert Eval(Col(QuantityProvenance), AsRow(m)) == TextValue(m.quantityProvenance);
  }

  lemma FixtureCondition(m: Lot)
    ensures Keeps(And(Is(SourceType, "FIXTURE"), Eq(Col(IsSimulated), Lit(Bool(true)))), AsRow(m))
      <==> m.sourceType == Some("FIXTURE") && m.isSimulated == Some(true)
  {
    IsCondition(m, SourceType, "FIXTURE");
    assert Eval(Col(IsSimulated), AsRow(m)) == BoolValue(m.isSimulated);
    assert Eval(Eq(Col(IsSimulated), Lit(Bool(true))), AsRow(m)) == EqSql(BoolValue(m.isSimulated), Bool(true));
  }

  lemma FixtureBranch(m: Lot)
    ensures Eval(CONFIRMED_QUANTITY_SQL.no.no, AsRow(m))
      == if m.sourceType == Some("FIXTURE") && m.isSimulated == Some(true) && WholePositive(m.quantity) then Num(m.quantity.value)
         else Null
  {
    var fixture := CONFIRMED_QUANTITY_SQL.no.no;
    QuantityIfWhole(m);
    FixtureCondition(m);
    assert Eval(fixture, AsRow(m)) == if Keeps(fixture.cond, AsRow(m)) then Eval(QUANTITY_IF_WHOLE, AsRow(m)) else Null;
  }

  /** The confirmed quantity is NULL or the stored quantity, which is then positive and whole; and it
      is given exactly for the rows that are vouched for and whose quantity is positive and whole. */
  lemma ConfirmedQuantityMeans(m: Lot)
    ensures Eval(CONFIRMED_QUANTITY_SQL, AsRow(m))
      == if Vouched(m) && WholePositive(m.quantity) then Num(m.quantity.value) else Null
  {
    var row := AsRow(m);
    var unconfirmed := CONFIRMED_QUANTITY_SQL.no;
    QuantityIfWhole(m);
    ProvenanceCondition(m, CONFIRMED_PROVENANCES);
    ProvenanceCondition(m, UNCONFIRMED_PROVENANCES);
    FixtureBranch(m);
    assert Eval(unconfirmed, row) == if Keeps(unconfirmed.cond, row) then Null else Eval(unconfirmed.no, row);
  }

  function ConfirmedPieces(m: Lot): Option<real> {
    var v := Eval(CONFIRMED_QUANTITY_SQL, AsRow(m));
    if v.Num? then Some(v.n) else None
  }

  // ----- Review -----

  const NEEDS_REVIEW_SQL: Expr<Column> :=
    Or(Or(IsNull(CONFIRMED_QUANTITY_SQL), IsNull(Col(ClassificationState))), Ne(Col(ClassificationState), Lit(Text("CLASSIFIED"))))

  function NeedsReview(confirmedPieces: Option<real>, classificationState: Option<string>): bool {
    confirmedPieces.None? || classificationState != Some("CLASSIFIED")
  }

  /** The SQL review flag is the TypeScript one fed with the confirmed quantity, on every row. */
  lemma NeedsReviewAgrees(m: Lot)
    ensures Eval(NEEDS_REVIEW_SQL, AsRow(m)) == Bool(NeedsReview(ConfirmedPieces(m), m.classificationState))
  {
    var row := AsRow(m);
    var state := Col(ClassificationState);
    ConfirmedQuantityMeans(m);
    assert Eval(state, row) == TextValue(m.classificationState);
    assert Eval(IsNull(CONFIRMED_QUANTITY_SQL), row) == Bool(ConfirmedPieces(m).None?);
    assert Eval(Or(IsNull(CONFIRMED_QUANTITY_SQL), IsNull(state)), row)
      == Bool(ConfirmedPieces(m).None? || m.classificationState.None?);
    assert Eval(Ne(state, Lit(Text("CLASSIFIED"))), row)
      == if m.classificationState.None? then Null else Bool(m.classificationState.value != "CLASSIFIED");
  }
}
