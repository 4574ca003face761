/** A fragment of SQL expressions and its evaluation under three-valued logic, over rows
    that give each column of `C` a value. */
module SqlLogic {
  import opened Prelude

  datatype Value = Null | Text(s: string) | Num(n: real) | Bool(b: bool)

  datatype Expr<C> =
    | Col(name: C)
    | Lit(v: Value)
    | Eq(l: Expr<C>, r: Expr<C>)
    | Ne(l: Expr<C>, r: Expr<C>)
    | Gt(l: Expr<C>, r: Expr<C>)
    | IsNull(e: Expr<C>)
    | IsNotNull(e: Expr<C>)
    | In(e: Expr<C>, items: seq<string>)
    | NotIn(e: Expr<C>, items: seq<string>)
    | And(l: Expr<C>, r: Expr<C>)
    | Or(l: Expr<C>, r: Expr<C>)
    | Trunc(e: Expr<C>)
    | When(cond: Expr<C>, yes: Expr<C>, no: Expr<C>)

  function TruncReal(x: real): real {
    if x >= 0.0 then x.Floor as real else -((-x).Floor as real)
  }

  function NotSql(v: Value): Value { if v.Bool? then Bool(!v.b) else Null }

  function AndSql(a: Value, b: Value): Value {
    if a == Bool(false) || b == Bool(false) then Bool(false)
    else if a == Bool(true) && b == Bool(true) then Bool(true)
    else Null
  }

  function OrSql(a: Value, b: Value): Value {
    if a == Bool(true) || b == Bool(true) then Bool(true)
    else if a == Bool(false) && b == Bool(false) then Bool(false)
    else Null
  }

  function EqSql(a: Value, b: Value): Value {
    if a.Null? || b.Null? then Null else Bool(a == b)
  }

  function GtSql(a: Value, b: Value): Value {
    if a.Num? && b.Num? then Bool(a.n > b.n) else Null
  }

  function InSql(v: Value, items: seq<string>): Value {
    if v.Null? then Null else Bool(v.Text? && v.s in items)
  }

  /** Comparisons with NULL are NULL, a NULL condition selects the ELSE branch, and IS NULL alone can
      turn NULL into a truth value. */
  function Eval<C>(e: Expr<C>, row: C -> Value): Value {
    match e
    case Col(name) => row(name)
    case Lit(v) => v
    case Eq(l, r) => EqSql(Eval(l, row), Eval(r, row))
    case Ne(l, r) => NotSql(EqSql(Eval(l, row), Eval(r, row)))
    case Gt(l, r) => GtSql(Eval(l, row), Eval(r, row))
    case IsNull(x) => Bool(Eval(x, row).Null?)
    case IsNotNull(x) => Bool(!Eval(x, row).Null?)
    case In(x, items) => InSql(Eval(x, row), items)
    case NotIn(x, items) => NotSql(InSql(Eval(x, row), items))
    case And(l, r) => AndSql(Eval(l, row), Eval(r, row))
    case Or(l, r) => OrSql(Eval(l, row), Eval(r, row))
    case Trunc(x) => var v := Eval(x, row); if v.Num? then Num(TruncReal(v.n)) else Null
    case When(cond, yes, no) => if Eval(cond, row) == Bool(true) then Eval(yes, row) else Eval(no, row)
  }

  /** A WHERE clause keeps a row only when its condition is TRUE, not when it is NULL. */
  predicate Keeps<C>(cond: Expr<C>, row: C -> Value) { Eval(cond, row) == Bool(true) }
}
