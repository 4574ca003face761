/** The CSV printer, its formula guard, and the RFC 4180 reader that gets the table back. */
module CsvExport {
  import opened Prelude

  /** What a cell callback can return. A finite number is known by its text. */
  datatype JsValue =
    | Undefined
    | Null
    | Bool(b: bool)
    | Number(text: NumberText)
    | NonFinite
    | Str(s: string)
    | DateValue(iso: string)
    | Other

  /** The characters of the text of a finite number. */
  predicate NumberChar(c: char) { '0' <= c <= '9' || c == '+' || c == '-' || c == '.' || c == 'e' }

  type NumberText = s: string | s != "" && forall i :: 0 <= i < |s| ==> NumberChar(s[i]) witness "0"

  predicate IsPrimitive(v: JsValue) { v.Str? || v.Number? || v.NonFinite? || v.Bool? }

  predicate IsExportable(v: JsValue) { IsPrimitive(v) || v.Null? || v.Undefined? }

  datatype Column<!T> = Column(
    header: string,
    cell: Option<T -> JsValue>,
    sortValue: Option<T -> JsValue>,
    exportValue: Option<T -> JsValue>,
    field: T -> JsValue)

  /** columnExportValue. An explicit exportValue is final; otherwise the first primitive among the
      rendered cell, the field (a date as its ISO text) and the sort value. */
  function ColumnExportValue<T>(col: Column<T>, row: T): (v: JsValue)
    requires col.exportValue.Some? ==> IsExportable(col.exportValue.value(row))
    ensures IsPrimitive(v) || v.Null?
  {
    if col.exportValue.Some? then
      var v := col.exportValue.value(row);
      if v.Undefined? then Null else v
    else if col.cell.Some? && IsPrimitive(col.cell.value(row)) then col.cell.value(row)
    else if IsPrimitive(col.field(row)) then col.field(row)
    else if col.field(row).DateValue? then Str(col.field(row).iso)
    else if col.sortValue.Some? && IsPrimitive(col.sortValue.value(row)) then col.sortValue.value(row)
    else Null
  }

  function Asked<T>(callback: Option<T -> JsValue>, row: T): seq<JsValue> {
    if callback.Some? then [callback.value(row)] else []
  }

  /** What a column without an explicit export value can export, in order of preference. */
  function Candidates<T>(col: Column<T>, row: T): seq<JsValue> {
    var field := col.field(row);
    Asked(col.cell, row) + [if field.DateValue? then Str(field.iso) else field] + Asked(col.sortValue, row)
  }

  /** The value of a column: its explicit export value, undefined counting as null; and without one, the
      first primitive among the candidates, or null when none of them is one. */
  lemma ExportsFirstPrimitive<T>(col: Column<T>, row: T)
    requires col.exportValue.Some? ==> IsExportable(col.exportValue.value(row))
    ensures
      var v, among := ColumnExportValue(col, row), Candidates(col, row);
      if col.exportValue.Some? then v == col.exportValue.value(row) || (v.Null? && col.exportValue.value(row).Undefined?)
      else if v.Null? then forall i :: 0 <= i < |among| ==> !IsPrimitive(among[i])
      else exists i :: 0 <= i < |among| && v == among[i] && IsPrimitive(v) && forall j :: 0 <= j < i ==> !IsPrimitive(among[j])
  {
    var v, among := ColumnExportValue(col, row), Candidates(col, row);
    if col.exportValue.None? && !v.Null? {
      var cells := |Asked(col.cell, row)|;
      var i := if cells > 0 && IsPrimitive(among[0]) then 0 else if IsPrimitive(among[cells]) then cells else cells + 1;
      assert v == among[i];
    }
  }

  // ----- The guard against formulas -----

  predicate IsDigit(c: char) { '0' <= c <= '9' }

  function LeadingDigits(s: string): (n: nat)
    ensures n <= |s|
  {
    if s != "" && IsDigit(s[0]) then 1 + LeadingDigits(s[1..]) else 0
  }

  function Unsigned(s: string): string { if s != "" && s[0] == '-' then s[1..] else s }

  /** \d+(\.\d+)? */
  predicate PlainUnsigned(t: string) {
    var n := LeadingDigits(t);
    n > 0 && (n == |t| || (t[n] == '.' && n + 1 < |t| && LeadingDigits(t[n + 1..]) == |t| - n - 1))
  }

  /** /^-?\d+(\.\d+)?$/ */
  predicate PlainNumber(s: string) { PlainUnsigned(Unsigned(s)) }

  predicate AllDigits(s: string) { forall i :: 0 <= i < |s| ==> IsDigit(s[i]) }

  /** What the pattern says: an optional minus, digits, and optionally a point and more digits. */
  predicate IsDecimal(s: string, sign: string, whole: string, part: string) {
    (sign == "" || sign == "-") && AllDigits(whole) && whole != ""
    && (s == sign + whole || (s == sign + whole + "." + part && AllDigits(part) && part != ""))
  }

  lemma {:induction false} LeadingDigitsStop(digits: string, rest: string)
    requires AllDigits(digits) && (rest != "" ==> !IsDigit(rest[0]))
    ensures LeadingDigits(digits + rest) == |digits|
  {
    if digits == "" {
      assert digits + rest == rest;
    } else {
      assert (digits + rest)[1..] == digits[1..] + rest;
      LeadingDigitsStop(digits[1..], rest);
    }
  }

  lemma {:induction false} LeadingDigitsAreDigits(s: string)
    ensures AllDigits(s[..LeadingDigits(s)])
  {
    if s != "" && IsDigit(s[0]) {
      LeadingDigitsAreDigits(s[1..]);
      assert s[..LeadingDigits(s)] == [s[0]] + s[1..][..LeadingDigits(s[1..])];
    }
  }

  predicate IsUnsignedDecimal(t: string, whole: string, part: string) {
    AllDigits(whole) && whole != "" && (t == whole || (t == whole + "." + part && AllDigits(part) && part != ""))
  }

  lemma PlainUnsignedSplits(t: string) returns (whole: string, part: string)
    requires PlainUnsigned(t)
    ensures IsUnsignedDecimal(t, whole, part)
  {
    var n := LeadingDigits(t);
    LeadingDigitsAreDigits(t);
    whole, part := t[..n], "";
    if n < |t| {
      part := t[n + 1..];
      LeadingDigitsAreDigits(part);
      assert part[..|part|] == part;
      assert t == whole + "." + part;
    }
  }

  lemma WholeIsPlain(whole: string)
    requires AllDigits(whole) && whole != ""
    ensures PlainUnsigned(whole)
  {
    LeadingDigitsStop(whole, "");
    assert whole + "" == whole;
  }

  lemma FractionIsPlain(whole: string, part: string)
    requires AllDigits(whole) && whole != "" && AllDigits(part) && part != ""
    ensures PlainUnsigned(whole + "." + part)
  {
    var t := whole + "." + part;
    LeadingDigitsStop(whole, "." + part);
    assert whole + ("." + part) == t;
    LeadingDigitsStop(part, "");
    assert part + "" == part && t[|whole| + 1..] == part;
  }

  lemma SignIsDropped(sign: string, t: string)
    requires (sign == "" || sign == "-") && t != "" && IsDigit(t[0])
    ensures Unsigned(sign + t) == t
  {
    assert sign == "" ==> sign + t == t;
    assert sign == "-" ==> (sign + t)[1..] == t;
  }

  lemma SignIsRestored(s: string) returns (sign: string)
    ensures (sign == "" || sign == "-") && s == sign + Unsigned(s)
  {
    sign := if s != "" && s[0] == '-' then "-" else "";
  }

  lemma SignedDecimal(sign: string, t: string, whole: string, part: string)
    requires (sign == "" || sign == "-") && IsUnsignedDecimal(t, whole, part)
    ensures IsDecimal(sign + t, sign, whole, part)
  {
    if t != whole {
      assert sign + (whole + "." + part) == sign + whole + "." + part;
    }
  }

  lemma PlainNumberIsDecimal(s: string) returns (sign: string, whole: string, part: string)
    requires PlainNumber(s)
    ensures IsDecimal(s, sign, whole, part)
  {
    sign := SignIsRestored(s);
    whole, part := PlainUnsignedSplits(Unsigned(s));
    SignedDecimal(sign, Unsigned(s), whole, part);
  }

  lemma DecimalIsPlainNumber(s: string, sign: string, whole: string, part: string)
    requires IsDecimal(s, sign, whole, part)
    ensures PlainNumber(s)
  {
    assert IsDigit(whole[0]);
    if s == sign + whole {
      WholeIsPlain(whole);
      SignIsDropped(sign, whole);
    } else {
      var t := whole + "." + part;
      FractionIsPlain(whole, part);
      SignIsDropped(sign, t);
      assert s == sign + t;
    }
  }

  /** The test accepts exactly the decimal texts. */
  lemma PlainNumberMeans(s: string)
    ensures PlainNumber(s) <==> exists sign, whole, part :: IsDecimal(s, sign, whole, part)
  {
    if PlainNumber(s) {
      var sign, whole, part := PlainNumberIsDecimal(s);
    }
    if sign, whole, part :| IsDecimal(s, sign, whole, part) {
      DecimalIsPlainNumber(s, sign, whole, part);
    }
  }

  /** JavaScript's \s. */
  predicate IsSpace(c: char) {
    var n := c as int;
    0x09 <= n <= 0x0D || n == 0x20 || n == 0xA0 || n == 0x1680 || 0x2000 <= n <= 0x200A
    || n == 0x2028 || n == 0x2029 || n == 0x202F || n == 0x205F || n == 0x3000 || n == 0xFEFF
  }

  predicate IsTrigger(c: char) { c in "=+-@\t\r" }

  /** /^[\s]*[=+\-@\t\r]/ */
  predicate FormulaTrigger(s: string) {
    s != "" && (IsTrigger(s[0]) || (IsSpace(s[0]) && FormulaTrigger(s[1..])))
  }

  function Guard(s: string): string {
    if !PlainNumber(s) && FormulaTrigger(s) then "'" + s else s
  }

  /** The trigger test finds exactly the texts with a trigger after white space only. */
  lemma {:induction false} FormulaTriggerMeans(s: string)
    ensures FormulaTrigger(s) <==>
      exists k :: 0 <= k < |s| && IsTrigger(s[k]) && forall j :: 0 <= j < k ==> IsSpace(s[j])
  {
    if s != "" {
      FormulaTriggerMeans(s[1..]);
      if FormulaTrigger(s) && !IsTrigger(s[0]) {
        var k :| 0 <= k < |s[1..]| && IsTrigger(s[1..][k]) && forall j :: 0 <= j < k ==> IsSpace(s[1..][j]);
        assert IsTrigger(s[k + 1]);
        forall j | 0 <= j < k + 1
          ensures IsSpace(s[j])
        {
          if j > 0 {
            assert s[j] == s[1..][j - 1];
          }
        }
      }
      if k :| 0 <= k < |s| && IsTrigger(s[k]) && forall j :: 0 <= j < k ==> IsSpace(s[j]) {
        if k > 0 {
          assert s[1..][k - 1] == s[k];
          assert forall j :: 0 <= j < k - 1 ==> s[1..][j] == s[j + 1];
        }
      }
    }
  }

  /** A guarded text starts (after white space) with a trigger only if it is a plain number; guarding
      twice is guarding once; and texts that need no guard are left alone. */
  lemma GuardIsSafe(s: string)
    ensures FormulaTrigger(Guard(s)) ==> PlainNumber(Guard(s))
    ensures Guard(Guard(s)) == Guard(s)
    ensures Guard(s) == s <==> PlainNumber(s) || !FormulaTrigger(s)
  {
    var guarded := "'" + s;
    assert guarded[0] == '\'' && |guarded| == |s| + 1;
    assert !FormulaTrigger(guarded);
  }

  /** A guarded text that starts like a formula holds only digits, at most one point, and a minus in front. */
  lemma GuardedTriggerIsHarmless(s: string)
    requires FormulaTrigger(Guard(s))
    ensures
      var g := Guard(s);
      && (forall i :: 0 <= i < |g| ==> IsDigit(g[i]) || g[i] == '.' || (i == 0 && g[i] == '-'))
      && (forall i, j :: 0 <= i < j < |g| ==> g[i] != '.' || g[j] != '.')
  {
    GuardIsSafe(s);
    var g := Guard(s);
    var sign, whole, part := PlainNumberIsDecimal(g);
    var n := |sign| + |whole|;
    forall i | 0 <= i < |g|
      ensures IsDigit(g[i]) || (i == n && g[i] == '.') || (i == 0 && g[i] == '-')
    {
      if |sign| <= i < n {
        assert g[i] == whole[i - |sign|];
      } else if i > n {
        assert g[i] == part[i - n - 1];
      }
    }
  }

  // ----- Cells and lines -----

  /** String(value) of the values that are quoted. */
  function Rendered(v: JsValue): string
    requires v.Str? || v.Bool?
  {
    match v
    case Str(s) => s
    case Bool(b) => if b then "true" else "false"
  }

  /** The text a reader is meant to see in the cell. */
  function CellText(v: JsValue): string
    requires IsExportable(v)
  {
    match v
    case Number(text) => text
    case Str(_) => Guard(Rendered(v))
    case Bool(_) => Guard(Rendered(v))
    case _ => ""
  }

  /** What a reader is meant to see: a number by its own text, a text guarded, a flag by its name (no flag needs the
      guard), and nothing for a missing value or a number that is not finite. */
  lemma CellTextMeans(v: JsValue)
    requires IsExportable(v)
    ensures v.Number? ==> CellText(v) == v.text
    ensures v.Str? ==> CellText(v) == Guard(v.s)
    ensures v.Bool? ==> CellText(v) == if v.b then "true" else "false"
    ensures v.Null? || v.Undefined? || v.NonFinite? ==> CellText(v) == ""
  {
    if v.Bool? {
      var name := if v.b then "true" else "false";
      assert name[0] == 't' || name[0] == 'f';
      assert !FormulaTrigger(name);
    }
  }

  function DoubleQuotes(s: string): string {
    if s == "" then "" else (if s[0] == '"' then "\"\"" else [s[0]]) + DoubleQuotes(s[1..])
  }

  function Quoted(s: string): string { "\"" + DoubleQuotes(s) + "\"" }

  function CellSource(v: JsValue): string
    requires IsExportable(v)
  {
    if v.Number? then v.text else Quoted(CellText(v))
  }

  method CsvSafeCell(value: JsValue) returns (cell: string)
    requires IsExportable(value)
    ensures cell == CellSource(value)
  {
    if value.Null? || value.Undefined? || value.NonFinite? {
      return "\"\"";
    }
    if value.Number? {
      return value.text;
    }
    var s := Rendered(value);
    if !PlainNumber(s) && FormulaTrigger(s) {
      s := "'" + s;
    }
    cell := "\"" + DoubleQuotes(s) + "\"";
  }

  type Row = r: seq<JsValue> | forall i :: 0 <= i < |r| ==> IsExportable(r[i])

  function Join(parts: seq<string>, separator: string): string {
    if parts == [] then ""
    else if |parts| == 1 then parts[0]
    else parts[0] + separator + Join(parts[1..], separator)
  }

  function Sources(row: Row): seq<string> {
    seq(|row|, i requires 0 <= i < |row| => CellSource(row[i]))
  }

  function Line(row: Row): string { Join(Sources(row), ",") }

  function Lines(grid: seq<Row>): seq<string> {
    seq(|grid|, i requires 0 <= i < |grid| => Line(grid[i]))
  }

  function HeaderRow<T>(columns: seq<Column<T>>): Row {
    seq(|columns|, i requires 0 <= i < |columns| => Str(columns[i].header))
  }

  predicate ExportsPrimitives<T>(columns: seq<Column<T>>, row: T) {
    forall i :: 0 <= i < |columns| ==> columns[i].exportValue.Some? ==> IsExportable(columns[i].exportValue.value(row))
  }

  function DataRow<T>(columns: seq<Column<T>>, row: T): Row
    requires ExportsPrimitives(columns, row)
  {
    seq(|columns|, i requires 0 <= i < |columns| => ColumnExportValue(columns[i], row))
  }

  function Grid<T>(columns: seq<Column<T>>, rows: seq<T>): seq<Row>
    requires forall k :: 0 <= k < |rows| ==> ExportsPrimitives(columns, rows[k])
  {
    [HeaderRow(columns)] + seq(|rows|, k requires 0 <= k < |rows| => DataRow(columns, rows[k]))
  }

  function CsvText(grid: seq<Row>): string {
    Join(Lines(grid), "\r\n")
  }

  lemma NextLine<T>(columns: seq<Column<T>>, rows: seq<T>, k: nat)
    requires forall i :: 0 <= i < |rows| ==> ExportsPrimitives(columns, rows[i])
    requires k < |rows|
    ensures |Lines(Grid(columns, rows))| == |rows| + 1
    ensures Lines(Grid(columns, rows))[k + 1] == Line(DataRow(columns, rows[k]))
  {
  }

  method ToCsv<T>(columns: seq<Column<T>>, rows: seq<T>) returns (text: string)
    requires forall k :: 0 <= k < |rows| ==> ExportsPrimitives(columns, rows[k])
    ensures text == CsvText(Grid(columns, rows))
  {
    ghost var all := Lines(Grid(columns, rows));
    var lines := [Line(HeaderRow(columns))];
    for k := 0 to |rows|
      invariant |all| == |rows| + 1 && lines == all[..k + 1]
    {
      NextLine(columns, rows, k);
      lines := lines + [Line(DataRow(columns, rows[k]))];
    }
    assert lines == all;
    text := Join(lines, "\r\n");
  }

  // ----- A reader for section 2 of RFC 4180 -----

  datatype Mode = FieldStart | Bare | InQuotes | QuoteSeen | CrSeen | Bad

  datatype Reader = Reader(mode: Mode, field: string, record: seq<string>, records: seq<seq<string>>)

  const NEW_READER := Reader(FieldStart, "", [], [])

  function EndField(r: Reader, mode: Mode): Reader {
    Reader(mode, "", r.record + [r.field], r.records)
  }

  function Append(r: Reader, c: char, mode: Mode): Reader {
    r.(mode := mode, field := r.field + [c])
  }

  /** The transition shared by every place where a field may end. */
  function Unquoted(r: Reader, c: char, otherwise: Reader): Reader {
    if c == ',' then EndField(r, FieldStart)
    else if c == '\r' then EndField(r, CrSeen)
    else if c == '\n' then r.(mode := Bad)
    else otherwise
  }

  function Step(r: Reader, c: char): Reader {
    match r.mode
    case FieldStart => if c == '"' then r.(mode := InQuotes) else Unquoted(r, c, Append(r, c, Bare))
    case Bare => if c == '"' then r.(mode := Bad) else Unquoted(r, c, Append(r, c, Bare))
    case InQuotes => if c == '"' then r.(mode := QuoteSeen) else Append(r, c, InQuotes)
    case QuoteSeen => if c == '"' then Append(r, c, InQuotes) else Unquoted(r, c, r.(mode := Bad))
    case CrSeen => if c == '\n' then Reader(FieldStart, "", [], r.records + [r.record]) else r.(mode := Bad)
    case Bad => r
  }

  function Read(r: Reader, s: string): Reader
    decreases |s|
  {
    if s == "" then r else Read(Step(r, s[0]), s[1..])
  }

  /** The last record may or may not be followed by a line break. */
  function Finish(r: Reader): Option<seq<seq<string>>> {
    if r.mode in {InQuotes, CrSeen, Bad} then None
    else if r.mode == FieldStart && r.record == [] then Some(r.records)
    else Some(r.records + [r.record + [r.field]])
  }

  function ReadCsv(s: string): Option<seq<seq<string>>> {
    Finish(Read(NEW_READER, s))
  }

  // ----- The reader undoes the printer -----

  lemma {:induction false} ReadConcat(r: Reader, a: string, b: string)
    ensures Read(r, a + b) == Read(Read(r, a), b)
    decreases |a|
  {
    if a == "" {
      assert a + b == b;
    } else {
      assert (a + b)[1..] == a[1..] + b;
      ReadConcat(Step(r, a[0]), a[1..], b);
    }
  }

  lemma {:induction false} ReadDoubled(r: Reader, s: string)
    requires r.mode == InQuotes
    ensures Read(r, DoubleQuotes(s)) == r.(field := r.field + s)
    decreases |s|
  {
    if s != "" {
      var head := if s[0] == '"' then "\"\"" else [s[0]];
      var next := r.(field := r.field + [s[0]]);
      ReadConcat(r, head, DoubleQuotes(s[1..]));
      if s[0] == '"' {
        assert head[1..] == "\"" && head[1..][1..] == "";
        assert Read(Step(r, '"'), head[1..]) == next;
      }
      assert Read(r, head) == next;
      ReadDoubled(next, s[1..]);
      assert r.field + [s[0]] + s[1..] == r.field + s;
    }
  }

  lemma ReadQuoted(r: Reader, s: string)
    requires r.mode == FieldStart && r.field == ""
    ensures Read(r, Quoted(s)) == r.(mode := QuoteSeen, field := s)
  {
    var inside := r.(mode := InQuotes);
    ReadConcat(r, "\"" + DoubleQuotes(s), "\"");
    ReadConcat(r, "\"", DoubleQuotes(s));
    assert Read(r, "\"") == inside;
    ReadDoubled(inside, s);
    assert "" + s == s;
    assert Read(inside.(field := s), "\"") == r.(mode := QuoteSeen, field := s);
  }

  lemma NumberCharIsBare(r: Reader, c: char)
    requires r.mode == FieldStart || r.mode == Bare
    requires NumberChar(c)
    ensures Step(r, c) == Append(r, c, Bare)
  {
  }

  lemma {:induction false} ReadBare(r: Reader, s: string)
    requires r.mode == FieldStart || r.mode == Bare
    requires s != "" && forall i :: 0 <= i < |s| ==> NumberChar(s[i])
    ensures Read(r, s) == r.(mode := Bare, field := r.field + s)
    decreases |s|
  {
    var next := Append(r, s[0], Bare);
    NumberCharIsBare(r, s[0]);
    if |s| > 1 {
      ReadBare(next, s[1..]);
      assert r.field + [s[0]] + s[1..] == r.field + s;
    } else {
      assert s == [s[0]];
    }
  }

  predicate FieldRead(r: Reader, before: Reader, text: string) {
    (r.mode == Bare || r.mode == QuoteSeen) && r == before.(mode := r.mode, field := text)
  }

  lemma ReadCell(r: Reader, v: JsValue)
    requires r.mode == FieldStart && r.field == "" && IsExportable(v)
    ensures FieldRead(Read(r, CellSource(v)), r, CellText(v))
  {
    if v.Number? {
      ReadBare(r, v.text);
      assert "" + v.text == v.text;
    } else {
      ReadQuoted(r, CellText(v));
    }
  }

  function Texts(row: Row): seq<string> {
    seq(|row|, i requires 0 <= i < |row| => CellText(row[i]))
  }

  lemma LineOfMany(row: Row)
    requires |row| > 1
    ensures var rest: Row := row[1..]; Line(row) == CellSource(row[0]) + "," + Line(rest)
  {
    var rest: Row := row[1..];
    assert Sources(row)[1..] == Sources(rest);
  }

  lemma TextsOfMany(row: Row)
    requires row != []
    ensures var rest: Row := row[1..]; Texts(row) == [CellText(row[0])] + Texts(rest)
  {
  }

  lemma ReadCellAndComma(r: Reader, v: JsValue)
    requires r.mode == FieldStart && r.field == "" && IsExportable(v)
    ensures Read(r, CellSource(v) + ",") == Reader(FieldStart, "", r.record + [CellText(v)], r.records)
  {
    ReadCell(r, v);
    ReadConcat(r, CellSource(v), ",");
    var open := Read(r, CellSource(v));
    assert ","[1..] == "" && Read(open, ",") == Step(open, ',');
  }

  lemma ReadFirstCell(r: Reader, row: Row)
    requires r.mode == FieldStart && r.field == "" && |row| > 1
    ensures var rest: Row := row[1..];
      Read(r, Line(row)) == Read(Reader(FieldStart, "", r.record + [CellText(row[0])], r.records), Line(rest))
  {
    var rest: Row := row[1..];
    LineOfMany(row);
    ReadConcat(r, CellSource(row[0]) + ",", Line(rest));
    ReadCellAndComma(r, row[0]);
  }

  predicate LineRead(after: Reader, before: Reader, texts: seq<string>) {
    (after.mode == Bare || after.mode == QuoteSeen) && after.records == before.records
    && after.record + [after.field] == before.record + texts
  }

  lemma ReadOneCell(r: Reader, row: Row)
    requires r.mode == FieldStart && r.field == "" && |row| == 1
    ensures LineRead(Read(r, Line(row)), r, Texts(row))
  {
    ReadCell(r, row[0]);
    assert Line(row) == CellSource(row[0]);
    assert Texts(row) == [CellText(row[0])];
  }

  /** Reading one line leaves the whole row in the reader, its last field still open. */
  lemma {:induction false} ReadLine(r: Reader, row: Row)
    requires r.mode == FieldStart && r.field == "" && row != []
    ensures LineRead(Read(r, Line(row)), r, Texts(row))
    decreases |row|
  {
    if |row| == 1 {
      ReadOneCell(r, row);
    } else {
      var rest: Row := row[1..];
      var next := Reader(FieldStart, "", r.record + [CellText(row[0])], r.records);
      ReadFirstCell(r, row);
      ReadLine(next, rest);
      TextsOfMany(row);
      assert next.record + Texts(rest) == r.record + Texts(row);
    }
  }

  function GridTexts(grid: seq<Row>): seq<seq<string>> {
    seq(|grid|, i requires 0 <= i < |grid| => Texts(grid[i]))
  }

  lemma TextOfManyLines(grid: seq<Row>)
    requires |grid| > 1
    ensures CsvText(grid) == Line(grid[0]) + "\r\n" + CsvText(grid[1..])
    ensures GridTexts(grid) == [Texts(grid[0])] + GridTexts(grid[1..])
  {
    assert Lines(grid)[1..] == Lines(grid[1..]);
  }

  lemma ReadLineBreak(r: Reader)
    requires r.mode == Bare || r.mode == QuoteSeen
    ensures Read(r, "\r\n") == Reader(FieldStart, "", [], r.records + [r.record + [r.field]])
  {
    assert "\r\n"[1..] == "\n" && "\n"[1..] == "";
    assert Read(Step(r, '\r'), "\n") == Step(Step(r, '\r'), '\n');
  }

  lemma ReadLineAndBreak(r: Reader, row: Row)
    requires r.mode == FieldStart && r.field == "" && r.record == [] && row != []
    ensures Read(r, Line(row) + "\r\n") == Reader(FieldStart, "", [], r.records + [Texts(row)])
  {
    ReadLine(r, row);
    assert [] + Texts(row) == Texts(row);
    ReadConcat(r, Line(row), "\r\n");
    ReadLineBreak(Read(r, Line(row)));
  }

  lemma ReadLastLine(r: Reader, row: Row)
    requires r.mode == FieldStart && r.field == "" && r.record == [] && row != []
    ensures Finish(Read(r, Line(row))) == Some(r.records + [Texts(row)])
  {
    ReadLine(r, row);
    assert [] + Texts(row) == Texts(row);
  }

  lemma ReadFirstLine(r: Reader, grid: seq<Row>)
    requires r.mode == FieldStart && r.field == "" && r.record == [] && |grid| > 1 && grid[0] != []
    ensures Read(r, CsvText(grid)) == Read(Reader(FieldStart, "", [], r.records + [Texts(grid[0])]), CsvText(grid[1..]))
  {
    TextOfManyLines(grid);
    ReadConcat(r, Line(grid[0]) + "\r\n", CsvText(grid[1..]));
    ReadLineAndBreak(r, grid[0]);
  }

  lemma {:induction false} ReadGrid(r: Reader, grid: seq<Row>)
    requires r.mode == FieldStart && r.field == "" && r.record == []
    requires grid != [] && forall i :: 0 <= i < |grid| ==> grid[i] != []
    ensures Finish(Read(r, CsvText(grid))) == Some(r.records + GridTexts(grid))
    decreases |grid|
  {
    if |grid| == 1 {
      ReadLastLine(r, grid[0]);
      assert GridTexts(grid) == [Texts(grid[0])] && CsvText(grid) == Line(grid[0]);
    } else {
      var next := Reader(FieldStart, "", [], r.records + [Texts(grid[0])]);
      ReadFirstLine(r, grid);
      ReadGrid(next, grid[1..]);
      TextOfManyLines(grid);
      assert next.records + GridTexts(grid[1..]) == r.records + GridTexts(grid);
    }
  }

  predicate HoldsNoEmptyRecord(r: Reader) {
    (r.mode == CrSeen ==> r.record != []) && forall i :: 0 <= i < |r.records| ==> r.records[i] != []
  }

  lemma {:induction false} ReadNoEmptyRecord(r: Reader, s: string)
    requires HoldsNoEmptyRecord(r)
    ensures HoldsNoEmptyRecord(Read(r, s))
    decreases |s|
  {
    if s != "" {
      ReadNoEmptyRecord(Step(r, s[0]), s[1..]);
    }
  }

  /** The round trip, for any rows whatever quotes, commas or line breaks their values hold: the reader
      returns the header and every row's guarded cell texts if and only if there is a column. (A table
      without columns prints empty lines, and a CSV line always holds at least one field.) */
  lemma CsvRoundTrip<T>(columns: seq<Column<T>>, rows: seq<T>)
    requires forall k :: 0 <= k < |rows| ==> ExportsPrimitives(columns, rows[k])
    ensures ReadCsv(CsvText(Grid(columns, rows))) == Some(GridTexts(Grid(columns, rows))) <==> columns != []
  {
    var grid := Grid(columns, rows);
    if columns != [] {
      ReadGrid(NEW_READER, grid);
      assert [] + GridTexts(grid) == GridTexts(grid);
    } else {
      ReadNoEmptyRecord(NEW_READER, CsvText(grid));
      assert GridTexts(grid)[0] == [];
    }
  }

  lemma HeaderTexts<T>(columns: seq<Column<T>>)
    ensures |Texts(HeaderRow(columns))| == |columns|
    ensures forall j :: 0 <= j < |columns| ==> Texts(HeaderRow(columns))[j] == Guard(columns[j].header)
  {
  }

  lemma DataTexts<T>(columns: seq<Column<T>>, row: T)
    requires ExportsPrimitives(columns, row)
    ensures |Texts(DataRow(columns, row))| == |columns|
    ensures forall j :: 0 <= j < |columns| ==> Texts(DataRow(columns, row))[j] == CellText(ColumnExportValue(columns[j], row))
  {
  }

  lemma GridTextsOfTable<T>(columns: seq<Column<T>>, rows: seq<T>)
    requires forall k :: 0 <= k < |rows| ==> ExportsPrimitives(columns, rows[k])
    ensures |GridTexts(Grid(columns, rows))| == |rows| + 1
    ensures GridTexts(Grid(columns, rows))[0] == Texts(HeaderRow(columns))
    ensures forall k :: 0 <= k < |rows| ==> GridTexts(Grid(columns, rows))[k + 1] == Texts(DataRow(columns, rows[k]))
  {
  }

  /** The table a reader gets back, cell by cell: the guarded headers, and below them the text of each value. */
  lemma ReaderSeesEveryCell<T>(columns: seq<Column<T>>, rows: seq<T>, table: seq<seq<string>>)
    requires forall k :: 0 <= k < |rows| ==> ExportsPrimitives(columns, rows[k])
    requires columns != [] && ReadCsv(CsvText(Grid(columns, rows))) == Some(table)
    ensures |table| == |rows| + 1 && forall i :: 0 <= i < |table| ==> |table[i]| == |columns|
    ensures forall j :: 0 <= j < |columns| ==> table[0][j] == Guard(columns[j].header)
    ensures forall k, j :: 0 <= k < |rows| && 0 <= j < |columns| ==>
      table[k + 1][j] == CellText(ColumnExportValue(columns[j], rows[k]))
  {
    CsvRoundTrip(columns, rows);
    GridTextsOfTable(columns, rows);
    HeaderTexts(columns);
    forall k | 0 <= k < |rows|
      ensures |table[k + 1]| == |columns|
      ensures forall j :: 0 <= j < |columns| ==> table[k + 1][j] == CellText(ColumnExportValue(columns[j], rows[k]))
    {
      DataTexts(columns, rows[k]);
    }
    forall i | 0 <= i < |table|
      ensures |table[i]| == |columns|
    {
      if i > 0 {
        DataTexts(columns, rows[i - 1]);
      }
    }
  }

  /** No text cell of an exported table is read as a formula. */
  lemma ExportedTextIsSafe(v: JsValue)
    requires IsExportable(v) && !v.Number?
    ensures FormulaTrigger(CellText(v)) ==> PlainNumber(CellText(v))
  {
    if v.Str? || v.Bool? {
      GuardIsSafe(Rendered(v));
    }
  }
}
