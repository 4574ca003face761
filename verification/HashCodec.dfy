/** The navigation hash: its printer, its parser, and the round trip between them. */
module HashCodec {
  import opened Prelude
  import opened ViewAliases
  import opened FormUrlEncoded
  import Utf8

  const INVENTORY_BUCKETS: seq<string> := [
    "PHYSICAL_AVAILABLE_POLISHED", "RESERVED_POLISHED", "MEMO_POLISHED", "MANUFACTURING_WIP",
    "ROUGH_AVAILABLE", "HELD_OR_EXCLUDED", "REVIEW_REQUIRED"]

  predicate IsInventoryBucket(s: string) { s in INVENTORY_BUCKETS }

  datatype Trace = Trace(runId: Option<string>, category: Option<string>, bucket: Option<string>, malformed: bool)

  const MAX_RUN_ID_LENGTH := 64
  const MAX_CATEGORY_LENGTH := 200
  const MAX_BUCKET_LENGTH := 40

  // ----- Reading parameters -----

  datatype Param = Param(value: Option<string>, malformed: bool)

  function CheckedValue(raw: Option<string>, maxLength: nat): Param {
    match raw
    case None => Param(None, false)
    case Some(s) => if s == "" || Utf8.Utf16Length(s) > maxLength then Param(None, true) else Param(raw, false)
  }

  /** A bucket outside the vocabulary is dropped and marks the trace. */
  function CheckedBucket(raw: Option<string>): Param {
    var named := CheckedValue(raw, MAX_BUCKET_LENGTH);
    if named.value.Some? && !IsInventoryBucket(named.value.value) then Param(None, true) else named
  }

  function CheckedTrace(rawRunId: Option<string>, rawCategory: Option<string>, rawBucket: Option<string>): Option<Trace> {
    var runId := CheckedValue(rawRunId, MAX_RUN_ID_LENGTH);
    var category := CheckedValue(rawCategory, MAX_CATEGORY_LENGTH);
    var bucket := CheckedBucket(rawBucket);
    var malformed := runId.malformed || category.malformed || bucket.malformed;
    if runId.value.None? && category.value.None? && bucket.value.None? && !malformed then None
    else Some(Trace(runId.value, category.value, bucket.value, malformed))
  }

  function ReadTraceContext(params: seq<Pair>): Option<Trace> {
    CheckedTrace(Get(params, "runId"), Get(params, "category"), Get(params, "bucket"))
  }

  function RunIdOf(trace: Option<Trace>): Option<string> { if trace.None? then None else trace.value.runId }

  function CategoryOf(trace: Option<Trace>): Option<string> { if trace.None? then None else trace.value.category }

  function BucketOf(trace: Option<Trace>): Option<string> { if trace.None? then None else trace.value.bucket }

  /** What the parser accepts as the value of a trace parameter. */
  predicate Acceptable(name: string, value: string) {
    value != ""
    && (name == "runId" ==> Utf8.Utf16Length(value) <= 64)
    && (name == "category" ==> Utf8.Utf16Length(value) <= 200)
    && (name == "bucket" ==> Utf8.Utf16Length(value) <= 40 && IsInventoryBucket(value))
  }

  function Accepted(params: seq<Pair>, name: string): Option<string> {
    var raw := Get(params, name);
    if raw.Some? && Acceptable(name, raw.value) then raw else None
  }

  predicate Refused(params: seq<Pair>, name: string) {
    Get(params, name).Some? && !Acceptable(name, Get(params, name).value)
  }

  /** The trace of a query: each parameter that is acceptable is read as it is, the others are dropped; there is a
      trace when any parameter is given, and it is marked malformed exactly when one of them was refused. */
  lemma TraceOfQuery(params: seq<Pair>)
    ensures
      var trace := ReadTraceContext(params);
      && RunIdOf(trace) == Accepted(params, "runId") && CategoryOf(trace) == Accepted(params, "category")
      && BucketOf(trace) == Accepted(params, "bucket")
      && (trace.Some? <==> Get(params, "runId").Some? || Get(params, "category").Some? || Get(params, "bucket").Some?)
      && (trace.Some? ==>
            (trace.value.malformed <==> Refused(params, "runId") || Refused(params, "category") || Refused(params, "bucket")))
  {
  }

  // ----- Printer -----

  /** Template-literal conversion of a view. */
  function Shown(v: Js): string {
    match v
    case Undefined => "undefined"
    case Null => "null"
    case Text(s) => s
  }

  function SetIfPresent(params: seq<Pair>, name: string, value: Option<string>): seq<Pair> {
    if value.Some? && value.value != "" then Set(params, name, value.value) else params
  }

  function NavParams(tab: Js, trace: Option<Trace>): seq<Pair> {
    var withTab := SetIfPresent([], "tab", if Truthy(tab) then Some(tab.s) else None);
    var withRun := SetIfPresent(withTab, "runId", RunIdOf(trace));
    var withCategory := SetIfPresent(withRun, "category", CategoryOf(trace));
    SetIfPresent(withCategory, "bucket", BucketOf(trace))
  }

  function HashText(view: string, query: string): string {
    if query != "" then "#" + view + "?" + query else "#" + view
  }

  function NavHashText(view: Js, tab: Js, trace: Option<Trace>): string {
    HashText(Shown(view), Serialize(NavParams(tab, trace)))
  }

  /** navHash, filling its parameter list step by step. */
  method NavHash(view: Js, tab: Js, trace: Option<Trace>) returns (hash: string)
    ensures hash == NavHashText(view, tab, trace)
  {
    var params: seq<Pair> := [];
    if Truthy(tab) {
      params := Set(params, "tab", tab.s);
    }
    ghost var withTab := SetIfPresent([], "tab", if Truthy(tab) then Some(tab.s) else None);
    assert params == withTab;
    if trace.Some? && trace.value.runId.Some? && trace.value.runId.value != "" {
      params := Set(params, "runId", trace.value.runId.value);
    }
    ghost var withRun := SetIfPresent(withTab, "runId", RunIdOf(trace));
    assert params == withRun;
    if trace.Some? && trace.value.category.Some? && trace.value.category.value != "" {
      params := Set(params, "category", trace.value.category.value);
    }
    ghost var withCategory := SetIfPresent(withRun, "category", CategoryOf(trace));
    assert params == withCategory;
    if trace.Some? && trace.value.bucket.Some? && trace.value.bucket.value != "" {
      params := Set(params, "bucket", trace.value.bucket.value);
    }
    assert params == NavParams(tab, trace);
    var query := Serialize(params);
    hash := if query != "" then "#" + Shown(view) + "?" + query else "#" + Shown(view);
  }

  // ----- Parser -----

  datatype Parsed = Parsed(view: Js, tab: Js, trace: Option<Trace>, aliased: bool)

  function TabParam(raw: Option<string>): Js {
    if raw.Some? && raw.value != "" then Text(raw.value) else Null
  }

  /** The view part and the query part of a hash. */
  function HashParts(rawHash: string): (string, string) {
    var h := if rawHash != "" && rawHash[0] == '#' then rawHash[1..] else rawHash;
    var queryStart := IndexOf(h, '?');
    (h[..queryStart], if queryStart == |h| then "" else h[queryStart + 1..])
  }

  /** What a view id is to the parser: not empty and without the query separator. */
  predicate PlainView(v: string) { v != "" && '?' !in v }

  lemma HashPartsArePlain(rawHash: string)
    ensures HashParts(rawHash).0 == "" || PlainView(HashParts(rawHash).0)
  {
  }

  function ParseNavHash(rawHash: string): Option<Parsed> {
    var (viewPart, query) := HashParts(rawHash);
    if viewPart == "" then None else
      var params := Parse(query);
      var resolved := ResolveViewAlias(viewPart, TabParam(Get(params, "tab")));
      Some(Parsed(resolved.view, resolved.tab, ReadTraceContext(params), Text(viewPart) != resolved.view))
  }

  /** The hash of a view with a tab that needs no escape. */
  lemma PlainTabHash(view: string, tab: string)
    requires IsPlain(tab) && tab != ""
    ensures NavHashText(Text(view), Text(tab), None) == "#" + view + "?" + ("tab" + "=" + tab)
  {
    var params := NavParams(Text(tab), None);
    assert params == [Pair("tab", tab)];
    assert IsPlain("tab");
    SerializePlainPair("tab", tab);
  }

  /** The leading '#' makes no difference. */
  lemma HashMarkIsOptional(hash: string)
    requires hash != "" && hash[0] != '#'
    ensures ParseNavHash("#" + hash) == ParseNavHash(hash)
  {
    assert ("#" + hash)[1..] == hash;
  }

  // ----- Round trip -----

  function Kept(value: Option<string>): Option<string> {
    if value == Some("") then None else value
  }

  lemma GetAfterSetIfPresent(params: seq<Pair>, name: string, value: Option<string>, other: string)
    requires Get(params, name).None?
    ensures Get(SetIfPresent(params, name, value), other) == if other == name then Kept(value) else Get(params, other)
  {
    if value.Some? && value.value != "" {
      GetAfterSet(params, name, value.value, other);
    }
  }

  lemma NavParamsGet(tab: Js, trace: Option<Trace>, name: string)
    ensures Get(NavParams(tab, trace), name) ==
      if name == "bucket" then Kept(BucketOf(trace))
      else if name == "category" then Kept(CategoryOf(trace))
      else if name == "runId" then Kept(RunIdOf(trace))
      else if name == "tab" && Truthy(tab) then Some(tab.s)
      else None
  {
    var tabValue := if Truthy(tab) then Some(tab.s) else None;
    var withTab := SetIfPresent([], "tab", tabValue);
    var withRun := SetIfPresent(withTab, "runId", RunIdOf(trace));
    var withCategory := SetIfPresent(withRun, "category", CategoryOf(trace));
    GetAfterSetIfPresent([], "tab", tabValue, "runId");
    GetAfterSetIfPresent([], "tab", tabValue, "category");
    GetAfterSetIfPresent([], "tab", tabValue, "bucket");
    GetAfterSetIfPresent([], "tab", tabValue, name);
    GetAfterSetIfPresent(withTab, "runId", RunIdOf(trace), "category");
    GetAfterSetIfPresent(withTab, "runId", RunIdOf(trace), "bucket");
    GetAfterSetIfPresent(withTab, "runId", RunIdOf(trace), name);
    GetAfterSetIfPresent(withRun, "category", CategoryOf(trace), "bucket");
    GetAfterSetIfPresent(withRun, "category", CategoryOf(trace), name);
    GetAfterSetIfPresent(withCategory, "bucket", BucketOf(trace), name);
  }

  /** Every field is found again under its own name; empty ones were never written. */
  lemma NavParamsReadBack(tab: Js, trace: Option<Trace>)
    ensures TabParam(Get(NavParams(tab, trace), "tab")) == if Truthy(tab) then tab else Null
    ensures Get(NavParams(tab, trace), "runId") == Kept(RunIdOf(trace))
    ensures Get(NavParams(tab, trace), "category") == Kept(CategoryOf(trace))
    ensures Get(NavParams(tab, trace), "bucket") == Kept(BucketOf(trace))
  {
    NavParamsGet(tab, trace, "tab");
    NavParamsGet(tab, trace, "runId");
    NavParamsGet(tab, trace, "category");
    NavParamsGet(tab, trace, "bucket");
  }

  /** The trace a written hash is read back as. */
  function ReadBack(trace: Option<Trace>): Option<Trace> {
    CheckedTrace(Kept(RunIdOf(trace)), Kept(CategoryOf(trace)), Kept(BucketOf(trace)))
  }

  lemma PrintedHashParts(v: string, query: string)
    requires PlainView(v)
    ensures HashParts(HashText(v, query)) == (v, query)
  {
    IndexOfIsFirst(v, '?', |v|);
    assert ("#" + v)[1..] == v && v[..|v|] == v;
    var h := v + "?" + query;
    assert ("#" + v + "?" + query)[1..] == h;
    assert h[..|v|] == v && h[|v| + 1..] == query;
    IndexOfIsFirst(h, '?', |v|);
  }

  lemma PrintedHashSplits(v: string, tab: Js, trace: Option<Trace>)
    requires PlainView(v)
    ensures HashParts(NavHashText(Text(v), tab, trace)) == (v, Serialize(NavParams(tab, trace)))
  {
    PrintedHashParts(v, Serialize(NavParams(tab, trace)));
  }

  /** Parsing a printed hash, for any plain view, any tab and any trace: the view and the tab are
      resolved through the alias table and the trace is checked. */
  lemma ParsePrinted(v: string, tab: Js, trace: Option<Trace>)
    requires PlainView(v)
    ensures
      var resolved := ResolveViewAlias(v, if Truthy(tab) then tab else Null);
      ParseNavHash(NavHashText(Text(v), tab, trace))
      == Some(Parsed(resolved.view, resolved.tab, ReadBack(trace), Text(v) != resolved.view))
  {
    PrintedHashSplits(v, tab, trace);
    ParseSerialize(NavParams(tab, trace));
    NavParamsReadBack(tab, trace);
  }

  predicate Fits(value: Option<string>, maxLength: nat) {
    value.Some? ==> value.value != "" && Utf8.Utf16Length(value.value) <= maxLength
  }

  /** A trace every field of which is null or a value the parser accepts. */
  predicate Readable(trace: Option<Trace>) {
    trace.Some? ==>
      && Fits(trace.value.runId, MAX_RUN_ID_LENGTH)
      && Fits(trace.value.category, MAX_CATEGORY_LENGTH)
      && (trace.value.bucket.Some? ==> IsInventoryBucket(trace.value.bucket.value))
  }

  lemma BucketNamesAreAscii(bucket: string)
    requires IsInventoryBucket(bucket)
    ensures 1 <= |bucket| <= MAX_BUCKET_LENGTH
    ensures forall i :: 0 <= i < |bucket| ==> bucket[i] <= '_'
  {
  }

  lemma {:induction false} AsciiLength(s: string)
    ensures Utf8.Utf16Length(s) <= 2 * |s|
    ensures (forall i :: 0 <= i < |s| ==> s[i] <= '_') ==> Utf8.Utf16Length(s) == |s|
  {
    if s != "" {
      AsciiLength(s[1..]);
    }
  }

  lemma BucketNamesAreReadable(bucket: string)
    requires IsInventoryBucket(bucket)
    ensures bucket != "" && Utf8.Utf16Length(bucket) <= MAX_BUCKET_LENGTH
  {
    BucketNamesAreAscii(bucket);
    AsciiLength(bucket);
  }

  /** The three values of a trace; a trace with none of them is as good as no trace. */
  function TraceValues(trace: Option<Trace>): (Option<string>, Option<string>, Option<string>) {
    (RunIdOf(trace), CategoryOf(trace), BucketOf(trace))
  }

  lemma CheckedValueKeeps(value: Option<string>, maxLength: nat)
    ensures
      var p := CheckedValue(Kept(value), maxLength);
      (p.value == value <==> Fits(value, maxLength))
      && (p.value == value ==> !p.malformed)
  {
  }

  lemma CheckedBucketKeeps(bucket: Option<string>)
    ensures
      var p := CheckedBucket(Kept(bucket));
      (p.value == bucket <==> (bucket.Some? ==> IsInventoryBucket(bucket.value))) && (p.value == bucket ==> !p.malformed)
  {
    CheckedValueKeeps(bucket, MAX_BUCKET_LENGTH);
    if bucket.Some? && IsInventoryBucket(bucket.value) {
      BucketNamesAreReadable(bucket.value);
    }
  }

  /** A trace is read back with exactly its values if and only if it is readable. */
  lemma ReadBackKeepsValues(trace: Option<Trace>)
    ensures Readable(trace) <==> TraceValues(ReadBack(trace)) == TraceValues(trace)
    ensures Readable(trace) && ReadBack(trace).Some? ==> !ReadBack(trace).value.malformed
  {
    var runId, category, bucket := RunIdOf(trace), CategoryOf(trace), BucketOf(trace);
    CheckedValueKeeps(runId, MAX_RUN_ID_LENGTH);
    CheckedValueKeeps(category, MAX_CATEGORY_LENGTH);
    CheckedBucketKeeps(bucket);
  }

  function NormalTrace(trace: Option<Trace>): Option<Trace> {
    if TraceValues(trace) == (None, None, None) then None else Some(trace.value.(malformed := false))
  }

  lemma CanonicalRoundTrip(v: string, tab: Js, trace: Option<Trace>)
    requires PlainView(v) && LegacyAlias(v).None?
    ensures ParseNavHash(NavHashText(Text(v), tab, trace)) == Some(Parsed(Text(v), tab, NormalTrace(trace), false))
      <==> (tab == Null || Truthy(tab)) && Readable(trace)
  {
    ParsePrinted(v, tab, trace);
    ReadBackKeepsValues(trace);
  }

  lemma AliasIsReported(v: string, tab: Js, trace: Option<Trace>)
    requires PlainView(v) && LegacyAlias(v).Some?
    ensures ParseNavHash(NavHashText(Text(v), tab, trace)).Some?
    ensures ParseNavHash(NavHashText(Text(v), tab, trace)).value.aliased
  {
    var shown := if Truthy(tab) then tab else Null;
    ParsePrinted(v, tab, trace);
    AliasResolvesElsewhere(v, shown);
  }

  /** The round trip of the printer: the parser returns exactly what was printed, and reports no
      alias, if and only if the view is canonical, the tab is null or not empty, and every value of
      the trace is within the limits. Bytes such as '&', '=', '+', '%', '#' and '?' make no difference. */
  lemma PrintParseRoundTrip(v: string, tab: Js, trace: Option<Trace>)
    requires PlainView(v)
    ensures ParseNavHash(NavHashText(Text(v), tab, trace)) == Some(Parsed(Text(v), tab, NormalTrace(trace), false))
      <==> LegacyAlias(v).None? && (tab == Null || Truthy(tab)) && Readable(trace)
  {
    if LegacyAlias(v).None? {
      CanonicalRoundTrip(v, tab, trace);
    } else {
      AliasIsReported(v, tab, trace);
    }
  }
}
