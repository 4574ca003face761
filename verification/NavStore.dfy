/** The navigation store: every action and every hash load, and the agreement they keep between the
    store and the URL. */
module NavStore {
  import opened Prelude
  import opened ViewAliases
  import opened HashCodec
  import Utf8
  import FormUrlEncoded

  type ViewId = v: string | PlainView(v) witness "dashboard"

  /** The store fields a hash determines, and the hash of the current URL. */
  datatype NavState = NavState(view: Js, tab: Js, trace: Option<Trace>, hash: string)

  datatype Step =
    | SetView(view: ViewId, tab: Option<string>)
    | SetTab(newTab: Option<string>)
    | OpenCategoryView(view: ViewId, runId: Option<string>, category: Option<string>, bucket: Option<string>)
    | SetTraceCategory(newCategory: string)
    | ClearTraceCategory
    | Load(newHash: string)

  function ToJs(v: Option<string>): Js { if v.Some? then Text(v.value) else Null }

  /** initNavFromHash. */
  function Init(s: NavState): NavState {
    var parsed := ParseNavHash(s.hash);
    if parsed.None? then s else
      var p := parsed.value;
      NavState(p.view, p.tab, p.trace, if p.aliased then NavHashText(p.view, p.tab, p.trace) else s.hash)
  }

  function Written(view: Js, tab: Js, trace: Option<Trace>): NavState {
    NavState(view, tab, trace, NavHashText(view, tab, trace))
  }

  function WithCategory(trace: Option<Trace>, category: string): Option<Trace> {
    Some(Trace(RunIdOf(trace), Some(category), BucketOf(trace), false))
  }

  function Present(v: Option<string>): bool { v.Some? && v.value != "" }

  function WithoutCategory(trace: Option<Trace>): Option<Trace> {
    if Present(RunIdOf(trace)) || Present(BucketOf(trace)) then Some(Trace(RunIdOf(trace), None, BucketOf(trace), false))
    else None
  }

  function AfterSetView(view: ViewId, tab: Js): NavState {
    var r := ResolveViewAlias(view, tab);
    Written(r.view, r.tab, None)
  }

  function AfterSetTab(s: NavState, tab: Js): NavState {
    if s.tab == tab then s else Written(s.view, tab, s.trace)
  }

  function AfterOpenCategoryView(view: ViewId, trace: Trace): NavState {
    var r := ResolveViewAlias(view, Null);
    Written(r.view, r.tab, Some(trace))
  }

  function AfterSetTraceCategory(s: NavState, category: string): NavState {
    if s.trace.Some? && s.trace.value.category == Some(category) && !s.trace.value.malformed then s
    else Written(s.view, s.tab, WithCategory(s.trace, category))
  }

  function AfterClearTraceCategory(s: NavState): NavState {
    Written(s.view, s.tab, WithoutCategory(s.trace))
  }

  function AfterLoad(s: NavState, hash: string): NavState { Init(s.(hash := hash)) }

  function Next(s: NavState, step: Step): NavState {
    match step
    case SetView(view, tab) => AfterSetView(view, ToJs(tab))
    case SetTab(tab) => AfterSetTab(s, ToJs(tab))
    case OpenCategoryView(view, runId, category, bucket) => AfterOpenCategoryView(view, Trace(runId, category, bucket, false))
    case SetTraceCategory(category) => AfterSetTraceCategory(s, category)
    case ClearTraceCategory => AfterClearTraceCategory(s)
    case Load(hash) => AfterLoad(s, hash)
  }

  // ----- The store as an object -----

  class Store {
    var view: Js
    var tab: Js
    var trace: Option<Trace>
    var hash: string

    function State(): NavState
      reads this
    {
      NavState(view, tab, trace, hash)
    }

    /** The page before its first initNavFromHash. */
    constructor (hash: string)
      ensures State() == NavState(Text("dashboard"), Null, None, hash)
    {
      view, tab, trace := Text("dashboard"), Null, None;
      this.hash := hash;
    }

    method SetView(rawView: ViewId, rawTab: Option<string>)
      modifies this
      ensures State() == AfterSetView(rawView, ToJs(rawTab))
    {
      var r := ResolveViewAlias(rawView, ToJs(rawTab));
      view, tab, trace := r.view, r.tab, None;
      hash := NavHash(view, tab, None);
    }

    method SetTab(newTab: Option<string>)
      modifies this
      ensures State() == AfterSetTab(old(State()), ToJs(newTab))
    {
      if tab == ToJs(newTab) {
        return;
      }
      tab := ToJs(newTab);
      hash := NavHash(view, tab, trace);
    }

    method OpenCategoryView(rawView: ViewId, runId: Option<string>, category: Option<string>, bucket: Option<string>)
      modifies this
      ensures State() == AfterOpenCategoryView(rawView, Trace(runId, category, bucket, false))
    {
      var r := ResolveViewAlias(rawView, Null);
      var context := Some(Trace(runId, category, bucket, false));
      view, tab, trace := r.view, r.tab, context;
      hash := NavHash(r.view, r.tab, context);
      assert State() == Written(r.view, r.tab, context);
    }

    method SetTraceCategory(category: string)
      modifies this
      ensures State() == AfterSetTraceCategory(old(State()), category)
    {
      if trace.Some? && trace.value.category == Some(category) && !trace.value.malformed {
        return;
      }
      var runId := if trace.Some? then trace.value.runId else None;
      var bucket := if trace.Some? then trace.value.bucket else None;
      trace := Some(Trace(runId, Some(category), bucket, false));
      hash := NavHash(view, tab, trace);
    }

    method ClearTraceCategory()
      modifies this
      ensures State() == AfterClearTraceCategory(old(State()))
    {
      var runId := if trace.Some? then trace.value.runId else None;
      var bucket := if trace.Some? then trace.value.bucket else None;
      trace := if Present(runId) || Present(bucket) then Some(Trace(runId, None, bucket, false)) else None;
      hash := NavHash(view, tab, trace);
    }

    method InitNavFromHash()
      modifies this
      ensures State() == Init(old(State()))
    {
      var parsed := ParseNavHash(hash);
      if parsed.None? {
        return;
      }
      var p := parsed.value;
      view, tab, trace := p.view, p.tab, p.trace;
      if p.aliased {
        hash := NavHash(p.view, p.tab, p.trace);
      }
    }

    /** The browser moves to another hash, which fires initNavFromHash. */
    method Load(newHash: string)
      modifies this
      ensures State() == AfterLoad(old(State()), newHash)
    {
      hash := newHash;
      InitNavFromHash();
    }
  }

  // ----- What each action changes and leaves alone -----

  /** setView ends on the resolved view and tab, drops the trace, and writes the URL of that state. */
  lemma SetViewEffect(s: NavState, view: ViewId, tab: Option<string>)
    ensures
      var n := Next(s, SetView(view, tab));
      && ViewTarget(n.view, n.tab) == ResolveViewAlias(view, ToJs(tab))
      && n.trace == None && n.hash == NavHashText(n.view, n.tab, None)
  {
  }

  /** setTab sets the tab and keeps view and trace; it writes the URL unless the tab was there already. */
  lemma SetTabEffect(s: NavState, tab: Option<string>)
    ensures
      var n := Next(s, SetTab(tab));
      && n.tab == ToJs(tab) && n.view == s.view && n.trace == s.trace
      && n.hash == if s.tab == ToJs(tab) then s.hash else NavHashText(s.view, ToJs(tab), s.trace)
  {
  }

  /** openCategoryView ends on the resolved view, with exactly the given trace, and writes its URL. */
  lemma OpenCategoryViewEffect(s: NavState, view: ViewId, runId: Option<string>, category: Option<string>, bucket: Option<string>)
    ensures
      var n := Next(s, OpenCategoryView(view, runId, category, bucket));
      && ViewTarget(n.view, n.tab) == ResolveViewAlias(view, Null)
      && n.trace.Some? && TraceValues(n.trace) == (runId, category, bucket) && !n.trace.value.malformed
      && n.hash == NavHashText(n.view, n.tab, n.trace)
  {
  }

  /** setTraceCategory sets the category, and keeps view, tab, run id and bucket; afterwards the trace is well
      formed, and the URL is written unless nothing changed. */
  lemma SetTraceCategoryEffect(s: NavState, category: string)
    ensures
      var n := Next(s, SetTraceCategory(category));
      && n.view == s.view && n.tab == s.tab
      && RunIdOf(n.trace) == RunIdOf(s.trace) && BucketOf(n.trace) == BucketOf(s.trace)
      && CategoryOf(n.trace) == Some(category) && !n.trace.value.malformed
      && n.hash == if n.trace == s.trace then s.hash else NavHashText(s.view, s.tab, n.trace)
  {
  }

  /** clearTraceCategory drops the category and keeps view, tab, run id and bucket; the trace goes when neither is
      left, and the URL is written. */
  lemma ClearTraceCategoryEffect(s: NavState)
    ensures
      var n := Next(s, ClearTraceCategory);
      && n.view == s.view && n.tab == s.tab && CategoryOf(n.trace) == None
      && Kept(RunIdOf(n.trace)) == Kept(RunIdOf(s.trace)) && Kept(BucketOf(n.trace)) == Kept(BucketOf(s.trace))
      && (n.trace.None? <==> Kept(RunIdOf(s.trace)).None? && Kept(BucketOf(s.trace)).None?)
      && (n.trace.Some? ==> !n.trace.value.malformed)
      && n.hash == NavHashText(s.view, s.tab, n.trace)
  {
  }

  /** Loading the hash of any current page opens that page, with its tab and its trace, and keeps the URL. */
  lemma LoadEffect(s: NavState, view: ViewId, tab: Js, trace: Option<Trace>)
    requires LegacyAlias(view).None? && (tab == Null || Truthy(tab)) && Readable(trace)
    ensures
      var n := AfterLoad(s, NavHashText(Text(view), tab, trace));
      && n.view == Text(view) && n.tab == tab && TraceValues(n.trace) == TraceValues(trace)
      && n.hash == NavHashText(Text(view), tab, trace)
  {
    PrintParseRoundTrip(view, tab, trace);
  }

  /** Loading a hash that names no view changes nothing but the URL. */
  lemma EmptyLoadEffect(s: NavState, hash: string)
    requires HashParts(hash).0 == ""
    ensures AfterLoad(s, hash) == s.(hash := hash)
  {
  }

  // ----- Agreement between store and URL -----

  /** Running initNavFromHash again changes neither view, tab, trace values nor URL. */
  predicate Stable(s: NavState) {
    var n := Init(s);
    n.view == s.view && n.tab == s.tab && TraceValues(n.trace) == TraceValues(s.trace) && n.hash == s.hash
  }

  predicate CanonicalView(view: Js) {
    view.Text? && PlainView(view.s) && LegacyAlias(view.s).None?
  }

  predicate WellFormed(s: NavState) {
    CanonicalView(s.view) && (s.tab == Null || Truthy(s.tab)) && Readable(s.trace)
  }

  predicate Inv(s: NavState) { WellFormed(s) && Stable(s) }

  /** The hash names no view, or its view and tab do not leave the alias table. */
  predicate LoadsInsideTable(hash: string) {
    var (viewPart, query) := HashParts(hash);
    viewPart == "" || !HitsInheritedKey(viewPart, TabParam(FormUrlEncoded.Get(FormUrlEncoded.Parse(query), "tab")))
  }

  /** What a caller can check before each step. Null values are always fine; a text must not be empty
      and must fit its limit; and no lookup may leave the alias table. */
  predicate Good(step: Step) {
    match step
    case SetView(view, tab) => !HitsInheritedKey(view, ToJs(tab)) && (tab == Some("") ==> LegacyAlias(view).Some?)
    case SetTab(tab) => tab != Some("")
    case OpenCategoryView(_, runId, category, bucket) => Readable(Some(Trace(runId, category, bucket, false)))
    case SetTraceCategory(category) => category != "" && Utf8.Utf16Length(category) <= MAX_CATEGORY_LENGTH
    case ClearTraceCategory => true
    case Load(hash) => LoadsInsideTable(hash)
  }

  /** What was written under a canonical view is stable if and only if it is well formed. */
  lemma WrittenIsStable(view: Js, tab: Js, trace: Option<Trace>)
    requires CanonicalView(view)
    ensures Stable(Written(view, tab, trace)) <==> WellFormed(Written(view, tab, trace))
  {
    ParsePrinted(view.s, tab, trace);
    ReadBackKeepsValues(trace);
  }

  /** An undefined view is written as "#undefined" and read back as that text. */
  lemma UndefinedViewIsUnstable(tab: Js, trace: Option<Trace>)
    ensures !Stable(Written(Undefined, tab, trace))
  {
    var shown := "undefined";
    assert '?' !in shown;
    assert NavHashText(Undefined, tab, trace) == NavHashText(Text(shown), tab, trace);
    ParsePrinted(shown, tab, trace);
    if LegacyAlias(shown).Some? {
      ResolvedViewIsCanonical(shown, if Truthy(tab) then tab else Null);
    }
  }

  lemma ResolvedIsCanonical(view: ViewId, tab: Js)
    requires tab != Undefined
    ensures
      var r := ResolveViewAlias(view, tab);
      if HitsInheritedKey(view, tab) then r.view == Undefined
      else CanonicalView(r.view) && ((r.tab == Null || Truthy(r.tab)) <==> (tab == Text("") ==> LegacyAlias(view).Some?))
  {
    if LegacyAlias(view).Some? {
      ResolvedViewIsCanonical(view, tab);
      if !HitsInheritedKey(view, tab) {
        HostIsPlain(ResolveViewAlias(view, tab).view.s);
      }
    }
  }

  /** Writing the resolution of a view keeps the invariant exactly when the lookup stayed inside the
      table, the tab is not an empty text, and the trace is readable. */
  lemma WrittenResolution(view: ViewId, tab: Js, trace: Option<Trace>)
    requires tab != Undefined
    ensures
      var r := ResolveViewAlias(view, tab);
      var good := !HitsInheritedKey(view, tab) && (tab == Text("") ==> LegacyAlias(view).Some?) && Readable(trace);
      (Stable(Written(r.view, r.tab, trace)) <==> good) && (good ==> WellFormed(Written(r.view, r.tab, trace)))
  {
    var r := ResolveViewAlias(view, tab);
    ResolvedIsCanonical(view, tab);
    if HitsInheritedKey(view, tab) {
      UndefinedViewIsUnstable(r.tab, trace);
    } else {
      WrittenIsStable(r.view, r.tab, trace);
    }
  }

  lemma ReadTraceIsReadable(raw1: Option<string>, raw2: Option<string>, raw3: Option<string>)
    ensures Readable(CheckedTrace(raw1, raw2, raw3))
  {
  }

  /** Loading a hash gives an undefined view exactly when its lookup leaves the alias table. */
  lemma LoadOutsideTableIsUndefined(hash: string)
    ensures LoadsInsideTable(hash) <==> (ParseNavHash(hash).Some? ==> ParseNavHash(hash).value.view != Undefined)
  {
    var (viewPart, query) := HashParts(hash);
    HashPartsArePlain(hash);
    if viewPart != "" {
      ResolvedIsCanonical(viewPart, TabParam(FormUrlEncoded.Get(FormUrlEncoded.Parse(query), "tab")));
    }
  }

  lemma ParsedIsWellFormed(hash: string)
    requires ParseNavHash(hash).Some? && ParseNavHash(hash).value.view != Undefined
    ensures
      var p := ParseNavHash(hash).value;
      CanonicalView(p.view) && (p.tab == Null || Truthy(p.tab)) && Readable(p.trace)
  {
    var (viewPart, query) := HashParts(hash);
    var params := FormUrlEncoded.Parse(query);
    var tab := TabParam(FormUrlEncoded.Get(params, "tab"));
    HashPartsArePlain(hash);
    ResolvedIsCanonical(viewPart, tab);
    ReadTraceIsReadable(FormUrlEncoded.Get(params, "runId"), FormUrlEncoded.Get(params, "category"),
                        FormUrlEncoded.Get(params, "bucket"));
  }

  /** Loading a hash leaves the URL alone when it names a current page, and otherwise rewrites it to one that does. */
  lemma LoadLeavesCanonicalUrl(s: NavState, hash: string)
    requires ParseNavHash(hash).Some? && LoadsInsideTable(hash)
    ensures
      var n := AfterLoad(s, hash);
      && ParseNavHash(n.hash).Some? && !ParseNavHash(n.hash).value.aliased
      && (n.hash == hash <==> !ParseNavHash(hash).value.aliased)
  {
    var p := ParseNavHash(hash).value;
    LoadOutsideTableIsUndefined(hash);
    ParsedIsWellFormed(hash);
    if p.aliased {
      ParsePrinted(p.view.s, p.tab, p.trace);
    }
  }

  lemma DirectLoad(s: NavState)
    requires ParseNavHash(s.hash).Some? && !ParseNavHash(s.hash).value.aliased
    ensures Inv(Init(s)) && ParseNavHash(s.hash).value.view != Undefined
  {
    ParsedIsWellFormed(s.hash);
  }

  lemma AliasedLoad(s: NavState)
    requires ParseNavHash(s.hash).Some? && ParseNavHash(s.hash).value.aliased
    ensures Inv(Init(s)) <==> ParseNavHash(s.hash).value.view != Undefined
    ensures Stable(Init(s)) <==> ParseNavHash(s.hash).value.view != Undefined
  {
    var p := ParseNavHash(s.hash).value;
    if p.view == Undefined {
      UndefinedViewIsUnstable(p.tab, p.trace);
    } else {
      ParsedIsWellFormed(s.hash);
      WrittenIsStable(p.view, p.tab, p.trace);
    }
  }

  lemma InitStep(s: NavState)
    requires WellFormed(s)
    ensures Stable(Init(s)) <==> LoadsInsideTable(s.hash)
    ensures LoadsInsideTable(s.hash) ==> Inv(Init(s))
  {
    LoadOutsideTableIsUndefined(s.hash);
    var parsed := ParseNavHash(s.hash);
    if parsed.None? {
      assert Init(s) == s;
    } else if parsed.value.aliased {
      AliasedLoad(s);
    } else {
      DirectLoad(s);
    }
  }

  lemma OpenStep(view: ViewId, trace: Trace)
    ensures Stable(AfterOpenCategoryView(view, trace)) <==> Readable(Some(trace))
    ensures Readable(Some(trace)) ==> WellFormed(AfterOpenCategoryView(view, trace))
  {
    WrittenResolution(view, Null, Some(trace));
  }

  lemma SetViewStep(view: ViewId, tab: Js)
    requires tab != Undefined
    ensures
      var good := !HitsInheritedKey(view, tab) && (tab == Text("") ==> LegacyAlias(view).Some?);
      (Stable(AfterSetView(view, tab)) <==> good) && (good ==> WellFormed(AfterSetView(view, tab)))
  {
    WrittenResolution(view, tab, None);
  }

  lemma SetTabStep(s: NavState, tab: Js)
    requires Inv(s) && tab != Undefined
    ensures Stable(AfterSetTab(s, tab)) <==> tab != Text("")
    ensures tab != Text("") ==> WellFormed(AfterSetTab(s, tab))
  {
    WrittenIsStable(s.view, tab, s.trace);
  }

  lemma CategoryIsReadable(trace: Option<Trace>, category: string)
    requires Readable(trace)
    ensures Readable(WithCategory(trace, category)) <==> Fits(Some(category), MAX_CATEGORY_LENGTH)
    ensures CategoryOf(trace) == Some(category) ==> Fits(Some(category), MAX_CATEGORY_LENGTH)
  {
  }

  lemma SetTraceCategoryStep(s: NavState, category: string)
    requires Inv(s)
    ensures
      var good := category != "" && Utf8.Utf16Length(category) <= MAX_CATEGORY_LENGTH;
      (Stable(AfterSetTraceCategory(s, category)) <==> good) && (good ==> WellFormed(AfterSetTraceCategory(s, category)))
  {
    CategoryIsReadable(s.trace, category);
    if AfterSetTraceCategory(s, category) != s {
      WrittenIsStable(s.view, s.tab, WithCategory(s.trace, category));
    }
  }

  lemma ClearTraceCategoryStep(s: NavState)
    requires Inv(s)
    ensures Inv(AfterClearTraceCategory(s))
  {
    WrittenIsStable(s.view, s.tab, WithoutCategory(s.trace));
  }

  /** One step: from a state that agrees with its URL, the next state agrees with its URL if and only
      if the step is good, and a good step keeps the whole invariant. */
  lemma StepKeepsAgreement(s: NavState, step: Step)
    requires Inv(s)
    ensures Stable(Next(s, step)) <==> Good(step)
    ensures Good(step) ==> Inv(Next(s, step))
  {
    match step
    case SetView(view, tab) => SetViewStep(view, ToJs(tab));
    case SetTab(tab) => SetTabStep(s, ToJs(tab));
    case OpenCategoryView(view, runId, category, bucket) => OpenStep(view, Trace(runId, category, bucket, false));
    case SetTraceCategory(category) => SetTraceCategoryStep(s, category);
    case ClearTraceCategory => ClearTraceCategoryStep(s);
    case Load(hash) => InitStep(s.(hash := hash));
  }

  // ----- Whole runs -----

  function Run(s: NavState, steps: seq<Step>): NavState
    decreases |steps|
  {
    if steps == [] then s else Run(Next(s, steps[0]), steps[1..])
  }

  /** The actions that stay on the page. */
  predicate StaysOnPage(step: Step) { step.SetTab? || step.SetTraceCategory? || step.ClearTraceCategory? }

  /** The category and the tab after such actions, read off the actions themselves. */
  function LastCategory(steps: seq<Step>, category: Option<string>): Option<string>
    decreases |steps|
  {
    if steps == [] then category
    else
      var next := if steps[0].SetTraceCategory? then Some(steps[0].newCategory)
                  else if steps[0].ClearTraceCategory? then None else category;
      LastCategory(steps[1..], next)
  }

  function LastTab(steps: seq<Step>, tab: Js): Js
    decreases |steps|
  {
    if steps == [] then tab else LastTab(steps[1..], if steps[0].SetTab? then ToJs(steps[0].newTab) else tab)
  }

  lemma StepOnPage(s: NavState, step: Step)
    requires StaysOnPage(step)
    ensures
      var n := Next(s, step);
      && n.view == s.view && n.tab == LastTab([step], s.tab) && CategoryOf(n.trace) == LastCategory([step], CategoryOf(s.trace))
      && Kept(RunIdOf(n.trace)) == Kept(RunIdOf(s.trace)) && Kept(BucketOf(n.trace)) == Kept(BucketOf(s.trace))
  {
    assert [step][1..] == [];
    match step
    case SetTab(tab) => SetTabEffect(s, tab);
    case SetTraceCategory(category) => SetTraceCategoryEffect(s, category);
    case ClearTraceCategory => ClearTraceCategoryEffect(s);
  }

  /** Over every run of tab and category actions the page stays, with its run id and its bucket; the tab and the
      category are the last ones set. */
  lemma {:induction false} PageSurvivesRuns(s: NavState, steps: seq<Step>)
    requires forall i :: 0 <= i < |steps| ==> StaysOnPage(steps[i])
    ensures
      var n := Run(s, steps);
      && n.view == s.view && n.tab == LastTab(steps, s.tab) && CategoryOf(n.trace) == LastCategory(steps, CategoryOf(s.trace))
      && Kept(RunIdOf(n.trace)) == Kept(RunIdOf(s.trace)) && Kept(BucketOf(n.trace)) == Kept(BucketOf(s.trace))
    decreases |steps|
  {
    if steps != [] {
      StepOnPage(s, steps[0]);
      assert [steps[0]][1..] == [];
      PageSurvivesRuns(Next(s, steps[0]), steps[1..]);
    }
  }

  predicate AllGood(steps: seq<Step>) {
    forall i :: 0 <= i < |steps| ==> Good(steps[i])
  }

  function Start(hash: string): NavState {
    Init(NavState(Text("dashboard"), Null, None, hash))
  }

  lemma StartKeepsAgreement(hash: string)
    ensures Stable(Start(hash)) <==> LoadsInsideTable(hash)
    ensures LoadsInsideTable(hash) ==> Inv(Start(hash))
  {
    var dashboard := HOSTS[0];
    HostIsNotAlias(dashboard);
    HostIsPlain(dashboard);
    InitStep(NavState(Text("dashboard"), Null, None, hash));
  }

  lemma {:induction false} RunKeepsAgreement(s: NavState, steps: seq<Step>)
    requires Inv(s) && AllGood(steps)
    ensures Inv(Run(s, steps))
    decreases |steps|
  {
    if steps != [] {
      StepKeepsAgreement(s, steps[0]);
      RunKeepsAgreement(Next(s, steps[0]), steps[1..]);
    }
  }

  /** Over every run from a page load: while all steps are good the store and the URL agree after each
      of them, and the first step that is not good breaks the agreement. */
  lemma AgreementOverRuns(hash: string, steps: seq<Step>, last: Step)
    requires LoadsInsideTable(hash) && AllGood(steps)
    ensures Stable(Run(Start(hash), steps))
    ensures Stable(Next(Run(Start(hash), steps), last)) <==> Good(last)
  {
    StartKeepsAgreement(hash);
    RunKeepsAgreement(Start(hash), steps);
    StepKeepsAgreement(Run(Start(hash), steps), last);
  }

  /** openDetail changes the view without writing the URL, so a later initNavFromHash undoes it unless
      the view was already open (or the hash names no view at all). */
  lemma DetailViewIsUndone(s: NavState, view: ViewId)
    requires Inv(s)
    ensures Stable(s.(view := Text(view))) <==> s.view == Text(view) || ParseNavHash(s.hash).None?
  {
  }

  /** The tab "constructor" of "fantasy-live" leaves the alias table: the store shows an undefined view,
      which a reload would replace by another one. */
  lemma InheritedKeyExample(s: NavState)
    ensures Next(s, SetView("fantasy-live", Some("constructor"))).view == Undefined
    ensures !Stable(Next(s, SetView("fantasy-live", Some("constructor"))))
  {
    FantasyLiveHitsInheritedKey();
    WrittenResolution("fantasy-live", Text("constructor"), None);
    ResolvedIsCanonical("fantasy-live", Text("constructor"));
  }

  lemma InitOutsideTable(s: NavState, view: ViewId, tab: string)
    requires HitsInheritedKey(view, Text(tab)) && s.hash == NavHashText(Text(view), Text(tab), None)
    ensures Init(s).view == Undefined && !Stable(Init(s))
  {
    var r := ResolveViewAlias(view, Text(tab));
    ParsePrinted(view, Text(tab), None);
    ResolvedIsCanonical(view, Text(tab));
    UndefinedViewIsUnstable(r.tab, ReadBack(None));
  }

  /** The page, its tab and its hash, named so that they are not evaluated at every use. */
  predicate IsExample(view: string, tab: string, hash: string) {
    view == "fantasy-live" && tab == "constructor" && hash == "#fantasy-live?tab=constructor"
  }

  lemma ExampleHash(view: string, tab: string, hash: string)
    requires IsExample(view, tab, hash)
    ensures "#" + view + "?" + ("tab" + "=" + tab) == hash
    ensures PlainView(view) && tab != "" && FormUrlEncoded.IsPlain(tab)
  {
    assert forall i :: 0 <= i < |tab| ==> 'a' <= tab[i] <= 'z';
  }

  lemma ExampleHitsInheritedKey(view: string, tab: string, hash: string)
    requires IsExample(view, tab, hash)
    ensures HitsInheritedKey(view, Text(tab))
  {
    FantasyLiveHitsInheritedKey();
  }

  /** Loading the hash of that view and tab does the same. */
  lemma InheritedKeyLoadExample(s: NavState, view: string, tab: string, hash: string)
    requires IsExample(view, tab, hash)
    ensures AfterLoad(s, hash).view == Undefined
    ensures !Stable(AfterLoad(s, hash))
  {
    ExampleHitsInheritedKey(view, tab, hash);
    ExampleHash(view, tab, hash);
    PlainTabHash(view, tab);
    InitOutsideTable(s.(hash := hash), view, tab);
  }
}
