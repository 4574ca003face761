/** The legacy view ids and the one-hop table that maps them to current views. */
module ViewAliases {
  import opened Prelude

  /** A JavaScript value that is expected to be a string but can be null or undefined. */
  datatype Js = Undefined | Null | Text(s: string)

  predicate Truthy(v: Js) { v.Text? && v.s != "" }

  datatype ViewTarget = ViewTarget(view: Js, tab: Js)

  datatype ViewAlias = ViewAlias(target: ViewTarget, keepTab: bool, tabs: Option<map<string, ViewTarget>>)

  const OUT_OF_SCOPE := ViewTarget(Text("out-of-scope"), Null)
  const ROUGH_NOT_CONFIGURED := ViewTarget(Text("out-of-scope"), Text("rough-stock"))
  const REQUIREMENTS_NOT_CONFIGURED := ViewTarget(Text("out-of-scope"), Text("requirements"))

  const OUT_OF_SCOPE_VIEWS: seq<string> := [
    "manufacturing", "manufacturing-traceability", "manufacturing-departments", "manufacturing-locations",
    "manufacturing-wip", "fantasy-departments", "fantasy-locations", "analysis-wip", "plan-vs-actual",
    "manufacturing-plan-vs-actual", "stock-strategy", "analysis-reorder-signals", "transfer-analyzer",
    "analysis-forecast", "reports", "admin-system-settings", "admin-feature-flags"]

  const RETIRED_WORKBENCH_VIEWS: seq<string> := [
    "data-science-forecasting", "data-science-predictive-models", "data-science-prediction-monitoring",
    "data-science-anomaly-detection", "data-science-yield-prediction", "data-science-forecast",
    "data-science-models", "data-science-forecast-accuracy", "planning-workbench", "planning-comparison",
    "planning-cases", "planning-planned-pieces", "planning-reservations", "planning-approval-queue"]

  const REQUIREMENTS_VIEWS: seq<string> := [
    "requirements-matrix", "requirements-priority-queue", "orders-exceptions", "replenishment-allocation",
    "requirements-orders", "requirements-replenishment", "requirements-backorders", "requirements-special",
    "requirements-forecast-signals", "requirements-allocation", "analysis-orders"]

  /** An alias that always lands on the same page and tab. */
  function To(target: ViewTarget): Option<ViewAlias> { Some(ViewAlias(target, false, None)) }

  function ToTab(view: string, tab: string): Option<ViewAlias> { To(ViewTarget(Text(view), Text(tab))) }

  function AnalysisAlias(v: string): Option<ViewAlias> {
    if v == "analysis-executive" then ToTab("dashboard", "analysis")
    else if v == "analysis-sales-trends" then ToTab("analysis-sales", "trends")
    else if v == "customers-orders" then Some(ViewAlias(ViewTarget(Text("analysis-customers-orders"), Null), true, None))
    else if v == "inventory-position" then Some(ViewAlias(ViewTarget(Text("analysis-inventory-position"), Null), true, None))
    else if v == "analysis-stockout" then ToTab("analysis-inventory-position", "stockout")
    else if v == "analysis-excess" then ToTab("analysis-inventory-position", "excess")
    else if v == "analysis-aging" || v == "aging-dashboard" then ToTab("analysis-inventory-position", "aging")
    else None
  }

  function FantasyAlias(v: string): Option<ViewAlias> {
    if v == "fantasy-live" then
      Some(ViewAlias(ROUGH_NOT_CONFIGURED, false, Some(map[
        "polished" := ViewTarget(Text("fantasy-data"), Text("current")),
        "departments" := OUT_OF_SCOPE,
        "locations" := OUT_OF_SCOPE])))
    else if v == "manufacturing-overview" then
      Some(ViewAlias(OUT_OF_SCOPE, false, Some(map["tracking" := ViewTarget(Text("fantasy-data"), Text("integration"))])))
    else if v == "fantasy-rough" || v == "planning-rough-availability" then To(ROUGH_NOT_CONFIGURED)
    else if v == "fantasy-polished" then ToTab("fantasy-data", "current")
    else if v == "fantasy-sync" || v == "manufacturing-tracking" then ToTab("fantasy-data", "integration")
    else if v == "overall-data" then ToTab("fantasy-data", "history")
    else None
  }

  function AdminAlias(v: string): Option<ViewAlias> {
    if v == "data-quality-unmapped-labs" || v == "admin-lab-mappings" then ToTab("admin-mappings", "lab-mappings")
    else if v == "data-quality-unmapped-shapes" || v == "admin-shape-mappings" then ToTab("admin-mappings", "shape-mappings")
    else if v == "admin-rules-mappings" || v == "admin-business-rules" then To(ViewTarget(Text("admin-mappings"), Null))
    else if v == "admin-sarin-shape-mappings" then ToTab("admin-mappings", "sarin-shape-mapping")
    else if v == "admin-weight-bands" then ToTab("admin-mappings", "weight-bands")
    else if v == "fantasy-status-mapping" then ToTab("admin-mappings", "status-mappings")
    else if v == "admin-users" || v == "admin-access-requests" then ToTab("admin-users-access", "users")
    else None
  }

  /** LEGACY_VIEW_ALIASES, looked up by own property. */
  function LegacyAlias(v: string): Option<ViewAlias> {
    if AnalysisAlias(v).Some? then AnalysisAlias(v)
    else if FantasyAlias(v).Some? then FantasyAlias(v)
    else if AdminAlias(v).Some? then AdminAlias(v)
    else if v in OUT_OF_SCOPE_VIEWS || v in RETIRED_WORKBENCH_VIEWS then To(OUT_OF_SCOPE)
    else if v in REQUIREMENTS_VIEWS then To(REQUIREMENTS_NOT_CONFIGURED)
    else None
  }

  /** Names every JavaScript object inherits. `alias.tabs?.[tab]` finds them although the table does not
      list them, and what it finds has no `view` and no `tab`. */
  const INHERITED_KEYS: seq<string> := [
    "constructor", "hasOwnProperty", "isPrototypeOf", "propertyIsEnumerable", "toLocaleString", "toString",
    "valueOf", "__proto__", "__defineGetter__", "__defineSetter__", "__lookupGetter__", "__lookupSetter__"]

  function TabTarget(alias: ViewAlias, tab: string): Option<ViewTarget> {
    if alias.tabs.None? then None
    else if tab in alias.tabs.value then Some(alias.tabs.value[tab])
    else if tab in INHERITED_KEYS then Some(ViewTarget(Undefined, Undefined))
    else None
  }

  function ResolveViewAlias(view: string, tab: Js): ViewTarget {
    match LegacyAlias(view)
    case None => ViewTarget(Text(view), tab)
    case Some(alias) =>
      var specific := if Truthy(tab) then TabTarget(alias, tab.s) else None;
      if specific.Some? then specific.value
      else ViewTarget(alias.target.view, if alias.keepTab && Truthy(tab) then tab else alias.target.tab)
  }

  /** The lookup escapes the table: an alias with its own tab table, asked for an inherited name. */
  predicate HitsInheritedKey(view: string, tab: Js) {
    var alias := LegacyAlias(view);
    alias.Some? && alias.value.tabs.Some? && Truthy(tab) && tab.s !in alias.value.tabs.value && tab.s in INHERITED_KEYS
  }

  // ----- No alias chains -----

  const HOSTS: seq<string> := [
    "dashboard", "analysis-sales", "analysis-customers-orders", "analysis-inventory-position",
    "out-of-scope", "fantasy-data", "admin-mappings", "admin-users-access"]

  predicate IsHost(target: ViewTarget) {
    target.view.Text? && target.view.s in HOSTS && target.tab != Undefined && target.tab != Text("")
  }

  lemma HostIsNotOutOfScope(v: string)
    requires v in HOSTS
    ensures v !in OUT_OF_SCOPE_VIEWS
  {
  }

  lemma HostIsNotWorkbench(v: string)
    requires v in HOSTS
    ensures v !in RETIRED_WORKBENCH_VIEWS
  {
  }

  lemma HostIsNotRequirements(v: string)
    requires v in HOSTS
    ensures v !in REQUIREMENTS_VIEWS
  {
  }

  lemma HostIsNotAnalysisAlias(v: string)
    requires v in HOSTS
    ensures AnalysisAlias(v).None?
  {
  }

  lemma HostIsNotFantasyAlias(v: string)
    requires v in HOSTS
    ensures FantasyAlias(v).None?
  {
  }

  lemma HostIsNotAdminAlias(v: string)
    requires v in HOSTS
    ensures AdminAlias(v).None?
  {
  }

  lemma HostIsPlain(v: string)
    requires v in HOSTS
    ensures v != "" && '?' !in v
  {
  }

  lemma HostIsNotAlias(v: string)
    requires v in HOSTS
    ensures LegacyAlias(v).None?
  {
    HostIsNotOutOfScope(v);
    HostIsNotWorkbench(v);
    HostIsNotRequirements(v);
    HostIsNotAnalysisAlias(v);
    HostIsNotFantasyAlias(v);
    HostIsNotAdminAlias(v);
  }

  predicate LandsOnHosts(alias: ViewAlias) {
    IsHost(alias.target)
    && (alias.tabs.Some? ==> forall tab :: tab in alias.tabs.value ==> IsHost(alias.tabs.value[tab]))
  }

  lemma AnalysisAliasLandsOnHosts(v: string)
    ensures AnalysisAlias(v).Some? ==> LandsOnHosts(AnalysisAlias(v).value)
  {
  }

  lemma FantasyAliasLandsOnHosts(v: string)
    ensures FantasyAlias(v).Some? ==> LandsOnHosts(FantasyAlias(v).value)
  {
  }

  lemma AdminAliasLandsOnHosts(v: string)
    ensures AdminAlias(v).Some? ==> LandsOnHosts(AdminAlias(v).value)
  {
  }

  lemma AliasLandsOnHosts(v: string)
    requires LegacyAlias(v).Some?
    ensures LandsOnHosts(LegacyAlias(v).value)
  {
    AnalysisAliasLandsOnHosts(v);
    FantasyAliasLandsOnHosts(v);
    AdminAliasLandsOnHosts(v);
  }

  /** One hop is enough: whatever an alias resolves to, on its own account or for one of its tabs, is
      a host page and not an alias again, unless the lookup left the table. */
  lemma ResolvedViewIsCanonical(v: string, tab: Js)
    requires LegacyAlias(v).Some? && tab != Undefined
    ensures
      var r := ResolveViewAlias(v, tab);
      if HitsInheritedKey(v, tab) then r == ViewTarget(Undefined, Undefined)
      else IsHost(r) && LegacyAlias(r.view.s).None?
  {
    AliasLandsOnHosts(v);
    var r := ResolveViewAlias(v, tab);
    if !HitsInheritedKey(v, tab) {
      HostIsNotAlias(r.view.s);
    }
  }

  /** Where a view and a tab lead, for each kind of table entry: a tab the entry lists leads to its own target; an
      entry that keeps tabs passes any other tab on to its page; and everything else leads to the entry's target. */
  lemma TabsLeadToTheirTargets(view: string, alias: ViewAlias, tab: Js)
    requires LegacyAlias(view) == Some(alias) && !HitsInheritedKey(view, tab)
    ensures alias.tabs.Some? && Truthy(tab) && tab.s in alias.tabs.value ==>
      ResolveViewAlias(view, tab) == alias.tabs.value[tab.s]
    ensures !(alias.tabs.Some? && Truthy(tab) && tab.s in alias.tabs.value) ==>
      ResolveViewAlias(view, tab).view == alias.target.view
      && ResolveViewAlias(view, tab).tab == if alias.keepTab && Truthy(tab) then tab else alias.target.tab
  {
  }

  /** A current view keeps its tab, whatever it is. */
  lemma CurrentViewIsKept(view: string, tab: Js)
    requires LegacyAlias(view).None?
    ensures ResolveViewAlias(view, tab) == ViewTarget(Text(view), tab)
  {
  }

  /** The links to the two pages that kept their tabs, and one listed tab, in full. */
  lemma KeptAndListedTabs(customers: string, live: string, tab: string)
    requires customers == "customers-orders" && live == "fantasy-live" && tab == "polished"
    ensures ResolveViewAlias(customers, Text(tab)) == ViewTarget(Text("analysis-customers-orders"), Text(tab))
    ensures ResolveViewAlias(live, Text(tab)) == ViewTarget(Text("fantasy-data"), Text("current"))
  {
    assert AnalysisAlias(customers) == Some(ViewAlias(ViewTarget(Text("analysis-customers-orders"), Null), true, None));
    assert AnalysisAlias(live).None?;
    assert FantasyAlias(live).value.tabs.value[tab] == ViewTarget(Text("fantasy-data"), Text("current"));
  }

  /** An alias never resolves to itself. */
  lemma AliasResolvesElsewhere(v: string, tab: Js)
    requires LegacyAlias(v).Some? && tab != Undefined
    ensures ResolveViewAlias(v, tab).view != Text(v)
  {
    ResolvedViewIsCanonical(v, tab);
  }

  lemma FantasyLiveHitsInheritedKey()
    ensures HitsInheritedKey("fantasy-live", Text("constructor"))
  {
    var v, tab := "fantasy-live", "constructor";
    assert AnalysisAlias(v).None?;
    var tabs := FantasyAlias(v).value.tabs.value;
    assert |tab| != |"polished"| && tab[0] != "departments"[0] && |tab| != |"locations"|;
    assert tab == INHERITED_KEYS[0];
  }
}
