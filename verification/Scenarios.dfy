/**
 * A run that shows the limits: a ruleset that is not re-scoped lets in a flow the
 * spec does not denote, and a CR that goes while no profile is ready leaves it behind.
 */
module Scenarios {
  import opened Wrappers
  import opened Pce
  import opened PolicyIR
  import opened Resolution
  import opened Semantics
  import opened RuleSets
  import opened Clusters
  import opened Backend
  import opened Controller
  import opened Runs
  import CwpMatch

  const UID := "u"
  const RULE_SET := "rs"
  const APP: LabelMap := map["app" := "shop"]
  const APP_AND_ENV: LabelMap := map["app" := "shop", "env" := "prod"]
  const SHARE_APP := Intent(IntentSpec(map[], [], true))

  /** A managed namespace with both labels, in a cluster that scopes rulesets by these keys. */
  function ScopedBy(keys: seq<string>): Input {
    Input(Ready(Profile("auto", keys, [], CwpMatch.SystemNamespaces(true, ["*"], APP_AND_ENV, ""), "")),
          NamespaceFound(CwpMatch.Namespace("n", map[], map[])), (pattern, name) => true,
          "n", "c", false, Strict, map[], [])
  }

  lemma ScopeIs(keys: seq<string>)
    requires ScopeSubset(APP_AND_ENV, keys) != map[]
    ensures IsScope(Filled(ScopedBy(keys), SHARE_APP), ScopeSubset(APP_AND_ENV, keys))
  {
    var inp := Filled(ScopedBy(keys), SHARE_APP);
    var ns, sys := inp.namespace.ns, inp.cluster.profile.systemNamespaces;
    var base := CwpMatch.DesiredCwp(true, APP_AND_ENV, "");
    assert inp.glob(CwpMatch.SystemPatterns(sys)[0], ns.name);
    assert CwpMatch.IsBase(inp.glob, ns, [], sys, base);
    assert CwpMatch.Overridden(base, ns.annotations) == base;
    assert CwpMatch.IsDesired(inp.glob, ns, [], sys, CwpMatch.Floored(base));
  }

  function Rebuilt(s: Store, h: Href, body: RuleSet): Store {
    WithRules(s, h, body, [DraftRule("r", RuleFor([], AllServices(s), ResolvedAllow([], true, true, [])))])
  }

  const ENTRY := ResolvedAllow([], true, true, [])

  lemma {:induction false} ShortcutResolves(labels: map<Label, Href>)
    ensures Resolves([INTRA_NAMESPACE_SHORTCUT], labels, [ENTRY]) && Wanted([INTRA_NAMESPACE_SHORTCUT]) == {}
    ensures Lists([], KnownHrefs(Entries(map[]), labels))
  {
    assert [INTRA_NAMESPACE_SHORTCUT][..0] == [] && [ENTRY][..0] == [];
    assert KnownHrefs({}, labels) == {};
  }

  lemma Links(s: Store, keys: seq<string>, hrefs: seq<Href>, written: Store) returns (tr: Trace)
    requires ScopeSubset(APP_AND_ENV, keys) != map[] && Entries(ScopeSubset(APP_AND_ENV, keys)) <= s.labels.Keys
    requires Lists(hrefs, KnownHrefs(Entries(ScopeSubset(APP_AND_ENV, keys)), s.labels))
    ensures tr == Trace(s, written, ScopeSubset(APP_AND_ENV, keys), hrefs, [], [ENTRY])
    ensures LinkedInput(Filled(ScopedBy(keys), SHARE_APP), tr)
  {
    hide IsScope, Lists, Resolves;
    tr := Trace(s, written, ScopeSubset(APP_AND_ENV, keys), hrefs, [], [ENTRY]);
    ScopeIs(keys);
    ShortcutResolves(s.labels);
    assert Filled(ScopedBy(keys), SHARE_APP).allows == [INTRA_NAMESPACE_SHORTCUT];
  }

  lemma Rebuilds(s: Store, h: Href, body: RuleSet)
    requires ALL_SERVICES_NAME in s.services && Place(s, h, body.reference)
    ensures RuleSetStep(s, Rebuilt(s, h, body), body, [], [ENTRY], Ok(h)) && Editable(Rebuilt(s, h, body), h)
    ensures Rebuilt(s, h, body).active == s.active
  {
    var rules := Rebuilt(s, h, body).draft[h].rules;
    assert Bare(rules) == RulesFor([], AllServices(s), [ENTRY]);
    assert Rebuilt(s, h, body) == WithRules(s, h, body, rules);
  }

  /** An undisturbed reconcile in strict mode. */
  lemma Builds(s: Store, keys: seq<string>, hrefs: seq<Href>, h: Href, finalizer: bool) returns (tr: Trace)
    requires ValidLabels(s.labels) && ALL_SERVICES_NAME in s.services && Place(s, h, UID)
    requires ScopeSubset(APP_AND_ENV, keys) != map[] && Entries(ScopeSubset(APP_AND_ENV, keys)) <= s.labels.Keys
    requires Lists(hrefs, KnownHrefs(Entries(ScopeSubset(APP_AND_ENV, keys)), s.labels))
    ensures var inp := Filled(ScopedBy(keys), SHARE_APP);
      && tr.scope == ScopeSubset(APP_AND_ENV, keys) && tr.scopeHrefs == hrefs
      && tr.written == Rebuilt(s, h, Body(inp, UID, tr))
      && Published(s, Provisioned(tr.written, h), UID, inp, h, tr)
      && ControllerStep(CrState(Live, finalizer), s, CrState(Live, true), Provisioned(tr.written, h), UID,
                        SHARE_APP, ScopedBy(keys))
  {
    hide LinkedInput, Lists, RuleSetStep, Rebuilt, Place, KnownHrefs;
    var inp := Filled(ScopedBy(keys), SHARE_APP);
    tr := Links(s, keys, hrefs, Rebuilt(s, h, RuleSetBody("n", "c", hrefs, Owner("", UID))));
    Rebuilds(s, h, Body(inp, UID, tr));
    var t := Provisioned(tr.written, h);
    assert Built(inp, UID, tr, h);
    Accounts(s, inp, tr);
    assert BackendTrace(s, t, UID, inp, tr, Outcome.Compiled(true, [], []));
    assert BackendRan(s, t, UID, SHARE_APP, ScopedBy(keys));
  }

  lemma Accounts(s: Store, inp: Input, tr: Trace)
    requires tr.linked == s && inp.mode == Strict && ValidLabels(s.labels)
    ensures Accounted(s, inp, tr, [], []) && LabelsGrow(s, tr.linked, Wanted(inp.allows))
  {
  }

  const LABELS := map[Label("app", "shop") := "1", Label("env", "prod") := "2"]

  lemma ScopesOfRun()
    ensures ScopeSubset(APP_AND_ENV, ["app"]) == APP && ScopeSubset(APP_AND_ENV, ["app", "env"]) == APP_AND_ENV
    ensures Entries(APP) == {Label("app", "shop")} && Entries(APP_AND_ENV) == LABELS.Keys
    ensures Lists(["1"], KnownHrefs(Entries(APP), LABELS)) && Lists(["1", "2"], KnownHrefs(Entries(APP_AND_ENV), LABELS))
    ensures ValidLabels(LABELS)
  {
    var app, env := Label("app", "shop"), Label("env", "prod");
    assert "app" in APP && "app" in APP_AND_ENV && "env" in APP_AND_ENV;
    assert Entries(APP) == {app};
    assert Entries(APP_AND_ENV) == {app, env} == LABELS.Keys;
    assert LABELS[app] == "1" && LABELS[env] == "2";
    assert KnownHrefs({app}, LABELS) == {"1"};
    assert KnownHrefs({app, env}, LABELS) == {"1", "2"};
  }

  /** Two reconciles: the first creates the ruleset for the scope {app}, the second, told to scope by app and
      env, provisions it with its old scope. */
  lemma TwoReconciles() returns (s0: Store, s1: Store, s2: Store, tr: Trace)
    ensures s0 == Store(map[], map[], LABELS, map[ALL_SERVICES_NAME := "s"]) && Valid(s0)
    ensures ControllerStep(CrState(Live, false), s0, CrState(Live, true), s1, UID, SHARE_APP, ScopedBy(["app"]))
    ensures ControllerStep(CrState(Live, true), s1, CrState(Live, true), s2, UID, SHARE_APP, ScopedBy(["app", "env"]))
    ensures Valid(s1) && Published(s1, s2, UID, Filled(ScopedBy(["app", "env"]), SHARE_APP), RULE_SET, tr)
    ensures StoredScope(s2.labels, tr.written.draft[RULE_SET].body, APP)
    ensures Owns(s2, RULE_SET, UID) && RULE_SET in s2.active && s2.active[RULE_SET].body.reference == UID
  {
    hide LinkedInput, Lists, RuleSetStep, KnownHrefs, ControllerStep, Published;
    ScopesOfRun();
    s0 := Store(map[], map[], LABELS, map[ALL_SERVICES_NAME := "s"]);
    var first := Builds(s0, ["app"], ["1"], RULE_SET, false);
    s1 := Provisioned(first.written, RULE_SET);
    tr := Builds(s1, ["app", "env"], ["1", "2"], RULE_SET, true);
    s2 := Provisioned(tr.written, RULE_SET);
    assert ScopeHrefs(ScopeEntries(["1"])) == ["1"];
  }

  /** Then the CR is deleted while no profile is ready.  In state 3 a workload without the env label may reach
      itself, which the spec does not say; in state 5 the CR is gone and its ruleset is still active. */
  lemma StaleAndOrphaned() returns (states: seq<System>, events: seq<Event>)
    ensures Run(states, events) && |states| == 6
    ensures RULE_SET in states[3].store.active && events[2] == ReconcileCr(UID, SHARE_APP, ScopedBy(["app", "env"]))
    ensures forall w :: Permits(states[3].store, states[3].store.active[RULE_SET], APP, APP, w)
                        && !Denotes(SHARE_APP, APP_AND_ENV, APP, APP, w)
    ensures UID in states[5].crs && states[5].crs[UID].phase.Gone? && Owns(states[5].store, RULE_SET, UID)
    ensures RULE_SET in states[5].store.active && states[5].store.active[RULE_SET].body.reference == UID
  {
    hide Published, StoredScope, Permits, BackendRan;
    var s0, s1, s2, tr := TwoReconciles();
    var live, deleting := CrState(Live, true), CrState(Deleting, true);
    states := [System(s0, map[]), System(s0, map[UID := CrState(Live, false)]), System(s1, map[UID := live]),
               System(s2, map[UID := live]), System(s2, map[UID := deleting]), System(s2, map[UID := CrState(Gone(true), false)])];
    events := [CreateCr(UID), ReconcileCr(UID, SHARE_APP, ScopedBy(["app"])),
               ReconcileCr(UID, SHARE_APP, ScopedBy(["app", "env"])), DeleteCr(UID),
               ReconcileCr(UID, SHARE_APP, ScopedBy(["app"]).(cluster := NotReady))];
    assert FinalizeStep(s2, s2, UID, NotReady, true);
    forall w ensures Permits(s2, s2.active[RULE_SET], APP, APP, w) && !Denotes(SHARE_APP, APP_AND_ENV, APP, APP, w) {
      PublishedIsValid(s1, s2, UID, Filled(ScopedBy(["app", "env"]), SHARE_APP), RULE_SET, tr);
      ProvisionedMeansSpec(s1, s2, UID, SHARE_APP, ScopedBy(["app", "env"]), RULE_SET, tr, s2, APP, APP, APP, w);
      assert "env" in APP_AND_ENV && "env" !in APP;
    }
  }
}
