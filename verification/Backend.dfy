/**
 * The policy backend: resolve, link, rebuild the draft, and provision it when the
 * provisioning gate is open; and the removal of a ruleset when its CR goes.
 */
module Backend {
  import opened Wrappers
  import opened Pce
  import opened PolicyIR
  import opened Resolution
  import opened RuleSets
  import opened Semantics
  import opened Clusters
  import CwpMatch

  datatype NamespaceLookup = NamespaceUnavailable | NamespaceMissing | NamespaceFound(ns: CwpMatch.Namespace)

  /** Everything one reconcile of a policy CR reads apart from the PCE. */
  datatype Input = Input(
    cluster: ClusterLookup,
    namespace: NamespaceLookup,
    glob: CwpMatch.Glob,
    namespaceName: string,
    crName: string,
    approved: bool,
    mode: Mode,
    narrow: LabelMap,
    allows: seq<CompiledAllow>)

  datatype Outcome =
    | ClusterProfileNotReady
    | ProviderRejected
    | LabelRejected(unknown: Label)
    | NarrowingRejected(unknown: Label)
    | PCEStateConflict
    | Compiled(provisioned: bool, deferred: seq<Label>, created: seq<Label>)
    | Transient

  predicate Gate(inp: Input) {
    && inp.cluster.Ready?
    && (|| inp.cluster.profile.provisioningMode == "auto"
        || (inp.cluster.profile.provisioningMode == "manual" && inp.approved))
  }

  // ----- The provider -----

  function ScopeSubset(labels: LabelMap, keys: seq<string>): LabelMap {
    map k | k in labels && k in keys :: labels[k]
  }

  method ScopeLabelSubset(labels: LabelMap, scopeKeys: seq<string>) returns (out: LabelMap)
    ensures out == ScopeSubset(labels, scopeKeys)
    ensures forall k :: k in out <==> k in labels && k in scopeKeys
    ensures forall k :: k in out ==> out[k] == labels[k]
  {
    var keep: set<string> := {};
    for i := 0 to |scopeKeys|
      invariant forall k :: k in keep <==> k in scopeKeys[..i]
    {
      assert scopeKeys[..i + 1] == scopeKeys[..i] + [scopeKeys[i]];
      keep := keep + {scopeKeys[i]};
    }
    assert scopeKeys[..|scopeKeys|] == scopeKeys;
    out := map[];
    var keys := labels.Keys;
    while keys != {}
      invariant keys <= labels.Keys
      invariant forall k :: k in out <==> k in labels && k in keep && k !in keys
      invariant forall k :: k in out ==> out[k] == labels[k]
      decreases |keys|
    {
      var k :| k in keys;
      if k in keep {
        out := out[k := labels[k]];
      }
      keys := keys - {k};
    }
  }

  /** `scope` are the scope labels of a managed namespace; there is at least one. */
  ghost predicate IsScope(inp: Input, scope: LabelMap) {
    && inp.cluster.Ready? && inp.namespace.NamespaceFound? && scope != map[]
    && var p := inp.cluster.profile;
       exists d :: CwpMatch.IsDesired(inp.glob, inp.namespace.ns, p.namespaceRules, p.systemNamespaces, d)
         && d.managed && scope == ScopeSubset(d.labels, p.scopeKeys)
  }

  method ResolveProvider(pce: Client, inp: Input)
    returns (rejected: bool, failed: bool, hrefs: seq<Href>, ghost scope: LabelMap)
    requires inp.cluster.Ready? && ValidLabels(pce.store.labels)
    modifies pce`faults
    ensures pce.faults >= old(pce.faults) && !(rejected && failed)
    ensures pce.faults > old(pce.faults) ==> failed
    ensures failed ==> pce.faults > old(pce.faults) || inp.namespace == NamespaceUnavailable
    ensures !rejected && !failed ==>
      && IsScope(inp, scope) && Entries(scope) <= pce.store.labels.Keys
      && Lists(hrefs, KnownHrefs(Entries(scope), pce.store.labels))
    ensures rejected ==> !exists m :: IsScope(inp, m) && Entries(m) <= pce.store.labels.Keys
  {
    rejected, failed, hrefs, scope := false, false, [], map[];
    if inp.namespace == NamespaceUnavailable {
      failed := true;
      return;
    }
    if inp.namespace == NamespaceMissing {
      rejected := true;
      return;
    }
    var p := inp.cluster.profile;
    var desired := CwpMatch.ComputeDesiredCwp(inp.glob, inp.namespace.ns, p.namespaceRules, p.systemNamespaces);
    var scopeLabels := ScopeLabelSubset(desired.labels, p.scopeKeys);
    scope := scopeLabels;
    forall m | IsScope(inp, m) ensures m == scope && desired.managed {
      var d :| CwpMatch.IsDesired(inp.glob, inp.namespace.ns, p.namespaceRules, p.systemNamespaces, d)
        && d.managed && m == ScopeSubset(d.labels, p.scopeKeys);
      CwpMatch.DesiredIsUnique(inp.glob, inp.namespace.ns, p.namespaceRules, p.systemNamespaces, d, desired);
    }
    if !desired.managed || |desired.labels| == 0 {
      assert desired.labels == map[] ==> scope == map[];
      rejected := true;
      return;
    }
    if |scopeLabels| == 0 {
      rejected := true;
      return;
    }
    assert IsScope(inp, scope);
    var found := FindAll(pce, scopeLabels);
    match found
    case Found(hs) => hrefs := hs;
    case Missing(_) => rejected := true;
    case LookupFailed => failed := true;
  }

  // ----- One reconcile -----

  /** How a reconcile went: the store after linking, the store with the rebuilt draft, and what was linked. */
  datatype Trace = Trace(
    linked: Store, written: Store, scope: LabelMap,
    scopeHrefs: seq<Href>, narrowHrefs: seq<Href>, resolved: seq<ResolvedAllow>)

  function Body(inp: Input, reference: string, tr: Trace): RuleSet
    requires inp.cluster.Ready?
  {
    RuleSetBody(inp.namespaceName, inp.crName, tr.scopeHrefs, Owner(inp.cluster.profile.dataSet, reference))
  }

  ghost predicate LinkedInput(inp: Input, tr: Trace) {
    && IsScope(inp, tr.scope) && Entries(tr.scope) <= tr.linked.labels.Keys
    && Lists(tr.scopeHrefs, KnownHrefs(Entries(tr.scope), tr.linked.labels))
    && Entries(inp.narrow) <= tr.linked.labels.Keys
    && Lists(tr.narrowHrefs, KnownHrefs(Entries(inp.narrow), tr.linked.labels))
    && Resolves(inp.allows, tr.linked.labels, tr.resolved)
    && (inp.mode != Skip ==> Wanted(inp.allows) <= tr.linked.labels.Keys)
  }

  /** The draft was rebuilt to the end. */
  ghost predicate Built(inp: Input, reference: string, tr: Trace, h: Href) {
    && LinkedInput(inp, tr)
    && RuleSetStep(tr.linked, tr.written, Body(inp, reference, tr), tr.narrowHrefs, tr.resolved, Ok(h))
  }

  predicate Ends(written: Store, h: Href, t: Store, provisioned: bool) {
    if provisioned then h in written.draft && t == Provisioned(written, h) else t == written
  }

  /** The call that provisions failed: before it took effect, or its reply was lost. */
  ghost predicate ProvisionFailed(t: Store, reference: string, inp: Input, tr: Trace) {
    Gate(inp) && exists h, took :: Built(inp, reference, tr, h) && Ends(tr.written, h, t, took)
  }

  ghost predicate RebuildFailed(t: Store, reference: string, inp: Input, tr: Trace) {
    && LinkedInput(inp, tr)
    && exists e :: e != PendingDeletion
         && RuleSetStep(tr.linked, t, Body(inp, reference, tr), tr.narrowHrefs, tr.resolved, Err(e))
  }

  ghost predicate BackendTrace(s: Store, t: Store, reference: string, inp: Input, tr: Trace, o: Outcome) {
    && LabelsGrow(s, tr.linked, Wanted(inp.allows)) && (inp.mode != Create ==> tr.linked == s)
    && match o
       case ClusterProfileNotReady => inp.cluster == NotReady && t == tr.linked == s
       case ProviderRejected => t == tr.linked == s && !exists m :: IsScope(inp, m) && Entries(m) <= s.labels.Keys
       case LabelRejected(l) =>
         && t == tr.linked && l in Wanted(inp.allows) && l !in t.labels
         && (inp.mode == Strict || (inp.mode == Create && !AutoCreatableKey(l.key)))
       case NarrowingRejected(l) => t == tr.linked && l in Entries(inp.narrow) && l !in t.labels
       case PCEStateConflict =>
         && LinkedInput(inp, tr)
         && RuleSetStep(tr.linked, t, Body(inp, reference, tr), tr.narrowHrefs, tr.resolved, Err(PendingDeletion))
       case Compiled(provisioned, deferred, created) =>
         && Accounted(s, inp, tr, deferred, created)
         && provisioned == Gate(inp)
         && exists h :: Built(inp, reference, tr, h) && Ends(tr.written, h, t, provisioned)
       case Transient =>
         || t == tr.linked
         || RebuildFailed(t, reference, inp, tr)
         || ProvisionFailed(t, reference, inp, tr)
  }

  datatype Rebuild = Conflict | Rebuilt(provisioned: bool) | RebuildTransient

  /** Rebuilds the draft of an input that is linked, then provisions it if the gate is open. */
  method RebuildAndProvision(pce: Client, reference: string, inp: Input, scopeHrefs: seq<Href>, narrowHrefs: seq<Href>,
                             resolved: seq<ResolvedAllow>, ghost linked: Trace)
    returns (o: Rebuild, ghost written: Store)
    requires LinkedInput(inp, linked) && pce.store == linked.linked
    requires linked.scopeHrefs == scopeHrefs && linked.narrowHrefs == narrowHrefs && linked.resolved == resolved
    modifies pce
    ensures pce.faults >= old(pce.faults)
    ensures pce.faults > old(pce.faults) ==> o == RebuildTransient
    ensures o == RebuildTransient ==> pce.faults > old(pce.faults) || ALL_SERVICES_NAME !in old(pce.store).services
    ensures LinkedInput(inp, linked.(written := written))
    ensures var tr := linked.(written := written);
      match o
      case Conflict =>
        RuleSetStep(tr.linked, pce.store, Body(inp, reference, tr), narrowHrefs, resolved, Err(PendingDeletion))
      case Rebuilt(provisioned) =>
        && provisioned == Gate(inp)
        && exists h :: Built(inp, reference, tr, h) && Ends(written, h, pce.store, provisioned)
      case RebuildTransient =>
        RebuildFailed(pce.store, reference, inp, tr) || ProvisionFailed(pce.store, reference, inp, tr)
  {
    hide Lists, Resolves, KnownHrefs, RuleSetStep, LabelsGrow, CwpMatch.IsDesired;
    var owner := Owner(inp.cluster.profile.dataSet, reference);
    var rs := ReconcileRuleSet(pce, inp.crName, inp.namespaceName, owner, scopeHrefs, narrowHrefs, resolved);
    written := pce.store;
    if rs.Err? {
      return if rs.error == PendingDeletion then Conflict else RebuildTransient, written;
    }
    assert Built(inp, reference, linked.(written := written), rs.value);
    RebuiltIsEditable(linked.linked, written, Body(inp, reference, linked), narrowHrefs, resolved, rs.value);
    if Gate(inp) {
      var provisioned := pce.ProvisionRuleSet(rs.value);
      assert Ends(written, rs.value, pce.store, pce.store != written || provisioned.Ok?);
      return if provisioned.Ok? then Rebuilt(true) else RebuildTransient, written;
    }
    return Rebuilt(false), written;
  }

  datatype Linking =
    | Halted(outcome: Outcome)
    | AllLinked(scopeHrefs: seq<Href>, narrowHrefs: seq<Href>, resolved: seq<ResolvedAllow>,
             deferred: seq<Label>, created: seq<Label>)

  ghost predicate Accounted(s: Store, inp: Input, tr: Trace, deferred: seq<Label>, created: seq<Label>) {
    && Lists(created, tr.linked.labels.Keys - s.labels.Keys)
    && (if inp.mode == Skip then multiset(deferred) == Deferred(inp.allows, s.labels) else deferred == [])
  }

  /** Resolves the provider, the consumers and the narrowing labels, in this order. */
  method LinkPolicy(pce: Client, ghost reference: string, inp: Input) returns (r: Linking, ghost tr: Trace)
    requires inp.cluster.Ready? && ValidLabels(pce.store.labels)
    modifies pce
    ensures pce.faults >= old(pce.faults) && pce.store == tr.linked
    ensures pce.faults > old(pce.faults) ==> r == Halted(Transient)
    ensures r == Halted(Transient) ==> pce.faults > old(pce.faults) || inp.namespace == NamespaceUnavailable
    ensures r.Halted? ==> BackendTrace(old(pce.store), pce.store, reference, inp, tr, r.outcome)
    ensures r.AllLinked? ==>
      && LabelsGrow(old(pce.store), tr.linked, Wanted(inp.allows)) && (inp.mode != Create ==> tr.linked == old(pce.store))
      && LinkedInput(inp, tr) && Accounted(old(pce.store), inp, tr, r.deferred, r.created)
      && tr.scopeHrefs == r.scopeHrefs && tr.narrowHrefs == r.narrowHrefs && tr.resolved == r.resolved
  {
    hide Lists, Resolves, Deferred, KnownHrefs, Kept, RuleSetStep, CwpMatch.IsDesired, ValidLabels,
         RebuildFailed, ProvisionFailed, Built;
    ghost var s := pce.store;
    tr := Trace(s, s, map[], [], [], []);
    var rejected, failed, scopeHrefs;
    ghost var scope;
    rejected, failed, scopeHrefs, scope := ResolveProvider(pce, inp);
    if failed || rejected {
      return Halted(if failed then Transient else ProviderRejected), tr;
    }
    var resolution := ResolveAllows(pce, inp.allows, inp.mode);
    tr := Trace(pce.store, s, scope, scopeHrefs, [], []);
    if !resolution.Resolved? {
      return Halted(if resolution.Failed? then Transient else LabelRejected(resolution.unknown)), tr;
    }
    ScopeStaysListed(s, pce.store, scope, scopeHrefs, Wanted(inp.allows));
    var narrow := FindAll(pce, inp.narrow);
    if !narrow.Found? {
      return Halted(if narrow.LookupFailed? then Transient else NarrowingRejected(narrow.missing)), tr;
    }
    tr := tr.(narrowHrefs := narrow.hrefs, resolved := resolution.allows);
    return AllLinked(scopeHrefs, narrow.hrefs, resolution.allows, resolution.deferred, resolution.created), tr;
  }

  method ReconcilePolicy(pce: Client, reference: string, inp: Input) returns (o: Outcome, ghost tr: Trace)
    requires ValidLabels(pce.store.labels)
    modifies pce
    ensures pce.faults >= old(pce.faults)
    ensures pce.faults > old(pce.faults) ==> o == Transient
    ensures o == Transient ==>
      || pce.faults > old(pce.faults)
      || inp.cluster == ClusterUnavailable || inp.namespace == NamespaceUnavailable
      || ALL_SERVICES_NAME !in old(pce.store).services
    ensures BackendTrace(old(pce.store), pce.store, reference, inp, tr, o)
  {
    hide LinkedInput, Built, RebuildFailed, ProvisionFailed, RuleSetStep, Deferred, Lists;
    if !inp.cluster.Ready? {
      tr := Trace(pce.store, pce.store, map[], [], [], []);
      return if inp.cluster == NotReady then ClusterProfileNotReady else Transient, tr;
    }
    var linking;
    linking, tr := LinkPolicy(pce, reference, inp);
    if linking.Halted? {
      return linking.outcome, tr;
    }
    var rebuild;
    ghost var written;
    rebuild, written :=
      RebuildAndProvision(pce, reference, inp, linking.scopeHrefs, linking.narrowHrefs, linking.resolved, tr);
    tr := tr.(written := written);
    match rebuild {
      case Conflict => return PCEStateConflict, tr;
      case Rebuilt(provisioned) => return Compiled(provisioned, linking.deferred, linking.created), tr;
      case RebuildTransient => return Transient, tr;
    }
  }

  lemma ScopeStaysListed(s: Store, t: Store, scope: LabelMap, hrefs: seq<Href>, allowed: set<Label>)
    requires LabelsGrow(s, t, allowed) && Entries(scope) <= s.labels.Keys
    requires Lists(hrefs, KnownHrefs(Entries(scope), s.labels))
    ensures Entries(scope) <= t.labels.Keys && Lists(hrefs, KnownHrefs(Entries(scope), t.labels))
  {
    assert KnownHrefs(Entries(scope), t.labels) == KnownHrefs(Entries(scope), s.labels);
  }

  // ----- What a reconcile answers -----

  /** A completed reconcile has provisioned exactly when the profile says so: automatically, or by hand and approved. */
  lemma ProvisionsExactlyWhenAllowed(s: Store, t: Store, reference: string, inp: Input, tr: Trace, o: Outcome)
    requires BackendTrace(s, t, reference, inp, tr, o) && o.Compiled?
    ensures inp.cluster.Ready?
    ensures o.provisioned <==>
      || inp.cluster.profile.provisioningMode == "auto"
      || (inp.cluster.profile.provisioningMode == "manual" && inp.approved)
  {
    hide RuleSetStep, Lists, Resolves, CwpMatch.IsDesired;
  }

  /** A policy compiles only in a managed namespace, and its scope is what the namespace is assigned under the
      scope keys: at least one label. */
  lemma ScopeIsAssigned(s: Store, t: Store, reference: string, inp: Input, tr: Trace, o: Outcome, d: CwpMatch.DesiredCwp)
    requires BackendTrace(s, t, reference, inp, tr, o) && o.Compiled?
    requires inp.namespace.NamespaceFound? && inp.cluster.Ready?
    requires CwpMatch.IsDesired(inp.glob, inp.namespace.ns, inp.cluster.profile.namespaceRules,
                                inp.cluster.profile.systemNamespaces, d)
    ensures d.managed && tr.scope != map[]
    ensures forall k :: k in tr.scope <==> k in d.labels && k in inp.cluster.profile.scopeKeys
    ensures forall k :: k in tr.scope ==> tr.scope[k] == d.labels[k]
  {
    hide RuleSetStep, Lists, Resolves, CwpMatch.IsDesired;
    var p := inp.cluster.profile;
    assert IsScope(inp, tr.scope);
    var e :| CwpMatch.IsDesired(inp.glob, inp.namespace.ns, p.namespaceRules, p.systemNamespaces, e)
      && e.managed && tr.scope == ScopeSubset(e.labels, p.scopeKeys);
    CwpMatch.DesiredIsUnique(inp.glob, inp.namespace.ns, p.namespaceRules, p.systemNamespaces, d, e);
  }

  // ----- Finalization -----

  ghost predicate FinalizeStep(s: Store, t: Store, reference: string, cluster: ClusterLookup, ok: bool) {
    match cluster
    case ClusterUnavailable => !ok && t == s
    case NotReady => ok && t == s
    case Ready(_) =>
      || (t == s && (ok ==> reference == "" || forall h :: !Owns(s, h, reference)))
      || (exists h :: reference != "" && Owns(s, h, reference)
            && (t == Removed(s, h) || (!ok && !s.draft[h].pendingDelete && t == Marked(s, h))))
  }

  method FinalizePolicy(pce: Client, reference: string, cluster: ClusterLookup) returns (ok: bool)
    modifies pce
    ensures pce.faults >= old(pce.faults)
    ensures ok <==> pce.faults == old(pce.faults) && cluster != ClusterUnavailable
    ensures FinalizeStep(old(pce.store), pce.store, reference, cluster, ok)
  {
    ghost var s := pce.store;
    if cluster == ClusterUnavailable {
      return false;
    }
    if cluster == NotReady {
      return true;
    }
    var found := pce.FindRuleSetByOwner(Owner(cluster.profile.dataSet, reference));
    if found.Err? {
      return false;
    }
    if found.value.None? {
      return true;
    }
    var rs := found.value.value;
    RemovedTwice(s, rs.href);
    if !rs.pendingDelete {
      var deleted := pce.DeleteRuleSet(rs.href);
      if deleted.Err? && deleted.error != NotFound {
        return false;
      }
    }
    var provisioned := pce.ProvisionRuleSet(rs.href);
    if provisioned.Err? && provisioned.error != NotFound {
      return false;
    }
    return true;
  }

  lemma RemovedTwice(s: Store, h: Href)
    requires h in s.draft
    ensures Removed(Marked(s, h), h) == Removed(s, h)
  {
    assert Marked(s, h).draft - {h} == s.draft - {h};
  }

  // ----- Repeating a reconcile -----

  lemma ScopeIsUnique(inp: Input, m: LabelMap, n: LabelMap)
    requires IsScope(inp, m) && IsScope(inp, n)
    ensures m == n
  {
    hide CwpMatch.IsDesired;
    var p := inp.cluster.profile;
    var d :| CwpMatch.IsDesired(inp.glob, inp.namespace.ns, p.namespaceRules, p.systemNamespaces, d)
      && d.managed && m == ScopeSubset(d.labels, p.scopeKeys);
    var e :| CwpMatch.IsDesired(inp.glob, inp.namespace.ns, p.namespaceRules, p.systemNamespaces, e)
      && e.managed && n == ScopeSubset(e.labels, p.scopeKeys);
    CwpMatch.DesiredIsUnique(inp.glob, inp.namespace.ns, p.namespaceRules, p.systemNamespaces, d, e);
  }

  /** Linking the same input twice against the same labels gives the same scope, and hrefs that differ at most
      in the order in which the maps were ranged over. */
  lemma LinksTheSame(inp: Input, tr: Trace, again: Trace)
    requires LinkedInput(inp, tr) && LinkedInput(inp, again) && tr.linked.labels == again.linked.labels
    ensures tr.scope == again.scope && SameInputs(tr.narrowHrefs, tr.resolved, again.narrowHrefs, again.resolved)
  {
    hide Lists, KnownHrefs, IsScope;
    ScopeIsUnique(inp, tr.scope, again.scope);
    ListsSameMultiset(tr.narrowHrefs, again.narrowHrefs, KnownHrefs(Entries(inp.narrow), tr.linked.labels));
    ResolvesUnique(inp.allows, tr.linked.labels, tr.resolved, again.resolved);
  }

  /** Nothing is left to mint when every wanted label exists. */
  lemma NothingToMint(s: Store, t: Store, allowed: set<Label>)
    requires LabelsGrow(s, t, allowed) && allowed <= s.labels.Keys
    ensures t == s
  {
    assert t.labels == s.labels;
  }

  /** A completed reconcile has linked its whole input, and touched no label since. */
  lemma CompletedLinking(s: Store, t: Store, uid: string, inp: Input, tr: Trace, o: Outcome)
    requires BackendTrace(s, t, uid, inp, tr, o) && o.Compiled?
    ensures LinkedInput(inp, tr) && t.labels == tr.linked.labels && t.services == tr.linked.services
  {
    hide LinkedInput, LabelsGrow, Accounted, RuleSetStep;
    var f :| Built(inp, uid, tr, f) && Ends(tr.written, f, t, o.provisioned);
    StepKeepsLabels(inp, uid, tr, f);
  }

  lemma StepKeepsLabels(inp: Input, uid: string, tr: Trace, h: Href)
    requires Built(inp, uid, tr, h)
    ensures tr.written.labels == tr.linked.labels && tr.written.services == tr.linked.services
  {
    hide RuleSetStep, Lists, Resolves, CwpMatch.IsDesired;
    StepKeepsUniqueAndOthers(tr.linked, tr.written, Body(inp, uid, tr), tr.narrowHrefs, tr.resolved, Ok(h));
  }

  lemma SecondLinking(s: Store, t: Store, u: Store, uid: string, inp: Input, tr: Trace, o: Outcome, again: Trace, o': Outcome)
    requires BackendTrace(s, t, uid, inp, tr, o) && o.Compiled?
    requires BackendTrace(t, u, uid, inp, again, o') && o'.Compiled?
    ensures again.linked == t && t.labels == tr.linked.labels && t.services == tr.linked.services && o'.created == []
  {
    hide Resolves, Lists, IsScope, LabelsGrow, Built, KnownHrefs;
    CompletedLinking(s, t, uid, inp, tr, o);
    if inp.mode == Create {
      NothingToMint(t, again.linked, Wanted(inp.allows));
    }
    ListsNothing(o'.created, again.linked.labels.Keys - t.labels.Keys);
  }

  lemma BuiltAgain(t: Store, inp: Input, uid: string, tr: Trace, again: Trace, f: Href, h: Href, provisioned: bool)
    requires Unique(tr.linked, uid) && uid != ""
    requires Built(inp, uid, tr, f) && Ends(tr.written, f, t, provisioned)
    requires Built(inp, uid, again, h) && again.linked == t
    requires SameInputs(tr.narrowHrefs, tr.resolved, again.narrowHrefs, again.resolved)
    ensures h == f && Editable(tr.written, f) && Editable(again.written, h) && t.draft == tr.written.draft
    ensures again.written == WithDraft(t, h, again.written.draft[h])
    ensures again.written.draft[h].body == t.draft[h].body
    ensures SameRules(Bare(t.draft[h].rules), Bare(again.written.draft[h].rules))
  {
    hide RuleSetStep, Lists, Resolves, CwpMatch.IsDesired, SameRules, SameInputs, RulesFor, Body;
    var body, body' := Body(inp, uid, tr), Body(inp, uid, again);
    assert body.reference == body'.reference == uid by {
      BodyMeans(inp, uid, tr);
      BodyMeans(inp, uid, again);
    }
    CompletedRun(tr.linked, tr.written, body, tr.narrowHrefs, tr.resolved, f);
    assert Owns(tr.written, f, uid);
    forall o ensures Owns(t, o, uid) <==> o == f {
      assert Owns(t, o, uid) <==> Owns(tr.written, o, uid);
    }
    CompletedRun(t, again.written, body', again.narrowHrefs, again.resolved, h);
    assert Owns(t, f, uid);
    SameInputsSameRules(tr.narrowHrefs, tr.resolved, again.narrowHrefs, again.resolved, AllServices(t));
  }

  /** The ruleset is named after namespace and CR, enabled, and stamped with the data set and the owner. */
  lemma BodyMeans(inp: Input, uid: string, tr: Trace)
    requires inp.cluster.Ready?
    ensures var body := Body(inp, uid, tr);
      && body.name == "k8s-" + inp.namespaceName + "-" + inp.crName && body.enabled
      && body.dataSet == inp.cluster.profile.dataSet && body.reference == uid
      && |body.scopes| == 1 && ScopeHrefs(body.scopes[0]) == tr.scopeHrefs
  {
  }

  /** Reconciling again with unchanged inputs completes on the same ruleset and changes nothing but rule
      identifiers and the order of the actors within a rule, in the draft and in what is active; no label is
      created the second time. */
  lemma RepeatedReconcileIsStable(s: Store, t: Store, u: Store, uid: string, inp: Input, tr: Trace, o: Outcome,
                                  again: Trace, o': Outcome) returns (h: Href)
    requires Unique(s, uid) && uid != ""
    requires BackendTrace(s, t, uid, inp, tr, o) && o.Compiled?
    requires BackendTrace(t, u, uid, inp, again, o') && o'.Compiled?
    ensures o'.created == [] && u.labels == t.labels && u.services == t.services
    ensures h in t.draft && h in u.draft && u.draft == t.draft[h := u.draft[h]]
    ensures u.draft[h].body == t.draft[h].body && SameRules(Bare(t.draft[h].rules), Bare(u.draft[h].rules))
    ensures o.provisioned == o'.provisioned
    ensures if o.provisioned then
              && h in t.active && h in u.active && u.active == t.active[h := u.active[h]]
              && u.active[h].body == t.active[h].body && SameRules(t.active[h].rules, u.active[h].rules)
            else u.active == t.active
  {
    hide RuleSetStep, LinkedInput, SameRules, SameInputs, Wanted, Accounted, Unique;
    var f :| Built(inp, uid, tr, f) && Ends(tr.written, f, t, o.provisioned);
    h :| Built(inp, uid, again, h) && Ends(again.written, h, u, o'.provisioned);
    SecondLinking(s, t, u, uid, inp, tr, o, again, o');
    LinksTheSame(inp, tr, again);
    StillUnique(s, tr.linked, uid, Wanted(inp.allows));
    BuiltAgain(t, inp, uid, tr, again, f, h, o.provisioned);
  }

  lemma StillUnique(s: Store, t: Store, uid: string, allowed: set<Label>)
    requires Unique(s, uid) && LabelsGrow(s, t, allowed)
    ensures Unique(t, uid)
  {
    forall h ensures Owns(t, h, uid) <==> Owns(s, h, uid) {
    }
  }
}
