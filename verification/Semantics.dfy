/**
 * What policy means: which workload may reach which workload on which port,
 * according to a PCE ruleset and according to the two front-end languages.
 */
module Semantics {
  import opened Wrappers
  import opened Pce
  import opened PolicyIR
  import opened Resolution

  /** A workload is known by its labels. */
  type Workload = LabelMap

  datatype Flow = Flow(proto: int, port: int)

  // ----- Meaning of a provisioned ruleset -----

  ghost predicate Carries(labels: map<Label, Href>, w: Workload, h: Href) {
    exists l :: l in Entries(w) && l in labels && labels[l] == h
  }

  ghost predicate CarriesAll(labels: map<Label, Href>, w: Workload, hrefs: seq<Href>) {
    forall h :: h in hrefs ==> Carries(labels, w, h)
  }

  function ScopeHrefs(scope: seq<ScopeEntry>): seq<Href> {
    seq(|scope|, i requires 0 <= i < |scope| => scope[i].labelRef)
  }

  ghost predicate InScope(labels: map<Label, Href>, scopes: seq<seq<ScopeEntry>>, w: Workload) {
    exists i :: 0 <= i < |scopes| && CarriesAll(labels, w, ScopeHrefs(scopes[i]))
  }

  /** All Workloads matches everyone; label actors match who carries every one of them. */
  ghost predicate ActorsMatch(labels: map<Label, Href>, actors: seq<Actor>, w: Workload) {
    || AllWorkloads in actors
    || (actors != [] && forall a :: a in actors ==> a.LabelActor? && Carries(labels, w, a.href))
  }

  ghost predicate ServiceMatches(services: map<string, Href>, s: IngressService, f: Flow) {
    match s
    case Inline(proto, port) => proto == f.proto && port == f.port
    case ServiceRef(h) => ALL_SERVICES_NAME in services && services[ALL_SERVICES_NAME] == h
  }

  ghost predicate RulePermits(s: Store, scopes: seq<seq<ScopeEntry>>, rule: SecRule, c: Workload, p: Workload, f: Flow) {
    && rule.enabled
    && InScope(s.labels, scopes, p) && ActorsMatch(s.labels, rule.providers, p)
    && ActorsMatch(s.labels, rule.consumers, c)
    && (rule.unscopedConsumers || InScope(s.labels, scopes, c))
    && exists i :: 0 <= i < |rule.ingressServices| && ServiceMatches(s.services, rule.ingressServices[i], f)
  }

  /** Consumer c may reach provider p on f. */
  ghost predicate Permits(s: Store, rs: ActiveRuleSet, c: Workload, p: Workload, f: Flow) {
    && rs.body.enabled
    && exists i :: 0 <= i < |rs.rules| && RulePermits(s, rs.body.scopes, rs.rules[i], c, p, f)
  }

  // ----- Meaning of the front-end languages -----

  predicate Has(w: Workload, m: LabelMap) {
    forall k :: k in m ==> k in w && w[k] == m[k]
  }

  ghost predicate PortsAllow(ports: seq<Port>, f: Flow) {
    ports == [] || exists i :: 0 <= i < |ports| && PortAllows(ports[i], f)
  }

  /** UDP names protocol 17; TCP, also when the protocol is left out, names 6. */
  predicate PortAllows(p: Port, f: Flow) {
    p.port == f.port && f.proto == if p.protocol == "UDP" then 17 else 6
  }

  /** `scope` are the labels that identify the namespace's app. */
  ghost predicate IntentDenotes(spec: IntentSpec, scope: LabelMap, c: Workload, p: Workload, f: Flow) {
    && Has(p, scope) && Has(p, spec.provider)
    && (|| (spec.allowIntraNamespace && Has(c, scope))
        || exists i :: 0 <= i < |spec.allow| && IntentEntryAdmits(spec.allow[i], scope, c, f))
  }

  ghost predicate IntentEntryAdmits(a: IntentAllow, scope: LabelMap, c: Workload, f: Flow) {
    && (if a.from != map[] then Has(c, a.from) else Has(c, a.fromIntraNamespace) && Has(c, scope))
    && PortsAllow(a.ports, f)
  }

  /** The Kubernetes meaning of a selector: every label and every expression. */
  predicate Selects(s: LabelSelector, w: Workload) {
    && Has(w, s.matchLabels)
    && forall i :: 0 <= i < |s.matchExpressions| ==> Satisfies(w, s.matchExpressions[i])
  }

  predicate Satisfies(w: Workload, e: MatchExpression) {
    match e.operator
    case "In" => e.key in w && w[e.key] in e.values
    case "NotIn" => e.key !in w || w[e.key] !in e.values
    case "Exists" => e.key in w
    case "DoesNotExist" => e.key !in w
    case _ => false
  }

  /** NetworkPolicy reading: a flow passes when some rule lists its port and some peer of that rule its source. */
  ghost predicate PolicyDenotes(spec: PolicySpec, scope: LabelMap, c: Workload, p: Workload, f: Flow) {
    && Has(p, scope) && Selects(spec.podSelector, p)
    && RulesAdmit(spec.ingress, scope, c, f)
  }

  ghost predicate RulesAdmit(rules: seq<IngressRule>, scope: LabelMap, c: Workload, f: Flow) {
    exists i :: 0 <= i < |rules| && PortsAllow(rules[i].ports, f) && PeersAdmit(rules[i].from, scope, c)
  }

  /** A rule without peers names every source. */
  ghost predicate PeersAdmit(peers: seq<Peer>, scope: LabelMap, c: Workload) {
    peers == [] || exists j :: 0 <= j < |peers| && PeerAdmits(peers[j], scope, c)
  }

  /** A peer selects by each selector it has; without a namespaceSelector, in the namespace's own app. */
  predicate PeerAdmits(peer: Peer, scope: LabelMap, c: Workload) {
    && (peer.podSelector.Some? || peer.namespaceSelector.Some?)
    && (peer.podSelector.Some? ==> Selects(peer.podSelector.value, c))
    && (if peer.namespaceSelector.Some? then Selects(peer.namespaceSelector.value, c) else Has(c, scope))
  }

  // ----- Meaning of the intermediate representation -----

  ghost predicate AllowAdmits(a: CompiledAllow, scope: LabelMap, c: Workload, f: Flow) {
    && (a.allWorkloads || Has(c, a.from))
    && (a.intraScope ==> Has(c, scope))
    && ServicesAdmit(a.ports, f)
  }

  ghost predicate ServicesAdmit(ports: seq<IngressService>, f: Flow) {
    ports == [] || exists i :: 0 <= i < |ports| && ports[i] == Inline(f.proto, f.port)
  }

  ghost predicate AllowsAdmit(allows: seq<CompiledAllow>, scope: LabelMap, c: Workload, f: Flow) {
    exists i :: 0 <= i < |allows| && AllowAdmits(allows[i], scope, c, f)
  }

  /** What compiled entries mean in an app with these scope labels, for providers narrowed by `narrow`. */
  ghost predicate Meaning(narrow: LabelMap, allows: seq<CompiledAllow>, scope: LabelMap, c: Workload, p: Workload, f: Flow) {
    Has(p, scope) && Has(p, narrow) && AllowsAdmit(allows, scope, c, f)
  }

  predicate InlinePorts(allows: seq<CompiledAllow>) {
    forall i, j :: 0 <= i < |allows| && 0 <= j < |allows[i].ports| ==> allows[i].ports[j].Inline?
  }

  /** The labels of a consumer that the PCE knows. */
  function KnownPart(from: LabelMap, labels: map<Label, Href>): LabelMap {
    map k | k in from && Label(k, from[k]) in labels :: from[k]
  }

  /** What skip mode keeps: entries without a known label go, the others lose their unknown labels. */
  function Pruned(allows: seq<CompiledAllow>, labels: map<Label, Href>): seq<CompiledAllow> {
    if allows == [] then []
    else
      var n := |allows| - 1;
      var a := allows[n];
      if Kept(a, labels) then Pruned(allows[..n], labels) + [PrunedAllow(a, labels)]
      else Pruned(allows[..n], labels)
  }

  function PrunedAllow(a: CompiledAllow, labels: map<Label, Href>): CompiledAllow {
    if a.allWorkloads then a else a.(from := KnownPart(a.from, labels))
  }

  /** The ruleset is enabled, and its scope consists of exactly these labels. */
  ghost predicate StoredScope(labels: map<Label, Href>, body: RuleSet, scope: LabelMap) {
    && body.enabled && |body.scopes| == 1
    && Entries(scope) <= labels.Keys && Lists(ScopeHrefs(body.scopes[0]), KnownHrefs(Entries(scope), labels))
  }

  /** A ruleset as the backend writes it for these entries: scope, narrowed provider, one rule per kept entry. */
  ghost predicate Linked(s: Store, scope: LabelMap, narrow: LabelMap, allows: seq<CompiledAllow>, rs: ActiveRuleSet) {
    && StoredScope(s.labels, rs.body, scope)
    && LinkedRules(s, narrow, allows, rs.rules)
  }

  ghost predicate LinkedRules(s: Store, narrow: LabelMap, allows: seq<CompiledAllow>, rules: seq<SecRule>) {
    && Entries(narrow) <= s.labels.Keys
    && exists hrefs, out :: RulesOf(s, narrow, allows, hrefs, out, rules)
  }

  ghost predicate RulesOf(s: Store, narrow: LabelMap, allows: seq<CompiledAllow>,
                          hrefs: seq<Href>, out: seq<ResolvedAllow>, rules: seq<SecRule>)
  {
    && Lists(hrefs, KnownHrefs(Entries(narrow), s.labels))
    && Resolves(allows, s.labels, out)
    && rules == RulesFor(hrefs, AllServices(s), out)
    && ((exists i :: 0 <= i < |out| && out[i].ports == []) ==> ALL_SERVICES_NAME in s.services)
  }

  function AllServices(s: Store): Href {
    if ALL_SERVICES_NAME in s.services then s.services[ALL_SERVICES_NAME] else ""
  }

  // ----- Linking and emission preserve meaning -----

  lemma CarriesKnown(labels: map<Label, Href>, w: Workload, m: LabelMap, hrefs: seq<Href>)
    requires ValidLabels(labels) && Lists(hrefs, KnownHrefs(Entries(m), labels))
    ensures CarriesAll(labels, w, hrefs) <==> Has(w, KnownPart(m, labels))
  {
    if CarriesAll(labels, w, hrefs) {
      forall k | k in m && Label(k, m[k]) in labels ensures k in w && w[k] == m[k] {
        assert Label(k, m[k]) in Entries(m);
        assert labels[Label(k, m[k])] in hrefs;
      }
    }
    if Has(w, KnownPart(m, labels)) {
      forall h | h in hrefs ensures Carries(labels, w, h) {
        var l :| l in Entries(m) && l in labels && labels[l] == h;
        assert l.key in KnownPart(m, labels);
        assert l in Entries(w);
      }
    }
  }

  lemma KnownPartOfKnown(m: LabelMap, labels: map<Label, Href>)
    requires Entries(m) <= labels.Keys
    ensures KnownPart(m, labels) == m
  {
    forall k | k in m ensures Label(k, m[k]) in labels {
      assert Label(k, m[k]) in Entries(m);
    }
  }

  lemma LabelActorsMatch(labels: map<Label, Href>, hrefs: seq<Href>, w: Workload)
    requires hrefs != []
    ensures ActorsMatch(labels, LabelActors(hrefs), w) <==> CarriesAll(labels, w, hrefs)
  {
    var actors := LabelActors(hrefs);
    forall h | h in hrefs ensures LabelActor(h) in actors {
      var i :| 0 <= i < |hrefs| && hrefs[i] == h;
      assert actors[i] == LabelActor(h);
    }
    forall a | a in actors ensures a.LabelActor? && a.href in hrefs {
    }
  }

  /** One emitted rule permits what its pruned entry admits, to providers in scope that match the narrowing. */
  lemma RuleMeaning(s: Store, scope: LabelMap, narrow: LabelMap, stored: seq<ScopeEntry>, hrefs: seq<Href>,
                    a: CompiledAllow, r: ResolvedAllow, c: Workload, p: Workload, f: Flow)
    requires ValidLabels(s.labels)
    requires Entries(scope) <= s.labels.Keys && Lists(ScopeHrefs(stored), KnownHrefs(Entries(scope), s.labels))
    requires Entries(narrow) <= s.labels.Keys && Lists(hrefs, KnownHrefs(Entries(narrow), s.labels))
    requires Kept(a, s.labels) && ResolvesTo(a, s.labels, r)
    requires a.allWorkloads || a.from != map[]
    requires forall j :: 0 <= j < |a.ports| ==> a.ports[j].Inline?
    requires a.ports == [] ==> ALL_SERVICES_NAME in s.services
    ensures RulePermits(s, [stored], RuleFor(hrefs, AllServices(s), r), c, p, f)
      <==> Has(p, scope) && Has(p, narrow)
           && AllowAdmits(PrunedAllow(a, s.labels), scope, c, f)
  {
    var rule := RuleFor(hrefs, AllServices(s), r);
    forall w: Workload ensures InScope(s.labels, [stored], w) <==> Has(w, scope) {
      KnownPartOfKnown(scope, s.labels);
      CarriesKnown(s.labels, w, scope, ScopeHrefs(stored));
      assert InScope(s.labels, [stored], w) <==> CarriesAll(s.labels, w, ScopeHrefs([stored][0]));
    }
    NarrowMeaning(s, narrow, hrefs, p);
    ConsumersMeaning(s, a, r, c);
    if a.ports == [] {
      assert rule.ingressServices[0] == ServiceRef(AllServices(s));
      assert ServiceMatches(s.services, rule.ingressServices[0], f);
    } else {
      assert forall j :: 0 <= j < |a.ports| ==>
        (ServiceMatches(s.services, a.ports[j], f) <==> a.ports[j] == Inline(f.proto, f.port));
    }
  }

  lemma NarrowMeaning(s: Store, narrow: LabelMap, hrefs: seq<Href>, p: Workload)
    requires ValidLabels(s.labels)
    requires Entries(narrow) <= s.labels.Keys && Lists(hrefs, KnownHrefs(Entries(narrow), s.labels))
    ensures ActorsMatch(s.labels, if hrefs == [] then [AllWorkloads] else LabelActors(hrefs), p) <==> Has(p, narrow)
  {
    KnownPartOfKnown(narrow, s.labels);
    CarriesKnown(s.labels, p, narrow, hrefs);
    if hrefs == [] {
      assert AllWorkloads in [AllWorkloads];
    } else {
      LabelActorsMatch(s.labels, hrefs, p);
    }
  }

  lemma ConsumersMeaning(s: Store, a: CompiledAllow, r: ResolvedAllow, c: Workload)
    requires ValidLabels(s.labels) && Kept(a, s.labels) && ResolvesTo(a, s.labels, r)
    requires a.allWorkloads || a.from != map[]
    ensures ActorsMatch(s.labels, if r.allWorkloads then [AllWorkloads] else LabelActors(r.consumerHrefs), c)
      <==> (a.allWorkloads || Has(c, KnownPart(a.from, s.labels)))
  {
    if a.allWorkloads {
      assert AllWorkloads in [AllWorkloads];
    } else {
      var k :| k in a.from;
      assert Label(k, a.from[k]) in WantedByOne(a);
      var l :| l in WantedByOne(a) && l in s.labels;
      assert s.labels[l] in KnownHrefs(WantedByOne(a), s.labels);
      CarriesKnown(s.labels, c, a.from, r.consumerHrefs);
      LabelActorsMatch(s.labels, r.consumerHrefs, c);
    }
  }

  ghost predicate SomeRulePermits(s: Store, scopes: seq<seq<ScopeEntry>>, rules: seq<SecRule>, c: Workload, p: Workload, f: Flow) {
    exists i :: 0 <= i < |rules| && RulePermits(s, scopes, rules[i], c, p, f)
  }

  lemma {:induction false} RulesMeaning(
      s: Store, scope: LabelMap, narrow: LabelMap, stored: seq<ScopeEntry>, hrefs: seq<Href>,
      allows: seq<CompiledAllow>, out: seq<ResolvedAllow>, c: Workload, p: Workload, f: Flow)
    requires ValidLabels(s.labels)
    requires Entries(scope) <= s.labels.Keys && Lists(ScopeHrefs(stored), KnownHrefs(Entries(scope), s.labels))
    requires Entries(narrow) <= s.labels.Keys && Lists(hrefs, KnownHrefs(Entries(narrow), s.labels))
    requires Resolves(allows, s.labels, out) && Compiled(allows) && InlinePorts(allows)
    requires (exists i :: 0 <= i < |out| && out[i].ports == []) ==> ALL_SERVICES_NAME in s.services
    ensures SomeRulePermits(s, [stored], RulesFor(hrefs, AllServices(s), out), c, p, f)
      <==> Has(p, scope) && Has(p, narrow) && AllowsAdmit(Pruned(allows, s.labels), scope, c, f)
  {
    if allows == [] {
    } else {
      var n, m := |allows| - 1, |out| - 1;
      var a := allows[n];
      if Kept(a, s.labels) {
        RulesMeaning(s, scope, narrow, stored, hrefs, allows[..n], out[..m], c, p, f);
        RuleMeaning(s, scope, narrow, stored, hrefs, a, out[m], c, p, f);
        var rule := RuleFor(hrefs, AllServices(s), out[m]);
        assert RulesFor(hrefs, AllServices(s), out) == RulesFor(hrefs, AllServices(s), out[..m]) + [rule];
        LastRule(s, [stored], RulesFor(hrefs, AllServices(s), out[..m]), rule, c, p, f);
        LastAllow(Pruned(allows[..n], s.labels), PrunedAllow(a, s.labels), scope, c, f);
      } else {
        RulesMeaning(s, scope, narrow, stored, hrefs, allows[..n], out, c, p, f);
      }
    }
  }

  lemma LastRule(s: Store, scopes: seq<seq<ScopeEntry>>, rules: seq<SecRule>, rule: SecRule, c: Workload, p: Workload, f: Flow)
    ensures SomeRulePermits(s, scopes, rules + [rule], c, p, f)
      <==> SomeRulePermits(s, scopes, rules, c, p, f) || RulePermits(s, scopes, rule, c, p, f)
  {
    var all := rules + [rule];
    assert all[|rules|] == rule;
    assert forall i :: 0 <= i < |rules| ==> all[i] == rules[i];
  }

  lemma LastAllow(allows: seq<CompiledAllow>, a: CompiledAllow, scope: LabelMap, c: Workload, f: Flow)
    ensures AllowsAdmit(allows + [a], scope, c, f) <==> AllowsAdmit(allows, scope, c, f) || AllowAdmits(a, scope, c, f)
  {
    var all := allows + [a];
    assert all[|allows|] == a;
    assert forall i :: 0 <= i < |allows| ==> all[i] == allows[i];
  }

  /** In every mode the ruleset permits exactly what the entries mean once pruned to the known labels. */
  lemma {:induction false} LinkedMeaning(s: Store, scope: LabelMap, narrow: LabelMap, allows: seq<CompiledAllow>, rs: ActiveRuleSet,
                      c: Workload, p: Workload, f: Flow)
    requires ValidLabels(s.labels) && Linked(s, scope, narrow, allows, rs)
    requires Compiled(allows) && InlinePorts(allows)
    ensures Permits(s, rs, c, p, f) <==> Meaning(narrow, Pruned(allows, s.labels), scope, c, p, f)
  {
    var hrefs, out :| RulesOf(s, narrow, allows, hrefs, out, rs.rules);
    RulesMeaning(s, scope, narrow, rs.body.scopes[0], hrefs, allows, out, c, p, f);
    assert rs.body.scopes == [rs.body.scopes[0]];
    assert Permits(s, rs, c, p, f) <==> SomeRulePermits(s, rs.body.scopes, rs.rules, c, p, f);
  }

  lemma PrunedAllowOfKnown(a: CompiledAllow, labels: map<Label, Href>)
    requires WantedByOne(a) <= labels.Keys
    ensures Kept(a, labels) && PrunedAllow(a, labels) == a
  {
    if !a.allWorkloads {
      KnownPartOfKnown(a.from, labels);
    }
  }

  lemma {:induction false} PrunedOfKnown(allows: seq<CompiledAllow>, labels: map<Label, Href>)
    requires Wanted(allows) <= labels.Keys
    ensures Pruned(allows, labels) == allows
  {
    hide Kept, PrunedAllow, WantedByOne;
    if allows == [] {
    } else {
      var n := |allows| - 1;
      PrunedOfKnown(allows[..n], labels);
      PrunedAllowOfKnown(allows[n], labels);
      assert allows == allows[..n] + [allows[n]];
    }
  }

  // ----- The meaning of a ruleset lasts -----

  /** What the PCE held under the names of s, it still holds under the same names in t. */
  ghost predicate KeepsNames(s: Store, t: Store) {
    && ValidLabels(t.labels)
    && (forall l :: l in s.labels ==> l in t.labels && t.labels[l] == s.labels[l])
    && (ALL_SERVICES_NAME in s.services ==> ALL_SERVICES_NAME in t.services)
    && AllServices(t) == AllServices(s)
  }

  lemma PrunedOne(a: CompiledAllow, labels: map<Label, Href>, r: ResolvedAllow)
    requires Kept(a, labels) && ResolvesTo(a, labels, r)
    ensures Kept(PrunedAllow(a, labels), labels) && ResolvesTo(PrunedAllow(a, labels), labels, r)
    ensures WantedByOne(PrunedAllow(a, labels)) <= labels.Keys
  {
    var ls, kept := WantedByOne(a), WantedByOne(PrunedAllow(a, labels));
    forall l ensures l in kept <==> l in ls && l in labels {
      if !a.allWorkloads && l in ls && l in labels {
        assert l.key in KnownPart(a.from, labels);
      }
    }
    assert KnownHrefs(kept, labels) == KnownHrefs(ls, labels);
    if l :| l in ls && l in labels {
      assert l in kept;
    }
  }

  /** The pruned entries resolve as the entries do, and name no unknown label. */
  lemma {:induction false} PrunedResolves(allows: seq<CompiledAllow>, labels: map<Label, Href>, out: seq<ResolvedAllow>)
    requires Resolves(allows, labels, out)
    ensures Resolves(Pruned(allows, labels), labels, out) && Wanted(Pruned(allows, labels)) <= labels.Keys
  {
    hide Kept, PrunedAllow, ResolvesTo, WantedByOne;
    if allows != [] {
      var n, m := |allows| - 1, |out| - 1;
      var a := allows[n];
      if Kept(a, labels) {
        PrunedResolves(allows[..n], labels, out[..m]);
        PrunedOne(a, labels, out[m]);
        assert Pruned(allows, labels)[..|Pruned(allows, labels)| - 1] == Pruned(allows[..n], labels);
      } else {
        PrunedResolves(allows[..n], labels, out);
      }
    }
  }

  lemma {:induction false} PrunedShape(allows: seq<CompiledAllow>, labels: map<Label, Href>)
    requires Compiled(allows) && InlinePorts(allows)
    ensures Compiled(Pruned(allows, labels)) && InlinePorts(Pruned(allows, labels))
  {
    if allows != [] {
      var n := |allows| - 1;
      var a := allows[n];
      PrunedShape(allows[..n], labels);
      if Kept(a, labels) && !a.allWorkloads {
        var k :| k in a.from;
        assert Label(k, a.from[k]) in WantedByOne(a);
        var l :| l in WantedByOne(a) && l in labels;
        assert l.key in KnownPart(a.from, labels);
      }
    }
  }

  lemma {:induction false} LinkedStays(s: Store, t: Store, scope: LabelMap, narrow: LabelMap, allows: seq<CompiledAllow>, rs: ActiveRuleSet)
    requires KeepsNames(s, t) && Linked(s, scope, narrow, allows, rs)
    ensures Linked(t, scope, narrow, Pruned(allows, s.labels), rs) && Wanted(Pruned(allows, s.labels)) <= t.labels.Keys
  {
    var hrefs: seq<Href>, out: seq<ResolvedAllow> :| RulesOf(s, narrow, allows, hrefs, out, rs.rules);
    PrunedResolves(allows, s.labels, out);
    ResolvesGrow(Pruned(allows, s.labels), s.labels, t.labels, out);
    assert KnownHrefs(Entries(scope), t.labels) == KnownHrefs(Entries(scope), s.labels);
    assert KnownHrefs(Entries(narrow), t.labels) == KnownHrefs(Entries(narrow), s.labels);
    assert (exists i :: 0 <= i < |out| && out[i].ports == []) ==> ALL_SERVICES_NAME in t.services;
    assert RulesOf(t, narrow, Pruned(allows, s.labels), hrefs, out, rs.rules);
  }

  /** A ruleset linked in s means in t what it meant in s: labels that appear later do not change it. */
  lemma {:induction false} LinkedMeaningLasts(s: Store, t: Store, scope: LabelMap, narrow: LabelMap, allows: seq<CompiledAllow>,
                           rs: ActiveRuleSet, c: Workload, p: Workload, f: Flow)
    requires KeepsNames(s, t) && Linked(s, scope, narrow, allows, rs)
    requires Compiled(allows) && InlinePorts(allows)
    ensures Permits(t, rs, c, p, f) <==> Meaning(narrow, Pruned(allows, s.labels), scope, c, p, f)
  {
    hide Linked, Meaning, Permits;
    LinkedStays(s, t, scope, narrow, allows, rs);
    PrunedShape(allows, s.labels);
    LinkedMeaning(t, scope, narrow, Pruned(allows, s.labels), rs, c, p, f);
    PrunedOfKnown(Pruned(allows, s.labels), t.labels);
  }

  /** Whoever a ruleset with one scope lets in carries the scope's labels: if these no longer form a label
      map of the PCE, the ruleset permits nothing. */
  lemma PermitsNeedsScope(s: Store, rs: ActiveRuleSet, c: Workload, p: Workload, f: Flow) returns (scope: LabelMap)
    requires Permits(s, rs, c, p, f) && ValidLabels(s.labels) && |rs.body.scopes| == 1
    requires forall i, j :: 0 <= i < j < |rs.body.scopes[0]| ==> rs.body.scopes[0][i] != rs.body.scopes[0][j]
    ensures StoredScope(s.labels, rs.body, scope) && Has(p, scope)
  {
    var hrefs := ScopeHrefs(rs.body.scopes[0]);
    scope := map k | k in p && Label(k, p[k]) in s.labels && s.labels[Label(k, p[k])] in hrefs :: p[k];
    forall h | h in hrefs ensures h in KnownHrefs(Entries(scope), s.labels) {
      assert CarriesAll(s.labels, p, hrefs);
      var l :| l in Entries(p) && l in s.labels && s.labels[l] == h;
      assert l.key in scope;
      assert l in Entries(scope);
    }
  }

  // ----- The compilers preserve meaning -----

  lemma PortsMeaning(ports: seq<Port>, f: Flow)
    ensures ServicesAdmit(LoweredPorts(ports), f) <==> PortsAllow(ports, f)
  {
    var lowered := LoweredPorts(ports);
    assert forall i :: 0 <= i < |ports| ==> (lowered[i] == Inline(f.proto, f.port) <==> PortAllows(ports[i], f));
  }

  lemma EntriesMeaning(allow: seq<IntentAllow>, scope: LabelMap, c: Workload, f: Flow)
    requires forall i :: 0 <= i < |allow| ==> OneSource(allow[i])
    ensures AllowsAdmit(LoweredAllows(allow), scope, c, f)
      <==> exists i :: 0 <= i < |allow| && IntentEntryAdmits(allow[i], scope, c, f)
    ensures InlinePorts(LoweredAllows(allow))
  {
    forall i | 0 <= i < |allow|
      ensures AllowAdmits(LoweredAllows(allow)[i], scope, c, f) <==> IntentEntryAdmits(allow[i], scope, c, f)
    {
      PortsMeaning(allow[i].ports, f);
    }
  }

  lemma IntentMeaning(spec: IntentSpec, scope: LabelMap, c: Workload, f: Flow)
    requires IntentCompiles(spec)
    ensures AllowsAdmit(IntentAllows(spec), scope, c, f)
      <==> (spec.allowIntraNamespace && Has(c, scope))
           || exists i :: 0 <= i < |spec.allow| && IntentEntryAdmits(spec.allow[i], scope, c, f)
    ensures InlinePorts(IntentAllows(spec))
  {
    var first := if spec.allowIntraNamespace then [INTRA_NAMESPACE_SHORTCUT] else [];
    assert spec.allowIntraNamespace ==> (AllowAdmits(first[0], scope, c, f) <==> Has(c, scope));
    EntriesMeaning(spec.allow, scope, c, f);
    AllowsConcat(first, LoweredAllows(spec.allow), scope, c, f);
  }

  lemma RuleAllowsMeaning(r: IngressRule, scope: LabelMap, c: Workload, f: Flow)
    requires SupportedRule(r)
    ensures AllowsAdmit(RuleAllows(r), scope, c, f) <==> PortsAllow(r.ports, f) && PeersAdmit(r.from, scope, c)
    ensures InlinePorts(RuleAllows(r))
  {
    var allows := RuleAllows(r);
    PortsMeaning(r.ports, f);
    forall j | 0 <= j < |r.from|
      ensures AllowAdmits(allows[j], scope, c, f) <==> PortsAllow(r.ports, f) && PeerAdmits(r.from[j], scope, c)
    {
      assert SupportedPeer(r.from[j]);
    }
  }

  lemma {:induction false} PolicyMeaning(rules: seq<IngressRule>, scope: LabelMap, c: Workload, f: Flow)
    requires SupportedRules(rules)
    ensures AllowsAdmit(RulesAllows(rules), scope, c, f) <==> RulesAdmit(rules, scope, c, f)
    ensures InlinePorts(RulesAllows(rules))
  {
    if rules == [] {
    } else {
      var n := |rules| - 1;
      PolicyMeaning(rules[..n], scope, c, f);
      RuleAllowsMeaning(rules[n], scope, c, f);
      AllowsConcat(RulesAllows(rules[..n]), RuleAllows(rules[n]), scope, c, f);
      assert RulesAdmit(rules, scope, c, f) <==>
        RulesAdmit(rules[..n], scope, c, f) || (PortsAllow(rules[n].ports, f) && PeersAdmit(rules[n].from, scope, c));
    }
  }

  lemma AllowsConcat(xs: seq<CompiledAllow>, ys: seq<CompiledAllow>, scope: LabelMap, c: Workload, f: Flow)
    ensures AllowsAdmit(xs + ys, scope, c, f) <==> AllowsAdmit(xs, scope, c, f) || AllowsAdmit(ys, scope, c, f)
    ensures InlinePorts(xs) && InlinePorts(ys) ==> InlinePorts(xs + ys)
  {
    assert forall i :: 0 <= i < |xs| ==> (xs + ys)[i] == xs[i];
    assert forall i :: 0 <= i < |ys| ==> (xs + ys)[|xs| + i] == ys[i];
    if i :| 0 <= i < |ys| && AllowAdmits(ys[i], scope, c, f) {
      assert AllowAdmits((xs + ys)[|xs| + i], scope, c, f);
    }
  }

  /** End to end: when every named label exists, as strict and create mode guarantee, the ruleset the
      backend writes permits exactly the flows the intent denotes. */
  lemma IntentPreserved(s: Store, spec: IntentSpec, scope: LabelMap, rs: ActiveRuleSet, c: Workload, p: Workload, f: Flow)
    requires ValidLabels(s.labels) && IntentCompiles(spec)
    requires Linked(s, scope, spec.provider, IntentAllows(spec), rs)
    requires Wanted(IntentAllows(spec)) <= s.labels.Keys
    ensures Permits(s, rs, c, p, f) <==> IntentDenotes(spec, scope, c, p, f)
  {
    IntentMeaning(spec, scope, c, f);
    IntentIsCompiled(spec);
    LinkedMeaning(s, scope, spec.provider, IntentAllows(spec), rs, c, p, f);
    PrunedOfKnown(IntentAllows(spec), s.labels);
  }

  lemma PolicyPreserved(s: Store, spec: PolicySpec, scope: LabelMap, rs: ActiveRuleSet, c: Workload, p: Workload, f: Flow)
    requires ValidLabels(s.labels) && PolicyCompiles(spec)
    requires Linked(s, scope, spec.podSelector.matchLabels, RulesAllows(spec.ingress), rs)
    requires Wanted(RulesAllows(spec.ingress)) <= s.labels.Keys
    ensures Permits(s, rs, c, p, f) <==> PolicyDenotes(spec, scope, c, p, f)
  {
    PolicyMeaning(spec.ingress, scope, c, f);
    PolicyIsCompiled(spec.ingress);
    LinkedMeaning(s, scope, spec.podSelector.matchLabels, RulesAllows(spec.ingress), rs, c, p, f);
    PrunedOfKnown(RulesAllows(spec.ingress), s.labels);
  }

  // ----- Skip mode -----

  /** Workloads the PCE can hold: it knows every label they carry. */
  predicate InPce(w: Workload, labels: map<Label, Href>) {
    Entries(w) <= labels.Keys
  }

  predicate PartlyKnown(from: LabelMap, labels: map<Label, Href>) {
    (exists l :: l in Entries(from) && l in labels) && (exists l :: l in Entries(from) && l !in labels)
  }

  ghost predicate SkipAdmits(a: CompiledAllow, labels: map<Label, Href>, c: Workload) {
    Kept(a, labels) && Has(c, KnownPart(a.from, labels))
  }

  /** Over the workloads of the PCE, skip mode leaves an entry's consumers unchanged exactly when the
      entry is not partly known.  A partly known entry loses labels and so admits more workloads. */
  lemma SkipIsExactUnlessPartlyKnown(a: CompiledAllow, labels: map<Label, Href>)
    requires !a.allWorkloads && a.from != map[]
    ensures (forall c: Workload :: InPce(c, labels) ==> (SkipAdmits(a, labels, c) <==> Has(c, a.from)))
      <==> !PartlyKnown(a.from, labels)
    ensures PartlyKnown(a.from, labels) ==>
      var c := KnownPart(a.from, labels); InPce(c, labels) && SkipAdmits(a, labels, c) && !Has(c, a.from)
  {
    assert forall k :: k in a.from ==> Label(k, a.from[k]) in Entries(a.from);
    if PartlyKnown(a.from, labels) {
      var c := KnownPart(a.from, labels);
      assert InPce(c, labels);
      assert SkipAdmits(a, labels, c);
      var l :| l in Entries(a.from) && l !in labels;
      assert l.key !in c;
    } else {
      forall c: Workload | InPce(c, labels) ensures SkipAdmits(a, labels, c) <==> Has(c, a.from) {
        var k :| k in a.from;
        var l := Label(k, a.from[k]);
        if l in labels {
          assert Entries(a.from) <= labels.Keys;
          KnownPartOfKnown(a.from, labels);
        } else {
          assert l !in Entries(c);
        }
      }
    }
  }

  /** Skip mode never takes a flow away from a workload of the PCE. */
  lemma {:induction false} SkipNeverNarrows(
      allows: seq<CompiledAllow>, labels: map<Label, Href>, scope: LabelMap, c: Workload, f: Flow)
    requires InPce(c, labels) && AllowsAdmit(allows, scope, c, f)
    ensures AllowsAdmit(Pruned(allows, labels), scope, c, f)
  {
    var n := |allows| - 1;
    var a := allows[n];
    assert allows == allows[..n] + [a];
    LastAllow(allows[..n], a, scope, c, f);
    if AllowAdmits(a, scope, c, f) {
      if !a.allWorkloads {
        forall l | l in Entries(a.from) ensures l in Entries(c) {
          assert l.key in a.from;
        }
      }
      LastAllow(Pruned(allows[..n], labels), PrunedAllow(a, labels), scope, c, f);
    } else {
      SkipNeverNarrows(allows[..n], labels, scope, c, f);
      LastAllow(Pruned(allows[..n], labels), PrunedAllow(a, labels), scope, c, f);
    }
  }

  // ----- Front-end equivalence -----

  function Select(m: LabelMap): LabelSelector {
    LabelSelector(m, [])
  }

  function TranslateAllow(a: IntentAllow): IngressRule {
    IngressRule([Peer(if a.fromIntraNamespace != map[] then Some(Select(a.fromIntraNamespace)) else None,
                      if a.from != map[] then Some(Select(a.from)) else None)], a.ports)
  }

  function TranslateAllows(allow: seq<IntentAllow>): seq<IngressRule> {
    seq(|allow|, i requires 0 <= i < |allow| => TranslateAllow(allow[i]))
  }

  const INTRA_NAMESPACE_RULE := IngressRule([Peer(Some(Select(map[])), None)], [])

  /** Writes an intent in the NetworkPolicy style. */
  function Translate(spec: IntentSpec): PolicySpec {
    PolicySpec(Select(spec.provider),
               (if spec.allowIntraNamespace then [INTRA_NAMESPACE_RULE] else []) + TranslateAllows(spec.allow),
               [POLICY_TYPE_INGRESS])
  }

  lemma TranslatedAllow(a: IntentAllow)
    ensures SupportedRule(TranslateAllow(a)) <==> OneSource(a)
    ensures OneSource(a) ==> RuleAllows(TranslateAllow(a)) == [LoweredAllow(a)]
  {
    assert TranslateAllow(a).from[0] in TranslateAllow(a).from;
  }

  lemma TranslatedShortcut()
    ensures SupportedRule(INTRA_NAMESPACE_RULE) && RuleAllows(INTRA_NAMESPACE_RULE) == [INTRA_NAMESPACE_SHORTCUT]
  {
    assert LoweredPorts([]) == [];
  }

  lemma TranslatedSupport(allow: seq<IntentAllow>)
    ensures SupportedRules(TranslateAllows(allow)) <==> forall i :: 0 <= i < |allow| ==> OneSource(allow[i])
  {
    forall i | 0 <= i < |allow| ensures SupportedRule(TranslateAllows(allow)[i]) <==> OneSource(allow[i]) {
      TranslatedAllow(allow[i]);
    }
  }

  lemma SupportConcat(xs: seq<IngressRule>, ys: seq<IngressRule>)
    ensures SupportedRules(xs + ys) <==> SupportedRules(xs) && SupportedRules(ys)
  {
    assert forall i :: 0 <= i < |xs| ==> (xs + ys)[i] == xs[i];
    assert forall i :: 0 <= i < |ys| ==> (xs + ys)[|xs| + i] == ys[i];
  }

  lemma {:induction false} TranslatedAllows(first: seq<IngressRule>, allow: seq<IntentAllow>)
    requires SupportedRules(first + TranslateAllows(allow)) && SupportedRules(first)
    ensures RulesAllows(first + TranslateAllows(allow)) ==
            RulesAllows(first) + LoweredAllows(allow)
  {
    hide LoweredAllow, OneSource, SupportedRule, RuleAllows, TranslateAllow;
    var rules := first + TranslateAllows(allow);
    if allow == [] {
      assert rules == first;
    } else {
      var n := |allow| - 1;
      assert rules[..|rules| - 1] == first + TranslateAllows(allow[..n]);
      assert rules[|rules| - 1] == TranslateAllow(allow[n]);
      TranslatedAllows(first, allow[..n]);
      TranslatedAllow(allow[n]);
      assert LoweredAllows(allow) == LoweredAllows(allow[..n]) + [LoweredAllow(allow[n])];
    }
  }

  /** Both front ends accept the same policies, except that only an intent may not be empty,
      and lower an accepted policy to the same entries in the same order. */
  lemma FrontEndsAgree(spec: IntentSpec)
    ensures PolicyCompiles(Translate(spec)) <==> IntentCompiles(spec) || (spec.allow == [] && !spec.allowIntraNamespace)
    ensures IntentCompiles(spec) ==> RulesAllows(Translate(spec).ingress) == IntentAllows(spec)
  {
    var first := if spec.allowIntraNamespace then [INTRA_NAMESPACE_RULE] else [];
    TranslatedShortcut();
    assert SupportedRules(first);
    SupportConcat(first, TranslateAllows(spec.allow));
    TranslatedSupport(spec.allow);
    if IntentCompiles(spec) {
      TranslatedAllows(first, spec.allow);
      assert spec.allowIntraNamespace ==> first[..0] == [];
    }
  }
}
