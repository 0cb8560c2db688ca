/**
 * The policy compiler: two front-end languages are lowered to one intermediate
 * representation, and resolved entries are emitted as PCE rules.
 */
module PolicyIR {
  import opened Wrappers
  import opened Pce

  type LabelMap = map<string, string>

  const PROTO_TCP := 6
  const PROTO_UDP := 17
  const RESOLVE_WORKLOADS := "workloads"
  const POLICY_TYPE_INGRESS := "Ingress"

  // ----- Front-end languages -----

  datatype Port = Port(port: int, protocol: string)

  datatype IntentAllow = IntentAllow(from: LabelMap, fromIntraNamespace: LabelMap, ports: seq<Port>)

  datatype IntentSpec = IntentSpec(provider: LabelMap, allow: seq<IntentAllow>, allowIntraNamespace: bool)

  datatype MatchExpression = MatchExpression(key: string, operator: string, values: seq<string>)

  datatype LabelSelector = LabelSelector(matchLabels: LabelMap, matchExpressions: seq<MatchExpression>)

  datatype Peer = Peer(podSelector: Option<LabelSelector>, namespaceSelector: Option<LabelSelector>)

  datatype IngressRule = IngressRule(from: seq<Peer>, ports: seq<Port>)

  datatype PolicySpec = PolicySpec(podSelector: LabelSelector, ingress: seq<IngressRule>, policyTypes: seq<string>)

  // ----- Intermediate representation -----

  datatype CompiledAllow = CompiledAllow(
    from: LabelMap, allWorkloads: bool, intraScope: bool, ports: seq<IngressService>)

  datatype ResolvedAllow = ResolvedAllow(
    consumerHrefs: seq<Href>, allWorkloads: bool, intraScope: bool, ports: seq<IngressService>)

  datatype CompileError =
    | NotExactlyOneSource(allow: nat)
    | EmptyIntent
    | UnsupportedPolicyType(policyType: string)
    | ProviderExpressions
    | NoPeers(rule: nat)
    | NoSelector(rule: nat, peer: nat)
    | BothSelectors(rule: nat, peer: nat)
    | PeerExpressions(rule: nat, peer: nat)
    | EmptyNamespaceSelector(rule: nat, peer: nat)

  function ProtoNumber(protocol: string): int {
    if protocol == "UDP" then PROTO_UDP else PROTO_TCP
  }

  function LowerPort(p: Port): IngressService {
    Inline(ProtoNumber(p.protocol), p.port)
  }

  function LoweredPorts(ports: seq<Port>): seq<IngressService> {
    seq(|ports|, i requires 0 <= i < |ports| => LowerPort(ports[i]))
  }

  method LowerPorts(ports: seq<Port>) returns (out: seq<IngressService>)
    ensures out == LoweredPorts(ports)
    ensures |out| == |ports|
    ensures forall i :: 0 <= i < |ports| ==> out[i] == Inline(if ports[i].protocol == "UDP" then 17 else 6, ports[i].port)
  {
    out := [];
    for i := 0 to |ports|
      invariant |out| == i && forall k :: 0 <= k < i ==> out[k] == LowerPort(ports[k])
    {
      out := out + [LowerPort(ports[i])];
    }
  }

  // ----- SegmentationIntent -----

  predicate OneSource(a: IntentAllow) {
    (a.from != map[]) != (a.fromIntraNamespace != map[])
  }

  function LoweredAllow(a: IntentAllow): CompiledAllow {
    CompiledAllow(if a.from != map[] then a.from else a.fromIntraNamespace,
                  false, a.from == map[], LoweredPorts(a.ports))
  }

  const INTRA_NAMESPACE_SHORTCUT := CompiledAllow(map[], true, true, [])

  function LoweredAllows(allow: seq<IntentAllow>): seq<CompiledAllow> {
    seq(|allow|, i requires 0 <= i < |allow| => LoweredAllow(allow[i]))
  }

  function IntentAllows(spec: IntentSpec): seq<CompiledAllow> {
    (if spec.allowIntraNamespace then [INTRA_NAMESPACE_SHORTCUT] else []) + LoweredAllows(spec.allow)
  }

  predicate IntentCompiles(spec: IntentSpec) {
    && (spec.allowIntraNamespace || spec.allow != [])
    && forall i :: 0 <= i < |spec.allow| ==> OneSource(spec.allow[i])
  }

  method CompileIntent(spec: IntentSpec) returns (r: Result<seq<CompiledAllow>, CompileError>)
    ensures r.Ok? <==> IntentCompiles(spec)
    ensures r.Ok? <==>
      && (spec.allowIntraNamespace || |spec.allow| > 0)
      && forall i :: 0 <= i < |spec.allow| ==> (spec.allow[i].from == map[] <==> spec.allow[i].fromIntraNamespace != map[])
    ensures r.Ok? ==> r.value == IntentAllows(spec)
    // One entry per allow, in order, after the one for the whole namespace.
    ensures r.Ok? ==> var first := if spec.allowIntraNamespace then 1 else 0;
      && |r.value| == first + |spec.allow|
      && (first == 1 ==> r.value[0] == CompiledAllow(map[], true, true, []))
      && forall i :: 0 <= i < |spec.allow| ==>
           && !r.value[first + i].allWorkloads
           && r.value[first + i].intraScope == (spec.allow[i].from == map[])
           && r.value[first + i].from == spec.allow[i].from + spec.allow[i].fromIntraNamespace
    ensures r.Err? && r.error.NotExactlyOneSource? ==>
      && r.error.allow < |spec.allow| && !OneSource(spec.allow[r.error.allow])
      && forall k :: 0 <= k < r.error.allow ==> OneSource(spec.allow[k])
    ensures r.Err? && !r.error.NotExactlyOneSource? ==>
      r.error == EmptyIntent && spec.allow == [] && !spec.allowIntraNamespace
  {
    var out := [];
    if spec.allowIntraNamespace {
      out := out + [CompiledAllow(map[], true, true, [])];
    }
    ghost var shortcut := out;
    for i := 0 to |spec.allow|
      invariant |out| == |shortcut| + i
      invariant out[..|shortcut|] == shortcut
      invariant forall k :: 0 <= k < i ==>
        OneSource(spec.allow[k]) && out[|shortcut| + k] == LoweredAllow(spec.allow[k])
    {
      var a := spec.allow[i];
      var hasFrom := |a.from| > 0;
      var hasIntra := |a.fromIntraNamespace| > 0;
      if hasFrom == hasIntra {
        return Err(NotExactlyOneSource(i));
      }
      var ports := LowerPorts(a.ports);
      if hasFrom {
        out := out + [CompiledAllow(a.from, false, false, ports)];
      } else {
        out := out + [CompiledAllow(a.fromIntraNamespace, false, true, ports)];
      }
    }
    if |out| == 0 {
      return Err(EmptyIntent);
    }
    assert out == IntentAllows(spec);
    return Ok(out);
  }

  // ----- SegmentationPolicy -----

  /** A peer names exactly one selector, by labels; a namespaceSelector needs at least one label. */
  predicate SupportedPeer(p: Peer) {
    match (p.podSelector, p.namespaceSelector)
    case (Some(pods), None) => pods.matchExpressions == []
    case (None, Some(namespaces)) => namespaces.matchExpressions == [] && namespaces.matchLabels != map[]
    case _ => false
  }

  /** A podSelector is a same-namespace consumer; without labels it means every workload in scope. */
  function LoweredPeer(p: Peer, ports: seq<IngressService>): CompiledAllow
    requires SupportedPeer(p)
  {
    match p.podSelector
    case Some(pods) => CompiledAllow(pods.matchLabels, pods.matchLabels == map[], true, ports)
    case None => CompiledAllow(p.namespaceSelector.value.matchLabels, false, false, ports)
  }

  predicate SupportedRule(r: IngressRule) {
    r.from != [] && forall j :: 0 <= j < |r.from| ==> SupportedPeer(r.from[j])
  }

  function RuleAllows(r: IngressRule): seq<CompiledAllow>
    requires SupportedRule(r)
  {
    seq(|r.from|, j requires 0 <= j < |r.from| => LoweredPeer(r.from[j], LoweredPorts(r.ports)))
  }

  predicate SupportedRules(rules: seq<IngressRule>) {
    forall i :: 0 <= i < |rules| ==> SupportedRule(rules[i])
  }

  function RulesAllows(rules: seq<IngressRule>): seq<CompiledAllow>
    requires SupportedRules(rules)
  {
    if rules == [] then []
    else RulesAllows(rules[..|rules| - 1]) + RuleAllows(rules[|rules| - 1])
  }

  predicate PolicyCompiles(spec: PolicySpec) {
    && (forall t :: t in spec.policyTypes ==> t == POLICY_TYPE_INGRESS)
    && spec.podSelector.matchExpressions == []
    && SupportedRules(spec.ingress)
  }

  /** The reported error names the first rule, and in it the first peer, that is not supported. */
  ghost predicate Diagnoses(spec: PolicySpec, e: CompileError) {
    match e
    case UnsupportedPolicyType(t) => t in spec.policyTypes && t != POLICY_TYPE_INGRESS
    case ProviderExpressions => spec.podSelector.matchExpressions != []
    case NoPeers(i) =>
      i < |spec.ingress| && SupportedRules(spec.ingress[..i]) && spec.ingress[i].from == []
    case NoSelector(i, j) =>
      FirstBadPeer(spec, i, j) && spec.ingress[i].from[j] == Peer(None, None)
    case BothSelectors(i, j) =>
      && FirstBadPeer(spec, i, j)
      && spec.ingress[i].from[j].podSelector.Some? && spec.ingress[i].from[j].namespaceSelector.Some?
    case PeerExpressions(i, j) =>
      && FirstBadPeer(spec, i, j)
      && var p := spec.ingress[i].from[j];
         || (p.podSelector.Some? && p.podSelector.value.matchExpressions != [])
         || (p.namespaceSelector.Some? && p.namespaceSelector.value.matchExpressions != [])
    case EmptyNamespaceSelector(i, j) =>
      && FirstBadPeer(spec, i, j)
      && spec.ingress[i].from[j].namespaceSelector.Some?
      && spec.ingress[i].from[j].namespaceSelector.value.matchLabels == map[]
    case _ => false
  }

  ghost predicate FirstBadPeer(spec: PolicySpec, i: nat, j: nat) {
    && i < |spec.ingress| && SupportedRules(spec.ingress[..i])
    && j < |spec.ingress[i].from| && !SupportedPeer(spec.ingress[i].from[j])
    && forall k :: 0 <= k < j ==> SupportedPeer(spec.ingress[i].from[k])
  }

  method CompilePolicy(spec: PolicySpec) returns (r: Result<seq<CompiledAllow>, CompileError>)
    ensures r.Ok? <==> PolicyCompiles(spec)
    ensures r.Ok? <==>
      && (forall i :: 0 <= i < |spec.policyTypes| ==> spec.policyTypes[i] == "Ingress")
      && spec.podSelector.matchExpressions == []
      && (forall i :: 0 <= i < |spec.ingress| ==> spec.ingress[i].from != [])
      && forall i, j :: 0 <= i < |spec.ingress| && 0 <= j < |spec.ingress[i].from| ==>
           var p := spec.ingress[i].from[j];
           && (p.podSelector.Some? <==> p.namespaceSelector.None?)
           && (p.podSelector.Some? ==> p.podSelector.value.matchExpressions == [])
           && (p.namespaceSelector.Some? ==>
                 p.namespaceSelector.value.matchExpressions == [] && p.namespaceSelector.value.matchLabels != map[])
    ensures r.Ok? ==> r.value == RulesAllows(spec.ingress)
    ensures r.Err? ==> Diagnoses(spec, r.error)
  {
    for t := 0 to |spec.policyTypes|
      invariant forall k :: 0 <= k < t ==> spec.policyTypes[k] == POLICY_TYPE_INGRESS
    {
      if spec.policyTypes[t] != POLICY_TYPE_INGRESS {
        assert spec.policyTypes[t] in spec.policyTypes;
        return Err(UnsupportedPolicyType(spec.policyTypes[t]));
      }
    }
    if |spec.podSelector.matchExpressions| > 0 {
      return Err(ProviderExpressions);
    }
    var out := [];
    for i := 0 to |spec.ingress|
      invariant SupportedRules(spec.ingress[..i])
      invariant out == RulesAllows(spec.ingress[..i])
    {
      var ing := spec.ingress[i];
      if |ing.from| == 0 {
        return Err(NoPeers(i));
      }
      var ports := LowerPorts(ing.ports);
      ghost var before := out;
      for j := 0 to |ing.from|
        invariant forall k :: 0 <= k < j ==> SupportedPeer(ing.from[k])
        invariant |out| == |before| + j && out[..|before|] == before
        invariant forall k :: 0 <= k < j ==> out[|before| + k] == LoweredPeer(ing.from[k], ports)
      {
        var peer := ing.from[j];
        if peer.podSelector.None? && peer.namespaceSelector.None? {
          return Err(NoSelector(i, j));
        }
        if peer.podSelector.Some? && peer.namespaceSelector.Some? {
          return Err(BothSelectors(i, j));
        }
        var sel, intra := peer.podSelector, true;
        if sel.None? {
          sel, intra := peer.namespaceSelector, false;
        }
        if |sel.value.matchExpressions| > 0 {
          return Err(PeerExpressions(i, j));
        }
        if intra && |sel.value.matchLabels| == 0 {
          out := out + [CompiledAllow(map[], true, true, ports)];
          continue;
        }
        if |sel.value.matchLabels| == 0 {
          return Err(EmptyNamespaceSelector(i, j));
        }
        out := out + [CompiledAllow(sel.value.matchLabels, false, intra, ports)];
      }
      assert out == before + RuleAllows(ing);
      assert spec.ingress[..i + 1][..i] == spec.ingress[..i];
    }
    assert spec.ingress[..|spec.ingress|] == spec.ingress;
    return Ok(out);
  }

  /** Rules are lowered one after the other... */
  lemma {:induction false} LoweredInOrder(rules: seq<IngressRule>, more: seq<IngressRule>)
    requires SupportedRules(rules + more) && SupportedRules(rules) && SupportedRules(more)
    ensures RulesAllows(rules + more) == RulesAllows(rules) + RulesAllows(more)
  {
    hide SupportedRule, RuleAllows;
    if more == [] {
      assert rules + more == rules;
    } else {
      var n := |more| - 1;
      assert (rules + more)[..|rules + more| - 1] == rules + more[..n];
      assert SupportedRules(rules + more[..n]) by {
        assert forall i :: 0 <= i < |rules| + n ==> (rules + more[..n])[i] == (rules + more)[i];
      }
      LoweredInOrder(rules, more[..n]);
    }
  }

  /** ...and each to one entry per peer: a podSelector asks for its labels in the namespace's app, a
      namespaceSelector for its labels anywhere. */
  lemma LoweredPeers(rule: IngressRule, j: nat)
    requires SupportedRules([rule]) && j < |rule.from|
    ensures |RulesAllows([rule])| == |rule.from|
    ensures var a, p := RulesAllows([rule])[j], rule.from[j];
      && (p.podSelector.Some? ==>
            a.from == p.podSelector.value.matchLabels && a.intraScope && (a.allWorkloads <==> a.from == map[]))
      && (p.namespaceSelector.Some? ==>
            a.from == p.namespaceSelector.value.matchLabels && !a.intraScope && !a.allWorkloads)
      && |a.ports| == |rule.ports|
      && forall k :: 0 <= k < |rule.ports| ==>
           a.ports[k] == Inline(if rule.ports[k].protocol == "UDP" then 17 else 6, rule.ports[k].port)
  {
    assert [rule][..0] == [];
    assert SupportedRule([rule][0]) && SupportedPeer(rule.from[j]);
  }

  // ----- Emitting rules -----

  function RuleSetName(namespace: string, crName: string): string {
    "k8s-" + namespace + "-" + crName
  }

  function ScopeEntries(hrefs: seq<Href>): seq<ScopeEntry> {
    seq(|hrefs|, i requires 0 <= i < |hrefs| => ScopeEntry(hrefs[i]))
  }

  function RuleSetBody(namespace: string, crName: string, scope: seq<Href>, owner: Owner): RuleSet {
    RuleSet(RuleSetName(namespace, crName), true, [ScopeEntries(scope)], owner.dataSet, owner.reference)
  }

  method BuildRuleSet(namespace: string, crName: string, providerHrefs: seq<Href>, owner: Owner)
    returns (rs: RuleSet)
    ensures rs == RuleSetBody(namespace, crName, providerHrefs, owner)
    ensures rs.name == "k8s-" + namespace + "-" + crName && rs.enabled
    ensures rs.dataSet == owner.dataSet && rs.reference == owner.reference
    ensures |rs.scopes| == 1 && |rs.scopes[0]| == |providerHrefs|
    ensures forall i :: 0 <= i < |providerHrefs| ==> rs.scopes[0][i].labelRef == providerHrefs[i]
  {
    var scope := [];
    for i := 0 to |providerHrefs|
      invariant |scope| == i && forall k :: 0 <= k < i ==> scope[k] == ScopeEntry(providerHrefs[k])
    {
      scope := scope + [ScopeEntry(providerHrefs[i])];
    }
    assert scope == ScopeEntries(providerHrefs);
    rs := RuleSet(RuleSetName(namespace, crName), true, [scope], owner.dataSet, owner.reference);
  }

  function LabelActors(hrefs: seq<Href>): seq<Actor> {
    seq(|hrefs|, i requires 0 <= i < |hrefs| => LabelActor(hrefs[i]))
  }

  /** The rule that lets the consumers of one entry reach the providers. */
  function RuleFor(narrow: seq<Href>, allServices: Href, a: ResolvedAllow): SecRule {
    SecRule(true, ResolveLabelsAs([RESOLVE_WORKLOADS], [RESOLVE_WORKLOADS]),
            if narrow == [] then [AllWorkloads] else LabelActors(narrow),
            if a.allWorkloads then [AllWorkloads] else LabelActors(a.consumerHrefs),
            if a.ports == [] then [ServiceRef(allServices)] else a.ports,
            !a.intraScope)
  }

  function RulesFor(narrow: seq<Href>, allServices: Href, allows: seq<ResolvedAllow>): seq<SecRule> {
    seq(|allows|, i requires 0 <= i < |allows| => RuleFor(narrow, allServices, allows[i]))
  }

  method ToActors(hrefs: seq<Href>) returns (actors: seq<Actor>)
    ensures actors == LabelActors(hrefs)
  {
    actors := [];
    for i := 0 to |hrefs|
      invariant |actors| == i && forall k :: 0 <= k < i ==> actors[k] == LabelActor(hrefs[k])
    {
      actors := actors + [LabelActor(hrefs[i])];
    }
  }

  method BuildRules(narrow: seq<Href>, allServices: Href, allows: seq<ResolvedAllow>)
    returns (rules: seq<SecRule>)
    ensures rules == RulesFor(narrow, allServices, allows)
    ensures |rules| == |allows|
    ensures forall i :: 0 <= i < |rules| ==>
      rules[i].enabled && rules[i].resolveLabelsAs == ResolveLabelsAs(["workloads"], ["workloads"])
  {
    var providers;
    if |narrow| == 0 {
      providers := [AllWorkloads];
    } else {
      providers := ToActors(narrow);
    }
    rules := [];
    for i := 0 to |allows|
      invariant |rules| == i
      invariant forall k :: 0 <= k < i ==> rules[k] == RuleFor(narrow, allServices, allows[k])
    {
      var a := allows[i];
      var consumers;
      if a.allWorkloads {
        consumers := [AllWorkloads];
      } else {
        consumers := ToActors(a.consumerHrefs);
      }
      var ingress := a.ports;
      if |ingress| == 0 {
        ingress := [ServiceRef(allServices)];
      }
      rules := rules + [SecRule(true, ResolveLabelsAs([RESOLVE_WORKLOADS], [RESOLVE_WORKLOADS]),
                                providers, consumers, ingress, !a.intraScope)];
    }
  }
}
