/**
 * The desired Container Workload Profile (CWP) of a namespace.  Glob matching is
 * a library; `glob(pattern, name)` stands for a match without a pattern error.
 */
module CwpMatch {
  import opened Wrappers
  import opened Enforcement

  type LabelMap = map<string, string>
  type Glob = (string, string) -> bool

  const ANNOTATION_MANAGED := "microsegment.io/managed"
  const ANNOTATION_ENFORCEMENT := "microsegment.io/enforcement"
  const ANNOTATION_LABEL_PREFIX := "microsegment.io/label."

  datatype NamespaceMatch = NamespaceMatch(namePattern: string, labels: LabelMap)

  datatype LabelAssignment = LabelAssignment(value: string, fromNamespaceLabel: string)

  datatype NamespaceRule = NamespaceRule(
    match_: NamespaceMatch, managed: bool, assignLabels: map<string, LabelAssignment>, enforcementMode: string)

  datatype SystemNamespaces = SystemNamespaces(
    manage: bool, patterns: seq<string>, labels: LabelMap, enforcementMode: string)

  datatype Namespace = Namespace(name: string, labels: LabelMap, annotations: LabelMap)

  datatype DesiredCwp = DesiredCwp(managed: bool, labels: LabelMap, enforcementMode: string)

  /** A missing key reads as the empty string. */
  function Get(m: LabelMap, k: string): string {
    if k in m then m[k] else ""
  }

  // ----- Matching -----

  ghost predicate Matches(glob: Glob, m: NamespaceMatch, ns: Namespace) {
    && (m.namePattern == "" || glob(m.namePattern, ns.name))
    && forall k :: k in m.labels ==> Get(ns.labels, k) == m.labels[k]
  }

  method RuleMatches(glob: Glob, m: NamespaceMatch, ns: Namespace) returns (ok: bool)
    ensures ok <==> Matches(glob, m, ns)
    ensures ok <==>
      && (m.namePattern == "" || glob(m.namePattern, ns.name))
      && forall k :: k in m.labels ==> m.labels[k] == if k in ns.labels then ns.labels[k] else ""
  {
    if m.namePattern != "" {
      if !glob(m.namePattern, ns.name) {
        return false;
      }
    }
    var keys := m.labels.Keys;
    while keys != {}
      invariant keys <= m.labels.Keys
      invariant forall k :: k in m.labels && k !in keys ==> Get(ns.labels, k) == m.labels[k]
      decreases |keys|
    {
      var k :| k in keys;
      if Get(ns.labels, k) != m.labels[k] {
        return false;
      }
      keys := keys - {k};
    }
    return true;
  }

  ghost predicate AnyMatches(glob: Glob, patterns: seq<string>, name: string) {
    exists i :: 0 <= i < |patterns| && glob(patterns[i], name)
  }

  method MatchesAnyPattern(glob: Glob, name: string, patterns: seq<string>) returns (ok: bool)
    ensures ok <==> AnyMatches(glob, patterns, name)
    ensures ok <==> exists p :: p in patterns && glob(p, name)
  {
    for i := 0 to |patterns|
      invariant forall k :: 0 <= k < i ==> !glob(patterns[k], name)
    {
      if glob(patterns[i], name) {
        return true;
      }
    }
    return false;
  }

  function SystemPatterns(sys: SystemNamespaces): seq<string> {
    if sys.patterns != [] then sys.patterns else ["openshift-*", "kube-*", "default"]
  }

  // ----- Labels -----

  predicate Assigns(a: LabelAssignment, nsLabels: LabelMap) {
    a.value != "" || (a.fromNamespaceLabel != "" && Get(nsLabels, a.fromNamespaceLabel) != "")
  }

  function AssignedLabels(assign: map<string, LabelAssignment>, nsLabels: LabelMap): LabelMap {
    map k | k in assign && Assigns(assign[k], nsLabels) ::
      if assign[k].value != "" then assign[k].value else Get(nsLabels, assign[k].fromNamespaceLabel)
  }

  method ResolveAssignLabels(assign: map<string, LabelAssignment>, nsLabels: LabelMap) returns (out: LabelMap)
    ensures out == AssignedLabels(assign, nsLabels)
    ensures forall k :: k in assign && assign[k].value != "" ==> k in out && out[k] == assign[k].value
    ensures forall k :: k in assign && assign[k].value == "" ==>
      var from := assign[k].fromNamespaceLabel;
      && (k in out <==> from != "" && from in nsLabels && nsLabels[from] != "")
      && (k in out ==> out[k] == nsLabels[from])
    ensures forall k :: k in out ==> k in assign
  {
    ghost var all := AssignedLabels(assign, nsLabels);
    out := map[];
    var keys := assign.Keys;
    while keys != {}
      invariant keys <= assign.Keys
      invariant forall k :: k in out <==> k in all && k !in keys
      invariant forall k :: k in out ==> out[k] == all[k]
      decreases |keys|
    {
      var k :| k in keys;
      var a := assign[k];
      if a.value != "" {
        out := out[k := a.value];
      } else if a.fromNamespaceLabel != "" {
        if a.fromNamespaceLabel in nsLabels && nsLabels[a.fromNamespaceLabel] != "" {
          out := out[k := nsLabels[a.fromNamespaceLabel]];
        }
      }
      keys := keys - {k};
    }
  }

  /** The label key an annotation names: what follows the prefix. */
  function Suffix(prefix: string, a: string): string
    requires prefix <= a
    ensures prefix + Suffix(prefix, a) == a
  {
    a[|prefix|..]
  }

  predicate NamesLabel(prefix: string, annos: LabelMap, a: string) {
    a in annos && prefix <= a && a != prefix && annos[a] != ""
  }

  function AnnotatedKeys(prefix: string, annos: LabelMap): set<string> {
    set a | a in annos && NamesLabel(prefix, annos, a) :: Suffix(prefix, a)
  }

  /** Labels given by annotations; no two annotations name the same label. */
  function AnnotatedLabels(prefix: string, annos: LabelMap): LabelMap {
    map k | k in AnnotatedKeys(prefix, annos) :: annos[prefix + k]
  }

  lemma OneMoreAnnotation(prefix: string, annos: LabelMap, a: string, v: string)
    requires a !in annos
    ensures AnnotatedLabels(prefix, annos[a := v]) ==
      if prefix <= a && a != prefix && v != "" then AnnotatedLabels(prefix, annos)[Suffix(prefix, a) := v]
      else AnnotatedLabels(prefix, annos)
  {
    var more := annos[a := v];
    forall b | b in annos ensures NamesLabel(prefix, more, b) <==> NamesLabel(prefix, annos, b) {
    }
    assert AnnotatedKeys(prefix, more) ==
      AnnotatedKeys(prefix, annos) + (if NamesLabel(prefix, more, a) then {Suffix(prefix, a)} else {});
    forall k | k in AnnotatedKeys(prefix, annos) ensures prefix + k in annos && prefix + k != a {
    }
  }

  lemma UpdateLast(m: LabelMap, n: LabelMap, k: string, v: string)
    ensures (m + n)[k := v] == m + n[k := v]
  {
  }

  method ApplyLabelAnnotations(prefix: string, labels0: LabelMap, annos: LabelMap) returns (labels: LabelMap)
    ensures labels == labels0 + AnnotatedLabels(prefix, annos)
  {
    labels := labels0;
    ghost var done: LabelMap := map[];
    var todo := annos.Keys;
    while todo != {}
      invariant todo <= annos.Keys && done.Keys == annos.Keys - todo
      invariant forall a :: a in done ==> done[a] == annos[a]
      invariant labels == labels0 + AnnotatedLabels(prefix, done)
      decreases |todo|
    {
      var a :| a in todo;
      OneMoreAnnotation(prefix, done, a, annos[a]);
      if prefix <= a && annos[a] != "" {
        var labelKey := Suffix(prefix, a);
        if labelKey != "" {
          UpdateLast(labels0, AnnotatedLabels(prefix, done), labelKey, annos[a]);
          labels := labels[labelKey := annos[a]];
        }
      }
      todo, done := todo - {a}, done[a := annos[a]];
    }
    assert done == annos;
  }

  /** strings.EqualFold(v, "true"). */
  predicate FoldsToTrue(v: string) {
    |v| == 4 && v[0] in "tT" && v[1] in "rR" && v[2] in "uU" && v[3] in "eE"
  }

  function Overridden(d: DesiredCwp, annos: LabelMap): DesiredCwp {
    DesiredCwp(if ANNOTATION_MANAGED in annos then FoldsToTrue(annos[ANNOTATION_MANAGED]) else d.managed,
               d.labels + AnnotatedLabels(ANNOTATION_LABEL_PREFIX, annos),
               if Get(annos, ANNOTATION_ENFORCEMENT) != "" then annos[ANNOTATION_ENFORCEMENT] else d.enforcementMode)
  }

  method ApplyAnnotationOverrides(d0: DesiredCwp, annos: LabelMap) returns (d: DesiredCwp)
    ensures d == Overridden(d0, annos)
  {
    d := d0;
    if ANNOTATION_MANAGED in annos {
      d := d.(managed := FoldsToTrue(annos[ANNOTATION_MANAGED]));
    }
    if ANNOTATION_ENFORCEMENT in annos && annos[ANNOTATION_ENFORCEMENT] != "" {
      d := d.(enforcementMode := annos[ANNOTATION_ENFORCEMENT]);
    }
    var labels := ApplyLabelAnnotations(ANNOTATION_LABEL_PREFIX, d.labels, annos);
    d := d.(labels := labels);
  }

  // ----- The desired profile -----

  ghost predicate FirstMatch(glob: Glob, ns: Namespace, rules: seq<NamespaceRule>, i: int) {
    0 <= i < |rules| && Matches(glob, rules[i].match_, ns) && forall k :: 0 <= k < i ==> !Matches(glob, rules[k].match_, ns)
  }

  ghost predicate NoMatch(glob: Glob, ns: Namespace, rules: seq<NamespaceRule>) {
    forall k :: 0 <= k < |rules| ==> !Matches(glob, rules[k].match_, ns)
  }

  function RuleBase(r: NamespaceRule, ns: Namespace): DesiredCwp {
    DesiredCwp(r.managed, AssignedLabels(r.assignLabels, ns.labels), r.enforcementMode)
  }

  const UNMANAGED := DesiredCwp(false, map[], "")

  /** System namespaces take precedence over the first matching rule, which takes precedence over unmanaged. */
  ghost predicate IsBase(glob: Glob, ns: Namespace, rules: seq<NamespaceRule>, sys: SystemNamespaces, d: DesiredCwp) {
    if sys.manage && AnyMatches(glob, SystemPatterns(sys), ns.name) then
      d == DesiredCwp(true, sys.labels, sys.enforcementMode)
    else
      || (NoMatch(glob, ns, rules) && d == UNMANAGED)
      || exists i :: FirstMatch(glob, ns, rules, i) && d == RuleBase(rules[i], ns)
  }

  /** The PCE rejects a managed profile that is idle. */
  function Floored(d: DesiredCwp): DesiredCwp {
    if d.managed && (d.enforcementMode == "" || d.enforcementMode == IDLE)
    then d.(enforcementMode := VISIBILITY_ONLY) else d
  }

  ghost predicate IsDesired(glob: Glob, ns: Namespace, rules: seq<NamespaceRule>, sys: SystemNamespaces, d: DesiredCwp) {
    exists base :: IsBase(glob, ns, rules, sys, base) && d == Floored(Overridden(base, ns.annotations))
  }

  method ComputeDesiredCwp(glob: Glob, ns: Namespace, rules: seq<NamespaceRule>, sys: SystemNamespaces)
    returns (d: DesiredCwp)
    ensures IsDesired(glob, ns, rules, sys, d)
  {
    d := UNMANAGED;
    var i := 0;
    while i < |rules|
      invariant 0 <= i <= |rules| && d == UNMANAGED
      invariant forall k :: 0 <= k < i ==> !Matches(glob, rules[k].match_, ns)
    {
      var ok := RuleMatches(glob, rules[i].match_, ns);
      if ok {
        var labels := ResolveAssignLabels(rules[i].assignLabels, ns.labels);
        d := DesiredCwp(rules[i].managed, labels, rules[i].enforcementMode);
        break;
      }
      i := i + 1;
    }
    assert i < |rules| ==> FirstMatch(glob, ns, rules, i) && d == RuleBase(rules[i], ns);
    if sys.manage {
      var system := MatchesAnyPattern(glob, ns.name, SystemPatterns(sys));
      if system {
        d := DesiredCwp(true, sys.labels, sys.enforcementMode);
      }
    }
    assert IsBase(glob, ns, rules, sys, d);
    d := ApplyAnnotationOverrides(d, ns.annotations);
    if d.managed && (d.enforcementMode == "" || d.enforcementMode == IDLE) {
      d := d.(enforcementMode := VISIBILITY_ONLY);
    }
  }

  lemma BaseIsUnique(glob: Glob, ns: Namespace, rules: seq<NamespaceRule>, sys: SystemNamespaces,
                     b: DesiredCwp, c: DesiredCwp)
    requires IsBase(glob, ns, rules, sys, b) && IsBase(glob, ns, rules, sys, c)
    ensures b == c
  {
    if !(sys.manage && AnyMatches(glob, SystemPatterns(sys), ns.name)) && !NoMatch(glob, ns, rules) {
      var i :| FirstMatch(glob, ns, rules, i) && b == RuleBase(rules[i], ns);
      var j :| FirstMatch(glob, ns, rules, j) && c == RuleBase(rules[j], ns);
      assert !(i < j) && !(j < i);
    }
  }

  // ----- Precedence -----

  function Lower(s: string): string {
    seq(|s|, i requires 0 <= i < |s| => if 'A' <= s[i] <= 'Z' then s[i] - 'A' + 'a' else s[i])
  }

  lemma FoldsIffLowerTrue(v: string)
    ensures FoldsToTrue(v) <==> Lower(v) == "true"
  {
    if |v| == 4 {
      assert Lower(v) == [Lower(v)[0], Lower(v)[1], Lower(v)[2], Lower(v)[3]];
      assert "true" == ['t', 'r', 'u', 'e'];
    }
  }

  /** What the annotations of a namespace say goes, whatever the rules and the system namespaces say. */
  lemma AnnotationsDecide(glob: Glob, ns: Namespace, rules: seq<NamespaceRule>, sys: SystemNamespaces, d: DesiredCwp)
    requires IsDesired(glob, ns, rules, sys, d)
    ensures "microsegment.io/managed" in ns.annotations ==>
      (d.managed <==> Lower(ns.annotations["microsegment.io/managed"]) == "true")
    ensures "microsegment.io/enforcement" in ns.annotations && ns.annotations["microsegment.io/enforcement"] != "" ==>
      var asked := ns.annotations["microsegment.io/enforcement"];
      d.enforcementMode == if d.managed && asked == "idle" then "visibility_only" else asked
    ensures forall k :: LabelAnnotated(ns, k) ==> k in d.labels && d.labels[k] == ns.annotations["microsegment.io/label." + k]
  {
    hide IsBase;
    var base :| IsBase(glob, ns, rules, sys, base) && d == Floored(Overridden(base, ns.annotations));
    if ANNOTATION_MANAGED in ns.annotations {
      FoldsIffLowerTrue(ns.annotations[ANNOTATION_MANAGED]);
    }
    forall k ensures LabelAnnotated(ns, k) <==> k in AnnotatedKeys(ANNOTATION_LABEL_PREFIX, ns.annotations) {
      AnnotatedKey(ns, k);
    }
  }

  /** The annotation microsegment.io/label.k has a value. */
  predicate LabelAnnotated(ns: Namespace, k: string) {
    k != "" && "microsegment.io/label." + k in ns.annotations && ns.annotations["microsegment.io/label." + k] != ""
  }

  lemma AnnotatedKey(ns: Namespace, k: string)
    ensures LabelAnnotated(ns, k) <==> k in AnnotatedKeys(ANNOTATION_LABEL_PREFIX, ns.annotations)
  {
    var a := ANNOTATION_LABEL_PREFIX + k;
    if LabelAnnotated(ns, k) {
      assert NamesLabel(ANNOTATION_LABEL_PREFIX, ns.annotations, a);
      assert Suffix(ANNOTATION_LABEL_PREFIX, a) == k;
    }
  }

  /** Where no annotation speaks, the system namespaces or the rules decide; only an unset or idle mode of a
      managed namespace is raised, to visibility_only. */
  lemma BaseDecidesTheRest(glob: Glob, ns: Namespace, rules: seq<NamespaceRule>, sys: SystemNamespaces,
                           base: DesiredCwp, d: DesiredCwp)
    requires IsBase(glob, ns, rules, sys, base) && IsDesired(glob, ns, rules, sys, d)
    ensures "microsegment.io/managed" !in ns.annotations ==> d.managed == base.managed
    ensures "microsegment.io/enforcement" !in ns.annotations || ns.annotations["microsegment.io/enforcement"] == "" ==>
      d.enforcementMode == if d.managed && base.enforcementMode in {"", "idle"} then "visibility_only" else base.enforcementMode
    ensures forall k :: !LabelAnnotated(ns, k) ==>
      (k in d.labels <==> k in base.labels) && (k in d.labels ==> d.labels[k] == base.labels[k])
  {
    var b :| IsBase(glob, ns, rules, sys, b) && d == Floored(Overridden(b, ns.annotations));
    BaseIsUnique(glob, ns, rules, sys, b, base);
    forall k ensures LabelAnnotated(ns, k) <==> k in AnnotatedKeys(ANNOTATION_LABEL_PREFIX, ns.annotations) {
      AnnotatedKey(ns, k);
    }
  }

  /** A system namespace gets what is set for system namespaces, any other what the first rule that matches
      says, and without such a rule it is unmanaged. */
  lemma Precedence(glob: Glob, ns: Namespace, rules: seq<NamespaceRule>, sys: SystemNamespaces, base: DesiredCwp, i: nat)
    requires IsBase(glob, ns, rules, sys, base)
    ensures var patterns := if sys.patterns != [] then sys.patterns else ["openshift-*", "kube-*", "default"];
      if sys.manage && exists p :: p in patterns && glob(p, ns.name) then
        base == DesiredCwp(true, sys.labels, sys.enforcementMode)
      else
        && (i < |rules| && Matches(glob, rules[i].match_, ns) && (forall k :: 0 <= k < i ==> !Matches(glob, rules[k].match_, ns)) ==>
              && base.managed == rules[i].managed && base.enforcementMode == rules[i].enforcementMode
              && base.labels == AssignedLabels(rules[i].assignLabels, ns.labels))
        && ((forall k :: 0 <= k < |rules| ==> !Matches(glob, rules[k].match_, ns)) ==> base == DesiredCwp(false, map[], ""))
  {
    var patterns := SystemPatterns(sys);
    assert (exists p :: p in patterns && glob(p, ns.name)) <==> AnyMatches(glob, patterns, ns.name);
    if j :| FirstMatch(glob, ns, rules, j) && base == RuleBase(rules[j], ns) {
      assert i < |rules| && FirstMatch(glob, ns, rules, i) ==> !(i < j) && !(j < i);
    }
  }

  /** The rules decide one desired profile, whatever the order in which the maps are ranged over. */
  lemma DesiredIsUnique(glob: Glob, ns: Namespace, rules: seq<NamespaceRule>, sys: SystemNamespaces,
                        d: DesiredCwp, e: DesiredCwp)
    requires IsDesired(glob, ns, rules, sys, d) && IsDesired(glob, ns, rules, sys, e)
    ensures d == e
  {
    var b :| IsBase(glob, ns, rules, sys, b) && d == Floored(Overridden(b, ns.annotations));
    var c :| IsBase(glob, ns, rules, sys, c) && e == Floored(Overridden(c, ns.annotations));
    BaseIsUnique(glob, ns, rules, sys, b, c);
  }
}
