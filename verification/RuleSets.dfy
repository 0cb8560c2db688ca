/**
 * Replacing the rules of an owned ruleset in the draft, call by call.  Every
 * call may fail, so the contract also says exactly what an interrupted run
 * leaves behind.
 */
module RuleSets {
  import opened Wrappers
  import opened Pce
  import opened PolicyIR
  import opened Resolution
  import opened Semantics

  datatype RuleSetError = PendingDeletion | NoAllServices | CallFailed

  predicate NeedsAllServices(resolved: seq<ResolvedAllow>) {
    exists i :: 0 <= i < |resolved| && resolved[i].ports == []
  }

  /** Where the rules go: the owner's ruleset, or a new one when the owner has none. */
  ghost predicate Place(s: Store, h: Href, reference: string) {
    if h in s.draft then
      reference != "" && Owns(s, h, reference) && !s.draft[h].pendingDelete
    else
      h !in s.active && (reference == "" || forall o :: !Owns(s, o, reference))
  }

  /** A ruleset that already exists keeps its body: it is neither renamed nor re-scoped. */
  function BodyAt(s: Store, h: Href, body: RuleSet): RuleSet {
    if h in s.draft then s.draft[h].body else body
  }

  function RulesAt(s: Store, h: Href): seq<DraftRule> {
    if h in s.draft then s.draft[h].rules else []
  }

  function WithRules(s: Store, h: Href, body: RuleSet, rules: seq<DraftRule>): Store {
    WithDraft(s, h, DraftRuleSet(BodyAt(s, h, body), rules, false))
  }

  /** An interrupted replacement leaves a tail of the old rules or a head of the new ones, never a mix. */
  ghost predicate Partial(before: seq<DraftRule>, rules: seq<DraftRule>, target: seq<SecRule>) {
    (exists k :: 0 <= k <= |before| && rules == before[k..]) || Bare(rules) <= target
  }

  ghost predicate Interrupted(s: Store, t: Store, h: Href, body: RuleSet, rules: seq<DraftRule>, target: seq<SecRule>) {
    && Place(s, h, body.reference)
    && t == WithRules(s, h, body, rules)
    && Partial(RulesAt(s, h), rules, target)
  }

  ghost predicate RuleSetStep(s: Store, t: Store, body: RuleSet, narrow: seq<Href>, resolved: seq<ResolvedAllow>,
                              r: Result<Href, RuleSetError>)
  {
    var target := RulesFor(narrow, AllServices(s), resolved);
    match r
    case Ok(h) =>
      && Place(s, h, body.reference)
      && (NeedsAllServices(resolved) ==> ALL_SERVICES_NAME in s.services)
      && exists rules :: t == WithRules(s, h, body, rules) && Bare(rules) == target
    case Err(PendingDeletion) =>
      && t == s && body.reference != ""
      && exists h :: Owns(s, h, body.reference) && s.draft[h].pendingDelete
    case Err(NoAllServices) =>
      && NeedsAllServices(resolved) && ALL_SERVICES_NAME !in s.services
      && exists h :: Place(s, h, body.reference) && t == WithRules(s, h, body, [])
    case Err(CallFailed) =>
      t == s || exists h, rules :: Interrupted(s, t, h, body, rules, target)
  }

  /** Deleting by the identifier of the first rule deletes the first rule. */
  lemma FirstRule(s: Store, h: Href, left: seq<DraftRule>)
    requires Editable(s, h) && left != []
    ensures var t := WithDraft(s, h, s.draft[h].(rules := left));
      var first := RuleHref(h, left[0].id);
      HasRule(t, first) && forall u :: RuleGone(t, u, first) ==> u == WithDraft(s, h, s.draft[h].(rules := left[1..]))
  {
    assert IndexOf(left, left[0].id) == 0;
    assert left[..0] + left[1..] == left[1..];
    WithDraftTwice(s, h, s.draft[h].(rules := left), s.draft[h].(rules := left[1..]));
  }

  /** `left` are the rules still there when the loop stops: all but the first few. */
  method DeleteRules(pce: Client, h: Href) returns (ok: bool, ghost left: seq<DraftRule>, ghost gone: nat)
    requires Editable(pce.store, h)
    modifies pce
    ensures pce.faults >= old(pce.faults) && (ok <==> pce.faults == old(pce.faults))
    ensures gone <= |old(pce.store).draft[h].rules| && left == old(pce.store).draft[h].rules[gone..]
    ensures pce.store == WithDraft(old(pce.store), h, old(pce.store).draft[h].(rules := left))
    ensures ok ==> left == []
  {
    hide HasRule, RuleGone;
    ghost var s := pce.store;
    ghost var before := s.draft[h].rules;
    left, gone := before, 0;
    assert s == WithDraft(s, h, s.draft[h].(rules := left)) by {
      assert s.draft[h := s.draft[h]] == s.draft;
    }
    var listed := pce.ListRules(h);
    if listed.Err? {
      return false, left, gone;
    }
    for i := 0 to |listed.value|
      invariant pce.faults == old(pce.faults)
      invariant gone == i && left == before[i..]
      invariant pce.store == WithDraft(s, h, s.draft[h].(rules := left))
    {
      FirstRule(s, h, left);
      assert left[0] == before[i] && left[1..] == before[i + 1..];
      var deleted := pce.DeleteRule(listed.value[i]);
      if deleted.Err? {
        if pce.store != WithDraft(s, h, s.draft[h].(rules := left)) {
          left, gone := left[1..], i + 1;
        }
        return false, left, gone;
      }
      left, gone := left[1..], i + 1;
    }
    return true, left, gone;
  }

  /** `made` are the rules created when the loop stops: a head of the requested ones. */
  method CreateRules(pce: Client, h: Href, rules: seq<SecRule>) returns (ok: bool, ghost made: seq<DraftRule>)
    requires Editable(pce.store, h) && pce.store.draft[h].rules == []
    modifies pce
    ensures pce.faults >= old(pce.faults) && (ok <==> pce.faults == old(pce.faults))
    ensures pce.store == WithDraft(old(pce.store), h, old(pce.store).draft[h].(rules := made))
    ensures Bare(made) <= rules && (ok ==> Bare(made) == rules)
  {
    ghost var s := pce.store;
    made := [];
    assert s == WithDraft(s, h, s.draft[h].(rules := made)) by {
      assert s.draft[h := s.draft[h]] == s.draft;
    }
    for j := 0 to |rules|
      invariant pce.faults == old(pce.faults)
      invariant pce.store == WithDraft(s, h, s.draft[h].(rules := made))
      invariant Bare(made) == rules[..j]
    {
      ghost var before := pce.store;
      var created := pce.CreateRule(h, rules[j]);
      if created.Err? {
        if pce.store != before {
          ghost var id :| pce.store == WithRule(before, h, id, rules[j]);
          AppendRule(s, h, made, id, rules, j);
          made := made + [DraftRule(id, rules[j])];
        }
        return false, made;
      }
      AppendRule(s, h, made, created.value, rules, j);
      made := made + [DraftRule(created.value, rules[j])];
    }
    return true, made;
  }

  lemma AppendRule(s: Store, h: Href, made: seq<DraftRule>, id: string, rules: seq<SecRule>, j: nat)
    requires h in s.draft && j < |rules| && Bare(made) == rules[..j]
    ensures Bare(made + [DraftRule(id, rules[j])]) == rules[..j + 1]
    ensures WithRule(WithDraft(s, h, s.draft[h].(rules := made)), h, id, rules[j]) ==
            WithDraft(s, h, s.draft[h].(rules := made + [DraftRule(id, rules[j])]))
  {
    assert Bare(made + [DraftRule(id, rules[j])]) == Bare(made) + [rules[j]];
    WithDraftTwice(s, h, s.draft[h].(rules := made), s.draft[h].(rules := made + [DraftRule(id, rules[j])]));
  }

  /** Finds the owner's ruleset and empties it, or creates it. */
  method PrepareRuleSet(pce: Client, owner: Owner, body: RuleSet, ghost target: seq<SecRule>)
    returns (r: Result<Href, RuleSetError>)
    requires body.reference == owner.reference
    modifies pce
    ensures pce.faults >= old(pce.faults)
    ensures r == Err(CallFailed) <==> pce.faults > old(pce.faults)
    ensures r.Ok? ==> Interrupted(old(pce.store), pce.store, r.value, body, [], target)
    ensures r.Err? ==> r.error == CallFailed || r.error == PendingDeletion
    ensures r == Err(CallFailed) ==>
      || pce.store == old(pce.store)
      || exists h, rules :: Interrupted(old(pce.store), pce.store, h, body, rules, target)
    ensures r == Err(PendingDeletion) ==>
      && pce.store == old(pce.store) && body.reference != ""
      && exists h :: Owns(pce.store, h, body.reference) && pce.store.draft[h].pendingDelete
  {
    ghost var s := pce.store;
    var existing := pce.FindRuleSetByOwner(owner);
    if existing.Err? {
      return Err(CallFailed);
    }
    if existing.value.Some? && existing.value.value.pendingDelete {
      return Err(PendingDeletion);
    }
    if existing.value.None? {
      var created := pce.CreateRuleSet(body);
      if created.Err? {
        if pce.store != s {
          ghost var g :| g !in s.draft && g !in s.active && pce.store == WithDraft(s, g, DraftRuleSet(body, [], false));
          assert Interrupted(s, pce.store, g, body, [], target);
        }
        return Err(CallFailed);
      }
      return Ok(created.value);
    }
    var h := existing.value.value.href;
    var deleted;
    ghost var left, gone;
    deleted, left, gone := DeleteRules(pce, h);
    assert Interrupted(s, pce.store, h, body, left, target);
    if !deleted {
      return Err(CallFailed);
    }
    return Ok(h);
  }

  /** The href of "All Services" when some entry leaves out its ports, and "" when none does. */
  method FindAllServices(pce: Client, resolved: seq<ResolvedAllow>) returns (r: Result<Href, RuleSetError>)
    modifies pce`faults
    ensures pce.faults >= old(pce.faults)
    ensures r == Err(CallFailed) <==> pce.faults > old(pce.faults)
    ensures r.Ok? ==> r.value == if NeedsAllServices(resolved) then AllServices(pce.store) else ""
    ensures r.Ok? && NeedsAllServices(resolved) ==> ALL_SERVICES_NAME in pce.store.services
    ensures r.Err? && r.error != CallFailed ==>
      r.error == NoAllServices && NeedsAllServices(resolved) && ALL_SERVICES_NAME !in pce.store.services
  {
    for i := 0 to |resolved|
      invariant forall k :: 0 <= k < i ==> resolved[k].ports != []
      invariant pce.faults == old(pce.faults)
    {
      if |resolved[i].ports| == 0 {
        var svc := pce.FindServiceByName(ALL_SERVICES_NAME);
        if svc.Err? {
          return Err(CallFailed);
        }
        if svc.value.None? {
          return Err(NoAllServices);
        }
        return Ok(svc.value.value);
      }
    }
    return Ok("");
  }

  method ReconcileRuleSet(pce: Client, crName: string, namespace: string, owner: Owner,
                          scope: seq<Href>, narrow: seq<Href>, resolved: seq<ResolvedAllow>)
    returns (r: Result<Href, RuleSetError>)
    modifies pce
    ensures pce.faults >= old(pce.faults)
    ensures r == Err(CallFailed) <==> pce.faults > old(pce.faults)
    ensures RuleSetStep(old(pce.store), pce.store, RuleSetBody(namespace, crName, scope, owner), narrow, resolved, r)
  {
    ghost var s := pce.store;
    ghost var target := RulesFor(narrow, AllServices(s), resolved);
    var body := BuildRuleSet(namespace, crName, scope, owner);
    r := PrepareRuleSet(pce, owner, body, target);
    if r.Err? {
      return;
    }
    var h := r.value;
    ghost var emptied := pce.store;
    var allServices := FindAllServices(pce, resolved);
    if allServices.Err? {
      return allServices;
    }
    var rules := BuildRules(narrow, allServices.value, resolved);
    assert rules == target;
    var made;
    ghost var written;
    made, written := CreateRules(pce, h, rules);
    WithDraftTwice(s, h, emptied.draft[h], emptied.draft[h].(rules := written));
    assert Interrupted(s, pce.store, h, body, written, target);
    if !made {
      return Err(CallFailed);
    }
  }

  // ----- Uniqueness, frame, convergence -----

  ghost predicate Unique(s: Store, reference: string) {
    forall g, h :: Owns(s, g, reference) && Owns(s, h, reference) ==> g == h
  }

  /** Rulesets with another reference, in the draft and in the active version. */
  function ForeignDraft(s: Store, reference: string): map<Href, DraftRuleSet> {
    map h | h in s.draft && s.draft[h].body.reference != reference :: s.draft[h]
  }

  function ForeignActive(s: Store, reference: string): map<Href, ActiveRuleSet> {
    map h | h in s.active && s.active[h].body.reference != reference :: s.active[h]
  }

  ghost predicate OthersKept(s: Store, t: Store, reference: string) {
    && ForeignDraft(s, reference) == ForeignDraft(t, reference)
    && ForeignActive(s, reference) == ForeignActive(t, reference)
  }

  /** The one ruleset a step writes, or none. */
  lemma StepWritesOnePlace(s: Store, t: Store, body: RuleSet, narrow: seq<Href>, resolved: seq<ResolvedAllow>,
                           r: Result<Href, RuleSetError>) returns (h: Href, rules: seq<DraftRule>)
    requires RuleSetStep(s, t, body, narrow, resolved, r)
    ensures t == s || (Place(s, h, body.reference) && t == WithRules(s, h, body, rules))
    ensures r.Ok? ==> t == WithRules(s, h, body, rules) && h == r.value && Place(s, h, body.reference)
  {
    h, rules := "", [];
    var target := RulesFor(narrow, AllServices(s), resolved);
    match r
    case Ok(g) =>
      h := g;
      rules :| t == WithRules(s, h, body, rules) && Bare(rules) == target;
    case Err(PendingDeletion) =>
    case Err(NoAllServices) =>
      h :| Place(s, h, body.reference) && t == WithRules(s, h, body, []);
    case Err(CallFailed) =>
      if t != s {
        h, rules :| Interrupted(s, t, h, body, rules, target);
      }
  }

  lemma WithRulesKeepsOthers(s: Store, h: Href, body: RuleSet, rules: seq<DraftRule>)
    requires Place(s, h, body.reference)
    ensures OthersKept(s, WithRules(s, h, body, rules), body.reference)
  {
    var t := WithRules(s, h, body, rules);
    assert t.draft[h].body.reference == body.reference;
    assert ForeignDraft(s, body.reference) == ForeignDraft(t, body.reference);
  }

  lemma WithRulesOwns(s: Store, h: Href, body: RuleSet, rules: seq<DraftRule>, g: Href, o: string)
    requires Place(s, h, body.reference)
    ensures Owns(WithRules(s, h, body, rules), g, o) <==> Owns(s, g, o) || (g == h && o == body.reference)
  {
  }

  lemma WithRulesKeepsUnique(s: Store, h: Href, body: RuleSet, rules: seq<DraftRule>, o: string)
    requires Place(s, h, body.reference) && Unique(s, o) && (o == body.reference ==> o != "")
    ensures Unique(WithRules(s, h, body, rules), o)
  {
    forall g ensures Owns(WithRules(s, h, body, rules), g, o) <==> Owns(s, g, o) || (g == h && o == body.reference) {
      WithRulesOwns(s, h, body, rules, g, o);
    }
  }

  lemma RebuiltIsEditable(s: Store, t: Store, body: RuleSet, narrow: seq<Href>, resolved: seq<ResolvedAllow>, h: Href)
    requires RuleSetStep(s, t, body, narrow, resolved, Ok(h))
    ensures Editable(t, h)
  {
  }

  /** At most one ruleset per reference, even when the reply to a create is lost; the active version,
      the labels and every ruleset with another reference stay as they are. */
  lemma StepKeepsUniqueAndOthers(s: Store, t: Store, body: RuleSet, narrow: seq<Href>, resolved: seq<ResolvedAllow>,
                                 r: Result<Href, RuleSetError>)
    requires RuleSetStep(s, t, body, narrow, resolved, r)
    ensures t.active == s.active && t.labels == s.labels && t.services == s.services
    ensures OthersKept(s, t, body.reference)
    ensures forall o :: Unique(s, o) && (o == body.reference ==> o != "") ==> Unique(t, o)
    ensures Valid(s) ==> Valid(t)
  {
    var h, rules := StepWritesOnePlace(s, t, body, narrow, resolved, r);
    if t != s {
      WithRulesKeepsOthers(s, h, body, rules);
      forall o | Unique(s, o) && (o == body.reference ==> o != "") ensures Unique(t, o) {
        WithRulesKeepsUnique(s, h, body, rules, o);
      }
    }
  }

  /** With an empty reference nothing is ever found again: each successful run adds a ruleset.
      So a second run keeps uniqueness exactly when the reference is not empty. */
  lemma UniqueNeedsReference(s: Store, t: Store, u: Store, body: RuleSet, narrow: seq<Href>, resolved: seq<ResolvedAllow>,
                             h: Href, g: Href)
    requires Unique(s, body.reference) && Valid(s)
    requires RuleSetStep(s, t, body, narrow, resolved, Ok(h)) && RuleSetStep(t, u, body, narrow, resolved, Ok(g))
    ensures Unique(u, body.reference) <==> body.reference != ""
  {
    StepKeepsUniqueAndOthers(s, t, body, narrow, resolved, Ok(h));
    StepKeepsUniqueAndOthers(t, u, body, narrow, resolved, Ok(g));
    var h', rules := StepWritesOnePlace(s, t, body, narrow, resolved, Ok(h));
    var g', more := StepWritesOnePlace(t, u, body, narrow, resolved, Ok(g));
    if body.reference == "" {
      assert Owns(u, h, "") && Owns(u, g, "") && g != h;
    }
  }

  lemma StepOwns(s: Store, t: Store, body: RuleSet, narrow: seq<Href>, resolved: seq<ResolvedAllow>,
                 r: Result<Href, RuleSetError>, o: Href)
    requires RuleSetStep(s, t, body, narrow, resolved, r) && Owns(s, o, body.reference)
    ensures Owns(t, o, body.reference) && t.draft[o].body == s.draft[o].body
  {
    var h, rules := StepWritesOnePlace(s, t, body, narrow, resolved, r);
  }

  /** A completed run on an owner with a reference: its one ruleset, whose body stays, has exactly these rules. */
  lemma CompletedRun(s: Store, t: Store, body: RuleSet, narrow: seq<Href>, resolved: seq<ResolvedAllow>, h: Href)
    requires Unique(s, body.reference) && body.reference != "" && RuleSetStep(s, t, body, narrow, resolved, Ok(h))
    ensures forall o :: Owns(t, o, body.reference) <==> o == h
    ensures Bare(t.draft[h].rules) == RulesFor(narrow, AllServices(s), resolved) && !t.draft[h].pendingDelete
    ensures t == WithDraft(s, h, t.draft[h])
    ensures forall o :: Owns(s, o, body.reference) ==> o == h && t.draft[h].body == s.draft[o].body
  {
    StepKeepsUniqueAndOthers(s, t, body, narrow, resolved, Ok(h));
    assert Owns(t, h, body.reference);
    forall o | Owns(s, o, body.reference) ensures o == h && t.draft[h].body == s.draft[o].body {
      StepOwns(s, t, body, narrow, resolved, Ok(h), o);
    }
  }

  /** Rules that differ at most in the order of the actors in them. */
  predicate SameRules(a: seq<SecRule>, b: seq<SecRule>) {
    |a| == |b| && forall i :: 0 <= i < |a| ==>
      && a[i].(providers := [], consumers := []) == b[i].(providers := [], consumers := [])
      && multiset(a[i].providers) == multiset(b[i].providers)
      && multiset(a[i].consumers) == multiset(b[i].consumers)
  }

  /** Inputs that differ at most in the order of the hrefs, as two runs over the same maps do. */
  ghost predicate SameInputs(narrow: seq<Href>, resolved: seq<ResolvedAllow>, narrow': seq<Href>, resolved': seq<ResolvedAllow>) {
    && multiset(narrow) == multiset(narrow')
    && |resolved| == |resolved'| && forall i :: 0 <= i < |resolved| ==> SameUpToOrder(resolved[i], resolved'[i])
  }

  lemma {:induction false} ActorCount(hrefs: seq<Href>, a: Actor)
    ensures multiset(LabelActors(hrefs))[a] == if a.LabelActor? then multiset(hrefs)[a.href] else 0
  {
    if hrefs != [] {
      var n := |hrefs| - 1;
      ActorCount(hrefs[..n], a);
      assert hrefs == hrefs[..n] + [hrefs[n]];
      assert LabelActors(hrefs) == LabelActors(hrefs[..n]) + [LabelActor(hrefs[n])];
    }
  }

  lemma SameActors(hrefs: seq<Href>, others: seq<Href>)
    requires multiset(hrefs) == multiset(others)
    ensures multiset(LabelActors(hrefs)) == multiset(LabelActors(others))
  {
    forall a ensures multiset(LabelActors(hrefs))[a] == multiset(LabelActors(others))[a] {
      ActorCount(hrefs, a);
      ActorCount(others, a);
    }
  }

  lemma SameInputsSameRules(narrow: seq<Href>, resolved: seq<ResolvedAllow>, narrow': seq<Href>, resolved': seq<ResolvedAllow>,
                            allServices: Href)
    requires SameInputs(narrow, resolved, narrow', resolved')
    ensures SameRules(RulesFor(narrow, allServices, resolved), RulesFor(narrow', allServices, resolved'))
  {
    SameActors(narrow, narrow');
    assert narrow == [] <==> multiset(narrow) == multiset{};
    assert narrow' == [] <==> multiset(narrow') == multiset{};
    forall i | 0 <= i < |resolved|
      ensures multiset(LabelActors(resolved[i].consumerHrefs)) == multiset(LabelActors(resolved'[i].consumerHrefs))
      ensures resolved[i].(consumerHrefs := []) == resolved'[i].(consumerHrefs := [])
    {
      assert SameUpToOrder(resolved[i], resolved'[i]);
      SameActors(resolved[i].consumerHrefs, resolved'[i].consumerHrefs);
    }
  }

  /** Whatever an earlier run of the owner left behind, on whatever input, a run that completes leaves the owner
      exactly the rules of its own input.  A further run on the same input, its maps ranged over in another
      order, changes nothing but identifiers and the order of actors within a rule. */
  lemma ReconcileConverges(s: Store, t: Store, u: Store, v: Store, reference: string,
                           oldBody: RuleSet, oldNarrow: seq<Href>, oldResolved: seq<ResolvedAllow>, q: Result<Href, RuleSetError>,
                           body: RuleSet, narrow: seq<Href>, resolved: seq<ResolvedAllow>, h: Href,
                           body': RuleSet, narrow': seq<Href>, resolved': seq<ResolvedAllow>, g: Href)
    requires Unique(s, reference) && reference != ""
    requires oldBody.reference == body.reference == body'.reference == reference
    requires RuleSetStep(s, t, oldBody, oldNarrow, oldResolved, q)
    requires RuleSetStep(t, u, body, narrow, resolved, Ok(h))
    requires RuleSetStep(u, v, body', narrow', resolved', Ok(g)) && SameInputs(narrow, resolved, narrow', resolved')
    ensures forall o :: Owns(u, o, reference) <==> o == h
    ensures Bare(u.draft[h].rules) == RulesFor(narrow, AllServices(s), resolved) && !u.draft[h].pendingDelete
    ensures forall o :: Owns(s, o, reference) ==> o == h && u.draft[h].body == s.draft[o].body
    ensures g == h && v == WithDraft(u, h, u.draft[h].(rules := v.draft[h].rules))
    ensures SameRules(Bare(u.draft[h].rules), Bare(v.draft[h].rules))
  {
    hide RulesFor, RuleSetStep, SameInputs, SameRules;
    StepKeepsUniqueAndOthers(s, t, oldBody, oldNarrow, oldResolved, q);
    CompletedRun(t, u, body, narrow, resolved, h);
    StepKeepsUniqueAndOthers(t, u, body, narrow, resolved, Ok(h));
    assert Owns(u, h, reference);
    CompletedRun(u, v, body', narrow', resolved', g);
    forall o | Owns(s, o, reference) ensures o == h && u.draft[h].body == s.draft[o].body {
      StepOwns(s, t, oldBody, oldNarrow, oldResolved, q, o);
    }
    SameInputsSameRules(narrow, resolved, narrow', resolved', AllServices(s));
  }

  /** A rule without ports, and only such a rule, refers to the built-in service "All Services"; a rule without
      narrowing has All Workloads as its provider. */
  lemma RulesReferToBuiltIns(s: Store, t: Store, body: RuleSet, narrow: seq<Href>, resolved: seq<ResolvedAllow>, h: Href, i: nat)
    requires RuleSetStep(s, t, body, narrow, resolved, Ok(h)) && i < |resolved|
    ensures h in t.draft && |t.draft[h].rules| == |resolved|
    ensures var rule := t.draft[h].rules[i].rule;
      && (if resolved[i].ports == [] then
            "All Services" in s.services && rule.ingressServices == [ServiceRef(s.services["All Services"])]
          else rule.ingressServices == resolved[i].ports)
      && (narrow == [] <==> rule.providers == [AllWorkloads])
      && (resolved[i].allWorkloads ==> rule.consumers == [AllWorkloads])
  {
    var rules: seq<DraftRule> :| t == WithRules(s, h, body, rules) && Bare(rules) == RulesFor(narrow, AllServices(s), resolved);
    assert Bare(rules)[i] == rules[i].rule == RuleFor(narrow, AllServices(s), resolved[i]);
    assert narrow != [] ==> LabelActors(narrow)[0] != AllWorkloads;
    assert resolved[i].ports == [] ==> NeedsAllServices(resolved);
  }

  /** A ruleset an admin marked for deletion is left alone. */
  lemma PendingDeletionIsLeftAlone(s: Store, t: Store, body: RuleSet, narrow: seq<Href>, resolved: seq<ResolvedAllow>,
                                   r: Result<Href, RuleSetError>, h: Href)
    requires RuleSetStep(s, t, body, narrow, resolved, r) && Unique(s, body.reference) && body.reference != ""
    requires Owns(s, h, body.reference) && s.draft[h].pendingDelete
    ensures t == s && (r == Err(PendingDeletion) || r == Err(CallFailed))
  {
    var g, rules := StepWritesOnePlace(s, t, body, narrow, resolved, r);
    forall p ensures !Place(s, p, body.reference) {
      assert Owns(s, p, body.reference) ==> p == h;
    }
  }
}
