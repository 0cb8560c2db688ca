/**
 * The Illumio PCE as the operator's client sees it: labels, services, and
 * rulesets that exist in a draft version and, once provisioned, in an active one.
 *
 * Hrefs are opaque strings the PCE chooses.  A call may fail before it takes
 * effect (nothing happened) or after it (the reply is lost); `faults` counts
 * the failed calls, so a contract can say what an undisturbed call must do.
 * An operator that stops between two calls leaves the store that a fault
 * before the second call leaves.
 */
module Pce {
  import opened Wrappers

  type Href = string

  datatype Label = Label(key: string, value: string)

  datatype Actor = AllWorkloads | LabelActor(href: Href)

  datatype IngressService = Inline(proto: int, port: int) | ServiceRef(href: Href)

  datatype ResolveLabelsAs = ResolveLabelsAs(providers: seq<string>, consumers: seq<string>)

  datatype SecRule = SecRule(
    enabled: bool,
    resolveLabelsAs: ResolveLabelsAs,
    providers: seq<Actor>,
    consumers: seq<Actor>,
    ingressServices: seq<IngressService>,
    unscopedConsumers: bool)

  datatype ScopeEntry = ScopeEntry(labelRef: Href)

  datatype RuleSet = RuleSet(
    name: string,
    enabled: bool,
    scopes: seq<seq<ScopeEntry>>,
    dataSet: string,
    reference: string)

  datatype Owner = Owner(dataSet: string, reference: string)

  datatype DraftRule = DraftRule(id: string, rule: SecRule)

  /** A rule's href is its ruleset's href followed by an identifier. */
  datatype RuleHref = RuleHref(ruleSet: Href, id: string)

  /** `pendingDelete` is update_type "delete": marked for deletion, not yet provisioned. */
  datatype DraftRuleSet = DraftRuleSet(body: RuleSet, rules: seq<DraftRule>, pendingDelete: bool)

  datatype ActiveRuleSet = ActiveRuleSet(body: RuleSet, rules: seq<SecRule>)

  datatype Store = Store(
    draft: map<Href, DraftRuleSet>,
    active: map<Href, ActiveRuleSet>,
    labels: map<Label, Href>,
    services: map<string, Href>)

  datatype FoundRuleSet = FoundRuleSet(href: Href, pendingDelete: bool)

  /** NotFound is a 404 or a label without an exact match; Refused any other answer
      of the PCE to a call that arrived; Fault a failed call (rate limit, network, 5xx). */
  datatype Error = NotFound | Refused | Fault

  const ALL_SERVICES_NAME := "All Services"

  /** What the PCE keeps true of its own store. */
  ghost predicate Valid(s: Store) {
    && (forall h :: h in s.active ==> h in s.draft && s.active[h].body.reference == s.draft[h].body.reference)
    && ValidLabels(s.labels)
  }

  ghost predicate ValidLabels(labels: map<Label, Href>) {
    && (forall l, m :: l in labels && m in labels && labels[l] == labels[m] ==> l == m)
    && (forall l :: l in labels ==> labels[l] != "")
  }

  /** The rules of a draft without the identifiers the PCE gave them. */
  function Bare(rules: seq<DraftRule>): seq<SecRule> {
    seq(|rules|, i requires 0 <= i < |rules| => rules[i].rule)
  }

  function Ids(rules: seq<DraftRule>): set<string> {
    set d | d in rules :: d.id
  }

  /** Position of the first rule with this identifier; |rules| if there is none. */
  function IndexOf(rules: seq<DraftRule>, id: string): (i: nat)
    ensures i <= |rules|
    ensures i < |rules| ==> rules[i].id == id
    ensures forall j :: 0 <= j < i ==> rules[j].id != id
  {
    if rules == [] then 0 else if rules[0].id == id then 0 else 1 + IndexOf(rules[1..], id)
  }

  predicate Owns(s: Store, h: Href, reference: string) {
    h in s.draft && s.draft[h].body.reference == reference
  }

  /** A ruleset whose rules can be read and edited: present and not marked for deletion. */
  predicate Editable(s: Store, h: Href) {
    h in s.draft && !s.draft[h].pendingDelete
  }

  function WithDraft(s: Store, h: Href, d: DraftRuleSet): Store {
    s.(draft := s.draft[h := d])
  }

  function WithRule(s: Store, h: Href, id: string, rule: SecRule): Store
    requires h in s.draft
  {
    WithDraft(s, h, s.draft[h].(rules := s.draft[h].rules + [DraftRule(id, rule)]))
  }

  function WithoutRule(s: Store, h: Href, i: nat): Store
    requires h in s.draft && i < |s.draft[h].rules|
  {
    WithDraft(s, h, s.draft[h].(rules := s.draft[h].rules[..i] + s.draft[h].rules[i + 1..]))
  }

  function WithLabel(s: Store, l: Label, h: Href): Store {
    s.(labels := s.labels[l := h])
  }

  function Marked(s: Store, h: Href): Store
    requires h in s.draft
  {
    WithDraft(s, h, s.draft[h].(pendingDelete := true))
  }

  function Removed(s: Store, h: Href): Store {
    s.(draft := s.draft - {h}, active := s.active - {h})
  }

  /** Provisioning publishes a draft as it is, or carries out its pending deletion. */
  function Provisioned(s: Store, h: Href): Store
    requires h in s.draft
  {
    if s.draft[h].pendingDelete then Removed(s, h)
    else s.(active := s.active[h := ActiveRuleSet(s.draft[h].body, Bare(s.draft[h].rules))])
  }

  lemma WithDraftTwice(s: Store, h: Href, d: DraftRuleSet, e: DraftRuleSet)
    ensures WithDraft(WithDraft(s, h, d), h, e) == WithDraft(s, h, e)
  {
    assert s.draft[h := d][h := e] == s.draft[h := e];
  }

  /** The PCE can always find an identifier that is not in use. */
  lemma FreshString(used: set<string>)
    ensures exists x: string :: x != "" && x !in used
  {
    var n := LongestBound(used);
    var x: string := seq(n + 1, _ => '0');
    assert |x| == n + 1;
    assert x != "" && x !in used;
  }

  lemma {:induction false} LongestBound(used: set<string>) returns (n: nat)
    ensures forall x :: x in used ==> |x| <= n
  {
    if used == {} {
      n := 0;
    } else {
      var y :| y in used;
      var m := LongestBound(used - {y});
      n := if |y| > m then |y| else m;
      forall x | x in used ensures |x| <= n {
        assert x == y || x in used - {y};
      }
    }
  }

  class Client {
    var store: Store
    var faults: nat

    constructor (s: Store)
      ensures store == s && faults == 0
    {
      store, faults := s, 0;
    }

    /** The href of the label with exactly this key and value. */
    method FindLabel(l: Label) returns (r: Result<Href, Error>)
      modifies `faults
      ensures faults == old(faults) + (if r == Err(Fault) then 1 else 0)
      ensures r.Ok? ==> l in store.labels && r.value == store.labels[l]
      ensures r.Err? ==> r.error == Fault || (r.error == NotFound && l !in store.labels)
    {
      if * {
        faults := faults + 1;
        return Err(Fault);
      }
      r := if l in store.labels then Ok(store.labels[l]) else Err(NotFound);
    }

    method CreateLabel(l: Label) returns (r: Result<Href, Error>)
      modifies this
      ensures faults == old(faults) + (if r == Err(Fault) then 1 else 0)
      ensures r.Ok? ==>
        && l !in old(store.labels) && r.value != "" && r.value !in old(store.labels).Values
        && store == WithLabel(old(store), l, r.value)
      ensures r == Err(Fault) ==>
        || store == old(store)
        || (l !in old(store.labels) && exists h ::
             h != "" && h !in old(store.labels).Values && store == WithLabel(old(store), l, h))
      ensures r.Err? && r.error != Fault ==> r.error == Refused && l in old(store.labels) && store == old(store)
    {
      if * {
        faults := faults + 1;
        return Err(Fault);
      }
      if l in store.labels {
        return Err(Refused);
      }
      FreshString(store.labels.Values);
      var h: Href :| h != "" && h !in store.labels.Values;
      store := WithLabel(store, l, h);
      if * {
        faults := faults + 1;
        return Err(Fault);
      }
      r := Ok(h);
    }

    /** Find-or-create: an existing label is returned as it is. */
    method EnsureLabel(l: Label) returns (r: Result<Href, Error>)
      requires ValidLabels(store.labels)
      modifies this
      ensures ValidLabels(store.labels)
      ensures r == Err(Fault) <==> faults > old(faults)
      ensures faults >= old(faults)
      ensures r.Ok? || r == Err(Fault)
      ensures r.Ok? ==> l in store.labels && store.labels[l] == r.value
      ensures store == old(store) || (l !in old(store.labels) && l in store.labels
                                      && store == WithLabel(old(store), l, store.labels[l]))
    {
      r := FindLabel(l);
      if r == Err(NotFound) {
        r := CreateLabel(l);
      }
    }

    /** The built-in service with this name, if the PCE has it. */
    method FindServiceByName(name: string) returns (r: Result<Option<Href>, Error>)
      modifies `faults
      ensures faults == old(faults) + (if r == Err(Fault) then 1 else 0)
      ensures r.Ok? ==> r.value == if name in store.services then Some(store.services[name]) else None
      ensures r.Err? ==> r.error == Fault
    {
      if * {
        faults := faults + 1;
        return Err(Fault);
      }
      r := Ok(if name in store.services then Some(store.services[name]) else None);
    }

    /** The draft ruleset whose reference is the owner's.  Matching uses the reference alone,
        and an empty reference never matches. */
    method FindRuleSetByOwner(owner: Owner) returns (r: Result<Option<FoundRuleSet>, Error>)
      modifies `faults
      ensures faults == old(faults) + (if r == Err(Fault) then 1 else 0)
      ensures r.Err? ==> r.error == Fault
      ensures r == Ok(None) ==> owner.reference == "" || forall h :: !Owns(store, h, owner.reference)
      ensures r.Ok? && r.value.Some? ==>
        && owner.reference != "" && Owns(store, r.value.value.href, owner.reference)
        && r.value.value.pendingDelete == store.draft[r.value.value.href].pendingDelete
    {
      if * {
        faults := faults + 1;
        return Err(Fault);
      }
      var sets := store.draft.Keys;
      while sets != {}
        invariant sets <= store.draft.Keys
        invariant forall h :: h in store.draft && h !in sets ==>
          !(store.draft[h].body.reference == owner.reference && owner.reference != "")
        decreases |sets|
      {
        var h :| h in sets;
        if store.draft[h].body.reference == owner.reference && owner.reference != "" {
          return Ok(Some(FoundRuleSet(h, store.draft[h].pendingDelete)));
        }
        sets := sets - {h};
      }
      r := Ok(None);
    }

    method CreateRuleSet(body: RuleSet) returns (r: Result<Href, Error>)
      modifies this
      ensures faults == old(faults) + (if r == Err(Fault) then 1 else 0)
      ensures r.Err? ==> r.error == Fault
      ensures r.Ok? ==>
        && r.value !in old(store).draft && r.value !in old(store).active
        && store == WithDraft(old(store), r.value, DraftRuleSet(body, [], false))
      ensures r.Err? ==>
        || store == old(store)
        || exists h :: h !in old(store).draft && h !in old(store).active
                       && store == WithDraft(old(store), h, DraftRuleSet(body, [], false))
    {
      if * {
        faults := faults + 1;
        return Err(Fault);
      }
      FreshString(store.draft.Keys + store.active.Keys);
      var h: Href :| h != "" && h !in store.draft.Keys + store.active.Keys;
      store := WithDraft(store, h, DraftRuleSet(body, [], false));
      if * {
        faults := faults + 1;
        return Err(Fault);
      }
      r := Ok(h);
    }

    /** Deletes in the draft.  A provisioned ruleset is only marked; one that was never
        provisioned may be marked or may disappear at once.  A second deletion is refused. */
    method DeleteRuleSet(h: Href) returns (r: Result<(), Error>)
      modifies this
      ensures faults == old(faults) + (if r == Err(Fault) then 1 else 0)
      ensures r == Err(NotFound) ==> h !in old(store).draft && store == old(store)
      ensures r == Err(Refused) ==> h in old(store).draft && old(store).draft[h].pendingDelete && store == old(store)
      ensures r.Ok? ==> Editable(old(store), h) && DeletionTakesEffect(old(store), store, h)
      ensures r == Err(Fault) ==>
        store == old(store) || (Editable(old(store), h) && DeletionTakesEffect(old(store), store, h))
    {
      if * {
        faults := faults + 1;
        return Err(Fault);
      }
      if h !in store.draft {
        return Err(NotFound);
      }
      if store.draft[h].pendingDelete {
        return Err(Refused);
      }
      if h in store.active {
        store := Marked(store, h);
      } else if * {
        store := Marked(store, h);
      } else {
        store := Removed(store, h);
      }
      if * {
        faults := faults + 1;
        return Err(Fault);
      }
      r := Ok(());
    }

    method ListRules(h: Href) returns (r: Result<seq<RuleHref>, Error>)
      modifies `faults
      ensures faults == old(faults) + (if r == Err(Fault) then 1 else 0)
      ensures r.Ok? ==>
        && Editable(store, h) && |r.value| == |store.draft[h].rules|
        && forall i :: 0 <= i < |r.value| ==> r.value[i] == RuleHref(h, store.draft[h].rules[i].id)
      ensures r.Err? ==> r.error == Fault || (r.error == NotFound && !Editable(store, h))
    {
      if * {
        faults := faults + 1;
        return Err(Fault);
      }
      if !Editable(store, h) {
        return Err(NotFound);
      }
      var rules := store.draft[h].rules;
      r := Ok(seq(|rules|, i requires 0 <= i < |rules| => RuleHref(h, rules[i].id)));
    }

    method CreateRule(h: Href, rule: SecRule) returns (r: Result<string, Error>)
      modifies this
      ensures faults == old(faults) + (if r == Err(Fault) then 1 else 0)
      ensures r.Ok? ==>
        && Editable(old(store), h) && r.value !in Ids(old(store).draft[h].rules)
        && store == WithRule(old(store), h, r.value, rule)
      ensures r == Err(Fault) ==>
        || store == old(store)
        || (Editable(old(store), h) && exists id :: store == WithRule(old(store), h, id, rule))
      ensures r.Err? && r.error != Fault ==> r.error == NotFound && !Editable(old(store), h) && store == old(store)
    {
      if * {
        faults := faults + 1;
        return Err(Fault);
      }
      if !Editable(store, h) {
        return Err(NotFound);
      }
      FreshString(Ids(store.draft[h].rules));
      var id: string :| id != "" && id !in Ids(store.draft[h].rules);
      store := WithRule(store, h, id, rule);
      if * {
        faults := faults + 1;
        return Err(Fault);
      }
      r := Ok(id);
    }

    method DeleteRule(rule: RuleHref) returns (r: Result<(), Error>)
      modifies this
      ensures faults == old(faults) + (if r == Err(Fault) then 1 else 0)
      ensures r.Ok? ==> RuleGone(old(store), store, rule)
      ensures r == Err(Fault) ==> store == old(store) || RuleGone(old(store), store, rule)
      ensures r.Err? && r.error != Fault ==>
        r.error == NotFound && !HasRule(old(store), rule) && store == old(store)
    {
      if * {
        faults := faults + 1;
        return Err(Fault);
      }
      if !Editable(store, rule.ruleSet) {
        return Err(NotFound);
      }
      var i := IndexOf(store.draft[rule.ruleSet].rules, rule.id);
      if i == |store.draft[rule.ruleSet].rules| {
        return Err(NotFound);
      }
      store := WithoutRule(store, rule.ruleSet, i);
      if * {
        faults := faults + 1;
        return Err(Fault);
      }
      r := Ok(());
    }

    /** Provisions exactly this ruleset. */
    method ProvisionRuleSet(h: Href) returns (r: Result<(), Error>)
      modifies this
      ensures faults == old(faults) + (if r == Err(Fault) then 1 else 0)
      ensures r.Ok? ==> h in old(store).draft && store == Provisioned(old(store), h)
      ensures r == Err(Fault) ==>
        store == old(store) || (h in old(store).draft && store == Provisioned(old(store), h))
      ensures r.Err? && r.error != Fault ==> r.error == NotFound && h !in old(store).draft && store == old(store)
    {
      if * {
        faults := faults + 1;
        return Err(Fault);
      }
      if h !in store.draft {
        return Err(NotFound);
      }
      store := Provisioned(store, h);
      if * {
        faults := faults + 1;
        return Err(Fault);
      }
      r := Ok(());
    }
  }

  /** A provisioned ruleset is marked; a ruleset that was only a draft is marked or gone. */
  ghost predicate DeletionTakesEffect(s: Store, t: Store, h: Href)
    requires h in s.draft
  {
    t == Marked(s, h) || (h !in s.active && t == Removed(s, h))
  }

  predicate HasRule(s: Store, rule: RuleHref) {
    && Editable(s, rule.ruleSet)
    && IndexOf(s.draft[rule.ruleSet].rules, rule.id) < |s.draft[rule.ruleSet].rules|
  }

  ghost predicate RuleGone(s: Store, t: Store, rule: RuleHref) {
    && HasRule(s, rule)
    && t == WithoutRule(s, rule.ruleSet, IndexOf(s.draft[rule.ruleSet].rules, rule.id))
  }
}
