/**
 * Container Workload Profiles (CWPs): one pass over the namespaces of a cluster
 * brings each namespace's profile to its desired state, and one namespace's
 * failure leaves the others alone.
 */
module Profiles {
  import opened Wrappers
  import opened Pce
  import opened CwpMatch
  import opened Enforcement
  import LabelText

  type HrefMap = map<string, Href>

  /** A label assignment; None stands for a restriction, which assigns nothing. */
  datatype CwpLabel = CwpLabel(key: string, assignment: Option<Href>)

  datatype Cwp = Cwp(href: Href, namespace: string, managed: bool, enforcementMode: string, labels: seq<CwpLabel>)

  /** An empty enforcement mode is left out of the request and changes nothing. */
  datatype CwpUpdate = CwpUpdate(managed: bool, enforcementMode: string, labels: seq<CwpLabel>)

  /** A namespace, and the enforcement its policy CRs request (None: they could not be listed). */
  datatype NamespaceObject = NamespaceObject(
    ns: Namespace, intents: Option<seq<Request>>, policies: Option<seq<Request>>)

  function Applied(c: Cwp, u: CwpUpdate): Cwp {
    c.(managed := u.managed, labels := u.labels,
       enforcementMode := if u.enforcementMode != "" then u.enforcementMode else c.enforcementMode)
  }

  // ----- The PCE's profiles -----

  predicate DistinctHrefs(cwps: seq<Cwp>) {
    forall i, j :: 0 <= i < j < |cwps| ==> cwps[i].href != cwps[j].href
  }

  predicate ValidAssignments(labels: seq<CwpLabel>) {
    forall i :: 0 <= i < |labels| ==> labels[i].assignment != Some("")
  }

  predicate ValidCwps(cwps: seq<Cwp>) {
    DistinctHrefs(cwps) && forall i :: 0 <= i < |cwps| ==> ValidAssignments(cwps[i].labels)
  }

  class ProfileClient {
    var cwps: seq<Cwp>
    var updates: nat
    var faults: nat

    constructor (cs: seq<Cwp>)
      ensures cwps == cs && updates == 0 && faults == 0
    {
      cwps, updates, faults := cs, 0, 0;
    }

    method List() returns (r: Option<seq<Cwp>>)
      modifies `faults
      ensures faults == old(faults) + (if r.None? then 1 else 0)
      ensures r.Some? ==> r.value == cwps
    {
      if * {
        faults := faults + 1;
        return None;
      }
      r := Some(cwps);
    }

    /** The profile at position j, found by its href; `j` only names it in the contract. */
    method Update(href: Href, u: CwpUpdate, ghost j: nat) returns (ok: bool)
      requires DistinctHrefs(cwps) && j < |cwps| && cwps[j].href == href
      modifies this
      ensures updates == old(updates) + 1
      ensures faults == old(faults) + (if ok then 0 else 1)
      ensures cwps == old(cwps)[j := Applied(old(cwps)[j], u)] || (!ok && cwps == old(cwps))
    {
      updates := updates + 1;
      if * {
        faults := faults + 1;
        return false;
      }
      var i := 0;
      while cwps[i].href != href
        invariant 0 <= i <= j
        decreases j - i
      {
        i := i + 1;
      }
      cwps := cwps[i := Applied(cwps[i], u)];
      if * {
        faults := faults + 1;
        return false;
      }
      ok := true;
    }
  }

  // ----- Comparing label assignments -----

  /** The assigned href by label key; a later entry for the same key wins. */
  function Assigned(labels: seq<CwpLabel>): HrefMap {
    if labels == [] then map[]
    else
      var l := labels[|labels| - 1];
      var m := Assigned(labels[..|labels| - 1]);
      if l.assignment.Some? then m[l.key := l.assignment.value] else m
  }

  method CurrentAssignments(labels: seq<CwpLabel>) returns (m: HrefMap)
    ensures m == Assigned(labels)
  {
    m := map[];
    for i := 0 to |labels|
      invariant m == Assigned(labels[..i])
    {
      assert labels[..i + 1][..i] == labels[..i];
      if labels[i].assignment.Some? {
        m := m[labels[i].key := labels[i].assignment.value];
      }
    }
    assert labels[..|labels|] == labels;
  }

  /** A key is assigned what the last assignment for it says; restrictions say nothing. */
  lemma {:induction false} AssignedIsLast(labels: seq<CwpLabel>, k: string)
    ensures k in Assigned(labels) <==>
      exists i :: 0 <= i < |labels| && labels[i].key == k && labels[i].assignment.Some?
    ensures k in Assigned(labels) ==>
      exists i :: 0 <= i < |labels| && labels[i].key == k && labels[i].assignment == Some(Assigned(labels)[k])
        && forall j :: i < j < |labels| && labels[j].key == k ==> labels[j].assignment.None?
  {
    if labels != [] {
      AssignedIsLast(labels[..|labels| - 1], k);
    }
  }

  lemma {:induction false} AssignedNonEmpty(labels: seq<CwpLabel>)
    requires ValidAssignments(labels)
    ensures "" !in Assigned(labels).Values
  {
    if labels != [] {
      AssignedNonEmpty(labels[..|labels| - 1]);
    }
  }

  function GetHref(m: HrefMap, k: string): Href {
    if k in m then m[k] else ""
  }

  predicate Agree(a: HrefMap, b: HrefMap) {
    |a| == |b| && forall k :: k in a ==> GetHref(b, k) == a[k]
  }

  method SameLabelSet(a: HrefMap, b: HrefMap) returns (same: bool)
    ensures same <==> Agree(a, b)
  {
    if |a| != |b| {
      return false;
    }
    var keys := a.Keys;
    while keys != {}
      invariant keys <= a.Keys
      invariant forall k :: k in a && k !in keys ==> GetHref(b, k) == a[k]
      decreases |keys|
    {
      var k :| k in keys;
      if GetHref(b, k) != a[k] {
        return false;
      }
      keys := keys - {k};
    }
    return true;
  }

  lemma AgreeIsEquality(a: HrefMap, b: HrefMap)
    requires "" !in a.Values
    ensures Agree(a, b) <==> a == b
  {
    if Agree(a, b) {
      forall k | k in a ensures k in b {
        assert a[k] in a.Values;
      }
      assert |a.Keys| == |b.Keys| && a.Keys <= b.Keys;
      SubsetOfSameSize(a.Keys, b.Keys);
    }
  }

  lemma SubsetOfSameSize<T>(a: set<T>, b: set<T>)
    requires a <= b && |a| == |b|
    ensures a == b
  {
    if x :| x in b && x !in a {
      assert |a + {x}| == |a| + 1;
      SubsetSize(a + {x}, b);
    }
  }

  lemma {:induction false} SubsetSize<T>(a: set<T>, b: set<T>)
    requires a <= b
    ensures |a| <= |b|
    decreases a
  {
    if a != {} {
      var x :| x in a;
      SubsetSize(a - {x}, b - {x});
    }
  }

  /** The comparison decides equality against every map exactly when no compared href is empty: a missing
      key reads as an empty href. */
  lemma AgreeDecidesEqualityIffNonEmpty(a: HrefMap)
    ensures (forall b: HrefMap :: Agree(a, b) <==> a == b) <==> "" !in a.Values
  {
    if "" !in a.Values {
      forall b: HrefMap ensures Agree(a, b) <==> a == b {
        AgreeIsEquality(a, b);
      }
    } else {
      var k :| k in a && a[k] == "";
      FreshString(a.Keys);
      var other: string :| other != "" && other !in a.Keys;
      var b := (a - {k})[other := "h"];
      assert b.Keys == (a.Keys - {k}) + {other};
      assert |b.Keys| == |a.Keys|;
      assert Agree(a, b) && a != b;
    }
  }

  // ----- One namespace -----

  function Hrefs(labels: CwpMatch.LabelMap, store: map<Label, Href>): HrefMap {
    map k | k in labels && Label(k, labels[k]) in store :: store[Label(k, labels[k])]
  }

  predicate Known(labels: CwpMatch.LabelMap, store: map<Label, Href>) {
    forall k :: k in labels ==> Label(k, labels[k]) in store
  }

  /** The profile is in its desired state. */
  predicate Converged(store: map<Label, Href>, c: Cwp, d: DesiredCwp) {
    && c.managed == d.managed
    && Assigned(c.labels) == Hrefs(d.labels, store)
    && (d.managed && d.enforcementMode != "" ==> c.enforcementMode == d.enforcementMode)
  }

  predicate UpdateFor(store: map<Label, Href>, u: CwpUpdate, d: DesiredCwp) {
    && u.managed == d.managed
    && u.enforcementMode == (if d.managed then d.enforcementMode else "")
    && Assigned(u.labels) == Hrefs(d.labels, store)
    && ValidAssignments(u.labels)
  }

  predicate PipeFree(labels: CwpMatch.LabelMap) {
    forall k :: k in labels ==> '|' !in k
  }

  ghost predicate LabelsKept(store: map<Label, Href>, more: map<Label, Href>) {
    ValidLabels(more) && forall l :: l in store ==> l in more && more[l] == store[l]
  }

  /** Every cached href is the one EnsureLabel would return for the label that was cached. */
  ghost predicate CacheOk(cache: map<string, Href>, store: map<Label, Href>) {
    forall c :: c in cache ==> exists l :: CachedAs(l, c, cache, store)
  }

  ghost predicate CachedAs(l: Label, c: string, cache: map<string, Href>, store: map<Label, Href>)
    requires c in cache
  {
    '|' !in l.key && LabelText.CacheKey(l) == c && l in store && store[l] == cache[c]
  }

  predicate CacheFilled(cache: map<string, Href>) {
    forall c :: c in cache ==> cache[c] != ""
  }

  /** For keys without '|' a hit in the cache is the label's own href. */
  lemma CacheHit(cache: map<string, Href>, store: map<Label, Href>, l: Label)
    requires CacheOk(cache, store) && '|' !in l.key && LabelText.CacheKey(l) in cache
    ensures l in store && store[l] == cache[LabelText.CacheKey(l)]
  {
    var m :| CachedAs(m, LabelText.CacheKey(l), cache, store);
    LabelText.JoinedInjective(l, m, '|');
  }

  lemma CacheAdd(cache: map<string, Href>, store: map<Label, Href>, more: map<Label, Href>, l: Label)
    requires CacheOk(cache, store) && LabelsKept(store, more) && '|' !in l.key && l in more
    ensures CacheOk(cache[LabelText.CacheKey(l) := more[l]], more)
  {
    var new_ := cache[LabelText.CacheKey(l) := more[l]];
    forall c | c in new_ ensures exists m :: CachedAs(m, c, new_, more) {
      if c == LabelText.CacheKey(l) {
        assert CachedAs(l, c, new_, more);
      } else {
        var m :| CachedAs(m, c, cache, store);
        assert CachedAs(m, c, new_, more);
      }
    }
  }

  lemma CacheKept(cache: map<string, Href>, store: map<Label, Href>, more: map<Label, Href>)
    requires CacheOk(cache, store) && LabelsKept(store, more)
    ensures CacheOk(cache, more)
  {
    forall c | c in cache ensures exists m :: CachedAs(m, c, cache, more) {
      var m :| CachedAs(m, c, cache, store);
      assert CachedAs(m, c, cache, more);
    }
  }

  /** The href of one label, from the cache or from the PCE. */
  method CachedHref(pce: Client, l: Label, cache: map<string, Href>)
    returns (r: Option<Href>, newCache: map<string, Href>)
    requires ValidLabels(pce.store.labels) && CacheFilled(cache)
    modifies pce
    ensures pce.faults >= old(pce.faults) && (r.None? <==> pce.faults > old(pce.faults))
    ensures ValidLabels(pce.store.labels) && LabelsKept(old(pce.store.labels), pce.store.labels)
    ensures CacheFilled(newCache) && (r.Some? ==> r.value != "")
    ensures '|' !in l.key && CacheOk(cache, old(pce.store.labels)) ==>
      && CacheOk(newCache, pce.store.labels)
      && (r.Some? ==> l in pce.store.labels && pce.store.labels[l] == r.value)
  {
    newCache := cache;
    var cacheKey := LabelText.CacheKey(l);
    if cacheKey in cache {
      if '|' !in l.key && CacheOk(cache, pce.store.labels) {
        CacheHit(cache, pce.store.labels, l);
      }
      return Some(cache[cacheKey]), cache;
    }
    ghost var before := pce.store.labels;
    var ensured := pce.EnsureLabel(l);
    if '|' !in l.key && CacheOk(cache, before) {
      CacheKept(cache, before, pce.store.labels);
      if ensured.Ok? {
        CacheAdd(cache, before, pce.store.labels, l);
      }
    }
    if ensured.Err? {
      return None, cache;
    }
    return Some(ensured.value), cache[cacheKey := ensured.value];
  }

  ghost predicate HrefsSoFar(labels: CwpMatch.LabelMap, todo: set<string>, store: map<Label, Href>, byKey: HrefMap) {
    && byKey.Keys == labels.Keys - todo
    && forall k :: k in byKey ==> Label(k, labels[k]) in store && store[Label(k, labels[k])] == byKey[k]
  }

  lemma HrefsMore(labels: CwpMatch.LabelMap, todo: set<string>, store: map<Label, Href>, more: map<Label, Href>,
                  byKey: HrefMap, k: string)
    requires HrefsSoFar(labels, todo, store, byKey) && LabelsKept(store, more)
    requires k in todo && todo <= labels.Keys && Label(k, labels[k]) in more
    ensures HrefsSoFar(labels, todo - {k}, more, byKey[k := more[Label(k, labels[k])]])
  {
    assert labels.Keys - (todo - {k}) == (labels.Keys - todo) + {k};
  }

  lemma HrefsNone(labels: CwpMatch.LabelMap, store: map<Label, Href>)
    ensures HrefsSoFar(labels, labels.Keys, store, map[])
  {
  }

  lemma HrefsAll(labels: CwpMatch.LabelMap, store: map<Label, Href>, byKey: HrefMap)
    requires HrefsSoFar(labels, {}, store, byKey)
    ensures Known(labels, store) && byKey == Hrefs(labels, store)
  {
    assert byKey.Keys == labels.Keys;
  }

  lemma KeptTwice(store: map<Label, Href>, more: map<Label, Href>, most: map<Label, Href>)
    requires LabelsKept(store, more) && LabelsKept(more, most)
    ensures LabelsKept(store, most)
  {
  }

  lemma KeptAtFirst(store: map<Label, Href>)
    requires ValidLabels(store)
    ensures LabelsKept(store, store)
  {
  }

  /** The hrefs of the desired labels, missing labels being created. */
  method ResolveDesiredLabels(pce: Client, desired: CwpMatch.LabelMap, cache: map<string, Href>)
    returns (ok: bool, labels: seq<CwpLabel>, byKey: HrefMap, newCache: map<string, Href>)
    requires ValidLabels(pce.store.labels) && CacheFilled(cache)
    modifies pce
    ensures pce.faults >= old(pce.faults) && (!ok <==> pce.faults > old(pce.faults))
    ensures LabelsKept(old(pce.store.labels), pce.store.labels)
    ensures ValidLabels(pce.store.labels) && CacheFilled(newCache)
    ensures Assigned(labels) == byKey && ValidAssignments(labels)
    ensures PipeFree(desired) && CacheOk(cache, old(pce.store.labels)) ==>
      && CacheOk(newCache, pce.store.labels)
      && (ok ==> Known(desired, pce.store.labels) && byKey == Hrefs(desired, pce.store.labels))
  {
    hide CacheOk, CacheFilled, LabelsKept, HrefsSoFar, Hrefs, Known, LabelText.CacheKey, ValidLabels;
    ghost var exact := PipeFree(desired) && CacheOk(cache, pce.store.labels);
    ghost var initial := pce.store.labels;
    labels, byKey, newCache := [], map[], cache;
    var todo := desired.Keys;
    HrefsNone(desired, initial);
    KeptAtFirst(initial);
    while todo != {}
      invariant todo <= desired.Keys
      invariant pce.faults == old(pce.faults)
      invariant ValidLabels(pce.store.labels) && LabelsKept(initial, pce.store.labels)
      invariant Assigned(labels) == byKey && ValidAssignments(labels) && CacheFilled(newCache)
      invariant exact ==> CacheOk(newCache, pce.store.labels)
      invariant exact ==> HrefsSoFar(desired, todo, pce.store.labels, byKey)
      decreases |todo|
    {
      var k :| k in todo;
      ghost var before := pce.store.labels;
      var href;
      href, newCache := CachedHref(pce, Label(k, desired[k]), newCache);
      KeptTwice(initial, before, pce.store.labels);
      if href.None? {
        return false, labels, byKey, newCache;
      }
      assert (labels + [CwpLabel(k, href)])[..|labels|] == labels;
      if exact {
        HrefsMore(desired, todo, before, pce.store.labels, byKey, k);
      }
      byKey := byKey[k := href.value];
      labels := labels + [CwpLabel(k, href)];
      todo := todo - {k};
    }
    if exact {
      HrefsAll(desired, pce.store.labels, byKey);
    }
    ok := true;
  }

  /** The update that brings a profile to its desired state, and whether it changes anything. */
  method BuildCwpUpdate(pce: Client, current: Cwp, d: DesiredCwp, cache: map<string, Href>)
    returns (r: Option<CwpUpdate>, changed: bool, newCache: map<string, Href>)
    requires ValidLabels(pce.store.labels) && ValidAssignments(current.labels) && CacheFilled(cache)
    modifies pce
    ensures pce.faults >= old(pce.faults) && (r.None? <==> pce.faults > old(pce.faults))
    ensures LabelsKept(old(pce.store.labels), pce.store.labels)
    ensures ValidLabels(pce.store.labels) && CacheFilled(newCache) && (r.Some? ==> ValidAssignments(r.value.labels))
    ensures PipeFree(d.labels) && CacheOk(cache, old(pce.store.labels)) ==>
      && CacheOk(newCache, pce.store.labels)
      && (r.Some? ==>
            && Known(d.labels, pce.store.labels) && UpdateFor(pce.store.labels, r.value, d)
            && (changed <==> !Converged(pce.store.labels, current, d)))
  {
    hide CacheOk, PipeFree, Agree;
    var ok, labels, byKey;
    ok, labels, byKey, newCache := ResolveDesiredLabels(pce, d.labels, cache);
    if !ok {
      return None, false, newCache;
    }
    changed := current.managed != d.managed;
    var enforcement := d.enforcementMode;
    if d.managed && current.enforcementMode != enforcement && enforcement != "" {
      changed := true;
    }
    var currentByKey := CurrentAssignments(current.labels);
    var same := SameLabelSet(currentByKey, byKey);
    AssignedNonEmpty(current.labels);
    AgreeIsEquality(currentByKey, byKey);
    if !same {
      changed := true;
    }
    return Some(CwpUpdate(d.managed, if d.managed then enforcement else "", labels)), changed, newCache;
  }

  // ----- One pass over the namespaces -----

  /** Position of the profile that is used for a namespace: the last one listed for it. */
  function Selected(cwps: seq<Cwp>, name: string): Option<nat> {
    if cwps == [] then None
    else if name != "" && cwps[|cwps| - 1].namespace == name then Some(|cwps| - 1)
    else Selected(cwps[..|cwps| - 1], name)
  }

  lemma {:induction false} SelectedIsFor(cwps: seq<Cwp>, name: string)
    ensures Selected(cwps, name).Some? ==>
      var j := Selected(cwps, name).value; j < |cwps| && cwps[j].namespace == name
  {
    if cwps != [] {
      SelectedIsFor(cwps[..|cwps| - 1], name);
    }
  }

  /** The profile chosen for a namespace is the last one listed for it; a profile without one is never chosen. */
  lemma {:induction false} SelectedIsLast(cwps: seq<Cwp>, name: string)
    ensures Selected(cwps, name).None? <==> name == "" || forall j :: 0 <= j < |cwps| ==> cwps[j].namespace != name
    ensures Selected(cwps, name).Some? ==>
      var j := Selected(cwps, name).value;
      j < |cwps| && cwps[j].namespace == name && forall k :: j < k < |cwps| ==> cwps[k].namespace != name
  {
    if cwps != [] {
      SelectedIsLast(cwps[..|cwps| - 1], name);
    }
  }

  method IndexByNamespace(cwps: seq<Cwp>) returns (byNs: map<string, Cwp>)
    ensures forall n :: n in byNs <==> Selected(cwps, n).Some?
    ensures forall n :: n in byNs ==> Selected(cwps, n).value < |cwps| && byNs[n] == cwps[Selected(cwps, n).value]
  {
    byNs := map[];
    for i := 0 to |cwps|
      invariant forall n :: n in byNs <==> Selected(cwps[..i], n).Some?
      invariant forall n :: n in byNs ==> Selected(cwps[..i], n).value < i && byNs[n] == cwps[Selected(cwps[..i], n).value]
    {
      assert cwps[..i + 1][..i] == cwps[..i];
      if cwps[i].namespace != "" {
        byNs := byNs[cwps[i].namespace := cwps[i]];
      }
    }
    assert cwps[..|cwps|] == cwps;
  }

  datatype NsOutcome = AwaitingCwp | LabelFailed | UpdateFailed | InSync(updated: bool)

  /** What the pass does to one profile. */
  ghost predicate Settles(store: map<Label, Href>, before: Cwp, after: Cwp, d: DesiredCwp, o: NsOutcome) {
    match o
    case AwaitingCwp => false
    case LabelFailed => after == before
    case UpdateFailed =>
      && Known(d.labels, store) && !Converged(store, before, d)
      && (after == before || IsUpdated(store, before, after, d))
    case InSync(updated) =>
      && Known(d.labels, store) && Converged(store, after, d)
      && (updated <==> !Converged(store, before, d))
      && if updated then IsUpdated(store, before, after, d) else after == before
  }

  ghost predicate IsUpdated(store: map<Label, Href>, before: Cwp, after: Cwp, d: DesiredCwp) {
    Known(d.labels, store) && exists u :: UpdateFor(store, u, d) && after == Applied(before, u)
  }

  /** The profile of namespace i went through outcome o. */
  ghost predicate NsStep(store: map<Label, Href>, before: seq<Cwp>, after: seq<Cwp>, name: string, d: DesiredCwp, o: NsOutcome)
    requires |before| == |after|
  {
    SelectedIsFor(before, name);
    match Selected(before, name)
    case None => o == AwaitingCwp
    case Some(j) => Settles(store, before[j], after[j], d, o)
  }

  ghost predicate Pass(store: map<Label, Href>, before: seq<Cwp>, after: seq<Cwp>, names: seq<string>,
                       desired: seq<DesiredCwp>, outcomes: seq<NsOutcome>)
  {
    && |names| == |desired| == |outcomes| && OthersKept(before, after, names)
    && forall i :: 0 <= i < |names| ==> NsStep(store, before, after, names[i], desired[i], outcomes[i])
  }

  /** Only the profiles chosen for these namespaces may change, and those keep their href and namespace. */
  ghost predicate OthersKept(before: seq<Cwp>, after: seq<Cwp>, names: seq<string>) {
    && |before| == |after|
    && (forall j :: 0 <= j < |before| ==> after[j].href == before[j].href && after[j].namespace == before[j].namespace)
    && (forall j :: 0 <= j < |before| && !Chosen(before, names, j) ==> after[j] == before[j])
  }

  predicate Chosen(cwps: seq<Cwp>, names: seq<string>, j: nat)
    requires j < |cwps|
  {
    cwps[j].namespace in names && Selected(cwps, cwps[j].namespace) == Some(j)
  }

  lemma UpdateConverges(store: map<Label, Href>, c: Cwp, u: CwpUpdate, d: DesiredCwp)
    requires UpdateFor(store, u, d) && Known(d.labels, store)
    ensures Converged(store, Applied(c, u), d) && IsUpdated(store, c, Applied(c, u), d)
  {
  }

  lemma ConvergedKept(store: map<Label, Href>, more: map<Label, Href>, c: Cwp, d: DesiredCwp)
    requires LabelsKept(store, more) && Known(d.labels, store)
    ensures Known(d.labels, more) && (Converged(more, c, d) <==> Converged(store, c, d))
    ensures Hrefs(d.labels, more) == Hrefs(d.labels, store)
  {
    assert Hrefs(d.labels, more) == Hrefs(d.labels, store);
  }

  lemma SettlesKept(store: map<Label, Href>, more: map<Label, Href>, before: Cwp, after: Cwp, d: DesiredCwp, o: NsOutcome)
    requires LabelsKept(store, more) && Settles(store, before, after, d, o)
    ensures Settles(more, before, after, d, o)
  {
    if Known(d.labels, store) {
      ConvergedKept(store, more, before, d);
      ConvergedKept(store, more, after, d);
      if IsUpdated(store, before, after, d) {
        var u :| UpdateFor(store, u, d) && after == Applied(before, u);
        assert UpdateFor(more, u, d);
      }
    }
  }

  /** Another namespace is processed: the profiles of the earlier ones stay as they are. */
  lemma PassExtends(store: map<Label, Href>, more: map<Label, Href>, before: seq<Cwp>, mid: seq<Cwp>, after: seq<Cwp>,
                    names: seq<string>, desired: seq<DesiredCwp>, outcomes: seq<NsOutcome>,
                    name: string, d: DesiredCwp, o: NsOutcome)
    requires Pass(store, before, mid, names, desired, outcomes) && LabelsKept(store, more) && name !in names
    requires OthersKept(mid, after, [name]) && NsStep(more, before, after, name, d, o)
    ensures Pass(more, before, after, names + [name], desired + [d], outcomes + [o])
  {
    hide Settles, LabelsKept;
    var all := names + [name];
    forall i | 0 <= i < |all| ensures NsStep(more, before, after, all[i], (desired + [d])[i], (outcomes + [o])[i]) {
      if i < |names| {
        assert NsStep(store, before, mid, names[i], desired[i], outcomes[i]);
        SelectedIsFor(before, names[i]);
        if Selected(before, names[i]).Some? {
          var j := Selected(before, names[i]).value;
          SettlesKept(store, more, before[j], mid[j], desired[i], outcomes[i]);
          assert after[j] == mid[j];
        }
      }
    }
    OthersKeptExtends(before, mid, after, names, name);
  }

  lemma OthersKeptExtends(before: seq<Cwp>, mid: seq<Cwp>, after: seq<Cwp>, names: seq<string>, name: string)
    requires OthersKept(before, mid, names) && OthersKept(mid, after, [name])
    ensures OthersKept(before, after, names + [name])
  {
    var all := names + [name];
    forall j | 0 <= j < |before| && !Chosen(before, all, j) ensures after[j] == before[j] {
      SelectionKept(before, mid, before[j].namespace);
      assert before[j].namespace in names ==> before[j].namespace in all;
      assert before[j].namespace == name ==> all[|names|] == name;
      assert !Chosen(before, names, j) && !Chosen(mid, [name], j);
    }
  }

  // ----- Accounting -----

  datatype Kind = Waiting | Failing | Settled

  function KindOf(o: NsOutcome): Kind {
    match o
    case AwaitingCwp => Waiting
    case LabelFailed => Failing
    case UpdateFailed => Failing
    case InSync(_) => Settled
  }

  /** How many managed-intent namespaces ended this way. */
  function Count(desired: seq<DesiredCwp>, outcomes: seq<NsOutcome>, kind: Kind): nat
    requires |desired| == |outcomes|
  {
    if desired == [] then 0
    else
      var n := |desired| - 1;
      Count(desired[..n], outcomes[..n], kind) + if desired[n].managed && KindOf(outcomes[n]) == kind then 1 else 0
  }

  lemma {:induction false} CountIsSize(desired: seq<DesiredCwp>, outcomes: seq<NsOutcome>, kind: Kind, s: set<int>)
    requires |desired| == |outcomes|
    requires forall i :: i in s ==> 0 <= i < |desired| && desired[i].managed && KindOf(outcomes[i]) == kind
    requires forall i :: 0 <= i < |desired| && desired[i].managed && KindOf(outcomes[i]) == kind ==> i in s
    ensures Count(desired, outcomes, kind) == |s|
  {
    if desired == [] {
      assert forall i :: i !in s;
      assert s == {};
    } else {
      var n := |desired| - 1;
      CountIsSize(desired[..n], outcomes[..n], kind, s - {n});
      assert n in s ==> s == (s - {n}) + {n};
      assert n !in s ==> s == s - {n};
    }
  }

  /** What is counted as managed, pending and failed. */
  lemma {:induction false} CountsExactly(desired: seq<DesiredCwp>, outcomes: seq<NsOutcome>)
    requires |desired| == |outcomes|
    ensures Count(desired, outcomes, Settled) == |set i | 0 <= i < |desired| && desired[i].managed && outcomes[i].InSync?|
    ensures Count(desired, outcomes, Waiting) == |set i | 0 <= i < |desired| && desired[i].managed && outcomes[i].AwaitingCwp?|
    ensures Count(desired, outcomes, Failing) ==
      |set i | 0 <= i < |desired| && desired[i].managed && (outcomes[i].LabelFailed? || outcomes[i].UpdateFailed?)|
  {
    CountIsSize(desired, outcomes, Settled,
                set i | 0 <= i < |desired| && desired[i].managed && outcomes[i].InSync?);
    CountIsSize(desired, outcomes, Waiting,
                set i | 0 <= i < |desired| && desired[i].managed && outcomes[i].AwaitingCwp?);
    CountIsSize(desired, outcomes, Failing,
                set i | 0 <= i < |desired| && desired[i].managed && (outcomes[i].LabelFailed? || outcomes[i].UpdateFailed?));
  }

  function ManagedIntent(desired: seq<DesiredCwp>): nat {
    if desired == [] then 0
    else ManagedIntent(desired[..|desired| - 1]) + if desired[|desired| - 1].managed then 1 else 0
  }

  /** Every managed-intent namespace is counted as managed, or as pending, or has failed. */
  lemma {:induction false} CountsAddUp(desired: seq<DesiredCwp>, outcomes: seq<NsOutcome>)
    requires |desired| == |outcomes|
    ensures Count(desired, outcomes, Settled) + Count(desired, outcomes, Waiting) + Count(desired, outcomes, Failing)
         == ManagedIntent(desired)
  {
    if desired != [] {
      CountsAddUp(desired[..|desired| - 1], outcomes[..|outcomes| - 1]);
    }
  }

  function Attempts(outcomes: seq<NsOutcome>): nat {
    if outcomes == [] then 0
    else
      var o := outcomes[|outcomes| - 1];
      Attempts(outcomes[..|outcomes| - 1]) + if o == UpdateFailed || o == InSync(true) then 1 else 0
  }

  // ----- The pass -----

  /** The desired profile with its enforcement raised to what the policy CRs request. */
  ghost predicate IsFinal(glob: Glob, o: NamespaceObject, rules: seq<NamespaceRule>, sys: SystemNamespaces, d: DesiredCwp) {
    exists base :: IsDesired(glob, o.ns, rules, sys, base) && RaisedFrom(base, o, d)
  }

  predicate Listed(o: NamespaceObject) {
    o.intents.Some? && o.policies.Some?
  }

  ghost predicate RaisedFrom(base: DesiredCwp, o: NamespaceObject, d: DesiredCwp) {
    if base.managed && Listed(o) then
      exists e :: Raised(base.enforcementMode, o.intents.value + o.policies.value, e)
        && d == base.(enforcementMode := e.mode)
    else d == base
  }

  method FinalProfile(glob: Glob, o: NamespaceObject, rules: seq<NamespaceRule>, sys: SystemNamespaces)
    returns (d: DesiredCwp, ok: bool)
    ensures IsFinal(glob, o, rules, sys, d)
    ensures !ok <==> d.managed && !Listed(o)
  {
    d := ComputeDesiredCwp(glob, o.ns, rules, sys);
    ghost var base := d;
    ok := true;
    if d.managed {
      var raised := EffectiveEnforcement(o.intents, o.policies, d.enforcementMode);
      if raised.Some? {
        assert Raised(base.enforcementMode, o.intents.value + o.policies.value, raised.value);
        d := d.(enforcementMode := raised.value.mode);
      } else {
        ok := false;
      }
    }
    assert RaisedFrom(base, o, d);
  }

  predicate Failed(o: NsOutcome) {
    KindOf(o) == Failing
  }

  predicate AnyFailed(outcomes: seq<NsOutcome>) {
    exists i :: 0 <= i < |outcomes| && Failed(outcomes[i])
  }

  /** The requests of some managed namespace could not be listed. */
  predicate AnyUnlisted(objects: seq<NamespaceObject>, desired: seq<DesiredCwp>)
    requires |objects| == |desired|
  {
    exists i :: 0 <= i < |desired| && desired[i].managed && !Listed(objects[i])
  }

  ghost predicate AllPipeFree(desired: seq<DesiredCwp>) {
    forall i :: 0 <= i < |desired| ==> PipeFree(desired[i].labels)
  }

  function Names(objects: seq<NamespaceObject>): seq<string> {
    seq(|objects|, i requires 0 <= i < |objects| => objects[i].ns.name)
  }

  /** One namespace whose profile the PCE has. */
  method SettleNamespace(pce: Client, profiles: ProfileClient, d: DesiredCwp, cache: map<string, Href>, current: Cwp, ghost j: nat)
    returns (o: NsOutcome, newCache: map<string, Href>)
    requires ValidLabels(pce.store.labels) && ValidCwps(profiles.cwps) && CacheFilled(cache)
    requires j < |profiles.cwps| && profiles.cwps[j] == current
    requires Selected(profiles.cwps, current.namespace) == Some(j)
    modifies pce, profiles
    ensures ValidLabels(pce.store.labels) && ValidCwps(profiles.cwps) && CacheFilled(newCache)
    ensures LabelsKept(old(pce.store.labels), pce.store.labels)
    ensures pce.faults >= old(pce.faults) && profiles.faults >= old(profiles.faults)
    ensures Failed(o) <==> pce.faults > old(pce.faults) || profiles.faults > old(profiles.faults)
    ensures profiles.updates == old(profiles.updates) + Attempts([o])
    ensures o != AwaitingCwp
    ensures OthersKept(old(profiles.cwps), profiles.cwps, [current.namespace])
    ensures PipeFree(d.labels) && CacheOk(cache, old(pce.store.labels)) ==>
      && CacheOk(newCache, pce.store.labels)
      && Settles(pce.store.labels, current, profiles.cwps[j], d, o)
  {
    hide CacheOk, ValidLabels;
    ghost var cwps := profiles.cwps;
    assert Attempts([LabelFailed]) == Attempts([]) + 0 && Attempts([UpdateFailed]) == Attempts([]) + 1;
    assert Attempts([InSync(true)]) == Attempts([]) + 1 && Attempts([InSync(false)]) == Attempts([]) + 0;
    var update, changed;
    update, changed, newCache := BuildCwpUpdate(pce, current, d, cache);
    if update.None? {
      return LabelFailed, newCache;
    }
    if !changed {
      return InSync(false), newCache;
    }
    var ok := profiles.Update(current.href, update.value, j);
    if PipeFree(d.labels) && CacheOk(cache, old(pce.store.labels)) {
      UpdateConverges(pce.store.labels, current, update.value, d);
    }
    return if ok then InSync(true) else UpdateFailed, newCache;
  }

  /** The namespaces processed so far: their names, their desired profiles, and how each ended. */
  ghost predicate Progress(store: map<Label, Href>, before: seq<Cwp>, after: seq<Cwp>, names: seq<string>,
                           desired: seq<DesiredCwp>, outcomes: seq<NsOutcome>, cache: map<string, Href>)
  {
    && |names| == |desired| == |outcomes| && OthersKept(before, after, names)
    && (AllPipeFree(desired) ==> CacheOk(cache, store) && Pass(store, before, after, names, desired, outcomes))
  }

  lemma ProgressExtends(store: map<Label, Href>, more: map<Label, Href>, before: seq<Cwp>, mid: seq<Cwp>, after: seq<Cwp>,
                        names: seq<string>, desired: seq<DesiredCwp>, outcomes: seq<NsOutcome>, cache: map<string, Href>,
                        name: string, d: DesiredCwp, o: NsOutcome, newCache: map<string, Href>)
    requires Progress(store, before, mid, names, desired, outcomes, cache)
    requires LabelsKept(store, more) && name !in names && OthersKept(mid, after, [name])
    requires PipeFree(d.labels) && CacheOk(cache, store) ==>
      CacheOk(newCache, more) && NsStep(more, before, after, name, d, o)
    ensures Progress(more, before, after, names + [name], desired + [d], outcomes + [o], newCache)
  {
    hide LabelsKept, CacheOk, Pass, NsStep, PipeFree, OthersKept;
    OthersKeptExtends(before, mid, after, names, name);
    if AllPipeFree(desired + [d]) {
      assert PipeFree((desired + [d])[|desired|].labels);
      forall i | 0 <= i < |desired| ensures PipeFree(desired[i].labels) {
        assert (desired + [d])[i] == desired[i];
      }
      PassExtends(store, more, before, mid, after, names, desired, outcomes, name, d, o);
    }
  }

  lemma {:induction false} CountOneMore(desired: seq<DesiredCwp>, outcomes: seq<NsOutcome>, d: DesiredCwp, o: NsOutcome, kind: Kind)
    requires |desired| == |outcomes|
    ensures Count(desired + [d], outcomes + [o], kind)
         == Count(desired, outcomes, kind) + if d.managed && KindOf(o) == kind then 1 else 0
    ensures Attempts(outcomes + [o]) == Attempts(outcomes) + Attempts([o])
    ensures AnyFailed(outcomes + [o]) <==> AnyFailed(outcomes) || Failed(o)
  {
    assert forall k :: 0 <= k < |outcomes| ==> (outcomes + [o])[k] == outcomes[k];
    assert (outcomes + [o])[|outcomes|] == o;
    assert (desired + [d])[..|desired|] == desired && (outcomes + [o])[..|outcomes|] == outcomes;
    assert Attempts([o]) == Attempts([]) + if o == UpdateFailed || o == InSync(true) then 1 else 0;
  }

  lemma UnlistedOneMore(objects: seq<NamespaceObject>, desired: seq<DesiredCwp>, d: DesiredCwp, i: nat)
    requires i == |desired| < |objects|
    ensures AnyUnlisted(objects[..i + 1], desired + [d]) <==>
      AnyUnlisted(objects[..i], desired) || (d.managed && !Listed(objects[i]))
  {
    assert forall k :: 0 <= k < i ==> (desired + [d])[k] == desired[k] && objects[..i + 1][k] == objects[..i][k];
    assert (desired + [d])[i] == d && objects[..i + 1][i] == objects[i];
  }

  lemma NothingSettled(store: map<Label, Href>, cwps: seq<Cwp>)
    requires ValidLabels(store)
    ensures Progress(store, cwps, cwps, [], [], [], map[]) && LabelsKept(store, store) && CacheFilled(map[])
    ensures Count([], [], Settled) == 0 && Count([], [], Waiting) == 0 && Attempts([]) == 0 && !AnyFailed([])
  {
  }

  lemma NewName(objects: seq<NamespaceObject>, i: nat)
    requires i < |objects| && forall j, k :: 0 <= j < k < |objects| ==> objects[j].ns.name != objects[k].ns.name
    ensures objects[i].ns.name !in Names(objects[..i])
    ensures Names(objects[..i + 1]) == Names(objects[..i]) + [objects[i].ns.name]
  {
  }

  /** A namespace that is not processed yet still has the profile that was listed. */
  lemma {:induction false} SelectedStays(before: seq<Cwp>, mid: seq<Cwp>, names: seq<string>, name: string)
    requires OthersKept(before, mid, names) && name !in names && Selected(before, name).Some?
    ensures var j := Selected(before, name).value;
      j < |before| == |mid| && mid[j] == before[j] && before[j].namespace == name && Selected(mid, name) == Some(j)
  {
    SelectedIsFor(before, name);
    SelectionKept(before, mid, name);
  }

  lemma {:induction false} SettledStep(store: map<Label, Href>, before: seq<Cwp>, after: seq<Cwp>, name: string, d: DesiredCwp, o: NsOutcome)
    requires |after| == |before| && Selected(before, name).Some? && Selected(before, name).value < |before|
    requires Settles(store, before[Selected(before, name).value], after[Selected(before, name).value], d, o)
    ensures NsStep(store, before, after, name, d, o)
  {
  }

  lemma {:induction false} AwaitingStep(store: map<Label, Href>, before: seq<Cwp>, mid: seq<Cwp>, names: seq<string>, name: string, d: DesiredCwp)
    requires Selected(before, name).None? && OthersKept(before, mid, names)
    ensures NsStep(store, before, mid, name, d, AwaitingCwp) && OthersKept(mid, mid, [name])
  {
  }

  ghost predicate IndexOfProfiles(byNs: map<string, Cwp>, cwps: seq<Cwp>) {
    && (forall n :: n in byNs <==> Selected(cwps, n).Some?)
    && forall n :: n in byNs ==>
         Selected(cwps, n).value < |cwps| && byNs[n] == cwps[Selected(cwps, n).value]
  }

  /** One namespace: wait for its profile, or settle it. */
  method StepNamespace(pce: Client, profiles: ProfileClient, d: DesiredCwp, name: string, byNs: map<string, Cwp>,
                       cache: map<string, Href>, ghost before: seq<Cwp>, ghost names: seq<string>)
    returns (o: NsOutcome, newCache: map<string, Href>)
    requires ValidLabels(pce.store.labels) && ValidCwps(profiles.cwps) && CacheFilled(cache)
    requires IndexOfProfiles(byNs, before) && OthersKept(before, profiles.cwps, names) && name !in names
    modifies pce, profiles
    ensures ValidLabels(pce.store.labels) && ValidCwps(profiles.cwps) && CacheFilled(newCache)
    ensures LabelsKept(old(pce.store.labels), pce.store.labels)
    ensures pce.faults >= old(pce.faults) && profiles.faults >= old(profiles.faults)
    ensures Failed(o) <==> pce.faults > old(pce.faults) || profiles.faults > old(profiles.faults)
    ensures profiles.updates == old(profiles.updates) + Attempts([o])
    ensures OthersKept(old(profiles.cwps), profiles.cwps, [name])
    ensures PipeFree(d.labels) && CacheOk(cache, old(pce.store.labels)) ==>
      CacheOk(newCache, pce.store.labels) && NsStep(pce.store.labels, before, profiles.cwps, name, d, o)
  {
    hide ValidLabels, CacheOk, CacheFilled, PipeFree, Settles, ValidCwps;
    ghost var store := pce.store.labels;
    if name in byNs {
      ghost var j := Selected(before, name).value;
      SelectedStays(before, profiles.cwps, names, name);
      o, newCache := SettleNamespace(pce, profiles, d, cache, byNs[name], j);
      if PipeFree(d.labels) && CacheOk(cache, store) {
        SettledStep(pce.store.labels, before, profiles.cwps, name, d, o);
      }
    } else {
      KeptAtFirst(store);
      AwaitingStep(store, before, profiles.cwps, names, name, d);
      assert Attempts([AwaitingCwp]) == Attempts([]);
      o, newCache := AwaitingCwp, cache;
    }
  }

  /** The loop of one pass.  `errs` counts the errors that are joined in the result. */
  method SettleAll(pce: Client, profiles: ProfileClient, glob: Glob, objects: seq<NamespaceObject>,
                   rules: seq<NamespaceRule>, sys: SystemNamespaces, byNs: map<string, Cwp>)
    returns (managed: nat, pending: nat, errs: nat, ghost desired: seq<DesiredCwp>, ghost outcomes: seq<NsOutcome>)
    requires ValidLabels(pce.store.labels) && ValidCwps(profiles.cwps)
    requires forall i, j :: 0 <= i < j < |objects| ==> objects[i].ns.name != objects[j].ns.name
    requires IndexOfProfiles(byNs, profiles.cwps)
    modifies pce, profiles
    ensures |desired| == |outcomes| == |objects|
    ensures forall i :: 0 <= i < |objects| ==> IsFinal(glob, objects[i], rules, sys, desired[i])
    ensures ValidCwps(profiles.cwps) && LabelsKept(old(pce.store.labels), pce.store.labels)
    ensures OthersKept(old(profiles.cwps), profiles.cwps, Names(objects))
    ensures AllPipeFree(desired) ==>
      Pass(pce.store.labels, old(profiles.cwps), profiles.cwps, Names(objects), desired, outcomes)
    ensures managed == Count(desired, outcomes, Settled) && pending == Count(desired, outcomes, Waiting)
    ensures errs == 0 <==> !AnyFailed(outcomes) && !AnyUnlisted(objects, desired)
    ensures profiles.updates == old(profiles.updates) + Attempts(outcomes)
    ensures pce.faults >= old(pce.faults) && profiles.faults >= old(profiles.faults)
    ensures AnyFailed(outcomes) <==> pce.faults > old(pce.faults) || profiles.faults > old(profiles.faults)
  {
    hide ValidLabels, LabelsKept, CacheOk, CacheFilled, PipeFree, IsFinal, OthersKept, ValidCwps, Pass, NsStep,
         IndexOfProfiles, AllPipeFree, Count, Attempts, AnyFailed;
    managed, pending, errs, desired, outcomes := 0, 0, 0, [], [];
    var cache: map<string, Href> := map[];
    ghost var before, initial := profiles.cwps, pce.store.labels;
    ghost var names: seq<string> := [];
    NothingSettled(initial, before);
    for i := 0 to |objects|
      invariant |desired| == |outcomes| == i && names == Names(objects[..i])
      invariant forall k :: 0 <= k < i ==> IsFinal(glob, objects[k], rules, sys, desired[k])
      invariant ValidLabels(pce.store.labels) && LabelsKept(initial, pce.store.labels)
      invariant ValidCwps(profiles.cwps) && CacheFilled(cache)
      invariant Progress(pce.store.labels, before, profiles.cwps, names, desired, outcomes, cache)
      invariant managed == Count(desired, outcomes, Settled) && pending == Count(desired, outcomes, Waiting)
      invariant errs == 0 <==> !AnyFailed(outcomes) && !AnyUnlisted(objects[..i], desired)
      invariant profiles.updates == old(profiles.updates) + Attempts(outcomes)
      invariant pce.faults >= old(pce.faults) && profiles.faults >= old(profiles.faults)
      invariant AnyFailed(outcomes) <==> pce.faults > old(pce.faults) || profiles.faults > old(profiles.faults)
    {
      var name := objects[i].ns.name;
      var d, listed := FinalProfile(glob, objects[i], rules, sys);
      if !listed {
        errs := errs + 1;
      }
      ghost var store, mid, oldCache := pce.store.labels, profiles.cwps, cache;
      NewName(objects, i);
      var o;
      o, cache := StepNamespace(pce, profiles, d, name, byNs, cache, before, names);
      if Failed(o) {
        errs := errs + 1;
      } else if d.managed {
        if o == AwaitingCwp {
          pending := pending + 1;
        } else {
          managed := managed + 1;
        }
      }
      KeptTwice(initial, store, pce.store.labels);
      ProgressExtends(store, pce.store.labels, before, mid, profiles.cwps, names, desired, outcomes, oldCache, name, d, o, cache);
      CountOneMore(desired, outcomes, d, o, Settled);
      CountOneMore(desired, outcomes, d, o, Waiting);
      UnlistedOneMore(objects, desired, d, i);
      desired, outcomes, names := desired + [d], outcomes + [o], names + [name];
    }
    assert objects[..|objects|] == objects;
  }

  /** What a pass returns; `err` stands for the joined errors. */
  datatype Report = Report(managed: nat, pending: nat, err: bool)

  method ReconcileNamespaceCwps(pce: Client, profiles: ProfileClient, glob: Glob, objects: Option<seq<NamespaceObject>>,
                                rules: seq<NamespaceRule>, sys: SystemNamespaces, clusterId: string)
    returns (r: Report, ghost ran: bool, ghost desired: seq<DesiredCwp>, ghost outcomes: seq<NsOutcome>)
    requires ValidLabels(pce.store.labels) && ValidCwps(profiles.cwps)
    requires objects.Some? ==>
      forall i, j :: 0 <= i < j < |objects.value| ==> objects.value[i].ns.name != objects.value[j].ns.name
    modifies pce, profiles
    ensures clusterId == "" ==> !ran && r == Report(0, 0, false)
    ensures clusterId != "" && !ran ==> r == Report(0, 0, true) && (objects.None? || profiles.faults > old(profiles.faults))
    ensures !ran ==> pce.store == old(pce.store) && profiles.cwps == old(profiles.cwps) && profiles.updates == old(profiles.updates)
    ensures ran ==> objects.Some? && |desired| == |outcomes| == |objects.value|
    ensures ran ==> forall i :: 0 <= i < |desired| ==> IsFinal(glob, objects.value[i], rules, sys, desired[i])
    ensures ran ==> OthersKept(old(profiles.cwps), profiles.cwps, Names(objects.value))
    ensures ran && AllPipeFree(desired) ==>
      Pass(pce.store.labels, old(profiles.cwps), profiles.cwps, Names(objects.value), desired, outcomes)
    ensures ran ==> r.managed == Count(desired, outcomes, Settled) && r.pending == Count(desired, outcomes, Waiting)
    ensures ran ==> (r.err <==> AnyFailed(outcomes) || AnyUnlisted(objects.value, desired))
    ensures ran ==> (r.err <==>
      || (exists i :: 0 <= i < |outcomes| && (outcomes[i].LabelFailed? || outcomes[i].UpdateFailed?))
      || exists i :: 0 <= i < |desired| && desired[i].managed
           && (objects.value[i].intents.None? || objects.value[i].policies.None?))
    ensures ran ==> profiles.updates == old(profiles.updates) + Attempts(outcomes)
    ensures ran ==> (AnyFailed(outcomes) <==> pce.faults > old(pce.faults) || profiles.faults > old(profiles.faults))
    ensures LabelsKept(old(pce.store.labels), pce.store.labels) && ValidCwps(profiles.cwps)
  {
    hide IsFinal, Pass, NsStep, OthersKept, AllPipeFree, Count, Attempts;
    ran, desired, outcomes := false, [], [];
    if clusterId == "" {
      return Report(0, 0, false), false, [], [];
    }
    if objects.None? {
      return Report(0, 0, true), false, [], [];
    }
    var cwps := profiles.List();
    if cwps.None? {
      return Report(0, 0, true), false, [], [];
    }
    var byNs := IndexByNamespace(cwps.value);
    ran := true;
    var managed, pending, errs;
    managed, pending, errs, desired, outcomes := SettleAll(pce, profiles, glob, objects.value, rules, sys, byNs);
    r := Report(managed, pending, errs > 0);
  }

  // ----- Convergence -----

  /** After a pass without failures every profile the PCE has for a namespace is in its desired state. */
  lemma {:induction false} CleanPassConverges(store: map<Label, Href>, before: seq<Cwp>, after: seq<Cwp>, names: seq<string>,
                           desired: seq<DesiredCwp>, outcomes: seq<NsOutcome>, i: nat)
    requires Pass(store, before, after, names, desired, outcomes) && !AnyFailed(outcomes)
    requires i < |names| && Selected(after, names[i]).Some?
    ensures Selected(before, names[i]) == Selected(after, names[i])
    ensures var j := Selected(after, names[i]).value;
      && j < |before| == |after| && Known(desired[i].labels, store) && Converged(store, after[j], desired[i])
      // Managed or not as desired, exactly the desired labels, and the desired mode if managed and else the old one.
      && after[j].managed == desired[i].managed
      && Assigned(after[j].labels).Keys == desired[i].labels.Keys
      && (forall k :: k in desired[i].labels ==>
            var l := Label(k, desired[i].labels[k]);
            l in store && k in Assigned(after[j].labels) && Assigned(after[j].labels)[k] == store[l])
      && after[j].enforcementMode ==
           if desired[i].managed && desired[i].enforcementMode != "" then desired[i].enforcementMode else before[j].enforcementMode
  {
    SelectionKept(before, after, names[i]);
    SelectedIsFor(before, names[i]);
    assert NsStep(store, before, after, names[i], desired[i], outcomes[i]);
    assert !Failed(outcomes[i]);
  }

  /** A namespace waits exactly when no profile is listed for it. */
  lemma AwaitingIffUnlisted(store: map<Label, Href>, before: seq<Cwp>, after: seq<Cwp>, names: seq<string>,
                            desired: seq<DesiredCwp>, outcomes: seq<NsOutcome>, i: nat)
    requires Pass(store, before, after, names, desired, outcomes) && i < |names|
    ensures outcomes[i].AwaitingCwp? <==> names[i] == "" || forall j :: 0 <= j < |before| ==> before[j].namespace != names[i]
  {
    SelectedIsLast(before, names[i]);
    assert NsStep(store, before, after, names[i], desired[i], outcomes[i]);
  }

  lemma {:induction false} SelectionKept(before: seq<Cwp>, after: seq<Cwp>, name: string)
    requires |before| == |after| && forall j :: 0 <= j < |before| ==> after[j].namespace == before[j].namespace
    ensures Selected(after, name) == Selected(before, name)
  {
    if before != [] {
      SelectionKept(before[..|before| - 1], after[..|after| - 1], name);
    }
  }

  lemma {:induction false} NoAttempts(outcomes: seq<NsOutcome>)
    requires forall i :: 0 <= i < |outcomes| ==> outcomes[i] in {AwaitingCwp, LabelFailed, InSync(false)}
    ensures Attempts(outcomes) == 0
  {
    if outcomes != [] {
      NoAttempts(outcomes[..|outcomes| - 1]);
    }
  }

  lemma QuietProfile(store: map<Label, Href>, before: Cwp, after: Cwp, d: DesiredCwp, o: NsOutcome)
    requires Settles(store, before, after, d, o) && Converged(store, before, d)
    ensures o in {LabelFailed, InSync(false)} && after == before
  {
    hide Converged, IsUpdated, Known;
  }

  lemma {:induction false} QuietNamespace(store: map<Label, Href>, more: map<Label, Href>, before: seq<Cwp>, mid: seq<Cwp>, after: seq<Cwp>,
                       names: seq<string>, desired: seq<DesiredCwp>, first: seq<NsOutcome>, second: seq<NsOutcome>, i: nat)
    requires Pass(store, before, mid, names, desired, first) && !AnyFailed(first) && LabelsKept(store, more)
    requires Pass(more, mid, after, names, desired, second) && i < |names|
    ensures second[i] in {AwaitingCwp, LabelFailed, InSync(false)}
    ensures Selected(mid, names[i]).Some? ==>
      var j := Selected(mid, names[i]).value; j < |mid| == |after| && after[j] == mid[j]
  {
    hide Converged, Settles, Known, LabelsKept, AnyFailed, Hrefs;
    assert NsStep(more, mid, after, names[i], desired[i], second[i]);
    SelectedIsFor(mid, names[i]);
    if Selected(mid, names[i]).Some? {
      var j := Selected(mid, names[i]).value;
      CleanPassConverges(store, before, mid, names, desired, first, i);
      ConvergedKept(store, more, mid[j], desired[i]);
      QuietProfile(more, mid[j], after[j], desired[i], second[i]);
    }
  }

  /** A second pass over unchanged inputs, after a clean first pass, sends no update and changes no profile:
      whatever other labels were created in between, and whichever of its own calls fail. */
  lemma {:induction false} SecondPassIsQuiet(store: map<Label, Href>, more: map<Label, Href>, before: seq<Cwp>, mid: seq<Cwp>, after: seq<Cwp>,
                          names: seq<string>, desired: seq<DesiredCwp>, first: seq<NsOutcome>, second: seq<NsOutcome>)
    requires Pass(store, before, mid, names, desired, first) && !AnyFailed(first)
    requires LabelsKept(store, more)
    requires Pass(more, mid, after, names, desired, second)
    ensures Attempts(second) == 0 && after == mid
  {
    forall i | 0 <= i < |names|
      ensures second[i] in {AwaitingCwp, LabelFailed, InSync(false)}
    {
      QuietNamespace(store, more, before, mid, after, names, desired, first, second, i);
    }
    NoAttempts(second);
    forall j: nat | j < |mid| ensures after[j] == mid[j] {
      if Chosen(mid, names, j) {
        var i :| 0 <= i < |names| && names[i] == mid[j].namespace;
        QuietNamespace(store, more, before, mid, after, names, desired, first, second, i);
      }
    }
  }

  /** A managed namespace ends up with the strictest of its desired mode and what its policy CRs request, or
      with its desired mode when they could not be listed; nothing else about it changes. */
  lemma FinalIsStrictest(glob: Glob, o: NamespaceObject, rules: seq<NamespaceRule>, sys: SystemNamespaces,
                         base: DesiredCwp, d: DesiredCwp)
    requires IsDesired(glob, o.ns, rules, sys, base) && IsFinal(glob, o, rules, sys, d)
    ensures d.managed == base.managed && d.labels == base.labels
    ensures !base.managed || o.intents.None? || o.policies.None? ==> d == base
    ensures base.managed && o.intents.Some? && o.policies.Some?
            && base.enforcementMode in {"", "idle", "visibility_only", "selective", "full"} ==>
      var requests := o.intents.value + o.policies.value;
      && (d.enforcementMode == base.enforcementMode || exists q :: q in requests && q.mode == d.enforcementMode)
      && Rank(base.enforcementMode) <= Rank(d.enforcementMode)
      && forall q :: q in requests ==> Rank(q.mode) <= Rank(d.enforcementMode)
  {
    hide IsBase, Overridden, IsDesired;
    var b :| IsDesired(glob, o.ns, rules, sys, b) && RaisedFrom(b, o, d);
    DesiredIsUnique(glob, o.ns, rules, sys, b, base);
    if b.managed && Listed(o) {
      var requests := o.intents.value + o.policies.value;
      var e :| Raised(b.enforcementMode, requests, e) && d == b.(enforcementMode := e.mode);
      if Documented(b.enforcementMode) {
        RaisedUnordered(b.enforcementMode, requests, requests, e, e);
      }
    }
  }

  /** A namespace annotated to be unmanaged is, whatever manages it otherwise, and after a clean pass so is
      its profile; annotated to be managed, both are managed. */
  lemma {:induction false} AnnotationReachesProfile(glob: Glob, objects: seq<NamespaceObject>, rules: seq<NamespaceRule>, sys: SystemNamespaces,
                                 store: map<Label, Href>, before: seq<Cwp>, after: seq<Cwp>,
                                 desired: seq<DesiredCwp>, outcomes: seq<NsOutcome>, i: nat)
    requires Pass(store, before, after, Names(objects), desired, outcomes) && !AnyFailed(outcomes)
    requires |desired| == |objects| && i < |objects| && IsFinal(glob, objects[i], rules, sys, desired[i])
    requires "microsegment.io/managed" in objects[i].ns.annotations
    ensures Selected(after, objects[i].ns.name).Some? ==>
      var j := Selected(after, objects[i].ns.name).value;
      && j < |after|
      && (after[j].managed <==> Lower(objects[i].ns.annotations["microsegment.io/managed"]) == "true")
  {
    hide IsDesired, Pass, AnyFailed;
    var o := objects[i];
    var base :| IsDesired(glob, o.ns, rules, sys, base) && RaisedFrom(base, o, desired[i]);
    AnnotationsDecide(glob, o.ns, rules, sys, base);
    FinalIsStrictest(glob, o, rules, sys, base, desired[i]);
    if Selected(after, o.ns.name).Some? {
      assert Names(objects)[i] == o.ns.name;
      CleanPassConverges(store, before, after, Names(objects), desired, outcomes, i);
    }
  }

  /** The inputs decide the final profile of a namespace; a managed one is never below visibility_only, as
      long as the mode asked for is documented. */
  lemma FinalIsUnique(glob: Glob, o: NamespaceObject, rules: seq<NamespaceRule>, sys: SystemNamespaces, d: DesiredCwp, e: DesiredCwp)
    requires IsFinal(glob, o, rules, sys, d) && IsFinal(glob, o, rules, sys, e)
    ensures d == e
    ensures d.managed && (forall base :: IsDesired(glob, o.ns, rules, sys, base) ==> Documented(base.enforcementMode)) ==>
      Rank(d.enforcementMode) >= Rank(VISIBILITY_ONLY)
  {
    hide IsBase, Overridden;
    var b :| IsDesired(glob, o.ns, rules, sys, b) && RaisedFrom(b, o, d);
    var c :| IsDesired(glob, o.ns, rules, sys, c) && RaisedFrom(c, o, e);
    DesiredIsUnique(glob, o.ns, rules, sys, b, c);
    if b.managed && Listed(o) {
      var requests := o.intents.value + o.policies.value;
      var f :| Raised(b.enforcementMode, requests, f) && d == b.(enforcementMode := f.mode);
      var g :| Raised(b.enforcementMode, requests, g) && e == b.(enforcementMode := g.mode);
      RaisedUnique(b.enforcementMode, requests, f, g);
      if Documented(b.enforcementMode) {
        RaisedUnordered(b.enforcementMode, requests, requests, f, g);
      }
    }
  }

  lemma SameDesired(glob: Glob, objects: seq<NamespaceObject>, rules: seq<NamespaceRule>, sys: SystemNamespaces,
                    desired: seq<DesiredCwp>, again: seq<DesiredCwp>)
    requires |desired| == |again| == |objects|
    requires forall i :: 0 <= i < |objects| ==> IsFinal(glob, objects[i], rules, sys, desired[i])
    requires forall i :: 0 <= i < |objects| ==> IsFinal(glob, objects[i], rules, sys, again[i])
    ensures desired == again
  {
    forall i | 0 <= i < |objects| ensures desired[i] == again[i] {
      FinalIsUnique(glob, objects[i], rules, sys, desired[i], again[i]);
    }
  }

  /** The reconciler runs again: if the first pass reports no error, the second one, whichever of its calls fail,
      sends no update and changes no profile.  `sent` and `mid` are the state between the two. */
  method PassTwice(pce: Client, profiles: ProfileClient, glob: Glob, objects: Option<seq<NamespaceObject>>,
                   rules: seq<NamespaceRule>, sys: SystemNamespaces, clusterId: string)
    returns (first: Report, second: Report, ghost desired: seq<DesiredCwp>, ghost mid: seq<Cwp>, ghost sent: nat)
    requires ValidLabels(pce.store.labels) && ValidCwps(profiles.cwps)
    requires objects.Some? ==>
      forall i, j :: 0 <= i < j < |objects.value| ==> objects.value[i].ns.name != objects.value[j].ns.name
    modifies pce, profiles
    ensures !first.err && AllPipeFree(desired) ==> profiles.updates == sent && profiles.cwps == mid
    ensures !first.err && clusterId != "" ==>
      && objects.Some? && |desired| == |objects.value|
      && forall i :: 0 <= i < |desired| ==> IsFinal(glob, objects.value[i], rules, sys, desired[i])
  {
    hide IsFinal, Pass, OthersKept, Count, Attempts, AnyFailed, AnyUnlisted, AllPipeFree, ValidCwps;
    ghost var before := profiles.cwps;
    ghost var ran, outcomes, ranAgain, again, outcomes';
    first, ran, desired, outcomes := ReconcileNamespaceCwps(pce, profiles, glob, objects, rules, sys, clusterId);
    mid, sent := profiles.cwps, profiles.updates;
    ghost var store := pce.store.labels;
    second, ranAgain, again, outcomes' := ReconcileNamespaceCwps(pce, profiles, glob, objects, rules, sys, clusterId);
    if ran && ranAgain && !first.err && AllPipeFree(desired) {
      SameDesired(glob, objects.value, rules, sys, desired, again);
      SecondPassIsQuiet(store, pce.store.labels, before, mid, profiles.cwps, Names(objects.value), desired, outcomes, outcomes');
    }
  }
}
