/**
 * Linking: the labels an allow entry names are looked up in the PCE, and in
 * create mode minted there.  Go ranges over a map in no fixed order; the loops
 * pick the next entry freely, so a contract holds of every order.
 */
module Resolution {
  import opened Wrappers
  import opened Pce
  import opened PolicyIR
  import LabelText

  datatype Mode = Strict | Skip | Create

  datatype Resolution =
    | Resolved(allows: seq<ResolvedAllow>, deferred: seq<Label>, created: seq<Label>)
    | UnknownLabel(unknown: Label)
    | NonStandardKey(unknown: Label)
    | Failed

  datatype Lookup = Found(hrefs: seq<Href>) | Missing(missing: Label) | LookupFailed

  /** The label dimensions the operator may mint. */
  predicate AutoCreatableKey(key: string) {
    key in {"role", "app", "env", "loc"}
  }

  function Entries(m: LabelMap): set<Label> {
    set k | k in m :: Label(k, m[k])
  }

  function KnownHrefs(ls: set<Label>, labels: map<Label, Href>): set<Href> {
    set l | l in ls && l in labels :: labels[l]
  }

  /** Every label some entry names, All Workloads entries aside. */
  function Wanted(allows: seq<CompiledAllow>): set<Label> {
    if allows == [] then {}
    else Wanted(allows[..|allows| - 1]) + WantedByOne(allows[|allows| - 1])
  }

  function WantedByOne(a: CompiledAllow): set<Label> {
    if a.allWorkloads then {} else Entries(a.from)
  }

  /** An entry is dropped when it names labels and none of them exists. */
  predicate Kept(a: CompiledAllow, labels: map<Label, Href>) {
    WantedByOne(a) == {} || exists l :: l in WantedByOne(a) && l in labels
  }

  ghost predicate ResolvesTo(a: CompiledAllow, labels: map<Label, Href>, r: ResolvedAllow) {
    && r.allWorkloads == a.allWorkloads && r.intraScope == a.intraScope && r.ports == a.ports
    && Lists(r.consumerHrefs, KnownHrefs(WantedByOne(a), labels))
  }

  /** `out` holds the kept entries in order, each with the hrefs of its known labels. */
  ghost predicate Resolves(allows: seq<CompiledAllow>, labels: map<Label, Href>, out: seq<ResolvedAllow>) {
    if allows == [] then out == []
    else
      var n, m := |allows| - 1, |out| - 1;
      if Kept(allows[n], labels) then
        m >= 0 && Resolves(allows[..n], labels, out[..m]) && ResolvesTo(allows[n], labels, out[m])
      else Resolves(allows[..n], labels, out)
  }

  /** The unknown labels, once for each entry that names them. */
  function Deferred(allows: seq<CompiledAllow>, labels: map<Label, Href>): multiset<Label> {
    if allows == [] then multiset{}
    else Deferred(allows[..|allows| - 1], labels) +
         multiset(set l | l in WantedByOne(allows[|allows| - 1]) && l !in labels)
  }

  /** Only labels changed, and only by new labels from `allowed`. */
  ghost predicate LabelsGrow(s: Store, t: Store, allowed: set<Label>) {
    && t == s.(labels := t.labels)
    && s.labels.Keys <= t.labels.Keys
    && (forall l :: l in s.labels ==> t.labels[l] == s.labels[l])
    && (forall l :: l in t.labels && l !in s.labels ==> l in allowed && AutoCreatableKey(l.key))
    && ValidLabels(t.labels)
  }

  lemma KnownHrefsAdd(ls: set<Label>, labels: map<Label, Href>, l: Label)
    requires ValidLabels(labels) && l !in ls
    ensures l in labels ==>
      labels[l] !in KnownHrefs(ls, labels) && KnownHrefs(ls + {l}, labels) == KnownHrefs(ls, labels) + {labels[l]}
    ensures l !in labels ==> KnownHrefs(ls + {l}, labels) == KnownHrefs(ls, labels)
  {
  }

  /** Labels minted later do not change an entry whose labels all exist. */
  lemma {:induction false} ResolvesGrow(
      allows: seq<CompiledAllow>, labels: map<Label, Href>, more: map<Label, Href>, out: seq<ResolvedAllow>)
    requires Resolves(allows, labels, out) && Wanted(allows) <= labels.Keys
    requires forall l :: l in labels ==> l in more && more[l] == labels[l]
    ensures Resolves(allows, more, out)
  {
    if allows == [] {
    } else {
      var n, m := |allows| - 1, |out| - 1;
      var ls := WantedByOne(allows[n]);
      assert ls <= Wanted(allows);
      assert KnownHrefs(ls, more) == KnownHrefs(ls, labels);
      ResolvesGrow(allows[..n], labels, more, if Kept(allows[n], labels) then out[..m] else out);
    }
  }

  lemma TakeOne<T>(all: set<T>, todo: set<T>, x: T)
    requires todo <= all && x in todo
    ensures all - (todo - {x}) == (all - todo) + {x} && x !in all - todo
  {
  }

  /** Looks up every entry of a label map; the first label that does not exist rejects. */
  method FindAll(pce: Client, m: LabelMap) returns (r: Lookup)
    requires ValidLabels(pce.store.labels)
    modifies pce`faults
    ensures r == LookupFailed <==> pce.faults > old(pce.faults)
    ensures pce.faults >= old(pce.faults)
    ensures r.Found? ==> Entries(m) <= pce.store.labels.Keys
    ensures r.Found? ==> Lists(r.hrefs, KnownHrefs(Entries(m), pce.store.labels))
    ensures r.Missing? ==> r.missing in Entries(m) && r.missing !in pce.store.labels
  {
    ghost var all := Entries(m);
    var hrefs := [];
    var todo := Entries(m);
    while todo != {}
      invariant todo <= all && all - todo <= pce.store.labels.Keys
      invariant Lists(hrefs, KnownHrefs(all - todo, pce.store.labels))
      invariant pce.faults == old(pce.faults)
      decreases |todo|
    {
      var l :| l in todo;
      TakeOne(all, todo, l);
      var found := pce.FindLabel(l);
      if found.Err? {
        return if found.error == NotFound then Missing(l) else LookupFailed;
      }
      KnownHrefsAdd(all - todo, pce.store.labels, l);
      ListsAppend(hrefs, KnownHrefs(all - todo, pce.store.labels), found.value);
      hrefs := hrefs + [found.value];
      todo := todo - {l};
    }
    assert all - todo == all;
    return Found(hrefs);
  }

  /** The consumer of one entry. */
  datatype Consumer =
    | Consumer(hrefs: seq<Href>, deferred: seq<Label>, created: seq<Label>)
    | Stopped(why: Resolution)

  ghost predicate ConsumerOf(ls: set<Label>, mode: Mode, before: map<Label, Href>, after: map<Label, Href>, c: Consumer)
    requires c.Consumer?
  {
    && Lists(c.hrefs, KnownHrefs(ls, after))
    && Lists(c.created, after.Keys - before.Keys)
    && (mode != Skip ==> ls <= after.Keys && c.deferred == [])
    && (mode == Skip ==> Lists(c.deferred, ls - after.Keys))
  }

  ghost predicate StopsOn(ls: set<Label>, mode: Mode, labels: map<Label, Href>, why: Resolution) {
    match why
    case UnknownLabel(l) => mode == Strict && l in ls && l !in labels
    case NonStandardKey(l) => mode == Create && l in ls && l !in labels && !AutoCreatableKey(l.key)
    case Failed => true
    case Resolved(_, _, _) => false
  }

  lemma ConsumerFindsLabel(ls: set<Label>, l: Label, mode: Mode, before: map<Label, Href>, after: map<Label, Href>, c: Consumer)
    requires ValidLabels(after) && l !in ls && l in after
    requires c.Consumer? && ConsumerOf(ls, mode, before, after, c)
    ensures ConsumerOf(ls + {l}, mode, before, after, c.(hrefs := c.hrefs + [after[l]]))
  {
    KnownHrefsAdd(ls, after, l);
    ListsAppend(c.hrefs, KnownHrefs(ls, after), after[l]);
    assert (ls + {l}) - after.Keys == ls - after.Keys;
  }

  lemma ConsumerDefersLabel(ls: set<Label>, l: Label, before: map<Label, Href>, after: map<Label, Href>, c: Consumer)
    requires ValidLabels(after) && l !in ls && l !in after
    requires c.Consumer? && ConsumerOf(ls, Skip, before, after, c)
    ensures ConsumerOf(ls + {l}, Skip, before, after, c.(deferred := c.deferred + [l]))
  {
    KnownHrefsAdd(ls, after, l);
    ListsAppend(c.deferred, ls - after.Keys, l);
    assert (ls + {l}) - after.Keys == (ls - after.Keys) + {l};
  }

  lemma ConsumerMintsLabel(ls: set<Label>, l: Label, before: map<Label, Href>, labels: map<Label, Href>,
                           h: Href, c: Consumer)
    requires ValidLabels(labels) && ValidLabels(labels[l := h])
    requires l !in ls && l !in labels && before.Keys <= labels.Keys
    requires c.Consumer? && ConsumerOf(ls, Create, before, labels, c)
    ensures ConsumerOf(ls + {l}, Create, before, labels[l := h],
                       Consumer(c.hrefs + [h], c.deferred, c.created + [l]))
  {
    var after := labels[l := h];
    assert KnownHrefs(ls, after) == KnownHrefs(ls, labels);
    KnownHrefsAdd(ls, after, l);
    ListsAppend(c.hrefs, KnownHrefs(ls, after), h);
    ListsAppend(c.created, labels.Keys - before.Keys, l);
    assert after.Keys - before.Keys == (labels.Keys - before.Keys) + {l};
  }

  lemma LabelMinted(s: Store, t: Store, l: Label)
    requires ValidLabels(s.labels) && ValidLabels(t.labels) && AutoCreatableKey(l.key)
    requires t == s || (l !in s.labels && l in t.labels && t == WithLabel(s, l, t.labels[l]))
    ensures LabelsGrow(s, t, {l})
  {
  }

  /** One entry of a consumer's label map. */
  method ResolveLabel(pce: Client, l: Label, mode: Mode, c: Consumer,
                      ghost done: set<Label>, ghost before: map<Label, Href>)
    returns (d: Consumer)
    requires ValidLabels(pce.store.labels) && before.Keys <= pce.store.labels.Keys && l !in done
    requires c.Consumer? && ConsumerOf(done, mode, before, pce.store.labels, c)
    modifies pce
    ensures pce.faults >= old(pce.faults)
    ensures d == Stopped(Failed) <==> pce.faults > old(pce.faults)
    ensures LabelsGrow(old(pce.store), pce.store, {l})
    ensures mode != Create ==> pce.store == old(pce.store)
    ensures d.Consumer? ==> ConsumerOf(done + {l}, mode, before, pce.store.labels, d)
    ensures d.Stopped? ==> StopsOn({l}, mode, pce.store.labels, d.why)
  {
    var found := pce.FindLabel(l);
    if found.Ok? {
      ConsumerFindsLabel(done, l, mode, before, pce.store.labels, c);
      return c.(hrefs := c.hrefs + [found.value]);
    }
    if found.error != NotFound {
      return Stopped(Failed);
    }
    match mode
    case Skip =>
      ConsumerDefersLabel(done, l, before, pce.store.labels, c);
      d := c.(deferred := c.deferred + [l]);
    case Create =>
      if !AutoCreatableKey(l.key) {
        return Stopped(NonStandardKey(l));
      }
      ghost var s1 := pce.store;
      var ensured := pce.EnsureLabel(l);
      LabelMinted(s1, pce.store, l);
      if ensured.Err? {
        return Stopped(Failed);
      }
      ConsumerMintsLabel(done, l, before, s1.labels, ensured.value, c);
      d := Consumer(c.hrefs + [ensured.value], c.deferred, c.created + [l]);
    case Strict =>
      d := Stopped(UnknownLabel(l));
  }

  lemma LabelsGrowTwice(s: Store, t: Store, u: Store, a: set<Label>, b: set<Label>, c: set<Label>)
    requires LabelsGrow(s, t, a) && LabelsGrow(t, u, b) && a <= c && b <= c
    ensures LabelsGrow(s, u, c)
  {
  }

  method ResolveConsumer(pce: Client, from: LabelMap, mode: Mode) returns (c: Consumer)
    requires ValidLabels(pce.store.labels)
    modifies pce
    ensures pce.faults >= old(pce.faults)
    ensures c == Stopped(Failed) <==> pce.faults > old(pce.faults)
    ensures LabelsGrow(old(pce.store), pce.store, Entries(from))
    ensures mode != Create ==> pce.store == old(pce.store)
    ensures c.Consumer? ==> ConsumerOf(Entries(from), mode, old(pce.store.labels), pce.store.labels, c)
    ensures c.Stopped? ==> StopsOn(Entries(from), mode, pce.store.labels, c.why)
  {
    ghost var before := pce.store;
    ghost var all := Entries(from);
    c := Consumer([], [], []);
    var todo := Entries(from);
    while todo != {}
      invariant todo <= all
      invariant pce.faults == old(pce.faults)
      invariant LabelsGrow(before, pce.store, all)
      invariant mode != Create ==> pce.store == before
      invariant c.Consumer? && ConsumerOf(all - todo, mode, before.labels, pce.store.labels, c)
      decreases |todo|
    {
      var l :| l in todo;
      TakeOne(all, todo, l);
      ghost var s1 := pce.store;
      c := ResolveLabel(pce, l, mode, c, all - todo, before.labels);
      LabelsGrowTwice(before, s1, pce.store, all, {l}, all);
      if c.Stopped? {
        return;
      }
      todo := todo - {l};
    }
    assert all - todo == all;
  }

  /** What resolution leaves behind and returns, whatever the iteration order. */
  ghost predicate ResolutionStep(
      s: Store, t: Store, allows: seq<CompiledAllow>, mode: Mode, r: Resolution)
  {
    && LabelsGrow(s, t, Wanted(allows))
    && (mode != Create ==> t == s)
    && match r
       case Resolved(out, deferred, created) =>
         && Resolves(allows, t.labels, out)
         && Lists(created, t.labels.Keys - s.labels.Keys)
         && (mode != Skip ==> Wanted(allows) <= t.labels.Keys && deferred == [])
         && (mode == Skip ==> multiset(deferred) == Deferred(allows, t.labels))
       case _ => StopsOn(Wanted(allows), mode, t.labels, r)
  }

  method ResolveAllows(pce: Client, allows: seq<CompiledAllow>, mode: Mode) returns (r: Resolution)
    requires ValidLabels(pce.store.labels)
    modifies pce
    ensures pce.faults >= old(pce.faults)
    ensures r == Failed <==> pce.faults > old(pce.faults)
    ensures ResolutionStep(old(pce.store), pce.store, allows, mode, r)
  {
    hide Resolves, Lists, Deferred, ConsumerOf, StopsOn, KnownHrefs, Kept;
    r := Resolved([], [], []);
    NothingResolved(pce.store, mode);
    assert allows[..0] == [];
    for i := 0 to |allows|
      invariant pce.faults == old(pce.faults)
      invariant r.Resolved? && ResolutionStep(old(pce.store), pce.store, allows[..i], mode, r)
    {
      var a := allows[i];
      assert allows[..i + 1] == allows[..i] + [a];
      if a.allWorkloads {
        AllWorkloadsStep(old(pce.store), pce.store, allows[..i], a, mode, r);
        r := r.(allows := r.allows + [ResolvedAllow([], true, a.intraScope, a.ports)]);
        continue;
      }
      ghost var before := pce.store;
      var c := ResolveConsumer(pce, a.from, mode);
      if c.Stopped? {
        StoppedStep(old(pce.store), before, pce.store, allows, i, mode, c.why);
        return c.why;
      }
      ConsumerStep(old(pce.store), before, pce.store, allows[..i], a, mode, r, c);
      r := Resolved(r.allows, r.deferred + c.deferred, r.created + c.created);
      if |c.deferred| > 0 && |c.hrefs| == 0 {
        continue;
      }
      r := r.(allows := r.allows + [ResolvedAllow(c.hrefs, false, a.intraScope, a.ports)]);
    }
    assert allows[..|allows|] == allows;
  }

  lemma NothingResolved(s: Store, mode: Mode)
    requires ValidLabels(s.labels)
    ensures ResolutionStep(s, s, [], mode, Resolved([], [], []))
  {
    assert s.labels.Keys - s.labels.Keys == {};
  }

  lemma AllWorkloadsStep(s: Store, t: Store, prefix: seq<CompiledAllow>, a: CompiledAllow, mode: Mode, r: Resolution)
    requires a.allWorkloads && r.Resolved? && ResolutionStep(s, t, prefix, mode, r)
    ensures ResolutionStep(s, t, prefix + [a], mode,
                           r.(allows := r.allows + [ResolvedAllow([], true, a.intraScope, a.ports)]))
  {
    hide Resolves, Lists, KnownHrefs;
    assert (prefix + [a])[..|prefix|] == prefix;
    assert (set l | l in WantedByOne(a) && l !in t.labels) == {};
    AllWorkloadsResolves(prefix, a, t.labels, r.allows);
  }

  lemma {:induction false} AllWorkloadsResolves(prefix: seq<CompiledAllow>, a: CompiledAllow, labels: map<Label, Href>, out: seq<ResolvedAllow>)
    requires a.allWorkloads && Resolves(prefix, labels, out)
    ensures Resolves(prefix + [a], labels, out + [ResolvedAllow([], true, a.intraScope, a.ports)])
  {
    var more := out + [ResolvedAllow([], true, a.intraScope, a.ports)];
    assert (prefix + [a])[..|prefix|] == prefix && more[..|out|] == out;
    assert KnownHrefs(WantedByOne(a), labels) == {};
  }

  lemma StoppedStep(s: Store, before: Store, t: Store, allows: seq<CompiledAllow>, i: nat, mode: Mode, why: Resolution)
    requires i < |allows| && !allows[i].allWorkloads
    requires LabelsGrow(s, before, Wanted(allows[..i])) && LabelsGrow(before, t, Entries(allows[i].from))
    requires mode != Create ==> s == before == t
    requires StopsOn(Entries(allows[i].from), mode, t.labels, why)
    ensures ResolutionStep(s, t, allows, mode, why)
  {
    assert allows[..i + 1][..i] == allows[..i];
    WantedPrefix(allows, i + 1);
  }

  /** The code drops the entry exactly when it is not Kept. */
  lemma ConsumerAllow(t: Store, prefix: seq<CompiledAllow>, a: CompiledAllow, mode: Mode,
                      before: map<Label, Href>, out: seq<ResolvedAllow>, c: Consumer)
    requires !a.allWorkloads && Resolves(prefix, t.labels, out)
    requires c.Consumer? && ConsumerOf(Entries(a.from), mode, before, t.labels, c)
    ensures Resolves(prefix + [a], t.labels,
                     if |c.deferred| > 0 && |c.hrefs| == 0 then out
                     else out + [ResolvedAllow(c.hrefs, false, a.intraScope, a.ports)])
  {
    hide KnownHrefs;
    var more := out + [ResolvedAllow(c.hrefs, false, a.intraScope, a.ports)];
    assert (prefix + [a])[..|prefix|] == prefix && more[..|out|] == out;
    KeptIffSomeHref(a, t.labels, c.hrefs);
    if mode == Skip {
      ListsNothing(c.deferred, Entries(a.from) - t.labels.Keys);
    }
  }

  lemma ConsumerStep(s: Store, before: Store, t: Store, prefix: seq<CompiledAllow>, a: CompiledAllow, mode: Mode,
                     r: Resolution, c: Consumer)
    requires !a.allWorkloads && r.Resolved? && ResolutionStep(s, before, prefix, mode, r)
    requires LabelsGrow(before, t, Entries(a.from)) && (mode != Create ==> t == before)
    requires c.Consumer? && ConsumerOf(Entries(a.from), mode, before.labels, t.labels, c)
    ensures
      var out := if |c.deferred| > 0 && |c.hrefs| == 0 then r.allows
                 else r.allows + [ResolvedAllow(c.hrefs, false, a.intraScope, a.ports)];
      ResolutionStep(s, t, prefix + [a], mode, Resolved(out, r.deferred + c.deferred, r.created + c.created))
  {
    hide Resolves, Lists, KnownHrefs;
    var allows := prefix + [a];
    assert allows[..|prefix|] == prefix;
    LabelsGrowTwice(s, before, t, Wanted(prefix), Entries(a.from), Wanted(allows));
    if mode == Create {
      ResolvesGrow(prefix, before.labels, t.labels, r.allows);
    }
    ConsumerAllow(t, prefix, a, mode, before.labels, r.allows, c);
    CreatedAppend(r.created, before.labels.Keys - s.labels.Keys, c.created, t.labels.Keys - before.labels.Keys);
    assert (before.labels.Keys - s.labels.Keys) + (t.labels.Keys - before.labels.Keys) == t.labels.Keys - s.labels.Keys;
    if mode == Skip {
      DeferredAppend(allows, t.labels, r.deferred, c.deferred);
    }
  }

  lemma {:induction false} WantedPrefix(allows: seq<CompiledAllow>, n: nat)
    requires n <= |allows|
    ensures Wanted(allows[..n]) <= Wanted(allows)
    decreases |allows| - n
  {
    if n == |allows| {
      assert allows[..n] == allows;
    } else {
      WantedPrefix(allows, n + 1);
      assert allows[..n + 1][..n] == allows[..n];
    }
  }

  lemma CreatedAppend(q: seq<Label>, a: set<Label>, r: seq<Label>, b: set<Label>)
    requires Lists(q, a) && Lists(r, b) && a !! b
    ensures Lists(q + r, a + b)
  {
    forall i, j | 0 <= i < j < |q + r| ensures (q + r)[i] != (q + r)[j] {
      assert i < |q| ==> (q + r)[i] in a;
      assert j >= |q| ==> (q + r)[j] == r[j - |q|] && r[j - |q|] in b;
    }
    forall x ensures x in q + r <==> x in a + b {
      assert x in q + r <==> x in q || x in r;
    }
  }

  lemma {:induction false} DeferredAppend(allows: seq<CompiledAllow>, labels: map<Label, Href>, q: seq<Label>, r: seq<Label>)
    requires allows != [] && !allows[|allows| - 1].allWorkloads
    requires multiset(q) == Deferred(allows[..|allows| - 1], labels)
    requires Lists(r, Entries(allows[|allows| - 1].from) - labels.Keys)
    ensures multiset(q + r) == Deferred(allows, labels)
  {
    var ls := WantedByOne(allows[|allows| - 1]);
    var unknown := set l | l in ls && l !in labels;
    assert unknown == ls - labels.Keys;
    forall l ensures multiset(r)[l] == multiset(unknown)[l] {
      ListsCount(r, unknown, l);
    }
    assert multiset(r) == multiset(unknown);
  }

  /** The code's test on what it collected decides exactly whether the entry is kept. */
  lemma KeptIffSomeHref(a: CompiledAllow, labels: map<Label, Href>, hrefs: seq<Href>)
    requires !a.allWorkloads && Lists(hrefs, KnownHrefs(WantedByOne(a), labels))
    ensures Kept(a, labels) <==> (hrefs != [] || WantedByOne(a) <= labels.Keys)
  {
    var ls := WantedByOne(a);
    if l :| l in ls && l in labels {
      assert labels[l] in KnownHrefs(ls, labels);
    }
    assert forall h :: h in hrefs ==> exists l :: l in ls && l in labels && labels[l] == h;
    assert hrefs != [] ==> hrefs[0] in hrefs;
  }

  // ----- What resolution guarantees -----

  /** The mode and the labels of the PCE decide acceptance; iteration order does not. */
  predicate Accepts(mode: Mode, wanted: set<Label>, labels: map<Label, Href>) {
    match mode
    case Strict => wanted <= labels.Keys
    case Skip => true
    case Create => forall l :: l in wanted && l !in labels ==> AutoCreatableKey(l.key)
  }

  lemma {:induction false} AcceptsExactly(s: Store, t: Store, allows: seq<CompiledAllow>, mode: Mode, r: Resolution)
    requires ResolutionStep(s, t, allows, mode, r) && r != Failed
    ensures r.Resolved? <==> Accepts(mode, Wanted(allows), s.labels)
  {
    if r.Resolved? && mode == Create {
      forall l | l in Wanted(allows) && l !in s.labels ensures AutoCreatableKey(l.key) {
        assert l in t.labels;
      }
    }
  }

  /** What create mode may mint, and when it rejects: only labels with one of the four standard keys. */
  lemma {:induction false} CreateMintsStandardKeys(s: Store, t: Store, allows: seq<CompiledAllow>, r: Resolution)
    requires ResolutionStep(s, t, allows, Create, r)
    ensures forall l :: l in t.labels && l !in s.labels ==> l in Wanted(allows) && l.key in ["role", "app", "env", "loc"]
    ensures r != Failed ==>
      (r.Resolved? <==> forall l :: l in Wanted(allows) && l !in s.labels ==> l.key in ["role", "app", "env", "loc"])
  {
    if r != Failed {
      AcceptsExactly(s, t, allows, Create, r);
    }
  }

  lemma {:induction false} DeferredCount(allows: seq<CompiledAllow>, labels: map<Label, Href>, l: Label, mentions: set<int>)
    requires forall i :: i in mentions ==> 0 <= i < |allows| && !allows[i].allWorkloads && l in Entries(allows[i].from)
    requires forall i :: 0 <= i < |allows| && !allows[i].allWorkloads && l in Entries(allows[i].from) ==> i in mentions
    ensures Deferred(allows, labels)[l] == if l in labels then 0 else |mentions|
  {
    if allows == [] {
      assert forall i :: i !in mentions;
      assert mentions == {};
    } else {
      var n := |allows| - 1;
      DeferredCount(allows[..n], labels, l, mentions - {n});
      assert n in mentions ==> mentions == (mentions - {n}) + {n};
      assert n !in mentions ==> mentions == mentions - {n};
    }
  }

  /** Exactly the unknown labels are deferred, each as often as entries name it. */
  lemma {:induction false} DeferredExactly(allows: seq<CompiledAllow>, labels: map<Label, Href>, l: Label)
    ensures Deferred(allows, labels)[l] ==
      if l in labels then 0 else |set i | 0 <= i < |allows| && !allows[i].allWorkloads && l in Entries(allows[i].from)|
  {
    DeferredCount(allows, labels, l, set i | 0 <= i < |allows| && !allows[i].allWorkloads && l in Entries(allows[i].from));
  }

  ghost predicate SameUpToOrder(a: ResolvedAllow, b: ResolvedAllow) {
    && a.(consumerHrefs := []) == b.(consumerHrefs := [])
    && multiset(a.consumerHrefs) == multiset(b.consumerHrefs)
  }

  lemma {:induction false} ResolvesUnique(
      allows: seq<CompiledAllow>, labels: map<Label, Href>, out: seq<ResolvedAllow>, other: seq<ResolvedAllow>)
    requires Resolves(allows, labels, out) && Resolves(allows, labels, other)
    ensures |out| == |other| && forall i :: 0 <= i < |out| ==> SameUpToOrder(out[i], other[i])
  {
    if allows == [] {
    } else {
      var n, m := |allows| - 1, |out| - 1;
      if Kept(allows[n], labels) {
        ResolvesUnique(allows[..n], labels, out[..m], other[..|other| - 1]);
        ListsSameMultiset(out[m].consumerHrefs, other[m].consumerHrefs, KnownHrefs(WantedByOne(allows[n]), labels));
      } else {
        ResolvesUnique(allows[..n], labels, out, other);
      }
    }
  }

  /** The labels these hrefs stand for. */
  function Named(hrefs: seq<Href>, labels: map<Label, Href>): set<Label> {
    set l | l in labels && labels[l] in hrefs
  }

  /** The same entry, linked against two label stores: the hrefs stand for the same labels, each once. */
  ghost predicate SameUpToHrefs(a: ResolvedAllow, labels: map<Label, Href>, b: ResolvedAllow, others: map<Label, Href>) {
    && a.(consumerHrefs := []) == b.(consumerHrefs := [])
    && Named(a.consumerHrefs, labels) == Named(b.consumerHrefs, others)
    && Lists(a.consumerHrefs, KnownHrefs(Named(a.consumerHrefs, labels), labels))
    && Lists(b.consumerHrefs, KnownHrefs(Named(b.consumerHrefs, others), others))
  }

  lemma NamedByEntry(a: CompiledAllow, labels: map<Label, Href>, r: ResolvedAllow)
    requires ValidLabels(labels) && ResolvesTo(a, labels, r)
    ensures Named(r.consumerHrefs, labels) == set l | l in WantedByOne(a) && l in labels
    ensures Lists(r.consumerHrefs, KnownHrefs(Named(r.consumerHrefs, labels), labels))
  {
    forall l | l in WantedByOne(a) && l in labels ensures labels[l] in r.consumerHrefs {
      assert labels[l] in KnownHrefs(WantedByOne(a), labels);
    }
    assert KnownHrefs(Named(r.consumerHrefs, labels), labels) == KnownHrefs(WantedByOne(a), labels);
  }

  lemma {:induction false} ResolvesTheSame(allows: seq<CompiledAllow>, labels: map<Label, Href>, others: map<Label, Href>,
                                           out: seq<ResolvedAllow>, other: seq<ResolvedAllow>)
    requires ValidLabels(labels) && ValidLabels(others) && labels.Keys == others.Keys
    requires Resolves(allows, labels, out) && Resolves(allows, others, other)
    ensures |out| == |other| && forall i :: 0 <= i < |out| ==> SameUpToHrefs(out[i], labels, other[i], others)
  {
    hide KnownHrefs, Lists, Named, WantedByOne;
    if allows != [] {
      var n, m := |allows| - 1, |out| - 1;
      assert Kept(allows[n], labels) <==> Kept(allows[n], others) by {
        assert forall l :: l in labels <==> l in others;
      }
      if Kept(allows[n], labels) {
        ResolvesTheSame(allows[..n], labels, others, out[..m], other[..|other| - 1]);
        NamedByEntry(allows[n], labels, out[m]);
        NamedByEntry(allows[n], others, other[m]);
        assert Named(out[m].consumerHrefs, labels) == Named(other[m].consumerHrefs, others) by {
          assert forall l :: l in labels <==> l in others;
        }
      } else {
        ResolvesTheSame(allows[..n], labels, others, out, other);
      }
    }
  }

  /** Two successful runs over the same input, ranging over the maps in any two orders, defer and mint the same
      labels and keep the same entries, with hrefs that stand for the same labels: those that existed before
      have the same href in both, so the hrefs differ only where a label was minted. */
  lemma OrderIndependent(s: Store, t: Store, u: Store, allows: seq<CompiledAllow>, mode: Mode, q: Resolution, r: Resolution)
    requires ResolutionStep(s, t, allows, mode, q) && q.Resolved?
    requires ResolutionStep(s, u, allows, mode, r) && r.Resolved?
    ensures t.labels.Keys == u.labels.Keys && multiset(q.created) == multiset(r.created)
    ensures multiset(q.deferred) == multiset(r.deferred)
    ensures forall l :: l in s.labels ==> l in t.labels && l in u.labels && t.labels[l] == u.labels[l]
    ensures |q.allows| == |r.allows|
    ensures forall i :: 0 <= i < |q.allows| ==> SameUpToHrefs(q.allows[i], t.labels, r.allows[i], u.labels)
  {
    hide Resolves, Deferred, Lists, SameUpToHrefs;
    assert t.labels.Keys == u.labels.Keys by {
      if mode == Create {
        assert t.labels.Keys == s.labels.Keys + Wanted(allows);
        assert u.labels.Keys == s.labels.Keys + Wanted(allows);
      }
    }
    ListsSameMultiset(q.created, r.created, t.labels.Keys - s.labels.Keys);
    ResolvesTheSame(allows, t.labels, u.labels, q.allows, r.allows);
  }

  /** Entries the two compilers can emit: a consumer is All Workloads or has labels. */
  predicate Compiled(allows: seq<CompiledAllow>) {
    forall i :: 0 <= i < |allows| ==> allows[i].allWorkloads || allows[i].from != map[]
  }

  lemma IntentIsCompiled(spec: IntentSpec)
    requires IntentCompiles(spec)
    ensures Compiled(IntentAllows(spec))
  {
    assert forall i :: 0 <= i < |spec.allow| ==> OneSource(spec.allow[i]);
  }

  lemma {:induction false} PolicyIsCompiled(rules: seq<IngressRule>)
    requires SupportedRules(rules)
    ensures Compiled(RulesAllows(rules))
  {
    if rules != [] {
      PolicyIsCompiled(rules[..|rules| - 1]);
      var last := rules[|rules| - 1];
      forall j | 0 <= j < |last.from|
        ensures RuleAllows(last)[j].allWorkloads || RuleAllows(last)[j].from != map[]
      {
        assert SupportedPeer(last.from[j]);
      }
    }
  }

  /** No emitted rule has an empty provider, consumer or service list. */
  lemma {:induction false} RulesAreComplete(
      allows: seq<CompiledAllow>, labels: map<Label, Href>, out: seq<ResolvedAllow>,
      narrow: seq<Href>, allServices: Href, i: nat)
    requires Compiled(allows) && Resolves(allows, labels, out) && i < |out|
    ensures var rule := RulesFor(narrow, allServices, out)[i];
      rule.providers != [] && rule.consumers != [] && rule.ingressServices != []
  {
    var n, m := |allows| - 1, |out| - 1;
    var a := allows[n];
    if Kept(a, labels) && i == m {
      if !a.allWorkloads {
        var k :| k in a.from;
        assert Label(k, a.from[k]) in WantedByOne(a);
        var l :| l in WantedByOne(a) && l in labels;
        assert labels[l] in KnownHrefs(WantedByOne(a), labels);
        assert labels[l] in out[i].consumerHrefs;
      }
    } else if Kept(a, labels) {
      RulesAreComplete(allows[..n], labels, out[..m], narrow, allServices, i);
    } else {
      RulesAreComplete(allows[..n], labels, out, narrow, allServices, i);
    }
  }

  /** The created labels are reported as text; minted keys contain no '=', so no text appears twice. */
  lemma CreatedTextIsDuplicateFree(s: Store, t: Store, allows: seq<CompiledAllow>, mode: Mode, r: Resolution, i: nat, j: nat)
    requires ResolutionStep(s, t, allows, mode, r) && r.Resolved? && i < j < |r.created|
    ensures LabelText.KeyValue(r.created[i]) != LabelText.KeyValue(r.created[j])
  {
    assert r.created[i] in t.labels.Keys - s.labels.Keys && r.created[j] in t.labels.Keys - s.labels.Keys;
    if LabelText.KeyValue(r.created[i]) == LabelText.KeyValue(r.created[j]) {
      LabelText.JoinedInjective(r.created[i], r.created[j], '=');
    }
  }
}
