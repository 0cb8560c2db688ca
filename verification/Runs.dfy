/**
 * Runs of the whole system: CRs come and go, the controllers reconcile them with
 * calls failing anywhere, and administrators act in the PCE between reconciles.
 */
module Runs {
  import opened Wrappers
  import opened Pce
  import opened PolicyIR
  import opened Resolution
  import Linking = Resolution
  import opened RuleSets
  import opened Clusters
  import opened Backend
  import opened Controller
  import Semantics
  import Scopes
  import CwpMatch

  datatype System = System(store: Store, crs: map<string, CrState>)

  datatype Event =
    | CreateCr(uid: string)
    | DeleteCr(uid: string)
    | ReconcileCr(uid: string, frontEnd: FrontEnd, env: Input)
    | AdminMarks(h: Href)
    | AdminReverts(h: Href)
    | AdminProvisionsDeletion(h: Href)
    | AdminEdits

  // ----- Steps -----

  function OwnedDraft(s: Store, crs: map<string, CrState>): map<Href, DraftRuleSet> {
    map h | h in s.draft && s.draft[h].body.reference in crs :: s.draft[h]
  }

  function OwnedActive(s: Store, crs: map<string, CrState>): map<Href, ActiveRuleSet> {
    map h | h in s.active && s.active[h].body.reference in crs :: s.active[h]
  }

  /** Reverting a pending deletion keeps the draft's rules or brings back the active ones. */
  ghost predicate Reverted(s: Store, t: Store, h: Href)
    requires h in s.draft
  {
    exists rules :: t == WithDraft(s, h, DraftRuleSet(s.draft[h].body, rules, false))
      && (rules == s.draft[h].rules || (h in s.active && Bare(rules) == s.active[h].rules))
  }

  ghost predicate Next(a: System, e: Event, b: System) {
    match e
    case CreateCr(uid) =>
      // Kubernetes never issues a UID twice, and nobody else uses it as a reference.
      && uid != "" && uid !in a.crs && (forall h :: !Owns(a.store, h, uid))
      && b == System(a.store, a.crs[uid := CrState(Live, false)])
    case DeleteCr(uid) =>
      && uid in a.crs && a.crs[uid].phase == Live
      && b == System(a.store, a.crs[uid := if a.crs[uid].finalizer then CrState(Deleting, true)
                                           else CrState(Gone(false), false)])
    case ReconcileCr(uid, f, env) =>
      && uid in a.crs && b.crs.Keys == a.crs.Keys && b.crs == a.crs[uid := b.crs[uid]]
      && ControllerStep(a.crs[uid], a.store, b.crs[uid], b.store, uid, f, env)
    case AdminMarks(h) =>
      b.crs == a.crs && Editable(a.store, h) && DeletionTakesEffect(a.store, b.store, h)
    case AdminReverts(h) =>
      b.crs == a.crs && h in a.store.draft && a.store.draft[h].pendingDelete && Reverted(a.store, b.store, h)
    case AdminProvisionsDeletion(h) =>
      b.crs == a.crs && h in a.store.draft && a.store.draft[h].pendingDelete && b.store == Removed(a.store, h)
    case AdminEdits =>
      // Anything else in the PCE, the rulesets of CRs aside.
      && b.crs == a.crs && Valid(b.store)
      && OwnedDraft(b.store, a.crs) == OwnedDraft(a.store, a.crs)
      && OwnedActive(b.store, a.crs) == OwnedActive(a.store, a.crs)
  }

  ghost predicate Run(states: seq<System>, events: seq<Event>) {
    && |states| == |events| + 1
    && Valid(states[0].store) && states[0].crs == map[]
    && forall i :: 0 <= i < |events| ==> Next(states[i], events[i], states[i + 1])
  }

  // ----- What a reconcile may change -----

  ghost predicate OnlyOwner(s: Store, t: Store, reference: string) {
    && (Valid(s) ==> Valid(t) && Semantics.KeepsNames(s, t))
    && OthersKept(s, t, reference)
    && forall o :: Unique(s, o) && (o == reference ==> o != "") ==> Unique(t, o)
  }

  lemma OnlyOwnerTwice(s: Store, t: Store, u: Store, reference: string)
    requires OnlyOwner(s, t, reference) && OnlyOwner(t, u, reference)
    ensures OnlyOwner(s, u, reference)
  {
  }

  lemma GrowOnlyOwner(s: Store, t: Store, allowed: set<Label>, reference: string)
    requires LabelsGrow(s, t, allowed)
    ensures OnlyOwner(s, t, reference)
  {
    forall g, o ensures Owns(t, g, o) <==> Owns(s, g, o) {
    }
  }

  lemma StepOnlyOwner(s: Store, t: Store, body: RuleSet, narrow: seq<Href>, resolved: seq<ResolvedAllow>,
                      r: Result<Href, RuleSetError>)
    requires RuleSetStep(s, t, body, narrow, resolved, r)
    ensures OnlyOwner(s, t, body.reference)
  {
    StepKeepsUniqueAndOthers(s, t, body, narrow, resolved, r);
  }

  lemma RemovedOnlyOwner(s: Store, h: Href, reference: string)
    requires Valid(s) && Owns(s, h, reference)
    ensures OnlyOwner(s, Removed(s, h), reference)
    ensures forall g, o :: Owns(Removed(s, h), g, o) <==> g != h && Owns(s, g, o)
  {
    var t := Removed(s, h);
    assert ForeignDraft(s, reference) == ForeignDraft(t, reference);
    assert ForeignActive(s, reference) == ForeignActive(t, reference);
    forall g, o ensures Owns(t, g, o) <==> g != h && Owns(s, g, o) {
    }
  }

  lemma MarkedOnlyOwner(s: Store, h: Href, reference: string)
    requires Owns(s, h, reference)
    ensures OnlyOwner(s, Marked(s, h), reference)
    ensures forall g, o :: Owns(Marked(s, h), g, o) <==> Owns(s, g, o)
  {
    var t := Marked(s, h);
    assert ForeignDraft(s, reference) == ForeignDraft(t, reference);
    forall g, o ensures Owns(t, g, o) <==> Owns(s, g, o) {
    }
  }

  lemma ProvisionedOnlyOwner(s: Store, h: Href, reference: string)
    requires Valid(s) && Owns(s, h, reference) && !s.draft[h].pendingDelete
    ensures OnlyOwner(s, Provisioned(s, h), reference)
  {
    var t := Provisioned(s, h);
    assert ForeignActive(s, reference) == ForeignActive(t, reference);
    forall g, o ensures Owns(t, g, o) <==> Owns(s, g, o) {
    }
  }

  /** The active version after a reconcile: unchanged, or the fully rebuilt draft through an open gate. */
  ghost predicate Published(s: Store, t: Store, uid: string, inp: Input, h: Href, tr: Trace) {
    && Gate(inp) && Built(inp, uid, tr, h) && LabelsGrow(s, tr.linked, Wanted(inp.allows))
    && Editable(tr.written, h) && tr.written.active == s.active
    && t == Provisioned(tr.written, h)
  }

  lemma BuiltPlace(inp: Input, uid: string, tr: Trace, h: Href)
    requires Built(inp, uid, tr, h)
    ensures OnlyOwner(tr.linked, tr.written, uid)
    ensures Owns(tr.written, h, uid) && Editable(tr.written, h)
    ensures tr.written.active == tr.linked.active && tr.written.labels == tr.linked.labels
    ensures tr.written.services == tr.linked.services
    ensures Bare(tr.written.draft[h].rules) == RulesFor(tr.narrowHrefs, Semantics.AllServices(tr.linked), tr.resolved)
    ensures h !in tr.linked.draft ==> tr.written.draft[h].body == Body(inp, uid, tr)
    ensures h in tr.linked.draft ==> tr.written.draft[h].body == tr.linked.draft[h].body
  {
    var body := Body(inp, uid, tr);
    StepOnlyOwner(tr.linked, tr.written, body, tr.narrowHrefs, tr.resolved, Ok(h));
    StepKeepsUniqueAndOthers(tr.linked, tr.written, body, tr.narrowHrefs, tr.resolved, Ok(h));
    var g, rules := StepWritesOnePlace(tr.linked, tr.written, body, tr.narrowHrefs, tr.resolved, Ok(h));
  }

  /** Every draft ruleset kept its name, scope and owner, or was created in this reconcile. */
  ghost predicate BodiesKept(s: Store, t: Store, uid: string, inp: Input, tr: Trace) {
    forall g :: g in t.draft ==>
      || (g in s.draft && t.draft[g].body == s.draft[g].body)
      || CreatedHere(t, uid, inp, tr, t.draft[g].body)
  }

  /** A body made in a reconcile that ended in t. */
  ghost predicate CreatedHere(t: Store, uid: string, inp: Input, tr: Trace, body: RuleSet) {
    LinkedInput(inp, tr) && t.labels == tr.linked.labels && body == Body(inp, uid, tr)
  }

  lemma StepKeepsBodies(s: Store, t: Store, uid: string, inp: Input, tr: Trace, r: Result<Href, RuleSetError>)
    requires tr.linked.draft == s.draft && LinkedInput(inp, tr)
    requires RuleSetStep(tr.linked, t, Body(inp, uid, tr), tr.narrowHrefs, tr.resolved, r)
    ensures BodiesKept(s, t, uid, inp, tr)
  {
    hide RuleSetStep, Lists, Resolves, CwpMatch.IsDesired;
    StepKeepsUniqueAndOthers(tr.linked, t, Body(inp, uid, tr), tr.narrowHrefs, tr.resolved, r);
    var h, rules := StepWritesOnePlace(tr.linked, t, Body(inp, uid, tr), tr.narrowHrefs, tr.resolved, r);
  }

  lemma BuiltEffect(s: Store, t: Store, uid: string, inp: Input, tr: Trace, h: Href, provisioned: bool)
    requires Valid(s) && LabelsGrow(s, tr.linked, Wanted(inp.allows)) && Built(inp, uid, tr, h)
    requires Ends(tr.written, h, t, provisioned) && (provisioned ==> Gate(inp))
    ensures OnlyOwner(s, t, uid)
    ensures t.active == s.active || Published(s, t, uid, inp, h, tr)
    ensures BodiesKept(s, t, uid, inp, tr)
  {
    hide RuleSetStep, Lists, Resolves, CwpMatch.IsDesired, Body;
    StepKeepsBodies(s, tr.written, uid, inp, tr, Ok(h));
    GrowOnlyOwner(s, tr.linked, Wanted(inp.allows), uid);
    BuiltPlace(inp, uid, tr, h);
    OnlyOwnerTwice(s, tr.linked, tr.written, uid);
    if provisioned {
      ProvisionedOnlyOwner(tr.written, h, uid);
      OnlyOwnerTwice(s, tr.written, t, uid);
    }
  }

  lemma StoppedEffect(s: Store, t: Store, uid: string, inp: Input, tr: Trace, e: RuleSetError)
    requires Valid(s) && LabelsGrow(s, tr.linked, Wanted(inp.allows)) && LinkedInput(inp, tr)
    requires RuleSetStep(tr.linked, t, Body(inp, uid, tr), tr.narrowHrefs, tr.resolved, Err(e))
    ensures OnlyOwner(s, t, uid) && t.active == s.active && BodiesKept(s, t, uid, inp, tr)
  {
    hide RuleSetStep, Lists, Resolves, CwpMatch.IsDesired, BodiesKept, OnlyOwner, Valid, Wanted;
    StepKeepsBodies(s, t, uid, inp, tr, Err(e));
    GrowOnlyOwner(s, tr.linked, Wanted(inp.allows), uid);
    StepOnlyOwner(tr.linked, t, Body(inp, uid, tr), tr.narrowHrefs, tr.resolved, Err(e));
    StepKeepsActive(tr.linked, t, Body(inp, uid, tr), tr.narrowHrefs, tr.resolved, Err(e));
    OnlyOwnerTwice(s, tr.linked, t, uid);
  }

  lemma StepKeepsActive(s: Store, t: Store, body: RuleSet, narrow: seq<Href>, resolved: seq<ResolvedAllow>,
                        r: Result<Href, RuleSetError>)
    requires RuleSetStep(s, t, body, narrow, resolved, r)
    ensures t.active == s.active
  {
    StepKeepsUniqueAndOthers(s, t, body, narrow, resolved, r);
  }

  lemma BackendEffect(s: Store, t: Store, uid: string, inp: Input, tr: Trace, o: Outcome)
    requires Valid(s) && BackendTrace(s, t, uid, inp, tr, o)
    ensures OnlyOwner(s, t, uid) && BodiesKept(s, t, uid, inp, tr)
    ensures t.active == s.active || exists h :: Published(s, t, uid, inp, h, tr)
  {
    hide RuleSetStep, BodiesKept, Body, LabelsGrow, OnlyOwner, Valid, Accounted, Lists, Resolves, CwpMatch.IsDesired;
    if t == tr.linked {
      GrowOnlyOwner(s, tr.linked, Wanted(inp.allows), uid);
      ActiveStays(s, tr.linked, uid, inp, tr);
    } else if o.Compiled? {
      var h :| Built(inp, uid, tr, h) && Ends(tr.written, h, t, o.provisioned);
      BuiltEffect(s, t, uid, inp, tr, h, o.provisioned);
    } else if o.PCEStateConflict? {
      StoppedEffect(s, t, uid, inp, tr, PendingDeletion);
    } else if RebuildFailed(t, uid, inp, tr) {
      var e :| RuleSetStep(tr.linked, t, Body(inp, uid, tr), tr.narrowHrefs, tr.resolved, Err(e));
      StoppedEffect(s, t, uid, inp, tr, e);
    } else {
      var h, took :| Built(inp, uid, tr, h) && Ends(tr.written, h, t, took);
      BuiltEffect(s, t, uid, inp, tr, h, took);
    }
  }

  lemma ActiveStays(s: Store, t: Store, uid: string, inp: Input, tr: Trace)
    requires LabelsGrow(s, t, Wanted(inp.allows))
    ensures t.active == s.active && BodiesKept(s, t, uid, inp, tr)
  {
  }

  lemma FinalizeEffect(s: Store, t: Store, uid: string, cluster: ClusterLookup, ok: bool)
    requires Valid(s) && FinalizeStep(s, t, uid, cluster, ok)
    ensures OnlyOwner(s, t, uid)
    ensures t.active == s.active || exists h :: Owns(s, h, uid) && t == Removed(s, h)
    ensures forall g, o :: Owns(t, g, o) ==> Owns(s, g, o)
    ensures ok && cluster.Ready? && uid != "" && Unique(s, uid) ==> forall h :: !Owns(t, h, uid)
  {
    if t != s {
      var h :| Owns(s, h, uid) && (t == Removed(s, h) || (!ok && t == Marked(s, h)));
      if t == Removed(s, h) {
        RemovedOnlyOwner(s, h, uid);
      } else {
        MarkedOnlyOwner(s, h, uid);
      }
    }
  }

  /** A reconcile touches nobody else's ruleset, and changes the active version only through the
      provisioning gate of a live CR or in the finalization of a deleted one. */
  lemma ReconcileStaysInItsLane(a: System, uid: string, f: FrontEnd, env: Input, b: System)
    requires Valid(a.store) && Next(a, ReconcileCr(uid, f, env), b)
    ensures OnlyOwner(a.store, b.store, uid)
    ensures b.store.active != a.store.active ==>
      || (a.crs[uid].phase == Live && Compiles(f) && Gate(Filled(env, f)))
      || (a.crs[uid].phase == Deleting && env.cluster.Ready?)
  {
    var c := a.crs[uid];
    if c.phase == Live && BackendRan(a.store, b.store, uid, f, env) {
      var tr, o :| BackendTrace(a.store, b.store, uid, Filled(env, f), tr, o);
      BackendEffect(a.store, b.store, uid, Filled(env, f), tr, o);
    } else if c.phase == Deleting && c.finalizer {
      var ok :| FinalizeStep(a.store, b.store, uid, env.cluster, ok);
      FinalizeEffect(a.store, b.store, uid, env.cluster, ok);
    }
  }

  // ----- The finalizer protocol -----

  /** A CR that may own rulesets: it still has its finalizer, or it was let go while nothing could be reached. */
  predicate MayOwn(c: CrState) {
    if c.phase.Gone? then c.phase.orphaned else c.finalizer
  }

  ghost predicate Inv(a: System) {
    && Valid(a.store)
    && (forall uid :: uid in a.crs ==> uid != "" && Unique(a.store, uid))
    && (forall h :: h in a.store.draft && a.store.draft[h].body.reference in a.crs ==>
          MayOwn(a.crs[a.store.draft[h].body.reference]))
  }

  lemma ReconcileKeepsInv(a: System, uid: string, f: FrontEnd, env: Input, b: System)
    requires Inv(a) && Next(a, ReconcileCr(uid, f, env), b)
    ensures Inv(b)
  {
    ReconcileStaysInItsLane(a, uid, f, env, b);
    var c, d := a.crs[uid], b.crs[uid];
    forall o | o in b.crs ensures o != "" && Unique(b.store, o) {
      assert o in a.crs;
    }
    forall h | h in b.store.draft && b.store.draft[h].body.reference in b.crs
      ensures MayOwn(b.crs[b.store.draft[h].body.reference])
    {
      var o := b.store.draft[h].body.reference;
      if o != uid {
        assert h in ForeignDraft(b.store, uid);
        assert h in ForeignDraft(a.store, uid);
      } else if c.phase == Deleting && c.finalizer {
        FinalizedCrOwnsNothing(a, uid, f, env, b, h);
      } else if b.store == a.store {
      }
    }
  }

  lemma FinalizedCrOwnsNothing(a: System, uid: string, f: FrontEnd, env: Input, b: System, h: Href)
    requires Inv(a) && Next(a, ReconcileCr(uid, f, env), b)
    requires a.crs[uid] == CrState(Deleting, true) && Owns(b.store, h, uid)
    ensures MayOwn(b.crs[uid])
  {
    var ok :| FinalizeStep(a.store, b.store, uid, env.cluster, ok)
      && (b.crs[uid] == a.crs[uid] || (ok && b.crs[uid] == CrState(Gone(env.cluster == NotReady), false)));
    FinalizeEffect(a.store, b.store, uid, env.cluster, ok);
  }

  lemma AdminKeepsInv(a: System, e: Event, b: System)
    requires Inv(a) && Next(a, e, b) && !e.CreateCr? && !e.DeleteCr? && !e.ReconcileCr?
    ensures Inv(b)
  {
    if e == AdminEdits {
      forall g, o | o in a.crs ensures Owns(b.store, g, o) <==> Owns(a.store, g, o) {
        assert Owns(b.store, g, o) <==> g in OwnedDraft(b.store, a.crs) && OwnedDraft(b.store, a.crs)[g].body.reference == o;
        assert Owns(a.store, g, o) <==> g in OwnedDraft(a.store, a.crs) && OwnedDraft(a.store, a.crs)[g].body.reference == o;
      }
    } else {
      forall g, o ensures Owns(b.store, g, o) ==> Owns(a.store, g, o) {
      }
    }
    assert forall uid :: uid in b.crs ==> Unique(b.store, uid);
    forall h | h in b.store.draft && b.store.draft[h].body.reference in b.crs
      ensures MayOwn(b.crs[b.store.draft[h].body.reference])
    {
      assert Owns(b.store, h, b.store.draft[h].body.reference);
      assert Owns(a.store, h, b.store.draft[h].body.reference);
    }
  }

  lemma NextKeepsInv(a: System, e: Event, b: System)
    requires Inv(a) && Next(a, e, b)
    ensures Inv(b)
  {
    match e
    case CreateCr(uid) =>
      assert forall h :: h in b.store.draft && b.store.draft[h].body.reference == uid ==> Owns(a.store, h, uid);
    case DeleteCr(uid) =>
    case ReconcileCr(uid, f, env) => ReconcileKeepsInv(a, uid, f, env, b);
    case _ => AdminKeepsInv(a, e, b);
  }

  /** In every reachable state a ruleset that a CR owns has a CR to clean it up, each CR owns at most
      one ruleset, and what is active is also in the draft. */
  lemma {:induction false} RunKeepsInv(states: seq<System>, events: seq<Event>, i: nat)
    requires Run(states, events) && i < |states|
    ensures Inv(states[i])
  {
    if i > 0 {
      RunKeepsInv(states, events, i - 1);
      NextKeepsInv(states[i - 1], events[i - 1], states[i]);
    }
  }

  /** The reading of the invariant for the active version. */
  lemma NoOrphanUnlessNotReady(states: seq<System>, events: seq<Event>, i: nat, h: Href, uid: string)
    requires Run(states, events) && i < |states| && uid in states[i].crs
    requires Owns(states[i].store, h, uid)
      || (h in states[i].store.active && states[i].store.active[h].body.reference == uid)
    ensures !states[i].crs[uid].phase.Gone? ==> states[i].crs[uid].finalizer
    ensures states[i].crs[uid].phase.Gone? ==> states[i].crs[uid].phase.orphaned
  {
    RunKeepsInv(states, events, i);
  }

  /** A CR whose finalization reached the PCE has left nothing behind, whatever failed before. */
  lemma FinalizedLeavesNothing(states: seq<System>, events: seq<Event>, i: nat, h: Href, uid: string)
    requires Run(states, events) && i < |states| && uid in states[i].crs
    requires states[i].crs[uid].phase == Gone(false)
    ensures !Owns(states[i].store, h, uid)
    ensures h in states[i].store.active ==> states[i].store.active[h].body.reference != uid
  {
    RunKeepsInv(states, events, i);
  }

  // ----- Orphans -----

  /** A reconcile that lets a deleted CR go leaves a ruleset of it behind exactly when the CR owned one and no
      ClusterProfile was ready. */
  lemma OrphansIffNotReady(a: System, uid: string, f: FrontEnd, env: Input, b: System)
    requires Inv(a) && Next(a, ReconcileCr(uid, f, env), b)
    requires a.crs[uid].phase == Deleting && b.crs[uid].phase.Gone?
    ensures (exists h :: Owns(b.store, h, uid)) <==> (env.cluster == NotReady && exists h :: Owns(a.store, h, uid))
    ensures b.crs[uid].phase.orphaned <==> env.cluster == NotReady
  {
    var ok :| FinalizeStep(a.store, b.store, uid, env.cluster, ok)
      && (b.crs[uid] == a.crs[uid] || (ok && b.crs[uid] == CrState(Gone(env.cluster == NotReady), false)));
    FinalizeEffect(a.store, b.store, uid, env.cluster, ok);
  }

  /** The guard behind it: the namespace is gone, or no onboarded ClusterProfile that manages it has a PCE
      that can be used.  A namespace that is no longer managed is enough, however reachable the PCE. */
  lemma OrphansIffUnmanagedOrUnreachable(a: System, uid: string, f: FrontEnd, env: Input, b: System,
                                         ns: Read<CwpMatch.Namespace>, cps: Option<seq<ClusterProfile>>)
    requires Inv(a) && Next(a, ReconcileCr(uid, f, env), b)
    requires a.crs[uid].phase == Deleting && b.crs[uid].phase.Gone? && IsLookup(env.glob, ns, cps, env.cluster)
    ensures (exists h :: Owns(b.store, h, uid)) <==>
      && (exists h :: Owns(a.store, h, uid))
      && (ns.Absent? || (ns.There? && cps.Some?
            && forall i :: 0 <= i < |cps.value| ==> !Usable(env.glob, ns.value, cps.value[i])))
  {
    hide IsLookup, Usable;
    OrphansIffNotReady(a, uid, f, env, b);
    var ok :| FinalizeStep(a.store, b.store, uid, env.cluster, ok)
      && (b.crs[uid] == a.crs[uid] || (ok && b.crs[uid] == CrState(Gone(env.cluster == NotReady), false)));
    NotReadyExactly(env.glob, ns, cps, env.cluster);
  }

  predicate AdminNames(e: Event, h: Href) {
    e == AdminMarks(h) || e == AdminReverts(h) || e == AdminProvisionsDeletion(h)
  }

  /** The ruleset with this href, in the draft and in the active version, is the same in both stores. */
  predicate SameRuleSet(s: Store, t: Store, h: Href) {
    && h in s.draft && h in t.draft && s.draft[h] == t.draft[h]
    && (h in s.active <==> h in t.active) && (h in s.active ==> s.active[h] == t.active[h])
  }

  lemma OrphanStep(a: System, e: Event, b: System, h: Href, uid: string)
    requires Inv(a) && Next(a, e, b) && !AdminNames(e, h)
    requires uid in a.crs && a.crs[uid].phase.Gone? && Owns(a.store, h, uid)
    ensures uid in b.crs && b.crs[uid] == a.crs[uid] && SameRuleSet(a.store, b.store, h)
  {
    match e
    case ReconcileCr(u, f, env) =>
      if u != uid {
        ReconcileStaysInItsLane(a, u, f, env, b);
        assert h in ForeignDraft(a.store, u);
        assert h in ForeignDraft(b.store, u);
        assert h in a.store.active ==> h in ForeignActive(a.store, u);
        assert h in b.store.active ==> b.store.active[h].body.reference == uid && h in ForeignActive(b.store, u);
      }
    case AdminEdits =>
      NextKeepsInv(a, e, b);
      assert h in OwnedDraft(a.store, a.crs);
      assert h in OwnedDraft(b.store, a.crs);
      assert h in a.store.active ==> h in OwnedActive(a.store, a.crs);
      assert h in b.store.active ==> h in OwnedActive(b.store, a.crs);
    case _ =>
  }

  /** What a CR that is gone left behind stays, draft and active, whatever the operator does later: only an
      administrator who names the ruleset can change or remove it. */
  lemma {:induction false} OrphanStays(states: seq<System>, events: seq<Event>, i: nat, j: nat, h: Href, uid: string)
    requires Run(states, events) && i <= j < |states|
    requires uid in states[i].crs && states[i].crs[uid].phase.Gone? && Owns(states[i].store, h, uid)
    requires forall k :: i <= k < j ==> !AdminNames(events[k], h)
    ensures uid in states[j].crs && states[j].crs[uid] == states[i].crs[uid]
    ensures SameRuleSet(states[i].store, states[j].store, h)
    decreases j
  {
    hide Next;
    if i < j {
      OrphanStays(states, events, i, j - 1, h, uid);
      RunKeepsInv(states, events, j - 1);
      assert Next(states[j - 1], events[j - 1], states[j - 1 + 1]);
      OrphanStep(states[j - 1], events[j - 1], states[j], h, uid);
    }
  }

  // ----- The active version -----

  /** This event provisioned exactly this ruleset, from a draft it had rebuilt to the end. */
  ghost predicate Provisions(a: System, e: Event, b: System, h: Href, uid: string, rs: ActiveRuleSet) {
    && e.ReconcileCr? && e.uid == uid && uid in a.crs && a.crs[uid].phase == Live && Compiles(e.frontEnd)
    && exists tr :: Published(a.store, b.store, uid, Filled(e.env, e.frontEnd), h, tr)
         && rs == ActiveRuleSet(tr.written.draft[h].body, Bare(tr.written.draft[h].rules))
  }

  lemma ActiveStepsAreComplete(a: System, e: Event, b: System, h: Href, uid: string)
    requires Inv(a) && Next(a, e, b)
    requires uid in b.crs && h in b.store.active && b.store.active[h].body.reference == uid
    ensures || (uid in a.crs && h in a.store.active && a.store.active[h] == b.store.active[h])
            || Provisions(a, e, b, h, uid, b.store.active[h])
  {
    NextKeepsInv(a, e, b);
    match e
    case CreateCr(u) =>
      assert u == uid ==> Owns(a.store, h, u);
    case DeleteCr(_) =>
    case ReconcileCr(u, f, env) =>
      if u != uid {
        ReconcileStaysInItsLane(a, u, f, env, b);
        assert h in ForeignActive(b.store, u);
        assert h in ForeignActive(a.store, u);
      } else if a.store.active != b.store.active {
        OwnActiveStep(a, f, env, b, h, uid);
      }
    case AdminEdits =>
      assert h in OwnedActive(b.store, a.crs);
      assert h in OwnedActive(a.store, a.crs);
    case _ =>
  }

  lemma OwnActiveStep(a: System, f: FrontEnd, env: Input, b: System, h: Href, uid: string)
    requires Inv(a) && Next(a, ReconcileCr(uid, f, env), b) && a.store.active != b.store.active
    requires h in b.store.active && b.store.active[h].body.reference == uid
    ensures || (h in a.store.active && a.store.active[h] == b.store.active[h])
            || Provisions(a, ReconcileCr(uid, f, env), b, h, uid, b.store.active[h])
  {
    hide RuleSetStep, LabelsGrow, Lists, Resolves, BackendTrace, Valid, CwpMatch.IsDesired, BodiesKept, OnlyOwner;
    if a.crs[uid].phase == Live {
      var inp := Filled(env, f);
      var tr, o :| BackendTrace(a.store, b.store, uid, inp, tr, o);
      BackendEffect(a.store, b.store, uid, inp, tr, o);
      var g :| Published(a.store, b.store, uid, inp, g, tr);
      if g == h {
        assert Published(a.store, b.store, uid, inp, h, tr);
      }
    } else {
      var ok :| FinalizeStep(a.store, b.store, uid, env.cluster, ok);
      FinalizeEffect(a.store, b.store, uid, env.cluster, ok);
    }
  }

  /** In every reachable state the active version of an owned ruleset is, rule for rule, what one
      earlier reconcile built to the end and provisioned: never a half-rebuilt draft. */
  lemma {:induction false} ActiveIsComplete(states: seq<System>, events: seq<Event>, i: nat, h: Href, uid: string)
    requires Run(states, events) && i < |states|
    requires uid in states[i].crs && h in states[i].store.active && states[i].store.active[h].body.reference == uid
    ensures exists j :: 0 <= j < i && Provisions(states[j], events[j], states[j + 1], h, uid, states[i].store.active[h])
  {
    if i > 0 {
      RunKeepsInv(states, events, i - 1);
      ActiveStepsAreComplete(states[i - 1], events[i - 1], states[i], h, uid);
      if !Provisions(states[i - 1], events[i - 1], states[i], h, uid, states[i].store.active[h]) {
        ActiveIsComplete(states, events, i - 1, h, uid);
      }
    }
  }

  /** A profile that neither provisions automatically, nor by hand with this CR approved, keeps the gate shut: a
      reconcile of a live CR leaves what is active alone. */
  lemma ClosedGateKeepsActive(states: seq<System>, events: seq<Event>, i: nat)
    requires Run(states, events) && i < |events| && events[i].ReconcileCr?
    requires events[i].uid in states[i].crs && states[i].crs[events[i].uid].phase == Live
    requires events[i].env.cluster.Ready? ==>
      && events[i].env.cluster.profile.provisioningMode != "auto"
      && !(events[i].env.cluster.profile.provisioningMode == "manual" && events[i].env.approved)
    ensures states[i + 1].store.active == states[i].store.active
  {
    RunKeepsInv(states, events, i);
    assert Next(states[i], events[i], states[i + 1]);
    ReconcileStaysInItsLane(states[i], events[i].uid, events[i].frontEnd, events[i].env, states[i + 1]);
  }

  // ----- Where a ruleset's scope comes from -----

  /** This reconcile gave the ruleset its body: enabled, and with one scope, the namespace's scope labels of then. */
  ghost predicate Created(e: Event, b: System, uid: string, body: RuleSet, tr: Trace) {
    && e.ReconcileCr? && e.uid == uid && Compiles(e.frontEnd)
    && CreatedHere(b.store, uid, Filled(e.env, e.frontEnd), tr, body)
  }

  ghost predicate CreatedIn(e: Event, b: System, uid: string, body: RuleSet) {
    exists tr :: Created(e, b, uid, body, tr)
  }

  lemma DraftStep(a: System, e: Event, b: System, h: Href, uid: string)
    requires Inv(a) && Next(a, e, b) && uid in b.crs && Owns(b.store, h, uid)
    ensures || (uid in a.crs && Owns(a.store, h, uid) && a.store.draft[h].body == b.store.draft[h].body)
            || CreatedIn(e, b, uid, b.store.draft[h].body)
  {
    match e
    case CreateCr(u) =>
      assert u == uid ==> !Owns(a.store, h, u);
    case DeleteCr(_) =>
    case ReconcileCr(u, f, env) =>
      if u != uid {
        ReconcileStaysInItsLane(a, u, f, env, b);
        assert h in ForeignDraft(b.store, u);
        assert h in ForeignDraft(a.store, u);
      } else {
        OwnDraftStep(a, f, env, b, h, uid);
      }
    case AdminEdits =>
      assert h in OwnedDraft(b.store, a.crs);
      assert h in OwnedDraft(a.store, a.crs);
    case _ =>
  }

  lemma OwnDraftStep(a: System, f: FrontEnd, env: Input, b: System, h: Href, uid: string)
    requires Inv(a) && Next(a, ReconcileCr(uid, f, env), b) && Owns(b.store, h, uid)
    ensures || (Owns(a.store, h, uid) && a.store.draft[h].body == b.store.draft[h].body)
            || CreatedIn(ReconcileCr(uid, f, env), b, uid, b.store.draft[h].body)
  {
    hide RuleSetStep, LabelsGrow, Lists, Resolves, BackendTrace, Valid, CreatedHere, CwpMatch.IsDesired;
    if a.crs[uid].phase == Live && b.store != a.store {
      var inp := Filled(env, f);
      var tr, o :| BackendTrace(a.store, b.store, uid, inp, tr, o);
      BackendEffect(a.store, b.store, uid, inp, tr, o);
      if CreatedHere(b.store, uid, inp, tr, b.store.draft[h].body) {
        assert Created(ReconcileCr(uid, f, env), b, uid, b.store.draft[h].body, tr);
      }
    } else if a.crs[uid].phase == Deleting && a.crs[uid].finalizer {
      var ok :| FinalizeStep(a.store, b.store, uid, env.cluster, ok);
    }
  }

  /** In every reachable state the body of an owned draft, and with it its scope, is one that an earlier
      reconcile of the CR made. */
  lemma {:induction false} DraftHasOrigin(states: seq<System>, events: seq<Event>, i: nat, h: Href, uid: string)
    requires Run(states, events) && i < |states|
    requires uid in states[i].crs && Owns(states[i].store, h, uid)
    ensures exists k :: 0 <= k < i && CreatedIn(events[k], states[k + 1], uid, states[i].store.draft[h].body)
  {
    if i > 0 {
      RunKeepsInv(states, events, i - 1);
      DraftStep(states[i - 1], events[i - 1], states[i], h, uid);
      if !CreatedIn(events[i - 1], states[i], uid, states[i].store.draft[h].body) {
        DraftHasOrigin(states, events, i - 1, h, uid);
      }
    }
  }

  // ----- What the active version means -----

  /** What the spec of the CR says about consumer c, provider p and flow w, in a namespace with this scope. */
  ghost predicate Denotes(f: FrontEnd, scope: LabelMap, c: LabelMap, p: LabelMap, w: Semantics.Flow) {
    match f
    case Intent(spec) => Semantics.IntentDenotes(spec, scope, c, p, w)
    case Policy(spec) => Semantics.PolicyDenotes(spec, scope, c, p, w)
  }

  lemma SpecMeaning(f: FrontEnd, env: Input, scope: LabelMap, c: LabelMap, p: LabelMap, w: Semantics.Flow)
    requires Compiles(f)
    ensures var inp := Filled(env, f);
      && (Denotes(f, scope, c, p, w) <==> Semantics.Meaning(inp.narrow, inp.allows, scope, c, p, w))
      && Linking.Compiled(inp.allows) && Semantics.InlinePorts(inp.allows)
  {
    match f
    case Intent(spec) =>
      Semantics.IntentMeaning(spec, scope, c, w);
      IntentIsCompiled(spec);
    case Policy(spec) =>
      Semantics.PolicyMeaning(spec.ingress, scope, c, w);
      PolicyIsCompiled(spec.ingress);
  }

  lemma ProvisionedIsLinked(s: Store, t: Store, uid: string, inp: Input, h: Href, tr: Trace, stored: LabelMap)
    requires Published(s, t, uid, inp, h, tr) && Semantics.StoredScope(t.labels, tr.written.draft[h].body, stored)
    ensures h in t.active && Semantics.Linked(t, stored, inp.narrow, inp.allows, t.active[h])
    ensures t.labels == tr.linked.labels
  {
    hide Resolves, RulesFor, KnownHrefs, CwpMatch.IsDesired;
    BuiltPlace(inp, uid, tr, h);
    assert Semantics.RulesOf(t, inp.narrow, inp.allows, tr.narrowHrefs, tr.resolved, t.active[h].rules);
  }

  /** What is provisioned permits, in the scope the ruleset has, exactly what the entries mean once pruned to the
      labels known when it was provisioned, and keeps that meaning: and in strict and create mode, exactly
      what the spec denotes. */
  lemma ProvisionedMeansSpec(s: Store, t: Store, uid: string, f: FrontEnd, env: Input, h: Href, tr: Trace, later: Store,
                             stored: LabelMap, c: LabelMap, p: LabelMap, w: Semantics.Flow)
    requires Valid(s) && Compiles(f) && Published(s, t, uid, Filled(env, f), h, tr)
    requires Semantics.KeepsNames(t, later) && Semantics.StoredScope(t.labels, tr.written.draft[h].body, stored)
    ensures h in t.active
    ensures Semantics.Permits(later, t.active[h], c, p, w) <==>
      var inp := Filled(env, f); Semantics.Meaning(inp.narrow, Semantics.Pruned(inp.allows, t.labels), stored, c, p, w)
    ensures env.mode != Skip ==>
      (Semantics.Permits(later, t.active[h], c, p, w) <==> Denotes(f, stored, c, p, w))
  {
    hide RuleSetStep, Lists, Semantics.Linked, Semantics.Meaning, Denotes, Semantics.Permits, Resolves, Semantics.KeepsNames;
    var inp := Filled(env, f);
    ProvisionedIsLinked(s, t, uid, inp, h, tr, stored);
    SpecMeaning(f, env, stored, c, p, w);
    Semantics.LinkedMeaningLasts(t, later, stored, inp.narrow, inp.allows, t.active[h], c, p, w);
    if env.mode != Skip {
      Semantics.PrunedOfKnown(inp.allows, t.labels);
    }
  }

  /** This event published the ruleset, and it means what the spec said: in its own scope, and in every later
      store that still holds what this one held under the same names. */
  ghost predicate MeansSpec(a: System, e: Event, b: System, h: Href, uid: string, rs: ActiveRuleSet) {
    && Provisions(a, e, b, h, uid, rs)
    && forall stored, later, c, p, w :: MeansInScope(e, b.store, rs, stored, later, c, p, w)
  }

  ghost predicate MeansInScope(e: Event, t: Store, rs: ActiveRuleSet, stored: LabelMap, later: Store,
                               c: LabelMap, p: LabelMap, w: Semantics.Flow)
    requires e.ReconcileCr? && Compiles(e.frontEnd)
  {
    var inp := Filled(e.env, e.frontEnd);
    Semantics.StoredScope(t.labels, rs.body, stored) && Semantics.KeepsNames(t, later) ==>
      && (Semantics.Permits(later, rs, c, p, w) <==>
            Semantics.Meaning(inp.narrow, Semantics.Pruned(inp.allows, t.labels), stored, c, p, w))
      && (e.env.mode != Skip ==> (Semantics.Permits(later, rs, c, p, w) <==> Denotes(e.frontEnd, stored, c, p, w)))
  }

  lemma ProvisionsMeansSpec(a: System, e: Event, b: System, h: Href, uid: string, rs: ActiveRuleSet)
    requires Valid(a.store) && Provisions(a, e, b, h, uid, rs)
    ensures MeansSpec(a, e, b, h, uid, rs)
  {
    hide Semantics.Permits, Denotes, Built, LabelsGrow, Lists, Semantics.Meaning, Semantics.StoredScope, Semantics.KeepsNames;
    var tr :| Published(a.store, b.store, uid, Filled(e.env, e.frontEnd), h, tr)
      && rs == ActiveRuleSet(tr.written.draft[h].body, Bare(tr.written.draft[h].rules));
    forall stored, later, c, p, w ensures MeansInScope(e, b.store, rs, stored, later, c, p, w) {
      if Semantics.StoredScope(b.store.labels, rs.body, stored) && Semantics.KeepsNames(b.store, later) {
        ProvisionedMeansSpec(a.store, b.store, uid, e.frontEnd, e.env, h, tr, later, stored, c, p, w);
      }
    }
  }

  /** Event k gave the ruleset that is active in state i its scope, and event j, which provisioned it, its meaning. */
  ghost predicate MeantAt(states: seq<System>, events: seq<Event>, k: nat, j: nat, i: nat, uid: string, h: Href)
    requires |states| == |events| + 1 && k <= j < i < |states| && h in states[i].store.active
  {
    && CreatedIn(events[k], states[k + 1], uid, states[i].store.active[h].body)
    && MeansSpec(states[j], events[j], states[j + 1], h, uid, states[i].store.active[h])
  }

  /** In every reachable state, what is active for a CR has a scope that an earlier reconcile of the CR gave it,
      and means in that scope what the spec said when it was provisioned. */
  lemma ActiveMeansSpec(states: seq<System>, events: seq<Event>, i: nat, h: Href, uid: string)
    requires Run(states, events) && i < |states|
    requires uid in states[i].crs && h in states[i].store.active && states[i].store.active[h].body.reference == uid
    ensures exists k, j :: 0 <= k <= j < i && MeantAt(states, events, k, j, i, uid, h)
  {
    hide MeansSpec, Next, CreatedIn, Provisions;
    ActiveIsComplete(states, events, i, h, uid);
    var rs := states[i].store.active[h];
    var j :| 0 <= j < i && Provisions(states[j], events[j], states[j + 1], h, uid, rs);
    RunKeepsInv(states, events, j);
    ProvisionsMeansSpec(states[j], events[j], states[j + 1], h, uid, rs);
    ProvisionedIsDraft(states, events, j, h, uid, rs);
    DraftHasOrigin(states, events, j + 1, h, uid);
    var k :| 0 <= k <= j && CreatedIn(events[k], states[k + 1], uid, rs.body);
    assert MeantAt(states, events, k, j, i, uid, h);
  }

  lemma ProvisionedIsDraft(states: seq<System>, events: seq<Event>, j: nat, h: Href, uid: string, rs: ActiveRuleSet)
    requires Run(states, events) && j < |events| && Provisions(states[j], events[j], states[j + 1], h, uid, rs)
    ensures uid in states[j + 1].crs && Owns(states[j + 1].store, h, uid) && states[j + 1].store.draft[h].body == rs.body
  {
    hide RuleSetStep, LabelsGrow, Lists, ControllerStep;
    var a, e, b := states[j], events[j], states[j + 1];
    var inp := Filled(e.env, e.frontEnd);
    var tr :| Published(a.store, b.store, uid, inp, h, tr)
      && rs == ActiveRuleSet(tr.written.draft[h].body, Bare(tr.written.draft[h].rules));
    BuiltPlace(inp, uid, tr, h);
    assert Next(a, e, b);
  }

  // ----- While the PCE keeps its labels -----

  /** No administrator removes or renames a label or the built-in service. */
  ghost predicate NamesKept(states: seq<System>, events: seq<Event>) {
    |states| == |events| + 1 && forall m :: 0 <= m < |events| && events[m] == AdminEdits ==>
      Semantics.KeepsNames(states[m].store, states[m + 1].store)
  }

  lemma StepKeepsNames(a: System, e: Event, b: System)
    requires Valid(a.store) && Next(a, e, b) && e != AdminEdits
    ensures Semantics.KeepsNames(a.store, b.store)
  {
    if e.ReconcileCr? {
      ReconcileStaysInItsLane(a, e.uid, e.frontEnd, e.env, b);
    }
  }

  lemma {:induction false} RunKeepsNames(states: seq<System>, events: seq<Event>, i: nat, j: nat)
    requires Run(states, events) && NamesKept(states, events) && i <= j < |states|
    ensures Semantics.KeepsNames(states[i].store, states[j].store)
    decreases j
  {
    hide Next;
    RunKeepsInv(states, events, j);
    if i < j {
      RunKeepsNames(states, events, i, j - 1);
      RunKeepsInv(states, events, j - 1);
      if events[j - 1] == AdminEdits {
        assert Semantics.KeepsNames(states[j - 1].store, states[j - 1 + 1].store);
      } else {
        assert Next(states[j - 1], events[j - 1], states[j - 1 + 1]);
        StepKeepsNames(states[j - 1], events[j - 1], states[j]);
      }
    }
  }

  lemma CreatedScopeLasts(e: Event, b: System, uid: string, body: RuleSet, tr: Trace, later: Store)
    requires Created(e, b, uid, body, tr) && Semantics.KeepsNames(b.store, later)
    ensures Semantics.StoredScope(later.labels, body, tr.scope)
  {
    hide IsScope, Resolves;
    assert Semantics.ScopeHrefs(ScopeEntries(tr.scopeHrefs)) == tr.scopeHrefs;
    assert KnownHrefs(Entries(tr.scope), later.labels) == KnownHrefs(Entries(tr.scope), tr.linked.labels);
  }

  /** The ruleset, as it works in this store, permits exactly what the spec of this reconcile denotes in this scope. */
  ghost predicate Realizes(e: Event, s: Store, rs: ActiveRuleSet, scope: LabelMap) {
    e.ReconcileCr? && forall c, p, w :: Semantics.Permits(s, rs, c, p, w) <==> Denotes(e.frontEnd, scope, c, p, w)
  }

  /** Event k created the ruleset, with some scope, and event j provisioned it: in strict or create mode it
      permits in state i exactly what the spec at j denotes in that scope. */
  ghost predicate RealizedAt(states: seq<System>, events: seq<Event>, k: nat, j: nat, i: nat, uid: string, h: Href)
    requires |states| == |events| + 1 && k <= j < i < |states| && h in states[i].store.active
  {
    var rs := states[i].store.active[h];
    && Provisions(states[j], events[j], states[j + 1], h, uid, rs)
    && exists tr :: Created(events[k], states[k + 1], uid, rs.body, tr)
         && (events[j].env.mode != Skip ==> Realizes(events[j], states[i].store, rs, tr.scope))
  }

  /** While labels keep their hrefs, what is active permits at this moment exactly what the spec denoted when it
      was provisioned in strict or create mode, in the scope the namespace had when the ruleset was created. */
  lemma ActiveMeansSpecNow(states: seq<System>, events: seq<Event>, i: nat, h: Href, uid: string)
    requires Run(states, events) && NamesKept(states, events) && i < |states|
    requires uid in states[i].crs && h in states[i].store.active && states[i].store.active[h].body.reference == uid
    ensures exists k, j :: 0 <= k <= j < i && RealizedAt(states, events, k, j, i, uid, h)
  {
    hide Next, NamesKept, MeantAt, RealizedAt;
    ActiveMeansSpec(states, events, i, h, uid);
    var k, j :| 0 <= k <= j < i && MeantAt(states, events, k, j, i, uid, h);
    RealizedSince(states, events, k, j, i, uid, h);
  }

  lemma RealizedSince(states: seq<System>, events: seq<Event>, k: nat, j: nat, i: nat, uid: string, h: Href)
    requires Run(states, events) && NamesKept(states, events) && k <= j < i < |states|
    requires h in states[i].store.active && MeantAt(states, events, k, j, i, uid, h)
    ensures RealizedAt(states, events, k, j, i, uid, h)
  {
    hide Next, Created, MeansSpec, Provisions, Semantics.KeepsNames, Realizes;
    var rs := states[i].store.active[h];
    var tr :| Created(events[k], states[k + 1], uid, rs.body, tr);
    RunKeepsNames(states, events, k + 1, j + 1);
    RunKeepsNames(states, events, j + 1, i);
    CreatedScopeLasts(events[k], states[k + 1], uid, rs.body, tr, states[j + 1].store);
    RealizedIn(states[j], events[j], states[j + 1], h, uid, rs, tr.scope, states[i].store);
  }

  lemma RealizedIn(a: System, e: Event, b: System, h: Href, uid: string, rs: ActiveRuleSet, scope: LabelMap, later: Store)
    requires MeansSpec(a, e, b, h, uid, rs)
    requires Semantics.StoredScope(b.store.labels, rs.body, scope) && Semantics.KeepsNames(b.store, later)
    ensures Provisions(a, e, b, h, uid, rs)
    ensures e.env.mode != Skip ==> Realizes(e, later, rs, scope)
  {
    hide Published, Semantics.Permits, Denotes, Semantics.StoredScope, Semantics.KeepsNames;
    forall c, p, w | e.env.mode != Skip
      ensures Semantics.Permits(later, rs, c, p, w) <==> Denotes(e.frontEnd, scope, c, p, w)
    {
      assert MeansInScope(e, b.store, rs, scope, later, c, p, w);
    }
  }

  /** The exact condition for a scope that is out of date: what a reconcile provisions in a ruleset with scope
      `stored` means in the namespace's present scope what the spec says, if and only if the two scopes give
      the spec's entries the same meaning. */
  lemma StaleScopeExactly(s: Store, t: Store, uid: string, f: FrontEnd, env: Input, h: Href, tr: Trace, stored: LabelMap)
    requires Valid(s) && Compiles(f) && env.mode != Skip && Published(s, t, uid, Filled(env, f), h, tr)
    requires Semantics.StoredScope(t.labels, tr.written.draft[h].body, stored)
    ensures h in t.active
    ensures (forall c, p, w :: Semantics.Permits(t, t.active[h], c, p, w) <==> Denotes(f, tr.scope, c, p, w))
      <==> Scopes.SameInBoth(Filled(env, f).narrow, Filled(env, f).allows, stored, tr.scope)
  {
    hide Semantics.Permits, Denotes, Published, Semantics.Meaning, Semantics.StoredScope, Scopes.SameInBoth;
    var inp := Filled(env, f);
    PublishedIsValid(s, t, uid, inp, h, tr);
    forall c, p, w
      ensures Semantics.Permits(t, t.active[h], c, p, w) <==> Semantics.Meaning(inp.narrow, inp.allows, stored, c, p, w)
      ensures Denotes(f, tr.scope, c, p, w) <==> Semantics.Meaning(inp.narrow, inp.allows, tr.scope, c, p, w)
    {
      ProvisionedMeansSpec(s, t, uid, f, env, h, tr, t, stored, c, p, w);
      SpecMeaning(f, env, stored, c, p, w);
      SpecMeaning(f, env, tr.scope, c, p, w);
    }
    SpecMeaning(f, env, stored, map[], map[], Semantics.Flow(0, 0));
    Scopes.ScopesAgreeExactly(inp.narrow, inp.allows, stored, tr.scope);
  }

  lemma PublishedIsValid(s: Store, t: Store, uid: string, inp: Input, h: Href, tr: Trace)
    requires Valid(s) && Published(s, t, uid, inp, h, tr)
    ensures Semantics.KeepsNames(t, t) && h in t.active
  {
    hide RuleSetStep, Lists, Resolves;
    BuiltPlace(inp, uid, tr, h);
  }
}
