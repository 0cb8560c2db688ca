/**
 * The two policy controllers.  They differ in the front end only: both add the
 * finalizer before they touch the PCE, and remove it after the ruleset is gone.
 */
module Controller {
  import opened Wrappers
  import opened Pce
  import opened PolicyIR
  import opened Clusters
  import opened Backend

  /** A CR that is gone is remembered; `orphaned` says that its finalization gave up because no
      ClusterProfile was ready. */
  datatype Phase = Live | Deleting | Gone(orphaned: bool)

  datatype CrState = CrState(phase: Phase, finalizer: bool)

  datatype FrontEnd = Intent(intent: IntentSpec) | Policy(policy: PolicySpec)

  /** A policy CR in the Kubernetes API; an update may fail before or after it takes effect. */
  class CustomResource {
    var state: CrState
    var faults: nat

    constructor (s: CrState)
      ensures state == s && faults == 0
    {
      state, faults := s, 0;
    }

    method AddFinalizer() returns (ok: bool)
      modifies this
      ensures faults == old(faults) + (if ok then 0 else 1)
      ensures state == old(state).(finalizer := true) || (!ok && state == old(state))
    {
      if * {
        faults := faults + 1;
        return false;
      }
      state := state.(finalizer := true);
      if * {
        faults := faults + 1;
        return false;
      }
      ok := true;
    }

    /** Kubernetes drops an object that is being deleted when its last finalizer goes. */
    method RemoveFinalizer(orphaned: bool) returns (ok: bool)
      modifies this
      ensures faults == old(faults) + (if ok then 0 else 1)
      ensures state == CrState(Gone(orphaned), false) || (!ok && state == old(state))
    {
      if * {
        faults := faults + 1;
        return false;
      }
      state := CrState(Gone(orphaned), false);
      if * {
        faults := faults + 1;
        return false;
      }
      ok := true;
    }
  }

  predicate Compiles(f: FrontEnd) {
    match f
    case Intent(spec) => IntentCompiles(spec)
    case Policy(spec) => PolicyCompiles(spec)
  }

  /** The backend's input: what was read from the cluster, and the narrowing and entries of the spec. */
  function Filled(env: Input, f: FrontEnd): Input
    requires Compiles(f)
  {
    match f
    case Intent(spec) => env.(narrow := spec.provider, allows := IntentAllows(spec))
    case Policy(spec) => env.(narrow := spec.podSelector.matchLabels, allows := RulesAllows(spec.ingress))
  }

  method CompileFrontEnd(env: Input, f: FrontEnd) returns (r: Option<Input>)
    ensures r == if Compiles(f) then Some(Filled(env, f)) else None
  {
    match f
    case Intent(spec) =>
      var compiled := CompileIntent(spec);
      r := if compiled.Ok? then Some(env.(narrow := spec.provider, allows := compiled.value)) else None;
    case Policy(spec) =>
      var compiled := CompilePolicy(spec);
      r := if compiled.Ok? then Some(env.(narrow := spec.podSelector.matchLabels, allows := compiled.value)) else None;
  }

  ghost predicate BackendRan(s: Store, t: Store, uid: string, f: FrontEnd, env: Input) {
    Compiles(f) && exists tr, o :: BackendTrace(s, t, uid, Filled(env, f), tr, o)
  }

  /** The backend came to an outcome other than to try again. */
  ghost predicate BackendAnswered(s: Store, t: Store, uid: string, f: FrontEnd, env: Input) {
    Compiles(f) && exists tr, o :: BackendTrace(s, t, uid, Filled(env, f), tr, o) && o != Transient
  }

  /** What one reconcile does to the CR and to the PCE, wherever it stops. */
  ghost predicate ControllerStep(c: CrState, s: Store, d: CrState, t: Store, uid: string, f: FrontEnd, env: Input) {
    match c.phase
    case Gone(_) => d == c && t == s
    case Deleting =>
      if !c.finalizer then d == c && t == s
      else exists ok :: FinalizeStep(s, t, uid, env.cluster, ok)
             && (d == c || (ok && d == CrState(Gone(env.cluster == NotReady), false)))
    case Live =>
      || (t == s && (d == c || d == c.(finalizer := true)))
      || (d == c.(finalizer := true) && BackendRan(s, t, uid, f, env))
  }

  method Reconcile(cr: CustomResource, pce: Client, uid: string, f: FrontEnd, env: Input) returns (ok: bool)
    requires ValidLabels(pce.store.labels)
    modifies cr, pce
    ensures ControllerStep(old(cr.state), old(pce.store), cr.state, pce.store, uid, f, env)
    ensures pce.faults >= old(pce.faults) && cr.faults >= old(cr.faults)
    ensures pce.faults > old(pce.faults) || cr.faults > old(cr.faults) ==> !ok
    ensures !ok ==>
      || pce.faults > old(pce.faults) || cr.faults > old(cr.faults)
      || env.cluster == ClusterUnavailable || env.namespace == NamespaceUnavailable
      || "All Services" !in old(pce.store).services
    // Undisturbed, a reconcile of a deleted CR ends its life and one of a live CR leaves the finalizer on.
    ensures old(cr.state) == CrState(Deleting, true) && env.cluster != ClusterUnavailable ==>
      pce.faults == old(pce.faults) && cr.faults == old(cr.faults) ==> cr.state == CrState(Gone(env.cluster == NotReady), false)
    ensures old(cr.state).phase == Live && cr.faults == old(cr.faults) ==> cr.state == CrState(Live, true)
    ensures old(cr.state).phase == Live && cr.faults == old(cr.faults) ==>
      if Compiles(f) then BackendRan(old(pce.store), pce.store, uid, f, env) else pce.store == old(pce.store)
    // A reconcile that answers ok has finished: a live CR's policy was compiled or is rejected for a reason.
    ensures ok && old(cr.state).phase == Live && Compiles(f) ==> BackendAnswered(old(pce.store), pce.store, uid, f, env)
    ensures ok && old(cr.state) == CrState(Deleting, true) ==> cr.state.phase.Gone?
  {
    if cr.state.phase.Gone? {
      return true;
    }
    if cr.state.phase == Deleting {
      if cr.state.finalizer {
        ok := FinalizePolicy(pce, uid, env.cluster);
        if !ok {
          return false;
        }
        ok := cr.RemoveFinalizer(env.cluster == NotReady);
        return;
      }
      return true;
    }
    if !cr.state.finalizer {
      ok := cr.AddFinalizer();
      if !ok {
        return false;
      }
    }
    var inp := CompileFrontEnd(env, f);
    if inp.None? {
      return true;
    }
    var o;
    ghost var tr;
    ghost var s := pce.store;
    o, tr := ReconcilePolicy(pce, uid, inp.value);
    assert BackendTrace(s, pce.store, uid, Filled(env, f), tr, o);
    assert BackendRan(s, pce.store, uid, f, env);
    return o != Transient;
  }
}
