/**
 * What the scope contributes to the meaning of a ruleset.  An existing ruleset
 * keeps the scope it was created with; this module says exactly when that scope
 * and the namespace's present one give the same entries the same meaning.
 */
module Scopes {
  import opened Wrappers
  import opened Pce
  import opened PolicyIR
  import opened Resolution
  import opened Semantics

  predicate Compatible(m: LabelMap, n: LabelMap) {
    forall k :: k in m && k in n ==> m[k] == n[k]
  }

  /** The labels an entry asks of its consumers, the scope aside. */
  function Asked(a: CompiledAllow): LabelMap {
    if a.allWorkloads then map[] else a.from
  }

  predicate ConsumerAdmitted(a: CompiledAllow, scope: LabelMap, c: Workload) {
    Has(c, Asked(a)) && (a.intraScope ==> Has(c, scope))
  }

  /** Some workload can be the consumer of this entry. */
  predicate Satisfiable(a: CompiledAllow, scope: LabelMap) {
    a.intraScope ==> Compatible(Asked(a), scope)
  }

  /** The consumer with the fewest labels. */
  function Least(a: CompiledAllow, scope: LabelMap): Workload {
    if a.intraScope then Asked(a) + scope else Asked(a)
  }

  /** Nothing at all is permitted: no workload can be the provider, or none the consumer of any entry. */
  predicate Void(narrow: LabelMap, allows: seq<CompiledAllow>, scope: LabelMap) {
    !Compatible(narrow, scope) || forall i :: 0 <= i < |allows| ==> !Satisfiable(allows[i], scope)
  }

  predicate Serves(a: CompiledAllow, port: IngressService) {
    a.ports == [] || port in a.ports
  }

  /** On every port of this entry, its least consumer is admitted by some entry in the other scope. */
  predicate EntryCovered(a: CompiledAllow, scope: LabelMap, allows: seq<CompiledAllow>, other: LabelMap) {
    if a.ports == [] then
      exists j :: 0 <= j < |allows| && allows[j].ports == [] && ConsumerAdmitted(allows[j], other, Least(a, scope))
    else
      forall q :: q in a.ports ==> PortCovered(q, Least(a, scope), allows, other)
  }

  predicate PortCovered(q: IngressService, c: Workload, allows: seq<CompiledAllow>, scope: LabelMap) {
    exists j :: 0 <= j < |allows| && Serves(allows[j], q) && ConsumerAdmitted(allows[j], scope, c)
  }

  predicate Covered(allows: seq<CompiledAllow>, scope: LabelMap, other: LabelMap) {
    forall i :: 0 <= i < |allows| && Satisfiable(allows[i], scope) ==> EntryCovered(allows[i], scope, allows, other)
  }

  /** Both scopes permit nothing, or they fix the same providers and each covers the other's consumers. */
  predicate SameInBoth(narrow: LabelMap, allows: seq<CompiledAllow>, scope: LabelMap, other: LabelMap) {
    if Void(narrow, allows, scope) || Void(narrow, allows, other) then
      Void(narrow, allows, scope) && Void(narrow, allows, other)
    else
      && narrow + scope == narrow + other
      && Covered(allows, scope, other) && Covered(allows, other, scope)
  }

  // ----- Consumers -----

  lemma AdmittedIffServed(a: CompiledAllow, scope: LabelMap, c: Workload, f: Flow)
    ensures AllowAdmits(a, scope, c, f) <==> ConsumerAdmitted(a, scope, c) && Serves(a, Inline(f.proto, f.port))
  {
  }

  lemma LeastIsAdmitted(a: CompiledAllow, scope: LabelMap)
    requires Satisfiable(a, scope)
    ensures ConsumerAdmitted(a, scope, Least(a, scope))
  {
  }

  /** Who admits the least consumer of an entry admits all of them. */
  lemma LeastDecides(a: CompiledAllow, scope: LabelMap, b: CompiledAllow, other: LabelMap, c: Workload)
    requires ConsumerAdmitted(b, other, Least(a, scope)) && ConsumerAdmitted(a, scope, c)
    ensures ConsumerAdmitted(b, other, c)
  {
    assert Has(c, Least(a, scope));
  }

  /** A port that no entry lists. */
  lemma UnlistedFlow(allows: seq<CompiledAllow>) returns (f: Flow)
    ensures forall i :: 0 <= i < |allows| ==> Inline(f.proto, f.port) !in allows[i].ports
  {
    var listed := set i, j | 0 <= i < |allows| && 0 <= j < |allows[i].ports| && allows[i].ports[j].Inline? ::
      allows[i].ports[j].port;
    var n := Above(listed);
    f := Flow(PROTO_TCP, n);
    forall i | 0 <= i < |allows| ensures Inline(f.proto, f.port) !in allows[i].ports {
      assert forall j :: 0 <= j < |allows[i].ports| && allows[i].ports[j].Inline? ==> allows[i].ports[j].port in listed;
    }
  }

  lemma {:induction false} Above(s: set<int>) returns (n: int)
    ensures forall x :: x in s ==> x < n
  {
    n := 0;
    if y :| y in s {
      var m := Above(s - {y});
      n := if y < m then m else y + 1;
      forall x | x in s ensures x < n {
        assert x == y || x in s - {y};
      }
    }
  }

  lemma CoveredAdmits(allows: seq<CompiledAllow>, scope: LabelMap, other: LabelMap, c: Workload, f: Flow)
    requires Covered(allows, scope, other) && AllowsAdmit(allows, scope, c, f)
    ensures AllowsAdmit(allows, other, c, f)
  {
    var i :| 0 <= i < |allows| && AllowAdmits(allows[i], scope, c, f);
    var a, q := allows[i], Inline(f.proto, f.port);
    AdmittedIffServed(a, scope, c, f);
    assert EntryCovered(a, scope, allows, other);
    assert a.ports != [] ==> PortCovered(q, Least(a, scope), allows, other);
    var j :| 0 <= j < |allows| && Serves(allows[j], q) && ConsumerAdmitted(allows[j], other, Least(a, scope));
    LeastDecides(a, scope, allows[j], other, c);
    AdmittedIffServed(allows[j], other, c, f);
  }

  lemma AdmitsCovers(allows: seq<CompiledAllow>, scope: LabelMap, other: LabelMap)
    requires InlinePorts(allows)
    requires forall c, f :: AllowsAdmit(allows, scope, c, f) ==> AllowsAdmit(allows, other, c, f)
    ensures Covered(allows, scope, other)
  {
    forall i | 0 <= i < |allows| && Satisfiable(allows[i], scope) ensures EntryCovered(allows[i], scope, allows, other) {
      var a := allows[i];
      var c := Least(a, scope);
      LeastIsAdmitted(a, scope);
      if a.ports == [] {
        var f := UnlistedFlow(allows);
        var j := AdmittingEntry(allows, i, scope, other, c, f);
        assert allows[j].ports == [];
      } else {
        forall q | q in a.ports ensures PortCovered(q, c, allows, other) {
          var k :| 0 <= k < |a.ports| && a.ports[k] == q;
          assert allows[i].ports[k].Inline?;
          var j := AdmittingEntry(allows, i, scope, other, c, Flow(q.proto, q.port));
        }
      }
    }
  }

  lemma AdmittingEntry(allows: seq<CompiledAllow>, i: nat, scope: LabelMap, other: LabelMap, c: Workload, f: Flow)
    returns (j: nat)
    requires forall c, f :: AllowsAdmit(allows, scope, c, f) ==> AllowsAdmit(allows, other, c, f)
    requires i < |allows| && ConsumerAdmitted(allows[i], scope, c) && Serves(allows[i], Inline(f.proto, f.port))
    ensures j < |allows| && ConsumerAdmitted(allows[j], other, c) && Serves(allows[j], Inline(f.proto, f.port))
  {
    AdmittedIffServed(allows[i], scope, c, f);
    assert AllowsAdmit(allows, scope, c, f);
    j :| 0 <= j < |allows| && AllowAdmits(allows[j], other, c, f);
    AdmittedIffServed(allows[j], other, c, f);
  }

  // ----- The meaning as a whole -----

  lemma HasBoth(p: Workload, narrow: LabelMap, scope: LabelMap)
    requires Compatible(narrow, scope)
    ensures Has(p, scope) && Has(p, narrow) <==> Has(p, narrow + scope)
  {
  }

  /** A scope that is not void permits something: the least provider is reached by somebody. */
  lemma SomethingPermitted(narrow: LabelMap, allows: seq<CompiledAllow>, scope: LabelMap) returns (c: Workload, f: Flow)
    requires InlinePorts(allows) && !Void(narrow, allows, scope)
    ensures AllowsAdmit(allows, scope, c, f) && Meaning(narrow, allows, scope, c, narrow + scope, f)
  {
    var i :| 0 <= i < |allows| && Satisfiable(allows[i], scope);
    c := Least(allows[i], scope);
    LeastIsAdmitted(allows[i], scope);
    f := if allows[i].ports == [] then Flow(0, 0) else Flow(allows[i].ports[0].proto, allows[i].ports[0].port);
    AdmittedIffServed(allows[i], scope, c, f);
    HasBoth(narrow + scope, narrow, scope);
  }

  lemma NothingPermitted(narrow: LabelMap, allows: seq<CompiledAllow>, scope: LabelMap, c: Workload, p: Workload, f: Flow)
    requires Void(narrow, allows, scope)
    ensures !Meaning(narrow, allows, scope, c, p, f)
  {
    if Meaning(narrow, allows, scope, c, p, f) {
      var i :| 0 <= i < |allows| && AllowAdmits(allows[i], scope, c, f);
      AdmittedIffServed(allows[i], scope, c, f);
      assert Satisfiable(allows[i], scope);
    }
  }

  /** What two scopes with the same meaning have in common, one way. */
  lemma MeaningFixesProviders(narrow: LabelMap, allows: seq<CompiledAllow>, scope: LabelMap, other: LabelMap)
    requires InlinePorts(allows) && !Void(narrow, allows, scope) && Compatible(narrow, other)
    requires forall c, p, f :: Meaning(narrow, allows, scope, c, p, f) ==> Meaning(narrow, allows, other, c, p, f)
    ensures Has(narrow + scope, narrow + other) && Covered(allows, scope, other)
  {
    var c, f := SomethingPermitted(narrow, allows, scope);
    assert Meaning(narrow, allows, other, c, narrow + scope, f);
    HasBoth(narrow + scope, narrow, other);
    HasBoth(narrow + scope, narrow, scope);
    forall c, f | AllowsAdmit(allows, scope, c, f) ensures AllowsAdmit(allows, other, c, f) {
      assert Meaning(narrow, allows, scope, c, narrow + scope, f);
    }
    AdmitsCovers(allows, scope, other);
  }

  /** The exact condition, for every policy: two scopes give it the same meaning if and only if SameInBoth. */
  lemma ScopesAgreeExactly(narrow: LabelMap, allows: seq<CompiledAllow>, scope: LabelMap, other: LabelMap)
    requires InlinePorts(allows)
    ensures (forall c, p, f :: Meaning(narrow, allows, scope, c, p, f) <==> Meaning(narrow, allows, other, c, p, f))
      <==> SameInBoth(narrow, allows, scope, other)
  {
    hide Meaning, Covered, Satisfiable;
    if SameInBoth(narrow, allows, scope, other) {
      forall c, p, f ensures Meaning(narrow, allows, scope, c, p, f) <==> Meaning(narrow, allows, other, c, p, f) {
        SameImpliesAgree(narrow, allows, scope, other, c, p, f);
      }
    } else if forall c, p, f :: Meaning(narrow, allows, scope, c, p, f) <==> Meaning(narrow, allows, other, c, p, f) {
      AgreeImpliesSame(narrow, allows, scope, other);
    }
  }

  lemma SameImpliesAgree(narrow: LabelMap, allows: seq<CompiledAllow>, scope: LabelMap, other: LabelMap,
                         c: Workload, p: Workload, f: Flow)
    requires SameInBoth(narrow, allows, scope, other)
    ensures Meaning(narrow, allows, scope, c, p, f) <==> Meaning(narrow, allows, other, c, p, f)
  {
    hide Covered, AllowsAdmit, Satisfiable;
    if Void(narrow, allows, scope) {
      NothingPermitted(narrow, allows, scope, c, p, f);
      NothingPermitted(narrow, allows, other, c, p, f);
    } else {
      HasBoth(p, narrow, scope);
      HasBoth(p, narrow, other);
      if AllowsAdmit(allows, scope, c, f) {
        CoveredAdmits(allows, scope, other, c, f);
      }
      if AllowsAdmit(allows, other, c, f) {
        CoveredAdmits(allows, other, scope, c, f);
      }
    }
  }

  lemma AgreeImpliesSame(narrow: LabelMap, allows: seq<CompiledAllow>, scope: LabelMap, other: LabelMap)
    requires InlinePorts(allows)
    requires forall c, p, f :: Meaning(narrow, allows, scope, c, p, f) <==> Meaning(narrow, allows, other, c, p, f)
    ensures SameInBoth(narrow, allows, scope, other)
  {
    hide Covered, Meaning, Satisfiable;
    if Void(narrow, allows, scope) {
      if !Void(narrow, allows, other) {
        var c, f := SomethingPermitted(narrow, allows, other);
        NothingPermitted(narrow, allows, scope, c, narrow + other, f);
      }
    } else if Void(narrow, allows, other) {
      var c, f := SomethingPermitted(narrow, allows, scope);
      NothingPermitted(narrow, allows, other, c, narrow + scope, f);
    } else {
      MeaningFixesProviders(narrow, allows, scope, other);
      MeaningFixesProviders(narrow, allows, other, scope);
    }
  }

  /** Without narrowing, every change of scope shows, as long as the old scope permits anything. */
  lemma UnnarrowedScopeShows(allows: seq<CompiledAllow>, scope: LabelMap, other: LabelMap)
    requires InlinePorts(allows) && !Void(map[], allows, scope)
    ensures (forall c, p, f :: Meaning(map[], allows, scope, c, p, f) <==> Meaning(map[], allows, other, c, p, f))
      <==> scope == other
  {
    hide Meaning;
    if scope != other {
      ScopesAgreeExactly(map[], allows, scope, other);
      assert map[] + scope == scope && map[] + other == other;
    }
  }
}
