/** Enforcement modes: strictest wins, and the result names who asked for it. */
module Enforcement {
  import opened Wrappers

  const IDLE := "idle"
  const VISIBILITY_ONLY := "visibility_only"
  const SELECTIVE := "selective"
  const FULL := "full"
  const ADMIN := "admin"

  datatype Request = Request(name: string, mode: string)

  datatype Effective = Effective(mode: string, setBy: string)

  /** A mode that is not in the table ranks with the empty mode. */
  function Rank(mode: string): nat {
    if mode == IDLE then 1
    else if mode == VISIBILITY_ONLY then 2
    else if mode == SELECTIVE then 3
    else if mode == FULL then 4
    else 0
  }

  predicate Documented(mode: string) {
    mode == "" || Rank(mode) > 0
  }

  /** The documented order, from mild to strict; any other mode is below all of them. */
  lemma DocumentedOrder(other: string)
    ensures Rank("idle") < Rank("visibility_only") < Rank("selective") < Rank("full")
    ensures other !in {"idle", "visibility_only", "selective", "full"} ==> Rank(other) < Rank("idle") && Rank(other) == Rank("")
    ensures Documented(other) <==> other in {"", "idle", "visibility_only", "selective", "full"}
  {
  }

  lemma RankDeterminesMode(m: string, n: string)
    requires Documented(m) && Documented(n) && Rank(m) == Rank(n)
    ensures m == n
  {
  }

  /** `m` is the first of the strictest modes, or empty when no mode ranks. */
  ghost predicate IsStrictest(modes: seq<string>, m: string) {
    && (forall i :: 0 <= i < |modes| ==> Rank(modes[i]) <= Rank(m))
    && (m == "" || (Rank(m) > 0 && m in modes))
  }

  method StrictestEnforcement(modes: seq<string>) returns (best: string)
    ensures IsStrictest(modes, best)
  {
    best := "";
    for i := 0 to |modes|
      invariant forall k :: 0 <= k < i ==> Rank(modes[k]) <= Rank(best)
      invariant best == "" || (Rank(best) > 0 && best in modes)
    {
      if Rank(modes[i]) > Rank(best) {
        best := modes[i];
      }
    }
  }

  ghost predicate Exceeds(requests: seq<Request>, i: int, baseline: string) {
    && 0 <= i < |requests|
    && Rank(requests[i].mode) > Rank(baseline)
    && (forall k :: 0 <= k < |requests| ==> Rank(requests[k].mode) <= Rank(requests[i].mode))
    && (forall k :: 0 <= k < i ==> Rank(requests[k].mode) < Rank(requests[i].mode))
  }

  /** The start stands while no request is stricter; otherwise the first of the strictest requests decides. */
  ghost predicate StrictestWins(start: Effective, requests: seq<Request>, e: Effective) {
    || (e == start && forall k :: 0 <= k < |requests| ==> Rank(requests[k].mode) <= Rank(start.mode))
    || exists i :: Exceeds(requests, i, start.mode) && e == Effective(requests[i].mode, requests[i].name)
  }

  /** What one request makes of a mode that is not in the table: the mode is lost. */
  function AfterUndocumented(q: Request): Effective {
    Effective(if Rank(q.mode) > 0 then q.mode else "", q.name)
  }

  /** The admin baseline after these requests.  A baseline outside the table stands only while there is no
      request at all; the first request, however mild, replaces it. */
  ghost predicate Raised(baseline: string, requests: seq<Request>, e: Effective) {
    if Documented(baseline) || requests == [] then StrictestWins(Effective(baseline, ADMIN), requests, e)
    else StrictestWins(AfterUndocumented(requests[0]), requests[1..], e)
  }

  lemma OneMoreRequest(start: Effective, requests: seq<Request>, e: Effective, r: Request, raised: string)
    requires Documented(start.mode) && StrictestWins(start, requests, e)
    requires IsStrictest([e.mode, r.mode], raised)
    ensures Documented(e.mode) && (raised == e.mode || raised == r.mode)
    ensures StrictestWins(start, requests + [r], if raised != e.mode then Effective(raised, r.name) else e)
  {
    var all := requests + [r];
    assert forall k :: 0 <= k < |requests| ==> all[k] == requests[k];
    assert all[|requests|] == r;
    assert Rank([e.mode, r.mode][0]) <= Rank(raised) && Rank([e.mode, r.mode][1]) <= Rank(raised);
    if raised != e.mode {
      assert Exceeds(all, |requests|, start.mode);
    } else if i :| Exceeds(requests, i, start.mode) && e == Effective(requests[i].mode, requests[i].name) {
      assert Exceeds(all, i, start.mode);
    }
  }

  lemma RaisedOnce(baseline: string, requests: seq<Request>, e: Effective, r: Request, raised: string)
    requires Raised(baseline, requests, e) && IsStrictest([e.mode, r.mode], raised)
    ensures Raised(baseline, requests + [r], if raised != e.mode then Effective(raised, r.name) else e)
  {
    if Documented(baseline) {
      OneMoreRequest(Effective(baseline, ADMIN), requests, e, r, raised);
    } else if requests == [] {
      assert (requests + [r])[1..] == [];
      assert Rank([e.mode, r.mode][1]) <= Rank(raised);
    } else {
      assert (requests + [r])[1..] == requests[1..] + [r];
      OneMoreRequest(AfterUndocumented(requests[0]), requests[1..], e, r, raised);
    }
  }

  /** The admin baseline raised by every policy CR of the namespace. */
  method EffectiveEnforcement(intents: Option<seq<Request>>, policies: Option<seq<Request>>, baseline: string)
    returns (r: Option<Effective>)
    ensures r.Some? <==> intents.Some? && policies.Some?
    ensures r.Some? ==> Raised(baseline, intents.value + policies.value, r.value)
  {
    if intents.None? {
      return None;
    }
    var e := Effective(baseline, ADMIN);
    e := RaiseAll(e, [], intents.value, baseline);
    if policies.None? {
      return None;
    }
    assert [] + intents.value == intents.value;
    e := RaiseAll(e, intents.value, policies.value, baseline);
    return Some(e);
  }

  method RaiseAll(start: Effective, ghost done: seq<Request>, more: seq<Request>, ghost baseline: string)
    returns (e: Effective)
    requires Raised(baseline, done, start)
    ensures Raised(baseline, done + more, e)
  {
    e := start;
    assert done + more[..0] == done;
    for i := 0 to |more|
      invariant Raised(baseline, done + more[..i], e)
    {
      var raised := StrictestEnforcement([e.mode, more[i].mode]);
      assert done + more[..i + 1] == (done + more[..i]) + [more[i]];
      RaisedOnce(baseline, done + more[..i], e, more[i], raised);
      if raised != e.mode {
        e := Effective(raised, more[i].name);
      }
    }
    assert more[..|more|] == more;
  }

  lemma StrictestWinsUnordered(start: Effective, requests: seq<Request>, other: seq<Request>, e: Effective, f: Effective)
    requires Documented(start.mode) && multiset(requests) == multiset(other)
    requires StrictestWins(start, requests, e) && StrictestWins(start, other, f)
    ensures e.mode == f.mode
  {
    forall q: Request ensures q in requests <==> q in other {
      assert q in requests <==> q in multiset(requests);
      assert q in other <==> q in multiset(other);
    }
    assert forall k :: 0 <= k < |requests| ==> requests[k] in other;
    assert forall k :: 0 <= k < |other| ==> other[k] in requests;
    RankDeterminesMode(e.mode, f.mode);
  }

  /** Listing the CRs in another order does not change the mode of a documented baseline. */
  lemma RaisedUnordered(baseline: string, requests: seq<Request>, other: seq<Request>, e: Effective, f: Effective)
    requires Documented(baseline) && multiset(requests) == multiset(other)
    requires Raised(baseline, requests, e) && Raised(baseline, other, f)
    ensures e.mode == f.mode
    ensures Rank(e.mode) >= Rank(baseline) && forall q :: q in requests ==> Rank(q.mode) <= Rank(e.mode)
  {
    StrictestWinsUnordered(Effective(baseline, ADMIN), requests, other, e, f);
  }

  /** Who set the mode of a documented baseline: the admin, unless some request is stricter; then the first of
      the strictest requests, which also gives the mode. */
  lemma SetByExactly(baseline: string, requests: seq<Request>, e: Effective)
    requires baseline in {"", "idle", "visibility_only", "selective", "full"} && Raised(baseline, requests, e)
    ensures (forall k :: 0 <= k < |requests| ==> Rank(requests[k].mode) <= Rank(baseline)) ==>
      e == Effective(baseline, "admin")
    ensures (exists k :: 0 <= k < |requests| && Rank(requests[k].mode) > Rank(baseline)) ==>
      exists i :: 0 <= i < |requests| && e == Effective(requests[i].mode, requests[i].name)
        && (forall k :: 0 <= k < |requests| ==> Rank(requests[k].mode) <= Rank(requests[i].mode))
        && (forall k :: 0 <= k < i ==> Rank(requests[k].mode) < Rank(requests[i].mode))
  {
  }

  /** The result is a function of the inputs, for every baseline. */
  lemma RaisedUnique(baseline: string, requests: seq<Request>, e: Effective, f: Effective)
    requires Raised(baseline, requests, e) && Raised(baseline, requests, f)
    ensures e == f
  {
    var start := if Documented(baseline) || requests == [] then Effective(baseline, ADMIN) else AfterUndocumented(requests[0]);
    var rest := if Documented(baseline) || requests == [] then requests else requests[1..];
    if e != start && f != start {
      var i :| Exceeds(rest, i, start.mode) && e == Effective(rest[i].mode, rest[i].name);
      var j :| Exceeds(rest, j, start.mode) && f == Effective(rest[j].mode, rest[j].name);
      assert !(i < j) && !(j < i);
    }
  }

  /** With at least one request that asks for no more than the baseline, the admin's baseline stands
      exactly when it is a documented mode. */
  lemma BaselineStandsIffDocumented(baseline: string, requests: seq<Request>, e: Effective)
    requires requests != [] && Raised(baseline, requests, e)
    requires forall k :: 0 <= k < |requests| ==> Rank(requests[k].mode) <= Rank(baseline)
    ensures e.mode == baseline <==> Documented(baseline)
  {
  }
}
