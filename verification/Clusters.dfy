/**
 * Finding the ClusterProfile that a policy CR is reconciled with: the first
 * onboarded one that manages the CR's namespace and whose PCE can be used.
 */
module Clusters {
  import opened Wrappers
  import opened CwpMatch

  /** A read from the Kubernetes API. */
  datatype Read<T> = ReadFailed | Absent | There(value: T)

  datatype Profile = Profile(
    provisioningMode: string,
    scopeKeys: seq<string>,
    namespaceRules: seq<NamespaceRule>,
    systemNamespaces: SystemNamespaces,
    dataSet: string)

  datatype Credentials = Credentials(apiKey: string, apiSecret: string)

  datatype Connection = Connection(connected: bool, credentials: Read<Credentials>, dataSet: string)

  datatype ClusterProfile = ClusterProfile(onboarded: bool, spec: Profile, connection: Read<Connection>)

  /** What looking for a usable ClusterProfile came to. */
  datatype ClusterLookup = ClusterUnavailable | NotReady | Ready(profile: Profile)

  const DEFAULT_DATA_SET := "illumio-operator"

  ghost predicate Manages(glob: Glob, ns: Namespace, cp: ClusterProfile) {
    exists d :: IsDesired(glob, ns, cp.spec.namespaceRules, cp.spec.systemNamespaces, d) && d.managed
  }

  ghost predicate Considered(glob: Glob, ns: Namespace, cp: ClusterProfile) {
    cp.onboarded && Manages(glob, ns, cp)
  }

  predicate Reachable(cp: ClusterProfile) {
    && cp.connection.There? && cp.connection.value.connected && cp.connection.value.credentials.There?
    && cp.connection.value.credentials.value.apiKey != "" && cp.connection.value.credentials.value.apiSecret != ""
  }

  predicate Unreadable(cp: ClusterProfile) {
    || cp.connection.ReadFailed?
    || (cp.connection.There? && cp.connection.value.connected && cp.connection.value.credentials.ReadFailed?)
  }

  ghost predicate Usable(glob: Glob, ns: Namespace, cp: ClusterProfile) {
    Considered(glob, ns, cp) && Reachable(cp)
  }

  ghost predicate PassedOver(glob: Glob, ns: Namespace, cp: ClusterProfile) {
    Considered(glob, ns, cp) ==> !Reachable(cp) && !Unreadable(cp)
  }

  ghost predicate Decides(glob: Glob, ns: Namespace, cps: seq<ClusterProfile>, i: int) {
    0 <= i < |cps| && !PassedOver(glob, ns, cps[i]) && forall k :: 0 <= k < i ==> PassedOver(glob, ns, cps[k])
  }

  /** The profile that a reconcile uses, with the data set of its connection. */
  function ProfileOf(cp: ClusterProfile): Profile
    requires cp.connection.There?
  {
    cp.spec.(dataSet := if cp.connection.value.dataSet == "" then DEFAULT_DATA_SET else cp.connection.value.dataSet)
  }

  ghost predicate IsLookup(glob: Glob, ns: Read<Namespace>, cps: Option<seq<ClusterProfile>>, r: ClusterLookup) {
    match r
    case ClusterUnavailable =>
      || ns.ReadFailed?
      || (ns.There? && cps.None?)
      || (ns.There? && cps.Some? && exists i :: Decides(glob, ns.value, cps.value, i) && Unreadable(cps.value[i]))
    case NotReady =>
      ns.Absent? || (ns.There? && cps.Some? && forall i :: 0 <= i < |cps.value| ==> PassedOver(glob, ns.value, cps.value[i]))
    case Ready(p) =>
      && ns.There? && cps.Some?
      && exists i :: Decides(glob, ns.value, cps.value, i) && Reachable(cps.value[i]) && p == ProfileOf(cps.value[i])
  }

  method ResolveClusterProfile(glob: Glob, ns: Read<Namespace>, cps: Option<seq<ClusterProfile>>) returns (r: ClusterLookup)
    ensures IsLookup(glob, ns, cps, r)
  {
    if !ns.There? {
      return if ns.Absent? then NotReady else ClusterUnavailable;
    }
    if cps.None? {
      return ClusterUnavailable;
    }
    for i := 0 to |cps.value|
      invariant forall k :: 0 <= k < i ==> PassedOver(glob, ns.value, cps.value[k])
    {
      var cp := cps.value[i];
      if !cp.onboarded {
        continue;
      }
      var desired := ComputeDesiredCwp(glob, ns.value, cp.spec.namespaceRules, cp.spec.systemNamespaces);
      ManagesIffDesired(glob, ns.value, cp, desired);
      if !desired.managed {
        continue;
      }
      if cp.connection.Absent? {
        continue;
      }
      if cp.connection.ReadFailed? {
        assert Decides(glob, ns.value, cps.value, i);
        return ClusterUnavailable;
      }
      var conn := cp.connection.value;
      if !conn.connected || conn.credentials.Absent? {
        continue;
      }
      if conn.credentials.ReadFailed? {
        assert Decides(glob, ns.value, cps.value, i);
        return ClusterUnavailable;
      }
      if conn.credentials.value.apiKey == "" || conn.credentials.value.apiSecret == "" {
        continue;
      }
      assert Decides(glob, ns.value, cps.value, i);
      var eds := conn.dataSet;
      if eds == "" {
        eds := DEFAULT_DATA_SET;
      }
      return Ready(cp.spec.(dataSet := eds));
    }
    return NotReady;
  }

  lemma ManagesIffDesired(glob: Glob, ns: Namespace, cp: ClusterProfile, d: DesiredCwp)
    requires IsDesired(glob, ns, cp.spec.namespaceRules, cp.spec.systemNamespaces, d)
    ensures Manages(glob, ns, cp) <==> d.managed
  {
    if e :| IsDesired(glob, ns, cp.spec.namespaceRules, cp.spec.systemNamespaces, e) && e.managed {
      DesiredIsUnique(glob, ns, cp.spec.namespaceRules, cp.spec.systemNamespaces, d, e);
    }
  }

  /** A profile can be used when it is onboarded, manages the namespace, and its connection is up with both
      parts of its credentials. */
  lemma UsableMeans(glob: Glob, ns: Namespace, cp: ClusterProfile, d: DesiredCwp)
    requires IsDesired(glob, ns, cp.spec.namespaceRules, cp.spec.systemNamespaces, d)
    ensures Usable(glob, ns, cp) <==>
      && cp.onboarded && d.managed && cp.connection.There? && cp.connection.value.connected
      && cp.connection.value.credentials.There?
      && cp.connection.value.credentials.value.apiKey != "" && cp.connection.value.credentials.value.apiSecret != ""
  {
    ManagesIffDesired(glob, ns, cp, d);
  }

  /** A ready profile is the first usable one, under the data set of its connection or the default one. */
  lemma ReadyMeans(glob: Glob, ns: Read<Namespace>, cps: Option<seq<ClusterProfile>>, p: Profile)
    requires IsLookup(glob, ns, cps, Ready(p))
    ensures ns.There? && cps.Some?
    ensures exists i ::
      && 0 <= i < |cps.value| && Usable(glob, ns.value, cps.value[i])
      && (forall k :: 0 <= k < i ==> !Usable(glob, ns.value, cps.value[k]))
      && var conn := cps.value[i].connection.value;
         p == cps.value[i].spec.(dataSet := if conn.dataSet != "" then conn.dataSet else "illumio-operator")
  {
    hide Manages;
    var i :| Decides(glob, ns.value, cps.value, i) && Reachable(cps.value[i]) && p == ProfileOf(cps.value[i]);
    assert Usable(glob, ns.value, cps.value[i]);
  }

  /** Unless a read fails, no profile is ready exactly when the namespace is gone, or no onboarded profile that
      manages it has a PCE that can be used. */
  lemma NotReadyExactly(glob: Glob, ns: Read<Namespace>, cps: Option<seq<ClusterProfile>>, r: ClusterLookup)
    requires IsLookup(glob, ns, cps, r) && r != ClusterUnavailable
    ensures r == NotReady <==>
      ns.Absent? || (ns.There? && cps.Some? && forall i :: 0 <= i < |cps.value| ==> !Usable(glob, ns.value, cps.value[i]))
  {
    hide Manages;
    if ns.There? && cps.Some? {
      assert forall i :: 0 <= i < |cps.value| ==>
        (Usable(glob, ns.value, cps.value[i]) ==> !PassedOver(glob, ns.value, cps.value[i]));
    }
  }
}
