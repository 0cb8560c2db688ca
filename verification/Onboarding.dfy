/**
 * Onboarding in create mode.  The PCE hands out a cluster's token once, in the
 * reply that creates the cluster, so the order of the writes that follow decides
 * whether the token survives an operator that stops between any two of them.
 */
module Onboarding {
  import opened Wrappers
  import opened Pce

  /** The PCE's own record of a cluster; the token is never listed again. */
  datatype ContainerCluster = ContainerCluster(href: Href, name: string, token: string)

  datatype Mode = CreateMode | AdoptMode

  datatype Spec = Spec(mode: Mode, clusterName: string, outputSecret: string)

  /** The PCE's clusters and the pairing keys it has issued, the output Secret, the recorded status, and how many
      clusters the operator created. */
  datatype World = World(
    clusters: seq<ContainerCluster>,
    codes: seq<string>,
    secret: Option<map<string, string>>,
    href: Href,
    clusterId: string,
    creations: nat)

  /** The last segment of an href. */
  function ClusterUuid(href: Href): string {
    if '/' !in href then href else ClusterUuid(href[1..])
  }

  /** It is what follows the last '/', or the whole href. */
  lemma {:induction false} ClusterUuidIsLastSegment(front: string, id: string)
    requires '/' !in id
    ensures ClusterUuid(id) == id && ClusterUuid(front + "/" + id) == id
  {
    var href := front + "/" + id;
    if front == "" {
      assert href[0] == '/' && href[1..] == id;
    } else {
      assert href[|front|] == '/' && href[1..] == front[1..] + "/" + id;
      ClusterUuidIsLastSegment(front[1..], id);
    }
  }

  predicate Named(w: World, name: string) {
    exists i :: 0 <= i < |w.clusters| && w.clusters[i].name == name
  }

  // ----- Effects of the single calls -----

  function ClusterCreated(w: World, c: ContainerCluster): World {
    w.(clusters := w.clusters + [c], creations := w.creations + 1)
  }

  function KeyIssued(w: World, code: string): World {
    w.(codes := w.codes + [code])
  }

  function SecretData(data: map<string, string>, url: string, id: string, token: string, code: string): map<string, string> {
    var base := data["pce_url" := url]["cluster_id" := id];
    var withToken := if token != "" then base["cluster_token" := token] else base;
    if code != "" then withToken["cluster_code" := code] else withToken
  }

  function SecretWritten(w: World, url: string, id: string, token: string, code: string): World {
    w.(secret := Some(SecretData(if w.secret.Some? then w.secret.value else map[], url, id, token, code)))
  }

  function Recorded(w: World, href: Href, id: string): World {
    w.(href := href, clusterId := id)
  }

  class Environment {
    var world: World
    var faults: nat

    constructor (w: World)
      ensures world == w && faults == 0
    {
      world, faults := w, 0;
    }

    method FindContainerClusterByName(name: string) returns (ok: bool, found: Option<ContainerCluster>)
      modifies `faults
      ensures faults == old(faults) + (if ok then 0 else 1)
      ensures ok && found.None? ==> !Named(world, name)
      ensures ok && found.Some? ==> found.value in world.clusters && found.value.name == name
    {
      found := None;
      if * {
        faults := faults + 1;
        return false, None;
      }
      for i := 0 to |world.clusters|
        invariant forall k :: 0 <= k < i ==> world.clusters[k].name != name
      {
        if world.clusters[i].name == name {
          return true, Some(world.clusters[i]);
        }
      }
      ok := true;
    }

    /** The reply carries the token; it may be lost after the cluster was created. */
    method CreateContainerCluster(name: string) returns (r: Option<ContainerCluster>, ghost made: ContainerCluster)
      modifies this
      ensures faults == old(faults) + (if r.Some? then 0 else 1)
      ensures world == old(world) || world == ClusterCreated(old(world), made)
      ensures made.name == name && made.href != "" && made.token != ""
      ensures forall c :: c in old(world).clusters ==> c.href != made.href
      ensures r.Some? ==> r.value == made && world == ClusterCreated(old(world), made)
    {
      FreshString(set c | c in world.clusters :: c.href);
      var h: Href :| h != "" && h !in (set c | c in world.clusters :: c.href);
      var token: string :| token != "";
      var c := ContainerCluster(h, name, token);
      made := c;
      if * {
        faults := faults + 1;
        return None, made;
      }
      world := ClusterCreated(world, c);
      if * {
        faults := faults + 1;
        return None, made;
      }
      r := Some(c);
    }

    /** Create-or-update of the output Secret: an empty token or code is not written. */
    method WriteCredentialsSecret(url: string, id: string, token: string, code: string) returns (ok: bool)
      modifies this
      ensures faults == old(faults) + (if ok then 0 else 1)
      ensures world == old(world) || world == SecretWritten(old(world), url, id, token, code)
      ensures ok ==> world == SecretWritten(old(world), url, id, token, code)
    {
      if * {
        faults := faults + 1;
        return false;
      }
      var data := if world.secret.Some? then world.secret.value else map[];
      data := data["pce_url" := url];
      data := data["cluster_id" := id];
      if token != "" {
        data := data["cluster_token" := token];
      }
      if code != "" {
        data := data["cluster_code" := code];
      }
      world := world.(secret := Some(data));
      if * {
        faults := faults + 1;
        return false;
      }
      ok := true;
    }

    method UpdateStatus(href: Href, id: string) returns (ok: bool)
      modifies this
      ensures faults == old(faults) + (if ok then 0 else 1)
      ensures world == old(world) || world == Recorded(old(world), href, id)
      ensures ok ==> world == Recorded(old(world), href, id)
    {
      if * {
        faults := faults + 1;
        return false;
      }
      world := Recorded(world, href, id);
      if * {
        faults := faults + 1;
        return false;
      }
      ok := true;
    }

    /** Finds or creates the node pairing profile and generates a key: not empty, and issued even when the
        reply is lost. */
    method GeneratePairingKey() returns (code: Option<string>, ghost made: string)
      modifies this
      ensures faults == old(faults) + (if code.Some? then 0 else 1)
      ensures made != "" && (world == old(world) || world == KeyIssued(old(world), made))
      ensures code.Some? ==> code.value == made && world == KeyIssued(old(world), made)
    {
      FreshString(set x | x in world.codes);
      var c: string :| c != "" && c !in (set x | x in world.codes);
      made := c;
      if * {
        faults := faults + 1;
        return None, made;
      }
      world := KeyIssued(world, c);
      if * {
        faults := faults + 1;
        return None, made;
      }
      code := Some(c);
    }
  }

  // ----- One reconcile -----

  /** The cluster is created, its token stored, its href recorded, the pairing key generated and added: a
      reconcile that stops somewhere leaves a prefix of these, and one that is done all of them. */
  ghost predicate CreatePrefix(w: World, x: World, name: string, url: string, c: ContainerCluster, code: string, done: bool) {
    && c.name == name && c.href != "" && c.token != "" && code != ""
    && (forall d :: d in w.clusters ==> d.href != c.href)
    && var id := ClusterUuid(c.href);
       var w1 := ClusterCreated(w, c);
       var w2 := SecretWritten(w1, url, id, c.token, "");
       var w3 := Recorded(w2, c.href, id);
       var w4 := KeyIssued(w3, code);
       || x == SecretWritten(w4, url, id, "", code)
       || (!done && (x == w1 || x == w2 || x == w3 || x == w4))
  }

  ghost predicate PairPrefix(w: World, x: World, url: string, code: string, done: bool) {
    && code != ""
    && (x == SecretWritten(KeyIssued(w, code), url, w.clusterId, "", code) || (!done && x == KeyIssued(w, code)))
  }

  ghost predicate Adopts(w: World, x: World, name: string) {
    exists c :: c in w.clusters && c.name == name && x == Recorded(w, c.href, ClusterUuid(c.href))
  }

  ghost predicate OnboardStep(w: World, x: World, spec: Spec, url: Option<string>, done: bool) {
    || (x == w && (done ==> spec.mode == AdoptMode && w.href != ""))
    || (spec.mode == AdoptMode && w.href == "" && Adopts(w, x, spec.clusterName))
    || (spec.mode == CreateMode && url.Some? && w.href == "" && spec.outputSecret != "" && !Named(w, spec.clusterName)
          && exists c, code :: CreatePrefix(w, x, spec.clusterName, url.value, c, code, done))
    || (spec.mode == CreateMode && url.Some? && w.href != "" && exists code :: PairPrefix(w, x, url.value, code, done))
  }

  /** The Secret holds the key issued last, the address of the PCE and the id of the recorded cluster. */
  predicate PairingPublished(w: World, url: string) {
    && w.codes != [] && w.codes[|w.codes| - 1] != "" && w.secret.Some?
    && "cluster_code" in w.secret.value && w.secret.value["cluster_code"] == w.codes[|w.codes| - 1]
    && "pce_url" in w.secret.value && w.secret.value["pce_url"] == url
    && "cluster_id" in w.secret.value && w.secret.value["cluster_id"] == w.clusterId
  }

  method Onboard(env: Environment, spec: Spec, url: Option<string>) returns (done: bool)
    modifies env
    ensures OnboardStep(old(env.world), env.world, spec, url, done)
    ensures env.faults >= old(env.faults) && (env.faults > old(env.faults) ==> !done)
    // Undisturbed, a reconcile gets through exactly when it may: a missing cluster is created and recorded,
    // an existing one only adopted.
    ensures env.faults == old(env.faults) ==>
      (done <==>
        && url.Some?
        && (|| old(env.world).href != ""
            || (spec.mode == AdoptMode && exists c :: c in old(env.world).clusters && c.name == spec.clusterName)
            || (spec.mode == CreateMode && spec.outputSecret != ""
                  && forall c :: c in old(env.world).clusters ==> c.name != spec.clusterName)))
    ensures done && spec.mode == CreateMode ==>
      && PairingPublished(env.world, url.value) && |env.world.codes| == |old(env.world).codes| + 1
      && env.world.href != "" && (old(env.world).href == "" ==> HoldsToken(env.world, env.world.href))
    ensures done && old(env.world).href == "" ==> env.world.clusterId == ClusterUuid(env.world.href)
    ensures done && spec.mode == AdoptMode ==>
      && env.world == old(env.world).(href := env.world.href, clusterId := env.world.clusterId)
      && (old(env.world).href == "" ==>
            exists c :: c in env.world.clusters && c.name == spec.clusterName && c.href == env.world.href)
  {
    ghost var w := env.world;
    if url.None? {
      return false;
    }
    var href, id := env.world.href, env.world.clusterId;
    if href == "" {
      var ok, existing := env.FindContainerClusterByName(spec.clusterName);
      if !ok {
        return false;
      }
      if spec.mode == AdoptMode {
        if existing.None? {
          return false;
        }
        done := env.UpdateStatus(existing.value.href, ClusterUuid(existing.value.href));
        return;
      }
      if spec.outputSecret == "" || existing.Some? {
        return false;
      }
      done := CreateAndPair(env, spec.clusterName, url.value);
      return;
    }
    if spec.mode == CreateMode {
      var code;
      ghost var made;
      code, made := env.GeneratePairingKey();
      assert env.world != w ==> PairPrefix(w, env.world, url.value, made, false);
      if code.None? {
        return false;
      }
      done := env.WriteCredentialsSecret(url.value, id, "", code.value);
      assert PairPrefix(w, env.world, url.value, made, done);
      return;
    }
    return true;
  }

  /** The create branch: nothing of this name exists yet. */
  method CreateAndPair(env: Environment, name: string, url: string) returns (done: bool)
    requires env.world.href == "" && !Named(env.world, name)
    modifies env
    ensures || (env.world == old(env.world) && !done)
            || exists c, code :: CreatePrefix(old(env.world), env.world, name, url, c, code, done)
    ensures env.faults >= old(env.faults) && (done <==> env.faults == old(env.faults))
    ensures done ==>
      && PairingPublished(env.world, url) && |env.world.codes| == |old(env.world).codes| + 1
      && env.world.href != "" && HoldsToken(env.world, env.world.href)
      && env.world.clusterId == ClusterUuid(env.world.href)
  {
    ghost var w := env.world;
    var created;
    ghost var c;
    created, c := env.CreateContainerCluster(name);
    assert env.world != w ==> CreatePrefix(w, env.world, name, url, c, "?", false);
    if created.None? {
      return false;
    }
    var href, id := created.value.href, ClusterUuid(created.value.href);
    var written := env.WriteCredentialsSecret(url, id, created.value.token, "");
    assert CreatePrefix(w, env.world, name, url, c, "?", false);
    if !written {
      return false;
    }
    var recorded := env.UpdateStatus(href, id);
    assert CreatePrefix(w, env.world, name, url, c, "?", false);
    if !recorded {
      return false;
    }
    var code;
    ghost var made;
    code, made := env.GeneratePairingKey();
    assert CreatePrefix(w, env.world, name, url, c, made, false);
    if code.None? {
      return false;
    }
    done := env.WriteCredentialsSecret(url, id, "", code.value);
    assert CreatePrefix(w, env.world, name, url, c, made, done);
    assert done ==> c in env.world.clusters;
  }

  // ----- Runs -----

  /** Clusters may also appear that the operator did not create; none is deleted. */
  ghost predicate ClusterAppears(w: World, x: World) {
    exists c: ContainerCluster :: (forall d :: d in w.clusters ==> d.href != c.href) && x == w.(clusters := w.clusters + [c])
  }

  /** One reconcile: the mode, which the user may switch in between, the address of the PCE, and whether it got through. */
  datatype Attempt = Attempt(mode: Mode, url: Option<string>, done: bool)

  ghost predicate Run(ws: seq<World>, spec: Spec, attempts: seq<Attempt>) {
    && |ws| == |attempts| + 1
    && ws[0].href == "" && ws[0].creations == 0
    && DistinctClusters(ws[0])
    && forall i :: 0 <= i < |attempts| ==> Step(ws[i], ws[i + 1], spec, attempts[i])
  }

  ghost predicate Step(w: World, x: World, spec: Spec, a: Attempt) {
    OnboardStep(w, x, spec.(mode := a.mode), a.url, a.done) || (!a.done && ClusterAppears(w, x))
  }

  /** The mode is create from the start. */
  predicate AllCreate(attempts: seq<Attempt>) {
    forall i :: 0 <= i < |attempts| ==> attempts[i].mode == CreateMode
  }

  /** The token issued with the recorded cluster is in the Secret. */
  ghost predicate TokenSaved(w: World, name: string) {
    && w.secret.Some? && "cluster_token" in w.secret.value && "cluster_id" in w.secret.value
    && w.secret.value["cluster_id"] == w.clusterId == ClusterUuid(w.href)
    && exists c :: c in w.clusters && c.name == name && c.href == w.href && c.token == w.secret.value["cluster_token"]
         && c.token != ""
  }

  ghost predicate Inv(w: World, name: string) {
    && (w.href != "" ==> TokenSaved(w, name))
    && (w.creations > 0 || w.href != "" ==> Named(w, name))
    && w.creations <= 1
  }

  lemma SecretKeepsInv(w: World, url: string, code: string, name: string)
    requires Inv(w, name) && w.href != ""
    ensures Inv(KeyIssued(w, code), name) && Inv(SecretWritten(KeyIssued(w, code), url, w.clusterId, "", code), name)
  {
    var x := SecretWritten(KeyIssued(w, code), url, w.clusterId, "", code);
    assert x.secret.value["cluster_token"] == w.secret.value["cluster_token"];
  }

  lemma CreateKeepsInv(w: World, x: World, name: string, url: string, c: ContainerCluster, code: string, done: bool)
    requires Inv(w, name) && w.href == "" && !Named(w, name) && CreatePrefix(w, x, name, url, c, code, done)
    ensures Inv(x, name)
  {
    var id := ClusterUuid(c.href);
    var w1 := ClusterCreated(w, c);
    assert w1.clusters[|w.clusters|] == c;
    assert Inv(w1, name);
    var w2 := SecretWritten(w1, url, id, c.token, "");
    var w3 := Recorded(w2, c.href, id);
    assert c in w3.clusters;
    assert TokenSaved(w3, name);
    SecretKeepsInv(w3, url, code, name);
  }

  lemma StepKeepsInv(w: World, x: World, spec: Spec, a: Attempt)
    requires Inv(w, spec.clusterName) && a.mode == CreateMode && Step(w, x, spec, a)
    ensures Inv(x, spec.clusterName)
    ensures w.href != "" ==> x.href == w.href && x.secret.Some?
    ensures w.href != "" ==> x.secret.value["cluster_token"] == w.secret.value["cluster_token"]
  {
    hide CreatePrefix;
    if x == w {
    } else if ClusterAppears(w, x) {
      var c :| x == w.(clusters := w.clusters + [c]);
      assert forall i :: 0 <= i < |w.clusters| ==> x.clusters[i] == w.clusters[i];
      assert forall d :: d in w.clusters ==> d in x.clusters;
    } else if w.href == "" {
      var c, code :| CreatePrefix(w, x, spec.clusterName, a.url.value, c, code, a.done);
      CreateKeepsInv(w, x, spec.clusterName, a.url.value, c, code, a.done);
    } else {
      var code :| PairPrefix(w, x, a.url.value, code, a.done);
      SecretKeepsInv(w, a.url.value, code, spec.clusterName);
    }
  }

  /** In create mode, in every state a run can reach: a recorded cluster has its one-time token in the
      Secret, and the operator has created at most one cluster. */
  lemma {:induction false} TokenIsNeverLost(ws: seq<World>, spec: Spec, attempts: seq<Attempt>, i: nat)
    requires Run(ws, spec, attempts) && AllCreate(attempts) && i < |ws|
    ensures ws[i].href != "" ==> TokenSaved(ws[i], spec.clusterName)
    ensures ws[i].creations <= 1
    ensures Inv(ws[i], spec.clusterName)
  {
    if i > 0 {
      TokenIsNeverLost(ws, spec, attempts, i - 1);
      assert Step(ws[i - 1], ws[i - 1 + 1], spec, attempts[i - 1]);
      StepKeepsInv(ws[i - 1], ws[i], spec, attempts[i - 1]);
    }
  }

  /** Once recorded, the href and its token never change. */
  lemma {:induction false} TokenStays(ws: seq<World>, spec: Spec, attempts: seq<Attempt>, i: nat, j: nat)
    requires Run(ws, spec, attempts) && AllCreate(attempts) && i <= j < |ws| && ws[i].href != ""
    ensures ws[j].href == ws[i].href && ws[i].secret.Some? && ws[j].secret.Some?
    ensures "cluster_token" in ws[i].secret.value && "cluster_token" in ws[j].secret.value
    ensures ws[j].secret.value["cluster_token"] == ws[i].secret.value["cluster_token"]
    decreases j
  {
    hide OnboardStep, ClusterAppears, Named;
    TokenIsNeverLost(ws, spec, attempts, i);
    if i < j {
      TokenStays(ws, spec, attempts, i, j - 1);
      TokenIsNeverLost(ws, spec, attempts, j - 1);
      assert Step(ws[j - 1], ws[j - 1 + 1], spec, attempts[j - 1]);
      StepKeepsInv(ws[j - 1], ws[j], spec, attempts[j - 1]);
    }
  }

  /** The Secret's pairing code is one that the PCE issued. */
  predicate CodeIssued(w: World) {
    && w.secret.Some? && "cluster_code" in w.secret.value && w.secret.value["cluster_code"] != ""
    && w.secret.value["cluster_code"] in w.codes
  }

  lemma IssuedStays(w: World, code: string, url: string, id: string, token: string)
    requires code != ""
    ensures CodeIssued(SecretWritten(KeyIssued(w, code), url, id, token, code))
    ensures CodeIssued(w) ==> CodeIssued(KeyIssued(w, code)) && CodeIssued(SecretWritten(w, url, id, token, ""))
  {
    assert KeyIssued(w, code).codes[|w.codes|] == code;
  }

  lemma StepKeepsCode(w: World, x: World, spec: Spec, a: Attempt)
    requires Step(w, x, spec, a)
    ensures CodeIssued(w) || (a.done && a.mode == CreateMode) ==> CodeIssued(x)
  {
    hide CodeIssued, KeyIssued, SecretWritten, Named;
    if x == w && !a.done {
    } else if OnboardStep(w, x, spec.(mode := a.mode), a.url, a.done) && a.mode == CreateMode {
      if w.href == "" {
        var c, code :| CreatePrefix(w, x, spec.clusterName, a.url.value, c, code, a.done);
        CreateKeepsCode(w, x, spec.clusterName, a.url.value, c, code, a.done);
      } else {
        var code :| PairPrefix(w, x, a.url.value, code, a.done);
        IssuedStays(w, code, a.url.value, w.clusterId, "");
      }
    } else {
      OtherWritesKeepCode(w, x);
    }
  }

  lemma OtherWritesKeepCode(w: World, x: World)
    requires x.secret == w.secret && x.codes == w.codes
    ensures CodeIssued(w) ==> CodeIssued(x)
  {
  }

  lemma CreateKeepsCode(w: World, x: World, name: string, url: string, c: ContainerCluster, code: string, done: bool)
    requires CreatePrefix(w, x, name, url, c, code, done)
    ensures CodeIssued(w) || done ==> CodeIssued(x)
  {
    hide CodeIssued, SecretWritten, KeyIssued;
    var id := ClusterUuid(c.href);
    var w1 := ClusterCreated(w, c);
    var w2 := SecretWritten(w1, url, id, c.token, "");
    var w3 := Recorded(w2, c.href, id);
    OtherWritesKeepCode(w, w1);
    IssuedStays(w1, code, url, id, c.token);
    OtherWritesKeepCode(w2, w3);
    IssuedStays(w3, code, url, id, "");
  }

  /** Every reconcile that gets through in create mode leaves an issued pairing code in the Secret, and from then
      on there is one, whatever the later reconciles do and wherever they stop. */
  lemma {:induction false} CodeStaysPublished(ws: seq<World>, spec: Spec, attempts: seq<Attempt>, i: nat, j: nat)
    requires Run(ws, spec, attempts) && i < j < |ws| && attempts[i].done && attempts[i].mode == CreateMode
    ensures CodeIssued(ws[j])
    decreases j
  {
    hide Step, CodeIssued;
    assert Step(ws[j - 1], ws[j - 1 + 1], spec, attempts[j - 1]);
    StepKeepsCode(ws[j - 1], ws[j], spec, attempts[j - 1]);
    if i < j - 1 {
      CodeStaysPublished(ws, spec, attempts, i, j - 1);
    }
  }

  lemma DeadEndStep(w: World, x: World, spec: Spec, a: Attempt)
    requires Step(w, x, spec, a) && a.mode == CreateMode && w.href == "" && Named(w, spec.clusterName)
    ensures x.href == "" && Named(x, spec.clusterName) && x.creations == w.creations
  {
    hide CreatePrefix, Adopts, SecretWritten, Recorded;
    var k :| 0 <= k < |w.clusters| && w.clusters[k].name == spec.clusterName;
    if ClusterAppears(w, x) {
      assert x.clusters[k] == w.clusters[k];
    }
  }

  /** The window the code accepts: a cluster of this name whose href was not recorded is a dead end.  Create
      mode never records it, and never creates a second one. */
  lemma {:induction false} UnrecordedClusterIsADeadEnd(ws: seq<World>, spec: Spec, attempts: seq<Attempt>, i: nat, j: nat)
    requires Run(ws, spec, attempts) && AllCreate(attempts) && i <= j < |ws|
    requires ws[i].href == "" && Named(ws[i], spec.clusterName)
    ensures ws[j].href == "" && Named(ws[j], spec.clusterName) && ws[j].creations == ws[i].creations
    decreases j
  {
    hide OnboardStep, ClusterAppears, Named;
    if i < j {
      UnrecordedClusterIsADeadEnd(ws, spec, attempts, i, j - 1);
      assert Step(ws[j - 1], ws[j - 1 + 1], spec, attempts[j - 1]);
      DeadEndStep(ws[j - 1], ws[j], spec, attempts[j - 1]);
    }
  }

  // ----- Switching modes -----

  predicate DistinctClusters(w: World) {
    forall i, j :: 0 <= i < j < |w.clusters| ==> w.clusters[i].href != w.clusters[j].href
  }

  /** The Secret holds the one-time token of the cluster with this href. */
  ghost predicate HoldsToken(w: World, href: Href) {
    && w.secret.Some? && "cluster_token" in w.secret.value
    && exists c :: c in w.clusters && c.href == href && c.token == w.secret.value["cluster_token"]
  }

  lemma StepKeepsDistinct(w: World, x: World, spec: Spec, a: Attempt)
    requires Step(w, x, spec, a) && DistinctClusters(w)
    ensures DistinctClusters(x)
  {
    hide Named, SecretData;
    if x.clusters != w.clusters {
      var c :| x.clusters == w.clusters + [c] && forall d :: d in w.clusters ==> d.href != c.href;
    }
  }

  lemma {:induction false} ClustersStayDistinct(ws: seq<World>, spec: Spec, attempts: seq<Attempt>, i: nat)
    requires Run(ws, spec, attempts) && i < |ws|
    ensures DistinctClusters(ws[i])
  {
    hide Step, DistinctClusters;
    if i > 0 {
      ClustersStayDistinct(ws, spec, attempts, i - 1);
      assert Step(ws[i - 1], ws[i - 1 + 1], spec, attempts[i - 1]);
      StepKeepsDistinct(ws[i - 1], ws[i], spec, attempts[i - 1]);
    }
  }

  predicate HasRecorded(w: World) {
    exists c :: c in w.clusters && c.href == w.href
  }

  /** A step after the cluster was recorded keeps href and token. */
  lemma RecordedStep(w: World, x: World, spec: Spec, a: Attempt)
    requires Step(w, x, spec, a) && w.href != "" && DistinctClusters(x) && HasRecorded(w)
    ensures x.href == w.href && HasRecorded(x)
    ensures HoldsToken(x, x.href) <==> HoldsToken(w, w.href)
  {
    hide CreatePrefix, Named, Adopts, DistinctClusters;
    if ClusterAppears(w, x) {
      AppearingKeepsToken(w, x);
    }
  }

  lemma AppearingKeepsToken(w: World, x: World)
    requires ClusterAppears(w, x) && DistinctClusters(x) && HasRecorded(w)
    ensures x.href == w.href && HasRecorded(x)
    ensures HoldsToken(x, x.href) <==> HoldsToken(w, w.href)
  {
    var c :| x == w.(clusters := w.clusters + [c]);
    forall d | d in w.clusters ensures d in x.clusters {
    }
    var d :| d in w.clusters && d.href == w.href;
    var i :| 0 <= i < |w.clusters| && w.clusters[i] == d;
    assert x.clusters[i] == d && x.clusters[|w.clusters|] == c;
  }

  /** The step that records a cluster: in create mode with its token in the Secret, in adopt mode as the Secret was. */
  lemma RecordingStep(w: World, x: World, spec: Spec, a: Attempt)
    requires Step(w, x, spec, a) && w.href == "" && x.href != ""
    ensures HasRecorded(x)
    ensures a.mode == CreateMode ==> HoldsToken(x, x.href)
    ensures a.mode == AdoptMode ==> (HoldsToken(x, x.href) <==> HoldsToken(w, x.href))
  {
    if a.mode == CreateMode {
      var c, code :| CreatePrefix(w, x, spec.clusterName, a.url.value, c, code, a.done);
      assert c in x.clusters;
    }
  }

  /** Whatever the modes of the reconciles: once a cluster is recorded, its one-time token is in the Secret if and
      only if it was recorded in create mode, or was adopted while the Secret already held its token (the
      operator had created it and stopped before recording it). */
  lemma {:induction false} TokenSavedExactly(ws: seq<World>, spec: Spec, attempts: seq<Attempt>, j: nat, i: nat)
    requires Run(ws, spec, attempts) && j < i < |ws| && ws[j].href == "" && ws[j + 1].href != ""
    ensures ws[i].href == ws[j + 1].href && HasRecorded(ws[i])
    ensures HoldsToken(ws[i], ws[i].href) <==> attempts[j].mode == CreateMode || HoldsToken(ws[j], ws[j + 1].href)
    decreases i
  {
    hide Step, HoldsToken, HasRecorded;
    if i == j + 1 {
      assert Step(ws[j], ws[j + 1], spec, attempts[j]);
      RecordingStep(ws[j], ws[j + 1], spec, attempts[j]);
    } else {
      TokenSavedExactly(ws, spec, attempts, j, i - 1);
      ClustersStayDistinct(ws, spec, attempts, i);
      assert Step(ws[i - 1], ws[i - 1 + 1], spec, attempts[i - 1]);
      RecordedStep(ws[i - 1], ws[i], spec, attempts[i - 1]);
    }
  }

  /** Adopting first and switching to create later is such a run: the recorded cluster never gets its token. */
  lemma AdoptedThenCreatedHasNoToken(w: World, name: string, url: string, code: string, c: ContainerCluster)
    returns (ws: seq<World>, attempts: seq<Attempt>)
    requires w.href == "" && w.creations == 0 && w.secret.None? && DistinctClusters(w)
    requires c in w.clusters && c.name == name && c.href != "" && code != ""
    ensures Run(ws, Spec(CreateMode, name, "out"), attempts) && ws[0] == w
    ensures attempts == [Attempt(AdoptMode, Some(url), true), Attempt(CreateMode, Some(url), true)]
    ensures ws[2].href == c.href && PairingPublished(ws[2], url) && !HoldsToken(ws[2], c.href)
  {
    var x := Recorded(w, c.href, ClusterUuid(c.href));
    var y := SecretWritten(KeyIssued(x, code), url, x.clusterId, "", code);
    ws := [w, x, y];
    attempts := [Attempt(AdoptMode, Some(url), true), Attempt(CreateMode, Some(url), true)];
    assert PairPrefix(x, y, url, code, true);
    assert "cluster_token" !in y.secret.value;
  }
}
