# Illumio Kubernetes operator: a verified model

The operator turns Kubernetes policy resources into Illumio rulesets in a remote
Policy Compute Engine (PCE), onboards the cluster, keeps the Container Workload
Profile (CWP) of each namespace in its desired state, and reports what a draft
policy would block. This project models that logic in Dafny and proves what it
guarantees, with remote calls failing at any point.

`dafny verify dfyconfig.toml` checks everything.

## How the model is built

| file | models |
|---|---|
| `Pce.dfy` | the PCE's labels, services, draft and active rulesets, and the client's calls |
| `PolicyIR.dfy` | the two policy compilers and rule emission |
| `Resolution.dfy` | linking labels to hrefs in strict, skip and create mode |
| `Semantics.dfy` | what a ruleset permits, what a spec denotes, and that they agree |
| `Scopes.dfy` | when two scopes give the same entries the same meaning |
| `RuleSets.dfy` | replacing the rules of an owned ruleset, call by call |
| `Clusters.dfy` | finding the ClusterProfile of a namespace |
| `Backend.dfy` | one policy reconcile and one finalization |
| `Controller.dfy`, `Runs.dfy` | the finalizer protocol, and runs of the whole system |
| `Scenarios.dfy` | a run that shows the limits: a stale scope, and an orphaned ruleset |
| `CwpMatch.dfy`, `Enforcement.dfy`, `Profiles.dfy` | desired CWPs, effective enforcement, the pass over the namespaces |
| `Onboarding.dfy` | the create-once sequence for the cluster token |
| `Preflight.dfy`, `Strings.dfy` | grouping, ordering and truncating observed flows |
| `LabelText.dfy`, `Wrappers.dfy` | labels as text; results and listings |

**Remote stores.** Code that drives a remote store is a class with methods, and
the store is a field the methods reassign. Every call has a nondeterministic
failure before and another one after its effect (a lost reply). An operator that
crashes between two calls leaves what a failure of the second call leaves. Each
failure is counted in `faults`, so contracts also say what an undisturbed run does.

**What the PCE is taken to do.** It gives a new object an href that is not in use.
A label exists once per key and value. Deleting a provisioned ruleset marks it;
deleting one that was never provisioned marks it or removes it at once. Editing
the rules of a marked ruleset is answered with not-found, and deleting it again is
refused. Provisioning publishes a draft as it is, or carries out its pending
deletion. Deleted draft rules no longer appear in the draft's rule list, which is
in order of creation.

**Map iteration.** Go ranges over a map in no fixed order. The loops here pick the
next entry freely (`:|`), so each contract holds of every order.

**Meaning of a rule.** A consumer may reach a provider on a port when the ruleset
and the rule are enabled, the provider is in the ruleset's scope and carries every
provider label (or the provider is All Workloads), the consumer carries every
consumer label (or is All Workloads) and is in scope unless the rule's consumers
are unscoped, and a service matches. "All Services" matches every port.

**Meaning of a selector.** A selector selects the workloads that carry its labels
and satisfy its expressions, as in Kubernetes. The compiler rejects expressions; the
meaning keeps them, so that a compiler that ignored one would not preserve it.

**Pairing keys.** The PCE issues a non-empty key, also when its reply is lost.

**Induction.** Lemmas to which Dafny would apply automatic induction carry
`{:induction false}`: every induction here is written out.

**Runs.** `Runs.Next` lets users create and delete CRs, the controllers reconcile
them with any input, and administrators mark a ruleset for deletion, revert that,
provision it, and change anything else in the PCE except the rulesets of CRs.
`ControllerStep` is the postcondition of the `Reconcile` method, so the theorems
about runs are about what the method does, wherever it stops.

## Findings

- Skip mode widens an entry of which only some labels exist: it drops the unknown
  labels, so more workloads match. `SkipIsExactUnlessPartlyKnown` shows that this
  is the only case in which an entry changes, and gives a workload that is admitted.
- An enforcement baseline outside the documented modes is replaced by the first
  policy CR, however mild (`BaselineStandsIffDocumented`).
- An owner without a reference gets a new ruleset on every reconcile
  (`UniqueNeedsReference`). Kubernetes UIDs are never empty.
- `sameLabelSet` decides equality exactly when no href is empty
  (`AgreeDecidesEqualityIffNonEmpty`).
- The label cache and the external reference of a label join key and value with a
  separator; a separator inside a key makes two labels collide (`JoinedCollides`).
- `peerKey` is faithful when label keys have no `=` and label values and addresses
  no `;` (`PeerKeyFaithful`); keys may contain `;`. Each limit is needed
  (`EqualsInKeyCollides`, `SemicolonInValueCollides`, `SemicolonInAddressCollides`).
- An existing ruleset keeps its scope. What is active permits what the spec says in
  the scope the namespace had when the ruleset was created (`ActiveMeansSpecNow`).
  For the present scope that is right if and only if both scopes give the spec's
  entries the same meaning, which `Scopes.SameInBoth` decides from the label maps
  (`StaleScopeExactly`); without narrowing every change of scope shows
  (`UnnarrowedScopeShows`). `StaleAndOrphaned` is a run that admits a flow the spec
  does not say.
- A cluster whose href was not recorded in time is a dead end in create mode
  (`UnrecordedClusterIsADeadEnd`), as the source's comment accepts.
- A CR that is deleted leaves its ruleset behind if and only if it owned one and, at
  that moment, its namespace is gone or no onboarded ClusterProfile that manages the
  namespace has a usable PCE (`OrphansIffUnmanagedOrUnreachable`); a namespace that
  is merely no longer managed is enough. Draft and active version then stay as they
  are through every later run, unless an administrator names the ruleset
  (`OrphanStays`). The comment in `FinalizePolicy` expects the next full reconcile to
  clean it.
- Adopting a cluster and switching to create mode later leaves it without its token,
  unless the operator had itself created the cluster and stored its token before
  (`TokenSavedExactly`).
- The code was followed where documentation differs: the field comment of
  `fromIntraNamespace` reads an empty map as all workloads in scope, while the
  compiler rejects it; the comment of the system namespaces' enforcement mode names
  idle as its default, while a managed namespace is raised to visibility_only.

## Model

| member | source | states |
|---|---|---|
| Pce.Client.FindLabel | internal/pce/labels.go:26-43 | an exact match returns the stored href, not-found means there is none |
| Pce.Client.CreateLabel | internal/pce/labels.go:45-51 | a new label with an unused href; a lost reply leaves the label behind |
| Pce.Client.EnsureLabel | internal/pce/labels.go:64-78 | afterwards the label exists with the returned href, and at most this label is new |
| Pce.Client.FindServiceByName | internal/pce/policy.go:47-58 | the service with the exact name, if there is one |
| Pce.Client.FindRuleSetByOwner | internal/pce/policy.go:107-118 | matching is by reference alone and never by an empty one; none found means none exists |
| Pce.Client.CreateRuleSet | internal/pce/policy.go:121-127 | an empty draft at an unused href, possibly with its reply lost |
| Pce.Client.DeleteRuleSet | internal/pce/policy.go:130-132 | marks or removes the draft; refuses a second deletion |
| Pce.Client.ListRules | internal/pce/policy.go:135-141 | the rules of an editable ruleset, in order |
| Pce.Client.CreateRule | internal/pce/policy.go:144-150 | appends one rule under a new identifier |
| Pce.Client.DeleteRule | internal/pce/policy.go:153-155 | removes exactly the rule with this href |
| Pce.Client.ProvisionRuleSet | internal/pce/policy.go:158-172 | publishes or removes exactly the named ruleset |
| LabelText.JoinedInjective | internal/pce/labels.go:56-77 | for keys without the separator, distinct labels have distinct external references and cache keys |
| LabelText.JoinedCollides | internal/pce/labels.go:56-77 | a separator inside a key makes two labels share their text |
| LabelText.TextOfLabel | internal/pce/labels.go:56-77 | the text is key=value, and in the cache the two joined by a bar |
| PolicyIR.CompileIntent | internal/controller/policyir.go:123-148 | accepts an intent iff it allows something and each entry has exactly one source; one entry per allow, in order, after the one for the namespace; an error names the first bad entry |
| PolicyIR.CompilePolicy | internal/controller/policyir.go:154-204 | accepts a policy iff every type is "Ingress", no selector of it has expressions, every rule has peers and every peer exactly one selector, a namespaceSelector with labels; an error names the first unsupported rule and peer and why |
| PolicyIR.LoweredInOrder | internal/controller/policyir.go:168-203 | rules are lowered one after the other |
| PolicyIR.LoweredPeers | internal/controller/policyir.go:172-201 | one entry per peer: labels in the app for a podSelector, All Workloads when it has none, labels anywhere for a namespaceSelector, with the rule's ports |
| PolicyIR.LowerPorts | internal/controller/policyir.go:102-107 | one service per port, UDP being 17 and anything else 6 |
| PolicyIR.BuildRuleSet | internal/controller/policyir.go:42-54 | one scope with the provider's hrefs, stamped with the owner |
| PolicyIR.BuildRules | internal/controller/policyir.go:62-99 | one rule per entry in order, with the narrowed provider, the entry's consumers, ports and scope |
| Resolution.FindAll | internal/controller/policybackend.go:375-386 | every label of a map, each once, or one that does not exist |
| Resolution.ResolveConsumer | internal/controller/policybackend.go:417-446 | the known labels' hrefs, the deferred and the minted labels of one entry, in any iteration order |
| Resolution.ResolveAllows | internal/controller/policybackend.go:406-453 | which entries are kept with which hrefs, what is deferred, what is minted, and on what a rejection rests; only standard keys are ever minted, also when it rejects |
| Resolution.AcceptsExactly | internal/controller/policybackend.go:430-446 | undisturbed, strict accepts iff all labels exist, create iff every missing key is standard, skip always |
| Resolution.CreateMintsStandardKeys | internal/controller/policybackend.go:431-441 | create mode mints, and tolerates as unknown, only labels with key role, app, env or loc |
| Resolution.DeferredExactly | internal/controller/policybackend.go:428-430 | exactly the unknown labels are deferred, each as often as entries name it |
| Resolution.ResolvesUnique | internal/controller/policybackend.go:417-451 | the kept entries and the multiset of hrefs of each are determined by the labels |
| Resolution.OrderIndependent | internal/controller/policybackend.go:417-451 | two successful runs in different iteration orders defer and mint the same labels and keep the same entries, with hrefs of the same labels |
| Resolution.KeptIffSomeHref | internal/controller/policybackend.go:447-450 | the test on what was collected drops an entry exactly when it has labels and none exists |
| Resolution.ResolvesGrow | internal/controller/policybackend.go:436-443 | labels minted for a later entry leave the earlier entries as they were resolved |
| Resolution.CreatedTextIsDuplicateFree | internal/controller/policybackend.go:429-443 | no reported created label appears twice, as text |
| Resolution.IntentIsCompiled | internal/controller/policyir.go:123-148 | every compiled consumer is All Workloads or has labels |
| Resolution.PolicyIsCompiled | internal/controller/policyir.go:154-204 | the same for the second front end |
| Resolution.RulesAreComplete | internal/controller/policyir.go:62-99 | no emitted rule has an empty provider, consumer or service list |
| Semantics.LinkedMeaning | internal/controller/policyir.go:56-99 | in every mode the ruleset permits exactly what the entries mean once pruned to the known labels |
| Semantics.IntentPreserved | internal/controller/policyir.go:42-148 | with all labels known the ruleset permits exactly the flows the intent denotes |
| Semantics.PolicyPreserved | internal/controller/policyir.go:42-204 | with all labels known the ruleset permits exactly the flows the policy denotes, selectors meaning what they mean in Kubernetes, expressions included |
| Semantics.FrontEndsAgree | internal/controller/policyir.go:123-204 | an intent written as a policy compiles to the same sequence, and is accepted unless only emptiness was wrong |
| Semantics.SkipIsExactUnlessPartlyKnown | internal/controller/policybackend.go:431-450 | skip mode leaves an entry's consumers unchanged iff it is not partly known |
| Semantics.SkipNeverNarrows | internal/controller/policybackend.go:431-450 | a flow the spec allows to a workload of the PCE stays allowed in skip mode |
| Semantics.LinkedMeaningLasts | internal/controller/policybackend.go:409-453 | a ruleset keeps its meaning while labels keep their hrefs, whatever labels are added |
| Semantics.PermitsNeedsScope | internal/controller/policyir.go:42-54 | a ruleset whose stored scope is no label map of the PCE permits nothing |
| Scopes.ScopesAgreeExactly | internal/controller/policybackend.go:499-514 | two scopes give a policy the same meaning iff both permit nothing, or they fix the same providers and each covers the other's least consumers on every port |
| Scopes.UnnarrowedScopeShows | internal/controller/policybackend.go:499-514 | without narrowing the meaning is the same iff the scopes are equal, unless the old one permits nothing |
| RuleSets.DeleteRules | internal/controller/policybackend.go:505-513 | stops with all but the first few rules left, or none |
| RuleSets.CreateRules | internal/controller/policybackend.go:531-535 | stops with the first few of the requested rules, or all |
| RuleSets.FindAllServices | internal/controller/policybackend.go:515-530 | looks the service up iff some entry has no ports |
| RuleSets.RulesReferToBuiltIns | internal/controller/policyir.go:62-99 | a rule refers to "All Services" iff its entry has no ports, and to All Workloads as provider iff there is no narrowing |
| RuleSets.ReconcileRuleSet | internal/controller/policybackend.go:481-537 | on success exactly the rules of the input, at the owner's ruleset or a new one; interrupted, a tail of the old or a head of the new rules; a pending deletion is not touched |
| RuleSets.StepKeepsUniqueAndOthers | internal/controller/policybackend.go:481-537 | at most one ruleset per reference even with a lost reply; nothing active and nothing of another owner changes |
| RuleSets.UniqueNeedsReference | internal/pce/policy.go:107-118 | two successful runs keep uniqueness iff the reference is not empty |
| RuleSets.ReconcileConverges | internal/controller/policybackend.go:481-537 | after any interrupted run of the owner on any input, a complete one leaves exactly its own rules; repeating it, with hrefs in any other order, changes only identifiers and the order of actors |
| RuleSets.PendingDeletionIsLeftAlone | internal/controller/policybackend.go:486-491 | a ruleset marked for deletion is never edited or recreated |
| Clusters.ResolveClusterProfile | internal/controller/policybackend.go:306-354 | the first onboarded profile that manages the namespace and has a usable PCE, a failed read, or none |
| Clusters.NotReadyExactly | internal/controller/policybackend.go:306-354 | unless a read fails, none is ready iff the namespace is gone or no onboarded profile that manages it has a usable PCE |
| Clusters.UsableMeans | internal/controller/policybackend.go:315-345 | a profile is usable iff it is onboarded, manages the namespace, and its connection is up with both credentials |
| Clusters.ReadyMeans | internal/controller/policybackend.go:315-351 | a ready profile is the first usable one, with its connection's data set or "illumio-operator" |
| Backend.ScopeLabelSubset | internal/controller/policybackend.go:389-401 | exactly the labels whose key is a scope key |
| Backend.ResolveProvider | internal/controller/policybackend.go:357-386 | the hrefs of the namespace's scope labels, or a rejection when it is unmanaged, has none, or one does not exist |
| Backend.ReconcilePolicy | internal/controller/policybackend.go:83-257 | each outcome with its reason; provisioned exactly when the gate is open and only a draft rebuilt to the end |
| Backend.ProvisionsExactlyWhenAllowed | internal/controller/policybackend.go:200-213 | a completed reconcile has provisioned iff the mode is auto, or manual with approval |
| Backend.ScopeIsAssigned | internal/controller/policybackend.go:362-373 | a policy compiles only in a managed namespace, scoped by its assigned labels under the scope keys, at least one |
| Backend.BodyMeans | internal/controller/policyir.go:36-54 | the ruleset is named k8s-namespace-cr, enabled, and stamped with data set and owner |
| Backend.FinalizePolicy | internal/controller/policybackend.go:263-301 | undisturbed it succeeds and nothing of the owner is left; a failed run leaves the ruleset, marked or not, or gone |
| Backend.LinksTheSame | internal/controller/policybackend.go:374-453 | linking one input twice against the same labels gives the same scope, and hrefs that differ in order only |
| Backend.RepeatedReconcileIsStable | internal/controller/policybackend.go:83-257 | a completed reconcile repeated on unchanged inputs mints nothing and changes only identifiers and the order of actors, in draft and active version |
| Controller.CustomResource.AddFinalizer | internal/controller/segmentationintent_controller.go:55-59 | the finalizer is on, or the update failed |
| Controller.CustomResource.RemoveFinalizer | internal/controller/segmentationintent_controller.go:46-49 | the object goes with its finalizer, or the update failed |
| Controller.CompileFrontEnd | internal/controller/segmentationpolicy_controller.go:56-67 | the backend's input of either front end |
| Controller.Reconcile | internal/controller/segmentationintent_controller.go:31-100 | the finalizer comes before any PCE call and goes after the removal; undisturbed it answers ok, and ok means that a deleted CR has ended and a live one got an answer from the backend |
| Runs.ReconcileStaysInItsLane | internal/controller/policybackend.go:178-235 | a reconcile changes no other owner's ruleset, and the active version only through the gate or in finalization |
| Runs.ClosedGateKeepsActive | internal/controller/policybackend.go:200-235 | in every run, a reconcile of a live CR in a mode other than auto, and other than manual with approval, leaves what is active alone |
| Runs.FinalizeEffect | internal/controller/policybackend.go:280-300 | finalization only removes or marks the owner's ruleset, and success leaves none |
| Runs.NextKeepsInv | internal/controller/segmentationintent_controller.go:40-59 | every step keeps the finalizer invariant and uniqueness |
| Runs.RunKeepsInv | internal/controller/segmentationpolicy_controller.go:38-54 | the invariant holds in every reachable state |
| Runs.NoOrphanUnlessNotReady | internal/controller/policybackend.go:270-278 | a ruleset of a CR, draft or active, implies that the CR still has its finalizer or left through the not-ready exit |
| Runs.OrphansIffNotReady | internal/controller/policybackend.go:270-300 | the reconcile that lets a CR go leaves a ruleset behind iff the CR owned one and no profile was ready |
| Runs.OrphansIffUnmanagedOrUnreachable | internal/controller/policybackend.go:270-354 | the same in terms of the lookup: the namespace is gone, or no onboarded profile that manages it has a usable PCE |
| Runs.OrphanStays | internal/controller/policybackend.go:274-278 | what a CR that is gone left behind stays, draft and active, in every later state until an administrator names it |
| Runs.FinalizedLeavesNothing | internal/controller/policybackend.go:284-300 | a CR that left otherwise has no ruleset, draft or active |
| Runs.ActiveIsComplete | internal/controller/policybackend.go:499-536 | in every reachable state an owned active ruleset is, rule for rule, what one earlier reconcile built completely and provisioned |
| Runs.DraftHasOrigin | internal/controller/policybackend.go:492-501 | in every reachable state the name, scope and owner of an owned draft are what one earlier reconcile of the CR made |
| Runs.ProvisionedMeansSpec | internal/controller/policybackend.go:178-213 | what is provisioned permits, in the scope the ruleset has stored, the pruned entries in any mode and in strict and create mode exactly what the spec denotes, right then and in every later store that keeps the labels' hrefs |
| Runs.ActiveMeansSpec | internal/controller/policybackend.go:83-257 | in every reachable state, what is active for a CR got its scope from an earlier reconcile of the CR, and means in that scope what the reconcile that provisioned it said, as in ProvisionedMeansSpec |
| Runs.ActiveMeansSpecNow | internal/controller/policybackend.go:83-257 | while no administrator removes or renames a label, it permits in the present state exactly what the spec denoted when provisioned in strict or create mode, in the scope the namespace had when the ruleset was created |
| Runs.StaleScopeExactly | internal/controller/policybackend.go:499-514 | what is provisioned in strict or create mode, in the store it is provisioned in, permits what the spec denotes in the namespace's present scope iff the stored and the present scope give the entries the same meaning |
| Scenarios.StaleAndOrphaned | internal/controller/policybackend.go:499-514 | a run that provisions a stale scope, which permits a flow the spec does not denote, and then orphans the ruleset |
| Enforcement.StrictestEnforcement | internal/controller/policyir.go:211-219 | the strictest of the modes, or empty when none ranks |
| Enforcement.DocumentedOrder | internal/controller/policyir.go:206-219 | idle, visibility_only, selective, full, from mild to strict, any other mode below them |
| Enforcement.EffectiveEnforcement | internal/controller/enforcement.go:14-35 | the baseline stands as set by the admin unless some request is stricter, else the first strictest request decides mode and name |
| Enforcement.SetByExactly | internal/controller/enforcement.go:14-35 | a documented baseline is set by "admin" unless some request is stricter, then by the first of the strictest |
| Enforcement.RaisedUnordered | internal/controller/enforcement.go:14-35 | the mode is the maximum by rank and does not depend on list order |
| Enforcement.RaisedUnique | internal/controller/enforcement.go:14-35 | mode and name are determined by the inputs |
| Enforcement.BaselineStandsIffDocumented | internal/controller/policyir.go:208-219 | under requests that ask for no more, the baseline stands iff it is a documented mode |
| CwpMatch.RuleMatches | internal/controller/cwpmatch.go:86-98 | the name matches and every required label is present, a missing label reading as empty |
| CwpMatch.MatchesAnyPattern | internal/controller/cwpmatch.go:77-84 | some pattern matches |
| CwpMatch.ResolveAssignLabels | internal/controller/cwpmatch.go:100-113 | a fixed value, else a non-empty namespace label, else nothing, in any iteration order |
| CwpMatch.ApplyAnnotationOverrides | internal/controller/cwpmatch.go:115-133 | the overrides of AnnotationsDecide, in any iteration order |
| CwpMatch.ComputeDesiredCwp | internal/controller/cwpmatch.go:38-68 | annotations over system namespaces over the first matching rule over unmanaged, raised to visibility_only when managed |
| CwpMatch.AnnotationsDecide | internal/controller/cwpmatch.go:58-67 | the managed annotation decides by folding to "true", a non-empty enforcement annotation is the mode up to the floor, a non-empty label annotation is that label, whatever the rules say |
| CwpMatch.BaseDecidesTheRest | internal/controller/cwpmatch.go:38-68 | where no annotation speaks, the base decides; only an unset or idle mode of a managed namespace is raised, to visibility_only |
| CwpMatch.Precedence | internal/controller/cwpmatch.go:41-56 | a managed system namespace, by the configured or the default patterns; else the first matching rule; else unmanaged |
| CwpMatch.DesiredIsUnique | internal/controller/cwpmatch.go:38-68 | the precedence rules decide one desired profile |
| Profiles.ProfileClient.Update | internal/pce/cwp.go:49-51 | changes exactly the profile with this href; an empty mode is left out |
| Profiles.CurrentAssignments | internal/controller/clusterprofile_controller.go:479-484 | the assigned href by key, restrictions aside, the last entry winning |
| Profiles.AssignedIsLast | internal/controller/clusterprofile_controller.go:479-484 | a key is assigned what its last assignment says |
| Profiles.SameLabelSet | internal/controller/clusterprofile_controller.go:497-507 | equal size and agreement on every key, a missing key reading as empty |
| Profiles.AgreeDecidesEqualityIffNonEmpty | internal/controller/clusterprofile_controller.go:497-507 | the comparison is map equality iff no href is empty |
| Profiles.CacheHit | internal/controller/clusterprofile_controller.go:459-467 | for keys without the separator a cached href is the label's own |
| Profiles.CachedHref | internal/controller/clusterprofile_controller.go:459-467 | the returned href is what EnsureLabel returns, from the cache or not |
| Profiles.BuildCwpUpdate | internal/controller/clusterprofile_controller.go:454-495 | the update carries the desired state, and changed is reported iff the profile is not in it |
| Profiles.IndexByNamespace | internal/controller/clusterprofile_controller.go:399-404 | the last profile listed for each namespace |
| Profiles.SelectedIsLast | internal/controller/clusterprofile_controller.go:399-404 | the chosen profile is the last one listed for a non-empty namespace name |
| Profiles.FinalProfile | internal/controller/clusterprofile_controller.go:410-419 | the desired profile raised to the effective enforcement, or an error and the unraised one |
| Profiles.FinalIsStrictest | internal/controller/clusterprofile_controller.go:410-419 | a managed namespace ends up with the strictest of its own mode and the requests, or its own when they cannot be listed; nothing else changes |
| Profiles.FinalIsUnique | internal/controller/clusterprofile_controller.go:410-419 | the inputs decide the profile; a managed one is at least visibility_only |
| Profiles.SettleNamespace | internal/controller/clusterprofile_controller.go:429-444 | one namespace's profile is settled or failed, and no other profile changes |
| Profiles.ReconcileNamespaceCwps | internal/controller/clusterprofile_controller.go:387-450 | what happens to each namespace, the counts, the number of updates, and an error iff a label or update failed or a managed namespace's CRs could not be listed; a failure leaves the other profiles alone |
| Profiles.CountsAddUp | internal/controller/clusterprofile_controller.go:420-447 | managed, pending and failed add up to the managed-intent namespaces |
| Profiles.CountsExactly | internal/controller/clusterprofile_controller.go:420-447 | managed counts the managed-intent namespaces in sync, pending those awaiting a profile |
| Profiles.AwaitingIffUnlisted | internal/controller/clusterprofile_controller.go:420-428 | a namespace waits iff no profile is listed for it |
| Profiles.CleanPassConverges | internal/controller/clusterprofile_controller.go:387-450 | after a clean pass every listed profile is managed as desired, has exactly the desired labels, and the desired mode if managed and else its old one |
| Profiles.AnnotationReachesProfile | internal/controller/clusterprofile_controller.go:408-443 | after a clean pass the profile of an annotated namespace is managed iff the annotation folds to "true" |
| Profiles.SecondPassIsQuiet | internal/controller/clusterprofile_controller.go:433-440 | a second pass on unchanged inputs sends no update and changes nothing, whichever of its own calls fail |
| Profiles.PassTwice | internal/controller/clusterprofile_controller.go:387-450 | two calls in a row: if the first reports no error, the second sends no update and changes no profile |
| Onboarding.Environment.FindContainerClusterByName | internal/pce/containercluster.go:34-45 | a cluster of this name, or none exists |
| Onboarding.Environment.CreateContainerCluster | internal/pce/containercluster.go:51-61 | a new cluster and its token, possibly with the reply lost |
| Onboarding.Environment.WriteCredentialsSecret | internal/controller/clusterprofile_controller.go:297-319 | an empty token or code leaves the stored one |
| Onboarding.ClusterUuidIsLastSegment | internal/pce/containercluster.go:63-69 | the cluster id is what follows the last slash of the href |
| Onboarding.Onboard | internal/controller/clusterprofile_controller.go:91-154 | stops after a prefix of create, store token, record, generate key, store code; undisturbed it is done iff it may; done in create mode, the Secret holds the key just issued, the address and the cluster id, and a new cluster's token |
| Onboarding.TokenIsNeverLost | internal/controller/clusterprofile_controller.go:129-147 | in every reachable state a recorded cluster has its one-time token in the Secret, and at most one was created |
| Onboarding.TokenStays | internal/controller/clusterprofile_controller.go:249-257 | once recorded, href and token never change |
| Onboarding.CodeStaysPublished | internal/controller/clusterprofile_controller.go:249-257 | every completed reconcile in create mode leaves an issued pairing code in the Secret, and from then on there is one |
| Onboarding.UnrecordedClusterIsADeadEnd | internal/controller/clusterprofile_controller.go:116-141 | a cluster that was created but not recorded is never recorded and never created again |
| Onboarding.TokenSavedExactly | internal/controller/clusterprofile_controller.go:91-147 | with the mode switched at will, a recorded cluster has its token in the Secret iff it was recorded in create mode or its token was there when it was adopted |
| Onboarding.AdoptedThenCreatedHasNoToken | internal/controller/clusterprofile_controller.go:96-108 | a run that adopts first and then switches to create ends with a recorded cluster and no token |
| Preflight.ProtoNameInjective | internal/controller/preflight.go:37-46 | distinct protocol numbers have distinct names |
| Preflight.ProtoNames | internal/controller/preflight.go:37-46 | 6 is TCP, 17 is UDP, any other number shows in decimal |
| Preflight.PeerKey | internal/controller/preflight.go:152-169 | the rendering in key order, in any iteration order |
| Preflight.PeerKeyFaithful | internal/controller/preflight.go:152-169 | equal keys mean equal labels, or equal addresses of peers without labels |
| Preflight.EqualsInKeyCollides | internal/controller/preflight.go:152-169 | every label key with a '=' in it shares its peer key with another label |
| Preflight.SemicolonInValueCollides | internal/controller/preflight.go:152-169 | every label value that spells out a later label after a ';' shares its peer key with the two labels |
| Preflight.SemicolonInAddressCollides | internal/controller/preflight.go:152-169 | every address of the form of a label's text shares its peer key with that label |
| Preflight.GroupFlows | internal/controller/preflight.go:76-116 | one entry per key of a blocked flow, described by its first flow, with the connections added up |
| Preflight.ClassifyFlows | internal/controller/preflight.go:76-128 | the findings are the groups, each once, strictly increasing by peer, port and protocol |
| Preflight.FindingsShowFlows | internal/controller/preflight.go:76-116 | a finding shows the first blocked flow of its group, inbound its source and outbound its destination, with the connections of the group; every blocked flow is in the group of a finding |
| Preflight.FindingsConserveConnections | internal/controller/preflight.go:76-128 | no connection of a blocked flow is lost or counted twice; there are no more findings than blocked flows |
| Preflight.GroupsUnordered | internal/controller/preflight.go:76-116 | permuting the flows changes neither the groups nor their connections |
| Preflight.SummarizeFlows | internal/controller/preflight.go:54-70 | the number of flows with each decision, adding up to all |
| Preflight.CountDecisionIsSize | internal/controller/preflight.go:54-70 | a count is the number of flows with this decision |
| Preflight.CapFindings | internal/controller/preflight.go:133-149 | the n busiest findings for any sort that respects the order; truncated iff something was dropped |
| Strings.SortedListingIsUnique | internal/controller/preflight.go:156-160 | sorting the keys gives one sequence whatever the order they were collected in |
| Strings.LessIsLexicographic | internal/controller/preflight.go:118-126 | strings compare by the first character that differs, a prefix before its extensions |

## Left out

- Runs.Next: reconciles are atomic with respect to other CRs and administrators; edits inside a running reconcile are outside the protocol's assumptions.
- Runs.ActiveIsComplete: an administrator who provisions an operator's draft by hand can publish it half rebuilt; administrators here provision only deletions of CR rulesets.
- Pce.DraftRuleSet: of update_type only "delete" is kept, the one value the operator tests.
- Pce.Client.CreateLabel: the PCE's refusal of a repeated external reference is not part of the store; LabelText.JoinedInjective shows that the operator never repeats one for keys without '='.
- Profiles.ReconcileNamespaceCwps: the per-namespace contract is for label keys without '|'; LabelText.JoinedCollides shows why. The frame, the counts and the error hold for all keys.
- Profiles.ProfileClient.Update: takes the position of the profile as a specification argument; the code has the href only.
- Preflight.ClassifyFlows: findings are values here, so the update of a finding through its pointer and the sort in place are modelled as reassignment.
- Preflight.CapFindings: the copy before the sort is implicit, since sequences are values.
- Profiles.PassTwice: for label keys without '|', like the per-namespace contract.
- Onboarding.Onboard: the pairing profile and its labels, the status conditions and requeue times; the text of a pairing key is the PCE's choice.
- HTTP, JSON, authentication, rate-limit waits and polling: calls have their abstract effect and the outcomes not-found, refused and failed.
- Kubernetes caching, watches, requeue durations and condition bookkeeping: library behaviour.
- Runs.OrphansIffUnmanagedOrUnreachable: a reconcile takes the outcome of the lookup as an input, and this lemma ties it to Clusters.ResolveClusterProfile; that a run's namespace and profiles change only by users' edits is not modelled.
- Effective enforcement in the policy status, and resolving the unknown-label mode from annotations: the mode is an input; both would only add easy members.
- Glob matching: an uninterpreted predicate on pattern and name.
- Texts of messages, events and logs, the LabelMap overlap warning, PCEConnection, PolicyInsight and RuleView gates.
