/**
 The status of a cluster: a health check records whether it can be reached, then a sync updates its
 conditions, phase and versions from what was observed, and stamps the conditions that changed.
*/
module ClusterStatus {
  import opened Wrappers
  import opened ClusterConditions

  datatype Phase =
    | NoPhase | Deploying | Deployed | OutOfSyncPhase | ErrorPhase | PausedPhase | UnknownPhase
    | OtherPhase(name: string)

  /** `status.sync.status` and `status.health.status` of the Argo CD Application. */
  datatype Sync = Blank | SyncedSync | OutOfSyncSync | UnknownSync | SyncingSync | OtherSync(name: string)

  datatype Health = Degraded | Suspended | Missing | OtherHealth(name: string)

  datatype Application = Application(sync: Sync, health: Health)

  /** A reconcile error, and whether it is a Kubernetes "not found". */
  datatype Failure = Failure(text: string, notFound: bool)

  /** What is known of the version of the management cluster, compared with the version of the spec. */
  datatype Management = VersionError(text: string) | VersionAbsent | Incompatible(why: string) | Compatible

  /** An entry of the applications map. */
  datatype Entry = Entry(health: string, revision: string, refreshed: Option<nat>, finished: Option<nat>)

  datatype Spec = Spec(name: string, version: string, paused: bool, generation: int)

  datatype Status = Status(conditions: seq<Condition>, phase: Phase, version: string, kubernetesVersion: string,
                           nodeCount: int, ceph: map<string, string>, apps: map<string, Entry>,
                           observedGeneration: int, lastSync: Option<nat>)

  /** What one sync is given; `deployed` and `subApps` are `None` when they cannot be read. */
  datatype Observed = Observed(failure: Option<Failure>, app: Option<Application>, kubernetesVersion: string,
                               nodeCount: int, ceph: Option<map<string, string>>, deployed: Option<string>,
                               management: Management, subApps: Option<seq<(string, Entry)>>, lastSync: Option<nat>)

  // ---------------------------------------------------------------------------------------------
  // Conditions and phase
  // ---------------------------------------------------------------------------------------------

  predicate OccursAt(text: string, part: string, i: nat) { i + |part| <= |text| && text[i..i + |part|] == part }

  /** `strings.Contains`. */
  predicate Contains(text: string, part: string) { exists i: nat :: i <= |text| && OccursAt(text, part, i) }

  /** The condition that a reconcile error falsifies, and why. */
  function Blame(f: Failure): (Type, Reason) {
    if Contains(f.text, "not supported") then (Ready, InvalidVersion)
    else if Contains(f.text, "connection.secretRef is required") then (Reachable, ConnectionConfigError)
    else if Contains(f.text, "invalid secret") then (Reachable, InvalidSecret)
    else if f.notFound || Contains(f.text, "not found") then (Reachable, SecretNotFound)
    else if Contains(f.text, "failed to reconcile clusters ConfigMap") then (Ready, ConfigMapReconcileFailed)
    else if Contains(f.text, "failed to remove cluster from configmap") then (Ready, ConfigMapCleanupFailed)
    else (Ready, HealthCheckFailed)
  }

  function BlameFact(f: Failure): Fact { Fact(False, Blame(f).1, f.text) }

  function ManagementFact(m: Management): Fact {
    match m
    case VersionError(text) =>
      Fact(Truth.Unknown, ManagementVersionUnknown, "Failed to get management version: " + text)
    case VersionAbsent =>
      Fact(True, VersionCompatible, "Management version could not be determined, assuming compatible")
    case Incompatible(why) => Fact(False, VersionIncompatible, why)
    case Compatible => Fact(True, VersionCompatible, "Cluster version is compatible with management version")
  }

  function SyncFact(s: Sync): Fact {
    match s
    case SyncedSync => Fact(True, Synced, "ArgoCD Application is synced")
    case OutOfSyncSync => Fact(False, OutOfSync, "ArgoCD Application is out of sync")
    case UnknownSync => Fact(Truth.Unknown, SyncUnknown, "ArgoCD Application status is unknown")
    case SyncingSync => Fact(False, Syncing, "ArgoCD Application is syncing")
    case Blank => Fact(Truth.Unknown, SyncUnknown, "ArgoCD Application sync status is not yet available")
    case OtherSync(name) => Fact(False, SyncFailed, "ArgoCD Application sync status: " + name)
  }

  function ApplicationFact(a: Application): Fact {
    var f := SyncFact(a.sync);
    match a.health
    case Degraded => Fact(False, HealthCheckFailed, f.message + " (Health: Degraded)")
    case Suspended => Fact(Truth.Unknown, f.reason, f.message + " (Health: Suspended)")
    case Missing => Fact(Truth.Unknown, f.reason, f.message + " (Health: Missing)")
    case OtherHealth(_) => f
  }

  function ApplicationPhase(a: Application, previous: Phase): Phase {
    match a.health
    case Degraded => ErrorPhase
    case Suspended => UnknownPhase
    case Missing => UnknownPhase
    case OtherHealth(_) =>
      match a.sync
      case SyncedSync => Deployed
      case OutOfSyncSync => OutOfSyncPhase
      case UnknownSync => UnknownPhase
      case SyncingSync => Deploying
      case Blank => if previous == NoPhase then UnknownPhase else previous
      case OtherSync(_) => ErrorPhase
  }

  /** The conditions once the error, the application and the pause are accounted for. */
  function Explained(cs: seq<Condition>, spec: Spec, o: Observed): seq<Condition> {
    var c1 := Put(cs, New(CompatibleVersion, ManagementFact(o.management)));
    var c2 := Blamed(c1, o.failure);
    var c3 := if o.app.Some? && !spec.paused then Put(c2, New(ArgoCDSynced, ApplicationFact(o.app.value))) else c2;
    if spec.paused then Put(c3, New(PausedType, Fact(True, Reason.Paused, "Synchronization is paused"))) else c3
  }

  function Blamed(cs: seq<Condition>, failure: Option<Failure>): seq<Condition> {
    match failure
    case None => cs
    case Some(f) =>
      var c := Put(cs, New(Blame(f).0, BlameFact(f)));
      if Blame(f).0 == Reachable then Put(c, New(Ready, BlameFact(f))) else c
  }

  /** `updateReadyCondition`. */
  function ReadyFact(cs: seq<Condition>, failed: bool): Fact {
    var reachable, argo, compatible, ready :=
      Says(cs, Reachable), Says(cs, ArgoCDSynced), Says(cs, CompatibleVersion), Says(cs, Ready);
    var before :=
      if failed && ready.Some? && ready.value.status == False then ready.value
      else Fact(True, ReconcileSuccess, "Cluster is ready");
    if !(reachable.Some? && reachable.value.status == True) then
      Fact(False, ConnectionFailed,
           if reachable.Some? && reachable.value.message != "" then "Cluster is unreachable: " + reachable.value.message
           else "Cluster is unreachable")
    else if compatible.Some? && compatible.value.status == False then compatible.value
    else if argo.Some? && argo.value.status != True && before.status != False then argo.value
    else before
  }

  /** `isSynced`. */
  predicate IsSynced(cs: seq<Condition>) {
    exists i :: 0 <= i < |cs| && cs[i].kind == ArgoCDSynced && cs[i].fact.status == True
  }

  /** The phase, given the one the application was mapped to. */
  function FinalPhase(mapped: Phase, synced: bool, spec: Spec, o: Observed, version: string): Phase {
    var p :=
      if o.failure.Some? then ErrorPhase
      else if spec.paused then PausedPhase
      else if synced then Deployed
      else if mapped == NoPhase then Deploying
      else mapped;
    if p == Deployed && version != spec.version && version != "" then Deploying else p
  }

  /** The applications handled by the root one, which is left out. */
  function AppsOf(listed: seq<(string, Entry)>, root: string): map<string, Entry> {
    if listed == [] then map[]
    else
      var (rest, last) := (AppsOf(listed[..|listed| - 1], root), listed[|listed| - 1]);
      if last.0 == "" || last.0 == root then rest else rest[last.0 := last.1]
  }

  function DeployedVersion(version: string, o: Observed): string {
    if o.failure.None? && o.deployed.Some? && o.deployed.value != "" then o.deployed.value else version
  }

  /** The phase that `applyApplicationStatus` leaves, when it runs. */
  function MappedPhase(previous: Phase, spec: Spec, o: Observed): Phase {
    if o.app.Some? && !spec.paused then ApplicationPhase(o.app.value, previous) else previous
  }

  /** The conditions after a sync. */
  function SyncedConditions(cs: seq<Condition>, spec: Spec, o: Observed, now: nat): seq<Condition> {
    var explained := Explained(cs, spec, o);
    Stamped(Put(explained, New(Ready, ReadyFact(explained, o.failure.Some?))), cs, spec.generation, now)
  }

  /** The status after a sync. */
  function AfterSync(st: Status, spec: Spec, o: Observed, now: nat): Status {
    var version := DeployedVersion(st.version, o);
    Status(SyncedConditions(st.conditions, spec, o, now),
           FinalPhase(MappedPhase(st.phase, spec, o), IsSynced(Explained(st.conditions, spec, o)), spec, o, version),
           version,
           if o.kubernetesVersion != "" then o.kubernetesVersion else st.kubernetesVersion,
           if o.nodeCount > 0 then o.nodeCount else st.nodeCount,
           if o.ceph.Some? then o.ceph.value else st.ceph,
           if o.subApps.Some? then AppsOf(o.subApps.value, spec.name) else st.apps,
           spec.generation,
           if o.lastSync.Some? then o.lastSync else st.lastSync)
  }

  // ---------------------------------------------------------------------------------------------
  // What the conditions say after a sync
  // ---------------------------------------------------------------------------------------------

  lemma ExplainedSays(cs: seq<Condition>, spec: Spec, o: Observed, t: Type)
    ensures Says(Explained(cs, spec, o), t) ==
      match t
      case CompatibleVersion => Some(ManagementFact(o.management))
      case Reachable =>
        if o.failure.Some? && Blame(o.failure.value).0 == Reachable then Some(BlameFact(o.failure.value))
        else Says(cs, t)
      case Ready => if o.failure.Some? then Some(BlameFact(o.failure.value)) else Says(cs, t)
      case ArgoCDSynced => if o.app.Some? && !spec.paused then Some(ApplicationFact(o.app.value)) else Says(cs, t)
      case PausedType =>
        if spec.paused then Some(Fact(True, Reason.Paused, "Synchronization is paused")) else Says(cs, t)
      case OtherType(_) => Says(cs, t)
  {
    hide Put, Says, ManagementFact, ApplicationFact, BlameFact, Contains;
    var c1 := Put(cs, New(CompatibleVersion, ManagementFact(o.management)));
    PutSays(cs, New(CompatibleVersion, ManagementFact(o.management)), t);
    BlamedSays(c1, o.failure, t);
    var c2 := Blamed(c1, o.failure);
    if o.app.Some? { PutSays(c2, New(ArgoCDSynced, ApplicationFact(o.app.value)), t); }
    var c3 := if o.app.Some? && !spec.paused then Put(c2, New(ArgoCDSynced, ApplicationFact(o.app.value))) else c2;
    PutSays(c3, New(PausedType, Fact(True, Reason.Paused, "Synchronization is paused")), t);
  }

  lemma BlamedSays(cs: seq<Condition>, failure: Option<Failure>, t: Type)
    ensures Says(Blamed(cs, failure), t) ==
      if failure.Some? && (t == Ready || t == Blame(failure.value).0) then Some(BlameFact(failure.value))
      else Says(cs, t)
    ensures failure.Some? ==> Blame(failure.value).0 in {Ready, Reachable}
  {
    if failure.Some? {
      var f := failure.value;
      var c := New(Blame(f).0, BlameFact(f));
      PutSays(cs, c, t);
      PutSays(Put(cs, c), New(Ready, BlameFact(f)), t);
    }
  }

  lemma SyncedSays(cs: seq<Condition>, spec: Spec, o: Observed, now: nat, t: Type)
    ensures Says(SyncedConditions(cs, spec, o, now), t) ==
      if t == Ready then Some(ReadyFact(Explained(cs, spec, o), o.failure.Some?)) else Says(Explained(cs, spec, o), t)
  {
    hide Put, Says, Explained, ReadyFact;
    var explained := Explained(cs, spec, o);
    var ready := New(Ready, ReadyFact(explained, o.failure.Some?));
    PutSays(explained, ready, t);
    StampedSays(Put(explained, ready), cs, spec.generation, now, t);
  }

  /**
   After every sync the cluster is ready exactly when the reconcile did not fail, the cluster is
   reachable, its version is not incompatible, and its application is synced if it has one.
  */
  lemma ReadyIff(cs: seq<Condition>, spec: Spec, o: Observed, now: nat)
    ensures var after := SyncedConditions(cs, spec, o, now);
      var (ready, reachable, compatible, argo) :=
        (Says(after, Ready), Says(after, Reachable), Says(after, CompatibleVersion), Says(after, ArgoCDSynced));
      && ready.Some?
      && (ready.value.status == True <==>
            && o.failure.None?
            && (reachable.Some? && reachable.value.status == True)
            && !(compatible.Some? && compatible.value.status == False)
            && (argo.Some? ==> argo.value.status == True))
  {
    hide Says, Explained, Put, SyncedConditions;
    SyncedSays(cs, spec, o, now, Ready);
    SyncedSays(cs, spec, o, now, Reachable);
    SyncedSays(cs, spec, o, now, CompatibleVersion);
    SyncedSays(cs, spec, o, now, ArgoCDSynced);
    ExplainedSays(cs, spec, o, Ready);
  }

  // ---------------------------------------------------------------------------------------------
  // One condition per type, over every run
  // ---------------------------------------------------------------------------------------------

  lemma SyncedUnique(cs: seq<Condition>, spec: Spec, o: Observed, now: nat)
    requires Unique(cs)
    ensures Unique(Explained(cs, spec, o)) && Unique(SyncedConditions(cs, spec, o, now))
  {
    hide Put, Unique, ManagementFact, ApplicationFact, BlameFact, Blame;
    var c1 := Put(cs, New(CompatibleVersion, ManagementFact(o.management)));
    PutUnique(cs, New(CompatibleVersion, ManagementFact(o.management)));
    if o.failure.Some? {
      var f := o.failure.value;
      PutUnique(c1, New(Blame(f).0, BlameFact(f)));
      PutUnique(Put(c1, New(Blame(f).0, BlameFact(f))), New(Ready, BlameFact(f)));
    }
    var c2 := Blamed(c1, o.failure);
    if o.app.Some? { PutUnique(c2, New(ArgoCDSynced, ApplicationFact(o.app.value))); }
    var c3 := if o.app.Some? && !spec.paused then Put(c2, New(ArgoCDSynced, ApplicationFact(o.app.value))) else c2;
    PutUnique(c3, New(PausedType, Fact(True, Reason.Paused, "Synchronization is paused")));
    var explained := Explained(cs, spec, o);
    var ready := New(Ready, ReadyFact(explained, o.failure.Some?));
    PutUnique(explained, ready);
    StampedUnique(Put(explained, ready), cs, spec.generation, now);
  }

  lemma StampedUnique(cs: seq<Condition>, before: seq<Condition>, generation: int, now: nat)
    requires Unique(cs)
    ensures Unique(Stamped(cs, before, generation, now))
  {
  }

  /**
   A sync with its inputs, and what the health check wrote before it of the cluster being reachable:
   nothing when there was none, when it could not connect, or when the same reconcile syncs again.
  */
  datatype Step = Step(health: Option<Fact>, spec: Spec, observed: Observed, now: nat)

  /** `setReachableCondition`. */
  function Checked(cs: seq<Condition>, health: Option<Fact>): seq<Condition> {
    match health case Some(f) => Put(cs, New(Reachable, f)) case None => cs
  }

  function AfterStep(st: Status, s: Step): Status {
    AfterSync(st.(conditions := Checked(st.conditions, s.health)), s.spec, s.observed, s.now)
  }

  function Run(st: Status, steps: seq<Step>): Status {
    if steps == [] then st else AfterStep(Run(st, steps[..|steps| - 1]), steps[|steps| - 1])
  }

  lemma {:induction false} RunKeepsUnique(st: Status, steps: seq<Step>)
    requires Unique(st.conditions)
    ensures Unique(Run(st, steps).conditions)
  {
    if steps != [] {
      var (rest, s) := (steps[..|steps| - 1], steps[|steps| - 1]);
      var cs := Run(st, rest).conditions;
      RunKeepsUnique(st, rest);
      if s.health.Some? { PutUnique(cs, New(Reachable, s.health.value)); }
      SyncedUnique(Checked(cs, s.health), s.spec, s.observed, s.now);
    }
  }

  /**
   A transition time moves to the clock exactly when what the condition says changed over the sync
   (or was never stamped); what the sync wrote in between does not count.
  */
  lemma TransitionRule(cs: seq<Condition>, spec: Spec, o: Observed, now: nat, t: Type)
    requires now > 0
    ensures var (before, after) := (Find(cs, t), Find(SyncedConditions(cs, spec, o, now), t));
      var kept := before.Some? && after.Some? && before.value.fact == after.value.fact && before.value.changed != 0;
      && (before.Some? ==> after.Some?)
      && (after.Some? ==> after.value.changed == if kept then before.value.changed else now)
  {
    hide Explained, ReadyFact, Put;
    var explained := Explained(cs, spec, o);
    var put := Put(explained, New(Ready, ReadyFact(explained, o.failure.Some?)));
    var after := SyncedConditions(cs, spec, o, now);
    FindIsFirst(after, t);
    if Find(after, t).None? {
      SyncedSays(cs, spec, o, now, t);
      ExplainedSays(cs, spec, o, t);
    } else {
      var i :| 0 <= i < |after| && after[i] == Find(after, t).value;
      assert after[i].changed == ChangedAt(put[i], cs, now) && put[i].kind == t;
    }
  }

  /**
   The condition says the same before and after the step, and the health check wrote nothing else of
   it in between.
  */
  predicate Quiet(st: Status, s: Step, t: Type) {
    && Says(AfterStep(st, s).conditions, t) == Says(st.conditions, t)
    && (t == Reachable && s.health.Some? ==> s.health == Says(st.conditions, t))
  }

  /** A transition time stays over a quiet step, and moves to the clock over any other. */
  lemma StepTime(st: Status, s: Step, t: Type)
    requires Find(st.conditions, t).Some? && Find(st.conditions, t).value.changed != 0 && s.now > 0
    ensures var after := Find(AfterStep(st, s).conditions, t);
      after.Some? && after.value.changed == if Quiet(st, s, t) then Find(st.conditions, t).value.changed else s.now
  {
    hide SyncedConditions, Put;
    if s.health.Some? { PutFind(st.conditions, New(Reachable, s.health.value), t); }
    TransitionRule(Checked(st.conditions, s.health), s.spec, s.observed, s.now, t);
  }

  predicate AllQuiet(st: Status, steps: seq<Step>, t: Type) {
    forall k :: 0 <= k < |steps| ==> Quiet(Run(st, steps[..k]), steps[k], t)
  }

  lemma AllQuietNext(st: Status, steps: seq<Step>, t: Type)
    requires steps != []
    ensures var n := |steps| - 1;
      AllQuiet(st, steps, t) <==> AllQuiet(st, steps[..n], t) && Quiet(Run(st, steps[..n]), steps[n], t)
  {
    hide Run, Quiet;
    var n := |steps| - 1;
    forall k | 0 <= k < n ensures steps[..n][..k] == steps[..k] && steps[..n][k] == steps[k] { }
    if AllQuiet(st, steps[..n], t) && Quiet(Run(st, steps[..n]), steps[n], t) {
      forall k | 0 <= k < |steps| ensures Quiet(Run(st, steps[..k]), steps[k], t) {
        if k < n { assert Quiet(Run(st, steps[..n][..k]), steps[..n][k], t); }
      }
    }
  }

  /** Over every run, a transition time is at the end what it was exactly when every step was quiet. */
  lemma {:induction false} StandsStillIff(st: Status, steps: seq<Step>, t: Type)
    requires Find(st.conditions, t).Some? && Find(st.conditions, t).value.changed != 0
    requires forall s :: s in steps ==> s.now > Find(st.conditions, t).value.changed
    ensures var (before, after) := (Find(st.conditions, t).value, Find(Run(st, steps).conditions, t));
      && after.Some? && after.value.changed >= before.changed
      && (after.value.changed == before.changed <==> AllQuiet(st, steps, t))
  {
    hide AfterStep, Quiet, Says, AllQuiet;
    if steps == [] {
      QuietAtStart(st, t);
    } else {
      var n := |steps| - 1;
      StandsStillIff(st, steps[..n], t);
      StepTime(Run(st, steps[..n]), steps[n], t);
      AllQuietNext(st, steps, t);
    }
  }

  lemma QuietAtStart(st: Status, t: Type)
    ensures AllQuiet(st, [], t)
  {
  }

  /**
   While the health check finds something else and every reconcile then fails for a reason that is
   blamed on the connection, the cluster is said to be unreachable for the same reason after every
   step, and the transition time is that of the last one.
  */
  lemma {:induction false} ReachableFlaps(st: Status, steps: seq<Step>, f: Failure)
    requires Says(st.conditions, Reachable) == Some(BlameFact(f)) && Blame(f).0 == Reachable
    requires forall s :: s in steps ==>
      s.health.Some? && s.health.value != BlameFact(f) && s.observed.failure == Some(f) && s.now > 0
    ensures Says(Run(st, steps).conditions, Reachable) == Some(BlameFact(f))
    ensures steps != [] ==> Find(Run(st, steps).conditions, Reachable).value.changed == steps[|steps| - 1].now
  {
    hide SyncedConditions, Put, Explained, BlameFact, Blame;
    if steps != [] {
      var n := |steps| - 1;
      var s := steps[n];
      ReachableFlaps(st, steps[..n], f);
      var before := Run(st, steps[..n]);
      var cs := Checked(before.conditions, s.health);
      PutFind(before.conditions, New(Reachable, s.health.value), Reachable);
      SyncedSays(cs, s.spec, s.observed, s.now, Reachable);
      ExplainedSays(cs, s.spec, s.observed, Reachable);
      TransitionRule(cs, s.spec, s.observed, s.now, Reachable);
    }
  }

  // ---------------------------------------------------------------------------------------------
  // Idempotence
  // ---------------------------------------------------------------------------------------------

  /** A second sync with the same inputs says the same. */
  lemma SaysTheSame(cs: seq<Condition>, spec: Spec, o: Observed, now: nat, later: nat, t: Type)
    ensures var once := SyncedConditions(cs, spec, o, now);
      && Says(SyncedConditions(once, spec, o, later), t) == Says(once, t)
      && (t != Ready || o.failure.Some? ==> Says(Explained(once, spec, o), t) == Says(Explained(cs, spec, o), t))
  {
    hide Says, Explained, Put, SyncedConditions, Blame, BlameFact, ManagementFact, ApplicationFact;
    var once := SyncedConditions(cs, spec, o, now);
    if t != Ready || o.failure.Some? { SameExplained(cs, spec, o, now, t); }
    if o.failure.Some? { SameExplained(cs, spec, o, now, Ready); }
    SameExplained(cs, spec, o, now, Reachable);
    SameExplained(cs, spec, o, now, ArgoCDSynced);
    SameExplained(cs, spec, o, now, CompatibleVersion);
    SyncedSays(cs, spec, o, now, t);
    SyncedSays(once, spec, o, later, t);
  }

  lemma SameExplained(cs: seq<Condition>, spec: Spec, o: Observed, now: nat, t: Type)
    requires t != Ready || o.failure.Some?
    ensures Says(Explained(SyncedConditions(cs, spec, o, now), spec, o), t) == Says(Explained(cs, spec, o), t)
  {
    hide Says, Explained, Put, SyncedConditions, ReadyFact, Blame, BlameFact, ManagementFact, ApplicationFact;
    var once := SyncedConditions(cs, spec, o, now);
    SyncedSays(cs, spec, o, now, t);
    ExplainedSays(cs, spec, o, t);
    ExplainedSays(once, spec, o, t);
  }

  predicate Extends(longer: seq<Condition>, cs: seq<Condition>) {
    |cs| <= |longer| && forall i :: 0 <= i < |cs| ==> longer[i].kind == cs[i].kind
  }

  lemma PutExtends(cs: seq<Condition>, c: Condition)
    ensures Extends(Put(cs, c), cs)
  {
    PutKinds(cs, c);
    assert forall i :: 0 <= i < |cs| ==> Kinds(Put(cs, c))[i] == Kinds(cs)[i];
  }

  /** A sync keeps the conditions in place, and adds after them. */
  lemma SyncExtends(cs: seq<Condition>, spec: Spec, o: Observed, now: nat)
    ensures Extends(SyncedConditions(cs, spec, o, now), cs)
  {
    hide Put, Blame, BlameFact, ManagementFact, ApplicationFact, ReadyFact;
    var compatible := New(CompatibleVersion, ManagementFact(o.management));
    var c1 := Put(cs, compatible);
    PutExtends(cs, compatible);
    if o.failure.Some? {
      var f := o.failure.value;
      PutExtends(c1, New(Blame(f).0, BlameFact(f)));
      PutExtends(Put(c1, New(Blame(f).0, BlameFact(f))), New(Ready, BlameFact(f)));
    }
    var c2 := Blamed(c1, o.failure);
    assert Extends(c2, cs);
    if o.app.Some? { PutExtends(c2, New(ArgoCDSynced, ApplicationFact(o.app.value))); }
    var c3 := if o.app.Some? && !spec.paused then Put(c2, New(ArgoCDSynced, ApplicationFact(o.app.value))) else c2;
    PutExtends(c3, New(PausedType, Fact(True, Reason.Paused, "Synchronization is paused")));
    var explained := Explained(cs, spec, o);
    assert Extends(explained, cs);
    PutExtends(explained, New(Ready, ReadyFact(explained, o.failure.Some?)));
  }

  lemma SameLength(cs: seq<Condition>, spec: Spec, o: Observed, now: nat, later: nat)
    requires Unique(cs)
    ensures var once := SyncedConditions(cs, spec, o, now); |SyncedConditions(once, spec, o, later)| == |once|
  {
    hide SyncedConditions, Says;
    var once := SyncedConditions(cs, spec, o, now);
    var twice := SyncedConditions(once, spec, o, later);
    SyncedUnique(cs, spec, o, now);
    SyncedUnique(once, spec, o, later);
    SyncExtends(once, spec, o, later);
    if |twice| > |once| {
      var t := twice[|once|].kind;
      SaysTheSame(cs, spec, o, now, later, t);
      SaysNone(once, t);
      SaysNone(twice, t);
    }
  }

  /** A second sync with the same inputs, at a later clock, leaves every condition as it is. */
  lemma SameConditions(cs: seq<Condition>, spec: Spec, o: Observed, now: nat, later: nat)
    requires Unique(cs) && now > 0 && later > 0
    ensures var once := SyncedConditions(cs, spec, o, now); SyncedConditions(once, spec, o, later) == once
  {
    var once := SyncedConditions(cs, spec, o, now);
    var twice := SyncedConditions(once, spec, o, later);
    forall i | 0 <= i < |once| ensures once[i].generation == spec.generation { }
    forall i | 0 <= i < |twice| ensures twice[i].generation == spec.generation { }
    hide SyncedConditions;
    SameLength(cs, spec, o, now, later);
    SyncedUnique(cs, spec, o, now);
    SyncedUnique(once, spec, o, later);
    SyncExtends(once, spec, o, later);
    forall i | 0 <= i < |once| ensures twice[i] == once[i] {
      var t := once[i].kind;
      FindUnique(once, i);
      FindUnique(twice, i);
      SaysTheSame(cs, spec, o, now, later, t);
      TransitionRule(cs, spec, o, now, t);
      TransitionRule(once, spec, o, later, t);
    }
  }

  lemma IsSyncedSays(cs: seq<Condition>)
    requires Unique(cs)
    ensures IsSynced(cs) <==> Says(cs, ArgoCDSynced).Some? && Says(cs, ArgoCDSynced).value.status == True
  {
    FindIsFirst(cs, ArgoCDSynced);
    if IsSynced(cs) {
      var i :| 0 <= i < |cs| && cs[i].kind == ArgoCDSynced && cs[i].fact.status == True;
      FindUnique(cs, i);
    }
  }

  /** A second sync with the same inputs, at a later clock, changes nothing. */
  lemma SyncIsIdempotent(st: Status, spec: Spec, o: Observed, now: nat, later: nat)
    requires Unique(st.conditions) && now > 0 && later > 0
    ensures AfterSync(AfterSync(st, spec, o, now), spec, o, later) == AfterSync(st, spec, o, now)
  {
    hide SyncedConditions, Explained, IsSynced, AppsOf;
    var cs, once := st.conditions, SyncedConditions(st.conditions, spec, o, now);
    SameConditions(cs, spec, o, now, later);
    SyncedUnique(cs, spec, o, now);
    SyncedUnique(once, spec, o, later);
    IsSyncedSays(Explained(cs, spec, o));
    IsSyncedSays(Explained(once, spec, o));
    SaysTheSame(cs, spec, o, now, later, ArgoCDSynced);
    if o.app.Some? && !spec.paused { SyncedApplication(cs, spec, o); }
  }

  /** An application mapped to "deployed" from another phase is synced. */
  lemma SyncedApplication(cs: seq<Condition>, spec: Spec, o: Observed)
    requires Unique(cs) && o.app.Some? && !spec.paused
    ensures IsSynced(Explained(cs, spec, o)) <==> ApplicationFact(o.app.value).status == True
  {
    hide Explained;
    SyncedUnique(cs, spec, o, 1);
    IsSyncedSays(Explained(cs, spec, o));
    ExplainedSays(cs, spec, o, ArgoCDSynced);
  }

  /**
   After a sync the phase is "deployed" exactly when nothing failed, the cluster is not paused, the
   deployed version is unknown or the wanted one, and the application is synced, or was deployed
   before and says nothing of its sync.
  */
  lemma DeployedIff(st: Status, spec: Spec, o: Observed, now: nat)
    requires Unique(st.conditions)
    ensures var after := AfterSync(st, spec, o, now);
      var argo := Says(after.conditions, ArgoCDSynced);
      after.phase == Deployed <==>
        && o.failure.None? && !spec.paused
        && (after.version == "" || after.version == spec.version)
        && (|| (argo.Some? && argo.value.status == True)
            || (st.phase == Deployed
              && (o.app.None? || (o.app.value.sync == Blank && o.app.value.health.OtherHealth?))))
  {
    hide SyncedConditions, Explained, IsSynced, AppsOf;
    SyncedUnique(st.conditions, spec, o, now);
    IsSyncedSays(Explained(st.conditions, spec, o));
    SyncedSays(st.conditions, spec, o, now, ArgoCDSynced);
    if o.app.Some? && !spec.paused { SyncedApplication(st.conditions, spec, o); }
  }

  /** The periodic sync is never held back by its guard: a cluster left ready did not fail to reconcile. */
  lemma ReadyMeansNoFailure(st: Status, spec: Spec, o: Observed, now: nat)
    requires Unique(st.conditions)
    ensures var cs := AfterSync(st, spec, o, now).conditions;
      o.failure.Some? ==> forall i :: 0 <= i < |cs| && cs[i].kind == Ready ==> cs[i].fact.status != True
  {
    hide Explained;
    var cs := SyncedConditions(st.conditions, spec, o, now);
    SyncedUnique(st.conditions, spec, o, now);
    ReadyIff(st.conditions, spec, o, now);
    forall i | 0 <= i < |cs| && cs[i].kind == Ready ensures o.failure.Some? ==> cs[i].fact.status != True {
      FindUnique(cs, i);
    }
  }
}
