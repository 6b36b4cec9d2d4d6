/** The status sync as it is run, updating the cluster in place. */
module ClusterSync {
  import opened Wrappers
  import opened ClusterConditions
  import opened ClusterStatus

  class Cluster {
    var spec: Spec
    var conditions: seq<Condition>
    var phase: Phase
    var version: string
    var kubernetesVersion: string
    var nodeCount: int
    var ceph: map<string, string>
    var apps: map<string, Entry>
    var observedGeneration: int
    var lastSync: Option<nat>

    function State(): Status reads this {
      Status(conditions, phase, version, kubernetesVersion, nodeCount, ceph, apps, observedGeneration, lastSync)
    }

    constructor (spec: Spec)
      ensures this.spec == spec && State() == Status([], NoPhase, "", "", 0, map[], map[], 0, None)
    {
      this.spec, conditions, phase, version, kubernetesVersion := spec, [], NoPhase, "", "";
      nodeCount, ceph, apps, observedGeneration, lastSync := 0, map[], map[], 0, None;
    }

    method SetCondition(c: Condition)
      modifies this`conditions
      ensures conditions == Put(old(conditions), c)
    {
      for i := 0 to |conditions|
        invariant conditions == old(conditions)
        invariant forall j :: 0 <= j < i ==> conditions[j].kind != c.kind
      {
        var found := conditions[i];
        if found.kind == c.kind {
          PutAt(conditions, c, i);
          if found.fact == c.fact { return; }
          conditions := conditions[i := c];
          return;
        }
      }
      PutAt(conditions, c, |conditions|);
      conditions := conditions + [c];
    }

    method ComputeSynced() returns (synced: bool)
      ensures synced == IsSynced(conditions)
    {
      for i := 0 to |conditions|
        invariant forall j :: 0 <= j < i ==> !(conditions[j].kind == ArgoCDSynced && conditions[j].fact.status == True)
      {
        if conditions[i].kind == ArgoCDSynced && conditions[i].fact.status == True { return true; }
      }
      return false;
    }

    method UpdateApps(listed: Option<seq<(string, Entry)>>)
      modifies this`apps
      ensures apps == if listed.Some? then AppsOf(listed.value, spec.name) else old(apps)
    {
      if listed.None? { return; }
      var list := listed.value;
      var found: map<string, Entry> := map[];
      for i := 0 to |list|
        invariant found == AppsOf(list[..i], spec.name)
      {
        assert list[..i + 1][..i] == list[..i];
        if list[i].0 != "" && list[i].0 != spec.name { found := found[list[i].0 := list[i].1]; }
      }
      assert list[..|list|] == list;
      apps := found;
    }

    method BlameFailure(f: Failure)
      modifies this`conditions
      ensures conditions == Blamed(old(conditions), Some(f))
    {
      var (kind, reason) := Blame(f);
      SetCondition(New(kind, Fact(False, reason, f.text)));
      if kind == Reachable { SetCondition(New(Ready, Fact(False, reason, f.text))); }
    }

    method ApplyApplication(app: Application)
      modifies this`conditions, this`phase
      ensures conditions == Put(old(conditions), New(ArgoCDSynced, ApplicationFact(app)))
      ensures phase == ApplicationPhase(app, old(phase))
    {
      var fact, mapped := SyncFact(app.sync), phase;
      match app.sync {
        case SyncedSync => mapped := Deployed;
        case OutOfSyncSync => mapped := OutOfSyncPhase;
        case UnknownSync => mapped := UnknownPhase;
        case SyncingSync => mapped := Deploying;
        case Blank => if mapped == NoPhase { mapped := UnknownPhase; }
        case OtherSync(_) => mapped := ErrorPhase;
      }
      match app.health {
        case Degraded =>
          mapped, fact := ErrorPhase, Fact(False, HealthCheckFailed, fact.message + " (Health: Degraded)");
        case Suspended =>
          mapped, fact := UnknownPhase, Fact(Truth.Unknown, fact.reason, fact.message + " (Health: Suspended)");
        case Missing =>
          mapped, fact := UnknownPhase, Fact(Truth.Unknown, fact.reason, fact.message + " (Health: Missing)");
        case OtherHealth(_) =>
      }
      SetCondition(New(ArgoCDSynced, fact));
      phase := mapped;
    }

    method UpdateReady(failed: bool)
      modifies this`conditions
      ensures conditions == Put(old(conditions), New(Ready, ReadyFact(old(conditions), failed)))
    {
      var reachable, argo := Says(conditions, Reachable), Says(conditions, ArgoCDSynced);
      var compatible, ready := Says(conditions, CompatibleVersion), Says(conditions, Ready);
      var fact := Fact(True, ReconcileSuccess, "Cluster is ready");
      if failed && ready.Some? && ready.value.status == False { fact := ready.value; }
      if !(reachable.Some? && reachable.value.status == True) {
        fact := Fact(False, ConnectionFailed, "Cluster is unreachable");
        if reachable.Some? && reachable.value.message != "" {
          fact := fact.(message := "Cluster is unreachable: " + reachable.value.message);
        }
      } else if compatible.Some? && compatible.value.status == False {
        fact := compatible.value;
      } else if argo.Some? && argo.value.status != True {
        if fact.status != False { fact := argo.value; }
      }
      SetCondition(New(Ready, fact));
    }

    /** `before` are the conditions at the start of the sync. */
    method Stamp(before: seq<Condition>, now: nat)
      modifies this`conditions
      ensures conditions == Stamped(old(conditions), before, spec.generation, now)
    {
      ghost var cs := conditions;
      for i := 0 to |conditions|
        invariant |conditions| == |cs|
        invariant forall j :: 0 <= j < i ==>
          conditions[j] == Condition(cs[j].kind, cs[j].fact, spec.generation, ChangedAt(cs[j], before, now))
        invariant forall j :: i <= j < |cs| ==> conditions[j] == cs[j]
      {
        var c := conditions[i].(generation := spec.generation, changed := now);
        var known := Find(before, c.kind);
        if known.Some? && known.value.fact == c.fact && known.value.changed != 0 {
          c := c.(changed := known.value.changed);
        }
        conditions := conditions[i := c];
      }
    }

    /** The conditions once everything but readiness is accounted for, with the phase the application is mapped to. */
    method Explain(o: Observed)
      modifies this`conditions, this`phase
      ensures conditions == Explained(old(conditions), spec, o)
      ensures phase == MappedPhase(old(phase), spec, o)
    {
      SetCondition(New(CompatibleVersion, ManagementFact(o.management)));
      if o.failure.Some? { BlameFailure(o.failure.value); }
      if o.app.Some? && !spec.paused { ApplyApplication(o.app.value); }
      if spec.paused { SetCondition(New(PausedType, Fact(True, Reason.Paused, "Synchronization is paused"))); }
    }

    method DeterminePhase(o: Observed)
      modifies this`phase
      ensures phase == FinalPhase(old(phase), IsSynced(conditions), spec, o, version)
    {
      var next := if phase == NoPhase || phase == UnknownPhase then Deploying else phase;
      var synced := ComputeSynced();
      if o.failure.Some? {
        next := ErrorPhase;
      } else if spec.paused {
        next := PausedPhase;
      } else if synced {
        next := Deployed;
      } else if phase != NoPhase {
        next := phase;
      }
      if next == Deployed && version != spec.version && version != "" { next := Deploying; }
      phase := next;
    }

    method UpdateVersions(o: Observed)
      modifies this`kubernetesVersion, this`nodeCount, this`ceph, this`version
      ensures kubernetesVersion == if o.kubernetesVersion != "" then o.kubernetesVersion else old(kubernetesVersion)
      ensures nodeCount == if o.nodeCount > 0 then o.nodeCount else old(nodeCount)
      ensures ceph == if o.ceph.Some? then o.ceph.value else old(ceph)
      ensures version == DeployedVersion(old(version), o)
    {
      if o.kubernetesVersion != "" { kubernetesVersion := o.kubernetesVersion; }
      if o.nodeCount > 0 { nodeCount := o.nodeCount; }
      if o.ceph.Some? { ceph := o.ceph.value; }
      if o.failure.None? && o.deployed.Some? && o.deployed.value != "" { version := o.deployed.value; }
    }

    method UpdateConditions(o: Observed, now: nat)
      modifies this`conditions, this`phase
      ensures conditions == SyncedConditions(old(conditions), spec, o, now)
      ensures phase == FinalPhase(MappedPhase(old(phase), spec, o), IsSynced(Explained(old(conditions), spec, o)),
        spec, o, version)
    {
      hide Explained, Put, ReadyFact, Stamped, FinalPhase, IsSynced, MappedPhase;
      var before := conditions;
      Explain(o);
      DeterminePhase(o);
      UpdateReady(o.failure.Some?);
      Stamp(before, now);
    }

    /** `setReachableCondition`, and what a health check that succeeds writes. */
    method RecordHealth(health: Option<Fact>)
      modifies this`conditions
      ensures conditions == Checked(old(conditions), health)
    {
      if health.Some? { SetCondition(New(Reachable, health.value)); }
    }

    /** `syncStatus`, up to the patch. */
    method SyncStatus(o: Observed, now: nat)
      modifies this`conditions, this`phase, this`version, this`kubernetesVersion, this`nodeCount, this`ceph, this`apps,
        this`observedGeneration, this`lastSync
      ensures State() == AfterSync(old(State()), spec, o, now)
    {
      hide SyncedConditions, Explained, FinalPhase, IsSynced, AppsOf, MappedPhase, DeployedVersion;
      UpdateVersions(o);
      UpdateApps(o.subApps);
      UpdateConditions(o, now);
      observedGeneration := spec.generation;
      if o.lastSync.Some? { lastSync := o.lastSync; }
    }

    /** `reconcileCluster`, as far as the status is concerned. */
    method Reconcile(health: Option<Fact>, o: Observed, now: nat)
      modifies this`conditions, this`phase, this`version, this`kubernetesVersion, this`nodeCount, this`ceph, this`apps,
        this`observedGeneration, this`lastSync
      ensures State() == AfterStep(old(State()), Step(health, spec, o, now))
    {
      hide Checked, AfterSync;
      RecordHealth(health);
      SyncStatus(o, now);
    }
  }
}
