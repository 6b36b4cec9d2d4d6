/**
 What the status of a cluster says after a sync, from what was observed: the text of a failure, the sync and
 the health of the Application, the management version and the pause.
*/
module ClusterOutcomes {
  import opened Wrappers
  import opened ClusterConditions
  import opened ClusterStatus

  // ---------------------------------------------------------------------------------------------
  // Failures
  // ---------------------------------------------------------------------------------------------

  lemma ContainsIff(text: string, part: string)
    ensures Contains(text, part) <==> exists before, after :: text == before + part + after
  {
    if Contains(text, part) {
      var i: nat :| i <= |text| && OccursAt(text, part, i);
      assert text == text[..i] + part + text[i + |part|..];
    }
    if before, after :| text == before + part + after {
      assert OccursAt(text, part, |before|);
    }
  }

  /** A failure about the connection of the cluster, or about something that is not found. */
  predicate AboutConnection(f: Failure) {
    && !Contains(f.text, "not supported")
    && (|| Contains(f.text, "connection.secretRef is required")
        || Contains(f.text, "invalid secret")
        || f.notFound
        || Contains(f.text, "not found"))
  }

  /** What a failed reconcile says of the cluster being reachable: nothing new, unless it is about the connection. */
  lemma FailureReaches(cs: seq<Condition>, spec: Spec, o: Observed, now: nat)
    requires o.failure.Some?
    ensures var (f, after) := (o.failure.value, Says(SyncedConditions(cs, spec, o, now), Reachable));
      if !AboutConnection(f) then after == Says(cs, Reachable)
      else
        && after.Some? && after.value.status == False && after.value.message == f.text
        && after.value.reason ==
          if Contains(f.text, "connection.secretRef is required") then ConnectionConfigError
          else if Contains(f.text, "invalid secret") then InvalidSecret
          else SecretNotFound
  {
    hide Put, Says, Contains, SyncedConditions, Explained;
    SyncedSays(cs, spec, o, now, Reachable);
    ExplainedSays(cs, spec, o, Reachable);
  }

  /** What a failed reconcile says of the cluster being ready. */
  lemma FailureReadies(cs: seq<Condition>, spec: Spec, o: Observed, now: nat)
    requires o.failure.Some?
    ensures var after := SyncedConditions(cs, spec, o, now);
      var (f, reachable, ready) := (o.failure.value, Says(after, Reachable), Says(after, Ready));
      && ready.Some? && ready.value.status == False
      && if reachable.None? || reachable.value.status != True then ready.value.reason == ConnectionFailed
         else if o.management.Incompatible? then ready.value == Fact(False, VersionIncompatible, o.management.why)
         else
           && ready.value.message == f.text
           && ready.value.reason ==
             if Contains(f.text, "not supported") then InvalidVersion
             else if Contains(f.text, "failed to reconcile clusters ConfigMap") then ConfigMapReconcileFailed
             else if Contains(f.text, "failed to remove cluster from configmap") then ConfigMapCleanupFailed
             else HealthCheckFailed
  {
    hide Put, Says, Contains, SyncedConditions, Explained;
    SyncedSays(cs, spec, o, now, Ready);
    SyncedSays(cs, spec, o, now, Reachable);
    ExplainedSays(cs, spec, o, Ready);
    ExplainedSays(cs, spec, o, Reachable);
    ExplainedSays(cs, spec, o, CompatibleVersion);
  }

  // ---------------------------------------------------------------------------------------------
  // The Application, the management version and the pause
  // ---------------------------------------------------------------------------------------------

  /** The Application is synced, and neither degraded, suspended nor missing. */
  predicate InOrder(a: Application) { a.sync == SyncedSync && a.health.OtherHealth? }

  /** The status and the reason that the sync and the health of an Application give. */
  predicate Tells(a: Application, said: Fact) {
    && (said.status == True <==> InOrder(a))
    && (said.status == Truth.Unknown <==>
          a.health in {Suspended, Missing} || (a.health.OtherHealth? && a.sync in {UnknownSync, Blank}))
    && (a.health == Degraded <==> said.reason == HealthCheckFailed)
    && (a.health != Degraded ==>
          && (said.reason == Synced <==> a.sync == SyncedSync)
          && (said.reason == OutOfSync <==> a.sync == OutOfSyncSync)
          && (said.reason == Syncing <==> a.sync == SyncingSync)
          && (said.reason == SyncUnknown <==> a.sync in {UnknownSync, Blank})
          && (said.reason == SyncFailed <==> a.sync.OtherSync?))
  }

  lemma ApplicationTells(a: Application)
    ensures Tells(a, ApplicationFact(a))
  {
    match a.sync { case OtherSync(_) => case _ => }
  }

  /**
   What is said of the Application, unless the cluster is paused: synced only when it is in order, unknown when
   its health or its sync is, and otherwise not synced.
  */
  lemma ApplicationSays(cs: seq<Condition>, spec: Spec, o: Observed, now: nat)
    requires o.app.Some? && !spec.paused
    ensures var said := Says(SyncedConditions(cs, spec, o, now), ArgoCDSynced);
      said.Some? && Tells(o.app.value, said.value)
  {
    hide Put, Says, SyncedConditions, Explained, Tells, ApplicationFact, BlameFact, ManagementFact, ReadyFact;
    ApplicationTells(o.app.value);
    SyncedSays(cs, spec, o, now, ArgoCDSynced);
    ExplainedSays(cs, spec, o, ArgoCDSynced);
  }

  /** Without an Application to look at, or on a paused cluster, what was said of it stays. */
  lemma ApplicationStays(cs: seq<Condition>, spec: Spec, o: Observed, now: nat)
    requires o.app.None? || spec.paused
    ensures Says(SyncedConditions(cs, spec, o, now), ArgoCDSynced) == Says(cs, ArgoCDSynced)
  {
    hide Put, Says, SyncedConditions, Explained;
    SyncedSays(cs, spec, o, now, ArgoCDSynced);
    ExplainedSays(cs, spec, o, ArgoCDSynced);
  }

  /** What is said of the version, and of the pause, which is never withdrawn. */
  lemma VersionAndPauseSay(cs: seq<Condition>, spec: Spec, o: Observed, now: nat)
    ensures var after := SyncedConditions(cs, spec, o, now);
      var (version, pause) := (Says(after, CompatibleVersion), Says(after, PausedType));
      && version.Some?
      && (version.value.status == False <==> o.management.Incompatible?)
      && (version.value.status == Truth.Unknown <==> o.management.VersionError?)
      && (spec.paused ==> pause.Some? && pause.value.status == True)
      && (!spec.paused ==> pause == Says(cs, PausedType))
  {
    hide Put, Says, SyncedConditions, Explained;
    SyncedSays(cs, spec, o, now, CompatibleVersion);
    ExplainedSays(cs, spec, o, CompatibleVersion);
    SyncedSays(cs, spec, o, now, PausedType);
    ExplainedSays(cs, spec, o, PausedType);
  }

  predicate SaysTrue(cs: seq<Condition>, t: Type) { Says(cs, t).Some? && Says(cs, t).value.status == True }

  /**
   The cluster is ready exactly when the reconcile did not fail, the cluster was said to be reachable, its
   version is not incompatible, and the Application is in order; without one to look at, it was said to be
   synced, or nothing was said of it.
  */
  lemma ReadyFromInputs(cs: seq<Condition>, spec: Spec, o: Observed, now: nat)
    ensures SaysTrue(SyncedConditions(cs, spec, o, now), Ready) <==>
      && o.failure.None?
      && SaysTrue(cs, Reachable)
      && !o.management.Incompatible?
      && if o.app.Some? && !spec.paused then InOrder(o.app.value)
         else Says(cs, ArgoCDSynced).None? || SaysTrue(cs, ArgoCDSynced)
  {
    ReadyIff(cs, spec, o, now);
    VersionAndPauseSay(cs, spec, o, now);
    if o.app.Some? && !spec.paused { ApplicationSays(cs, spec, o, now); } else { ApplicationStays(cs, spec, o, now); }
    SyncedSays(cs, spec, o, now, Reachable);
    ExplainedSays(cs, spec, o, Reachable);
    hide SyncedConditions, Explained, Says, InOrder, ReadyFact;
  }

  /** What a reconcile that did not fail says of the cluster being ready: the first thing that is wrong. */
  lemma SuccessReadies(cs: seq<Condition>, spec: Spec, o: Observed, now: nat)
    requires o.failure.None?
    ensures var after := SyncedConditions(cs, spec, o, now);
      var (argo, ready) := (Says(after, ArgoCDSynced), Says(after, Ready));
      && ready.Some?
      && if !SaysTrue(cs, Reachable) then ready.value.status == False && ready.value.reason == ConnectionFailed
         else if o.management.Incompatible? then ready.value == Fact(False, VersionIncompatible, o.management.why)
         else if argo.Some? && argo.value.status != True then ready == argo
         else ready.value.status == True && ready.value.reason == ReconcileSuccess
  {
    hide Put, Says, SyncedConditions, Explained, ApplicationFact;
    SyncedSays(cs, spec, o, now, Ready);
    SyncedSays(cs, spec, o, now, ArgoCDSynced);
    ExplainedSays(cs, spec, o, Reachable);
    ExplainedSays(cs, spec, o, CompatibleVersion);
  }

  // ---------------------------------------------------------------------------------------------
  // Phase
  // ---------------------------------------------------------------------------------------------

  /** The phase of a cluster that neither failed nor is paused, for the Application found. */
  function PhaseFor(previous: Phase, a: Application, current: bool): Phase {
    if a.health == Degraded then ErrorPhase
    else if a.health in {Suspended, Missing} then UnknownPhase
    else match a.sync
      case SyncedSync => if current then Deployed else Deploying
      case OutOfSyncSync => OutOfSyncPhase
      case UnknownSync => UnknownPhase
      case SyncingSync => Deploying
      case OtherSync(_) => ErrorPhase
      case Blank =>
        if previous == NoPhase then UnknownPhase
        else if previous == Deployed && !current then Deploying
        else previous
  }

  /** What the phase is determined from, whether the Application says that it is synced being known. */
  lemma PhaseOf(previous: Phase, spec: Spec, o: Observed, synced: bool, version: string)
    requires o.app.Some? && !spec.paused ==> (synced <==> InOrder(o.app.value))
    ensures var current := version in {"", spec.version};
      FinalPhase(MappedPhase(previous, spec, o), synced, spec, o, version) ==
        if o.failure.Some? then ErrorPhase
        else if spec.paused then PausedPhase
        else if o.app.Some? then PhaseFor(previous, o.app.value, current)
        else if synced then if current then Deployed else Deploying
        else if previous == NoPhase || (previous == Deployed && !current) then Deploying
        else previous
  {
  }

  /** The phase after a sync; the version is current when it is the wanted one, or unknown. */
  lemma PhaseIs(st: Status, spec: Spec, o: Observed, now: nat)
    requires Unique(st.conditions)
    ensures var after := AfterSync(st, spec, o, now);
      var current := after.version in {"", spec.version};
      after.phase ==
        if o.failure.Some? then ErrorPhase
        else if spec.paused then PausedPhase
        else if o.app.Some? then PhaseFor(st.phase, o.app.value, current)
        else if SaysTrue(st.conditions, ArgoCDSynced) then if current then Deployed else Deploying
        else if st.phase == NoPhase || (st.phase == Deployed && !current) then Deploying
        else st.phase
  {
    var cs := st.conditions;
    SyncedUnique(cs, spec, o, now);
    IsSyncedSays(Explained(cs, spec, o));
    SyncedSays(cs, spec, o, now, ArgoCDSynced);
    if o.app.Some? && !spec.paused { ApplicationSays(cs, spec, o, now); } else { ApplicationStays(cs, spec, o, now); }
    hide SyncedConditions, Explained, IsSynced, AppsOf, Says, DeployedVersion, FinalPhase, MappedPhase, PhaseFor;
    hide InOrder;
    PhaseOf(st.phase, spec, o, IsSynced(Explained(cs, spec, o)), AfterSync(st, spec, o, now).version);
  }

  // ---------------------------------------------------------------------------------------------
  // The other fields
  // ---------------------------------------------------------------------------------------------

  /** The entry of an Application is the last one listed under its name, unless it is the root one or has no name. */
  lemma {:induction false} AppsAre(listed: seq<(string, Entry)>, root: string, name: string)
    ensures name in AppsOf(listed, root) <==>
      name != "" && name != root && exists i :: 0 <= i < |listed| && listed[i].0 == name
    ensures name in AppsOf(listed, root) ==>
      exists i :: IsLast(listed, name, i) && AppsOf(listed, root)[name] == listed[i].1
  {
    if listed != [] {
      var n := |listed| - 1;
      AppsAre(listed[..n], root, name);
      hide AppsOf;
      AppsNext(listed, root);
      assert forall i :: 0 <= i < n ==> listed[..n][i] == listed[i];
      if name in AppsOf(listed, root) {
        if listed[n].0 == name {
          assert IsLast(listed, name, n);
        } else {
          var i :| IsLast(listed[..n], name, i) && AppsOf(listed[..n], root)[name] == listed[..n][i].1;
          assert IsLast(listed, name, i);
        }
      }
    }
  }

  lemma AppsNext(listed: seq<(string, Entry)>, root: string)
    requires listed != []
    ensures var (rest, last) := (AppsOf(listed[..|listed| - 1], root), listed[|listed| - 1]);
      AppsOf(listed, root) == if last.0 == "" || last.0 == root then rest else rest[last.0 := last.1]
  {
  }

  predicate IsLast(listed: seq<(string, Entry)>, name: string, i: int) {
    0 <= i < |listed| && listed[i].0 == name && forall j :: i < j < |listed| ==> listed[j].0 != name
  }

  /** What was not observed stays as it was, and every condition carries the generation. */
  lemma FieldsAre(st: Status, spec: Spec, o: Observed, now: nat)
    ensures var after := AfterSync(st, spec, o, now);
      && (after.version != st.version ==> o.failure.None? && o.deployed == Some(after.version) && after.version != "")
      && (o.failure.None? && o.deployed.Some? && o.deployed.value != "" ==> after.version == o.deployed.value)
      && after.kubernetesVersion == (if o.kubernetesVersion == "" then st.kubernetesVersion else o.kubernetesVersion)
      && after.nodeCount == (if o.nodeCount <= 0 then st.nodeCount else o.nodeCount)
      && (o.ceph.None? ==> after.ceph == st.ceph) && (o.ceph.Some? ==> o.ceph == Some(after.ceph))
      && (o.subApps.None? ==> after.apps == st.apps)
      && (o.subApps.Some? ==> after.apps == AppsOf(o.subApps.value, spec.name))
      && (o.lastSync.None? ==> after.lastSync == st.lastSync) && (o.lastSync.Some? ==> after.lastSync == o.lastSync)
      && after.observedGeneration == spec.generation
      && forall c :: c in after.conditions ==> c.generation == spec.generation
  {
    hide Explained, IsSynced, FinalPhase, MappedPhase, AppsOf, Put, ReadyFact;
  }
}
