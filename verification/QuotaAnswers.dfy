/**
 What the quota writes answer and what is enforced after them, from the rows: exact sums over the AZ rows of
 a project, and over what the projects are allocated.
*/
module QuotaAnswers {
  import opened Wrappers
  import opened Quantities
  import opened QuotaTranslation
  import opened QuotaHierarchy
  import opened QuotaExcess
  import opened QuotaWrites

  /** What the AZ rows of a project add up to, capped at the largest int64. */
  function HeldAmount(p: Project, n: Name): int { Min(Exact(ResourcesOf(p.azs), n), MAX) }

  // ---------------------------------------------------------------------------------------------
  // Quotas of organizations and projects
  // ---------------------------------------------------------------------------------------------

  /** What a project is allocated is its quota, or what its AZs hold if that is more. */
  lemma AllocatedIs(p: Project, n: Name)
    requires ValidProject(p)
    ensures At(Allocation(p), n) == Max(At(OrEmpty(p.quota), n), HeldAmount(p, n))
  {
    AllocationAt(p, n);
    HeldAt(p.azs, n);
  }

  /** An organization quota is refused exactly when the projects are allocated more of some resource. */
  lemma OrganizationAnswerIs(ps: seq<Project>, limit: Quantities)
    requires forall p :: p in ps ==> ValidProject(p)
    ensures Over(Total(Allocations(ps)), limit) <==>
      exists n :: n in limit && Min(Exact(Allocations(ps), n), MAX) > limit[n]
  {
    hide Exact, Total, Allocations;
    AllocationsValid(ps);
    TotalIsCappedSum(Allocations(ps));
    var total := Total(Allocations(ps));
    assert forall n :: At(total, n) == Min(Exact(Allocations(ps), n), MAX);
    if Over(total, limit) {
      var n :| n in limit && At(total, n) > limit[n];
      assert Min(Exact(Allocations(ps), n), MAX) > limit[n];
    }
  }

  /** A project quota is below what the AZs of the project hold, of a resource that it or the organization limits. */
  ghost predicate BelowHeld(organization: Option<Quantities>, p: Project, requested: Quantities) {
    exists n :: (n in requested || n in OrEmpty(organization)) && HeldAmount(p, n) > At(requested, n)
  }

  /** A project quota takes more of some resource than before, and more than the organization has left. */
  ghost predicate BeyondOrganization(organization: Option<Quantities>, ps: seq<Project>, i: nat, requested: Quantities)
    requires i < |ps|
  {
    exists n :: n in OrEmpty(organization)
      && At(requested, n) > Max(At(OrEmpty(ps[i].quota), n), HeldAmount(ps[i], n))
      && Min(Exact(Others(ps, i), n) + At(requested, n), MAX) > OrEmpty(organization)[n]
  }

  /** The answer to a project quota. */
  lemma ProjectAnswerIs(organization: Option<Quantities>, ps: seq<Project>, i: nat, requested: Quantities)
    requires i < |ps| && (forall p :: p in ps ==> ValidProject(p)) && Valid(requested)
    ensures ProjectAnswer(organization, ps, i, requested) ==
      if BelowHeld(organization, ps[i], requested) then BelowAllocated
      else if BeyondOrganization(organization, ps, i, requested) then OrgExceeded
      else Written
  {
    BelowHeldIff(organization, ps[i], requested);
    BeyondIff(organization, ps, i, requested);
    hide BelowHeld, BeyondOrganization, HasCapacity, Over;
    if OrEmpty(organization) == map[] { NothingBeyond(organization, ps, i, requested); }
  }

  lemma BelowHeldIff(organization: Option<Quantities>, p: Project, requested: Quantities)
    requires ValidProject(p) && Valid(requested)
    ensures Over(Held(p.azs), ProjectLimit(organization, p.(quota := Some(requested)))) <==>
      BelowHeld(organization, p, requested)
  {
    hide Exact, Total, ProjectLimit, Held;
    var after := p.(quota := Some(requested));
    forall n { LimitAt(organization, after, n); }
    forall n ensures At(Held(p.azs), n) == HeldAmount(p, n) { HeldAt(p.azs, n); }
    if BelowHeld(organization, p, requested) {
      var n :| (n in requested || n in OrEmpty(organization)) && HeldAmount(p, n) > At(requested, n);
      assert n in ProjectLimit(organization, after) && At(Held(p.azs), n) > ProjectLimit(organization, after)[n];
    }
    if Over(Held(p.azs), ProjectLimit(organization, after)) {
      var limit := ProjectLimit(organization, after);
      var n :| n in limit && At(Held(p.azs), n) > limit[n];
      assert HeldAmount(p, n) > At(requested, n);
    }
  }

  lemma BeyondIff(organization: Option<Quantities>, ps: seq<Project>, i: nat, requested: Quantities)
    requires i < |ps| && (forall p :: p in ps ==> ValidProject(p)) && Valid(requested)
    ensures HasCapacity(requested, Allocation(ps[i]), Total(Others(ps, i)), OrEmpty(organization)) <==>
      !BeyondOrganization(organization, ps, i, requested)
  {
    hide Exact, Total, Allocation, HasCapacity, HeldAmount;
    AllocationsValid(ps);
    var limit := OrEmpty(organization);
    assert Valid(Allocation(ps[i])) by { assert Allocations(ps)[i] in Allocations(ps); }
    CapacityIff(requested, Allocation(ps[i]), Others(ps, i), limit);
    forall n ensures At(Allocation(ps[i]), n) == Max(At(OrEmpty(ps[i].quota), n), HeldAmount(ps[i], n)) {
      AllocatedIs(ps[i], n);
    }
    hide Others;
  }

  lemma NothingBeyond(organization: Option<Quantities>, ps: seq<Project>, i: nat, requested: Quantities)
    requires i < |ps| && OrEmpty(organization) == map[]
    ensures !BeyondOrganization(organization, ps, i, requested)
  {
  }

  // ---------------------------------------------------------------------------------------------
  // AZ quotas
  // ---------------------------------------------------------------------------------------------

  /** What is in an AZ, and what is enforced there: the row, and nothing of what only a parent limits. */
  lemma EnforcedIs(organization: Option<Quantities>, p: Project, code: AZ, n: Name)
    ensures n in EnforcedIn(organization, p, code) <==>
      n in ResourcesIn(p.azs, code) || n in OrEmpty(organization) || n in OrEmpty(p.quota)
    ensures n in EnforcedIn(organization, p, code) ==>
      EnforcedIn(organization, p, code)[n] == At(ResourcesIn(p.azs, code), n)
  {
    var above := [OrEmpty(organization), OrEmpty(p.quota)];
    assert n in Limited(above) <==> n in above[0] || n in above[1];
  }

  /** After a quota is given to a project: its part in every AZ, or what its rows said before. */
  lemma EnforcedAfter(organization: Option<Quantities>, before: Project, after: Project, quota: Quantities,
                      codes: seq<AZ>, j: nat, n: Name)
    requires QuotaSaved(before, after, quota, codes) && Distinct(codes) && j < |codes|
    ensures At(EnforcedIn(organization, after, codes[j]), n) ==
      if before.azs != [] then At(ResourcesIn(before.azs, codes[j]), n)
      else if n in quota then quota[n] / |codes|
      else 0
    ensures n in quota || n in OrEmpty(organization) ==> n in EnforcedIn(organization, after, codes[j])
  {
    EnforcedIs(organization, after, codes[j], n);
    if before.azs == [] {
      var rows := after.azs;
      assert IsPart(rows[j], codes[j], quota, |codes|);
      forall a, b | 0 <= a < b < |rows| ensures rows[a].code != rows[b].code {
        assert IsPart(rows[a], codes[a], quota, |codes|) && IsPart(rows[b], codes[b], quota, |codes|);
      }
      ResourcesAre(rows, codes[j]);
      assert rows[j] in rows;
    }
  }

  /** After an AZ quota is written: what was requested in that AZ, and the others as they were. */
  lemma {:induction false} WrittenIn(azs: seq<AZQuota>, code: AZ, requested: Quantities, other: AZ)
    ensures ResourcesIn(UpsertAZ(azs, code, requested), other) ==
      if other == code then requested else ResourcesIn(azs, other)
  {
    if azs != [] && azs[0].code != code {
      WrittenIn(azs[1..], code, requested, other);
      assert UpsertAZ(azs, code, requested)[1..] == UpsertAZ(azs[1..], code, requested);
    } else if azs != [] {
      assert UpsertAZ(azs, code, requested)[1..] == azs[1..];
    }
  }

  /** An AZ quota takes more of some resource than before, and more than the project has left. */
  ghost predicate BeyondProject(organization: Option<Quantities>, p: Project, code: AZ, requested: Quantities) {
    exists n :: (n in OrEmpty(p.quota) || n in OrEmpty(organization))
      && At(requested, n) > At(ResourcesIn(p.azs, code), n)
      && Min(Exact(ResourcesOf(p.azs), n) - At(ResourcesIn(p.azs, code), n) + At(requested, n), MAX)
        > At(OrEmpty(p.quota), n)
  }

  lemma BeyondProjectIff(organization: Option<Quantities>, p: Project, code: AZ, requested: Quantities)
    requires ValidProject(p) && Valid(requested)
    ensures AZFitsInProject(organization, p, code, requested) <==> !BeyondProject(organization, p, code, requested)
  {
    hide Exact, Total, ProjectLimit, HasCapacity;
    var limit, others := ProjectLimit(organization, p), ResourcesOf(OtherAZs(p.azs, code));
    var row := ResourcesIn(p.azs, code);
    OtherRows(p.azs, code);
    CapacityIff(requested, row, others, limit);
    forall n
      ensures n in limit <==> n in OrEmpty(p.quota) || n in OrEmpty(organization)
      ensures n in limit ==> limit[n] == At(OrEmpty(p.quota), n)
      ensures Exact(others, n) == Exact(ResourcesOf(p.azs), n) - At(row, n)
    {
      LimitAt(organization, p, n);
      UpsertAZSum(p.azs, code, requested, n);
    }
    hide OtherAZs, ResourcesIn;
  }

  /** A resource of an AZ quota is lowered when it ends below its row and is still limited. */
  predicate Lowers(organization: Option<Quantities>, p: Project, code: AZ, requested: Quantities, n: Name) {
    && At(requested, n) < At(ResourcesIn(p.azs, code), n)
    && (n in requested || n in OrEmpty(organization) || n in OrEmpty(p.quota))
  }

  lemma LoweredIs(organization: Option<Quantities>, p: Project, code: AZ, requested: Quantities, n: Name)
    requires Valid(requested)
    ensures n in LoweredBy(organization, p, code, requested) <==> Lowers(organization, p, code, requested, n)
    ensures n in LoweredBy(organization, p, code, requested) ==>
      LoweredBy(organization, p, code, requested)[n] == At(requested, n)
  {
    var above := [OrEmpty(organization), OrEmpty(p.quota)];
    EnforcedIs(organization, p, code, n);
    assert n in Limited(above) <==> n in above[0] || n in above[1];
  }

  /** The cluster tracks every lowered resource, and uses no more than its new limit. */
  ghost predicate Spared(organization: Option<Quantities>, p: Project, code: AZ, requested: Quantities, usage: Usage) {
    forall n :: Lowers(organization, p, code, requested, n) ==>
      n in usage.hard && n in usage.used && usage.used[n] <= At(requested, n)
  }

  lemma NothingLowered(organization: Option<Quantities>, p: Project, code: AZ, requested: Quantities)
    requires Valid(requested)
    ensures LoweredBy(organization, p, code, requested) == map[] <==>
      forall n :: !Lowers(organization, p, code, requested, n)
  {
    hide LoweredBy, Lowers;
    forall n { LoweredIs(organization, p, code, requested, n); }
    var lowered := LoweredBy(organization, p, code, requested);
    if lowered != map[] {
      var n :| n in lowered;
      assert Lowers(organization, p, code, requested, n);
    }
  }

  lemma SparedIff(organization: Option<Quantities>, p: Project, code: AZ, requested: Quantities, usage: Usage)
    requires Valid(requested)
    ensures UsageAllows(Some(usage), LoweredBy(organization, p, code, requested)) <==>
      Spared(organization, p, code, requested, usage)
  {
    hide LoweredBy, Lowers;
    forall n { LoweredIs(organization, p, code, requested, n); }
  }

  /** The answer to an AZ quota. */
  lemma AZAnswerIs(organization: Option<Quantities>, p: Project, code: AZ, requested: Quantities, codes: seq<AZ>,
                   read: Option<Usage>, answer: PushAnswer, outcome: Outcome)
    requires ValidProject(p) && Valid(requested)
    requires AZAnswer(organization, p, code, requested, codes, read, answer, outcome)
    ensures
      if code !in codes then outcome == AZUnknown
      else if BeyondProject(organization, p, code, requested) then outcome == ProjectExceeded
      else if forall n :: !Lowers(organization, p, code, requested, n) then outcome == Written
      else if read.None? then outcome == UsageUnavailable
      else if !Spared(organization, p, code, requested, read.value) then outcome in {UsageUnavailable, BelowUsage}
      else outcome == match answer
        case Accepted => Written
        case RefusedBelowUsage => BelowUsage
        case Unreachable => AZUnavailable
  {
    BeyondProjectIff(organization, p, code, requested);
    NothingLowered(organization, p, code, requested);
    if read.Some? { SparedIff(organization, p, code, requested, read.value); }
    hide BeyondProject, Lowers, AZFitsInProject, FirstOffence, LoweredBy, Spared, UsageAllows;
  }

  // ---------------------------------------------------------------------------------------------
  // Completed quotas
  // ---------------------------------------------------------------------------------------------

  /** A project quota is completed with what its AZs hold of a resource that it omits, and keeps the rest. */
  lemma CoveredIs(p: Project, limit: Quantities, n: Name)
    requires ValidProject(p)
    ensures var (after, adds) := (Covered(p, limit), n in limit && n !in OrEmpty(p.quota) && HeldAmount(p, n) > 0);
      && after.azs == p.azs
      && (n in OrEmpty(after.quota) <==> n in OrEmpty(p.quota) || adds)
      && At(OrEmpty(after.quota), n) == if adds then HeldAmount(p, n) else At(OrEmpty(p.quota), n)
  {
    hide HeldAmount;
    AllocatedIs(p, n);
    assert n in Missing(p, limit) <==>
      n in limit && n !in OrEmpty(p.quota) && At(Allocation(p), n) > 0;
    assert At(OrEmpty(p.quota), n) >= 0;
    HeldNotNegative(p, n);
  }

  lemma HeldNotNegative(p: Project, n: Name)
    requires ValidProject(p)
    ensures HeldAmount(p, n) >= 0
  {
    HeldAt(p.azs, n);
  }
}
