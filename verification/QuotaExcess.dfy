/**
 What the quota writes do to a state in which children may exceed their parents, as one stored
 before the rules may: no write that is accepted raises the excess of any level on any resource. In
 a state without excess, the writes therefore keep the children within their parents.
*/
module QuotaExcess {
  import opened Wrappers
  import opened Quantities
  import opened QuotaTranslation
  import opened QuotaHierarchy

  /** The rows an organization may store: quantities that parse, and at most one quota per AZ. */
  predicate Stored(organization: Option<Quantities>, ps: seq<Project>) {
    Valid(OrEmpty(organization)) && forall p :: p in ps ==> ValidProject(p)
  }

  /** By how much a resource exceeds its limit, if it has one. */
  function Excess(taken: Quantities, limit: Quantities, n: Name): int {
    if n in limit then Max(At(taken, n) - limit[n], 0) else 0
  }

  function OrganizationExcess(organization: Option<Quantities>, ps: seq<Project>, n: Name): int {
    Excess(Total(Allocations(ps)), OrEmpty(organization), n)
  }

  function ProjectExcess(organization: Option<Quantities>, p: Project, n: Name): int {
    Excess(Held(p.azs), ProjectLimit(organization, p), n)
  }

  /** The children are within their parents exactly when there is no excess. */
  lemma FitsIffNoExcess(organization: Option<Quantities>, ps: seq<Project>)
    requires Stored(organization, ps)
    ensures Fits(organization, ps) <==>
      && (forall n :: OrganizationExcess(organization, ps, n) == 0)
      && (forall p, n :: p in ps ==> ProjectExcess(organization, p, n) == 0)
  {
    hide Total, Held, ProjectLimit, Allocations, ValidProject, Over;
    OrganizationOverIff(organization, ps);
    forall p | p in ps
      ensures !Over(Held(p.azs), ProjectLimit(organization, p)) <==> forall n :: ProjectExcess(organization, p, n) == 0
    {
      ProjectOverIff(organization, p);
    }
    hide OrganizationExcess, ProjectExcess;
  }

  lemma OrganizationOverIff(organization: Option<Quantities>, ps: seq<Project>)
    ensures !Over(Total(Allocations(ps)), OrEmpty(organization)) <==>
      forall n :: OrganizationExcess(organization, ps, n) == 0
  {
    var total, limit := Total(Allocations(ps)), OrEmpty(organization);
    OverIffExcess(total, limit);
    assert forall n :: OrganizationExcess(organization, ps, n) == Excess(total, limit, n);
    hide *;
  }

  lemma ProjectOverIff(organization: Option<Quantities>, p: Project)
    ensures !Over(Held(p.azs), ProjectLimit(organization, p)) <==> forall n :: ProjectExcess(organization, p, n) == 0
  {
    var held, limit := Held(p.azs), ProjectLimit(organization, p);
    OverIffExcess(held, limit);
    assert forall n :: ProjectExcess(organization, p, n) == Excess(held, limit, n);
    hide *;
  }

  lemma OverIffExcess(taken: Quantities, limit: Quantities)
    ensures !Over(taken, limit) <==> forall n :: Excess(taken, limit, n) == 0
  {
    if n :| n in limit && At(taken, n) > limit[n] { assert Excess(taken, limit, n) != 0; }
  }

  /** No level is further above its limit than before, on any resource. */
  ghost predicate NoWorse(organization: Option<Quantities>, ps: seq<Project>, newOrganization: Option<Quantities>,
                          after: seq<Project>)
  {
    && |after| == |ps|
    && (forall n :: OrganizationExcess(newOrganization, after, n) <= OrganizationExcess(organization, ps, n))
    && (forall i, n :: 0 <= i < |ps| ==>
      ProjectExcess(newOrganization, after[i], n) <= ProjectExcess(organization, ps[i], n))
  }

  lemma ExcessNonNegative(taken: Quantities, limit: Quantities, n: Name)
    ensures Excess(taken, limit, n) >= 0
  {
  }

  /** What never gets worse stays within its limits. */
  lemma NoWorseFits(organization: Option<Quantities>, ps: seq<Project>, newOrganization: Option<Quantities>,
      after: seq<Project>)
    requires Fits(organization, ps) && Stored(newOrganization, after)
    requires NoWorse(organization, ps, newOrganization, after)
    ensures Fits(newOrganization, after)
  {
    hide Excess, Total, Held, ProjectLimit, Allocations, Over, ValidProject;
    FitsAreValid(organization, ps);
    FitsIffNoExcess(organization, ps);
    FitsIffNoExcess(newOrganization, after);
    forall n ensures OrganizationExcess(newOrganization, after, n) == 0 {
      ExcessNonNegative(Total(Allocations(after)), OrEmpty(newOrganization), n);
    }
    forall p, n | p in after ensures ProjectExcess(newOrganization, p, n) == 0 {
      var i :| 0 <= i < |after| && after[i] == p;
      assert ps[i] in ps;
      ExcessNonNegative(Held(p.azs), ProjectLimit(newOrganization, p), n);
    }
  }

  lemma KeptFits(organization: Option<Quantities>, ps: seq<Project>, newOrganization: Option<Quantities>,
      after: seq<Project>)
    requires Stored(newOrganization, after) && NoWorse(organization, ps, newOrganization, after)
    ensures Fits(organization, ps) ==> Fits(newOrganization, after)
  {
    hide Fits, NoWorse, Stored;
    if Fits(organization, ps) { NoWorseFits(organization, ps, newOrganization, after); }
  }

  // ---------------------------------------------------------------------------------------------
  // One project
  // ---------------------------------------------------------------------------------------------

  /** One project changes without exceeding its own limit any more than before. */
  ghost predicate ProjectNoWorse(organization: Option<Quantities>, before: Project, after: Project) {
    forall n :: ProjectExcess(organization, after, n) <= ProjectExcess(organization, before, n)
  }

  /** For a resource the organization limits, the project takes no more, or the organization ends within its limit. */
  predicate TakesNoMore(limit: int, others: int, before: int, after: int) {
    after <= before || Min(others + after, MAX) <= limit
  }

  lemma OneProjectNoWorse(organization: Option<Quantities>, ps: seq<Project>, i: nat, p: Project)
    requires i < |ps| && Stored(organization, ps) && ValidProject(p) && ProjectNoWorse(organization, ps[i], p)
    requires forall n :: n in OrEmpty(organization) ==>
      TakesNoMore(OrEmpty(organization)[n], Exact(Others(ps, i), n), At(Allocation(ps[i]), n), At(Allocation(p), n))
    ensures Stored(organization, ps[i := p]) && NoWorse(organization, ps, organization, ps[i := p])
  {
    hide Exact, Total, ProjectExcess, Allocation, Others, ValidProject;
    forall n ensures OrganizationExcess(organization, ps[i := p], n) <= OrganizationExcess(organization, ps, n) {
      assert ps[i] in ps && ps[i := ps[i]] == ps;
      TotalUpdated(ps, i, p, n);
      TotalUpdated(ps, i, ps[i], n);
    }
    assert forall q :: q in ps[i := p] ==> q == p || q in ps;
  }

  lemma FittingIsNoWorse(organization: Option<Quantities>, before: Project, after: Project)
    requires ProjectFits(organization, after)
    ensures ProjectNoWorse(organization, before, after)
  {
    hide Total, Held, ProjectLimit;
    OverIffExcess(Held(after.azs), ProjectLimit(organization, after));
    forall n { ExcessNonNegative(Held(before.azs), ProjectLimit(organization, before), n); }
  }

  // ---------------------------------------------------------------------------------------------
  // AZ and project quotas
  // ---------------------------------------------------------------------------------------------

  /** An AZ quota that fits raises what the AZs hold of a resource only up to the project limit. */
  lemma AZBounds(organization: Option<Quantities>, p: Project, code: AZ, requested: Quantities, n: Name)
    requires ValidProject(p) && Valid(requested) && AZFitsInProject(organization, p, code, requested)
    requires n in ProjectLimit(organization, p)
    ensures var held := At(Held(UpsertAZ(p.azs, code, requested)), n);
      held <= At(Held(p.azs), n) || held <= ProjectLimit(organization, p)[n]
  {
    hide Exact, Total;
    var current, others := ResourcesIn(p.azs, code), ResourcesOf(OtherAZs(p.azs, code));
    UpsertAZRows(p.azs, code, requested);
    OtherRows(p.azs, code);
    UpsertAZSum(p.azs, code, requested, n);
    HeldAt(p.azs, n);
    HeldAt(UpsertAZ(p.azs, code, requested), n);
    CapacityBounds(requested, current, others, ProjectLimit(organization, p), n);
  }

  lemma WithAZNoWorse(organization: Option<Quantities>, p: Project, code: AZ, requested: Quantities)
    requires ValidProject(p) && Valid(requested) && AZFitsInProject(organization, p, code, requested)
    ensures ValidProject(WithAZ(p, code, requested)) && ProjectNoWorse(organization, p, WithAZ(p, code, requested))
  {
    hide Exact, Total, Held, HasCapacity;
    UpsertAZRows(p.azs, code, requested);
    forall n ensures ProjectExcess(organization, WithAZ(p, code, requested), n) <= ProjectExcess(organization, p, n) {
      if n in ProjectLimit(organization, p) { AZBounds(organization, p, code, requested, n); }
    }
  }

  lemma OneAZKeeps(organization: Option<Quantities>, ps: seq<Project>, i: nat, code: AZ, requested: Quantities)
    requires i < |ps| && Stored(organization, ps) && Valid(requested)
    requires AZFitsInProject(organization, ps[i], code, requested)
    ensures var after := ps[i := WithAZ(ps[i], code, requested)];
      Stored(organization, after) && NoWorse(organization, ps, organization, after)
  {
    hide Exact, Total, Held, HasCapacity, ProjectLimit, Others, Allocation, ValidProject;
    var p := ps[i];
    assert p in ps;
    WithAZNoWorse(organization, p, code, requested);
    forall n | n in OrEmpty(organization)
      ensures At(Allocation(WithAZ(p, code, requested)), n) <= At(Allocation(p), n)
    {
      AllocationAt(p, n);
      AllocationAt(WithAZ(p, code, requested), n);
      LimitAt(organization, p, n);
      AZBounds(organization, p, code, requested, n);
    }
    OneProjectNoWorse(organization, ps, i, WithAZ(p, code, requested));
  }

  /** A project quota that is allowed. */
  lemma ProjectKeeps(organization: Option<Quantities>, ps: seq<Project>, i: nat, requested: Quantities, codes: seq<AZ>)
    requires i < |ps| && Stored(organization, ps) && Valid(requested) && Distinct(codes)
    requires ProjectAllowed(organization, ps, i, requested)
    ensures var after := ps[i := WithQuota(ps[i], requested, codes)];
      Stored(organization, after) && NoWorse(organization, ps, organization, after)
  {
    hide Exact, Total, HasCapacity, Over, Held, Others, SplitRows, ProjectLimit, Allocation, ValidProject;
    var p, others := ps[i], Others(ps, i);
    assert p in ps;
    WithQuotaFits(organization, p, requested, codes);
    var after := WithQuota(p, requested, codes);
    FittingIsNoWorse(organization, p, after);
    forall n | n in OrEmpty(organization)
      ensures TakesNoMore(OrEmpty(organization)[n], Exact(others, n), At(Allocation(p), n), At(Allocation(after), n))
    {
      AllocationIsQuota(organization, after, n);
      OthersValid(ps, i);
      CapacityBounds(requested, Allocation(p), others, OrEmpty(organization), n);
    }
    FitsAreSound(organization, after);
    OneProjectNoWorse(organization, ps, i, after);
  }

  lemma FitsAreSound(organization: Option<Quantities>, p: Project)
    requires ProjectFits(organization, p)
    ensures ValidProject(p)
  {
  }

  lemma OthersValid(ps: seq<Project>, i: nat)
    requires i < |ps| && forall p :: p in ps ==> ValidProject(p)
    ensures Valid(Allocation(ps[i])) && forall q :: q in Others(ps, i) ==> Valid(q)
  {
    AllocationsValid(ps);
    assert Allocations(ps)[i] in Allocations(ps);
  }

  // ---------------------------------------------------------------------------------------------
  // Organization quotas
  // ---------------------------------------------------------------------------------------------

  /** Completing a project quota changes nothing of what the project takes. */
  lemma CoveredAt(p: Project, limit: Quantities, n: Name)
    requires ValidProject(p)
    ensures ValidProject(Covered(p, limit)) && At(Allocation(Covered(p, limit)), n) == At(Allocation(p), n)
    ensures n in limit && n !in OrEmpty(p.quota) ==> At(OrEmpty(Covered(p, limit).quota), n) == At(Held(p.azs), n)
  {
    hide Exact, Total, DistinctRows, Held;
    AllocationAt(p, n);
    HeldAt(p.azs, n);
    var m := Missing(p, limit);
    assert Valid(m);
    assert n in limit && n !in OrEmpty(p.quota) ==> At(m, n) == At(Held(p.azs), n);
    AllocationAt(Covered(p, limit), n);
  }

  lemma CoveredNoWorse(organization: Option<Quantities>, p: Project, limit: Quantities, n: Name)
    requires ValidProject(p)
    ensures ProjectExcess(Some(limit), Covered(p, limit), n) <= ProjectExcess(organization, p, n)
  {
    hide Exact, Total, DistinctRows, Held, Allocation, ProjectLimit;
    var after := Covered(p, limit);
    CoveredAt(p, limit, n);
    LimitAt(Some(limit), after, n);
    LimitAt(organization, p, n);
  }

  /** Completing the project quotas, whatever the quota the organization had. */
  lemma CoverKeeps(organization: Option<Quantities>, ps: seq<Project>, limit: Quantities, after: seq<Project>)
    requires Stored(organization, ps) && Valid(limit) && !Over(Total(Allocations(ps)), limit)
    requires |after| == |ps| && forall i :: 0 <= i < |ps| ==> after[i] == Covered(ps[i], limit)
    ensures Stored(Some(limit), after) && NoWorse(organization, ps, Some(limit), after)
    ensures forall n :: OrganizationExcess(Some(limit), after, n) == 0
  {
    hide Exact, Total, ProjectExcess, Covered, ValidProject, Allocation;
    forall i | 0 <= i < |ps| ensures ValidProject(after[i]) {
      assert ps[i] in ps;
      CoveredAt(ps[i], limit, CPU);
    }
    forall i, n | 0 <= i < |ps|
      ensures ProjectExcess(Some(limit), after[i], n) <= ProjectExcess(organization, ps[i], n)
    {
      assert ps[i] in ps;
      CoveredNoWorse(organization, ps[i], limit, n);
    }
    forall n ensures At(Total(Allocations(after)), n) == At(Total(Allocations(ps)), n) {
      CoverTotals(ps, limit, after, n);
    }
  }

  lemma CoverTotals(ps: seq<Project>, limit: Quantities, after: seq<Project>, n: Name)
    requires (forall p :: p in ps ==> ValidProject(p)) && (forall p :: p in after ==> ValidProject(p))
    requires |after| == |ps| && forall i :: 0 <= i < |ps| ==> after[i] == Covered(ps[i], limit)
    ensures At(Total(Allocations(after)), n) == At(Total(Allocations(ps)), n)
  {
    hide Exact, Total, Covered, ValidProject, Allocation;
    forall i | 0 <= i < |ps| ensures At(Allocation(after[i]), n) == At(Allocation(ps[i]), n) {
      assert ps[i] in ps;
      CoveredAt(ps[i], limit, n);
    }
    AllocationsValid(ps);
    AllocationsValid(after);
    TotalIsCappedSum(Allocations(ps));
    TotalIsCappedSum(Allocations(after));
    ExactShift(Allocations(ps), Allocations(after), n, 0);
  }

  /** A state without excess is no worse than any other. */
  lemma FittingKeeps(organization: Option<Quantities>, ps: seq<Project>, newOrganization: Option<Quantities>,
      after: seq<Project>)
    requires |after| == |ps| && Fits(newOrganization, after)
    ensures Stored(newOrganization, after) && NoWorse(organization, ps, newOrganization, after)
  {
    hide Excess, Total, Held, ProjectLimit, Allocations, Over, ValidProject;
    FitsAreValid(newOrganization, after);
    FitsIffNoExcess(newOrganization, after);
    forall n { ExcessNonNegative(Total(Allocations(ps)), OrEmpty(organization), n); }
    forall i, n | 0 <= i < |ps|
      ensures ProjectExcess(newOrganization, after[i], n) <= ProjectExcess(organization, ps[i], n)
    {
      assert after[i] in after;
      ExcessNonNegative(Held(ps[i].azs), ProjectLimit(organization, ps[i]), n);
    }
  }

  /** Without an organization quota, a project is only limited by its own. */
  lemma UnlimitedKeeps(organization: Option<Quantities>, ps: seq<Project>)
    requires Stored(organization, ps)
    ensures Stored(None, ps) && NoWorse(organization, ps, None, ps)
  {
    hide Total, Held, Allocations, ProjectLimit, ValidProject;
    forall n ensures OrganizationExcess(None, ps, n) <= OrganizationExcess(organization, ps, n) {
      ExcessNonNegative(Total(Allocations(ps)), OrEmpty(organization), n);
    }
    forall i, n | 0 <= i < |ps| ensures ProjectExcess(None, ps[i], n) <= ProjectExcess(organization, ps[i], n) {
      LimitAt(None, ps[i], n);
      LimitAt(organization, ps[i], n);
    }
  }

  // ---------------------------------------------------------------------------------------------
  // Projects that come and go
  // ---------------------------------------------------------------------------------------------

  lemma EmptyProjectFits(organization: Option<Quantities>)
    requires Valid(OrEmpty(organization))
    ensures ProjectFits(organization, Project(None, [])) && Allocation(Project(None, [])) == map[]
  {
    var p := Project(None, []);
    assert Held(p.azs) == map[];
    forall n | n in ProjectLimit(organization, p) ensures ProjectLimit(organization, p)[n] == 0 {
      LimitAt(organization, p, n);
    }
  }

  /** A new project takes nothing and exceeds nothing. */
  lemma CreateKeeps(organization: Option<Quantities>, ps: seq<Project>)
    requires Stored(organization, ps)
    ensures var after := ps + [Project(None, [])];
      && Stored(organization, after) && ProjectFits(organization, Project(None, []))
      && (forall n :: OrganizationExcess(organization, after, n) == OrganizationExcess(organization, ps, n))
      && (Fits(organization, ps) ==> Fits(organization, after))
  {
    hide Exact, Total, ProjectLimit, Allocation, Held;
    var p, before := Project(None, []), Allocations(ps);
    var after := Allocations(ps + [p]);
    EmptyProjectFits(organization);
    assert after == before + [map[]];
    assert Total(after) == Total(before) by { TotalOfOneMore(before); }
  }

  lemma TotalOfOneMore(qs: seq<Quantities>)
    ensures Total(qs + [map[]]) == Total(qs)
  {
    assert (qs + [map[]])[..|qs|] == qs;
  }

  /** Without one of its projects, an organization is allocated no more. */
  lemma RemoveKeeps(organization: Option<Quantities>, ps: seq<Project>, i: nat)
    requires i < |ps| && Stored(organization, ps)
    ensures var after := ps[..i] + ps[i + 1..];
      && Stored(organization, after)
      && (forall n :: OrganizationExcess(organization, after, n) <= OrganizationExcess(organization, ps, n))
      && (Fits(organization, ps) ==> Fits(organization, after))
  {
    hide Exact, Total, ProjectLimit, ValidProject, Allocation, Held;
    var before, after := Allocations(ps), ps[..i] + ps[i + 1..];
    assert Allocations(after) == Others(ps, i);
    AllocationsValid(ps);
    TotalIsCappedSum(before);
    TotalIsCappedSum(Others(ps, i));
    forall n ensures At(Total(Allocations(after)), n) <= At(Total(before), n) {
      ExactWithout(before, i, n);
      assert before[i] in before && 0 <= At(before[i], n);
    }
  }

  /** Clearing the quotas of one project. */
  lemma ClearKeeps(ps: seq<Project>, i: nat)
    requires i < |ps| && Stored(None, ps)
    ensures var after := ps[i := Project(None, [])]; Stored(None, after) && NoWorse(None, ps, None, after)
  {
    hide Total, Allocations, Held, ProjectLimit;
    EmptyProjectFits(None);
    FittingIsNoWorse(None, ps[i], Project(None, []));
    hide ProjectExcess;
  }
}
