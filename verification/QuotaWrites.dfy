/**
 The quota writes of one organization, each one transaction under its lock: what is refused, what
 is written, and that no write lets the children of a level exceed it.
*/
module QuotaWrites {
  import opened Wrappers
  import opened Quantities
  import opened QuotaTranslation
  import opened QuotaHierarchy
  import opened QuotaExcess
  import opened StringOrder

  datatype Outcome =
    | Written | BelowAllocated | OrgExceeded | ProjectExceeded | AZUnknown
    | UsageUnavailable | BelowUsage | AZUnavailable | Enforced

  /** The answer of the cluster to the push of a lowered quota. */
  datatype PushAnswer = Accepted | RefusedBelowUsage | Unreachable

  /** What the cluster answers about the usage of a project in an AZ. */
  datatype Usage = Usage(hard: set<Name>, used: Quantities)

  // ---------------------------------------------------------------------------------------------
  // Checks
  // ---------------------------------------------------------------------------------------------

  method SumAllocations(qs: seq<Quantities>) returns (total: Quantities)
    ensures total == Total(qs)
  {
    total := map[];
    for i := 0 to |qs|
      invariant total == Total(qs[..i])
    {
      assert qs[..i + 1][..i] == qs[..i];
      total := Add(total, qs[i]);
    }
    assert qs[..|qs|] == qs;
  }

  method CheckCapacity(requested: Quantities, current: Quantities, others: Quantities, limit: Quantities)
    returns (fits: bool)
    ensures fits == HasCapacity(requested, current, others, limit)
  {
    var increased: Quantities, limits: Quantities := map[], map[];
    var todo := requested.Keys;
    while todo != {}
      invariant todo <= requested.Keys
      invariant increased == map n | n in requested && n !in todo && n in limit && requested[n] > At(current, n) ::
        requested[n]
      invariant limits == Only(limit, increased)
      decreases todo
    {
      var n :| n in todo;
      if n in limit && requested[n] > At(current, n) {
        increased, limits := increased[n := requested[n]], limits[n := limit[n]];
      }
      todo := todo - {n};
    }
    assert increased == Increased(requested, current, limit);
    var total := Add(others, increased);
    var exceeded := Exceeds(total, limits);
    fits := exceeded.None?;
  }

  /** The resources already limited before a change that it lowers, with their new value. */
  function Lowered(before: Quantities, after: Quantities): Quantities {
    map n | n in after && n in before && after[n] < before[n] :: after[n]
  }

  method LoweredLimits(before: Quantities, after: Quantities) returns (lowered: Quantities)
    ensures lowered == Lowered(before, after)
  {
    lowered := map[];
    var todo := after.Keys;
    while todo != {}
      invariant todo <= after.Keys
      invariant lowered == map n | n in after && n !in todo && n in before && after[n] < before[n] :: after[n]
      decreases todo
    {
      var n :| n in todo;
      if n in before && after[n] < before[n] { lowered := lowered[n := after[n]]; }
      todo := todo - {n};
    }
  }

  /** The cluster reports a usage of each lowered resource, none above its new limit. */
  predicate UsageAllows(read: Option<Usage>, lowered: Quantities) {
    read.Some? && forall n :: n in lowered ==>
      n in read.value.hard && n in read.value.used && read.value.used[n] <= lowered[n]
  }

  predicate Tracked(usage: Usage, n: Name) { n in usage.hard && n in usage.used }

  /** The lowered resource is not tracked, or used above its new limit. */
  predicate Offends(usage: Usage, lowered: Quantities, n: Name) {
    n in lowered && !(Tracked(usage, n) && usage.used[n] <= lowered[n])
  }

  /**
   What `checkUsage` answers when something is lowered: the refusal is about the first resource, by name, to
   offend.
  */
  ghost predicate UsageAnswer(read: Option<Usage>, lowered: Quantities, outcome: Outcome) {
    if UsageAllows(read, lowered) then outcome == Written
    else if read.None? then outcome == UsageUnavailable
    else exists n :: FirstOffence(read.value, lowered, n) && outcome == Refusal(read.value, n)
  }

  function Refusal(usage: Usage, n: Name): Outcome { if Tracked(usage, n) then BelowUsage else UsageUnavailable }

  ghost predicate FirstOffence(usage: Usage, lowered: Quantities, n: Name) {
    Offends(usage, lowered, n) && forall m :: Offends(usage, lowered, m) ==> !Before(Text(m), Text(n))
  }

  method CheckUsage(read: Option<Usage>, lowered: Quantities) returns (outcome: Outcome)
    ensures UsageAnswer(read, lowered, outcome)
    ensures outcome.Written? <==> read.Some? && forall n :: n in lowered ==>
      n in read.value.hard && n in read.value.used && read.value.used[n] <= lowered[n]
  {
    hide Before, Text;
    if read.None? { return UsageUnavailable; }
    var usage := read.value;
    var names := SortedNames(lowered.Keys);
    for i := 0 to |names|
      invariant forall j :: 0 <= j < i ==> !Offends(usage, lowered, names[j])
    {
      var n := names[i];
      if Offends(usage, lowered, n) {
        forall m | Offends(usage, lowered, m) ensures !Before(Text(m), Text(n)) {
          var j :| 0 <= j < |names| && names[j] == m;
          if j == i { BeforeIsOrder(Text(m), Text(m), Text(m)); }
        }
        assert FirstOffence(usage, lowered, n);
      }
      if n !in usage.hard || n !in usage.used { return UsageUnavailable; }
      if usage.used[n] > lowered[n] { return BelowUsage; }
    }
    assert forall n :: n in lowered ==> n in names && !Offends(usage, lowered, n);
    return Written;
  }

  // ---------------------------------------------------------------------------------------------
  // The organization
  // ---------------------------------------------------------------------------------------------

  /** The projects after the distribution of an organization quota, or its completion. */
  predicate Handed(ps: seq<Project>, limit: Quantities, codes: seq<AZ>, after: seq<Project>)
    requires Valid(limit) && forall p :: p in ps ==> ValidProject(p)
  {
    if Undistributed(ps) then AllGiven(ps, limit, codes, after)
    else |after| == |ps| && forall i :: 0 <= i < |ps| ==> after[i] == Covered(ps[i], limit)
  }

  /** What Kubernetes enforces for a project in an AZ (`Hierarchy.AZ`). */
  function EnforcedIn(organization: Option<Quantities>, p: Project, code: AZ): Quantities {
    EffectiveLimit(ResourcesIn(p.azs, code), [OrEmpty(organization), OrEmpty(p.quota)], 0)
  }

  function LoweredBy(organization: Option<Quantities>, p: Project, code: AZ, requested: Quantities): Quantities {
    Lowered(EnforcedIn(organization, p, code), EffectiveLimit(requested, [OrEmpty(organization), OrEmpty(p.quota)], 0))
  }

  /** `total` is the sum of the allocations of the projects. */
  method DistributeAmongProjects(ps: seq<Project>, limit: Quantities, total: Quantities, codes: seq<AZ>)
    returns (after: seq<Project>)
    requires Valid(limit) && (forall p :: p in ps ==> ValidProject(p)) && !Over(Total(Allocations(ps)), limit)
    requires total == Total(Allocations(ps))
    ensures AllGiven(ps, limit, codes, after)
  {
    hide Exact, Total, Allocation, WithQuota, Over, ValidProject;
    AllocationsValid(ps);
    TotalIsCappedSum(Allocations(ps));
    var left := Sub(limit, total);
    var share := SplitEqually(left, |ps|);
    after := [];
    for i := 0 to |ps|
      invariant |after| == i && forall j :: 0 <= j < i ==> Given(ps[j], after[j], share, limit, codes)
    {
      var given := Add(share, Only(Allocation(ps[i]), limit));
      forall n ensures n in given ==> 0 <= given[n] <= MAX { DistributedAt(ps, i, limit, n); }
      var one := WithQuota(ps[i], given, codes);
      assert Given(ps[i], one, share, limit, codes);
      after := after + [one];
    }
  }

  method CoverAZQuotas(ps: seq<Project>, limit: Quantities) returns (after: seq<Project>)
    ensures |after| == |ps| && forall i :: 0 <= i < |ps| ==> after[i] == Covered(ps[i], limit)
  {
    after := [];
    for i := 0 to |ps|
      invariant |after| == i && forall j :: 0 <= j < i ==> after[j] == Covered(ps[j], limit)
    {
      var missing: Quantities := map[];
      var held := Allocation(ps[i]);
      var todo := Only(held, limit).Keys;
      while todo != {}
        invariant todo <= Only(held, limit).Keys
        invariant missing == map n | n in held && n in limit && n !in todo && n !in OrEmpty(ps[i].quota)
          && held[n] > 0 :: held[n]
        decreases todo
      {
        var n :| n in todo;
        if n !in OrEmpty(ps[i].quota) && held[n] > 0 { missing := missing[n := held[n]]; }
        todo := todo - {n};
      }
      assert missing == Missing(ps[i], limit);
      after := after + [if missing == map[] then ps[i] else ps[i].(quota := Some(OrEmpty(ps[i].quota) + missing))];
    }
  }

  /**
   A resource taken out of an AZ quota is lowered, to 0, exactly when a parent limits it; otherwise it is
   freed of any limit.
  */
  lemma DroppedIsLowered(organization: Option<Quantities>, p: Project, code: AZ, requested: Quantities, n: Name)
    requires At(ResourcesIn(p.azs, code), n) > 0 && n !in requested
    ensures n in LoweredBy(organization, p, code, requested) <==> n in OrEmpty(organization) || n in OrEmpty(p.quota)
    ensures n in LoweredBy(organization, p, code, requested) ==> LoweredBy(organization, p, code, requested)[n] == 0
  {
    var above := [OrEmpty(organization), OrEmpty(p.quota)];
    assert n in Limited(above) <==> n in above[0] || n in above[1];
  }

  function Pushed(answer: PushAnswer): Outcome {
    match answer
    case Accepted => Written
    case RefusedBelowUsage => BelowUsage
    case Unreachable => AZUnavailable
  }

  /** What the write of an AZ quota answers. The cluster is only asked when something is lowered. */
  ghost predicate AZAnswer(organization: Option<Quantities>, p: Project, code: AZ, requested: Quantities,
                     codes: seq<AZ>, read: Option<Usage>, answer: PushAnswer, outcome: Outcome) {
    var lowered := LoweredBy(organization, p, code, requested);
    if code !in codes then outcome == AZUnknown
    else if !AZFitsInProject(organization, p, code, requested) then outcome == ProjectExceeded
    else if lowered == map[] then outcome == Written
    else if UsageAllows(read, lowered) then outcome == Pushed(answer)
    else UsageAnswer(read, lowered, outcome)
  }

  /** What the write of a project quota answers. */
  function ProjectAnswer(organization: Option<Quantities>, ps: seq<Project>, i: nat, requested: Quantities): Outcome
    requires i < |ps|
  {
    if Over(Held(ps[i].azs), ProjectLimit(organization, ps[i].(quota := Some(requested)))) then BelowAllocated
    else if ProjectAllowed(organization, ps, i, requested) then Written
    else OrgExceeded
  }

  class Organization {
    var quota: Option<Quantities>
    /** The live projects. */
    var projects: seq<Project>

    /** The rows are ones the database may store, even with children above their parents. */
    ghost predicate WellFormed() reads this { Stored(quota, projects) }

    /** The children are within their parents. */
    ghost predicate Consistent() reads this { Fits(quota, projects) }

    constructor ()
      ensures WellFormed() && Consistent() && quota == None && projects == []
    {
      quota, projects := None, [];
    }

    /** A new project has no quota and no AZ quota. */
    method CreateProject()
      requires WellFormed()
      modifies this`projects
      ensures WellFormed() && (old(Consistent()) ==> Consistent())
      ensures forall n :: OrganizationExcess(quota, projects, n) == OrganizationExcess(quota, old(projects), n)
      ensures projects == old(projects) + [Project(None, [])]
    {
      CreateKeeps(quota, projects);
      projects := projects + [Project(None, [])];
    }

    method DeleteForProject(i: nat)
      requires WellFormed() && i < |projects|
      modifies this`projects
      ensures WellFormed() && (old(Consistent()) ==> Consistent())
      ensures forall n :: OrganizationExcess(quota, projects, n) <= OrganizationExcess(quota, old(projects), n)
      ensures projects == old(projects[..i] + projects[i + 1..])
    {
      RemoveKeeps(quota, projects, i);
      projects := projects[..i] + projects[i + 1..];
    }

    method SetOrganizationQuota(limit: Quantities, codes: seq<AZ>) returns (outcome: Outcome)
      requires WellFormed() && Valid(limit) && Distinct(codes)
      modifies this`quota, this`projects
      ensures WellFormed() && NoWorse(old(quota), old(projects), quota, projects)
      ensures old(Consistent()) ==> Consistent()
      ensures outcome == if Over(Total(Allocations(old(projects))), limit) then BelowAllocated else Written
      ensures !outcome.Written? ==> quota == old(quota) && projects == old(projects)
      ensures outcome.Written? ==> quota == Some(limit) && Handed(old(projects), limit, codes, projects)
      ensures outcome.Written? && (forall p :: p in old(projects) ==> p.quota == None) ==>
        Distributed(old(projects), limit, codes, projects)
    {
      var total := SumAllocations(Allocations(projects));
      var exceeded := Exceeds(total, limit);
      if exceeded.Some? { return BelowAllocated; }
      var after: seq<Project>;
      if forall p :: p in projects ==> p.quota == None {
        assert Undistributed(projects);
        after := DistributeAmongProjects(projects, limit, total, codes);
        DistributeKeeps(projects, limit, codes, after);
        AllGivenDistributed(projects, limit, codes, after);
        FittingKeeps(quota, projects, Some(limit), after);
      } else {
        after := CoverAZQuotas(projects, limit);
        CoverKeeps(quota, projects, limit, after);
      }
      KeptFits(quota, projects, Some(limit), after);
      quota, projects := Some(limit), after;
      return Written;
    }

    method SetProjectQuota(i: nat, requested: Quantities, codes: seq<AZ>) returns (outcome: Outcome)
      requires WellFormed() && i < |projects| && Valid(requested) && Distinct(codes)
      modifies this`projects
      ensures WellFormed() && NoWorse(quota, old(projects), quota, projects)
      ensures old(Consistent()) ==> Consistent()
      ensures outcome == ProjectAnswer(quota, old(projects), i, requested)
      ensures projects ==
        if outcome.Written? then old(projects)[i := WithQuota(old(projects)[i], requested, codes)] else old(projects)
      ensures outcome.Written? ==> QuotaSaved(old(projects)[i], projects[i], requested, codes)
    {
      WithQuotaSaves(projects[i], requested, codes);
      var p := projects[i];
      var held := SumAllocations(ResourcesOf(p.azs));
      var below := Exceeds(held, ProjectLimit(quota, p.(quota := Some(requested))));
      if below.Some? { return BelowAllocated; }
      if OrEmpty(quota) != map[] {
        var others := SumAllocations(Others(projects, i));
        var fits := CheckCapacity(requested, Allocation(p), others, OrEmpty(quota));
        if !fits { return OrgExceeded; }
      }
      ProjectKeeps(quota, projects, i, requested, codes);
      KeptFits(quota, projects, quota, projects[i := WithQuota(p, requested, codes)]);
      projects := projects[i := WithQuota(p, requested, codes)];
      return Written;
    }

    /** The usage is read, and the quota pushed before the commit, only when something is lowered. */
    method SetProjectAZQuota(i: nat, code: AZ, requested: Quantities, codes: seq<AZ>, read: Option<Usage>,
        answer: PushAnswer)
      returns (outcome: Outcome)
      requires WellFormed() && i < |projects| && Valid(requested)
      modifies this`projects
      ensures WellFormed() && NoWorse(quota, old(projects), quota, projects)
      ensures old(Consistent()) ==> Consistent()
      ensures AZAnswer(quota, old(projects)[i], code, requested, codes, read, answer, outcome)
      ensures projects ==
        if outcome.Written? then old(projects)[i := WithAZ(old(projects)[i], code, requested)] else old(projects)
      ensures outcome.Written? ==> projects[i].quota == old(projects)[i].quota && forall a :: a in projects[i].azs <==>
        a == AZQuota(code, requested) || (a in old(projects)[i].azs && a.code != code)
    {
      assert ValidProject(projects[i]);
      UpsertAZRows(projects[i].azs, code, requested);
      outcome := CheckAZQuota(projects[i], code, requested, codes, read, answer);
      if outcome.Written? {
        assert AZFitsInProject(quota, projects[i], code, requested);
        OneAZKeeps(quota, projects, i, code, requested);
        KeptFits(quota, projects, quota, projects[i := WithAZ(projects[i], code, requested)]);
        projects := projects[i := WithAZ(projects[i], code, requested)];
      }
    }

    /** The checks of `SetProjectAZQuota`, in their order. */
    method CheckAZQuota(p: Project, code: AZ, requested: Quantities, codes: seq<AZ>, read: Option<Usage>,
        answer: PushAnswer)
      returns (outcome: Outcome)
      ensures AZAnswer(quota, p, code, requested, codes, read, answer, outcome)
      ensures outcome.Written? ==> AZFitsInProject(quota, p, code, requested)
    {
      if code !in codes { return AZUnknown; }
      var others := SumAllocations(ResourcesOf(OtherAZs(p.azs, code)));
      var fits := CheckCapacity(requested, ResourcesIn(p.azs, code), others, ProjectLimit(quota, p));
      if !fits { return ProjectExceeded; }
      var after := EffectiveLimit(requested, [OrEmpty(quota), OrEmpty(p.quota)], 0);
      var lowered := LoweredLimits(EnforcedIn(quota, p, code), after);
      hide EffectiveLimit, Lowered, HasCapacity;
      assert lowered == LoweredBy(quota, p, code, requested);
      hide UsageAllows, FirstOffence;
      if lowered != map[] {
        outcome := CheckUsage(read, lowered);
        if !outcome.Written? { return; }
        match answer {
          case Accepted => return Written;
          case RefusedBelowUsage => return BelowUsage;
          case Unreachable => return AZUnavailable;
        }
      }
      return Written;
    }

    method DeleteOrganizationQuota()
      requires WellFormed()
      modifies this`quota
      ensures WellFormed() && NoWorse(old(quota), projects, quota, projects)
      ensures old(Consistent()) ==> Consistent()
      ensures quota == None
    {
      UnlimitedKeeps(quota, projects);
      KeptFits(quota, projects, None, projects);
      quota := None;
    }

    method DeleteProjectQuota(i: nat) returns (outcome: Outcome)
      requires WellFormed() && i < |projects|
      modifies this`projects
      ensures WellFormed() && NoWorse(quota, old(projects), quota, projects)
      ensures old(Consistent()) ==> Consistent()
      ensures outcome == if quota.Some? then Enforced else Written
      ensures projects == if outcome.Written? then old(projects)[i := Project(None, [])] else old(projects)
    {
      if quota.Some? { return Enforced; }
      ClearKeeps(projects, i);
      KeptFits(None, projects, None, projects[i := Project(None, [])]);
      projects := projects[i := Project(None, [])];
      return Written;
    }
  }
}
