/**
 The hierarchical quotas of an organization: its quota, the quotas of its projects, and the quota
 of each project in each availability zone; what each level takes from its parent, and the checks and
 distributions of the writes.

 Quantities are in their parsed form. The rows are those one transaction sees under the lock of the
 organization.
*/
module QuotaHierarchy {
  import opened Wrappers
  import opened Quantities
  import opened QuotaTranslation

  datatype AZQuota = AZQuota(code: AZ, resources: Quantities)

  /** A live project: its quota row, if any, and its AZ quota rows, at most one per AZ. */
  datatype Project = Project(quota: Option<Quantities>, azs: seq<AZQuota>)

  function OrEmpty(q: Option<Quantities>): Quantities {
    match q case Some(value) => value case None => map[]
  }

  function ResourcesOf(azs: seq<AZQuota>): (qs: seq<Quantities>)
    ensures |qs| == |azs| && forall i :: 0 <= i < |azs| ==> qs[i] == azs[i].resources
  {
    seq(|azs|, i requires 0 <= i < |azs| => azs[i].resources)
  }

  /** `sumAZQuotas`. */
  function Held(azs: seq<AZQuota>): Quantities { Total(ResourcesOf(azs)) }

  /** `projectLimit`. */
  function ProjectLimit(organization: Option<Quantities>, p: Project): Quantities {
    EffectiveLimit(OrEmpty(p.quota), [OrEmpty(organization)], 0)
  }

  /** What a project takes from its organization (`projectAllocations`). */
  function Allocation(p: Project): Quantities { Highest(OrEmpty(p.quota), Held(p.azs)) }

  function Allocations(ps: seq<Project>): (qs: seq<Quantities>)
    ensures |qs| == |ps| && forall i :: 0 <= i < |ps| ==> qs[i] == Allocation(ps[i])
  {
    seq(|ps|, i requires 0 <= i < |ps| => Allocation(ps[i]))
  }

  predicate ValidProject(p: Project) {
    && Valid(OrEmpty(p.quota)) && (forall a :: a in p.azs ==> Valid(a.resources)) && DistinctRows(p.azs)
  }

  /** The AZ quotas of a project stay within its effective limit. */
  predicate ProjectFits(organization: Option<Quantities>, p: Project) {
    ValidProject(p) && !Over(Held(p.azs), ProjectLimit(organization, p))
  }

  /** No level is allocated more than its parent has. */
  predicate Fits(organization: Option<Quantities>, ps: seq<Project>) {
    && Valid(OrEmpty(organization))
    && (forall p :: p in ps ==> ProjectFits(organization, p))
    && !Over(Total(Allocations(ps)), OrEmpty(organization))
  }

  // ---------------------------------------------------------------------------------------------
  // Allocations
  // ---------------------------------------------------------------------------------------------

  lemma HeldAt(azs: seq<AZQuota>, n: Name)
    requires forall a :: a in azs ==> Valid(a.resources)
    ensures Valid(Held(azs))
    ensures At(Held(azs), n) == Min(Exact(ResourcesOf(azs), n), MAX) && 0 <= Exact(ResourcesOf(azs), n)
  {
    assert forall q :: q in ResourcesOf(azs) ==> Valid(q);
    TotalIsCappedSum(ResourcesOf(azs));
    ExactNonNegative(ResourcesOf(azs), n);
  }

  lemma AllocationAt(p: Project, n: Name)
    requires ValidProject(p)
    ensures Valid(Allocation(p)) && At(Allocation(p), n) == Max(At(OrEmpty(p.quota), n), At(Held(p.azs), n))
  {
    HeldAt(p.azs, n);
  }

  /** A resource the organization limits is allocated to a project exactly as its project quota says. */
  lemma AllocationIsQuota(organization: Option<Quantities>, p: Project, n: Name)
    requires ProjectFits(organization, p) && n in OrEmpty(organization)
    ensures At(Allocation(p), n) == At(OrEmpty(p.quota), n)
  {
    AllocationAt(p, n);
    LimitAt(organization, p, n);
    assert At(Held(p.azs), n) <= ProjectLimit(organization, p)[n];
  }

  lemma LimitAt(organization: Option<Quantities>, p: Project, n: Name)
    ensures n in ProjectLimit(organization, p) <==> n in OrEmpty(p.quota) || n in OrEmpty(organization)
    ensures n in ProjectLimit(organization, p) ==> ProjectLimit(organization, p)[n] == At(OrEmpty(p.quota), n)
  {
    LimitedSnoc([], OrEmpty(organization));
    assert [OrEmpty(organization)] == [] + [OrEmpty(organization)];
  }

  lemma ProjectFitsAt(organization: Option<Quantities>, p: Project)
    requires ValidProject(p)
    ensures ProjectFits(organization, p) <==>
      forall n :: n in OrEmpty(p.quota) || n in OrEmpty(organization) ==> At(Held(p.azs), n) <= At(OrEmpty(p.quota), n)
  {
    forall n { LimitAt(organization, p, n); }
  }

  /** The allocations of the other projects. */
  function Others(ps: seq<Project>, i: nat): seq<Quantities>
    requires i < |ps|
  {
    Allocations(ps)[..i] + Allocations(ps)[i + 1..]
  }

  lemma TotalWith(qs: seq<Quantities>, i: nat, n: Name)
    requires i < |qs| && forall q :: q in qs ==> Valid(q)
    ensures At(Total(qs), n) == Min(Exact(qs[..i] + qs[i + 1..], n) + At(qs[i], n), MAX)
  {
    TotalIsCappedSum(qs);
    ExactWithout(qs, i, n);
  }

  /** The total of the allocations, one project being changed. */
  lemma TotalUpdated(ps: seq<Project>, i: nat, p: Project, n: Name)
    requires i < |ps| && ValidProject(p) && forall q :: q in ps ==> ValidProject(q)
    ensures At(Total(Allocations(ps[i := p])), n) == Min(Exact(Others(ps, i), n) + At(Allocation(p), n), MAX)
  {
    hide Exact, Total;
    var before, after := Allocations(ps), Allocations(ps[i := p]);
    AllocationsValid(ps);
    AllocationAt(p, n);
    assert after == before[i := Allocation(p)];
    TotalWith(after, i, n);
    assert after[..i] == before[..i] && after[i + 1..] == before[i + 1..];
  }

  lemma AllocationsValid(ps: seq<Project>)
    requires forall p :: p in ps ==> ValidProject(p)
    ensures forall q :: q in Allocations(ps) ==> Valid(q)
  {
    forall i | 0 <= i < |ps| ensures Valid(Allocations(ps)[i]) { AllocationAt(ps[i], CPU); }
  }

  // ---------------------------------------------------------------------------------------------
  // Capacity
  // ---------------------------------------------------------------------------------------------

  /** The resources of a request that the parent limits and that it increases. */
  function Increased(requested: Quantities, current: Quantities, limit: Quantities): Quantities {
    map n | n in requested && n in limit && requested[n] > At(current, n) :: requested[n]
  }

  /** `checkCapacity`. */
  predicate HasCapacity(requested: Quantities, current: Quantities, others: Quantities, limit: Quantities) {
    var increased := Increased(requested, current, limit);
    !Over(Plus(others, increased), Only(limit, increased))
  }

  /** With capacity, a resource ends within its limit, or no higher than it was. */
  lemma CapacityBounds(requested: Quantities, current: Quantities, others: seq<Quantities>, limit: Quantities, n: Name)
    requires Valid(requested) && Valid(current) && (forall q :: q in others ==> Valid(q))
    requires HasCapacity(requested, current, Total(others), limit) && n in limit
    ensures At(requested, n) <= At(current, n) || Min(Exact(others, n) + At(requested, n), MAX) <= limit[n]
  {
    hide Exact, Total;
    var increased := Increased(requested, current, limit);
    ExactNonNegative(others, n);
    if n in increased {
      var total := Total(others);
      assert Valid(total) && At(total, n) == Min(Exact(others, n), MAX) by { TotalIsCappedSum(others); }
      assert n in Only(limit, increased);
      assert At(Plus(total, increased), n) <= limit[n];
      SaturatingAddIsCapped(At(total, n), requested[n]);
    }
  }

  /** A request that increases nothing its parent limits has capacity, whatever the other children hold. */
  lemma LoweringHasCapacity(requested: Quantities, current: Quantities, others: Quantities, limit: Quantities)
    requires forall n :: n in requested && n in limit ==> requested[n] <= At(current, n)
    ensures HasCapacity(requested, current, others, limit)
  {
    assert Increased(requested, current, limit) == map[];
  }

  /** A request has capacity exactly when it leaves each resource within the limit, or no higher than it was. */
  lemma CapacityIff(requested: Quantities, current: Quantities, others: seq<Quantities>, limit: Quantities)
    requires Valid(requested) && Valid(current) && (forall q :: q in others ==> Valid(q))
    ensures HasCapacity(requested, current, Total(others), limit) <==> forall n :: n in limit ==>
      At(requested, n) <= At(current, n) || Min(Exact(others, n) + At(requested, n), MAX) <= limit[n]
  {
    hide Exact, Total;
    if HasCapacity(requested, current, Total(others), limit) {
      forall n | n in limit
        ensures At(requested, n) <= At(current, n) || Min(Exact(others, n) + At(requested, n), MAX) <= limit[n]
      {
        CapacityBounds(requested, current, others, limit, n);
      }
    } else {
      OverCapacity(requested, current, others, limit);
    }
  }

  /**
   As long as the children fit, checking only the resources that the request increases is checking that they
   still fit.
  */
  lemma CapacityIffFits(requested: Quantities, current: Quantities, others: seq<Quantities>, limit: Quantities)
    requires Valid(requested) && Valid(current) && (forall q :: q in others ==> Valid(q))
    requires forall n :: n in limit ==> Min(Exact(others, n) + At(current, n), MAX) <= limit[n]
    ensures HasCapacity(requested, current, Total(others), limit) <==>
      forall n :: n in limit ==> Min(Exact(others, n) + At(requested, n), MAX) <= limit[n]
  {
    hide Exact, Total;
    if HasCapacity(requested, current, Total(others), limit) {
      forall n | n in limit ensures Min(Exact(others, n) + At(requested, n), MAX) <= limit[n] {
        CapacityBounds(requested, current, others, limit, n);
      }
    } else {
      OverCapacity(requested, current, others, limit);
    }
  }

  /** Without capacity, a resource that the request increases exceeds its limit. */
  lemma OverCapacity(requested: Quantities, current: Quantities, others: seq<Quantities>, limit: Quantities)
    requires Valid(requested) && (forall q :: q in others ==> Valid(q))
    requires !HasCapacity(requested, current, Total(others), limit)
    ensures exists n ::
      n in limit && n in requested && At(requested, n) > At(current, n)
      && Min(Exact(others, n) + At(requested, n), MAX) > limit[n]
  {
    hide Exact, Total;
    var increased, total := Increased(requested, current, limit), Total(others);
    TotalIsCappedSum(others);
    var n :| n in Only(limit, increased) && At(Plus(total, increased), n) > limit[n];
    assert n in requested && At(requested, n) > At(current, n);
    hide Over, HasCapacity, Increased;
    ExactNonNegative(others, n);
    SaturatingAddIsCapped(At(total, n), requested[n]);
  }

  /** `splitAmongAZs`: the rows given to a project that has none. */
  function SplitRows(quota: Quantities, codes: seq<AZ>): seq<AZQuota>
    requires Valid(quota)
  {
    seq(|codes|, i requires 0 <= i < |codes| => AZQuota(codes[i], Share(quota, |codes|)))
  }

  predicate Distinct(codes: seq<AZ>) { forall i, j :: 0 <= i < j < |codes| ==> codes[i] != codes[j] }

  lemma SplitFits(organization: Option<Quantities>, quota: Quantities, codes: seq<AZ>)
    requires Valid(quota) && Distinct(codes)
    ensures ProjectFits(organization, Project(Some(quota), SplitRows(quota, codes)))
  {
    var p := Project(Some(quota), SplitRows(quota, codes));
    assert ResourcesOf(p.azs) == Shares(quota, |codes|);
    forall n | n in quota ensures 0 <= quota[n] / Max(|codes|, 1) <= MAX { ShareBounds(quota[n], Max(|codes|, 1)); }
    if |codes| > 0 { SplitConserves(quota, |codes|); }
    ProjectFitsAt(organization, p);
  }

  // ---------------------------------------------------------------------------------------------
  // The writes
  // ---------------------------------------------------------------------------------------------

  function UpsertAZ(azs: seq<AZQuota>, code: AZ, resources: Quantities): seq<AZQuota> {
    if azs == [] then [AZQuota(code, resources)]
    else if azs[0].code == code then [AZQuota(code, resources)] + azs[1..]
    else [azs[0]] + UpsertAZ(azs[1..], code, resources)
  }

  /** The rows of the other AZs. */
  function OtherAZs(azs: seq<AZQuota>, code: AZ): seq<AZQuota> {
    if azs == [] then []
    else if azs[0].code == code then OtherAZs(azs[1..], code)
    else [azs[0]] + OtherAZs(azs[1..], code)
  }

  function ResourcesIn(azs: seq<AZQuota>, code: AZ): Quantities {
    if azs == [] then map[] else if azs[0].code == code then azs[0].resources else ResourcesIn(azs[1..], code)
  }

  lemma {:induction false} OtherAZsOfAbsent(azs: seq<AZQuota>, code: AZ)
    requires forall a :: a in azs ==> a.code != code
    ensures OtherAZs(azs, code) == azs
  {
    if azs != [] { OtherAZsOfAbsent(azs[1..], code); }
  }

  predicate DistinctRows(azs: seq<AZQuota>) { forall i, j :: 0 <= i < j < |azs| ==> azs[i].code != azs[j].code }

  /** The rows are at most one per AZ: what is in an AZ is what its row says. */
  lemma {:induction false} ResourcesAre(azs: seq<AZQuota>, code: AZ)
    requires DistinctRows(azs)
    ensures forall a :: a in azs && a.code == code ==> ResourcesIn(azs, code) == a.resources
    ensures (forall a :: a in azs ==> a.code != code) ==> ResourcesIn(azs, code) == map[]
  {
    if azs != [] {
      ResourcesAre(azs[1..], code);
      assert azs == [azs[0]] + azs[1..];
    }
  }

  lemma {:induction false} UpsertAZSum(azs: seq<AZQuota>, code: AZ, resources: Quantities, n: Name)
    requires DistinctRows(azs)
    ensures var others := Exact(ResourcesOf(OtherAZs(azs, code)), n);
      && Exact(ResourcesOf(azs), n) == others + At(ResourcesIn(azs, code), n)
      && Exact(ResourcesOf(UpsertAZ(azs, code, resources)), n) == others + At(resources, n)
  {
    if azs == [] {
      SumCons(AZQuota(code, resources), [], n);
    } else {
      var a, rest := azs[0], azs[1..];
      assert azs == [a] + rest;
      SumCons(a, rest, n);
      if a.code == code {
        OtherAZsOfAbsent(rest, code);
        SumCons(AZQuota(code, resources), rest, n);
      } else {
        UpsertAZSum(rest, code, resources, n);
        SumCons(a, OtherAZs(rest, code), n);
        SumCons(a, UpsertAZ(rest, code, resources), n);
      }
    }
  }

  lemma {:induction false} UpsertAZRows(azs: seq<AZQuota>, code: AZ, resources: Quantities)
    requires DistinctRows(azs)
    ensures DistinctRows(UpsertAZ(azs, code, resources))
    ensures forall a :: a in UpsertAZ(azs, code, resources) <==>
      a == AZQuota(code, resources) || (a in azs && a.code != code)
  {
    if azs != [] {
      var a, rest := azs[0], azs[1..];
      UpsertAZRows(rest, code, resources);
      assert forall b :: b in rest ==> b in azs && b.code != a.code;
      if a.code != code {
        var tail := UpsertAZ(rest, code, resources);
        assert UpsertAZ(azs, code, resources) == [a] + tail;
        assert forall k :: 0 <= k < |tail| ==> tail[k] in tail && tail[k].code != a.code;
      }
    }
  }

  lemma {:induction false} OtherRows(azs: seq<AZQuota>, code: AZ)
    ensures forall a :: a in OtherAZs(azs, code) ==> a in azs
    ensures ResourcesIn(azs, code) == map[] || exists a :: a in azs && a.resources == ResourcesIn(azs, code)
  {
    if azs != [] {
      var a, rest := azs[0], azs[1..];
      OtherRows(rest, code);
      assert a in azs && forall b :: b in rest ==> b in azs;
    }
  }

  lemma SumCons(a: AZQuota, azs: seq<AZQuota>, n: Name)
    ensures Exact(ResourcesOf([a] + azs), n) == At(a.resources, n) + Exact(ResourcesOf(azs), n)
  {
    assert ResourcesOf([a] + azs) == [a.resources] + ResourcesOf(azs);
    ExactConcat([a.resources], ResourcesOf(azs), n);
    assert [a.resources][..0] == [];
  }

  /** The project with another quota in one AZ. */
  function WithAZ(p: Project, code: AZ, requested: Quantities): Project {
    p.(azs := UpsertAZ(p.azs, code, requested))
  }

  /** `checkAZFitsInProject`. */
  predicate AZFitsInProject(organization: Option<Quantities>, p: Project, code: AZ, requested: Quantities) {
    HasCapacity(requested, ResourcesIn(p.azs, code), Held(OtherAZs(p.azs, code)), ProjectLimit(organization, p))
  }

  /** `checkProjectCoversAZs` and `checkProjectFitsInOrganization`. */
  predicate ProjectAllowed(organization: Option<Quantities>, ps: seq<Project>, i: nat, requested: Quantities)
    requires i < |ps|
  {
    && !Over(Held(ps[i].azs), ProjectLimit(organization, ps[i].(quota := Some(requested))))
    && (OrEmpty(organization) != map[] ==>
          HasCapacity(requested, Allocation(ps[i]), Total(Others(ps, i)), OrEmpty(organization)))
  }

  /** `saveProjectQuota`. */
  function WithQuota(p: Project, quota: Quantities, codes: seq<AZ>): Project
    requires Valid(quota)
  {
    Project(Some(quota), if p.azs == [] then SplitRows(quota, codes) else p.azs)
  }

  /**
   A project given a quota: one without AZ rows gets a row in every AZ, with the whole part of each resource
   divided by the number of AZs; other rows stay as they are.
  */
  predicate QuotaSaved(before: Project, after: Project, quota: Quantities, codes: seq<AZ>) {
    && after.quota == Some(quota)
    && if before.azs != [] then after.azs == before.azs
       else |after.azs| == |codes| && forall j :: 0 <= j < |codes| ==> IsPart(after.azs[j], codes[j], quota, |codes|)
  }

  predicate IsPart(row: AZQuota, code: AZ, quota: Quantities, count: nat)
    requires count > 0
  {
    && row.code == code && row.resources.Keys == quota.Keys
    && forall n :: n in quota ==> row.resources[n] == quota[n] / count
  }

  lemma WithQuotaSaves(p: Project, quota: Quantities, codes: seq<AZ>)
    requires Valid(quota)
    ensures QuotaSaved(p, WithQuota(p, quota, codes), quota, codes)
  {
    if p.azs == [] {
      var share := Share(quota, |codes|);
      forall j | 0 <= j < |codes| ensures IsPart(SplitRows(quota, codes)[j], codes[j], quota, |codes|) {
        assert SplitRows(quota, codes)[j] == AZQuota(codes[j], share) && share.Keys == quota.Keys;
      }
    }
  }

  lemma WithQuotaFits(organization: Option<Quantities>, p: Project, requested: Quantities, codes: seq<AZ>)
    requires ValidProject(p) && Valid(requested) && Distinct(codes)
    requires !Over(Held(p.azs), ProjectLimit(organization, p.(quota := Some(requested))))
    ensures ProjectFits(organization, WithQuota(p, requested, codes))
  {
    hide Exact, Total;
    if p.azs == [] {
      SplitFits(organization, requested, codes);
    } else {
      assert WithQuota(p, requested, codes) == p.(quota := Some(requested));
    }
  }

  /** `coverAZQuotas`, for one project: what its AZs hold of a resource that its quota omits. */
  function Missing(p: Project, limit: Quantities): Quantities {
    map n | n in Allocation(p) && n in limit && n !in OrEmpty(p.quota) && Allocation(p)[n] > 0 :: Allocation(p)[n]
  }

  function Covered(p: Project, limit: Quantities): Project {
    if Missing(p, limit) == map[] then p else p.(quota := Some(OrEmpty(p.quota) + Missing(p, limit)))
  }

  /** Adding the same amount to each of the quantities summed. */
  lemma {:induction false} ExactShift(before: seq<Quantities>, after: seq<Quantities>, n: Name, c: int)
    requires |before| == |after| && forall i :: 0 <= i < |before| ==> At(after[i], n) == At(before[i], n) + c
    ensures Exact(after, n) == Exact(before, n) + |before| * c
  {
    var k := |before|;
    if k > 0 {
      ExactShift(before[..k - 1], after[..k - 1], n, c);
      assert k * c == (k - 1) * c + c;
    }
  }

  lemma MemberBelowExact(qs: seq<Quantities>, i: nat, n: Name)
    requires i < |qs| && forall q :: q in qs ==> Valid(q)
    ensures At(qs[i], n) <= Exact(qs, n)
  {
    ExactWithout(qs, i, n);
    ExactNonNegative(qs[..i] + qs[i + 1..], n);
  }

  /** What is left of a limit is the limit less the exact sum, down to 0. */
  lemma LeftOver(qs: seq<Quantities>, limit: Quantities, n: Name)
    requires Valid(limit) && n in limit && (forall q :: q in qs ==> Valid(q)) && !Over(Total(qs), limit)
    ensures n in Minus(limit, Total(qs)) && Valid(Minus(limit, Total(qs)))
    ensures Minus(limit, Total(qs))[n] == if Exact(qs, n) <= MAX then limit[n] - Exact(qs, n) else 0
    ensures Exact(qs, n) > MAX ==> limit[n] == MAX
  {
    hide Exact, Total;
    TotalIsCappedSum(qs);
    var total := Total(qs);
    assert At(total, n) <= limit[n];
    forall m | m in limit ensures 0 <= At(total, m) { ExactNonNegative(qs, m); }
  }

  lemma LeftIsValid(ps: seq<Project>, limit: Quantities)
    requires Valid(limit) && forall p :: p in ps ==> ValidProject(p)
    ensures Valid(Minus(limit, Total(Allocations(ps))))
  {
    hide Exact, Total, Allocations, ValidProject;
    AllocationsValid(ps);
    TotalIsCappedSum(Allocations(ps));
    var total := Total(Allocations(ps));
    assert Valid(total);
  }

  /** `distributeAmongProjects`: an equal share of what the organization has left. */
  function EqualShare(ps: seq<Project>, limit: Quantities): Quantities
    requires Valid(limit) && forall p :: p in ps ==> ValidProject(p)
  {
    LeftIsValid(ps, limit);
    Share(Minus(limit, Total(Allocations(ps))), |ps|)
  }

  /** The quota given to a project: no resource overflows, and only the limited resources are given. */
  lemma DistributedAt(ps: seq<Project>, i: nat, limit: Quantities, n: Name)
    requires Valid(limit) && i < |ps| && (forall p :: p in ps ==> ValidProject(p))
    requires !Over(Total(Allocations(ps)), limit)
    ensures var given := Plus(EqualShare(ps, limit), Only(Allocation(ps[i]), limit));
      && (n in given <==> n in limit)
      && (n in limit ==> n in EqualShare(ps, limit) && 0 <= EqualShare(ps, limit)[n] && 0 <= given[n] <= MAX)
      && (n in limit ==> given[n] == EqualShare(ps, limit)[n] + At(Allocation(ps[i]), n))
  {
    hide Exact, Total;
    var qs := Allocations(ps);
    AllocationsValid(ps);
    var left, share := Minus(limit, Total(qs)), EqualShare(ps, limit);
    assert share.Keys == limit.Keys;
    assert Only(Allocation(ps[i]), limit).Keys <= limit.Keys;
    if n in limit {
      LeftOver(qs, limit, n);
      MemberBelowExact(qs, i, n);
      ShareBounds(left[n], |ps|);
      ShareAtMost(left[n], |ps|);
      assert Valid(qs[i]) && qs[i] == Allocation(ps[i]);
      assert 0 <= share[n] && share[n] + At(qs[i], n) <= MAX;
    }
  }

  lemma ShareAtMost(v: int, count: int)
    requires 0 <= v <= MAX && count > 0
    ensures v / count <= v
  {
    ShareBounds(v, count);
    var share := v / count;
    if share > 0 { MulAtLeast(share, count); }
  }

  lemma MulAtLeast(a: int, b: int)
    requires a > 0 && b > 0
    ensures a <= b * a
  {
  }

  /** A project given its part of the distribution. */
  predicate Given(before: Project, after: Project, share: Quantities, limit: Quantities, codes: seq<AZ>) {
    var given := Plus(share, Only(Allocation(before), limit));
    Valid(given) && after == WithQuota(before, given, codes)
  }

  predicate Undistributed(ps: seq<Project>) { forall p :: p in ps ==> p.quota == None }

  lemma GivenFits(ps: seq<Project>, i: nat, limit: Quantities, after: Project, codes: seq<AZ>)
    requires Valid(limit) && i < |ps| && (forall p :: p in ps ==> ValidProject(p))
    requires !Over(Total(Allocations(ps)), limit)
    requires Undistributed(ps) && Distinct(codes) && Given(ps[i], after, EqualShare(ps, limit), limit, codes)
    ensures ProjectFits(Some(limit), after)
    ensures forall n :: n in limit ==> n in EqualShare(ps, limit)
    ensures forall n :: n in limit ==> At(Allocation(after), n) == At(Allocation(ps[i]), n) + EqualShare(ps, limit)[n]
  {
    hide Exact, Total, Over, EqualShare, WithQuota, Allocations, Undistributed, HasCapacity;
    var given := Plus(EqualShare(ps, limit), Only(Allocation(ps[i]), limit));
    forall n ensures n in given <==> n in limit { DistributedAt(ps, i, limit, n); }
    GivenCovers(ps, i, limit);
    WithQuotaFits(Some(limit), ps[i], given, codes);
    forall n | n in limit
      ensures n in EqualShare(ps, limit)
      ensures At(Allocation(after), n) == At(Allocation(ps[i]), n) + EqualShare(ps, limit)[n]
    {
      DistributedAt(ps, i, limit, n);
      AllocationIsQuota(Some(limit), after, n);
      QuotaOfWithQuota(ps[i], given, codes);
    }
  }

  lemma QuotaOfWithQuota(p: Project, quota: Quantities, codes: seq<AZ>)
    requires Valid(quota)
    ensures OrEmpty(WithQuota(p, quota, codes).quota) == quota
  {
  }

  lemma GivenCovers(ps: seq<Project>, i: nat, limit: Quantities)
    requires Valid(limit) && i < |ps| && (forall p :: p in ps ==> ValidProject(p))
    requires !Over(Total(Allocations(ps)), limit)
    requires Undistributed(ps)
    ensures var given := Plus(EqualShare(ps, limit), Only(Allocation(ps[i]), limit));
      Valid(given) && !Over(Held(ps[i].azs), ProjectLimit(Some(limit), ps[i].(quota := Some(given))))
  {
    hide Exact, Total, EqualShare, Allocations;
    var given := Plus(EqualShare(ps, limit), Only(Allocation(ps[i]), limit));
    var p := ps[i].(quota := Some(given));
    forall n ensures n in given ==> n in limit && 0 <= given[n] <= MAX { DistributedAt(ps, i, limit, n); }
    forall n | n in ProjectLimit(Some(limit), p) ensures At(Held(p.azs), n) <= ProjectLimit(Some(limit), p)[n] {
      LimitAt(Some(limit), p, n);
      DistributedAt(ps, i, limit, n);
      AllocationAt(ps[i], n);
    }
  }

  predicate AllGiven(ps: seq<Project>, limit: Quantities, codes: seq<AZ>, after: seq<Project>)
    requires Valid(limit) && forall p :: p in ps ==> ValidProject(p)
  {
    |after| == |ps| && forall i :: 0 <= i < |ps| ==> Given(ps[i], after[i], EqualShare(ps, limit), limit, codes)
  }

  /** What a project without a quota is given: what its AZs hold, and an equal part of what is left. */
  function PartOf(ps: seq<Project>, i: nat, limit: Quantities, n: Name): int
    requires i < |ps| && n in limit
  {
    Min(Exact(ResourcesOf(ps[i].azs), n), MAX) + Max(limit[n] - Exact(Allocations(ps), n), 0) / |ps|
  }

  /** Every project is given its part of each resource that the organization limits, and of no other. */
  predicate Distributed(ps: seq<Project>, limit: Quantities, codes: seq<AZ>, after: seq<Project>) {
    |after| == |ps| && forall i :: 0 <= i < |ps| ==>
      && after[i].quota.Some? && after[i].quota.value.Keys == limit.Keys
      && (forall n :: n in limit ==> after[i].quota.value[n] == PartOf(ps, i, limit, n))
      && QuotaSaved(ps[i], after[i], after[i].quota.value, codes)
  }

  lemma GivenIsPart(ps: seq<Project>, i: nat, limit: Quantities, n: Name)
    requires Valid(limit) && i < |ps| && (forall p :: p in ps ==> ValidProject(p))
    requires !Over(Total(Allocations(ps)), limit) && Undistributed(ps) && n in limit
    ensures var given := Plus(EqualShare(ps, limit), Only(Allocation(ps[i]), limit));
      n in given && given[n] == PartOf(ps, i, limit, n)
  {
    hide Exact, Total, Over;
    var qs := Allocations(ps);
    AllocationsValid(ps);
    DistributedAt(ps, i, limit, n);
    LeftOver(qs, limit, n);
    AllocationAt(ps[i], n);
    HeldAt(ps[i].azs, n);
    ExactNonNegative(qs, n);
    assert Minus(limit, Total(qs))[n] == Max(limit[n] - Exact(qs, n), 0);
  }

  lemma AllGivenDistributed(ps: seq<Project>, limit: Quantities, codes: seq<AZ>, after: seq<Project>)
    requires Valid(limit) && (forall p :: p in ps ==> ValidProject(p)) && !Over(Total(Allocations(ps)), limit)
    requires Undistributed(ps) && AllGiven(ps, limit, codes, after)
    ensures Distributed(ps, limit, codes, after)
  {
    hide Exact, Total, EqualShare, Over, WithQuota, QuotaSaved, PartOf, Allocation, Undistributed, ValidProject;
    forall i | 0 <= i < |ps|
      ensures after[i].quota.Some? && after[i].quota.value.Keys == limit.Keys
      ensures forall n :: n in limit ==> after[i].quota.value[n] == PartOf(ps, i, limit, n)
      ensures QuotaSaved(ps[i], after[i], after[i].quota.value, codes)
    {
      var given := Plus(EqualShare(ps, limit), Only(Allocation(ps[i]), limit));
      forall n ensures n in given <==> n in limit { DistributedAt(ps, i, limit, n); }
      forall n | n in limit ensures given[n] == PartOf(ps, i, limit, n) { GivenIsPart(ps, i, limit, n); }
      WithQuotaSaves(ps[i], given, codes);
      QuotaIsSaved(ps[i], after[i], given, codes);
    }
  }

  lemma QuotaIsSaved(before: Project, after: Project, quota: Quantities, codes: seq<AZ>)
    requires QuotaSaved(before, after, quota, codes)
    ensures after.quota == Some(quota)
  {
  }

  lemma DistributeKeepsAt(ps: seq<Project>, limit: Quantities, codes: seq<AZ>, after: seq<Project>, n: Name)
    requires Valid(limit) && (forall p :: p in ps ==> ValidProject(p)) && !Over(Total(Allocations(ps)), limit)
    requires Undistributed(ps) && Distinct(codes) && AllGiven(ps, limit, codes, after) && n in limit
    ensures At(Total(Allocations(after)), n) <= limit[n]
    ensures ps != [] ==> limit[n] < At(Total(Allocations(after)), n) + |ps|
  {
    hide Exact, Total, EqualShare, Over, Given, Undistributed, Distinct, Allocation;
    var before, c := Allocations(ps), if ps == [] then 0 else EqualShareAt(ps, limit, n);
    forall i | 0 <= i < |ps|
      ensures At(Allocation(after[i]), n) == At(Allocation(ps[i]), n) + c
      ensures ValidProject(after[i])
    {
      GivenFits(ps, i, limit, after[i], codes);
    }
    AllocationsValid(ps);
    AllocationsValid(after);
    ExactShift(before, Allocations(after), n, c);
    LeftOver(before, limit, n);
    TotalIsCappedSum(Allocations(after));
    if ps != [] { SharesOfLeft(ps, limit, n); }
  }

  function EqualShareAt(ps: seq<Project>, limit: Quantities, n: Name): int
    requires Valid(limit) && forall p :: p in ps ==> ValidProject(p)
  {
    At(EqualShare(ps, limit), n)
  }

  lemma SharesOfLeft(ps: seq<Project>, limit: Quantities, n: Name)
    requires Valid(limit) && (forall p :: p in ps ==> ValidProject(p)) && n in limit && ps != []
    ensures var left := At(Minus(limit, Total(Allocations(ps))), n);
      |ps| * EqualShareAt(ps, limit, n) <= left < |ps| * EqualShareAt(ps, limit, n) + |ps|
  {
    hide Exact, Total;
    AllocationsValid(ps);
    TotalIsCappedSum(Allocations(ps));
    var left := Minus(limit, Total(Allocations(ps)));
    ShareBounds(left[n], |ps|);
  }

  /**
   Distributing keeps the children within their parents, whatever the quota the organization had,
   and hands out all but less than one unit per project of each resource.
  */
  lemma DistributeKeeps(ps: seq<Project>, limit: Quantities, codes: seq<AZ>, after: seq<Project>)
    requires Valid(limit) && (forall p :: p in ps ==> ValidProject(p)) && !Over(Total(Allocations(ps)), limit)
    requires Undistributed(ps) && Distinct(codes) && AllGiven(ps, limit, codes, after)
    ensures Fits(Some(limit), after)
    ensures ps != [] ==> forall n :: n in limit ==> limit[n] < At(Total(Allocations(after)), n) + |ps|
  {
    hide Exact, Total, EqualShare, ProjectFits, Given, Undistributed, Distinct, ValidProject;
    forall i | 0 <= i < |ps| ensures ProjectFits(Some(limit), after[i]) { GivenFits(ps, i, limit, after[i], codes); }
    forall n | n in limit
      ensures At(Total(Allocations(after)), n) <= limit[n]
      ensures ps != [] ==> limit[n] < At(Total(Allocations(after)), n) + |ps|
    {
      DistributeKeepsAt(ps, limit, codes, after, n);
    }
  }

  lemma FitsAreValid(organization: Option<Quantities>, ps: seq<Project>)
    requires Fits(organization, ps)
    ensures forall p :: p in ps ==> ValidProject(p)
  {
  }

  // ---------------------------------------------------------------------------------------------
  // What is enforced
  // ---------------------------------------------------------------------------------------------

  /** The AZ quotas of all the projects. */
  function AllRows(ps: seq<Project>): seq<AZQuota> {
    if ps == [] then [] else AllRows(ps[..|ps| - 1]) + ps[|ps| - 1].azs
  }

  lemma {:induction false} RowsBelowAllocations(ps: seq<Project>, n: Name)
    requires (forall p :: p in ps ==> ValidProject(p)) && Exact(Allocations(ps), n) < MAX
    ensures Exact(ResourcesOf(AllRows(ps)), n) <= Exact(Allocations(ps), n)
  {
    hide Total, Held, DistinctRows, Highest, Plus;
    if ps != [] {
      var rest, p := ps[..|ps| - 1], ps[|ps| - 1];
      var rows := AllRows(rest);
      assert p in ps && Allocations(ps)[..|ps| - 1] == Allocations(rest);
      AllocationsValid(rest);
      assert Exact(Allocations(ps), n) == Exact(Allocations(rest), n) + At(Allocation(p), n);
      ExactNonNegative(Allocations(rest), n);
      AllocationAt(p, n);
      HeldAt(p.azs, n);
      RowsBelowAllocations(rest, n);
      assert ResourcesOf(rows + p.azs) == ResourcesOf(rows) + ResourcesOf(p.azs);
      ExactConcat(ResourcesOf(rows), ResourcesOf(p.azs), n);
    }
  }

  /**
   The point of the hierarchy: added up exactly over every project and every AZ, the AZ quotas of a
   resource stay within the organization quota, and those of one project within its own.
  */
  lemma EnforcedWithinParents(organization: Option<Quantities>, ps: seq<Project>, i: nat, n: Name)
    requires Fits(organization, ps) && i < |ps|
    ensures n in OrEmpty(organization) && OrEmpty(organization)[n] < MAX ==>
      Exact(ResourcesOf(AllRows(ps)), n) <= OrEmpty(organization)[n]
    ensures n in OrEmpty(ps[i].quota) && OrEmpty(ps[i].quota)[n] < MAX ==>
      Exact(ResourcesOf(ps[i].azs), n) <= OrEmpty(ps[i].quota)[n]
    ensures n in OrEmpty(organization) && n !in OrEmpty(ps[i].quota) ==> Exact(ResourcesOf(ps[i].azs), n) == 0
  {
    hide Exact, Total, AllRows;
    FitsAreValid(organization, ps);
    AllocationsValid(ps);
    TotalIsCappedSum(Allocations(ps));
    if n in OrEmpty(organization) && OrEmpty(organization)[n] < MAX {
      assert At(Total(Allocations(ps)), n) <= OrEmpty(organization)[n];
      RowsBelowAllocations(ps, n);
    }
    assert ps[i] in ps;
    HeldAt(ps[i].azs, n);
    ProjectFitsAt(organization, ps[i]);
  }
}
