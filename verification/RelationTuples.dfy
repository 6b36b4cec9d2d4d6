/**
 The relation tuples of a tenant: writes by batches, deletions by filter, and the updates of what a
 group or a user is granted, each a deletion followed by a write.
*/
module RelationTuples {
  import opened Wrappers

  datatype EntityType = Organization | Project | Group | User

  datatype Entity = Entity(kind: EntityType, id: string)

  datatype Subject = Subject(kind: EntityType, id: string, relation: string)

  datatype Tuple = Tuple(entity: Entity, relation: string, subject: Subject)

  type PermissionSets = map<string, EntityType>

  /** The members of a group. */
  function Assignees(group: string): Subject { Subject(Group, group, "assignee") }

  /** `GetGroupTuple`. */
  function Grant(kinds: PermissionSets, ps: string, id: string, group: string): Tuple
    requires ps in kinds
  {
    Tuple(Entity(kinds[ps], id), ps, Assignees(group))
  }

  // ---------------------------------------------------------------------------------------------
  // Batches
  // ---------------------------------------------------------------------------------------------

  const BATCH: nat := 99

  /** The tuples of the batches that are not in `failing`. */
  function Written(ts: seq<Tuple>, failing: set<nat>): set<Tuple> {
    set i | 0 <= i < |ts| && i / BATCH !in failing :: ts[i]
  }

  function LastBatch(ts: seq<Tuple>): nat
    requires ts != []
  {
    (|ts| - 1) / BATCH
  }

  /** `Write` answers the outcome of its last batch. */
  predicate Reported(ts: seq<Tuple>, failing: set<nat>) { ts != [] && LastBatch(ts) !in failing }

  function All(ts: seq<Tuple>): set<Tuple> { set t | t in ts }

  ghost predicate Trustworthy(ts: seq<Tuple>) {
    forall failing: set<nat> :: Reported(ts, failing) ==> Written(ts, failing) == All(ts)
  }

  lemma NothingFails(ts: seq<Tuple>)
    ensures Written(ts, {}) == All(ts)
  {
  }

  /** The tuples of the last batch. */
  function LastTuples(ts: seq<Tuple>): (last: seq<Tuple>)
    requires ts != []
    ensures 0 < |last| <= BATCH && |last| == |ts| - LastBatch(ts) * BATCH
  {
    ts[LastBatch(ts) * BATCH..]
  }

  lemma InLastBatch(ts: seq<Tuple>, i: nat)
    requires i < |ts|
    ensures i / BATCH == LastBatch(ts) <==> LastBatch(ts) * BATCH <= i
  {
  }

  /**
   A success means that everything was written exactly when every tuple is also in the last batch:
   always for one batch, and never for more than one without repeated tuples.
  */
  lemma TrustworthyIff(ts: seq<Tuple>)
    ensures Trustworthy(ts) <==> ts == [] || forall t :: t in ts ==> t in LastTuples(ts)
    ensures |ts| <= 99 ==> Trustworthy(ts)
    ensures (forall i, j :: 0 <= i < j < |ts| ==> ts[i] != ts[j]) && |ts| > 99 ==> !Trustworthy(ts)
  {
    if ts != [] {
      if forall t :: t in ts ==> t in LastTuples(ts) {
        forall failing: set<nat> | Reported(ts, failing) ensures Written(ts, failing) == All(ts) {
          forall t | t in ts ensures t in Written(ts, failing) { LastTuplesWritten(ts, failing, t); }
        }
      } else {
        var t :| t in ts && t !in LastTuples(ts);
        OnlyLastWritten(ts, t);
      }
      FirstNotLast(ts);
    }
  }

  lemma LastTuplesWritten(ts: seq<Tuple>, failing: set<nat>, t: Tuple)
    requires Reported(ts, failing) && t in LastTuples(ts)
    ensures t in Written(ts, failing)
  {
    var k :| 0 <= k < |LastTuples(ts)| && LastTuples(ts)[k] == t;
    InLastBatch(ts, LastBatch(ts) * BATCH + k);
  }

  /** When only the last batch works, the answer is a success and nothing else is written. */
  lemma OnlyLastWritten(ts: seq<Tuple>, t: Tuple)
    requires t in ts && t !in LastTuples(ts)
    ensures !Trustworthy(ts)
  {
    var failing: set<nat> := set i {:trigger ts[i]} | 0 <= i < |ts| && i / BATCH < LastBatch(ts) :: i / BATCH;
    assert Reported(ts, failing);
    forall i | 0 <= i < |ts| && i / BATCH !in failing ensures ts[i] != t {
      var u := ts[i];
      InLastBatch(ts, i);
      assert u == LastTuples(ts)[i - LastBatch(ts) * BATCH];
    }
    assert t in All(ts) && t !in Written(ts, failing);
  }

  lemma FirstNotLast(ts: seq<Tuple>)
    requires ts != []
    ensures |ts| <= BATCH ==> LastTuples(ts) == ts
    ensures (forall i, j :: 0 <= i < j < |ts| ==> ts[i] != ts[j]) && |ts| > BATCH ==> ts[0] !in LastTuples(ts)
  {
    if |ts| > BATCH {
      assert LastBatch(ts) >= 1;
      assert forall k :: 0 <= k < |LastTuples(ts)| ==> LastTuples(ts)[k] == ts[LastBatch(ts) * BATCH + k];
    }
  }

  // ---------------------------------------------------------------------------------------------
  // What a group is granted
  // ---------------------------------------------------------------------------------------------

  /** The tuples granting a group its permission sets of one type on one entity. */
  function Grants(kinds: PermissionSets, on: Entity, group: string, sets: seq<string>): seq<Tuple> {
    if sets == [] then []
    else
      var (rest, ps) := (Grants(kinds, on, group, sets[..|sets| - 1]), sets[|sets| - 1]);
      if ps in kinds && kinds[ps] == on.kind then rest + [Grant(kinds, ps, on.id, group)] else rest
  }

  function GrantEach(kinds: PermissionSets, ps: string, ids: seq<string>, group: string): seq<Tuple>
    requires ps in kinds
  {
    if ids == [] then [] else GrantEach(kinds, ps, ids[..|ids| - 1], group) + [Grant(kinds, ps, ids[|ids| - 1], group)]
  }

  /** The tuples of the bulk update. */
  function GrantsEverywhere(kinds: PermissionSets, org: string, projects: seq<string>, group: string,
      sets: seq<string>): seq<Tuple> {
    if sets == [] then []
    else
      var (rest, ps) := (GrantsEverywhere(kinds, org, projects, group, sets[..|sets| - 1]), sets[|sets| - 1]);
      if ps !in kinds then rest
      else if kinds[ps] == Organization then rest + [Grant(kinds, ps, org, group)]
      else if kinds[ps] == Project then rest + GrantEach(kinds, ps, projects, group)
      else rest
  }

  /** The tuple grants the group one of the permission sets, on an entity of its type. */
  predicate Granted(kinds: PermissionSets, group: string, sets: seq<string>, t: Tuple) {
    t.relation in sets && t.relation in kinds && kinds[t.relation] == t.entity.kind && t.subject == Assignees(group)
  }

  lemma {:induction false} GrantsAre(kinds: PermissionSets, on: Entity, group: string, sets: seq<string>, t: Tuple)
    ensures t in Grants(kinds, on, group, sets) <==> t.entity == on && Granted(kinds, group, sets, t)
  {
    if sets != [] {
      var n := |sets| - 1;
      GrantsAre(kinds, on, group, sets[..n], t);
      assert sets == sets[..n] + [sets[n]];
    }
  }

  lemma {:induction false} GrantEachAre(kinds: PermissionSets, ps: string, ids: seq<string>, group: string, t: Tuple)
    requires ps in kinds
    ensures t in GrantEach(kinds, ps, ids, group) <==>
      t.relation == ps && t.entity.kind == kinds[ps] && t.entity.id in ids && t.subject == Assignees(group)
  {
    if ids != [] {
      var n := |ids| - 1;
      GrantEachAre(kinds, ps, ids[..n], group, t);
      assert ids == ids[..n] + [ids[n]];
    }
  }

  /** The organization, or one of the projects. */
  predicate Covered(org: string, projects: seq<string>, e: Entity) {
    e == Entity(Organization, org) || (e.kind == Project && e.id in projects)
  }

  lemma {:induction false} GrantsEverywhereAre(kinds: PermissionSets, org: string, projects: seq<string>,
      group: string, sets: seq<string>, t: Tuple)
    ensures t in GrantsEverywhere(kinds, org, projects, group, sets) <==>
      Covered(org, projects, t.entity) && Granted(kinds, group, sets, t)
  {
    if sets != [] {
      var n := |sets| - 1;
      GrantsEverywhereAre(kinds, org, projects, group, sets[..n], t);
      assert sets == sets[..n] + [sets[n]];
      var ps := sets[n];
      if ps in kinds && kinds[ps] == Project { GrantEachAre(kinds, ps, projects, group, t); }
    }
  }

  /** The permission sets of a group for an organization are refused when none is for one, after the deletion. */
  lemma NoGrantsIff(kinds: PermissionSets, on: Entity, group: string, sets: seq<string>)
    ensures Grants(kinds, on, group, sets) == [] <==> forall ps :: ps in sets && ps in kinds ==> kinds[ps] != on.kind
  {
    var ts := Grants(kinds, on, group, sets);
    if ts != [] {
      GrantsAre(kinds, on, group, sets, ts[0]);
    } else {
      forall ps | ps in sets && ps in kinds ensures kinds[ps] != on.kind {
        GrantsAre(kinds, on, group, sets, Tuple(on, ps, Assignees(group)));
      }
    }
  }

  // ---------------------------------------------------------------------------------------------
  // The store
  // ---------------------------------------------------------------------------------------------

  /** A filter: what it leaves out matches anything. */
  datatype Filter =
    | OfGroupOn(entity: Entity, group: string)
    | OfGroup(group: string)
    | OnEntity(entity: Entity)
    | OfUser(user: string)

  predicate Matches(f: Filter, t: Tuple) {
    match f
    case OfGroupOn(e, group) => t.entity == e && t.subject == Assignees(group)
    case OfGroup(group) => t.subject == Assignees(group)
    case OnEntity(e) => t.entity == e
    case OfUser(user) => t.subject.kind == User && t.subject.id == user
  }

  function Without(tuples: set<Tuple>, f: Filter): set<Tuple> { set t | t in tuples && !Matches(f, t) }

  function Membership(user: string, group: string): Tuple {
    Tuple(Entity(Group, group), "assignee", Subject(User, user, ""))
  }

  /** The tuples written before the first failure. */
  function Memberships(user: string, groups: seq<string>, failing: set<nat>): set<Tuple> {
    set i | 0 <= i < |groups| && (forall j :: 0 <= j <= i ==> j !in failing) :: Membership(user, groups[i])
  }

  class TupleStore {
    var tuples: set<Tuple>

    constructor ()
      ensures tuples == {}
    {
      tuples := {};
    }

    /** `works` is the answer of the service. */
    method Delete(f: Filter, works: bool) returns (ok: bool)
      modifies this
      ensures ok == works
      ensures tuples == if works then Without(old(tuples), f) else old(tuples)
    {
      if works { tuples := set t | t in tuples && !Matches(f, t); }
      return works;
    }

    /** `DeleteRelationProject`: what anyone was granted on the project. */
    method DeleteProject(project: string, works: bool) returns (ok: bool)
      modifies this
      ensures ok == works
      ensures forall t :: t in tuples <==> t in old(tuples) && !(works && t.entity == Entity(Project, project))
    {
      ok := Delete(OnEntity(Entity(Project, project)), works);
    }

    /** `DeleteRelationUser`: the memberships and other grants of the user. */
    method DeleteUser(user: string, works: bool) returns (ok: bool)
      modifies this
      ensures ok == works
      ensures tuples == if works then Without(old(tuples), OfUser(user)) else old(tuples)
    {
      ok := Delete(OfUser(user), works);
    }

    /** `failing` are the batches that the service refuses. */
    method Write(ts: seq<Tuple>, failing: set<nat>) returns (ok: bool)
      modifies this
      ensures ok == Reported(ts, failing)
      ensures tuples == old(tuples) + Written(ts, failing)
      ensures ts == [] ==> !ok
      ensures failing == {} ==> tuples == (old(tuples) + set t | t in ts) && (ts != [] ==> ok)
    {
      NothingFails(ts);
      if ts == [] { return false; }
      ok := true;
      var batch, from := 0, 0;
      while from < |ts|
        invariant from == Min(batch * BATCH, |ts|)
        invariant tuples == old(tuples) + Written(ts[..from], failing)
        invariant batch > 0 ==> ok == ((from - 1) / BATCH !in failing)
      {
        var to := if from + BATCH <= |ts| then from + BATCH else |ts|;
        WrittenNext(ts, failing, batch, from, to);
        ok := batch !in failing;
        if ok { tuples := tuples + set t | t in ts[from..to]; }
        batch, from := batch + 1, to;
      }
      assert ts[..from] == ts;
    }

    method UpdateOrganizationGroup(kinds: PermissionSets, org: string, group: string, sets: seq<string>, works: bool,
        failing: set<nat>)
      returns (ok: bool)
      modifies this
      ensures var (on, ts) := (Entity(Organization, org), Grants(kinds, Entity(Organization, org), group, sets));
        && ok == (works && Reported(ts, failing))
        && tuples == if works then Without(old(tuples), OfGroupOn(on, group)) + Written(ts, failing) else old(tuples)
    {
      var on := Entity(Organization, org);
      ok := Delete(OfGroupOn(on, group), works);
      if !ok { return; }
      var ts := Collect(kinds, on, group, sets);
      ok := Write(ts, failing);
    }

    method UpdateProjectGroup(kinds: PermissionSets, project: string, group: string, sets: seq<string>, works: bool,
        failing: set<nat>)
      returns (ok: bool)
      modifies this
      ensures var (on, ts) := (Entity(Project, project), Grants(kinds, Entity(Project, project), group, sets));
        && ok == (works && (ts == [] || Reported(ts, failing)))
        && tuples == if works then Without(old(tuples), OfGroupOn(on, group)) + Written(ts, failing) else old(tuples)
    {
      var on := Entity(Project, project);
      ok := Delete(OfGroupOn(on, group), works);
      if !ok { return; }
      var ts := Collect(kinds, on, group, sets);
      if |ts| > 0 { ok := Write(ts, failing); }
    }

    method UpdateGroupPermissions(kinds: PermissionSets, org: string, projects: seq<string>, group: string,
                                  sets: seq<string>, works: bool, failing: set<nat>) returns (ok: bool)
      modifies this
      ensures var ts := GrantsEverywhere(kinds, org, projects, group, sets);
        && ok == (works && Reported(ts, failing))
        && tuples == if works then Without(old(tuples), OfGroup(group)) + Written(ts, failing) else old(tuples)
    {
      ok := Delete(OfGroup(group), works);
      if !ok { return; }
      var ts: seq<Tuple> := [];
      for i := 0 to |sets|
        invariant ts == GrantsEverywhere(kinds, org, projects, group, sets[..i])
      {
        var ps := sets[i];
        assert sets[..i + 1][..i] == sets[..i];
        if ps in kinds {
          if kinds[ps] == Organization {
            ts := ts + [Grant(kinds, ps, org, group)];
          } else if kinds[ps] == Project {
            ghost var before := ts;
            for j := 0 to |projects|
              invariant ts == before + GrantEach(kinds, ps, projects[..j], group)
            {
              assert projects[..j + 1][..j] == projects[..j];
              ts := ts + [Grant(kinds, ps, projects[j], group)];
            }
            assert projects[..|projects|] == projects;
          }
        }
      }
      assert sets[..|sets|] == sets;
      ok := Write(ts, failing);
    }

    /** The groups of a user are written one by one; `failing` are the writes the service refuses. */
    method UpdateUserGroups(user: string, groups: seq<string>, works: bool, failing: set<nat>) returns (ok: bool)
      modifies this
      ensures ok == (works && forall i :: 0 <= i < |groups| ==> i !in failing)
      ensures tuples ==
        if works then Without(old(tuples), OfUser(user)) + Memberships(user, groups, failing) else old(tuples)
    {
      ok := DeleteUser(user, works);
      if !ok { return; }
      ghost var left := tuples;
      for i := 0 to |groups|
        invariant forall j :: 0 <= j < i ==> j !in failing
        invariant tuples == left + set j | 0 <= j < i :: Membership(user, groups[j])
      {
        if i in failing {
          assert tuples == left + Memberships(user, groups, failing);
          return false;
        }
        tuples := tuples + {Membership(user, groups[i])};
      }
      assert tuples == left + Memberships(user, groups, failing);
      return true;
    }
  }

  lemma WrittenNext(ts: seq<Tuple>, failing: set<nat>, batch: nat, from: nat, to: nat)
    requires from == batch * BATCH < |ts| && to == Min(from + BATCH, |ts|)
    ensures Written(ts[..to], failing) ==
      Written(ts[..from], failing) + if batch in failing then {} else set t | t in ts[from..to]
    ensures (to - 1) / BATCH == batch && to == Min((batch + 1) * BATCH, |ts|)
  {
    forall i | from <= i < to ensures i / BATCH == batch { }
    var more := if batch in failing then {} else set t | t in ts[from..to];
    forall t | t in Written(ts[..to], failing) ensures t in Written(ts[..from], failing) + more {
      var i :| 0 <= i < to && i / BATCH !in failing && ts[i] == t;
      if i < from { assert ts[..from][i] == t; } else { assert ts[from..to][i - from] == t; }
    }
    forall t | t in Written(ts[..from], failing) + more ensures t in Written(ts[..to], failing) {
      if t in more {
        var k :| 0 <= k < to - from && ts[from..to][k] == t;
        assert ts[..to][from + k] == t;
      } else {
        var i :| 0 <= i < from && i / BATCH !in failing && ts[..from][i] == t;
        assert ts[..to][i] == t;
      }
    }
  }

  method Collect(kinds: PermissionSets, on: Entity, group: string, sets: seq<string>) returns (ts: seq<Tuple>)
    ensures ts == Grants(kinds, on, group, sets)
  {
    ts := [];
    for i := 0 to |sets|
      invariant ts == Grants(kinds, on, group, sets[..i])
    {
      assert sets[..i + 1][..i] == sets[..i];
      if sets[i] in kinds && kinds[sets[i]] == on.kind { ts := ts + [Grant(kinds, sets[i], on.id, group)]; }
    }
    assert sets[..|sets|] == sets;
  }

  // ---------------------------------------------------------------------------------------------
  // The bulk update and the updates one by one
  // ---------------------------------------------------------------------------------------------

  /** The store after the bulk update, nothing failing. */
  function AfterBulk(tuples: set<Tuple>, kinds: PermissionSets, org: string, projects: seq<string>, group: string,
      sets: seq<string>): set<Tuple> {
    Without(tuples, OfGroup(group)) + Written(GrantsEverywhere(kinds, org, projects, group, sets), {})
  }

  /** The store after the update of one entity, nothing failing. */
  function AfterOne(tuples: set<Tuple>, kinds: PermissionSets, on: Entity, group: string,
      sets: seq<string>): set<Tuple> {
    Without(tuples, OfGroupOn(on, group)) + Written(Grants(kinds, on, group, sets), {})
  }

  function AfterEach(tuples: set<Tuple>, kinds: PermissionSets, entities: seq<Entity>, group: string,
      sets: seq<string>): set<Tuple> {
    if entities == [] then tuples
    else
      var n := |entities| - 1;
      AfterOne(AfterEach(tuples, kinds, entities[..n], group, sets), kinds, entities[n], group, sets)
  }

  /** The bulk update leaves exactly the declared tuples for the group, and touches no other subject. */
  lemma BulkDeclares(tuples: set<Tuple>, kinds: PermissionSets, org: string, projects: seq<string>, group: string,
      sets: seq<string>, t: Tuple)
    ensures t in AfterBulk(tuples, kinds, org, projects, group, sets) <==>
      if t.subject == Assignees(group) then Covered(org, projects, t.entity) && Granted(kinds, group, sets, t)
      else t in tuples
  {
    var ts := GrantsEverywhere(kinds, org, projects, group, sets);
    NothingFails(ts);
    GrantsEverywhereAre(kinds, org, projects, group, sets, t);
  }

  /** Updating entities one by one, in any order, leaves the declared tuples on them, and touches nothing else. */
  lemma {:induction false} EachDeclares(tuples: set<Tuple>, kinds: PermissionSets, entities: seq<Entity>,
      group: string, sets: seq<string>, t: Tuple)
    ensures t in AfterEach(tuples, kinds, entities, group, sets) <==>
      if t.subject == Assignees(group) && t.entity in entities then Granted(kinds, group, sets, t) else t in tuples
  {
    if entities != [] {
      var n := |entities| - 1;
      EachDeclares(tuples, kinds, entities[..n], group, sets, t);
      assert entities == entities[..n] + [entities[n]];
      NothingFails(Grants(kinds, entities[n], group, sets));
      GrantsAre(kinds, entities[n], group, sets, t);
    }
  }

  /**
   The updates of the organization and of the projects, in any order, do what the bulk update does
   exactly when the group has no tuple on another entity.
  */
  lemma EachIsBulkIff(tuples: set<Tuple>, kinds: PermissionSets, org: string, projects: seq<string>, group: string,
      sets: seq<string>, entities: seq<Entity>)
    requires forall e :: e in entities <==> Covered(org, projects, e)
    ensures AfterEach(tuples, kinds, entities, group, sets) == AfterBulk(tuples, kinds, org, projects, group, sets) <==>
      forall t :: t in tuples && t.subject == Assignees(group) ==> Covered(org, projects, t.entity)
  {
    var each, bulk := AfterEach(tuples, kinds, entities, group, sets),
      AfterBulk(tuples, kinds, org, projects, group, sets);
    forall t
      ensures t in each <==>
        if t.subject == Assignees(group) && t.entity in entities then Granted(kinds, group, sets, t) else t in tuples
      ensures t in bulk <==>
        if t.subject == Assignees(group) then Covered(org, projects, t.entity) && Granted(kinds, group, sets, t)
          else t in tuples
    {
      EachDeclares(tuples, kinds, entities, group, sets, t);
      BulkDeclares(tuples, kinds, org, projects, group, sets, t);
    }
    if t :| t in tuples && t.subject == Assignees(group) && !Covered(org, projects, t.entity) {
      assert t in each && t !in bulk;
    } else {
      assert each == bulk;
    }
  }

  /**
   Updating the groups of a user leaves exactly the declared memberships for the user, and touches no other
   subject.
  */
  lemma UserGroupsDeclare(tuples: set<Tuple>, user: string, groups: seq<string>, t: Tuple)
    ensures t in Without(tuples, OfUser(user)) + Memberships(user, groups, {}) <==>
      if t.subject.kind == User && t.subject.id == user then
        t.entity.id in groups && t == Membership(user, t.entity.id) else t in tuples
  {
    var all := Memberships(user, groups, {});
    if t.entity.id in groups && t == Membership(user, t.entity.id) {
      var i :| 0 <= i < |groups| && groups[i] == t.entity.id;
      assert Membership(user, groups[i]) in all;
    }
    if t in all {
      var i :| 0 <= i < |groups| && t == Membership(user, groups[i]);
      assert t.entity.id == groups[i];
    }
  }

  // ---------------------------------------------------------------------------------------------
  // What a user may do
  // ---------------------------------------------------------------------------------------------

  /** The user is written as an assignee of the group. */
  predicate Belongs(tuples: set<Tuple>, user: string, group: string) {
    Tuple(Entity(Group, group), "assignee", Subject(User, user, "")) in tuples
  }

  /** The assignees of the group are granted a permission set on an entity. */
  predicate Allows(tuples: set<Tuple>, group: string, ps: string, on: Entity) {
    Tuple(on, ps, Subject(Group, group, "assignee")) in tuples
  }

  /** A relation of a subject: that of the subject itself, or of what it is a relation of. */
  ghost predicate Holds(tuples: set<Tuple>, user: string, relation: string, on: Entity) {
    exists t :: t in tuples && t.entity == on && t.relation == relation
      && (|| t.subject == Subject(User, user, "")
          || Tuple(Entity(t.subject.kind, t.subject.id), t.subject.relation, Subject(User, user, "")) in tuples)
  }

  /** Once the groups of a user are written, the user belongs to these, and groups are granted what they were. */
  lemma UserBelongs(tuples: set<Tuple>, user: string, groups: seq<string>, group: string, ps: string, on: Entity)
    ensures var after := Without(tuples, OfUser(user)) + Memberships(user, groups, {});
      && (Belongs(after, user, group) <==> group in groups)
      && (forall other :: other != user ==> (Belongs(after, other, group) <==> Belongs(tuples, other, group)))
      && (Allows(after, group, ps, on) <==> Allows(tuples, group, ps, on))
  {
    UserGroupsDeclare(tuples, user, groups, Tuple(Entity(Group, group), "assignee", Subject(User, user, "")));
    forall other | other != user
      ensures var after := Without(tuples, OfUser(user)) + Memberships(user, groups, {});
        Belongs(after, other, group) <==> Belongs(tuples, other, group)
    {
      UserGroupsDeclare(tuples, user, groups, Tuple(Entity(Group, group), "assignee", Subject(User, other, "")));
    }
    UserGroupsDeclare(tuples, user, groups, Tuple(on, ps, Subject(Group, group, "assignee")));
  }

  /**
   Once the permission sets of a group are written, it is granted those declared, on the entities of their type:
   the organization, or every project. Users belong to the groups they belonged to.
  */
  lemma GroupAllows(tuples: set<Tuple>, kinds: PermissionSets, org: string, projects: seq<string>, group: string,
                    sets: seq<string>, ps: string, on: Entity, user: string, other: string)
    ensures var after := AfterBulk(tuples, kinds, org, projects, group, sets);
      && (Allows(after, group, ps, on) <==>
            && ps in sets && ps in kinds && kinds[ps] == on.kind
            && if on.kind == Organization then on.id == org else on.kind == Project && on.id in projects)
      && (Belongs(after, user, other) <==> Belongs(tuples, user, other))
  {
    BulkDeclares(tuples, kinds, org, projects, group, sets, Tuple(on, ps, Subject(Group, group, "assignee")));
    BulkDeclares(tuples, kinds, org, projects, group, sets,
                 Tuple(Entity(Group, other), "assignee", Subject(User, user, "")));
  }

  /** A user of a group holds what the group is granted: memberships are in the relation that grants name. */
  lemma MembersHold(tuples: set<Tuple>, user: string, group: string, ps: string, on: Entity)
    requires Belongs(tuples, user, group) && Allows(tuples, group, ps, on)
    ensures Holds(tuples, user, ps, on)
  {
    var t := Tuple(on, ps, Subject(Group, group, "assignee"));
    assert t in tuples && t.entity == on && t.relation == ps;
  }

  /** Both updates together: a user then holds every permission set declared for one of the user's groups. */
  lemma DeclaredIsHeld(tuples: set<Tuple>, kinds: PermissionSets, org: string, projects: seq<string>, group: string,
                       sets: seq<string>, user: string, groups: seq<string>, ps: string, on: Entity)
    requires group in groups && ps in sets && ps in kinds && kinds[ps] == on.kind
    requires if on.kind == Organization then on.id == org else on.kind == Project && on.id in projects
    ensures var granted := AfterBulk(tuples, kinds, org, projects, group, sets);
      Holds(Without(granted, OfUser(user)) + Memberships(user, groups, {}), user, ps, on)
  {
    hide Belongs, Allows, Holds, AfterBulk, Without, Memberships;
    var granted := AfterBulk(tuples, kinds, org, projects, group, sets);
    GroupAllows(tuples, kinds, org, projects, group, sets, ps, on, user, group);
    UserBelongs(granted, user, groups, group, ps, on);
    MembersHold(Without(granted, OfUser(user)) + Memberships(user, groups, {}), user, group, ps, on);
  }
}
