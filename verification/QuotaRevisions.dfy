/**
 The quota rows of one project: their revisions, the effective quota they give each availability zone,
 the transactions that write them, and the history of committed states.
*/
module QuotaRevisions {
  import opened Wrappers
  import opened Quantities
  import opened QuotaTranslation

  // ---------------------------------------------------------------------------------------------
  // The database
  // ---------------------------------------------------------------------------------------------

  datatype Row = Row(resources: Resources, revision: nat)

  /** The quota rows that concern one project. */
  datatype Rows = Rows(organization: Option<Row>, project: Option<Row>, azs: map<AZ, Row>)

  const NO_ROWS := Rows(None, None, map[])

  function RowIn(r: Rows, code: AZ): Option<Row> { if code in r.azs then Some(r.azs[code]) else None }

  function ResourcesOf(row: Option<Row>): Resources { match row case Some(value) => value.resources case None => map[] }

  function RevisionOf(row: Option<Row>): nat { match row case Some(value) => value.revision case None => 0 }

  /** `Hierarchy.AZ`. */
  function Quota(r: Rows, code: AZ): Resources {
    EffectiveLimit(ResourcesOf(RowIn(r, code)), [ResourcesOf(r.organization), ResourcesOf(r.project)], "0")
  }

  /** `Hierarchy.Revision`. */
  function Revision(r: Rows, code: AZ): nat {
    Max(Max(RevisionOf(r.organization), RevisionOf(r.project)), RevisionOf(RowIn(r, code)))
  }

  /** What is limited in an AZ, and to what. */
  lemma QuotaNames(r: Rows, code: AZ)
    ensures forall n :: n in Quota(r, code) <==>
      n in ResourcesOf(RowIn(r, code)) || n in ResourcesOf(r.organization) || n in ResourcesOf(r.project)
    ensures forall n :: n in Quota(r, code) ==>
      Quota(r, code)[n] == if n in ResourcesOf(RowIn(r, code)) then ResourcesOf(RowIn(r, code))[n] else "0"
  {
    var above := [ResourcesOf(r.organization), ResourcesOf(r.project)];
    assert forall n :: n in Limited(above) <==> n in above[0] || n in above[1];
  }

  /** The write of one row, with the number it draws from the sequence of revisions. */
  datatype Put =
    | PutOrganization(resources: Resources, revision: nat)
    | PutProject(resources: Resources, revision: nat)
    | PutAZ(code: AZ, resources: Resources, revision: nat)

  /** A transaction, as far as the rows of the project are concerned. */
  datatype Write =
    | Puts(puts: seq<Put>)
    | DeleteOrganization(azRevisions: map<AZ, nat>, projectRevision: nat)
    | DeleteProject

  function PutRow(r: Rows, p: Put): Rows {
    match p
    case PutOrganization(resources, revision) => r.(organization := Some(Row(resources, revision)))
    case PutProject(resources, revision) => r.(project := Some(Row(resources, revision)))
    case PutAZ(code, resources, revision) => r.(azs := r.azs[code := Row(resources, revision)])
  }

  function PutRows(r: Rows, puts: seq<Put>): Rows {
    if puts == [] then r else PutRow(PutRows(r, puts[..|puts| - 1]), puts[|puts| - 1])
  }

  /** `DeleteOrganizationQuota` gives the remaining rows a new revision, the AZ rows first. */
  function Commit(r: Rows, w: Write): Rows {
    match w
    case Puts(puts) => PutRows(r, puts)
    case DeleteOrganization(azRevisions, projectRevision) =>
      Rows(None,
           if r.project.Some? then Some(r.project.value.(revision := projectRevision)) else None,
           map code | code in r.azs :: Row(r.azs[code].resources, if code in azRevisions then azRevisions[code] else 0))
    case DeleteProject => Rows(r.organization, None, map[])
  }

  /** Revisions drawn one after the other from a sequence that is at `last`. */
  predicate Drawn(puts: seq<Put>, last: nat) {
    && (forall i :: 0 <= i < |puts| ==> puts[i].revision > last)
    && (forall i, j :: 0 <= i < j < |puts| ==> puts[i].revision < puts[j].revision)
  }

  /** A transaction the code can commit: the project quota cannot be deleted under an organization quota. */
  predicate Allowed(r: Rows, last: nat, w: Write) {
    match w
    case Puts(puts) => Drawn(puts, last)
    case DeleteOrganization(azRevisions, projectRevision) =>
      && azRevisions.Keys == r.azs.Keys && projectRevision > last
      && forall code :: code in azRevisions ==> last < azRevisions[code] < projectRevision
    case DeleteProject => r.organization.None?
  }

  /** Every row was given a revision, up to `last`. */
  predicate Numbered(r: Rows, last: nat) {
    && (r.organization.Some? ==> 0 < r.organization.value.revision <= last)
    && (r.project.Some? ==> 0 < r.project.value.revision <= last)
    && (forall code :: code in r.azs ==> 0 < r.azs[code].revision <= last)
  }

  /** The revision that the sequence is at after a transaction. */
  function Reached(last: nat, w: Write): nat {
    match w
    case Puts(puts) => if puts == [] then last else puts[|puts| - 1].revision
    case DeleteOrganization(_, projectRevision) => projectRevision
    case DeleteProject => last
  }

  /** Nothing about the AZ changed, or its quota has a revision never drawn before, or nothing is limited any more. */
  predicate Moved(before: Rows, after: Rows, last: nat, code: AZ) {
    || (Quota(after, code) == Quota(before, code) && Revision(after, code) == Revision(before, code))
    || Revision(after, code) > last
    || (Quota(after, code) == map[] && Revision(after, code) == 0)
  }

  /** One row written leaves an AZ as it was, or gives it the revision drawn. */
  lemma PutMoves(r: Rows, last: nat, p: Put, code: AZ)
    requires Numbered(r, last) && p.revision > last
    ensures Numbered(PutRow(r, p), p.revision)
    ensures Revision(PutRow(r, p), code) == p.revision
      || (Revision(PutRow(r, p), code) == Revision(r, code) && Quota(PutRow(r, p), code) == Quota(r, code))
  {
    hide EffectiveLimit;
  }

  lemma {:induction false} PutsMove(r: Rows, last: nat, puts: seq<Put>, code: AZ)
    requires Drawn(puts, last) && Numbered(r, last)
    ensures Moved(r, PutRows(r, puts), last, code)
    ensures Numbered(PutRows(r, puts), Reached(last, Puts(puts)))
  {
    if puts != [] {
      var rest, p := puts[..|puts| - 1], puts[|puts| - 1];
      PutsMove(r, last, rest, code);
      hide Quota, Revision, PutRow, Numbered;
      var so := Reached(last, Puts(rest));
      assert so < p.revision;
      PutMoves(PutRows(r, rest), so, p, code);
      assert PutRows(r, puts) == PutRow(PutRows(r, rest), p);
    }
  }

  /** Every transaction raises the revision of what it changes, or leaves nothing limited. */
  lemma WritesMove(r: Rows, last: nat, w: Write, code: AZ)
    requires Allowed(r, last, w) && Numbered(r, last)
    ensures Moved(r, Commit(r, w), last, code)
    ensures Numbered(Commit(r, w), Reached(last, w)) && Reached(last, w) >= last
  {
    match w
    case Puts(puts) => PutsMove(r, last, puts, code);
    case DeleteOrganization(_, _) =>
      if r.project.None? && code !in r.azs { NothingLimited(Commit(r, w), code); }
    case DeleteProject => NothingLimited(Commit(r, w), code);
  }

  lemma NothingLimited(r: Rows, code: AZ)
    requires r.organization.None? && r.project.None? && code !in r.azs
    ensures Quota(r, code) == map[] && Revision(r, code) == 0
  {
  }

  lemma UnnumberedIsEmpty(r: Rows, last: nat, code: AZ)
    requires Numbered(r, last)
    ensures Revision(r, code) <= last && (Revision(r, code) == 0 ==> Quota(r, code) == map[])
  {
    if Revision(r, code) == 0 { NothingLimited(r, code); }
  }

  // ---------------------------------------------------------------------------------------------
  // Reads
  // ---------------------------------------------------------------------------------------------

  /** `GetHierarchy` reads the organization row, the project row and the AZ rows in three queries. */
  function Torn(first: Rows, second: Rows, third: Rows): Rows {
    Rows(first.organization, second.project, third.azs)
  }

  lemma TornRevision(first: Rows, second: Rows, third: Rows, code: AZ)
    ensures var revision := Revision(Torn(first, second, third), code);
      revision <= Revision(first, code) || revision <= Revision(second, code) || revision <= Revision(third, code)
  {
  }

  // ---------------------------------------------------------------------------------------------
  // The history of the database
  // ---------------------------------------------------------------------------------------------

  /** The committed states, oldest first, and where the sequence of revisions is. */
  datatype Database = Database(history: seq<Rows>, last: nat)

  /** Between two states, the revision of an AZ goes up, stays with the same quota, or is dropped with the quota. */
  predicate Ordered(before: Rows, after: Rows, code: AZ) {
    || Revision(before, code) < Revision(after, code)
    || (Revision(before, code) == Revision(after, code) && Quota(before, code) == Quota(after, code))
    || (Revision(after, code) == 0 && Quota(after, code) == map[])
  }

  ghost predicate Consistent(d: Database) {
    && d.history != []
    && (forall i :: 0 <= i < |d.history| ==> Numbered(d.history[i], d.last))
    && (forall i, j, code :: 0 <= i <= j < |d.history| ==> Ordered(d.history[i], d.history[j], code))
  }

  function Current(d: Database): Rows
    requires d.history != []
  {
    d.history[|d.history| - 1]
  }

  function Committed(d: Database, w: Write): Database
    requires d.history != []
  {
    if Allowed(Current(d), d.last, w) then Database(d.history + [Commit(Current(d), w)], Reached(d.last, w)) else d
  }

  lemma OrderedThrough(before: Rows, middle: Rows, after: Rows, last: nat, code: AZ)
    requires Ordered(before, middle, code) && Moved(middle, after, last, code) && Numbered(before, last)
    ensures Ordered(before, after, code)
  {
    UnnumberedIsEmpty(before, last, code);
  }

  lemma CommitKeeps(d: Database, w: Write)
    requires Consistent(d)
    ensures Consistent(Committed(d, w))
  {
    hide Revision, Quota, Moved, Numbered, Commit;
    if Allowed(Current(d), d.last, w) {
      var n, after := |d.history|, Commit(Current(d), w);
      WritesMove(Current(d), d.last, w, "");
      forall i | 0 <= i <= n ensures Numbered(Committed(d, w).history[i], Reached(d.last, w)) {
        if i < n { NumberedUpTo(d.history[i], d.last, Reached(d.last, w)); }
      }
      forall i, code | 0 <= i <= n ensures Ordered(Committed(d, w).history[i], after, code) {
        if i < n {
          WritesMove(Current(d), d.last, w, code);
          OrderedThrough(d.history[i], Current(d), after, d.last, code);
        } else {
          OrderedWithItself(after, code);
        }
      }
      assert forall i :: 0 <= i < n ==> Committed(d, w).history[i] == d.history[i];
    }
  }

  lemma NumberedUpTo(r: Rows, last: nat, higher: nat)
    requires Numbered(r, last) && last <= higher
    ensures Numbered(r, higher)
  {
  }

  lemma OrderedWithItself(r: Rows, code: AZ)
    ensures Ordered(r, r, code)
  {
  }

  /** The states that the three queries of a read see, each no older than the one before. */
  datatype Read = Read(organization: nat, project: nat, azs: nat)

  predicate InRange(d: Database, r: Read) { r.organization <= r.project <= r.azs < |d.history| }

  function RowsRead(d: Database, r: Read): Rows
    requires InRange(d, r)
  {
    Torn(d.history[r.organization], d.history[r.project], d.history[r.azs])
  }

  lemma ReadNumbered(d: Database, r: Read)
    requires Consistent(d) && InRange(d, r)
    ensures Numbered(RowsRead(d, r), d.last)
  {
    hide Ordered;
    var h := d.history;
    assert Numbered(h[r.organization], d.last) && Numbered(h[r.project], d.last) && Numbered(h[r.azs], d.last);
  }

  /** What is read is no newer than some committed state. */
  lemma ReadBelow(d: Database, r: Read, code: AZ) returns (m: nat)
    requires InRange(d, r)
    ensures m < |d.history| && Revision(RowsRead(d, r), code) <= Revision(d.history[m], code)
  {
    var h := d.history;
    TornRevision(h[r.organization], h[r.project], h[r.azs], code);
    hide Revision;
    m := if Revision(RowsRead(d, r), code) <= Revision(h[r.organization], code) then r.organization
         else if Revision(RowsRead(d, r), code) <= Revision(h[r.project], code) then r.project
         else r.azs;
  }

  /** No read is newer than the current state, unless nothing is limited any more. */
  lemma ReadNotNewer(d: Database, r: Read, code: AZ)
    requires Consistent(d) && InRange(d, r)
    ensures Revision(RowsRead(d, r), code) <= Revision(Current(d), code)
      || (Revision(Current(d), code) == 0 && Quota(Current(d), code) == map[])
  {
    hide Revision, Quota, Numbered;
    var m := ReadBelow(d, r, code);
    UnnumberedIsEmpty(Current(d), d.last, code);
    assert Ordered(d.history[m], d.history[|d.history| - 1], code);
  }

  lemma ReadOfOne(d: Database, n: nat)
    requires n < |d.history|
    ensures InRange(d, Read(n, n, n)) && RowsRead(d, Read(n, n, n)) == d.history[n]
  {
  }
}
