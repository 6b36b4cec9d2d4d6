/**
 Reads of the quotas of a project that are not of one committed state: its rows are read in three
 queries, and a transaction may commit between two of them.
*/
module QuotaTornReads {
  import opened Wrappers
  import opened Quantities
  import opened QuotaTranslation
  import opened QuotaRevisions

  /** An organization quota is written last: a read torn by it has an older revision than what follows. */
  lemma TornByOrganizationQuota(r: Rows, last: nat, puts: seq<Put>, resources: Resources, revision: nat, code: AZ)
    requires Numbered(r, last) && Drawn(puts + [PutOrganization(resources, revision)], last)
    requires forall p :: p in puts ==> !p.PutOrganization?
    ensures var after := Commit(r, Puts(puts + [PutOrganization(resources, revision)]));
      && Revision(Torn(r, after, after), code) < Revision(after, code)
      && Revision(Torn(r, r, after), code) < Revision(after, code)
  {
    hide Quota, Moved;
    var p := PutOrganization(resources, revision);
    var all, middle := puts + [p], PutRows(r, puts);
    assert all[..|puts|] == puts && PutRows(r, all) == PutRow(middle, p);
    DrawnBefore(puts, p, last);
    PutsMove(r, last, puts, code);
    PutsKeepOrganization(r, puts);
  }

  lemma DrawnBefore(puts: seq<Put>, p: Put, last: nat)
    requires Drawn(puts + [p], last)
    ensures Drawn(puts, last) && last < p.revision && Reached(last, Puts(puts)) < p.revision
  {
    var all := puts + [p];
    assert all[|puts|] == p && forall i :: 0 <= i < |puts| ==> all[i] == puts[i];
  }

  lemma {:induction false} PutsKeepOrganization(r: Rows, puts: seq<Put>)
    requires forall p :: p in puts ==> !p.PutOrganization?
    ensures PutRows(r, puts).organization == r.organization
  {
    if puts != [] { PutsKeepOrganization(r, puts[..|puts| - 1]); }
  }

  /**
   A read that sees an organization quota and then the rows its deletion renumbered has the revision
   of what follows, and the right quota exactly when the organization limited nothing more than they do.
   One that also sees the project row as it was before is older.
  */
  lemma TornByDeletion(r: Rows, last: nat, w: Write, code: AZ)
    requires Numbered(r, last) && w.DeleteOrganization? && Allowed(r, last, w)
    requires r.organization.Some? && (r.project.Some? || code in r.azs)
    ensures var (after, torn) := (Commit(r, w), Torn(r, Commit(r, w), Commit(r, w)));
      && Revision(torn, code) == Revision(after, code)
      && (Quota(torn, code) == Quota(after, code) <==>
          forall n :: n in ResourcesOf(r.organization) ==>
            n in ResourcesOf(r.project) || n in ResourcesOf(RowIn(r, code)))
    ensures r.project.Some? ==> Revision(Torn(r, r, Commit(r, w)), code) < Revision(Commit(r, w), code)
  {
    var after := Commit(r, w);
    var torn := Torn(r, after, after);
    QuotaNames(after, code);
    QuotaNames(torn, code);
    hide Quota;
    assert Quota(torn, code) == Quota(after, code) <==> forall n :: n in Quota(torn, code) <==> n in Quota(after, code);
  }

  lemma {:induction false} PutFirst(r: Rows, p: Put, puts: seq<Put>)
    ensures PutRows(r, [p] + puts) == PutRows(PutRow(r, p), puts)
  {
    if puts == [] {
      assert [p] + puts == [p] && [p][..0] == [];
    } else {
      assert ([p] + puts)[..|puts|] == [p] + puts[..|puts| - 1];
      PutFirst(r, p, puts[..|puts| - 1]);
    }
  }

  lemma {:induction false} AZPutsRaise(r: Rows, puts: seq<Put>, last: nat, code: AZ)
    requires Drawn(puts, last) && forall p :: p in puts ==> p.PutAZ?
    ensures var after := PutRows(r, puts);
      && after.organization == r.organization && after.project == r.project
      && ((exists p :: p in puts && p.PutAZ? && p.code == code) ==>
        code in after.azs && after.azs[code].revision > last)
  {
    if puts != [] {
      var rest, p := puts[..|puts| - 1], puts[|puts| - 1];
      assert puts == rest + [p] && p in puts && p.PutAZ?;
      AZPutsRaise(r, rest, last, code);
      assert PutRows(r, puts) == PutRow(PutRows(r, rest), p);
      assert p.revision > last;
      hide PutRows, Drawn;
    }
  }

  /**
   A read that sees an old project quota and then the AZ rows that the new one was split into has the
   revision of what follows, and the right quota exactly when both project quotas limit the same
   resources, among those that neither the organization nor the AZ limits.
  */
  lemma TornByProjectQuota(r: Rows, last: nat, quota: Resources, revision: nat, puts: seq<Put>, code: AZ)
    requires Numbered(r, last) && Drawn([PutProject(quota, revision)] + puts, last)
    requires (forall p :: p in puts ==> p.PutAZ?) && exists p :: p in puts && p.PutAZ? && p.code == code
    ensures var after := Commit(r, Puts([PutProject(quota, revision)] + puts));
      var (torn, az) := (Torn(r, r, after), ResourcesOf(RowIn(after, code)));
      && Revision(torn, code) == Revision(after, code)
      && (Quota(torn, code) == Quota(after, code) <==>
          forall n :: n !in az && n !in ResourcesOf(r.organization) ==> (n in ResourcesOf(r.project) <==> n in quota))
  {
    hide PutRows, EffectiveLimit;
    var all := [PutProject(quota, revision)] + puts;
    var after := Commit(r, Puts(all));
    assert all[0].revision == revision && forall i :: 0 <= i < |puts| ==> all[i + 1] == puts[i];
    PutFirst(r, all[0], puts);
    AZPutsRaise(PutRow(r, all[0]), puts, revision, code);
    hide Drawn;
    var torn := Torn(r, r, after);
    QuotaNames(after, code);
    QuotaNames(torn, code);
    hide Quota;
    assert Quota(torn, code) == Quota(after, code) <==> forall n :: n in Quota(torn, code) <==> n in Quota(after, code);
  }

  /**
   A read that sees a project quota and then no AZ row, the project quota being deleted, has a revision
   while what follows has none, and limits to 0 whatever the project limited.
  */
  lemma TornByProjectDeletion(r: Rows, last: nat, code: AZ)
    requires Numbered(r, last) && Allowed(r, last, DeleteProject) && r.project.Some?
    ensures var (after, torn) := (Commit(r, DeleteProject), Torn(r, r, Commit(r, DeleteProject)));
      && Revision(torn, code) > 0 == Revision(after, code)
      && Quota(after, code) == map[]
      && Quota(torn, code) == (map n | n in ResourcesOf(r.project) :: "0")
      && (Quota(torn, code) == Quota(after, code) <==> ResourcesOf(r.project) == map[])
  {
    var after := Commit(r, DeleteProject);
    var torn := Torn(r, r, after);
    NothingLimited(after, code);
    QuotaNames(torn, code);
    hide Quota;
    var zeros: Resources := map n | n in ResourcesOf(r.project) :: "0";
    assert Quota(torn, code) == zeros;
    assert zeros.Keys == ResourcesOf(r.project).Keys;
    assert ResourcesOf(r.project) == map[] <==> ResourcesOf(r.project).Keys == {};
    assert zeros == map[] <==> zeros.Keys == {};
  }
}
