/** Runs in which a late push, or a late removal, takes an AZ away from the database. */
module QuotaLatePushes {
  import opened Wrappers
  import opened Quantities
  import opened QuotaTranslation
  import opened QuotaRevisions
  import opened QuotaController
  import opened QuotaDelivery
  import opened QuotaLowering

  function DiskOf(value: string): Resources { map[Disk := value] }

  function StorageOf(value: string): Hards { map[RequestsStorage := value] }

  /** The project only has a quota in AZ "a". */
  function OnlyA(resources: Resources, revision: nat): Rows { Rows(None, None, map["a" := Row(resources, revision)]) }

  function Set(resources: Resources, revision: nat): Event { Write(Puts([PutAZ("a", resources, revision)])) }

  function Pushed(state: nat): Event { Delivery(Read(state, state, state), "a", map[]) }

  const REMOVE := Removal("a", true)

  function Example(history: seq<Rows>, last: nat, st: Stored, removals: nat, astray: set<AZ>): System {
    System(Database(history, last), map["a" := st], map["a" := removals], astray)
  }

  /** A quantity that Kubernetes accepts. */
  predicate Fine(parse: Parser, value: string) { parse(value).Some? && parse(value).value >= 0.0 }

  // ---------------------------------------------------------------------------------------------
  // Steps
  // ---------------------------------------------------------------------------------------------

  /** The quota of AZ "a" is set. */
  lemma SetCommits(parse: Parser, history: seq<Rows>, last: nat, st: Stored, removals: nat, astray: set<AZ>,
                   resources: Resources, revision: nat)
    requires history != [] && last < revision
    requires var r := history[|history| - 1]; r == NO_ROWS || exists other, number :: r == OnlyA(other, number)
    ensures Next(parse, Example(history, last, st, removals, astray), Set(resources, revision))
      == Example(history + [OnlyA(resources, revision)], revision, st, removals, astray)
  {
    var puts, r := [PutAZ("a", resources, revision)], history[|history| - 1];
    assert puts[..0] == [] && PutRows(r, puts) == PutRow(PutRows(r, []), puts[0]);
    assert r.azs["a" := Row(resources, revision)] == map["a" := Row(resources, revision)];
  }

  /** The quota of the project is deleted. */
  lemma DeletionCommits(parse: Parser, history: seq<Rows>, last: nat, st: Stored, removals: nat)
    requires history != [] && exists other, number :: history[|history| - 1] == OnlyA(other, number)
    ensures Next(parse, Example(history, last, st, removals, {}), Write(DeleteProject))
      == Example(history + [NO_ROWS], last, st, removals, {})
  {
  }

  lemma EmptyPushes(revision: nat)
    ensures PushOf(NO_ROWS, "a") == Push(map[], 0) && Quota(NO_ROWS, "a") == map[]
    ensures PushOf(OnlyA(map[], revision), "a") == Push(map[], revision)
  {
    hide Hard;
    NothingLimited(NO_ROWS, "a");
    QuotaOfA(map[], revision);
    HardOfDisk("");
  }

  lemma DiskPush(value: string, revision: nat)
    ensures Quota(OnlyA(DiskOf(value), revision), "a") == DiskOf(value)
    ensures PushOf(OnlyA(DiskOf(value), revision), "a") == Push(StorageOf(value), revision) && StorageOf(value) != map[]
  {
    hide Hard;
    QuotaOfA(DiskOf(value), revision);
    HardOfDisk(value);
  }

  lemma QuotaOfA(resources: Resources, revision: nat)
    ensures Quota(OnlyA(resources, revision), "a") == resources && Revision(OnlyA(resources, revision), "a") == revision
  {
    QuotaNames(OnlyA(resources, revision), "a");
    assert ResourcesOf(RowIn(OnlyA(resources, revision), "a")) == resources;
    hide Quota;
    assert forall n :: n in Quota(OnlyA(resources, revision), "a") <==> n in resources;
  }

  lemma HardOfDisk(value: string)
    ensures Hard(map[]) == map[] && Hard(DiskOf(value)) == StorageOf(value) && RequestsStorage in StorageOf(value)
  {
    var hard := Hard(DiskOf(value));
    assert Hard(map[]).Keys == {};
    assert hard.Keys == {RequestsStorage} by {
      forall k ensures k in hard <==> k == RequestsStorage { }
    }
    assert hard[RequestsStorage] == value;
  }

  lemma DiskApplied(parse: Parser, st: Stored, value: string, revision: nat)
    requires Fine(parse, value) && !Skipped(st, Push(StorageOf(value), revision))
    ensures var p := Push(StorageOf(value), revision);
      && Accepts(parse, st, map[], p)
      && Applied(parse, st, map[], p)
        == Present(StorageOf(value), if revision > 0 || st.Absent? then revision else st.revision, false)
  {
  }

  /** A push of disk that is not stale, read from one state. */
  lemma DiskStored(parse: Parser, history: seq<Rows>, last: nat, st: Stored, removals: nat, astray: set<AZ>, read: nat,
                   value: string, revision: nat)
    requires Fine(parse, value) && read < |history| && history[read] == OnlyA(DiskOf(value), revision)
    requires revision > 0 && (st.Present? ==> !st.gitops && st.revision <= revision)
    ensures Next(parse, Example(history, last, st, removals, astray), Pushed(read))
      == Example(history, last, Present(StorageOf(value), revision, false), removals, astray - {"a"})
  {
    hide PushOf, LoweredPush, Committed, OnlyA, Accepts, Applied, RowsRead;
    var s := Example(history, last, st, removals, astray);
    DiskPush(value, revision);
    DiskApplied(parse, st, value, revision);
    ReadOfOne(s.database, read);
    assert StoredIn(s, "a") == st;
  }

  /** An empty push that is not stale. */
  lemma RemovalDecided(parse: Parser, history: seq<Rows>, last: nat, st: Stored, removals: nat, read: nat,
                       revision: nat)
    requires read < |history| && PushOf(history[read], "a") == Push(map[], revision)
    requires st.Present? && !st.gitops && (revision == 0 || st.revision <= revision)
    ensures Next(parse, Example(history, last, st, removals, {}), Pushed(read))
      == Example(history, last, st, removals + 1, {})
  {
    hide PushOf, LoweredPush, Committed, Accepts, Applied, RowsRead;
    var s := Example(history, last, st, removals, {});
    ReadOfOne(s.database, read);
    assert StoredIn(s, "a") == st && RemovalsIn(s, "a") == removals;
  }

  lemma Removed(parse: Parser, history: seq<Rows>, last: nat, st: Stored, removals: nat)
    requires history != [] && removals > 0
    ensures Next(parse, Example(history, last, st, removals, {}), REMOVE)
      == Example(history, last, Absent, removals - 1, {})
  {
    hide PushOf, LoweredPush, Committed, Accepts, Applied;
    var s := Example(history, last, st, removals, {});
    assert RemovalsIn(s, "a") == removals;
  }

  /** The states that a run goes through. */
  predicate Path(parse: Parser, states: seq<System>, events: seq<Event>)
    requires forall s :: s in states ==> s.database.history != []
  {
    |states| == |events| + 1 && forall k :: 0 <= k < |events| ==> Next(parse, states[k], events[k]) == states[k + 1]
  }

  lemma {:induction false} PathEnds(parse: Parser, states: seq<System>, events: seq<Event>)
    requires (forall s :: s in states ==> s.database.history != []) && Path(parse, states, events)
    ensures After(parse, states[0], events) == states[|events|]
  {
    hide Next;
    var n := |events|;
    if n > 0 {
      assert forall k :: 0 <= k < n - 1 ==> states[..n][k] == states[k] && events[..n - 1][k] == events[k];
      PathEnds(parse, states[..n], events[..n - 1]);
    }
  }

  const START := Example([NO_ROWS], 0, Absent, 0, {})

  // ---------------------------------------------------------------------------------------------
  // Late pushes and removals
  // ---------------------------------------------------------------------------------------------

  /** Limits received again after their quota was deleted and removed are back: their revision was removed with them. */
  lemma StalePushResurrects(parse: Parser, one: string)
    requires Fine(parse, one)
    ensures var last := After(parse, START,
        [Set(DiskOf(one), 1), Pushed(1), Write(DeleteProject), Pushed(2), REMOVE, Pushed(1)]);
      Quota(Current(last.database), "a") == map[] && StoredIn(last, "a").Present?
  {
    hide Next, After, PushOf, Quota, OnlyA, Set, Pushed, InSync, DiskOf, StorageOf, Fine;
    var h, h' := [NO_ROWS, OnlyA(DiskOf(one), 1)], [NO_ROWS, OnlyA(DiskOf(one), 1), NO_ROWS];
    var st := Present(StorageOf(one), 1, false);
    var events := [Set(DiskOf(one), 1), Pushed(1), Write(DeleteProject), Pushed(2), REMOVE, Pushed(1)];
    var states := [START, Example(h, 1, Absent, 0, {}), Example(h, 1, st, 0, {}), Example(h', 1, st, 0, {}),
                   Example(h', 1, st, 1, {}), Example(h', 1, Absent, 0, {}), Example(h', 1, st, 0, {})];
    EmptyPushes(1);
    SetCommits(parse, [NO_ROWS], 0, Absent, 0, {}, DiskOf(one), 1);
    DiskStored(parse, h, 1, Absent, 0, {}, 1, one, 1);
    DeletionCommits(parse, h, 1, st, 0);
    RemovalDecided(parse, h', 1, st, 0, 2, 0);
    Removed(parse, h', 1, st, 1);
    DiskStored(parse, h', 1, Absent, 0, {}, 1, one, 1);
    PathEnds(parse, states, events);
  }

  /** A push read before any quota was set removes the first one: without a revision it is never stale. */
  lemma StalePushRemoves(parse: Parser, one: string)
    requires Fine(parse, one)
    ensures var last := After(parse, START, [Set(DiskOf(one), 1), Pushed(1), Pushed(0), REMOVE]);
      Quota(Current(last.database), "a") == DiskOf(one) && StoredIn(last, "a").Absent?
  {
    hide Next, After, PushOf, Quota, OnlyA, Set, Pushed, InSync, DiskOf, StorageOf, Fine;
    var h, st := [NO_ROWS, OnlyA(DiskOf(one), 1)], Present(StorageOf(one), 1, false);
    var events := [Set(DiskOf(one), 1), Pushed(1), Pushed(0), REMOVE];
    var states := [START, Example(h, 1, Absent, 0, {}), Example(h, 1, st, 0, {}), Example(h, 1, st, 1, {}),
                   Example(h, 1, Absent, 0, {})];
    EmptyPushes(1);
    DiskPush(one, 1);
    SetCommits(parse, [NO_ROWS], 0, Absent, 0, {}, DiskOf(one), 1);
    DiskStored(parse, h, 1, Absent, 0, {}, 1, one, 1);
    RemovalDecided(parse, h, 1, st, 0, 0, 0);
    Removed(parse, h, 1, st, 1);
    PathEnds(parse, states, events);
  }

  /**
   A removal that was not stale when it was decided, carried out after a newer quota was stored, removes
   that one: only the decision looks at the revision.
  */
  lemma OvertakenRemoval(parse: Parser, one: string)
    requires Fine(parse, one)
    ensures var events := [Set(DiskOf(one), 1), Pushed(1), Set(map[], 2), Pushed(2), Set(DiskOf(one), 3), Pushed(3)];
      var (synced, last) := (After(parse, START, events), After(parse, START, events + [REMOVE]));
      && InSync(synced, "a")
      && last.database == synced.database && Quota(Current(last.database), "a") == DiskOf(one)
      && StoredIn(last, "a").Absent?
  {
    hide Next, After, PushOf, Quota, OnlyA, Set, Pushed, InSync, DiskOf, StorageOf, Fine;
    var h, h' := [NO_ROWS, OnlyA(DiskOf(one), 1)], [NO_ROWS, OnlyA(DiskOf(one), 1), OnlyA(map[], 2)];
    var h'' := h' + [OnlyA(DiskOf(one), 3)];
    var st, newer := Present(StorageOf(one), 1, false), Present(StorageOf(one), 3, false);
    var events := [Set(DiskOf(one), 1), Pushed(1), Set(map[], 2), Pushed(2), Set(DiskOf(one), 3), Pushed(3)];
    var states := [START, Example(h, 1, Absent, 0, {}), Example(h, 1, st, 0, {}), Example(h', 2, st, 0, {}),
                   Example(h', 2, st, 1, {}), Example(h'', 3, st, 1, {}), Example(h'', 3, newer, 1, {})];
    EmptyPushes(2);
    SetCommits(parse, [NO_ROWS], 0, Absent, 0, {}, DiskOf(one), 1);
    DiskStored(parse, h, 1, Absent, 0, {}, 1, one, 1);
    SetCommits(parse, h, 1, st, 0, {}, map[], 2);
    RemovalDecided(parse, h', 2, st, 0, 2, 2);
    SetCommits(parse, h', 2, st, 1, {}, DiskOf(one), 3);
    DiskStored(parse, h'', 3, st, 1, {}, 3, one, 3);
    PathEnds(parse, states, events);
    OvertakenEnd(parse, events, h'', one);
  }

  lemma OvertakenEnd(parse: Parser, events: seq<Event>, history: seq<Rows>, one: string)
    requires history != [] && history[|history| - 1] == OnlyA(DiskOf(one), 3)
    requires After(parse, START, events) == Example(history, 3, Present(StorageOf(one), 3, false), 1, {})
    ensures InSync(After(parse, START, events), "a")
    ensures After(parse, START, events + [REMOVE]) == Example(history, 3, Absent, 0, {})
    ensures Quota(history[|history| - 1], "a") == DiskOf(one)
  {
    hide Next, PushOf, Quota;
    DiskPush(one, 3);
    Removed(parse, history, 3, Present(StorageOf(one), 3, false), 1);
    assert (events + [REMOVE])[..|events|] == events;
  }

  // ---------------------------------------------------------------------------------------------
  // A lowered quota
  // ---------------------------------------------------------------------------------------------

  lemma LoweredDisk(r: Rows, value: string)
    requires r.organization == None && r.project == None
    ensures LoweredPush(r, "a", DiskOf(value)) == Push(StorageOf(value), 0) && StorageOf(value) != map[]
  {
    hide Quota, Hard;
    QuotaIgnoresRevisions(r.(azs := r.azs["a" := Row(DiskOf(value), 0)]), OnlyA(DiskOf(value), 0), "a");
    DiskPush(value, 0);
  }

  /** The push of the lowered quota of AZ "a". */
  lemma LoweredStored(parse: Parser, history: seq<Rows>, last: nat, st: Stored, value: string)
    requires history != [] && history[|history| - 1].organization == None && history[|history| - 1].project == None
    requires Fine(parse, value) && st.Present? && !st.gitops
    ensures Next(parse, Example(history, last, st, 0, {}), Lowering(|history| - 1, "a", DiskOf(value), map[]))
      == Example(history, last, Present(StorageOf(value), st.revision, false), 0, {"a"})
  {
    LoweredDisk(history[|history| - 1], value);
    DiskApplied(parse, st, value, 0);
    hide PushOf, LoweredPush, Committed, OnlyA, Accepts, Applied, RowsRead, DiskOf, StorageOf, Fine, Stale;
    var s := Example(history, last, st, 0, {});
    assert StoredIn(s, "a") == st;
  }

  /**
   A quota is lowered and its transaction committed; a push of the quota before it, as new as the stored
   revision that the lowered push did not renew, grants the capacity again that the database has freed.
  */
  lemma LatePushFrees(parse: Parser, one: string, two: string)
    requires Fine(parse, one) && Fine(parse, two) && Amount(parse, one) < Amount(parse, two)
    ensures var last := After(parse, START,
        [Set(DiskOf(two), 1), Pushed(1), Lowering(1, "a", DiskOf(one), map[]), Set(DiskOf(one), 2), Pushed(1)]);
      && PushOf(Current(last.database), "a").hard == StorageOf(one)
      && StoredIn(last, "a") == Present(StorageOf(two), 1, false)
      && !GrantsNoMore(parse, StoredIn(last, "a").hard, PushOf(Current(last.database), "a").hard)
  {
    hide Next, After, PushOf, Quota, OnlyA, Set, Pushed, DiskOf, StorageOf, Fine, GrantsNoMore, Amount;
    var h, h' := [NO_ROWS, OnlyA(DiskOf(two), 1)], [NO_ROWS, OnlyA(DiskOf(two), 1), OnlyA(DiskOf(one), 2)];
    var high, low := Present(StorageOf(two), 1, false), Present(StorageOf(one), 1, false);
    var lowering := Lowering(1, "a", DiskOf(one), map[]);
    var events := [Set(DiskOf(two), 1), Pushed(1), lowering, Set(DiskOf(one), 2), Pushed(1)];
    var states := [START, Example(h, 1, Absent, 0, {}), Example(h, 1, high, 0, {}), Example(h, 1, low, 0, {"a"}),
                   Example(h', 2, low, 0, {"a"}), Example(h', 2, high, 0, {})];
    SetCommits(parse, [NO_ROWS], 0, Absent, 0, {}, DiskOf(two), 1);
    DiskStored(parse, h, 1, Absent, 0, {}, 1, two, 1);
    OnlyRowsOfA(DiskOf(two), 1);
    LoweredStored(parse, h, 1, high, one);
    SetCommits(parse, h, 1, low, 0, {"a"}, DiskOf(one), 2);
    DiskStored(parse, h', 2, low, 0, {"a"}, 1, two, 1);
    PathEnds(parse, states, events);
    DiskPush(one, 2);
    MoreDisk(parse, one, two);
  }

  lemma OnlyRowsOfA(resources: Resources, revision: nat)
    ensures OnlyA(resources, revision).organization == None && OnlyA(resources, revision).project == None
  {
  }

  lemma MoreDisk(parse: Parser, one: string, two: string)
    requires Amount(parse, one) < Amount(parse, two)
    ensures !GrantsNoMore(parse, StorageOf(two), StorageOf(one))
  {
    assert RequestsStorage in StorageOf(one) && StorageOf(two)[RequestsStorage] == two;
  }

  // ---------------------------------------------------------------------------------------------
  // A read that a transaction cut
  // ---------------------------------------------------------------------------------------------

  /** The organization limits the CPU, and the project has disk in AZ "a". */
  function Both(value: string, revision: nat): Rows {
    Rows(Some(Row(map[CPU := value], 1)), None, map["a" := Row(DiskOf(value), revision)])
  }

  /** The organization row before the quota of the organization was deleted, and the AZ row after. */
  const CUT := Read(2, 3, 3)

  function CutHistory(one: string): seq<Rows> {
    [NO_ROWS, Rows(Some(Row(map[CPU := one], 1)), None, map[]), Both(one, 2), OnlyA(DiskOf(one), 3)]
  }

  lemma CutSetsOrganization(parse: Parser, one: string)
    ensures Next(parse, START, Write(Puts([PutOrganization(map[CPU := one], 1)])))
      == Example(CutHistory(one)[..2], 1, Absent, 0, {})
  {
    var put := PutOrganization(map[CPU := one], 1);
    assert [put][..0] == [] && PutRows(NO_ROWS, [put]) == PutRow(PutRows(NO_ROWS, []), put);
    assert CutHistory(one)[..2] == [NO_ROWS] + [CutHistory(one)[1]];
  }

  lemma CutSetsAZ(parse: Parser, one: string)
    ensures Next(parse, Example(CutHistory(one)[..2], 1, Absent, 0, {}), Set(DiskOf(one), 2))
      == Example(CutHistory(one)[..3], 2, Absent, 0, {})
  {
    var h, put := CutHistory(one), PutAZ("a", DiskOf(one), 2);
    assert [put][..0] == [] && PutRows(h[1], [put]) == PutRow(PutRows(h[1], []), put);
    assert h[1].azs["a" := Row(DiskOf(one), 2)] == h[2].azs;
    assert h[..3] == h[..2] + [h[2]];
  }

  lemma CutDeletes(parse: Parser, one: string)
    ensures Next(parse, Example(CutHistory(one)[..3], 2, Absent, 0, {}), Write(DeleteOrganization(map["a" := 3], 4)))
      == Example(CutHistory(one), 4, Absent, 0, {})
  {
    var h := CutHistory(one);
    assert Commit(h[2], DeleteOrganization(map["a" := 3], 4)) == h[3];
    assert h == h[..3] + [h[3]];
  }

  lemma CutCommits(parse: Parser, one: string)
    ensures After(parse, START, CutEvents(one)) == Example(CutHistory(one), 4, Absent, 0, {})
  {
    hide Next, DiskOf, Set, After;
    var h := CutHistory(one);
    var states := [START, Example(h[..2], 1, Absent, 0, {}), Example(h[..3], 2, Absent, 0, {}),
                   Example(h, 4, Absent, 0, {})];
    CutSetsOrganization(parse, one);
    CutSetsAZ(parse, one);
    CutDeletes(parse, one);
    PathEnds(parse, states, CutEvents(one));
  }

  /** The organization quota and the AZ quota are set, and the organization quota deleted. */
  function CutEvents(one: string): seq<Event> {
    [Write(Puts([PutOrganization(map[CPU := one], 1)])), Set(DiskOf(one), 2),
     Write(DeleteOrganization(map["a" := 3], 4))]
  }

  /** The rows of the cut read: their revision is the current one, and they still limit the CPU. */
  lemma CutPush(one: string)
    ensures var (d, p) := (Database(CutHistory(one), 4), PushOf(RowsRead(Database(CutHistory(one), 4), CUT), "a"));
      && InRange(d, CUT) && p.revision == 3 && RequestsCpu in p.hard
      && forall k :: k in p.hard ==> p.hard[k] in {"0", one}
  {
    var h := CutHistory(one);
    var rows := RowsRead(Database(h, 4), CUT);
    assert rows == Both(one, 3);
    QuotaNames(rows, "a");
    hide Quota;
    assert CPU in Quota(rows, "a");
    assert forall n :: n in Quota(rows, "a") ==> Quota(rows, "a")[n] in {"0", one};
    assert NameOf(RequestsCpu) == Some(CPU);
  }

  /** The limits of a cut read, with the current revision, replace those of the database. */
  lemma CutPushStrays(parse: Parser, one: string)
    requires Fine(parse, one) && Fine(parse, "0")
    ensures var events := CutEvents(one) + [Pushed(3)];
      var (synced, last) := (After(parse, START, events), After(parse, START, events + [Delivery(CUT, "a", map[])]));
      && InSync(synced, "a") && last.database == synced.database && !InSync(last, "a") && "a" in last.astray
  {
    hide Next, After, PushOf, Quota, OnlyA, Both, DiskOf, StorageOf, RowsRead, CutEvents, Set, CutHistory;
    var events, h := CutEvents(one) + [Pushed(3)], CutHistory(one);
    CutCommits(parse, one);
    CutLast(one);
    DiskStored(parse, h, 4, Absent, 0, {}, 3, one, 3);
    assert {} - {"a"} == {};
    AfterEvent(parse, START, CutEvents(one), Pushed(3));
    AfterEvent(parse, START, events, Delivery(CUT, "a", map[]));
    CutDelivered(parse, one, Example(h, 4, Present(StorageOf(one), 3, false), 0, {}));
  }

  lemma CutLast(one: string)
    ensures |CutHistory(one)| == 4 && CutHistory(one)[3] == OnlyA(DiskOf(one), 3)
    ensures RowsRead(Database(CutHistory(one), 4), CUT) !in CutHistory(one)
  {
    var rows := RowsRead(Database(CutHistory(one), 4), CUT);
    assert rows == Both(one, 3);
    assert rows.azs["a"].revision == 3 && Both(one, 2).azs["a"].revision == 2;
  }

  lemma AfterEvent(parse: Parser, s: System, events: seq<Event>, e: Event)
    requires s.database.history != []
    ensures After(parse, s, events + [e]) == Next(parse, After(parse, s, events), e)
  {
    assert (events + [e])[..|events|] == events;
  }

  lemma CutDelivered(parse: Parser, one: string, s: System)
    requires Fine(parse, one) && Fine(parse, "0")
    requires s == Example(CutHistory(one), 4, Present(StorageOf(one), 3, false), 0, {})
    ensures var next := Next(parse, s, Delivery(CUT, "a", map[]));
      InSync(s, "a") && next.database == s.database && !InSync(next, "a") && "a" in next.astray
  {
    hide PushOf, RowsRead, Both, CutHistory, Committed, LoweredPush, Quota, OnlyA;
    CutLast(one);
    CutPush(one);
    DiskPush(one, 3);
    var p := PushOf(RowsRead(s.database, CUT), "a");
    assert RequestsCpu !in StorageOf(one);
    assert Accepts(parse, StoredIn(s, "a"), map[], p);
    assert !Skipped(StoredIn(s, "a"), p);
  }
}
