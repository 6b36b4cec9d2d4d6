/**
 Every interleaving of database writes, pushes and removals, for one project and the controllers of
 its availability zones.
*/
module QuotaDelivery {
  import opened Quantities
  import opened QuotaTranslation
  import opened QuotaRevisions
  import opened QuotaController

  // ---------------------------------------------------------------------------------------------
  // Runs
  // ---------------------------------------------------------------------------------------------

  /** The push of the quota of an AZ, for the rows that were read. */
  function PushOf(r: Rows, code: AZ): Push { Push(Hard(Quota(r, code)), Revision(r, code)) }

  /**
   The push of a lowered AZ quota, from within its transaction, which holds the lock of the organization:
   it is read from one committed state, and carries no revision.
  */
  function LoweredPush(r: Rows, code: AZ, resources: Resources): Push {
    Push(Hard(Quota(r.(azs := r.azs[code := Row(resources, 0)]), code)), 0)
  }

  /**
   The database; what each controller stores; the removals it has decided and not carried out; and the
   AZs in which the last push to take effect was a lowered one, or of rows that no committed state had.
  */
  datatype System = System(database: Database, stored: map<AZ, Stored>, removals: map<AZ, nat>, astray: set<AZ>)

  function StoredIn(s: System, code: AZ): Stored { if code in s.stored then s.stored[code] else Absent }

  function RemovalsIn(s: System, code: AZ): nat { if code in s.removals then s.removals[code] else 0 }

  /**
   A transaction commits; a push whose rows were read in three queries reaches the controller of an AZ,
   where the given usage is tracked; a removal decided there is carried out, or fails; or the push of a
   lowered quota reaches the AZ, whether its transaction commits or not. A push may be received at any
   later time, any number of times.
  */
  datatype Event =
    | Write(write: Write)
    | Delivery(read: Read, code: AZ, used: map<KubeKey, real>)
    | Removal(code: AZ, works: bool)
    | Lowering(state: nat, code: AZ, resources: Resources, used: map<KubeKey, real>)

  predicate Uncommitted(d: Database, rows: Rows) { rows !in d.history }

  /** A push of limits is received. */
  function Receive(parse: Parser, s: System, code: AZ, used: map<KubeKey, real>, p: Push, strays: bool): System {
    var st := StoredIn(s, code);
    if !Accepts(parse, st, used, p) || Skipped(st, p) then s
    else s.(stored := s.stored[code := Applied(parse, st, used, p)],
            astray := if strays then s.astray + {code} else s.astray - {code})
  }

  function Next(parse: Parser, s: System, e: Event): (r: System)
    requires s.database.history != []
    ensures r.database.history != []
  {
    match e
    case Write(w) => s.(database := Committed(s.database, w))
    case Delivery(read, code, used) =>
      if !InRange(s.database, read) then s
      else
        var rows := RowsRead(s.database, read);
        var p := PushOf(rows, code);
        if p.hard != map[] then Receive(parse, s, code, used, p, Uncommitted(s.database, rows))
        else if Removes(StoredIn(s, code), p) then s.(removals := s.removals[code := RemovalsIn(s, code) + 1])
        else s
    case Removal(code, works) =>
      if RemovalsIn(s, code) == 0 then s
      else
        var left := s.(removals := s.removals[code := RemovalsIn(s, code) - 1]);
        if works then left.(stored := s.stored[code := Absent], astray := s.astray - {code}) else left
    case Lowering(read, code, resources, used) =>
      if read >= |s.database.history| || LoweredPush(s.database.history[read], code, resources).hard == map[] then s
      else Receive(parse, s, code, used, LoweredPush(s.database.history[read], code, resources), true)
  }

  lemma NextHistory(parse: Parser, s: System, e: Event)
    requires s.database.history != []
    ensures s.database.history <= Next(parse, s, e).database.history
    ensures !e.Write? ==> Next(parse, s, e).database == s.database
  {
    hide PushOf, Applied, Accepts, Committed;
    match e
    case Write(w) => CommittedHistory(s.database, w);
    case _ =>
  }

  lemma CommittedHistory(d: Database, w: Write)
    requires d.history != []
    ensures d.history <= Committed(d, w).history
  {
  }

  function After(parse: Parser, s: System, events: seq<Event>): (r: System)
    requires s.database.history != []
    ensures s.database.history <= r.database.history
  {
    if events == [] then s
    else
      var before := After(parse, s, events[..|events| - 1]);
      NextHistory(parse, before, events[|events| - 1]);
      Next(parse, before, events[|events| - 1])
  }

  /** No quota yet, no removal decided, and no ResourceQuota but those managed by GitOps. */
  ghost predicate Initial(s: System) {
    && s.database == Database([NO_ROWS], 0) && s.astray == {}
    && forall code :: RemovalsIn(s, code) == 0 && (StoredIn(s, code).Present? ==> StoredIn(s, code).gitops)
  }

  /** What is stored is what some committed state limits the AZ to, with its revision. */
  ghost predicate Genuine(d: Database, st: Stored, code: AZ) {
    st.Present? && !st.gitops ==>
      exists i :: 0 <= i < |d.history| && PushOf(d.history[i], code) == Push(st.hard, st.revision) && st.hard != map[]
  }

  /** The stored revision is not newer than some committed state. */
  ghost predicate Known(d: Database, st: Stored, code: AZ) {
    st.Present? && !st.gitops ==>
      st.revision == 0 || exists i :: 0 <= i < |d.history| && st.revision <= Revision(d.history[i], code)
  }

  ghost predicate Good(s: System) {
    && Consistent(s.database)
    && (forall code :: Known(s.database, StoredIn(s, code), code))
    && (forall code :: code !in s.astray ==> Genuine(s.database, StoredIn(s, code), code))
  }

  /** Something to enforce always comes with a revision. */
  lemma NothingHard(r: Rows, last: nat, code: AZ)
    requires Numbered(r, last) && Revision(r, code) == 0
    ensures Hard(Quota(r, code)) == map[]
  {
    UnnumberedIsEmpty(r, last, code);
    hide Revision, Quota;
    assert Hard(map[]) == map[];
  }

  lemma Later(d: Database, later: Database, st: Stored, code: AZ)
    requires d.history <= later.history
    ensures Genuine(d, st, code) ==> Genuine(later, st, code)
    ensures Known(d, st, code) ==> Known(later, st, code)
  {
    hide PushOf, Revision;
    assert forall i :: 0 <= i < |d.history| ==> later.history[i] == d.history[i];
  }

  /** What one AZ stores changes. */
  lemma OneAZKeeps(s: System, code: AZ, st: Stored, astray: set<AZ>)
    requires Good(s) && Known(s.database, st, code) && (code !in astray ==> Genuine(s.database, st, code))
    requires astray - {code} == s.astray - {code}
    ensures Good(s.(stored := s.stored[code := st], astray := astray))
  {
    hide Genuine, Known, Consistent;
    var next := s.(stored := s.stored[code := st], astray := astray);
    forall c
      ensures Known(s.database, StoredIn(next, c), c)
      ensures c !in astray ==> Genuine(s.database, StoredIn(next, c), c)
    {
      assert c != code ==> StoredIn(next, c) == StoredIn(s, c) && (c in astray <==> c in astray - {code});
      assert c in s.astray - {code} <==> c != code && c in s.astray;
    }
  }

  lemma DeliveryKeeps(parse: Parser, s: System, code: AZ, used: map<KubeKey, real>, read: Read)
    requires Good(s) && InRange(s.database, read) && PushOf(RowsRead(s.database, read), code).hard != map[]
    ensures var rows := RowsRead(s.database, read);
      Good(Receive(parse, s, code, used, PushOf(rows, code), Uncommitted(s.database, rows)))
  {
    hide Hard, Quota, Revision, Accepts, Ordered, Torn;
    var d, rows := s.database, RowsRead(s.database, read);
    var p := PushOf(rows, code);
    ReadNumbered(d, read);
    if p.revision == 0 { NothingHard(rows, d.last, code); }
    var m := ReadBelow(d, read, code);
    var st := Present(p.hard, p.revision, false);
    assert Known(d, st, code);
    if rows in d.history {
      var i :| 0 <= i < |d.history| && d.history[i] == rows;
      assert Genuine(d, st, code);
      OneAZKeeps(s, code, st, s.astray - {code});
    } else {
      OneAZKeeps(s, code, st, s.astray + {code});
    }
    hide Genuine, Known, Numbered;
  }

  lemma LoweringKeeps(parse: Parser, s: System, code: AZ, used: map<KubeKey, real>, p: Push)
    requires Good(s) && p.revision == 0
    ensures Good(Receive(parse, s, code, used, p, true))
  {
    hide Accepts, Consistent, Genuine;
    var st := Applied(parse, StoredIn(s, code), used, p);
    assert Known(s.database, StoredIn(s, code), code);
    assert Known(s.database, st, code);
    OneAZKeeps(s, code, st, s.astray + {code});
    hide Known;
  }

  lemma SameKeeps(s: System, next: System)
    requires Good(s) && next.database == s.database && next.stored == s.stored && next.astray == s.astray
    ensures Good(next)
  {
    hide Genuine, Known, Consistent;
    assert forall c :: StoredIn(next, c) == StoredIn(s, c);
  }

  lemma NextKeeps(parse: Parser, s: System, e: Event)
    requires Good(s)
    ensures Good(Next(parse, s, e))
  {
    hide Genuine, Known, Ordered, Numbered, Receive, PushOf, LoweredPush, Committed, Removes;
    var next := Next(parse, s, e);
    match e
    case Write(w) =>
      CommitKeeps(s.database, w);
      NextHistory(parse, s, e);
      forall code
        ensures Known(next.database, StoredIn(next, code), code)
        ensures code !in next.astray ==> Genuine(next.database, StoredIn(next, code), code)
      {
        Later(s.database, next.database, StoredIn(s, code), code);
      }
    case Delivery(read, code, used) =>
      if InRange(s.database, read) && PushOf(RowsRead(s.database, read), code).hard != map[] {
        DeliveryKeeps(parse, s, code, used, read);
      } else {
        SameKeeps(s, next);
      }
    case Removal(code, works) =>
      AbsentIsGenuine(s.database, code);
      OneAZKeeps(s, code, Absent, s.astray - {code});
      var removed := s.(stored := s.stored[code := Absent], astray := s.astray - {code});
      SameKeeps(if works && RemovalsIn(s, code) > 0 then removed else s, next);
    case Lowering(read, code, resources, used) =>
      if read < |s.database.history| {
        LoweredUnnumbered(s.database.history[read], code, resources);
        LoweringKeeps(parse, s, code, used, LoweredPush(s.database.history[read], code, resources));
      }
  }

  lemma LoweredUnnumbered(r: Rows, code: AZ, resources: Resources)
    ensures LoweredPush(r, code, resources).revision == 0
  {
  }

  lemma AbsentIsGenuine(d: Database, code: AZ)
    ensures Genuine(d, Absent, code) && Known(d, Absent, code)
  {
  }

  lemma {:induction false} AfterKeeps(parse: Parser, s: System, events: seq<Event>)
    requires Good(s)
    ensures Good(After(parse, s, events))
  {
    hide Genuine, Known, Ordered, Numbered, Next;
    if events != [] {
      AfterKeeps(parse, s, events[..|events| - 1]);
      NextKeeps(parse, After(parse, s, events[..|events| - 1]), events[|events| - 1]);
    }
  }

  lemma InitiallyGood(s: System)
    requires Initial(s)
    ensures Good(s)
  {
    forall code ensures Ordered(NO_ROWS, NO_ROWS, code) { OrderedWithItself(NO_ROWS, code); }
  }

  /** The limits are those of the database at the stored revision, whichever state with that revision is looked at. */
  ghost predicate AtItsRevision(history: seq<Rows>, st: Stored, code: AZ) {
    st.Present? && !st.gitops ==>
      && st.revision > 0
      && (exists i :: 0 <= i < |history| && Revision(history[i], code) == st.revision)
      && (forall i :: 0 <= i < |history| && Revision(history[i], code) == st.revision ==>
        Hard(Quota(history[i], code)) == st.hard)
  }

  /**
   In every run, what a controller stores is what the database limited the AZ to at the stored revision,
   unless the last push to take effect there was a lowered one, or of rows that no committed state had;
   the stored revision is never newer than the database.
  */
  lemma StoredIsGenuine(parse: Parser, s: System, events: seq<Event>, code: AZ)
    requires Initial(s)
    ensures var last := After(parse, s, events);
      && (code !in last.astray ==> AtItsRevision(last.database.history, StoredIn(last, code), code))
      && Known(last.database, StoredIn(last, code), code)
  {
    hide Hard, Quota, Revision, Next;
    InitiallyGood(s);
    AfterKeeps(parse, s, events);
    var last := After(parse, s, events);
    if code !in last.astray { GenuineIsExact(last.database, StoredIn(last, code), code); }
  }

  lemma GenuineIsExact(d: Database, st: Stored, code: AZ)
    requires Consistent(d) && Genuine(d, st, code)
    ensures AtItsRevision(d.history, st, code)
  {
    hide Hard, Quota, Revision;
    if st.Present? && !st.gitops {
      var i :| 0 <= i < |d.history| && PushOf(d.history[i], code) == Push(st.hard, st.revision) && st.hard != map[];
      if st.revision == 0 { NothingHard(d.history[i], d.last, code); }
      forall j | 0 <= j < |d.history| && Revision(d.history[j], code) == st.revision
        ensures Hard(Quota(d.history[j], code)) == st.hard
      {
        assert Ordered(d.history[i], d.history[j], code) || Ordered(d.history[j], d.history[i], code);
      }
    }
  }

  /** The exception needs a lowered push, or a read that a transaction cut. */
  lemma {:induction false} NeverAstray(parse: Parser, s: System, events: seq<Event>, code: AZ)
    requires s.database.history != [] && code !in s.astray
    requires forall e :: e in events ==> !(e.Lowering? && e.code == code)
    requires forall e :: e in events && e.Delivery? && e.code == code ==>
      e.read.organization == e.read.project == e.read.azs
    ensures code !in After(parse, s, events).astray
  {
    hide PushOf, LoweredPush, Applied, Accepts, Removes, Skipped, Committed, RowsRead;
    if events != [] {
      var rest, e := events[..|events| - 1], events[|events| - 1];
      assert e in events;
      NeverAstray(parse, s, rest, code);
      var before := After(parse, s, rest);
      if e.Delivery? && e.code == code && InRange(before.database, e.read) { ReadOfOne(before.database, e.read.azs); }
    }
  }

  // ---------------------------------------------------------------------------------------------
  // Agreement with the database
  // ---------------------------------------------------------------------------------------------

  /** The AZ stores exactly the quota of the database. */
  predicate InSync(s: System, code: AZ)
    requires s.database.history != []
  {
    var p := PushOf(Current(s.database), code);
    StoredIn(s, code) == if p.hard == map[] then Absent else Present(p.hard, p.revision, false)
  }

  predicate Managed(s: System, code: AZ) { StoredIn(s, code).Present? && StoredIn(s, code).gitops }

  /** The current push is never stale, whatever the AZ stores. */
  lemma CurrentIsNotStale(s: System, code: AZ)
    requires Good(s) && !Managed(s, code)
    ensures !Skipped(StoredIn(s, code), PushOf(Current(s.database), code))
    ensures PushOf(Current(s.database), code).hard != map[] ==> PushOf(Current(s.database), code).revision > 0
  {
    hide Hard, Quota, Revision;
    var d, st := s.database, StoredIn(s, code);
    var n := |d.history| - 1;
    if Revision(d.history[n], code) == 0 { NothingHard(d.history[n], d.last, code); }
    assert Known(d, st, code);
    if st.Present? && st.revision > 0 {
      var i :| 0 <= i < |d.history| && st.revision <= Revision(d.history[i], code);
      assert Ordered(d.history[i], d.history[n], code);
    }
  }

  /**
   The push of the current quota, whichever states it was read from, succeeds: its limits are accepted;
   or there is nothing to limit, and nothing stored or a removal carried out.
  */
  predicate Completes(parse: Parser, s: System, e: Event, code: AZ)
    requires s.database.history != []
  {
    var p := PushOf(Current(s.database), code);
    match e
    case Delivery(read, c, used) =>
      && c == code && InRange(s.database, read) && PushOf(RowsRead(s.database, read), code) == p
      && if p.hard == map[] then StoredIn(s, code).Absent? else Accepts(parse, StoredIn(s, code), used, p)
    case Removal(c, works) => c == code && works && RemovalsIn(s, code) > 0 && p.hard == map[]
    case _ => false
  }

  /** Once the push of the current quota has succeeded, the AZ is in line with the database, whatever it stored. */
  lemma CurrentPushWins(parse: Parser, s: System, e: Event, code: AZ)
    requires Good(s) && !Managed(s, code) && Completes(parse, s, e, code)
    ensures InSync(Next(parse, s, e), code)
  {
    hide Good, PushOf, LoweredPush, Committed, Accepts, Stale;
    CurrentIsNotStale(s, code);
  }

  /** An empty current push always decides to remove what is stored. */
  lemma CurrentRemovalDecided(parse: Parser, s: System, code: AZ, read: Read, used: map<KubeKey, real>)
    requires Good(s) && StoredIn(s, code).Present? && !Managed(s, code)
    requires InRange(s.database, read) && PushOf(RowsRead(s.database, read), code) == PushOf(Current(s.database), code)
    requires PushOf(Current(s.database), code).hard == map[]
    ensures var next := Next(parse, s, Delivery(read, code, used));
      RemovalsIn(next, code) == RemovalsIn(s, code) + 1 && next.stored == s.stored
  {
    hide Good, PushOf, LoweredPush, Committed, Accepts, Stale;
    CurrentIsNotStale(s, code);
  }

  /**
   The events that break the agreement of an AZ: limits received once the quota is removed, since the
   revision is removed with it; other limits with the current revision, from a read that a transaction
   cut; a removal decided earlier, once there is a quota again, since it removes whatever is stored; and
   lowered limits that are not the current ones.
  */
  predicate Harmful(parse: Parser, s: System, e: Event, code: AZ)
    requires s.database.history != []
  {
    var current := PushOf(Current(s.database), code);
    var hard := current.hard;
    match e
    case Write(_) => false
    case Delivery(read, c, used) =>
      && c == code && InRange(s.database, read)
      && var p := PushOf(RowsRead(s.database, read), code);
      && p.hard != map[]
      && if hard == map[] then Sound(parse, p.hard)
         else p.revision == current.revision && p.hard != hard && Accepts(parse, StoredIn(s, code), used, p)
    case Removal(c, works) => c == code && works && RemovalsIn(s, code) > 0 && hard != map[]
    case Lowering(read, c, resources, used) =>
      && c == code && read < |s.database.history|
      && var p := LoweredPush(s.database.history[read], code, resources);
      && p.hard != map[] && p.hard != hard && Accepts(parse, StoredIn(s, code), used, p)
  }

  /** Without a write, an AZ in line with the database leaves it exactly by a harmful event. */
  lemma StaleDelivery(parse: Parser, s: System, e: Event, code: AZ)
    requires Good(s) && InSync(s, code) && !e.Write?
    ensures InSync(Next(parse, s, e), code) <==> !Harmful(parse, s, e, code)
  {
    match e
    case Delivery(read, c, used) =>
      if c == code && InRange(s.database, read) {
        LateLimits(parse, s, code, read, used);
      } else {
        ElsewhereStays(parse, s, e, code);
      }
    case Removal(c, _) =>
      if c == code { LateRemoval(parse, s, e, code); } else { ElsewhereStays(parse, s, e, code); }
    case Lowering(read, c, _, _) =>
      if c == code && read < |s.database.history| {
        LateLowering(parse, s, e, code);
      } else {
        ElsewhereStays(parse, s, e, code);
      }
  }

  /** An event of another AZ, or without effect. */
  lemma ElsewhereStays(parse: Parser, s: System, e: Event, code: AZ)
    requires s.database.history != [] && !e.Write?
    requires e.code == code ==> match e
      case Delivery(read, _, _) => !InRange(s.database, read)
      case Lowering(read, _, _, _) => read >= |s.database.history|
      case _ => false
    ensures !Harmful(parse, s, e, code)
    ensures InSync(Next(parse, s, e), code) <==> InSync(s, code)
  {
    hide PushOf, LoweredPush, Accepts, Removes, Skipped, Applied;
    assert StoredIn(Next(parse, s, e), code) == StoredIn(s, code);
  }

  lemma LateRemoval(parse: Parser, s: System, e: Event, code: AZ)
    requires s.database.history != [] && InSync(s, code) && e.Removal? && e.code == code
    ensures InSync(Next(parse, s, e), code) <==> !Harmful(parse, s, e, code)
  {
    hide PushOf, LoweredPush, Accepts, Removes, Skipped, Applied;
  }

  lemma LateLowering(parse: Parser, s: System, e: Event, code: AZ)
    requires s.database.history != [] && InSync(s, code) && e.Lowering? && e.code == code
      && e.state < |s.database.history|
    ensures InSync(Next(parse, s, e), code) <==> !Harmful(parse, s, e, code)
  {
    var p, current := LoweredPush(s.database.history[e.state], code, e.resources), PushOf(Current(s.database), code);
    LoweredUnnumbered(s.database.history[e.state], code, e.resources);
    hide PushOf, LoweredPush, Accepts, Removes, Skipped, Applied, Committed;
    LoweringStores(parse, s, e, code);
    if p.hard != map[] { LoweredLimits(parse, StoredIn(s, code), current, e.used, p); }
    hide Next;
  }

  lemma LoweringStores(parse: Parser, s: System, e: Event, code: AZ)
    requires s.database.history != [] && e.Lowering? && e.code == code && e.state < |s.database.history|
    ensures var (p, st) := (LoweredPush(s.database.history[e.state], code, e.resources), StoredIn(s, code));
      && Next(parse, s, e).database == s.database
      && StoredIn(Next(parse, s, e), code) ==
        if p.hard == map[] || !Accepts(parse, st, e.used, p) || Skipped(st, p) then st
        else Applied(parse, st, e.used, p)
  {
    hide PushOf, LoweredPush, Accepts, Removes, Skipped, Applied, Committed;
  }

  lemma LoweredLimits(parse: Parser, st: Stored, current: Push, used: map<KubeKey, real>, p: Push)
    requires p.revision == 0 && p.hard != map[]
    requires st == if current.hard == map[] then Absent else Present(current.hard, current.revision, false)
    ensures !Skipped(st, p)
    ensures Accepts(parse, st, used, p) ==> (Applied(parse, st, used, p) == st <==> p.hard == current.hard)
  {
    hide Sound, BelowUsage;
  }

  /** Limits are read with a revision, not newer than the current one, if there is something to limit. */
  lemma ReadBounds(d: Database, code: AZ, read: Read)
    requires Consistent(d) && InRange(d, read)
    ensures var (p, current) := (PushOf(RowsRead(d, read), code), PushOf(Current(d), code));
      && (p.hard != map[] ==> p.revision > 0)
      && (current.hard != map[] ==> p.revision <= current.revision)
  {
    ReadNotNewer(d, read, code);
    ReadNumbered(d, read);
    hide Ordered, RowsRead, Hard, Quota, Revision;
    if Revision(RowsRead(d, read), code) == 0 { NothingHard(RowsRead(d, read), d.last, code); }
    if Revision(Current(d), code) == 0 { NothingHard(Current(d), d.last, code); }
  }

  lemma LateLimits(parse: Parser, s: System, code: AZ, read: Read, used: map<KubeKey, real>)
    requires s.database.history != [] && Consistent(s.database) && InSync(s, code) && InRange(s.database, read)
    ensures InSync(Next(parse, s, Delivery(read, code, used)), code) <==>
      !Harmful(parse, s, Delivery(read, code, used), code)
  {
    hide Consistent, PushOf, RowsRead, InRange, Accepts, Skipped, Applied, Sound, Next;
    var st, p := StoredIn(s, code), PushOf(RowsRead(s.database, read), code);
    ReadBounds(s.database, code, read);
    DeliveryStores(parse, s, code, read, used);
    if p.hard != map[] { LateLimitsOn(parse, st, PushOf(Current(s.database), code), used, p); }
  }

  lemma DeliveryStores(parse: Parser, s: System, code: AZ, read: Read, used: map<KubeKey, real>)
    requires s.database.history != [] && InRange(s.database, read)
    ensures var (p, st) := (PushOf(RowsRead(s.database, read), code), StoredIn(s, code));
      var next := Next(parse, s, Delivery(read, code, used));
      && next.database == s.database
      && StoredIn(next, code) ==
        if p.hard == map[] || !Accepts(parse, st, used, p) || Skipped(st, p) then st else Applied(parse, st, used, p)
  {
    hide PushOf, LoweredPush, RowsRead, InRange, Accepts, Removes, Skipped, Applied, Committed;
  }

  /** Limits received by an AZ that is in line with the database. */
  lemma LateLimitsOn(parse: Parser, st: Stored, current: Push, used: map<KubeKey, real>, p: Push)
    requires p.hard != map[] && p.revision > 0
    requires current.hard != map[] ==> p.revision <= current.revision
    requires st == if current.hard == map[] then Absent else Present(current.hard, current.revision, false)
    ensures (if !Accepts(parse, st, used, p) || Skipped(st, p) then st else Applied(parse, st, used, p)) != st <==>
      if current.hard == map[] then Sound(parse, p.hard)
      else p.revision == current.revision && p.hard != current.hard && Accepts(parse, st, used, p)
  {
    hide Sound, BelowUsage;
  }

  /**
   Where the removals come from: empty pushes without a revision, or as new as what was stored when they were
   received.
  */
  lemma RemovalsDecided(parse: Parser, s: System, e: Event, code: AZ)
    requires s.database.history != []
    ensures RemovalsIn(Next(parse, s, e), code) > RemovalsIn(s, code) <==>
      && e.Delivery? && e.code == code && InRange(s.database, e.read)
      && (var p, st := PushOf(RowsRead(s.database, e.read), code), StoredIn(s, code);
          p.hard == map[] && st.Present? && !st.gitops && (p.revision == 0 || st.revision <= p.revision))
  {
    hide PushOf, LoweredPush, Applied, Accepts, Committed;
  }

  // ---------------------------------------------------------------------------------------------
  // Agreement over runs
  // ---------------------------------------------------------------------------------------------

  /** No transaction commits. */
  predicate NoWrite(events: seq<Event>) { forall e :: e in events ==> !e.Write? }

  /** The AZ is in line with the database once `k` of the events have happened. */
  predicate InSyncAt(parse: Parser, s: System, events: seq<Event>, code: AZ, k: nat)
    requires s.database.history != [] && k <= |events|
  {
    InSync(After(parse, s, events[..k]), code)
  }

  /** The `k`-th event is harmful when it happens. */
  predicate HarmfulAt(parse: Parser, s: System, events: seq<Event>, code: AZ, k: nat)
    requires s.database.history != [] && k < |events|
  {
    Harmful(parse, After(parse, s, events[..k]), events[k], code)
  }

  /** From the `from`-th event on, none is harmful. */
  predicate Harmless(parse: Parser, s: System, events: seq<Event>, code: AZ, from: nat)
    requires s.database.history != []
  {
    forall k :: from <= k < |events| ==> !HarmfulAt(parse, s, events, code, k)
  }

  lemma {:induction false} AfterNoWrite(parse: Parser, s: System, events: seq<Event>)
    requires s.database.history != [] && NoWrite(events)
    ensures After(parse, s, events).database == s.database
  {
    hide Next;
    if events != [] {
      assert events[|events| - 1] in events;
      AfterNoWrite(parse, s, events[..|events| - 1]);
      NextHistory(parse, After(parse, s, events[..|events| - 1]), events[|events| - 1]);
    }
  }

  lemma AfterNext(parse: Parser, s: System, events: seq<Event>, k: nat)
    requires s.database.history != [] && k < |events|
    ensures After(parse, s, events[..k + 1]) == Next(parse, After(parse, s, events[..k]), events[k])
  {
    assert events[..k + 1][..k] == events[..k];
  }

  lemma InSyncNext(parse: Parser, s: System, events: seq<Event>, code: AZ, k: nat)
    requires Good(s) && NoWrite(events) && k < |events| && InSyncAt(parse, s, events, code, k)
    ensures InSyncAt(parse, s, events, code, k + 1) <==> !HarmfulAt(parse, s, events, code, k)
  {
    hide Genuine, Known, Ordered, Numbered, InSync, Harmful, Next, After;
    AfterNext(parse, s, events, k);
    AfterKeeps(parse, s, events[..k]);
    assert events[k] in events;
    StaleDelivery(parse, After(parse, s, events[..k]), events[k], code);
  }

  /** Without a write, an AZ stays in line with the database, at every moment, exactly when no event is harmful. */
  lemma {:induction false} StaysInSyncIff(parse: Parser, s: System, events: seq<Event>, code: AZ, from: nat)
    requires Good(s) && NoWrite(events) && from <= |events| && InSyncAt(parse, s, events, code, from)
    ensures (forall k :: from <= k <= |events| ==> InSyncAt(parse, s, events, code, k)) <==>
      Harmless(parse, s, events, code, from)
    decreases |events| - from
  {
    hide Genuine, Known, Ordered, Numbered, InSyncAt, HarmfulAt;
    if from < |events| {
      InSyncNext(parse, s, events, code, from);
      if InSyncAt(parse, s, events, code, from + 1) { StaysInSyncIff(parse, s, events, code, from + 1); }
    }
  }

  lemma {:induction false} StaysUnmanaged(parse: Parser, s: System, events: seq<Event>, code: AZ)
    requires s.database.history != [] && !Managed(s, code)
    ensures !Managed(After(parse, s, events), code)
  {
    hide PushOf, LoweredPush, Accepts, Removes, Stale, Committed;
    if events != [] { StaysUnmanaged(parse, s, events[..|events| - 1], code); }
  }

  /** The push of the current quota succeeds at some moment, and nothing harmful happens after it. */
  ghost predicate Carried(parse: Parser, s: System, events: seq<Event>, code: AZ)
    requires s.database.history != []
  {
    exists k :: 0 <= k < |events| && Completes(parse, After(parse, s, events[..k]), events[k], code)
      && Harmless(parse, s, events, code, k + 1)
  }

  /** A re-sync during which nothing is written leaves in line with the database every AZ its push succeeds in. */
  lemma Resynced(parse: Parser, s: System, events: seq<Event>, code: AZ)
    requires Good(s) && !Managed(s, code) && NoWrite(events) && Carried(parse, s, events, code)
    ensures After(parse, s, events).database == s.database && InSync(After(parse, s, events), code)
  {
    hide Genuine, Known, Ordered, Numbered, InSync, Harmful, Next, After, Managed, Completes;
    var k :| 0 <= k < |events| && Completes(parse, After(parse, s, events[..k]), events[k], code)
      && Harmless(parse, s, events, code, k + 1);
    AfterKeeps(parse, s, events[..k]);
    StaysUnmanaged(parse, s, events[..k], code);
    CurrentPushWins(parse, After(parse, s, events[..k]), events[k], code);
    AfterNext(parse, s, events, k);
    AfterNoWrite(parse, s, events);
    StaysInSyncIff(parse, s, events, code, k + 1);
    assert events[..|events|] == events;
    assert InSyncAt(parse, s, events, code, |events|);
  }
}
