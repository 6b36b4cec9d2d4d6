/**
 Lowering the quota of an availability zone: the lower limits are pushed before the transaction
 commits, so that the database never frees capacity that the cluster still grants. What this needs
 of the runs that follow.
*/
module QuotaLowering {
  import opened Quantities
  import opened QuotaTranslation
  import opened QuotaRevisions
  import opened QuotaController
  import opened QuotaDelivery

  /** Every limit of `hard` is enforced, at that amount or below. */
  predicate GrantsNoMore(parse: Parser, stored: Hards, hard: Hards) {
    forall k :: k in hard ==> k in stored && Amount(parse, stored[k]) <= Amount(parse, hard[k])
  }

  /** The AZ grants no more than `hard`. */
  predicate Bounded(parse: Parser, s: System, code: AZ, hard: Hards) {
    StoredIn(s, code).Present? && GrantsNoMore(parse, StoredIn(s, code).hard, hard)
  }

  /** A push of limits that takes effect grants more than `hard`. */
  predicate Raises(parse: Parser, st: Stored, used: map<KubeKey, real>, p: Push, hard: Hards) {
    p.hard != map[] && Accepts(parse, st, used, p) && !Skipped(st, p) && !GrantsNoMore(parse, p.hard, hard)
  }

  /**
   The events after which an AZ grants more: higher limits that are not older than what is stored, which
   a lowered push does not renew; a removal decided earlier; and other lowered limits that are higher.
  */
  predicate Frees(parse: Parser, s: System, e: Event, code: AZ, hard: Hards)
    requires s.database.history != []
  {
    var st := StoredIn(s, code);
    match e
    case Write(_) => false
    case Delivery(read, c, used) =>
      c == code && InRange(s.database, read) && Raises(parse, st, used, PushOf(RowsRead(s.database, read), code), hard)
    case Removal(c, works) => c == code && works && RemovalsIn(s, code) > 0
    case Lowering(state, c, resources, used) =>
      && c == code && state < |s.database.history|
      && Raises(parse, st, used, LoweredPush(s.database.history[state], code, resources), hard)
  }

  lemma ReceivedBounds(parse: Parser, st: Stored, used: map<KubeKey, real>, p: Push, hard: Hards)
    requires st.Present? && GrantsNoMore(parse, st.hard, hard)
    ensures var next := if p.hard == map[] || !Accepts(parse, st, used, p) || Skipped(st, p) then st
                        else Applied(parse, st, used, p);
      next.Present? && (GrantsNoMore(parse, next.hard, hard) <==> !Raises(parse, st, used, p, hard))
  {
    hide Sound, BelowUsage, GrantsNoMore;
  }

  /** An AZ that grants no more than `hard` grants more after an event exactly when the event is one of these. */
  lemma FreesIff(parse: Parser, s: System, e: Event, code: AZ, hard: Hards)
    requires s.database.history != [] && Bounded(parse, s, code, hard)
    ensures Bounded(parse, Next(parse, s, e), code, hard) <==> !Frees(parse, s, e, code, hard)
  {
    hide PushOf, LoweredPush, RowsRead, InRange, Accepts, Skipped, Applied, Raises, GrantsNoMore, Removes, Committed;
    var st := StoredIn(s, code);
    if e.Delivery? && e.code == code && InRange(s.database, e.read) {
      DeliveryStores(parse, s, code, e.read, e.used);
      ReceivedBounds(parse, st, e.used, PushOf(RowsRead(s.database, e.read), code), hard);
      hide Next;
    } else if e.Lowering? && e.code == code && e.state < |s.database.history| {
      LoweringStores(parse, s, e, code);
      ReceivedBounds(parse, st, e.used, LoweredPush(s.database.history[e.state], code, e.resources), hard);
      hide Next;
    } else if !(e.Removal? && e.code == code) {
      assert StoredIn(Next(parse, s, e), code) == st;
    }
  }

  // ---------------------------------------------------------------------------------------------
  // Over runs
  // ---------------------------------------------------------------------------------------------

  predicate BoundedAt(parse: Parser, s: System, events: seq<Event>, code: AZ, hard: Hards, k: nat)
    requires s.database.history != [] && k <= |events|
  {
    Bounded(parse, After(parse, s, events[..k]), code, hard)
  }

  predicate FreesAt(parse: Parser, s: System, events: seq<Event>, code: AZ, hard: Hards, k: nat)
    requires s.database.history != [] && k < |events|
  {
    Frees(parse, After(parse, s, events[..k]), events[k], code, hard)
  }

  lemma BoundedNext(parse: Parser, s: System, events: seq<Event>, code: AZ, hard: Hards, k: nat)
    requires s.database.history != [] && k < |events| && BoundedAt(parse, s, events, code, hard, k)
    ensures BoundedAt(parse, s, events, code, hard, k + 1) <==> !FreesAt(parse, s, events, code, hard, k)
  {
    hide Bounded, Frees, Next, After;
    AfterNext(parse, s, events, k);
    FreesIff(parse, After(parse, s, events[..k]), events[k], code, hard);
  }

  lemma {:induction false} StaysBoundedIff(parse: Parser, s: System, events: seq<Event>, code: AZ, hard: Hards,
                                           from: nat)
    requires s.database.history != [] && from <= |events| && BoundedAt(parse, s, events, code, hard, from)
    ensures (forall k :: from <= k <= |events| ==> BoundedAt(parse, s, events, code, hard, k)) <==>
      (forall k :: from <= k < |events| ==> !FreesAt(parse, s, events, code, hard, k))
    decreases |events| - from
  {
    hide BoundedAt, FreesAt;
    if from < |events| {
      BoundedNext(parse, s, events, code, hard, from);
      if BoundedAt(parse, s, events, code, hard, from + 1) { StaysBoundedIff(parse, s, events, code, hard, from + 1); }
    }
  }

  /** The transaction that lowers the quota of an AZ. */
  function LoweringWrite(code: AZ, resources: Resources, revision: nat): Event {
    Write(Puts([PutAZ(code, resources, revision)]))
  }

  /** What was pushed is what the database limits once the transaction has committed. */
  lemma CommittedIsPushed(d: Database, code: AZ, resources: Resources, revision: nat)
    requires d.history != [] && d.last < revision
    ensures var after := Committed(d, Puts([PutAZ(code, resources, revision)]));
      after.history != [] && PushOf(Current(after), code).hard == LoweredPush(Current(d), code, resources).hard
  {
    hide Quota, Hard;
    var r, puts := Current(d), [PutAZ(code, resources, revision)];
    assert puts[..0] == [] && PutRows(r, puts) == PutRow(PutRows(r, []), puts[0]);
    var (committed, pushed) :=
      (r.(azs := r.azs[code := Row(resources, revision)]), r.(azs := r.azs[code := Row(resources, 0)]));
    QuotaIgnoresRevisions(committed, pushed, code);
  }

  lemma QuotaIgnoresRevisions(a: Rows, b: Rows, code: AZ)
    requires a.organization == b.organization && a.project == b.project
    requires ResourcesOf(RowIn(a, code)) == ResourcesOf(RowIn(b, code))
    ensures Quota(a, code) == Quota(b, code)
  {
  }

  lemma LoweredBounds(parse: Parser, s: System, code: AZ, resources: Resources, used: map<KubeKey, real>)
    requires s.database.history != [] && !Managed(s, code)
    requires var p := LoweredPush(Current(s.database), code, resources);
      p.hard != map[] && Accepts(parse, StoredIn(s, code), used, p)
    ensures var next := Next(parse, s, Lowering(|s.database.history| - 1, code, resources, used));
      next.database == s.database && Bounded(parse, next, code, LoweredPush(Current(s.database), code, resources).hard)
  {
    hide LoweredPush, Next, Accepts, Applied, Skipped;
    LoweredUnnumbered(Current(s.database), code, resources);
    LoweredApplies(parse, StoredIn(s, code), used, LoweredPush(Current(s.database), code, resources));
    LoweringStores(parse, s, Lowering(|s.database.history| - 1, code, resources, used), code);
  }

  lemma LoweredApplies(parse: Parser, st: Stored, used: map<KubeKey, real>, p: Push)
    requires p.revision == 0 && !(st.Present? && st.gitops) && Accepts(parse, st, used, p)
    ensures !Skipped(st, p) && Applied(parse, st, used, p).Present? && Applied(parse, st, used, p).hard == p.hard
  {
    hide Sound, BelowUsage;
  }

  /**
   Once a lowered quota is pushed and its transaction committed, the database limits what was pushed; and
   from the push on the AZ grants no more than that, at every moment, exactly when none of the events
   before or after the commit is one that frees.
  */
  lemma LoweredNeverFreesIff(parse: Parser, s: System, code: AZ, resources: Resources, used: map<KubeKey, real>,
                             before: seq<Event>, revision: nat, later: seq<Event>)
    requires s.database.history != [] && !Managed(s, code) && s.database.last < revision
    requires NoWrite(before) && NoWrite(later)
    requires var p := LoweredPush(Current(s.database), code, resources);
      p.hard != map[] && Accepts(parse, StoredIn(s, code), used, p)
    ensures var hard := LoweredPush(Current(s.database), code, resources).hard;
      var pushed := Next(parse, s, Lowering(|s.database.history| - 1, code, resources, used));
      var events := before + [LoweringWrite(code, resources, revision)] + later;
      && PushOf(Current(After(parse, pushed, events).database), code).hard == hard
      && ((forall k :: 0 <= k <= |events| ==> BoundedAt(parse, pushed, events, code, hard, k)) <==>
          (forall k :: 0 <= k < |events| ==> !FreesAt(parse, pushed, events, code, hard, k)))
  {
    hide LoweredPush, PushOf, Accepts, Next, Bounded, BoundedAt, FreesAt, Managed;
    var hard := LoweredPush(Current(s.database), code, resources).hard;
    var pushed := Next(parse, s, Lowering(|s.database.history| - 1, code, resources, used));
    var commit := LoweringWrite(code, resources, revision);
    LoweredBounds(parse, s, code, resources, used);
    DatabaseOfRun(parse, pushed, before, commit, later);
    CommittedIsPushed(s.database, code, resources, revision);
    var events := before + [commit] + later;
    BoundedAtStart(parse, pushed, events, code, hard);
    StaysBoundedIff(parse, pushed, events, code, hard, 0);
  }

  lemma BoundedAtStart(parse: Parser, s: System, events: seq<Event>, code: AZ, hard: Hards)
    requires s.database.history != [] && Bounded(parse, s, code, hard)
    ensures BoundedAt(parse, s, events, code, hard, 0)
  {
  }

  /** Only the transaction moves the database. */
  lemma DatabaseOfRun(parse: Parser, s: System, before: seq<Event>, commit: Event, later: seq<Event>)
    requires s.database.history != [] && NoWrite(before) && NoWrite(later) && commit.Write?
    ensures After(parse, s, before + [commit] + later).database == Committed(s.database, commit.write)
  {
    var middle := before + [commit];
    AfterNoWrite(parse, s, before);
    assert middle[..|before|] == before && middle[..|middle|] == middle;
    AfterNext(parse, s, middle, |before|);
    AfterConcat(parse, s, middle, later);
    AfterNoWrite(parse, After(parse, s, middle), later);
  }

  lemma {:induction false} AfterConcat(parse: Parser, s: System, a: seq<Event>, b: seq<Event>)
    requires s.database.history != []
    ensures After(parse, s, a + b) == After(parse, After(parse, s, a), b)
  {
    hide Next;
    if b == [] {
      assert a + b == a;
    } else {
      assert (a + b)[..|a + b| - 1] == a + b[..|b| - 1];
      AfterConcat(parse, s, a, b[..|b| - 1]);
    }
  }
}
