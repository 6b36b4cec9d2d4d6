/**
 A full re-sync, from the report it gives back to what every availability zone stores: the pushes of
 the projects, each to the AZs of its organization, and the runs of their controllers.
*/
module QuotaAgreement {
  import opened Wrappers
  import opened Quantities
  import opened QuotaTranslation
  import opened QuotaRevisions
  import opened QuotaDelivery
  import opened QuotaSync

  /** The re-sync of one project: the state it starts from, what happens during it, and its push to every AZ. */
  datatype Episode = Episode(start: System, events: seq<Event>, outside: Outside)

  /**
   Nothing is written during the re-sync; the push reads the rows as they are; and an AZ that answers a
   success received the push and carried it out, with nothing harmful after it.
  */
  ghost predicate Faithful(parse: Parser, e: Episode) {
    && Good(e.start) && NoWrite(e.events)
    && e.outside.rows == Some(Current(e.start.database))
    && forall code :: code in e.outside.accepting ==> Carried(parse, e.start, e.events, code)
  }

  /** The AZs of the project whose ResourceQuota is not managed by GitOps. */
  function Targeted(e: Episode): set<AZ> {
    set code | code in TargetSet(e.outside.azs, e.outside.org, []) && !Managed(e.start, code)
  }

  /** Every targeted AZ ends in line with the database, which has not moved. */
  ghost predicate Agrees(parse: Parser, e: Episode)
    requires e.start.database.history != []
  {
    var last := After(parse, e.start, e.events);
    last.database == e.start.database && forall code :: code in Targeted(e) ==> InSync(last, code)
  }

  lemma FaithfulHasHistory(parse: Parser, e: Episode)
    requires Faithful(parse, e)
    ensures e.start.database.history != []
  {
  }

  lemma EpisodeAgrees(parse: Parser, e: Episode)
    requires Faithful(parse, e) && Failing(e.outside, []) == {}
    ensures e.start.database.history != [] && Agrees(parse, e)
  {
    FaithfulHasHistory(parse, e);
    hide Good, Carried, InSync, After, Managed, TargetSet;
    AfterNoWrite(parse, e.start, e.events);
    forall code | code in Targeted(e) ensures InSync(After(parse, e.start, e.events), code) {
      assert code !in Failing(e.outside, []);
      Resynced(parse, e.start, e.events, code);
    }
  }

  /**
   A re-sync that took the lock, ended without an error and reports no failure leaves every AZ of every
   live project that GitOps does not manage in line with the database, nothing being written meanwhile
   and nothing harmful reaching an AZ after its push.
  */
  lemma ResyncAgrees(parse: Parser, list: Option<seq<Id>>, pushed: set<Id>, cancelled: nat, report: Report,
      episodes: map<Id, Episode>)
    requires ResyncAnswer(Acquired, list, pushed, cancelled, report, true) && report.failed == 0
    requires list.Some? && forall id :: id in list.value ==> id in episodes && Faithful(parse, episodes[id])
    requires forall id :: id in list.value && id in pushed ==> Failing(episodes[id].outside, []) == {}
    ensures report.projects == |list.value|
    ensures forall id :: id in list.value ==> episodes[id].start.database.history != [] && Agrees(parse, episodes[id])
  {
    hide Faithful, Agrees, Failing;
    NoFailures(list.value, pushed);
    forall id | id in list.value
      ensures episodes[id].start.database.history != [] && Agrees(parse, episodes[id])
    {
      EpisodeAgrees(parse, episodes[id]);
    }
  }
}
