/**
 The controller of an availability zone, which stores the quota of a project as a ResourceQuota.

 Applying a quota updates the ResourceQuota at the version that was read, and is run again when that
 fails on a conflict: it acts on the quota as it is when it is written. Removing one reads it, decides,
 and then removes whatever is there: other pushes may be received in between.
*/
module QuotaController {
  import opened Wrappers
  import opened Quantities
  import opened QuotaTranslation

  type Hards = map<KubeKey, string>

  /** What a push sends: `controllerBody`. */
  datatype Push = Push(hard: Hards, revision: nat)

  /** The ResourceQuota of the project; `revision` is 0 without the annotation. */
  datatype Stored = Absent | Present(hard: Hards, revision: nat, gitops: bool)

  function Amount(parse: Parser, value: string): real {
    match parse(value) case Some(x) => x case None => 0.0
  }

  /** `Validate`: quantities that parse and are not negative. */
  predicate Sound(parse: Parser, hard: Hards) {
    forall k :: k in hard ==> parse(hard[k]).Some? && parse(hard[k]).value >= 0.0
  }

  predicate Stale(st: Stored, p: Push) { st.Present? && p.revision > 0 && st.revision > p.revision }

  /** The push is left alone: what is stored is managed by GitOps, or newer. */
  predicate Skipped(st: Stored, p: Push) { st.Present? && (st.gitops || Stale(st, p)) }

  /** A limit is lowered below what is used. */
  predicate BelowUsage(parse: Parser, current: Hards, used: map<KubeKey, real>, hard: Hards) {
    exists k :: k in hard && k in current && k in used
      && Amount(parse, hard[k]) < Amount(parse, current[k]) && Amount(parse, hard[k]) < used[k]
  }

  predicate Refuses(parse: Parser, st: Stored, used: map<KubeKey, real>, p: Push) {
    st.Present? && !Skipped(st, p) && BelowUsage(parse, st.hard, used, p.hard)
  }

  /** A push of limits is answered with a success, Kubernetes answering. */
  predicate Accepts(parse: Parser, st: Stored, used: map<KubeKey, real>, p: Push) {
    Sound(parse, p.hard) && !Refuses(parse, st, used, p)
  }

  /** What is stored after a push of limits. */
  function Applied(parse: Parser, st: Stored, used: map<KubeKey, real>, p: Push): Stored {
    if !Accepts(parse, st, used, p) || Skipped(st, p) then st
    else Present(p.hard, if p.revision > 0 || st.Absent? then p.revision else st.revision, false)
  }

  /** An empty push decides to remove what is stored. */
  predicate Removes(st: Stored, p: Push) { st.Present? && !Skipped(st, p) }

  /**
   A push of limits never replaces a newer quota nor lowers a limit below its usage, and an empty one
   is decided on exactly when it is not managed by GitOps and the push has no revision or one as new.
  */
  lemma RevisionMoves(parse: Parser, st: Stored, used: map<KubeKey, real>, p: Push)
    requires st.Present?
    ensures var next := Applied(parse, st, used, p);
      && next.Present? && next.revision >= st.revision && next.gitops == st.gitops
      && (next != st ==> !st.gitops && !BelowUsage(parse, st.hard, used, next.hard))
    ensures Removes(st, p) <==> !st.gitops && (p.revision == 0 || p.revision >= st.revision)
  {
  }

  /** The answers: 204, none yet, 400, 409 and 500. */
  datatype Answer = Success | Pending | Invalid | Refused | Failed

  /**
   Whether Kubernetes answers the reads of a push, and its write. A creation that another one overtakes
   fails, as does an update that keeps conflicting.
  */
  datatype Service = Service(readable: bool, writable: bool)

  /** The answer to a push, on what is stored when it reads it. */
  function AnswerTo(parse: Parser, st: Stored, used: map<KubeKey, real>, p: Push, service: Service): Answer {
    if !Sound(parse, p.hard) then Invalid
    else if !service.readable then Failed
    else if p.hard == map[] then if Removes(st, p) then Pending else Success
    else if Skipped(st, p) then Success
    else if Refuses(parse, st, used, p) then Refused
    else if service.writable then Success
    else Failed
  }

  /**
   Every limit that was there before and whose usage is tracked is at least what it was, or at least what is
   used; what was there and does not parse counts as nothing.
  */
  predicate KeepsUsage(parse: Parser, before: Hards, used: map<KubeKey, real>, after: Hards)
    requires forall k :: k in after ==> parse(after[k]).Some?
  {
    forall k :: k in before && k in after && k in used && parse(before[k]).Some? ==>
      parse(after[k]).value >= parse(before[k]).value || parse(after[k]).value >= used[k]
  }

  /** A push, whatever its answer, never lowers a tracked limit below its usage. */
  lemma PushKeepsUsage(parse: Parser, st: Stored, used: map<KubeKey, real>, p: Push)
    requires st.Present? && forall k :: k in st.hard ==> parse(st.hard[k]).Some?
    ensures var next := Applied(parse, st, used, p);
      next.Present? && (forall k :: k in next.hard ==> parse(next.hard[k]).Some?)
      && KeepsUsage(parse, st.hard, used, next.hard)
  {
  }

  /**
   The answer to a push of limits, Kubernetes answering, from what is stored: it is invalid, or left alone
   when a GitOps tool manages the quota or a newer one is stored, or refused when it lowers a tracked limit
   below its usage, or else stored, with its revision if it has one.
  */
  lemma AnswerToLimits(parse: Parser, st: Stored, used: map<KubeKey, real>, p: Push)
    requires p.hard != map[]
    ensures var (answer, next) :=
        (AnswerTo(parse, st, used, p, Service(true, true)), Applied(parse, st, used, p));
      if exists k :: k in p.hard && (parse(p.hard[k]).None? || parse(p.hard[k]).value < 0.0) then
        answer == Invalid && next == st
      else if st.Absent? then answer == Success && next == Present(p.hard, p.revision, false)
      else if st.gitops || (p.revision != 0 && p.revision < st.revision) then answer == Success && next == st
      else if KeepsUsage(parse, st.hard, used, p.hard) then
        answer == Success && next == Present(p.hard, if p.revision == 0 then st.revision else p.revision, false)
      else answer == Refused && next == st
  {
    if st.Present? && Sound(parse, p.hard) { BelowUsageIff(parse, st.hard, used, p.hard); }
    hide BelowUsage, KeepsUsage;
  }

  lemma BelowUsageIff(parse: Parser, before: Hards, used: map<KubeKey, real>, after: Hards)
    requires Sound(parse, after)
    ensures BelowUsage(parse, before, used, after) <==> !KeepsUsage(parse, before, used, after)
  {
    if !KeepsUsage(parse, before, used, after) {
      var k :| k in before && k in after && k in used && parse(before[k]).Some?
        && !(parse(after[k]).value >= parse(before[k]).value || parse(after[k]).value >= used[k]);
      assert Amount(parse, after[k]) < Amount(parse, before[k]) && Amount(parse, after[k]) < used[k];
    }
    if BelowUsage(parse, before, used, after) {
      var k :| k in after && k in before && k in used
        && Amount(parse, after[k]) < Amount(parse, before[k]) && Amount(parse, after[k]) < used[k];
      assert parse(after[k]).Some?;
    }
  }

  /** The answer to an empty push, from what is stored: a removal is decided unless it is left alone. */
  lemma AnswerToNothing(parse: Parser, st: Stored, used: map<KubeKey, real>, revision: nat)
    ensures AnswerTo(parse, st, used, Push(map[], revision), Service(true, true)) ==
      if st.Absent? || st.gitops || (revision != 0 && revision < st.revision) then Success else Pending
  {
  }

  /** When Kubernetes does not answer, a push that has to read or to write fails. */
  lemma AnswerUnreachable(parse: Parser, st: Stored, used: map<KubeKey, real>, p: Push, writable: bool)
    requires forall k :: k in p.hard ==> parse(p.hard[k]).Some? && parse(p.hard[k]).value >= 0.0
    ensures AnswerTo(parse, st, used, p, Service(false, writable)) == Failed
    ensures var up := AnswerTo(parse, st, used, p, Service(true, true));
      var alone := st.Present? && (st.gitops || (p.revision != 0 && p.revision < st.revision));
      AnswerTo(parse, st, used, p, Service(true, false)) ==
        if p.hard != map[] && up == Success && !alone then Failed else up
  {
  }

  class Controller {
    var quota: Stored
    /** `status.used` of the ResourceQuota. */
    var used: map<KubeKey, real>
    /** The removals decided and not carried out yet. */
    var removals: nat
    const parse: Parser

    constructor (parse: Parser)
      ensures this.parse == parse && quota == Absent && removals == 0
    {
      this.parse, quota, used, removals := parse, Absent, map[], 0;
    }

    /** `setQuota`, up to the removal that an empty push decides. */
    method SetQuota(p: Push, service: Service) returns (answer: Answer)
      modifies this`quota, this`removals
      ensures answer == AnswerTo(parse, old(quota), used, p, service)
      ensures quota ==
        if p.hard != map[] && service.readable && service.writable then Applied(parse, old(quota), used, p)
        else old(quota)
      ensures removals == old(removals) + if answer.Pending? then 1 else 0
    {
      var sound := Validate(p.hard);
      if !sound { return Invalid; }
      if p.hard == map[] {
        answer := DecideRemoval(p.revision, service.readable);
      } else {
        answer := Apply(p.hard, p.revision, service);
      }
    }

    method Validate(hard: Hards) returns (ok: bool)
      ensures ok == Sound(parse, hard)
    {
      var todo := hard.Keys;
      while todo != {}
        invariant todo <= hard.Keys
        invariant forall k :: k in hard && k !in todo ==> parse(hard[k]).Some? && parse(hard[k]).value >= 0.0
        decreases todo
      {
        var k :| k in todo;
        var q := parse(hard[k]);
        if q.None? || q.value < 0.0 { return false; }
        todo := todo - {k};
      }
      return true;
    }

    method CheckNotBelowUsage(hard: Hards) returns (ok: bool)
      requires quota.Present?
      ensures ok == !BelowUsage(parse, quota.hard, used, hard)
      ensures Sound(parse, hard) ==> (ok <==> KeepsUsage(parse, quota.hard, used, hard))
    {
      if Sound(parse, hard) { BelowUsageIff(parse, quota.hard, used, hard); }
      var todo := hard.Keys;
      while todo != {}
        invariant todo <= hard.Keys
        invariant forall k :: k in hard && k !in todo && k in quota.hard && k in used ==>
          !(Amount(parse, hard[k]) < Amount(parse, quota.hard[k]) && Amount(parse, hard[k]) < used[k])
        decreases todo
      {
        var k :| k in todo;
        if k in quota.hard && Amount(parse, hard[k]) < Amount(parse, quota.hard[k]) {
          if k in used && used[k] > Amount(parse, hard[k]) { return false; }
        }
        todo := todo - {k};
      }
      return true;
    }

    method Apply(hard: Hards, revision: nat, service: Service) returns (answer: Answer)
      requires hard != map[] && Sound(parse, hard)
      modifies this`quota
      ensures answer == AnswerTo(parse, old(quota), used, Push(hard, revision), service)
      ensures quota ==
        if service.readable && service.writable then Applied(parse, old(quota), used, Push(hard, revision))
        else old(quota)
    {
      if !service.readable { return Failed; }
      if quota.Absent? {
        if !service.writable { return Failed; }
        quota := Present(hard, revision, false);
        return Success;
      }
      if quota.gitops { return Success; }
      if revision > 0 && quota.revision > revision { return Success; }
      var allowed := CheckNotBelowUsage(hard);
      if !allowed { return Refused; }
      if !service.writable { return Failed; }
      quota := quota.(hard := hard, revision := if revision > 0 then revision else quota.revision);
      return Success;
    }

    /** `Delete`, up to the call that removes. */
    method DecideRemoval(revision: nat, readable: bool) returns (answer: Answer)
      modifies this`removals
      ensures answer == AnswerTo(parse, quota, used, Push(map[], revision), Service(readable, true))
      ensures removals == old(removals) + if answer.Pending? then 1 else 0
    {
      if !readable { return Failed; }
      if quota.Absent? || quota.gitops { return Success; }
      if revision > 0 && quota.revision > revision { return Success; }
      removals := removals + 1;
      return Pending;
    }

    /** The call of `Delete` that removes, whatever is stored by then. */
    method Remove(works: bool) returns (answer: Answer)
      requires removals > 0
      modifies this`quota, this`removals
      ensures answer == if works then Success else Failed
      ensures quota == (if works then Absent else old(quota)) && removals == old(removals) - 1
    {
      removals := removals - 1;
      if !works { return Failed; }
      quota := Absent;
      return Success;
    }
  }
}
