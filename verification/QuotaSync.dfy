/**
 Pushing the quota of a project to the controllers of the availability zones of its organization,
 and the deactivation of a project whose quota could not be applied.
*/
module QuotaSync {
  import opened Wrappers
  import opened Quantities
  import opened QuotaTranslation
  import opened QuotaRevisions
  import opened StringOrder

  type Id = string

  // ---------------------------------------------------------------------------------------------
  // AZ codes in order
  // ---------------------------------------------------------------------------------------------

  predicate Sorted(codes: seq<AZ>) { forall i, j :: 0 <= i < j < |codes| ==> Before(codes[i], codes[j]) }

  /** There is only one way to sort a set of codes. */
  lemma {:induction false} SortedUnique(a: seq<AZ>, b: seq<AZ>)
    requires Sorted(a) && Sorted(b) && forall c :: c in a <==> c in b
    ensures a == b
  {
    assert b != [] ==> b[0] in b;
    if a != [] {
      assert a[0] in b;
      HeadFirst(a, b);
      HeadFirst(b, a);
      BeforeIsOrder(a[0], b[0], a[0]);
      forall c ensures c in a[1..] <==> c in b[1..] {
        BeforeIsOrder(a[0], a[0], a[0]);
        TailOf(a, c);
        TailOf(b, c);
      }
      SortedUnique(a[1..], b[1..]);
      assert a == [a[0]] + a[1..] && b == [b[0]] + b[1..];
    }
  }

  lemma HeadFirst(a: seq<AZ>, b: seq<AZ>)
    requires Sorted(a) && a != [] && b != [] && b[0] in a
    ensures a[0] == b[0] || Before(a[0], b[0])
  {
    var i :| 0 <= i < |a| && a[i] == b[0];
  }

  lemma TailOf(a: seq<AZ>, c: AZ)
    requires Sorted(a) && a != [] && !Before(a[0], a[0])
    ensures c in a[1..] <==> c in a && c != a[0]
  {
    if c in a[1..] {
      var i :| 0 <= i < |a[1..]| && a[1..][i] == c;
      assert a[i + 1] == c && Before(a[0], a[i + 1]);
      BeforeIsOrder(c, c, c);
    }
  }

  method SortCodes(codes: seq<AZ>) returns (sorted: seq<AZ>)
    requires forall i, j :: 0 <= i < j < |codes| ==> codes[i] != codes[j]
    ensures Sorted(sorted) && forall c :: c in sorted <==> c in codes
  {
    sorted := [];
    for i := 0 to |codes|
      invariant Sorted(sorted) && forall c :: c in sorted <==> c in codes[..i]
    {
      assert codes[i] !in codes[..i];
      sorted := InsertCode(sorted, codes[i]);
      assert codes[..i + 1] == codes[..i] + [codes[i]];
    }
    assert codes[..|codes|] == codes;
  }

  method InsertCode(sorted: seq<AZ>, code: AZ) returns (res: seq<AZ>)
    requires Sorted(sorted) && code !in sorted
    ensures Sorted(res) && forall c :: c in res <==> c in sorted || c == code
  {
    var i := 0;
    while i < |sorted| && Before(sorted[i], code)
      invariant i <= |sorted| && forall j :: 0 <= j < i ==> Before(sorted[j], code)
    {
      i := i + 1;
    }
    if i < |sorted| { BeforeIsTotal(sorted[i], code); }
    forall j | i <= j < |sorted| ensures Before(code, sorted[j]) { BeforeIsOrder(code, sorted[i], sorted[j]); }
    res := sorted[..i] + [code] + sorted[i..];
  }

  // ---------------------------------------------------------------------------------------------
  // Targets
  // ---------------------------------------------------------------------------------------------

  /** The organizations an AZ is reserved to, all of them when there is none. */
  type Whitelist = seq<Id>

  /** The AZs a push targets: those the organization may use, all of them or the requested ones. */
  function TargetSet(azs: map<AZ, Whitelist>, org: Id, requested: seq<AZ>): set<AZ> {
    set c | c in azs && (azs[c] == [] || org in azs[c]) && (requested == [] || c in requested)
  }

  /** `FindAll`: the map is iterated in any order. */
  method FindAll(azs: map<AZ, Whitelist>, org: Id) returns (codes: seq<AZ>)
    ensures forall i, j :: 0 <= i < j < |codes| ==> codes[i] != codes[j]
    ensures forall c :: c in codes <==> c in TargetSet(azs, org, [])
    ensures forall c :: c in codes <==> c in azs && (azs[c] == [] || org in azs[c])
  {
    codes := [];
    var todo := azs.Keys;
    while todo != {}
      invariant todo <= azs.Keys
      invariant forall c :: c in codes <==> c in TargetSet(azs, org, []) && c !in todo
      invariant forall i, j :: 0 <= i < j < |codes| ==> codes[i] != codes[j]
      decreases todo
    {
      var c :| c in todo;
      if azs[c] == [] {
        codes := codes + [c];
      } else if org in azs[c] {
        codes := codes + [c];
      }
      todo := todo - {c};
    }
  }

  method Targets(azs: map<AZ, Whitelist>, org: Id, requested: seq<AZ>) returns (codes: seq<AZ>)
    ensures Sorted(codes) && forall c :: c in codes <==> c in TargetSet(azs, org, requested)
    ensures forall c :: c in codes <==>
      c in azs && (azs[c] == [] || org in azs[c]) && (requested == [] || c in requested)
  {
    var all := FindAll(azs, org);
    if requested != [] {
      var kept := [];
      for i := 0 to |all|
        invariant forall c :: c in kept <==> c in all[..i] && c in requested
        invariant forall j, k :: 0 <= j < k < |kept| ==> kept[j] != kept[k]
      {
        assert all[i] !in all[..i] && all[..i + 1] == all[..i] + [all[i]];
        if all[i] in requested { kept := kept + [all[i]]; }
      }
      assert all[..|all|] == all;
      all := kept;
    }
    codes := SortCodes(all);
  }

  // ---------------------------------------------------------------------------------------------
  // Pushes
  // ---------------------------------------------------------------------------------------------

  /** What one push needs from outside: the rows, unless they cannot be read, and the AZs that accept it. */
  datatype Outside = Outside(azs: map<AZ, Whitelist>, org: Id, rows: Option<Rows>, accepting: set<AZ>)

  function Failing(o: Outside, requested: seq<AZ>): set<AZ> { TargetSet(o.azs, o.org, requested) - o.accepting }

  /** Something has to be enforced in the AZ. */
  predicate Enforced(rows: Rows, code: AZ) { Hard(Quota(rows, code)) != map[] }

  /** Something has to be enforced when the organization, the project or the AZ limits a supported resource. */
  lemma EnforcedIff(rows: Rows, code: AZ)
    ensures Enforced(rows, code) <==> Limits(rows, code)
  {
    QuotaNames(rows, code);
    var quota := Quota(rows, code);
    hide Quota;
    if n :| n in {CPU, Memory, Disk} && Names(rows, code, n) {
      HardIs(quota, KeyOf(n));
      assert KeyOf(n) in Hard(quota);
    }
    if Enforced(rows, code) {
      var k :| k in Hard(quota);
      HardIs(quota, k);
      var n := if k in {RequestsCpu, LimitsCpu} then CPU else if k == RequestsStorage then Disk else Memory;
      assert Names(rows, code, n);
    }
  }

  /** Some quota that concerns the AZ names the resource. */
  predicate Names(rows: Rows, code: AZ, n: Name) {
    || (rows.organization.Some? && n in rows.organization.value.resources)
    || (rows.project.Some? && n in rows.project.value.resources)
    || (code in rows.azs && n in rows.azs[code].resources)
  }

  predicate Limits(rows: Rows, code: AZ) { exists n :: n in {CPU, Memory, Disk} && Names(rows, code, n) }

  /** The organization may use the AZ, and it is one of those asked for. */
  predicate Targeted(o: Outside, requested: seq<AZ>, code: AZ) {
    code in o.azs && (o.azs[code] == [] || o.org in o.azs[code]) && (requested == [] || code in requested)
  }

  /** Which AZs fail, and which of them are left without limits they should have. */
  lemma FailingAre(o: Outside, requested: seq<AZ>, code: AZ)
    ensures code in Failing(o, requested) <==> Targeted(o, requested, code) && code !in o.accepting
  {
  }

  datatype AZResult = AZResult(code: AZ, failed: bool, unenforced: bool)

  /** The slot of a target once its push has ended. */
  function ResultOf(o: Outside, code: AZ): AZResult
    requires o.rows.Some?
  {
    if code in o.accepting then AZResult("", false, false) else AZResult(code, true, Enforced(o.rows.value, code))
  }

  /** `apply`: the pushes end in any order. */
  method Apply(o: Outside, requested: seq<AZ>) returns (failed: seq<AZ>, unenforced: seq<AZ>, ok: bool)
    ensures ok == o.rows.Some?
    ensures !ok ==> failed == [] && unenforced == []
    ensures ok ==> ApplyAnswer(o, requested, failed, unenforced)
  {
    hide Before, Enforced, TargetSet;
    failed, unenforced, ok := [], [], o.rows.Some?;
    if !ok { return; }
    var codes := Targets(o.azs, o.org, requested);
    var results := PushAll(o, codes);
    for i := 0 to |codes|
      invariant Sorted(failed) && Sorted(unenforced)
      invariant forall c :: c in failed <==> c in codes[..i] && c !in o.accepting
      invariant forall c :: c in unenforced <==> c in codes[..i] && c !in o.accepting && Enforced(o.rows.value, c)
    {
      assert codes[..i + 1] == codes[..i] + [codes[i]];
      forall c | c in codes[..i] ensures Before(c, codes[i]) {
        var j :| 0 <= j < i && codes[j] == c;
      }
      var res := results[i];
      assert res == ResultOf(o, codes[i]);
      if res.failed {
        assert forall j :: 0 <= j < |failed| ==> failed[j] in failed && Before(failed[j], res.code);
        failed := failed + [res.code];
        if res.unenforced {
          assert forall j :: 0 <= j < |unenforced| ==> unenforced[j] in unenforced && Before(unenforced[j], res.code);
          unenforced := unenforced + [res.code];
        }
      }
    }
    assert codes[..|codes|] == codes;
  }

  /** Each push writes its own slot, whichever ends first. */
  method PushAll(o: Outside, codes: seq<AZ>) returns (results: array<AZResult>)
    requires o.rows.Some?
    ensures fresh(results) && results.Length == |codes|
    ensures forall i :: 0 <= i < |codes| ==> results[i] == ResultOf(o, codes[i])
  {
    results := new AZResult[|codes|](_ => AZResult("", false, false));
    var todo := set i {:trigger codes[i]} | 0 <= i < |codes|;
    while todo != {}
      invariant forall i :: i in todo ==> 0 <= i < |codes| && results[i] == AZResult("", false, false)
      invariant forall i :: 0 <= i < |codes| && i !in todo ==> results[i] == ResultOf(o, codes[i])
      decreases todo
    {
      var i :| i in todo;
      if codes[i] !in o.accepting {
        results[i] := AZResult(codes[i], true, Hard(Quota(o.rows.value, codes[i])) != map[]);
      }
      todo := todo - {i};
    }
  }

  /** What `apply` answers once the rows are read. */
  ghost predicate ApplyAnswer(o: Outside, requested: seq<AZ>, failed: seq<AZ>, unenforced: seq<AZ>)
    requires o.rows.Some?
  {
    && Sorted(failed) && Sorted(unenforced)
    && (forall c :: c in failed <==> c in Failing(o, requested))
    && (forall c :: c in unenforced <==> c in Failing(o, requested) && Enforced(o.rows.value, c))
  }

  /** The answer does not depend on the order of the AZs nor on that of the pushes. */
  lemma AnswerUnique(o: Outside, requested: seq<AZ>, failed: seq<AZ>, unenforced: seq<AZ>, failed': seq<AZ>,
      unenforced': seq<AZ>)
    requires o.rows.Some? && ApplyAnswer(o, requested, failed, unenforced)
      && ApplyAnswer(o, requested, failed', unenforced')
    ensures failed == failed' && unenforced == unenforced'
  {
    SortedUnique(failed, failed');
    SortedUnique(unenforced, unenforced');
  }

  // ---------------------------------------------------------------------------------------------
  // Deactivation
  // ---------------------------------------------------------------------------------------------

  datatype Reason = QuotaFailedToApply | OtherReason(name: string)

  datatype Call =
    | Pushed(outside: Outside, requested: seq<AZ>, saved: bool)
    | Initialized(outside: Outside, saved: bool)

  /** The call is an all-AZ push that every targeted AZ accepted. */
  predicate Whole(c: Call) {
    c.Pushed? && c.requested == [] && c.outside.rows.Some? && Failing(c.outside, []) == {}
  }

  /** The initialization left unenforced a quota that had to be. */
  predicate Unenforced(o: Outside) {
    o.rows.None? || exists c :: c in Failing(o, []) && Enforced(o.rows.value, c)
  }

  /** Why the project is deactivated, after a call; `saved` says whether its database write works. */
  function ReasonsAfter(reasons: set<Reason>, c: Call): set<Reason> {
    match c
    case Pushed(_, _, saved) => if Whole(c) && saved then reasons - {QuotaFailedToApply} else reasons
    case Initialized(o, saved) => if Unenforced(o) && saved then reasons + {QuotaFailedToApply} else reasons
  }

  class ProjectState {
    var reasons: set<Reason>

    method Project(o: Outside, requested: seq<AZ>, saved: bool) returns (ok: bool)
      modifies this
      ensures reasons == ReasonsAfter(old(reasons), Pushed(o, requested, saved))
      ensures ok <==> o.rows.Some? && Failing(o, requested) == {} && (requested == [] ==> saved)
      ensures ok <==>
        && o.rows.Some? && (requested == [] ==> saved)
        && forall code :: Targeted(o, requested, code) ==> code in o.accepting
    {
      forall code { FailingAre(o, requested, code); }
      var failed, _, computed := Apply(o, requested);
      if !computed { return false; }
      if failed != [] {
        assert failed[0] in Failing(o, requested);
        return false;
      }
      assert Failing(o, requested) == {};
      if requested == [] {
        if !saved { return false; }
        reasons := reasons - {QuotaFailedToApply};
      }
      return true;
    }

    method Initialize(o: Outside, saved: bool) returns (ok: bool)
      modifies this
      ensures reasons == ReasonsAfter(old(reasons), Initialized(o, saved))
      ensures ok <==> o.rows.Some? && Failing(o, []) == {}
    {
      var failed, unenforced, computed := Apply(o, []);
      ok := computed && failed == [];
      if failed != [] { assert failed[0] in Failing(o, []); }
      if unenforced != [] { assert unenforced[0] in Failing(o, []) && Enforced(o.rows.value, unenforced[0]); }
      if ok { return; }
      if failed == [] || unenforced != [] {
        if saved { reasons := reasons + {QuotaFailedToApply}; }
      }
    }
  }

  function ReasonsAfterAll(reasons: set<Reason>, calls: seq<Call>): set<Reason> {
    if calls == [] then reasons else ReasonsAfter(ReasonsAfterAll(reasons, calls[..|calls| - 1]), calls[|calls| - 1])
  }

  /** In every run, the deactivation is only lifted by an all-AZ push that every targeted AZ accepted. */
  lemma {:induction false} OnlyWholePushesReactivate(reasons: set<Reason>, calls: seq<Call>)
    requires QuotaFailedToApply in reasons
    ensures QuotaFailedToApply !in ReasonsAfterAll(reasons, calls) ==> exists c :: c in calls && Whole(c) && c.saved
  {
    if calls != [] {
      var rest, c := calls[..|calls| - 1], calls[|calls| - 1];
      OnlyWholePushesReactivate(reasons, rest);
      assert c in calls;
      if QuotaFailedToApply !in ReasonsAfterAll(reasons, rest) {
        var w :| w in rest && Whole(w) && w.saved;
        assert w in calls;
      }
    }
  }

  /** No call touches the other reasons. */
  lemma {:induction false} OtherReasonsStay(reasons: set<Reason>, calls: seq<Call>, r: Reason)
    requires r != QuotaFailedToApply
    ensures r in ReasonsAfterAll(reasons, calls) <==> r in reasons
  {
    if calls != [] { OtherReasonsStay(reasons, calls[..|calls| - 1], r); }
  }

  /**
   What a push leaves of the reasons: an all-AZ push that is saved lifts the one about quotas exactly when the
   rows could be read and every AZ of the organization accepted, and nothing else changes them.
  */
  lemma PushedReasons(reasons: set<Reason>, o: Outside, requested: seq<AZ>, saved: bool)
    ensures var accepted := o.rows.Some? && forall code :: Targeted(o, [], code) ==> code in o.accepting;
      ReasonsAfter(reasons, Pushed(o, requested, saved)) ==
        if requested == [] && saved && accepted then reasons - {QuotaFailedToApply} else reasons
  {
    forall code { FailingAre(o, [], code); }
    if Failing(o, []) != {} {
      var code :| code in Failing(o, []);
      assert Targeted(o, [], code);
    }
  }

  /**
   What the initialization leaves: the reason about quotas is added, if that is saved, exactly when the rows could
   not be read, or an AZ that has something to enforce did not accept.
  */
  lemma InitializedReasons(reasons: set<Reason>, o: Outside, saved: bool)
    ensures ReasonsAfter(reasons, Initialized(o, saved)) ==
      if saved && (o.rows.None? || LeftOpen(o)) then reasons + {QuotaFailedToApply} else reasons
  {
    hide Limits, Targeted, Failing, Enforced;
    if o.rows.Some? {
      if code :| code in Failing(o, []) && Enforced(o.rows.value, code) {
        FailingAre(o, [], code);
        EnforcedIff(o.rows.value, code);
        assert Targeted(o, [], code) && Limits(o.rows.value, code);
      }
      if LeftOpen(o) {
        var code :| Targeted(o, [], code) && code !in o.accepting && Limits(o.rows.value, code);
        FailingAre(o, [], code);
        EnforcedIff(o.rows.value, code);
      }
    }
  }

  /** An AZ that some quota limits did not accept. */
  ghost predicate LeftOpen(o: Outside)
    requires o.rows.Some?
  {
    exists code :: Targeted(o, [], code) && code !in o.accepting && Limits(o.rows.value, code)
  }

  /** A new project is left active exactly when every AZ with something to enforce accepted its quota. */
  lemma InitializedActiveIff(o: Outside, reasons: set<Reason>)
    requires QuotaFailedToApply !in reasons
    ensures QuotaFailedToApply !in ReasonsAfter(reasons, Initialized(o, true)) <==>
      o.rows.Some? && forall c :: c in TargetSet(o.azs, o.org, []) && Enforced(o.rows.value, c) ==> c in o.accepting
  {
    if o.rows.Some? && !Unenforced(o) {
      forall c | c in TargetSet(o.azs, o.org, []) && Enforced(o.rows.value, c) ensures c in o.accepting {
        assert c !in Failing(o, []);
      }
    }
  }

  // ---------------------------------------------------------------------------------------------
  // Re-sync
  // ---------------------------------------------------------------------------------------------

  datatype Lock = Acquired | Busy | LockFailed

  datatype Report = Report(projects: nat, failed: nat)

  function Failures(ids: seq<Id>, pushed: set<Id>): nat {
    if ids == [] then 0 else Failures(ids[..|ids| - 1], pushed) + if ids[|ids| - 1] in pushed then 0 else 1
  }

  lemma {:induction false} NoFailures(ids: seq<Id>, pushed: set<Id>)
    ensures Failures(ids, pushed) == 0 <==> forall id :: id in ids ==> id in pushed
  {
    if ids != [] {
      var rest, last := ids[..|ids| - 1], ids[|ids| - 1];
      NoFailures(rest, pushed);
      assert ids == rest + [last];
    }
  }

  /** The failures are the projects listed whose push did not succeed, each as often as it is listed. */
  lemma {:induction false} FailuresAre(ids: seq<Id>, pushed: set<Id>)
    ensures Failures(ids, pushed) == |FailedAt(ids, pushed)|
  {
    if ids != [] {
      var n := |ids| - 1;
      FailuresAre(ids[..n], pushed);
      assert forall i :: 0 <= i < n ==> ids[..n][i] == ids[i];
      assert FailedAt(ids, pushed) == FailedAt(ids[..n], pushed) + if ids[n] in pushed then {} else {n};
    }
  }

  function FailedAt(ids: seq<Id>, pushed: set<Id>): set<int> { set i | 0 <= i < |ids| && ids[i] !in pushed }

  /** The projects reached before the context is cancelled, at the `cancelled`-th one. */
  function Reached(ids: seq<Id>, cancelled: nat): seq<Id> { if |ids| <= cancelled then ids else ids[..cancelled] }

  /** What a re-sync answers; `pushed` are the projects whose push succeeds. */
  predicate ResyncAnswer(lock: Lock, list: Option<seq<Id>>, pushed: set<Id>, cancelled: nat, report: Report, ok: bool) {
    if lock.Acquired? && list.Some? then
      && ok == (|list.value| <= cancelled)
      && report == Report(|Reached(list.value, cancelled)|, Failures(Reached(list.value, cancelled), pushed))
    else ok == lock.Busy? && report == Report(0, 0)
  }

  method Resync(lock: Lock, list: Option<seq<Id>>, pushed: set<Id>, cancelled: nat) returns (report: Report, ok: bool)
    ensures ResyncAnswer(lock, list, pushed, cancelled, report, ok)
    ensures ok <==> lock.Busy? || (lock.Acquired? && list.Some? && |list.value| <= cancelled)
    ensures report.projects == if lock.Acquired? && list.Some? then Min(|list.value|, cancelled) else 0
  {
    report := Report(0, 0);
    if lock.LockFailed? { return report, false; }
    if lock.Busy? { return report, true; }
    if list.None? { return report, false; }
    var ids := list.value;
    var i := 0;
    while i < |ids|
      invariant i <= |ids| && i <= cancelled
      invariant report == Report(i, Failures(ids[..i], pushed))
    {
      if i == cancelled { return report, false; }
      assert ids[..i + 1][..i] == ids[..i];
      report := report.(projects := report.projects + 1);
      if ids[i] !in pushed { report := report.(failed := report.failed + 1); }
      i := i + 1;
    }
    assert ids[..|ids|] == ids;
    return report, true;
  }
}
