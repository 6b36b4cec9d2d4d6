/**
 The audit event of one request: what the authentication and the handlers report, the row stored as
 attempted, and the outcome written when the route returns. Any write may fail, storing nothing.
*/
module AuditRecord {
  import opened Wrappers

  datatype Status = Unset | Attempted | Success | Failed

  datatype Event = Event(user: Option<string>, auth: Option<string>,
                         organization: Option<string>, project: Option<string>, resource: Option<string>,
                         status: Status, code: Option<int>, completed: Option<nat>)

  /**
   The empty string stands for the nil UUID. A user is `None` when its ID does not parse; `works` is the
   outcome of the write.
  */
  datatype Call =
    | Begin(user: Option<string>, auth: string, works: bool)
    | SetResource(id: string)
    | ClearResource
    | SetOrganization(id: string)
    | SetProject(id: string)
    | Fail

  /** The record of the request, and the rows it stored. */
  datatype State = State(event: Event, begun: bool, failed: bool, rows: seq<Event>)

  function Started(s: State, user: string, auth: string, works: bool): State {
    var event := s.event.(user := Some(user), auth := Some(auth), status := Attempted);
    if works then s.(event := event, begun := true, rows := s.rows + [event]) else s.(event := event)
  }

  function Called(s: State, c: Call): State {
    match c
    case Begin(user, auth, works) => if user.None? || s.begun then s else Started(s, user.value, auth, works)
    case SetResource(id) => if id == "" then s else s.(event := s.event.(resource := Some(id)))
    case ClearResource => s.(event := s.event.(resource := None))
    case SetOrganization(id) => if id == "" then s else s.(event := s.event.(organization := Some(id)))
    case SetProject(id) => if id == "" then s else s.(event := s.event.(project := Some(id)))
    case Fail => s.(failed := true)
  }

  function Kept<T>(reported: Option<T>, stored: Option<T>): Option<T> { if reported.Some? then reported else stored }

  /** `Finalize`: what is not reported is left as stored. */
  function Finalized(row: Event, event: Event, status: Status, code: int, now: nat): Event {
    Event(row.user, row.auth, Kept(event.organization, row.organization), Kept(event.project, row.project),
          Kept(event.resource, row.resource), status, Some(code), Some(now))
  }

  function Outcome(s: State, code: int): Status { if code >= 400 || s.failed then Failed else Success }

  /** The stored row is the last one of the request. */
  function Completed(s: State, code: int, now: nat, works: bool): seq<Event> {
    if s.event.user.None? || !works then s.rows
    else if s.begun && s.rows != [] then
      s.rows[|s.rows| - 1 := Finalized(s.rows[|s.rows| - 1], s.event, Outcome(s, code), code, now)]
    else s.rows + [s.event.(status := Outcome(s, code), code := Some(code), completed := Some(now))]
  }

  class Record {
    var event: Event
    var begun: bool
    var failed: bool
    /** The rows stored for the request. */
    var rows: seq<Event>

    predicate Valid() reads this { begun ==> rows != [] }

    function Abstract(): State reads this { State(event, begun, failed, rows) }

    constructor (event: Event)
      ensures Valid() && Abstract() == State(event, false, false, [])
    {
      this.event, begun, failed, rows := event, false, false, [];
    }

    method BeginFor(user: Option<string>, auth: string, works: bool)
      requires Valid()
      modifies this
      ensures Valid() && Abstract() == Called(old(Abstract()), Begin(user, auth, works))
    {
      if user.None? { return; }
      if begun { return; }
      event := event.(user := Some(user.value), auth := Some(auth), status := Attempted);
      if !works { return; }
      rows, begun := rows + [event], true;
    }

    method ReportResource(id: string)
      requires Valid()
      modifies this`event
      ensures Valid() && Abstract() == Called(old(Abstract()), SetResource(id))
    {
      if id != "" { event := event.(resource := Some(id)); }
    }

    method DropResource()
      requires Valid()
      modifies this`event
      ensures Valid() && Abstract() == Called(old(Abstract()), ClearResource)
    {
      event := event.(resource := None);
    }

    method ReportOrganization(id: string)
      requires Valid()
      modifies this`event
      ensures Valid() && Abstract() == Called(old(Abstract()), SetOrganization(id))
    {
      if id != "" { event := event.(organization := Some(id)); }
    }

    method ReportProject(id: string)
      requires Valid()
      modifies this`event
      ensures Valid() && Abstract() == Called(old(Abstract()), SetProject(id))
    {
      if id != "" { event := event.(project := Some(id)); }
    }

    method ReportFailure()
      requires Valid()
      modifies this`failed
      ensures Valid() && Abstract() == Called(old(Abstract()), Fail)
    {
      failed := true;
    }

    method Complete(code: int, now: nat, works: bool)
      requires Valid()
      modifies this
      ensures rows == Completed(old(Abstract()), code, now, works)
    {
      if event.user.None? { return; }
      var status := Success;
      if code >= 400 || failed { status := Failed; }
      if begun {
        if works {
          var last := |rows| - 1;
          rows := rows[last := Finalized(rows[last], event, status, code, now)];
        }
      } else {
        event := event.(status := status, code := Some(code), completed := Some(now));
        if works { rows := rows + [event]; }
      }
    }
  }

  // ---------------------------------------------------------------------------------------------
  // Whole requests
  // ---------------------------------------------------------------------------------------------

  function After(event: Event, calls: seq<Call>): State {
    if calls == [] then State(event, false, false, [])
    else Called(After(event, calls[..|calls| - 1]), calls[|calls| - 1])
  }

  /** A user was authenticated. */
  predicate Authenticated(calls: seq<Call>) { exists c :: c in calls && c.Begin? && c.user.Some? }

  /** The call that stored the row as attempted: the first one with a user whose write worked. */
  function Storing(calls: seq<Call>): (k: Option<nat>)
    ensures k.Some? ==> k.value < |calls| && calls[k.value].Begin? && calls[k.value].user.Some? && calls[k.value].works
  {
    if calls == [] then None
    else
      var (n, c) := (|calls| - 1, calls[|calls| - 1]);
      if Storing(calls[..n]).Some? then Storing(calls[..n])
      else if c.Begin? && c.user.Some? && c.works then Some(n)
      else None
  }

  /** The resource reported, after some calls. */
  function ResourceAt(initial: Option<string>, calls: seq<Call>): Option<string> {
    if calls == [] then initial
    else
      match calls[|calls| - 1]
      case SetResource(id) => if id == "" then ResourceAt(initial, calls[..|calls| - 1]) else Some(id)
      case ClearResource => None
      case _ => ResourceAt(initial, calls[..|calls| - 1])
  }

  /** The organization reported, after some calls. */
  function OrganizationAt(initial: Option<string>, calls: seq<Call>): Option<string> {
    if calls == [] then initial
    else
      match calls[|calls| - 1]
      case SetOrganization(id) => if id == "" then OrganizationAt(initial, calls[..|calls| - 1]) else Some(id)
      case _ => OrganizationAt(initial, calls[..|calls| - 1])
  }

  /** The project reported, after some calls. */
  function ProjectAt(initial: Option<string>, calls: seq<Call>): Option<string> {
    if calls == [] then initial
    else
      match calls[|calls| - 1]
      case SetProject(id) => if id == "" then ProjectAt(initial, calls[..|calls| - 1]) else Some(id)
      case _ => ProjectAt(initial, calls[..|calls| - 1])
  }

  lemma {:induction false} ReportedAfter(event: Event, calls: seq<Call>)
    ensures var s := After(event, calls).event;
      && s.resource == ResourceAt(event.resource, calls)
      && s.organization == OrganizationAt(event.organization, calls)
      && s.project == ProjectAt(event.project, calls)
  {
    if calls != [] { ReportedAfter(event, calls[..|calls| - 1]); }
  }

  lemma {:induction false} UserAfter(event: Event, calls: seq<Call>)
    requires event.user == None
    ensures var s := After(event, calls);
      && (s.event.user.Some? <==> Authenticated(calls))
      && (s.begun ==> s.event.user.Some?)
  {
    if calls != [] {
      var rest, c := calls[..|calls| - 1], calls[|calls| - 1];
      UserAfter(event, rest);
      assert calls == rest + [c];
      assert Authenticated(calls) <==> Authenticated(rest) || (c.Begin? && c.user.Some?);
    }
  }

  lemma {:induction false} FailedAfter(event: Event, calls: seq<Call>)
    ensures After(event, calls).failed <==> Fail in calls
  {
    if calls != [] {
      var rest, c := calls[..|calls| - 1], calls[|calls| - 1];
      FailedAfter(event, rest);
      assert calls == rest + [c];
    }
  }

  lemma {:induction false} StateAfter(event: Event, calls: seq<Call>)
    requires event.user == None
    ensures var s := After(event, calls);
      && (s.failed <==> Fail in calls)
      && (s.event.user.Some? <==> Authenticated(calls))
      && (s.begun <==> Storing(calls).Some?)
      && |s.rows| == (if s.begun then 1 else 0)
      && (s.begun ==> s.event.user.Some?)
  {
    FailedAfter(event, calls);
    UserAfter(event, calls);
    hide Authenticated;
    if calls != [] { StateAfter(event, calls[..|calls| - 1]); }
  }

  lemma BegunStays(s: State, c: Call)
    requires s.begun
    ensures Called(s, c).rows == s.rows && Called(s, c).event.user == s.event.user
  {
  }

  /** The row stored as attempted is the event as it was reported until then. */
  lemma {:induction false} RowAfter(event: Event, calls: seq<Call>)
    requires event.user == None
    ensures var (s, k) := (After(event, calls), Storing(calls));
      k.Some? ==>
        && var (before, c) := (After(event, calls[..k.value]), calls[k.value]);
        && s.rows == [Started(before, c.user.value, c.auth, true).event]
        && s.event.user == calls[k.value].user
  {
    hide Authenticated;
    if calls != [] {
      var rest, c := calls[..|calls| - 1], calls[|calls| - 1];
      var before := After(event, rest);
      RowAfter(event, rest);
      StateAfter(event, rest);
      assert After(event, calls) == Called(before, c);
      if Storing(rest).Some? {
        var k := Storing(rest).value;
        assert Storing(calls) == Some(k) && rest[..k] == calls[..k] && rest[k] == calls[k];
        BegunStays(before, c);
        hide Called, Started;
      } else if Storing(calls).Some? {
        assert Storing(calls).value == |rest| && before.rows == [];
      }
    }
  }

  /**
   Whatever the calls and the failing writes, a request stores at most one row, and none without a
   user. A working final write leaves exactly one for a user, failed exactly when the code is at
   least 400 or a failure was reported.
  */
  lemma OneRowPerRequest(event: Event, calls: seq<Call>, code: int, now: nat, works: bool)
    requires event.user == None
    ensures var rows := Completed(After(event, calls), code, now, works);
      && |rows| <= 1
      && (rows != [] ==> Authenticated(calls))
      && (Authenticated(calls) && works ==> |rows| == 1)
      && (rows != [] && works ==>
            rows[0].code == Some(code) && rows[0].status == if code >= 400 || Fail in calls then Failed else Success)
      && (rows != [] && !works ==> Storing(calls).Some? && rows[0].status == Attempted)
  {
    StateAfter(event, calls);
    RowAfter(event, calls);
  }

  /** The final row carries the organization and the project reported last, and the user whose row was stored first. */
  lemma FinalRow(event: Event, calls: seq<Call>, code: int, now: nat)
    requires event.user == None && Authenticated(calls)
    ensures forall row :: row in Completed(After(event, calls), code, now, true) ==>
      && row.organization == OrganizationAt(event.organization, calls)
      && row.project == ProjectAt(event.project, calls)
      && (Storing(calls).Some? ==> row.user == calls[Storing(calls).value].user)
  {
    hide After;
    StateAfter(event, calls);
    ReportedAfter(event, calls);
    RowAfter(event, calls);
    if Storing(calls).Some? {
      var k := Storing(calls).value;
      ReportedAfter(event, calls[..k]);
      if OrganizationAt(event.organization, calls[..k]).Some? { ReportedStays(event, calls, k); }
      if ProjectAt(event.project, calls[..k]).Some? { ReportedStays(event, calls, k); }
    }
  }

  /** A reported organization or project is never dropped. */
  lemma {:induction false} ReportedStays(event: Event, calls: seq<Call>, k: nat)
    requires k <= |calls|
    ensures OrganizationAt(event.organization, calls[..k]).Some? ==> OrganizationAt(event.organization, calls).Some?
    ensures ProjectAt(event.project, calls[..k]).Some? ==> ProjectAt(event.project, calls).Some?
  {
    if k == |calls| {
      assert calls[..k] == calls;
    } else {
      var n := |calls| - 1;
      assert calls[..n][..k] == calls[..k];
      ReportedStays(event, calls[..n], k);
    }
  }

  /** Who the request is stored for: the user of the call that stored the row, or else the last one authenticated. */
  function Identity(calls: seq<Call>): Option<(string, string)> {
    if calls == [] then None
    else
      var (rest, c) := (calls[..|calls| - 1], calls[|calls| - 1]);
      if Storing(rest).None? && c.Begin? && c.user.Some? then Some((c.user.value, c.auth)) else Identity(rest)
  }

  predicate IsFor(event: Event, identity: Option<(string, string)>) {
    match identity
    case Some((user, auth)) => event.user == Some(user) && event.auth == Some(auth)
    case None => event.user == None && event.auth == None
  }

  lemma {:induction false} IdentityAfter(event: Event, calls: seq<Call>)
    requires IsFor(event, None)
    ensures var s := After(event, calls);
      && IsFor(s.event, Identity(calls)) && (forall row :: row in s.rows ==> IsFor(row, Identity(calls)))
      && s.event.code == event.code && s.event.completed == event.completed
  {
    if calls != [] {
      IdentityAfter(event, calls[..|calls| - 1]);
      StateAfter(event, calls[..|calls| - 1]);
    }
  }

  /** The final row is for that user, with the code and the time of the end of the request. */
  lemma FinalIdentity(event: Event, calls: seq<Call>, code: int, now: nat)
    requires IsFor(event, None)
    ensures forall row :: row in Completed(After(event, calls), code, now, true) ==>
      IsFor(row, Identity(calls)) && row.code == Some(code) && row.completed == Some(now)
  {
    hide After, Identity, Storing;
    StateAfter(event, calls);
    IdentityAfter(event, calls);
    var s := After(event, calls);
    assert s.rows != [] ==> s.rows[0] in s.rows;
  }

  /** What was stored as attempted is what had been reported by then. */
  lemma AttemptedRow(event: Event, calls: seq<Call>)
    requires IsFor(event, None) && Storing(calls).Some?
    ensures var (k, rows) := (Storing(calls).value, After(event, calls).rows);
      && |rows| == 1
      && rows[0] == Event(calls[k].user, Some(calls[k].auth), OrganizationAt(event.organization, calls[..k]),
                          ProjectAt(event.project, calls[..k]), ResourceAt(event.resource, calls[..k]), Attempted,
                          event.code, event.completed)
  {
    hide After, Identity, OrganizationAt, ProjectAt, ResourceAt;
    RowAfter(event, calls);
    ReportedAfter(event, calls[..Storing(calls).value]);
    IdentityAfter(event, calls[..Storing(calls).value]);
  }

  /** The resource was dropped after the row was stored with one. */
  predicate DroppedAfterStored(initial: Option<string>, calls: seq<Call>) {
    && ResourceAt(initial, calls).None?
    && Storing(calls).Some?
    && ResourceAt(initial, calls[..Storing(calls).value]).Some?
  }

  /**
   The final row carries the resource reported last, except one that was dropped after the row was
   stored with a resource: it keeps the stored one.
  */
  lemma FinalResourceIff(event: Event, calls: seq<Call>, code: int, now: nat)
    requires event.user == None && Authenticated(calls)
    ensures forall row :: row in Completed(After(event, calls), code, now, true) ==>
      (row.resource == ResourceAt(event.resource, calls) <==> !DroppedAfterStored(event.resource, calls))
  {
    hide After;
    StateAfter(event, calls);
    ReportedAfter(event, calls);
    RowAfter(event, calls);
    if Storing(calls).Some? { ReportedAfter(event, calls[..Storing(calls).value]); }
  }

  /**
   A creation rolled back on a route whose URL carries a resource: the row stored when the user was
   authenticated keeps the resource of the URL, which the handler replaced and then dropped.
  */
  lemma DroppedResourceStays(event: Event, url: string, user: string, auth: string, id: string, code: int, now: nat)
    requires event.user == None && event.resource == Some(url) && id != ""
    ensures var calls := [Begin(Some(user), auth, true), SetResource(id), ClearResource];
      && ResourceAt(event.resource, calls) == None
      && (var rows := Completed(After(event, calls), code, now, true); |rows| == 1 && rows[0].resource == Some(url))
  {
    var a, b, c := Begin(Some(user), auth, true), SetResource(id), ClearResource;
    assert [a, b, c][..2] == [a, b] && [a, b][..1] == [a] && [a][..0] == [];
    assert After(event, [a]) == Called(After(event, []), a);
    assert After(event, [a, b]) == Called(After(event, [a]), b);
  }

  /** Without a resource in the URL, the same creation leaves none. */
  lemma DroppedResourceLeavesNone(event: Event, user: string, auth: string, id: string, code: int, now: nat)
    requires event.user == None && event.resource == None && id != ""
    ensures var calls := [Begin(Some(user), auth, true), SetResource(id), ClearResource];
      forall row :: row in Completed(After(event, calls), code, now, true) ==> row.resource == None
  {
    var a, b, c := Begin(Some(user), auth, true), SetResource(id), ClearResource;
    assert [a, b, c][..2] == [a, b] && [a, b][..1] == [a] && [a][..0] == [];
    assert After(event, [a]) == Called(After(event, []), a);
    assert After(event, [a, b]) == Called(After(event, [a]), b);
  }
}
