/**
 The periodic sync of the Argo CD Applications of a cluster: when it is due, when a sync in progress
 is aborted, what is sent to Argo CD, and when the time of the sync is recorded.

 Times are in nanoseconds, the zero time being 0. Each listing is a view of its own, since the
 Applications change between two reads.
*/
module PeriodicSync {
  import opened Wrappers

  /** An Application as read; `started` is `None` when the start of its operation does not parse. */
  datatype App = App(name: string, running: bool, started: Option<nat>)

  /** One attempt to change an Application. */
  datatype Action = Terminate(name: string) | ClearOperation(name: string) | Trigger(name: string, forced: bool)

  /** The sub-applications, unless listing them fails, and the root one, unless fetching it fails. */
  datatype View = View(subs: Option<seq<App>>, root: Option<App>)

  /** `listAllApplications`. */
  function Listed(v: View): Option<seq<App>> {
    match v.subs
    case None => None
    case Some(subs) => Some(subs + if v.root.Some? then [v.root.value] else [])
  }

  // ---------------------------------------------------------------------------------------------
  // Progress
  // ---------------------------------------------------------------------------------------------

  /** When an operation, read at a clock, counts as started. */
  function StartOf(app: App, clock: nat): nat { if app.started.Some? then app.started.value else clock }

  /** The starts of the running operations; one that does not parse counts as the clock at which it is read. */
  function Starts(apps: seq<App>, clock: seq<nat>): seq<nat>
    requires |clock| == |apps|
  {
    if apps == [] then []
    else
      var (n, last) := (|apps| - 1, apps[|apps| - 1]);
      Starts(apps[..n], clock[..n]) + if last.running then [StartOf(last, clock[n])] else []
  }

  /** The scan for the oldest start, which takes the zero time for "none yet". */
  function Oldest(starts: seq<nat>): nat {
    if starts == [] then 0
    else
      var (before, s) := (Oldest(starts[..|starts| - 1]), starts[|starts| - 1]);
      if before == 0 || s < before then s else before
  }

  lemma StartsSnoc(apps: seq<App>, clock: seq<nat>, i: nat)
    requires |clock| == |apps| && i < |apps|
    ensures var started := StartOf(apps[i], clock[i]);
      var before := Starts(apps[..i], clock[..i]);
      Starts(apps[..i + 1], clock[..i + 1]) == if apps[i].running then before + [started] else before
  {
    assert apps[..i + 1][..i] == apps[..i] && clock[..i + 1][..i] == clock[..i];
  }

  lemma NoStarts()
    ensures Starts([], []) == [] && Oldest([]) == 0
  {
  }

  lemma OldestSnoc(starts: seq<nat>, s: nat)
    ensures Oldest(starts + [s]) == if Oldest(starts) == 0 || s < Oldest(starts) then s else Oldest(starts)
  {
    assert (starts + [s])[..|starts|] == starts;
  }

  method SyncInProgress(v: View, clock: seq<nat>) returns (ok: bool, inProgress: bool, oldest: nat)
    requires Listed(v).Some? ==> |clock| == |Listed(v).value|
    ensures ok == Listed(v).Some?
    ensures ok ==> inProgress == (Starts(Listed(v).value, clock) != [])
    ensures ok ==> oldest == Oldest(Starts(Listed(v).value, clock))
  {
    hide Starts, Oldest;
    assert Starts([], []) == [] && Oldest([]) == 0 by { NoStarts(); }
    ok, inProgress, oldest := v.subs.Some?, false, 0;
    if !ok { return; }
    var apps := v.subs.value;
    if v.root.Some? { apps := apps + [v.root.value]; } else { assert apps + [] == apps; }
    for i := 0 to |apps|
      invariant inProgress == (Starts(apps[..i], clock[..i]) != []) && oldest == Oldest(Starts(apps[..i], clock[..i]))
    {
      StartsSnoc(apps, clock, i);
      if !apps[i].running { continue; }
      inProgress := true;
      var started := if apps[i].started.Some? then apps[i].started.value else clock[i];
      OldestSnoc(Starts(apps[..i], clock[..i]), started);
      if oldest == 0 || started < oldest { oldest := started; }
    }
    assert apps[..|apps|] == apps && clock[..|apps|] == clock;
  }

  /** Something runs exactly when some Application does. */
  lemma {:induction false} StartsOfRunning(apps: seq<App>, clock: seq<nat>)
    requires |clock| == |apps|
    ensures Starts(apps, clock) != [] <==> exists a :: a in apps && a.running
    ensures forall s :: s in Starts(apps, clock) ==>
      exists i :: 0 <= i < |apps| && apps[i].running && s == StartOf(apps[i], clock[i])
  {
    if apps != [] {
      var n := |apps| - 1;
      StartsOfRunning(apps[..n], clock[..n]);
      assert apps == apps[..n] + [apps[n]];
      forall s | s in Starts(apps, clock)
        ensures exists i :: 0 <= i < |apps| && apps[i].running && s == StartOf(apps[i], clock[i])
      {
        if s in Starts(apps[..n], clock[..n]) {
          var i :| 0 <= i < n && apps[..n][i].running && s == StartOf(apps[..n][i], clock[..n][i]);
          assert apps[i] == apps[..n][i];
        } else {
          assert apps[n].running;
        }
      }
    }
  }

  predicate IsMinimum(m: nat, starts: seq<nat>) { m in starts && forall s :: s in starts ==> m <= s }

  /** The scan gives one of the starts, never an older one than the oldest. */
  lemma {:induction false} OldestBounds(starts: seq<nat>)
    requires starts != []
    ensures Oldest(starts) in starts
    ensures 0 !in starts ==> IsMinimum(Oldest(starts), starts)
    ensures Oldest(starts) == 0 <==> starts[|starts| - 1] == 0
  {
    var n := |starts| - 1;
    assert starts == starts[..n] + [starts[n]];
    if n > 0 {
      OldestBounds(starts[..n]);
      if 0 in starts[..n] { assert 0 in starts; }
    }
  }

  /** The scan gives the oldest start exactly when a zero start, if there is one, is also the last. */
  lemma OldestIsMinimumIff(starts: seq<nat>)
    requires starts != []
    ensures IsMinimum(Oldest(starts), starts) <==> (0 in starts ==> starts[|starts| - 1] == 0)
  {
    OldestBounds(starts);
    if IsMinimum(Oldest(starts), starts) && 0 in starts { assert Oldest(starts) <= 0; }
  }

  /** Reading an Application a second time, later, changes nothing. */
  lemma OldestReadTwice(starts: seq<nat>, s: nat, again: nat)
    requires 0 !in starts && s in starts && s <= again
    ensures Oldest(starts + [again]) == Oldest(starts)
  {
    OldestBounds(starts);
    assert (starts + [again])[..|starts|] == starts;
  }

  // ---------------------------------------------------------------------------------------------
  // Actions
  // ---------------------------------------------------------------------------------------------

  /** The aborts, for a listing of which the positions in `refused` cannot be terminated. */
  function Aborts(apps: seq<App>, refused: set<nat>): seq<Action> {
    if apps == [] then []
    else
      var (n, last) := (|apps| - 1, apps[|apps| - 1]);
      Aborts(apps[..n], refused) + if !last.running then []
        else if n in refused then [Terminate(last.name)]
        else [Terminate(last.name), ClearOperation(last.name)]
  }

  function Triggers(apps: seq<App>, force: bool): seq<Action> {
    if apps == [] then []
    else
      var (n, last) := (|apps| - 1, apps[|apps| - 1]);
      Triggers(apps[..n], force) + if !force && last.running then [] else [Trigger(last.name, force)]
  }

  lemma TriggersSnoc(apps: seq<App>, force: bool, i: nat)
    requires i < |apps|
    ensures Triggers(apps[..i + 1], force) == Triggers(apps[..i], force) + Triggers([apps[i]], force)
    ensures Triggers([apps[i]], force) == if !force && apps[i].running then [] else [Trigger(apps[i].name, force)]
  {
    assert apps[..i + 1][..i] == apps[..i] && [apps[i]][..0] == [];
  }

  /** The views one run reads, in this order, and the clock at its checks. */
  datatype Run = Run(due: nat, first: View, clock: seq<nat>, checked: nat, aborted: View, refused: set<nat>,
      triggered: View)

  /** `syncSubApplications` triggers the root first. */
  function SyncActions(v: View, force: bool): seq<Action> {
    (if v.root.Some? then Triggers([v.root.value], force) else [])
    + (if v.subs.Some? then Triggers(v.subs.value, force) else [])
  }

  predicate Recent(last: Option<nat>, r: Run, period: int) { last.Some? && r.due - last.value < period }

  /** Whether the run triggers, and whether it does so after an abort. */
  datatype Decision = Skip | Sync | Restart

  function Decide(last: Option<nat>, r: Run, period: int, timeout: int): Decision
    requires Readable(r)
  {
    if Recent(last, r, period) || Listed(r.first).None? then Skip
    else
      var starts := Starts(Listed(r.first).value, r.clock);
      if starts == [] then Sync
      else if r.checked - Oldest(starts) < timeout || Listed(r.aborted).None? then Skip
      else Restart
  }

  /** The clock is read once for each Application of the first view. */
  predicate Readable(r: Run) { Listed(r.first).Some? ==> |r.clock| == |Listed(r.first).value| }

  function Actions(last: Option<nat>, r: Run, period: int, timeout: int): seq<Action>
    requires Readable(r)
  {
    match Decide(last, r, period, timeout)
    case Skip => []
    case Sync => SyncActions(r.triggered, false)
    case Restart => Aborts(Listed(r.aborted).value, r.refused) + SyncActions(r.triggered, true)
  }

  // ---------------------------------------------------------------------------------------------
  // Reconciles
  // ---------------------------------------------------------------------------------------------

  const SECOND: nat := 1_000_000_000

  /** A stored time keeps its whole seconds. */
  function Truncated(t: nat): nat { (t / SECOND) * SECOND }

  /**
   The tail of a reconcile: whether its status is patched, what it found, its run, and the clock and
   the outcome of the second patch, which records the sync.
  */
  datatype Tail = Tail(patched: bool, paused: bool, manual: bool, failed: bool, ready: bool, run: Run, ended: nat,
      saved: bool)

  predicate Eligible(t: Tail) { t.patched && !t.paused && !t.manual && (!t.failed || !t.ready) }

  predicate Records(last: Option<nat>, t: Tail, period: int, timeout: int)
    requires Readable(t.run)
  {
    Eligible(t) && t.saved && !Decide(last, t.run, period, timeout).Skip?
  }

  function StoredAfter(last: Option<nat>, t: Tail, period: int, timeout: int): Option<nat>
    requires Readable(t.run)
  {
    if Records(last, t, period, timeout) then Some(Truncated(t.ended)) else last
  }

  class Syncer {
    const period: int
    const timeout: int
    /** What was sent to Argo CD. */
    var sent: seq<Action>
    /** `status.lastSync`, as stored. */
    var lastSync: Option<nat>

    constructor (period: int, timeout: int)
      ensures this.period == period && this.timeout == timeout && sent == [] && lastSync == None
    {
      this.period, this.timeout, sent, lastSync := period, timeout, [], None;
    }

    method TriggerApplicationSync(app: App, force: bool)
      modifies this`sent
      ensures sent == old(sent) + if !force && app.running then [] else [Trigger(app.name, force)]
    {
      if !force {
        if app.running { return; }
      }
      sent := sent + [Trigger(app.name, force)];
    }

    method SyncSubApplications(v: View, force: bool)
      modifies this`sent
      ensures sent == old(sent) + SyncActions(v, force)
    {
      if v.root.Some? {
        TriggersSnoc([v.root.value], force, 0);
        assert [v.root.value][..1] == [v.root.value];
        TriggerApplicationSync(v.root.value, force);
      }
      if v.subs.Some? { TriggerEach(v.subs.value, force); }
    }

    method TriggerEach(apps: seq<App>, force: bool)
      modifies this`sent
      ensures sent == old(sent) + Triggers(apps, force)
    {
      for i := 0 to |apps|
        invariant sent == old(sent) + Triggers(apps[..i], force)
      {
        TriggersSnoc(apps, force, i);
        TriggerApplicationSync(apps[i], force);
      }
      assert apps[..|apps|] == apps;
    }

    method AbortInProgressSyncs(v: View, refused: set<nat>) returns (ok: bool)
      modifies this`sent
      ensures ok == Listed(v).Some?
      ensures sent == old(sent) + if ok then Aborts(Listed(v).value, refused) else []
    {
      if v.subs.None? { return false; }
      var apps := v.subs.value;
      if v.root.Some? { apps := apps + [v.root.value]; } else { assert apps + [] == apps; }
      for i := 0 to |apps|
        invariant sent == old(sent) + Aborts(apps[..i], refused)
      {
        assert apps[..i + 1][..i] == apps[..i];
        if !apps[i].running { continue; }
        sent := sent + [Terminate(apps[i].name)];
        if i in refused { continue; }
        sent := sent + [ClearOperation(apps[i].name)];
      }
      assert apps[..|apps|] == apps;
      return true;
    }

    method RunPeriodicSync(r: Run) returns (triggered: bool)
      requires Readable(r)
      modifies this`sent
      ensures triggered == !Decide(lastSync, r, period, timeout).Skip?
      ensures sent == old(sent) + Actions(lastSync, r, period, timeout)
    {
      if lastSync.Some? && r.due - lastSync.value < period { return false; }
      var ok, inProgress, oldest := SyncInProgress(r.first, r.clock);
      if !ok { return false; }
      var force := false;
      if inProgress {
        if r.checked - oldest < timeout { return false; }
        var aborted := AbortInProgressSyncs(r.aborted, r.refused);
        if !aborted { return false; }
        force := true;
      }
      SyncSubApplications(r.triggered, force);
      return true;
    }

    /** The tail of a reconcile. */
    method Finish(t: Tail) returns (recorded: bool)
      requires Readable(t.run)
      modifies this
      ensures lastSync == StoredAfter(old(lastSync), t, period, timeout)
      ensures recorded == Records(old(lastSync), t, period, timeout)
      ensures sent == old(sent) + if Eligible(t) then Actions(old(lastSync), t.run, period, timeout) else []
      ensures !t.patched || t.paused || t.manual || (t.failed && t.ready) ==>
        sent == old(sent) && lastSync == old(lastSync)
    {
      recorded := false;
      if !t.patched { return; }
      if !t.paused && !t.manual && (!t.failed || !t.ready) {
        var triggered := RunPeriodicSync(t.run);
        if triggered && t.saved {
          lastSync, recorded := Some(Truncated(t.ended)), true;
        }
      }
    }
  }

  // ---------------------------------------------------------------------------------------------
  // When and what
  // ---------------------------------------------------------------------------------------------

  /** When a running Application counts as started. */
  function StartAt(apps: seq<App>, clock: seq<nat>, i: nat): nat
    requires |clock| == |apps| && i < |apps|
  {
    StartOf(apps[i], clock[i])
  }

  lemma {:induction false} StartIn(apps: seq<App>, clock: seq<nat>, i: nat)
    requires |clock| == |apps| && i < |apps| && apps[i].running
    ensures StartAt(apps, clock, i) in Starts(apps, clock)
  {
    var n := |apps| - 1;
    if i < n { StartIn(apps[..n], clock[..n], i); }
  }

  /** Some running Application of the first view has been running for at least the timeout. */
  predicate Overdue(r: Run, timeout: int)
    requires Readable(r) && Listed(r.first).Some?
  {
    var apps := Listed(r.first).value;
    exists i :: 0 <= i < |apps| && apps[i].running && r.checked - StartAt(apps, r.clock, i) >= timeout
  }

  /** A restart is only decided when some operation is overdue, and always is when no start is the zero time. */
  lemma RestartsWhenOverdue(last: Option<nat>, r: Run, period: int, timeout: int)
    requires Readable(r)
    ensures Decide(last, r, period, timeout).Restart? ==>
      Listed(r.first).Some? && Listed(r.aborted).Some? && !Recent(last, r, period) && Overdue(r, timeout)
    ensures Listed(r.first).Some? && 0 !in Starts(Listed(r.first).value, r.clock) ==>
      (Decide(last, r, period, timeout).Restart? <==>
        Listed(r.aborted).Some? && !Recent(last, r, period) && Overdue(r, timeout))
  {
    if Listed(r.first).Some? {
      var apps := Listed(r.first).value;
      var starts := Starts(apps, r.clock);
      StartsOfRunning(apps, r.clock);
      if starts != [] { OldestBounds(starts); }
      if Overdue(r, timeout) {
        var i :| 0 <= i < |apps| && apps[i].running && r.checked - StartAt(apps, r.clock, i) >= timeout;
        StartIn(apps, r.clock, i);
      }
      if Decide(last, r, period, timeout).Restart? {
        var oldest := Oldest(starts);
        var i :| 0 <= i < |apps| && apps[i].running && oldest == StartOf(apps[i], r.clock[i]);
        assert r.checked - StartAt(apps, r.clock, i) >= timeout;
      }
    }
  }

  /** The Application is listed, as a sub-application or as the root one. */
  predicate IsListed(v: View, a: App) { (v.subs.Some? && a in v.subs.value) || Some(a) == v.root }

  /**
   A run triggers without a restart exactly when it is due, the Applications could be listed, and none of them
   runs an operation.
  */
  lemma SyncsWhenIdle(last: Option<nat>, r: Run, period: int, timeout: int)
    requires Readable(r)
    ensures Decide(last, r, period, timeout).Sync? <==>
      && (last.None? || r.due - last.value >= period)
      && r.first.subs.Some?
      && forall a :: IsListed(r.first, a) ==> !a.running
  {
    if r.first.subs.Some? {
      var apps := Listed(r.first).value;
      StartsOfRunning(apps, r.clock);
      forall a ensures a in apps <==> IsListed(r.first, a) { }
    }
  }

  /** The operation has run for the timeout; one whose start does not parse counts as started when it was read. */
  predicate HasRunFor(app: App, readAt: nat, checked: nat, timeout: int) {
    app.running && checked - (match app.started case Some(start) => start case None => readAt) >= timeout
  }

  /**
   When it is due, the Applications can be listed, and no operation started at the zero time, a run restarts
   exactly when some operation has run for the timeout, and they can be listed again.
  */
  lemma RestartsIff(last: Option<nat>, r: Run, period: int, timeout: int)
    requires Readable(r) && r.first.subs.Some? && 0 !in Starts(Listed(r.first).value, r.clock)
    ensures var apps := r.first.subs.value + if r.first.root.Some? then [r.first.root.value] else [];
      && |r.clock| == |apps|
      && (Decide(last, r, period, timeout).Restart? <==>
            && (last.None? || r.due - last.value >= period)
            && r.aborted.subs.Some?
            && exists i :: 0 <= i < |apps| && HasRunFor(apps[i], r.clock[i], r.checked, timeout))
  {
    RestartsWhenOverdue(last, r, period, timeout);
    var apps := Listed(r.first).value;
    hide Starts, Decide;
    if Overdue(r, timeout) {
      var i :| 0 <= i < |apps| && apps[i].running && r.checked - StartAt(apps, r.clock, i) >= timeout;
      assert HasRunFor(apps[i], r.clock[i], r.checked, timeout);
    }
    if i :| 0 <= i < |apps| && HasRunFor(apps[i], r.clock[i], r.checked, timeout) {
      assert r.checked - StartAt(apps, r.clock, i) >= timeout;
    }
  }

  /** Forced triggers, and triggers of idle Applications, are one for each, in order. */
  lemma {:induction false} TriggersInOrder(apps: seq<App>, force: bool)
    requires force || forall a :: a in apps ==> !a.running
    ensures |Triggers(apps, force)| == |apps|
    ensures forall i :: 0 <= i < |apps| ==> Triggers(apps, force)[i] == Trigger(apps[i].name, force)
  {
    if apps != [] {
      var n := |apps| - 1;
      assert forall a :: a in apps[..n] ==> a in apps;
      TriggersInOrder(apps[..n], force);
    }
  }

  /** A stored time is the last whole second before it. */
  lemma TruncatedIs(t: nat)
    ensures Truncated(t) % 1_000_000_000 == 0 && Truncated(t) <= t < Truncated(t) + 1_000_000_000
  {
  }

  /**
   The root Application being among the sub-applications too makes no difference to the decision: its
   second reading, `root`, shows the same operation or a later one, or none any more.
  */
  lemma RootListedTwice(last: Option<nat>, r: Run, i: nat, root: App, again: nat, period: int, timeout: int)
    requires r.first.subs.Some? && r.first.root == None && Readable(r) && i < |r.first.subs.value|
    requires 0 !in Starts(r.first.subs.value, r.clock)
    requires root.running ==>
      r.first.subs.value[i].running && StartAt(r.first.subs.value, r.clock, i) <= StartOf(root, again)
    ensures var twice := r.(first := View(r.first.subs, Some(root)), clock := r.clock + [again]);
      Readable(twice) && Decide(last, twice, period, timeout) == Decide(last, r, period, timeout)
  {
    hide Starts, Oldest;
    var apps := r.first.subs.value;
    assert Listed(r.first).value == apps by { assert apps + [] == apps; }
    var more, clock := apps + [root], r.clock + [again];
    assert more[..|apps|] == apps && more[..|more|] == more && clock[..|apps|] == r.clock && clock[..|more|] == clock;
    StartsSnoc(more, clock, |apps|);
    if root.running {
      StartIn(apps, r.clock, i);
      OldestReadTwice(Starts(apps, r.clock), StartAt(apps, r.clock, i), StartOf(root, again));
    }
  }

  /**
   Nor does it to what an abort sends, when its second termination is not accepted after a first one that was
   refused.
  */
  lemma RootAbortedTwice(subs: seq<App>, root: App, i: nat, refused: set<nat>, a: Action)
    requires i < |subs| && root.name == subs[i].name && (root.running ==> subs[i].running)
    requires i in refused ==> |subs| in refused
    ensures a in Aborts(subs + [root], refused) <==> a in Aborts(subs, refused)
  {
    hide Aborts;
    var all := subs + [root];
    AbortsHit(subs, refused, a);
    AbortsHit(all, refused, a);
    assert all[|subs|] == root && all[i] == subs[i] && forall k :: 0 <= k < |subs| ==> all[k] == subs[k];
  }

  lemma {:induction false} AbortsHit(apps: seq<App>, refused: set<nat>, a: Action)
    ensures a in Aborts(apps, refused) ==> !a.Trigger?
    ensures a.Terminate? ==> (a in Aborts(apps, refused) <==> exists b :: b in apps && b.running && b.name == a.name)
    ensures a.ClearOperation? ==>
      (a in Aborts(apps, refused) <==>
        exists i :: 0 <= i < |apps| && apps[i].running && apps[i].name == a.name && i !in refused)
  {
    if apps != [] {
      var n := |apps| - 1;
      AbortsHit(apps[..n], refused, a);
      assert apps == apps[..n] + [apps[n]];
      if a.ClearOperation? {
        if i :| 0 <= i < |apps| && apps[i].running && apps[i].name == a.name && i !in refused {
          if i < n { assert apps[..n][i] == apps[i]; }
        }
        if a in Aborts(apps[..n], refused) {
          var i :| 0 <= i < n && apps[..n][i].running && apps[..n][i].name == a.name && i !in refused;
          assert apps[i] == apps[..n][i];
        }
      }
    }
  }

  lemma {:induction false} TriggersHit(apps: seq<App>, force: bool, a: Action)
    ensures a in Triggers(apps, force) <==>
      a.Trigger? && a.forced == force && exists b :: b in apps && b.name == a.name && (force || !b.running)
  {
    if apps != [] {
      var n := |apps| - 1;
      TriggersHit(apps[..n], force, a);
      assert apps == apps[..n] + [apps[n]];
    }
  }

  /** The Applications a run triggers: the root one, and the sub-applications. */
  function Triggered(v: View): seq<App> {
    (if v.root.Some? then [v.root.value] else []) + if v.subs.Some? then v.subs.value else []
  }

  /**
   What a run sends: every Application that runs in the view read by the abort is terminated, in a
   restart and only then; the triggers are forced in a restart and only then; and without a restart
   no Application read as running is triggered, and every other one is.
  */
  lemma WhatIsSent(last: Option<nat>, r: Run, period: int, timeout: int, a: Action)
    requires Readable(r)
    ensures var (decision, sent) := (Decide(last, r, period, timeout), Actions(last, r, period, timeout));
      && (a.Terminate? ==> (a in sent <==>
        decision.Restart? && exists b :: b in Listed(r.aborted).value && b.running && b.name == a.name))
      && (a.Trigger? ==> (a in sent <==>
            && !decision.Skip?
            && (a.forced <==> decision.Restart?)
            && exists b :: b in Triggered(r.triggered) && b.name == a.name && (a.forced || !b.running)))
  {
    var decision := Decide(last, r, period, timeout);
    var force := decision.Restart?;
    if force { AbortsHit(Listed(r.aborted).value, r.refused, a); }
    if r.triggered.root.Some? { TriggersHit([r.triggered.root.value], force, a); }
    if r.triggered.subs.Some? { TriggersHit(r.triggered.subs.value, force, a); }
    SyncActionsHit(r.triggered, force, a);
  }

  lemma SyncActionsHit(v: View, force: bool, a: Action)
    ensures a in SyncActions(v, force) <==>
      a.Trigger? && a.forced == force && exists b :: b in Triggered(v) && b.name == a.name && (force || !b.running)
  {
    if v.root.Some? { TriggersHit([v.root.value], force, a); }
    if v.subs.Some? { TriggersHit(v.subs.value, force, a); }
    var all := Triggered(v);
    forall b ensures b in all <==> (v.root.Some? && b == v.root.value) || (v.subs.Some? && b in v.subs.value) { }
  }

  /** The aborts come before the triggers, the first `n` actions being the aborts. */
  lemma AbortsFirst(last: Option<nat>, r: Run, period: int, timeout: int) returns (n: nat)
    requires Readable(r)
    ensures var sent := Actions(last, r, period, timeout);
      n <= |sent| && forall k :: 0 <= k < |sent| ==> (sent[k].Trigger? <==> n <= k)
  {
    var sent, decision := Actions(last, r, period, timeout), Decide(last, r, period, timeout);
    var aborts := if decision.Restart? then Aborts(Listed(r.aborted).value, r.refused) else [];
    n := |aborts|;
    forall k | 0 <= k < |sent| ensures sent[k].Trigger? <==> |aborts| <= k {
      if k < |aborts| {
        AbortsHit(Listed(r.aborted).value, r.refused, sent[k]);
        assert sent[k] == aborts[k];
      } else {
        SyncActionsHit(r.triggered, decision.Restart?, sent[k]);
        assert sent[k] == SyncActions(r.triggered, decision.Restart?)[k - |aborts|];
      }
    }
  }

  // ---------------------------------------------------------------------------------------------
  // Spacing
  // ---------------------------------------------------------------------------------------------

  /** Reconciles of a cluster follow one another. */
  predicate Follows(tails: seq<Tail>) {
    && (forall t :: t in tails ==> Readable(t.run) && t.run.due <= t.ended)
    && (forall i, j :: 0 <= i < j < |tails| ==> tails[i].ended <= tails[j].run.due)
  }

  /** What is stored after the reconciles, reads seeing the last write. */
  function Stored(tails: seq<Tail>, period: int, timeout: int): Option<nat>
    requires Follows(tails)
  {
    if tails == [] then None
    else
      var (n, t) := (|tails| - 1, tails[|tails| - 1]);
      assert Readable(t.run) by { assert t in tails; }
      StoredAfter(Stored(tails[..n], period, timeout), t, period, timeout)
  }

  /** The times recorded, in order. */
  function Recorded(tails: seq<Tail>, period: int, timeout: int): seq<nat>
    requires Follows(tails)
  {
    if tails == [] then []
    else
      var (n, t) := (|tails| - 1, tails[|tails| - 1]);
      assert Readable(t.run) by { assert t in tails; }
      var before := Recorded(tails[..n], period, timeout);
      if Records(Stored(tails[..n], period, timeout), t, period, timeout) then before + [Truncated(t.ended)] else before
  }

  predicate Apart(times: seq<nat>, gap: int) { forall i :: 0 < i < |times| ==> times[i] - times[i - 1] >= gap }

  /** The whole seconds of a period. */
  function Whole(period: int): int { (period / SECOND) * SECOND }

  lemma TruncatedGap(stored: nat, due: nat, ended: nat, period: int)
    requires stored % SECOND == 0 && due - stored >= period && due <= ended
    ensures Truncated(ended) % SECOND == 0 && Truncated(ended) - stored >= Whole(period)
  {
  }

  /** Over every run, the recorded times are apart by the period, less its fraction of a second. */
  lemma {:induction false} RecordedApart(tails: seq<Tail>, period: int, timeout: int)
    requires Follows(tails)
    ensures Apart(Recorded(tails, period, timeout), Whole(period))
    ensures var (times, stored) := (Recorded(tails, period, timeout), Stored(tails, period, timeout));
      if times == [] then stored == None else stored == Some(times[|times| - 1]) && stored.value % SECOND == 0
  {
    if tails != [] {
      var n, t := |tails| - 1, tails[|tails| - 1];
      assert t in tails;
      RecordedApart(tails[..n], period, timeout);
      var before := Stored(tails[..n], period, timeout);
      if before.Some? && Records(before, t, period, timeout) { TruncatedGap(before.value, t.run.due, t.ended, period); }
    }
  }

  ghost predicate AlwaysApart(period: int, timeout: int) {
    forall tails :: Follows(tails) ==> Apart(Recorded(tails, period, timeout), period)
  }

  function Plain(due: nat): Tail {
    var nothing := View(Some([]), None);
    Tail(true, false, false, false, true, Run(due, nothing, [], due, nothing, {}, nothing), due, true)
  }

  lemma PlainRuns(period: nat, timeout: int)
    ensures var tails := [Plain(SECOND), Plain(SECOND + period)];
      Follows(tails) && Recorded(tails, period, timeout) == [SECOND, SECOND + Whole(period)]
  {
    var a, b := Plain(SECOND), Plain(SECOND + period);
    var tails := [a, b];
    assert tails[..1] == [a] && [a][..0] == [];
    assert Stored([], period, timeout) == None && Recorded([], period, timeout) == [];
    assert Stored([a], period, timeout) == Some(SECOND) && Recorded([a], period, timeout) == [SECOND];
    assert Truncated(b.ended) == SECOND + Whole(period);
  }

  /** Recorded times are always a period apart exactly when the period is in whole seconds, as they are stored. */
  lemma AlwaysApartIff(period: nat, timeout: int)
    ensures AlwaysApart(period, timeout) <==> period % SECOND == 0
  {
    if period % SECOND == 0 {
      forall tails | Follows(tails) ensures Apart(Recorded(tails, period, timeout), period) {
        RecordedApart(tails, period, timeout);
      }
    } else {
      var tails := [Plain(SECOND), Plain(SECOND + period)];
      PlainRuns(period, timeout);
      var times := Recorded(tails, period, timeout);
      assert times[1] - times[0] < period;
      assert !Apart(times, period);
    }
  }
}
