/**
 The conditions of a cluster status: a list with one entry per condition type, updated in place,
 and the time at which each condition last changed.
*/
module ClusterConditions {
  import opened Wrappers

  datatype Type = Ready | Reachable | ArgoCDSynced | CompatibleVersion | PausedType | OtherType(name: string)

  datatype Truth = True | False | Unknown

  datatype Reason =
    | ReconcileSuccess | ConnectionSuccess | ConnectionFailed | HealthCheckFailed | InvalidVersion
    | ConnectionConfigError | InvalidSecret | SecretNotFound | ConfigMapReconcileFailed | ConfigMapCleanupFailed
    | ManagementVersionUnknown | VersionCompatible | VersionIncompatible | Synced | OutOfSync | SyncUnknown | Syncing
    | SyncFailed | Paused | OtherReason(name: string)

  /** What a condition says. */
  datatype Fact = Fact(status: Truth, reason: Reason, message: string)

  /** `changed` is `LastTransitionTime`, the zero time being 0. */
  datatype Condition = Condition(kind: Type, fact: Fact, generation: int, changed: nat)

  function New(kind: Type, fact: Fact): Condition { Condition(kind, fact, 0, 0) }

  // ---------------------------------------------------------------------------------------------
  // Looking up and putting
  // ---------------------------------------------------------------------------------------------

  /** The first condition of a type. */
  function Find(cs: seq<Condition>, t: Type): Option<Condition> {
    if cs == [] then None else if cs[0].kind == t then Some(cs[0]) else Find(cs[1..], t)
  }

  /** What the conditions say about a type. */
  function Says(cs: seq<Condition>, t: Type): Option<Fact> {
    match Find(cs, t) case Some(c) => Some(c.fact) case None => None
  }

  function Kinds(cs: seq<Condition>): (ts: seq<Type>)
    ensures |ts| == |cs| && forall i :: 0 <= i < |cs| ==> ts[i] == cs[i].kind
  {
    seq(|cs|, i requires 0 <= i < |cs| => cs[i].kind)
  }

  /** One condition per type. */
  predicate Unique(cs: seq<Condition>) { forall i, j :: 0 <= i < j < |cs| ==> cs[i].kind != cs[j].kind }

  /** `setCondition`. */
  function Put(cs: seq<Condition>, c: Condition): seq<Condition> {
    if cs == [] then [c]
    else if cs[0].kind == c.kind then if cs[0].fact == c.fact then cs else [c] + cs[1..]
    else [cs[0]] + Put(cs[1..], c)
  }

  lemma {:induction false} PutSays(cs: seq<Condition>, c: Condition, t: Type)
    ensures Says(Put(cs, c), t) == if t == c.kind then Some(c.fact) else Says(cs, t)
  {
    if cs == [] {
      assert Put(cs, c)[1..] == [];
    } else {
      var rest := cs[1..];
      PutSays(rest, c, t);
      if cs[0].kind == c.kind {
        assert cs[0].fact != c.fact ==> Put(cs, c)[0] == c && Put(cs, c)[1..] == rest;
      } else {
        assert Put(cs, c)[0] == cs[0] && Put(cs, c)[1..] == Put(rest, c);
      }
    }
  }

  /** A condition put is new, unless it was there and said the same. */
  lemma {:induction false} PutFind(cs: seq<Condition>, c: Condition, t: Type)
    ensures Find(Put(cs, c), t) == if t == c.kind && Says(cs, t) != Some(c.fact) then Some(c) else Find(cs, t)
  {
    if cs == [] {
      assert Put(cs, c)[1..] == [];
    } else {
      var rest := cs[1..];
      PutFind(rest, c, t);
      if cs[0].kind == c.kind {
        assert cs[0].fact != c.fact ==> Put(cs, c)[0] == c && Put(cs, c)[1..] == rest;
      } else {
        assert Put(cs, c)[0] == cs[0] && Put(cs, c)[1..] == Put(rest, c);
      }
    }
  }

  /** The types keep their places, a new one comes last. */
  lemma {:induction false} PutKinds(cs: seq<Condition>, c: Condition)
    ensures Kinds(Put(cs, c)) == if c.kind in Kinds(cs) then Kinds(cs) else Kinds(cs) + [c.kind]
  {
    hide Kinds;
    if cs != [] {
      var kind, rest := cs[0].kind, cs[1..];
      KindsCons(cs[0], rest);
      assert cs == [cs[0]] + rest;
      if kind == c.kind {
        KindsCons(c, rest);
      } else {
        PutKinds(rest, c);
        KindsCons(cs[0], Put(rest, c));
        assert [kind] + (Kinds(rest) + [c.kind]) == Kinds(cs) + [c.kind];
      }
    }
  }

  lemma KindsCons(c: Condition, cs: seq<Condition>)
    ensures Kinds([c] + cs) == [c.kind] + Kinds(cs)
  {
  }

  /** Where a condition is put. */
  lemma {:induction false} PutAt(cs: seq<Condition>, c: Condition, i: nat)
    requires i <= |cs| && (forall j :: 0 <= j < i ==> cs[j].kind != c.kind) && (i < |cs| ==> cs[i].kind == c.kind)
    ensures Put(cs, c) == if i == |cs| then cs + [c] else if cs[i].fact == c.fact then cs else cs[i := c]
  {
    if i > 0 {
      PutAt(cs[1..], c, i - 1);
      assert cs == [cs[0]] + cs[1..];
    }
  }

  lemma SaysNone(cs: seq<Condition>, t: Type)
    ensures Says(cs, t) == None <==> t !in Kinds(cs)
  {
    FindIsFirst(cs, t);
  }

  predicate IsFirst(cs: seq<Condition>, t: Type, i: int) {
    0 <= i < |cs| && cs[i].kind == t && forall j :: 0 <= j < i ==> cs[j].kind != t
  }

  lemma {:induction false} FindIsFirst(cs: seq<Condition>, t: Type)
    ensures match Find(cs, t)
      case None => forall i :: 0 <= i < |cs| ==> cs[i].kind != t
      case Some(c) => exists i :: IsFirst(cs, t, i) && cs[i] == c
  {
    if cs != [] && cs[0].kind != t {
      FindIsFirst(cs[1..], t);
      if Find(cs, t).Some? {
        var i :| IsFirst(cs[1..], t, i) && cs[1..][i] == Find(cs, t).value;
        forall j | 0 <= j < i + 1 ensures cs[j].kind != t { if j > 0 { assert cs[j] == cs[1..][j - 1]; } }
        assert cs[i + 1] == cs[1..][i] && IsFirst(cs, t, i + 1);
      } else {
        forall i | 0 <= i < |cs| ensures cs[i].kind != t { if i > 0 { assert cs[i] == cs[1..][i - 1]; } }
      }
    }
  }

  lemma FindUnique(cs: seq<Condition>, i: nat)
    requires Unique(cs) && i < |cs|
    ensures Find(cs, cs[i].kind) == Some(cs[i])
  {
    FindIsFirst(cs, cs[i].kind);
  }

  lemma PutUnique(cs: seq<Condition>, c: Condition)
    requires Unique(cs)
    ensures Unique(Put(cs, c))
  {
    PutKinds(cs, c);
    forall i, j | 0 <= i < j < |Put(cs, c)| ensures Put(cs, c)[i].kind != Put(cs, c)[j].kind {
      assert Kinds(Put(cs, c))[i] == Put(cs, c)[i].kind && Kinds(Put(cs, c))[j] == Put(cs, c)[j].kind;
    }
  }

  // ---------------------------------------------------------------------------------------------
  // Transition times
  // ---------------------------------------------------------------------------------------------

  /** When a condition last changed, given the conditions before the sync. */
  function ChangedAt(c: Condition, before: seq<Condition>, now: nat): nat {
    match Find(before, c.kind)
    case Some(b) => if b.fact == c.fact && b.changed != 0 then b.changed else now
    case None => now
  }

  function Stamped(cs: seq<Condition>, before: seq<Condition>, generation: int, now: nat): (r: seq<Condition>)
    ensures |r| == |cs|
    ensures forall i :: 0 <= i < |cs| ==>
      r[i] == Condition(cs[i].kind, cs[i].fact, generation, ChangedAt(cs[i], before, now))
  {
    seq(|cs|, i requires 0 <= i < |cs| => Condition(cs[i].kind, cs[i].fact, generation, ChangedAt(cs[i], before, now)))
  }

  lemma {:induction false} StampedSays(cs: seq<Condition>, before: seq<Condition>, generation: int, now: nat, t: Type)
    ensures Says(Stamped(cs, before, generation, now), t) == Says(cs, t)
    ensures Kinds(Stamped(cs, before, generation, now)) == Kinds(cs)
  {
    if cs != [] {
      StampedSays(cs[1..], before, generation, now, t);
      assert Stamped(cs, before, generation, now)[1..] == Stamped(cs[1..], before, generation, now);
    }
  }
}
