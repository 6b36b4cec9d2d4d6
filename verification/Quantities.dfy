/** The quantities of a quota: saturating sums, differences, splits and limit checks on int64 values. */
module Quantities {
  import opened Wrappers
  import opened StringOrder

  /** `math.MaxInt64`. */
  const MAX: int := 0x7FFF_FFFF_FFFF_FFFF

  /** A resource name; only the first three are supported. */
  datatype Name = CPU | Memory | Disk | Unsupported(name: string)

  type Quantities = map<Name, int>

  /** The code of an availability zone. */
  type AZ = string

  /** The quantities `Parse` gives: non-negative int64. */
  predicate Valid(q: Quantities) { forall n :: n in q ==> 0 <= q[n] <= MAX }

  /** Reading a Go map: an absent key counts as 0. */
  function At(q: Quantities, n: Name): int { if n in q then q[n] else 0 }

  // ---------------------------------------------------------------------------------------------
  // Sums, differences, splits and checks
  // ---------------------------------------------------------------------------------------------

  function SaturatingAdd(a: int, b: int): int {
    if b > 0 && a > MAX - b then MAX else a + b
  }

  /** On non-negative int64 nothing overflows, and the result is the exact sum, capped. */
  lemma SaturatingAddIsCapped(a: int, b: int)
    requires 0 <= a <= MAX && 0 <= b <= MAX
    ensures SaturatingAdd(a, b) == Min(a + b, MAX)
    ensures 0 <= MAX - b <= MAX && (a <= MAX - b ==> a + b <= MAX)
  {
  }

  function Plus(q: Quantities, other: Quantities): Quantities {
    map n | n in q.Keys + other.Keys :: if n in other then SaturatingAdd(At(q, n), other[n]) else q[n]
  }

  function Highest(q: Quantities, other: Quantities): Quantities {
    map n | n in q.Keys + other.Keys :: if n !in q then other[n] else if n !in other then q[n] else Max(q[n], other[n])
  }

  function Only(q: Quantities, keep: Quantities): Quantities {
    map n | n in q && n in keep :: q[n]
  }

  function Minus(q: Quantities, other: Quantities): Quantities {
    map n | n in q :: Max(q[n] - At(other, n), 0)
  }

  function Share(q: Quantities, count: int): Quantities
    requires Valid(q)
  {
    if count <= 0 then map[] else map n | n in q :: q[n] / count
  }

  predicate Over(q: Quantities, limit: Quantities) {
    exists n :: n in limit && At(q, n) > limit[n]
  }

  method Add(q: Quantities, other: Quantities) returns (res: Quantities)
    ensures res == Plus(q, other)
  {
    res := q;
    var todo := other.Keys;
    while todo != {}
      invariant todo <= other.Keys && res.Keys == q.Keys + (other.Keys - todo)
      invariant forall n :: n in res ==>
        res[n] == if n in other && n !in todo then SaturatingAdd(At(q, n), other[n]) else q[n]
      decreases todo
    {
      var n :| n in todo;
      res := res[n := SaturatingAdd(At(res, n), other[n])];
      todo := todo - {n};
    }
  }

  method Sub(q: Quantities, other: Quantities) returns (res: Quantities)
    ensures res == Minus(q, other)
  {
    res := map[];
    var todo := q.Keys;
    while todo != {}
      invariant todo <= q.Keys && res.Keys == q.Keys - todo
      invariant forall n :: n in res ==> res[n] == Max(q[n] - At(other, n), 0)
      decreases todo
    {
      var n :| n in todo;
      res := res[n := Max(q[n] - At(other, n), 0)];
      todo := todo - {n};
    }
  }

  method SplitEqually(q: Quantities, count: int) returns (res: Quantities)
    requires Valid(q)
    ensures res == Share(q, count)
  {
    res := map[];
    if count <= 0 { return; }
    var todo := q.Keys;
    while todo != {}
      invariant todo <= q.Keys && res.Keys == q.Keys - todo
      invariant forall n :: n in res ==> res[n] == q[n] / count
      decreases todo
    {
      var n :| n in todo;
      res := res[n := q[n] / count];
      todo := todo - {n};
    }
  }

  /** The name of a resource, as listings sort it. */
  function Text(n: Name): string {
    match n
    case CPU => "cpu"
    case Memory => "memory"
    case Disk => "disk"
    case Unsupported(name) => name
  }

  /** The order in which the supported resources are listed. */
  lemma NamesInOrder()
    ensures Sorted([CPU, Disk, Memory]) && !Sorted([Disk, CPU]) && !Sorted([Memory, Disk])
  {
    assert Text(CPU)[0] == 'c' && Text(Disk)[0] == 'd' && Text(Memory)[0] == 'm';
    var a, b := [Disk, CPU], [Memory, Disk];
    assert Before(Text(a[1]), Text(a[0])) && Before(Text(b[1]), Text(b[0]));
  }

  predicate Sorted(names: seq<Name>) {
    forall i, j :: 0 <= i < j < |names| ==> !Before(Text(names[j]), Text(names[i]))
  }

  method SortedNames(keys: set<Name>) returns (names: seq<Name>)
    ensures Sorted(names) && forall n :: n in names <==> n in keys
  {
    names := [];
    var todo := keys;
    while todo != {}
      invariant todo <= keys && Sorted(names) && forall n :: n in names <==> n in keys - todo
      decreases todo
    {
      var n :| n in todo;
      names := InsertName(names, n);
      todo := todo - {n};
    }
  }

  method InsertName(names: seq<Name>, n: Name) returns (res: seq<Name>)
    requires Sorted(names)
    ensures Sorted(res) && forall m :: m in res <==> m in names || m == n
  {
    hide Text;
    var i := 0;
    while i < |names| && Before(Text(names[i]), Text(n))
      invariant i <= |names| && forall j :: 0 <= j < i ==> Before(Text(names[j]), Text(n))
    {
      i := i + 1;
    }
    forall j | 0 <= j < i ensures !Before(Text(n), Text(names[j])) {
      BeforeIsOrder(Text(n), Text(names[j]), Text(n));
    }
    forall j | i <= j < |names| ensures !Before(Text(names[j]), Text(n)) {
      if i < j { NotBefore(Text(n), Text(names[i]), Text(names[j])); }
    }
    res := names[..i] + [n] + names[i..];
  }

  /** The first resource, in the order of the names, that exceeds its limit. */
  predicate FirstOver(q: Quantities, limit: Quantities, first: Name) {
    && first in limit && At(q, first) > limit[first]
    && forall n :: n in limit && At(q, n) > limit[n] ==> !Before(Text(n), Text(first))
  }

  method Exceeds(q: Quantities, limit: Quantities) returns (first: Option<Name>)
    ensures first.Some? <==> Over(q, limit)
    ensures first.Some? ==> FirstOver(q, limit, first.value)
  {
    hide Before, Text;
    var names := SortedNames(limit.Keys);
    for i := 0 to |names|
      invariant forall j :: 0 <= j < i ==> At(q, names[j]) <= limit[names[j]]
    {
      if At(q, names[i]) > limit[names[i]] {
        forall n | n in limit && At(q, n) > limit[n] ensures !Before(Text(n), Text(names[i])) {
          var j :| 0 <= j < |names| && names[j] == n;
          if j == i { BeforeIsOrder(Text(n), Text(n), Text(n)); }
        }
        return Some(names[i]);
      }
    }
    assert forall n :: n in limit ==> n in names;
    return None;
  }

  // ---------------------------------------------------------------------------------------------
  // Totals
  // ---------------------------------------------------------------------------------------------

  /** Adding quantities to a total one after the other, from an empty one. */
  function Total(qs: seq<Quantities>): Quantities {
    if qs == [] then map[] else Plus(Total(qs[..|qs| - 1]), qs[|qs| - 1])
  }

  /** The exact sum of a resource. */
  function Exact(qs: seq<Quantities>, n: Name): int {
    if qs == [] then 0 else Exact(qs[..|qs| - 1], n) + At(qs[|qs| - 1], n)
  }

  lemma {:induction false} ExactNonNegative(qs: seq<Quantities>, n: Name)
    requires forall q :: q in qs ==> Valid(q)
    ensures 0 <= Exact(qs, n)
  {
    if qs != [] {
      var last := qs[|qs| - 1];
      assert last in qs;
      ExactNonNegative(qs[..|qs| - 1], n);
    }
  }

  /** The total is the exact sum of each resource, capped at `MaxInt64`. */
  lemma {:induction false} TotalIsCappedSum(qs: seq<Quantities>)
    requires forall q :: q in qs ==> Valid(q)
    ensures Valid(Total(qs))
    ensures forall n :: n in Total(qs) <==> exists q :: q in qs && n in q
    ensures forall n :: At(Total(qs), n) == Min(Exact(qs, n), MAX)
  {
    if qs != [] {
      var rest, last := qs[..|qs| - 1], qs[|qs| - 1];
      assert qs == rest + [last];
      TotalIsCappedSum(rest);
      forall n ensures At(Total(qs), n) == Min(Exact(qs, n), MAX) {
        ExactNonNegative(rest, n);
        assert last in qs;
      }
      forall n | n in Total(qs) ensures 0 <= Total(qs)[n] <= MAX {
        ExactNonNegative(qs, n);
        assert At(Total(qs), n) == Min(Exact(qs, n), MAX);
      }
    }
  }

  lemma {:induction false} ExactConcat(a: seq<Quantities>, b: seq<Quantities>, n: Name)
    ensures Exact(a + b, n) == Exact(a, n) + Exact(b, n)
  {
    if b == [] {
      assert a + b == a;
    } else {
      assert (a + b)[..|a + b| - 1] == a + b[..|b| - 1];
      ExactConcat(a, b[..|b| - 1], n);
    }
  }

  /** Taking one element out of a list. */
  lemma ExactWithout(qs: seq<Quantities>, i: nat, n: Name)
    requires i < |qs|
    ensures Exact(qs, n) == Exact(qs[..i] + qs[i + 1..], n) + At(qs[i], n)
    ensures multiset(qs[..i] + qs[i + 1..]) == multiset(qs) - multiset{qs[i]}
  {
    assert qs == qs[..i] + ([qs[i]] + qs[i + 1..]);
    ExactConcat(qs[..i], [qs[i]] + qs[i + 1..], n);
    ExactConcat([qs[i]], qs[i + 1..], n);
    ExactConcat(qs[..i], qs[i + 1..], n);
    assert [qs[i]][..0] == [];
  }

  lemma {:induction false} ExactAnyOrder(qs: seq<Quantities>, rs: seq<Quantities>, n: Name)
    requires multiset(qs) == multiset(rs)
    ensures Exact(qs, n) == Exact(rs, n)
    decreases |qs|
  {
    assert |qs| == |multiset(qs)| == |rs|;
    if qs != [] {
      assert qs[0] in multiset(rs);
      var i :| 0 <= i < |rs| && rs[i] == qs[0];
      ExactWithout(qs, 0, n);
      ExactWithout(rs, i, n);
      ExactAnyOrder(qs[..0] + qs[1..], rs[..i] + rs[i + 1..], n);
    }
  }

  /** The total does not depend on the order of the additions. */
  lemma TotalAnyOrder(qs: seq<Quantities>, rs: seq<Quantities>)
    requires multiset(qs) == multiset(rs) && forall q :: q in qs ==> Valid(q)
    ensures Total(qs) == Total(rs)
  {
    forall q ensures q in qs <==> q in rs { assert q in multiset(qs) <==> q in multiset(rs); }
    TotalIsCappedSum(qs);
    TotalIsCappedSum(rs);
    forall n ensures (n in Total(qs) <==> n in Total(rs)) && At(Total(qs), n) == At(Total(rs), n) {
      ExactAnyOrder(qs, rs, n);
    }
    forall n | n in Total(qs) ensures Total(qs)[n] == Total(rs)[n] {
      assert At(Total(qs), n) == At(Total(rs), n);
    }
  }

  /** Checking a total is exact, except that a limit of `MaxInt64` is never exceeded. */
  lemma ExceedsIsExact(qs: seq<Quantities>, limit: Quantities)
    requires Valid(limit) && forall q :: q in qs ==> Valid(q)
    ensures Over(Total(qs), limit) <==> exists n :: n in limit && limit[n] < MAX && Exact(qs, n) > limit[n]
  {
    TotalIsCappedSum(qs);
    if Over(Total(qs), limit) {
      var n :| n in limit && At(Total(qs), n) > limit[n];
      assert At(Total(qs), n) == Min(Exact(qs, n), MAX);
    }
    if n :| n in limit && limit[n] < MAX && Exact(qs, n) > limit[n] {
      assert At(Total(qs), n) == Min(Exact(qs, n), MAX);
    }
  }

  /** What is left of a limit, plus what was taken of it, is the limit exactly when it was not exceeded. */
  lemma LeftPlusTakenIffFits(limit: Quantities, taken: Quantities)
    requires Valid(limit) && Valid(taken)
    ensures Plus(Minus(limit, taken), Only(taken, limit)) == limit <==> !Over(taken, limit)
  {
    var back := Plus(Minus(limit, taken), Only(taken, limit));
    assert back.Keys == limit.Keys;
    if !Over(taken, limit) {
      forall n | n in limit ensures back[n] == limit[n] { assert At(taken, n) <= limit[n]; }
    } else {
      var n :| n in limit && At(taken, n) > limit[n];
      assert back[n] == SaturatingAdd(0, taken[n]);
    }
  }

  /** `count` times the same share. */
  function Shares(q: Quantities, count: nat): seq<Quantities>
    requires Valid(q)
  {
    seq(count, i => Share(q, count))
  }

  lemma {:induction false} ExactRepeat(q: Quantities, k: nat, n: Name)
    ensures Exact(seq(k, i => q), n) == k * At(q, n)
  {
    if k > 0 {
      assert seq(k, i => q)[..k - 1] == seq(k - 1, i => q);
      ExactRepeat(q, k - 1, n);
    }
  }

  lemma ShareBounds(v: int, count: int)
    requires 0 <= v <= MAX && count > 0
    ensures 0 <= v / count <= MAX && count * (v / count) <= v < count * (v / count) + count
  {
  }

  /** The shares of a split never exceed the whole, leave less than one unit per share, and drop no resource. */
  lemma SplitConserves(q: Quantities, count: nat)
    requires Valid(q) && count > 0
    ensures var total := Total(Shares(q, count));
      && total.Keys == q.Keys
      && forall n :: n in q ==> total[n] <= q[n] < total[n] + count
  {
    var share, shares := Share(q, count), Shares(q, count);
    assert shares == seq(count, i => share);
    forall n | n in q ensures 0 <= share[n] <= MAX { ShareBounds(q[n], count); }
    assert shares[0] == share;
    TotalIsCappedSum(shares);
    forall n | n in q ensures At(Total(shares), n) <= q[n] < At(Total(shares), n) + count {
      ExactRepeat(share, count, n);
      ShareBounds(q[n], count);
    }
  }
}
