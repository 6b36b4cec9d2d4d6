/**
 Quotas as they are stored and pushed: parsing, the translation to the keys of a Kubernetes
 ResourceQuota and back, and the effective limit of a level.

 A quantity string denotes an exact number (`ParseQuantity` of the Kubernetes library), here the
 parameter `parse`; `None` stands for a string it rejects.
*/
module QuotaTranslation {
  import opened Wrappers
  import opened Quantities

  type Resources = map<Name, string>

  type Parser = string -> Option<real>

  /** A key of `spec.hard`. */
  datatype KubeKey = RequestsCpu | LimitsCpu | RequestsMemory | LimitsMemory | RequestsStorage | OtherKey(key: string)

  /** `translations`. */
  function Keys(n: Name): set<KubeKey> {
    match n
    case CPU => {RequestsCpu, LimitsCpu}
    case Memory => {RequestsMemory, LimitsMemory}
    case Disk => {RequestsStorage}
    case Unsupported(_) => {}
  }

  function NameOf(k: KubeKey): Option<Name> {
    match k
    case RequestsCpu => Some(CPU)
    case LimitsCpu => Some(CPU)
    case RequestsMemory => Some(Memory)
    case LimitsMemory => Some(Memory)
    case RequestsStorage => Some(Disk)
    case OtherKey(_) => None
  }

  /** One of the keys of a supported resource. */
  function KeyOf(n: Name): KubeKey {
    match n
    case CPU => RequestsCpu
    case Memory => RequestsMemory
    case _ => RequestsStorage
  }

  const SUPPORTED: set<Name> := {CPU, Memory, Disk}

  /** The text of a key. */
  function KeyText(k: KubeKey): string {
    match k
    case RequestsCpu => "requests.cpu"
    case LimitsCpu => "limits.cpu"
    case RequestsMemory => "requests.memory"
    case LimitsMemory => "limits.memory"
    case RequestsStorage => "requests.storage"
    case OtherKey(key) => key
  }

  /** The text of each key of each resource: cpu and memory have a request and a limit, disk a request for storage. */
  lemma KeysByText(k: KubeKey)
    requires !k.OtherKey?
    ensures k in Keys(CPU) <==> KeyText(k) == "requests.cpu" || KeyText(k) == "limits.cpu"
    ensures k in Keys(Memory) <==> KeyText(k) == "requests.memory" || KeyText(k) == "limits.memory"
    ensures k in Keys(Disk) <==> KeyText(k) == "requests.storage"
  {
    assert |KeyText(k)| == match k
      case RequestsCpu => 12
      case LimitsCpu => 10
      case RequestsMemory => 15
      case LimitsMemory => 13
      case RequestsStorage => 16;
  }

  lemma KeysAndNames(n: Name, k: KubeKey)
    ensures k in Keys(n) <==> NameOf(k) == Some(n)
    ensures n in SUPPORTED <==> exists k :: k in Keys(n)
  {
    if n in SUPPORTED { assert KeyOf(n) in Keys(n); }
  }

  function Ceiling(x: real): int { -((-x).Floor) }

  /** `parseQuantity`: millicores for cpu, base units otherwise, rounded up. */
  function ParseQuantity(parse: Parser, n: Name, value: string): (r: Option<int>)
    ensures r.Some? ==> 0 <= r.value <= MAX
  {
    match parse(value)
    case None => None
    case Some(x) =>
      var amount := if n == CPU then x * 1000.0 else x;
      if x < 0.0 || amount >= MAX as real then None else Some(Ceiling(amount))
  }

  /** The quantity stands for the number: in thousandths for cpu, in units otherwise, rounded up. */
  predicate Denotes(n: Name, x: real, v: int) {
    if n == CPU then v as real - 1.0 < 1000.0 * x <= v as real else v as real - 1.0 < x <= v as real
  }

  /** A number that is accepted: not negative, and below the largest int64 in the unit of the resource. */
  predicate Storable(n: Name, x: real) {
    x >= 0.0 && (if n == CPU then 1000.0 * x else x) < 9223372036854775807.0
  }

  lemma QuantityDenotes(parse: Parser, n: Name, value: string)
    ensures var (q, x) := (ParseQuantity(parse, n, value), parse(value));
      && (q.Some? <==> x.Some? && Storable(n, x.value))
      && (q.Some? ==> Denotes(n, x.value, q.value))
  {
  }

  /** A supported resource with a quantity that is accepted. */
  predicate Readable(parse: Parser, r: Resources, n: Name) {
    n in r && n in SUPPORTED && ParseQuantity(parse, n, r[n]).Some?
  }

  /** The quantities of the entries that are readable. */
  function Read(parse: Parser, r: Resources): Quantities {
    map n | n in r && Readable(parse, r, n) :: ParseQuantity(parse, n, r[n]).value
  }

  /** `Parse`: the entries are visited in any order, and the first one that is not readable is an error. */
  method Parse(parse: Parser, r: Resources) returns (q: Option<Quantities>)
    ensures q == if forall n :: n in r ==> Readable(parse, r, n) then Some(Read(parse, r)) else None
    ensures q.Some? <==> forall n :: n in r ==>
      n in {CPU, Memory, Disk} && parse(r[n]).Some? && Storable(n, parse(r[n]).value)
    ensures q.Some? ==> q.value.Keys == r.Keys && forall n :: n in r ==> Denotes(n, parse(r[n]).value, q.value[n])
  {
    forall n | n in r
      ensures Readable(parse, r, n) <==>
        n in {CPU, Memory, Disk} && parse(r[n]).Some? && Storable(n, parse(r[n]).value)
      ensures Readable(parse, r, n) ==> Denotes(n, parse(r[n]).value, ParseQuantity(parse, n, r[n]).value)
    {
      QuantityDenotes(parse, n, r[n]);
    }
    hide ParseQuantity, Denotes, Storable;
    var res: Quantities := map[];
    var todo := r.Keys;
    while todo != {}
      invariant todo <= r.Keys && res.Keys == r.Keys - todo
      invariant forall n :: n in res ==> Readable(parse, r, n) && res[n] == ParseQuantity(parse, n, r[n]).value
      decreases todo
    {
      var n :| n in todo;
      if n !in SUPPORTED { return None; }
      var v := ParseQuantity(parse, n, r[n]);
      if v == None { return None; }
      res := res[n := v.value];
      todo := todo - {n};
    }
    assert res == Read(parse, r);
    q := Some(res);
  }

  /** The `spec.hard` entries of a quota. */
  function Hard(r: Resources): map<KubeKey, string> {
    map k | k in {RequestsCpu, LimitsCpu, RequestsMemory, LimitsMemory, RequestsStorage} && NameOf(k).value in r ::
      r[NameOf(k).value]
  }

  /** The request and the limit of cpu and memory are what the quota says, and so is the request for storage. */
  lemma HardIs(r: Resources, k: KubeKey)
    ensures k in Hard(r) <==>
      || (CPU in r && k in {RequestsCpu, LimitsCpu})
      || (Memory in r && k in {RequestsMemory, LimitsMemory})
      || (Disk in r && k == RequestsStorage)
    ensures k in Hard(r) ==>
      Hard(r)[k] == r[if k in {RequestsCpu, LimitsCpu} then CPU else if k == RequestsStorage then Disk else Memory]
  {
  }

  /** `ToKubernetesQuota`. */
  method ToKubernetesQuota(r: Resources) returns (hard: map<KubeKey, string>)
    ensures hard == Hard(r)
  {
    hard := map[];
    var todo := r.Keys;
    while todo != {}
      invariant todo <= r.Keys
      invariant forall k :: k in hard <==> NameOf(k).Some? && NameOf(k).value in r.Keys - todo
      invariant forall k :: k in hard ==> hard[k] == r[NameOf(k).value]
      decreases todo
    {
      var n :| n in todo;
      var keys := Keys(n);
      forall k ensures k in keys <==> NameOf(k) == Some(n) { KeysAndNames(n, k); }
      hard := hard + map k | k in keys :: r[n];
      todo := todo - {n};
    }
    assert hard.Keys == Hard(r).Keys;
  }

  /** The highest readable quantity of a resource among its keys. */
  function Usage(parse: Parser, used: map<KubeKey, string>, n: Name): set<int> {
    set k | k in Keys(n) && k in used && ParseQuantity(parse, n, used[k]).Some? ::
      ParseQuantity(parse, n, used[k]).value
  }

  /** What `FromKubernetesUsage` reports: for each resource with a readable key, the highest of them. */
  ghost predicate Reports(parse: Parser, used: map<KubeKey, string>, res: Quantities) {
    forall n :: (n in res <==> Usage(parse, used, n) != {})
      && (n in res ==> res[n] in Usage(parse, used, n) && forall v :: v in Usage(parse, used, n) ==> v <= res[n])
  }

  /** The loop over the keys of one resource: the highest quantity among those readable. */
  method HighestUsage(parse: Parser, used: map<KubeKey, string>, n: Name) returns (best: Option<int>)
    ensures best.None? <==> Usage(parse, used, n) == {}
    ensures best.Some? ==>
      best.value in Usage(parse, used, n) && forall v :: v in Usage(parse, used, n) ==> v <= best.value
  {
    best := None;
    var todo := Keys(n);
    while todo != {}
      invariant todo <= Keys(n)
      invariant best.Some? ==> best.value in Usage(parse, used, n)
      invariant forall k :: k in Keys(n) && k !in todo && k in used && ParseQuantity(parse, n, used[k]).Some? ==>
        best.Some? && ParseQuantity(parse, n, used[k]).value <= best.value
      decreases todo
    {
      var k :| k in todo;
      todo := todo - {k};
      if k in used {
        var v := ParseQuantity(parse, n, used[k]);
        if v.Some? && (best.None? || v.value > best.value) { best := v; }
      }
    }
  }

  /** A key of the resource is tracked, with a number that is accepted. */
  predicate Counts(parse: Parser, used: map<KubeKey, string>, n: Name, k: KubeKey) {
    && (|| (n == CPU && k in {RequestsCpu, LimitsCpu})
        || (n == Memory && k in {RequestsMemory, LimitsMemory})
        || (n == Disk && k == RequestsStorage))
    && k in used && parse(used[k]).Some? && Storable(n, parse(used[k]).value)
  }

  /** What is reported of a resource is what its highest number denotes. */
  lemma ReportsHighest(parse: Parser, used: map<KubeKey, string>, res: Quantities, n: Name)
    requires Reports(parse, used, res)
    ensures n in res <==> exists k :: Counts(parse, used, n, k)
    ensures n in res ==> exists k :: Counts(parse, used, n, k) && Denotes(n, parse(used[k]).value, res[n])
    ensures n in res ==> forall k, v :: Counts(parse, used, n, k) && Denotes(n, parse(used[k]).value, v) ==> v <= res[n]
  {
    forall k ensures Counts(parse, used, n, k) <==>
      k in Keys(n) && k in used && ParseQuantity(parse, n, used[k]).Some? {
      KeysAndNames(n, k);
      if k in used { QuantityDenotes(parse, n, used[k]); }
    }
    forall k | Counts(parse, used, n, k)
      ensures ParseQuantity(parse, n, used[k]).value in Usage(parse, used, n)
      ensures Denotes(n, parse(used[k]).value, ParseQuantity(parse, n, used[k]).value)
    {
      QuantityDenotes(parse, n, used[k]);
    }
    if n in res {
      var k :| k in Keys(n) && k in used && ParseQuantity(parse, n, used[k]) == Some(res[n]);
      assert Counts(parse, used, n, k);
    }
  }

  method FromKubernetesUsage(parse: Parser, used: map<KubeKey, string>) returns (res: Quantities)
    ensures Reports(parse, used, res)
  {
    res := map[];
    var todo := SUPPORTED;
    while todo != {}
      invariant todo <= SUPPORTED && res.Keys <= SUPPORTED - todo
      invariant forall n :: n in SUPPORTED - todo ==> (n in res <==> Usage(parse, used, n) != {})
      invariant forall n :: n in res ==>
        res[n] in Usage(parse, used, n) && forall v :: v in Usage(parse, used, n) ==> v <= res[n]
      decreases todo
    {
      var n :| n in todo;
      todo := todo - {n};
      var best := HighestUsage(parse, used, n);
      if best.Some? { res := res[n := best.value]; }
    }
  }

  /** Reading back what was translated gives the readable entries, and nothing else. */
  lemma TranslationReadsBack(parse: Parser, r: Resources, res: Quantities)
    requires Reports(parse, Hard(r), res)
    ensures res == Read(parse, r)
  {
    forall n, v
      ensures v in Usage(parse, Hard(r), n) <==> Readable(parse, r, n) && v == ParseQuantity(parse, n, r[n]).value
    {
      if v in Usage(parse, Hard(r), n) {
        var k :| k in Keys(n) && k in Hard(r) && ParseQuantity(parse, n, Hard(r)[k]) == Some(v);
        KeysAndNames(n, k);
      }
      if Readable(parse, r, n) {
        var k := KeyOf(n);
        KeysAndNames(n, k);
        assert k in Hard(r) && Hard(r)[k] == r[n];
      }
    }
    forall n ensures (n in res <==> n in Read(parse, r)) && (n in res ==> res[n] == Read(parse, r)[n]) {
      if Readable(parse, r, n) { assert ParseQuantity(parse, n, r[n]).value in Usage(parse, Hard(r), n); }
    }
  }

  // ---------------------------------------------------------------------------------------------
  // The effective limit of a level
  // ---------------------------------------------------------------------------------------------

  /** The names some ancestor limits. */
  function Limited<V(==)>(ancestors: seq<map<Name, V>>): set<Name> {
    set a, n | a in ancestors && n in a :: n
  }

  /** `Effective`: the own quota, and zero for what only an ancestor limits. */
  function EffectiveLimit<V(==)>(own: map<Name, V>, ancestors: seq<map<Name, V>>, zero: V): map<Name, V> {
    map n | n in own.Keys + Limited(ancestors) :: if n in own then own[n] else zero
  }

  method Effective(own: Resources, ancestors: seq<Resources>) returns (res: Resources)
    ensures res == EffectiveLimit(own, ancestors, "0")
  {
    res := map[];
    for i := 0 to |ancestors|
      invariant res == map n | n in Limited(ancestors[..i]) :: "0"
    {
      assert ancestors[..i + 1] == ancestors[..i] + [ancestors[i]];
      LimitedSnoc(ancestors[..i], ancestors[i]);
      res := res + map n | n in ancestors[i] :: "0";
    }
    assert ancestors[..|ancestors|] == ancestors;
    res := res + own;
  }

  lemma LimitedSnoc<V>(above: seq<map<Name, V>>, parent: map<Name, V>)
    ensures Limited(above + [parent]) == Limited(above) + parent.Keys
  {
    forall n ensures n in Limited(above + [parent]) <==> n in Limited(above) + parent.Keys {
      if n in Limited(above) {
        var a :| a in above && n in a;
        assert a in above + [parent];
      }
      if n in parent { assert parent in above + [parent]; }
    }
  }

  /** The order of the ancestors does not matter. */
  lemma EffectiveAnyOrder<V>(own: map<Name, V>, a: seq<map<Name, V>>, b: seq<map<Name, V>>, zero: V)
    requires multiset(a) == multiset(b)
    ensures EffectiveLimit(own, a, zero) == EffectiveLimit(own, b, zero)
  {
    forall m ensures m in a <==> m in b { assert m in multiset(a) <==> m in multiset(b); }
    assert Limited(a) == Limited(b);
  }

  /** The effective limit of a level can be computed from the effective limit of the level above it. */
  lemma EffectiveLevelByLevel<V>(own: map<Name, V>, parent: map<Name, V>, above: seq<map<Name, V>>, zero: V)
    ensures EffectiveLimit(own, above + [parent], zero)
      == EffectiveLimit(own, [EffectiveLimit(parent, above, zero)], zero)
  {
    var e := EffectiveLimit(parent, above, zero);
    LimitedSnoc(above, parent);
    LimitedSnoc([], e);
    assert [e] == [] + [e];
  }

  /** Nothing is pushed exactly when no level limits a supported resource. */
  lemma HardEmptyIff(own: Resources, ancestors: seq<Resources>)
    ensures Hard(EffectiveLimit(own, ancestors, "0")) == map[] <==>
      forall n :: n in SUPPORTED ==> n !in own && forall a :: a in ancestors ==> n !in a
  {
    var e := EffectiveLimit(own, ancestors, "0");
    forall n | n in SUPPORTED && n in e ensures Hard(e) != map[] {
      var k := KeyOf(n);
      assert NameOf(k) == Some(n) && k in Hard(e);
    }
    if Hard(e) != map[] {
      var k :| k in Hard(e);
      assert NameOf(k).value in e && NameOf(k).value in SUPPORTED;
    }
  }
}
