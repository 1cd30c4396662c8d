/** The bounded cache with expiry (internal/ttlcache/cache.go). The order in which a Go
    `sync.Map` ranges over its keys is unspecified, so it is an input wherever it matters;
    so are the clock readings. */
module TtlCache {
  import opened Basics

  datatype Entry<+V> = Entry(value: V, expiresAt: int)

  const EVICTION_SCAN := 32

  /** `order` is a possible range order over the keys. */
  ghost predicate Ranges<K>(order: seq<K>, keys: set<K>) {
    Distinct(order) && (forall k | k in order :: k in keys) && (forall k | k in keys :: k in order)
  }

  predicate Expired<K, V>(m: map<K, Entry<V>>, k: K, now: int) {
    k in m && now > m[k].expiresAt
  }

  /** The first expired key among the visited ones. */
  function FirstExpired<K, V>(visited: seq<K>, m: map<K, Entry<V>>, now: int): Option<K> {
    if visited == [] then None
    else if Expired(m, visited[0], now) then Some(visited[0])
    else FirstExpired(visited[1..], m, now)
  }

  function Scanned<K>(order: seq<K>): seq<K> {
    if |order| <= EVICTION_SCAN then order else order[..EVICTION_SCAN]
  }

  function Victim<K, V>(order: seq<K>, m: map<K, Entry<V>>, now: int): K
    requires order != []
  {
    var expired := FirstExpired(Scanned(order), m, now);
    if expired.Some? then expired.value else order[0]
  }

  function Evicted<K, V>(m: map<K, Entry<V>>, order: seq<K>, now: int): map<K, Entry<V>> {
    if order == [] then m else m - {Victim(order, m, now)}
  }

  lemma {:induction false} FirstExpiredAt<K, V>(visited: seq<K>, m: map<K, Entry<V>>, now: int)
    ensures FirstExpired(visited, m, now).None? <==> forall i | 0 <= i < |visited| :: !Expired(m, visited[i], now)
    ensures FirstExpired(visited, m, now).Some? ==>
              exists i :: 0 <= i < |visited| && visited[i] == FirstExpired(visited, m, now).value
                       && Expired(m, visited[i], now)
                       && forall j | 0 <= j < i :: !Expired(m, visited[j], now)
  {
    if visited != [] && !Expired(m, visited[0], now) {
      FirstExpiredAt(visited[1..], m, now);
      var rest := FirstExpired(visited[1..], m, now);
      if rest.Some? {
        var i :| 0 <= i < |visited[1..]| && visited[1..][i] == rest.value && Expired(m, visited[1..][i], now)
              && forall j | 0 <= j < i :: !Expired(m, visited[1..][j], now);
        assert visited[i + 1] == rest.value;
        forall j | 0 <= j < i + 1 ensures !Expired(m, visited[j], now) {
          if j > 0 {
            assert visited[j] == visited[1..][j - 1];
          }
        }
      }
    } else if visited != [] {
      assert Expired(m, visited[0], now);
    }
  }

  /** Eviction removes exactly one entry of a non-empty cache: the first expired one among the
      first 32 visited, or the first visited if none of those has expired. */
  lemma EvictionChoice<K, V>(m: map<K, Entry<V>>, order: seq<K>, now: int)
    requires Ranges(order, m.Keys) && m != map[]
    ensures |Evicted(m, order, now)| == |m| - 1
    ensures exists i :: 0 <= i < |order| && i < 32 && Evicted(m, order, now) == m - {order[i]}
              && (Expired(m, order[i], now) || i == 0)
              && (forall j | 0 <= j < i :: !Expired(m, order[j], now))
              && (!Expired(m, order[i], now) ==> forall j | 0 <= j < |order| && j < 32 :: !Expired(m, order[j], now))
  {
    var key :| key in m;
    assert key in order;
    FirstExpiredAt(Scanned(order), m, now);
    var v := Victim(order, m, now);
    assert v in order && v in m.Keys;
    assert (m - {v}).Keys == m.Keys - {v};
    var expired := FirstExpired(Scanned(order), m, now);
    var i := 0;
    if expired.Some? {
      i :| 0 <= i < |Scanned(order)| && Scanned(order)[i] == expired.value && Expired(m, Scanned(order)[i], now)
           && forall j | 0 <= j < i :: !Expired(m, Scanned(order)[j], now);
    }
    assert forall j | 0 <= j < |Scanned(order)| :: Scanned(order)[j] == order[j];
    assert Evicted(m, order, now) == m - {order[i]};
  }

  lemma OneIsEvicted<K, V>(m: map<K, Entry<V>>, order: seq<K>, now: int)
    requires Ranges(order, m.Keys) && m != map[]
    ensures exists k :: k in m && Evicted(m, order, now) == m - {k}
  {
    EvictionChoice(m, order, now);
    var i :| 0 <= i < |order| && Evicted(m, order, now) == m - {order[i]};
    assert order[i] in order;
  }

  /** The entries a `Set` leaves in place before it stores its own: a full cache gives up one,
      whichever key is stored. */
  function AfterEviction<K, V>(m: map<K, Entry<V>>, maxEntries: int, order: seq<K>, scanTime: int)
    : (kept: map<K, Entry<V>>)
    ensures forall k | k in kept :: k in m && kept[k] == m[k]
  {
    if maxEntries > 0 && |m| >= maxEntries then Evicted(m, order, scanTime) else m
  }

  function AfterSet<K, V>(
    m: map<K, Entry<V>>, maxEntries: int, order: seq<K>, scanTime: int, key: K, e: Entry<V>): map<K, Entry<V>>
  {
    AfterEviction(m, maxEntries, order, scanTime)[key := e]
  }

  /** The entry is stored; a cache below its maximum loses nothing, a full one gives up one entry. */
  ghost predicate LosesOneIfFull<K, V>(
    m: map<K, Entry<V>>, m': map<K, Entry<V>>, maxEntries: int, key: K, e: Entry<V>)
  {
    && (maxEntries <= 0 || |m| < maxEntries ==> m' == m[key := e])
    && (0 < maxEntries <= |m| ==> exists k :: k in m && m' == (m - {k})[key := e])
  }

  lemma SetLosesOne<K, V>(
    m: map<K, Entry<V>>, maxEntries: int, order: seq<K>, scanTime: int, key: K, e: Entry<V>)
    requires Ranges(order, m.Keys)
    ensures LosesOneIfFull(m, AfterSet(m, maxEntries, order, scanTime, key, e), maxEntries, key, e)
  {
    hide Evicted;
    if 0 < maxEntries <= |m| {
      OneIsEvicted(m, order, scanTime);
    }
  }

  class Cache<K(==), V> {
    var m: map<K, Entry<V>>
    const maxEntries: int

    constructor (maxEntries: int)
      ensures m == map[] && this.maxEntries == maxEntries
    {
      m := map[];
      this.maxEntries := maxEntries;
    }

    method Get(key: K, now: int) returns (r: Option<V>)
      modifies this
      ensures r == if key in old(m) && now <= old(m)[key].expiresAt then Some(old(m)[key].value) else None
      ensures m == if r.Some? then old(m) else old(m) - {key}
      ensures m == CacheNext(old(m), maxEntries, GetAt(key, now))
    {
      if key !in m {
        return None;
      }
      var e := m[key];
      if now > e.expiresAt {
        m := m - {key};
        return None;
      }
      return Some(e.value);
    }

    method Set(key: K, value: V, ttl: int, order: seq<K>, scanTime: int, storeTime: int)
      requires Ranges(order, m.Keys)
      modifies this
      ensures m == CacheNext(old(m), maxEntries, SetAt(key, value, ttl, order, scanTime, storeTime))
      ensures LosesOneIfFull(old(m), m, maxEntries, key, Entry(value, storeTime + ttl))
    {
      hide Evicted, Ranges, LosesOneIfFull;
      SetLosesOne(m, maxEntries, order, scanTime, key, Entry(value, storeTime + ttl));
      if maxEntries > 0 {
        var size := 0;
        OrderSize(order, m);
        while size < |order| && size < maxEntries
          invariant 0 <= size <= |order| && size <= maxEntries
        {
          size := size + 1;
        }
        if size >= maxEntries {
          EvictOne(order, scanTime);
        }
      }
      assert m == AfterEviction(old(m), maxEntries, order, scanTime);
      hide AfterEviction;
      m := m[key := Entry(value, storeTime + ttl)];
    }

    method Delete(key: K)
      modifies this
      ensures m == CacheNext(old(m), maxEntries, DeleteKey(key))
    {
      m := m - {key};
    }

    /** One tick of the background sweep. */
    method Sweep(order: seq<K>, now: int)
      requires Ranges(order, m.Keys)
      modifies this
      ensures forall k :: k in m <==> k in old(m) && now <= old(m)[k].expiresAt
      ensures forall k | k in m :: m[k] == old(m)[k]
      ensures m == CacheNext(old(m), maxEntries, SweepAt(now))
    {
      for i := 0 to |order|
        invariant forall k :: k in m <==> k in old(m) && !(k in order[..i] && Expired(old(m), k, now))
        invariant forall k | k in m :: m[k] == old(m)[k]
      {
        assert order[..i + 1] == order[..i] + [order[i]];
        if Expired(m, order[i], now) {
          m := m - {order[i]};
        }
      }
      assert order[..|order|] == order;
    }

    method EvictOne(order: seq<K>, now: int)
      requires Ranges(order, m.Keys)
      modifies this
      ensures m == Evicted(old(m), order, now)
    {
      var n := 0;
      var firstKey: Option<K> := None;
      while n < |order| && n < EVICTION_SCAN
        invariant 0 <= n <= |Scanned(order)|
        invariant firstKey == if n == 0 then None else Some(order[0])
        invariant m == old(m)
        invariant FirstExpired(Scanned(order), m, now) == FirstExpired(Scanned(order)[n..], m, now)
      {
        var k := order[n];
        assert Scanned(order)[n..][0] == k && Scanned(order)[n..][1..] == Scanned(order)[n + 1..];
        if n == 0 {
          firstKey := Some(k);
        }
        n := n + 1;
        if Expired(m, k, now) {
          m := m - {k};
          return;
        }
      }
      if firstKey.Some? {
        m := m - {firstKey.value};
      }
    }
  }

  /** Some order in which a range over the cache may visit it. */
  method RangeOrder<K(==), V>(m: map<K, V>) returns (order: seq<K>)
    ensures Ranges(order, m.Keys)
  {
    order := [];
    var todo := m.Keys;
    while todo != {}
      invariant todo <= m.Keys && Distinct(order)
      invariant forall k | k in order :: k in m.Keys && k !in todo
      invariant forall k | k in m.Keys :: k in order || k in todo
    {
      var k :| k in todo;
      order := order + [k];
      todo := todo - {k};
    }
  }

  lemma OrderSize<K, V>(order: seq<K>, m: map<K, V>)
    requires Ranges(order, m.Keys)
    ensures |order| == |m|
  {
    DistinctSize(order);
    assert SetOf(order) == m.Keys;
  }

  /** Setting keeps the bound, also when the stored key was already there or was evicted. */
  lemma SetStaysBounded<K, V>(
    m: map<K, Entry<V>>, maxEntries: int, order: seq<K>, scanTime: int, key: K, e: Entry<V>)
    requires 1 <= maxEntries && |m| <= maxEntries && Ranges(order, m.Keys)
    ensures |AfterSet(m, maxEntries, order, scanTime, key, e)| <= maxEntries
  {
    hide Evicted, Expired, Scanned, Ranges;
    var before := AfterEviction(m, maxEntries, order, scanTime);
    if |m| >= maxEntries {
      assert |Evicted(m, order, scanTime)| == |m| - 1 by {
        EvictionChoice(m, order, scanTime);
      }
    }
    assert before[key := e].Keys == before.Keys + {key};
  }

  // ---------- the cache is part of a plain map ----------

  /** What a plain map would remember of a `Set`. */
  datatype Stored<+V> = Stored(value: V, setAt: int, ttl: int)

  /** Calls on the cache; `Drop` is any removal at any time, such as the delete of a `Get`
      that another call has overtaken. */
  datatype Op<K, V> =
    | GetAt(key: K, now: int)
    | SetAt(key: K, value: V, ttl: int, order: seq<K>, scanTime: int, storeTime: int)
    | DeleteKey(key: K)
    | SweepAt(now: int)
    | Drop(key: K)

  function CacheNext<K, V>(m: map<K, Entry<V>>, maxEntries: int, op: Op<K, V>): map<K, Entry<V>> {
    match op
    case GetAt(key, now) => if Expired(m, key, now) then m - {key} else m
    case SetAt(key, value, ttl, order, scanTime, storeTime) =>
      AfterSet(m, maxEntries, order, scanTime, key, Entry(value, storeTime + ttl))
    case DeleteKey(key) => m - {key}
    case SweepAt(now) => map k | k in m && !Expired(m, k, now) :: m[k]
    case Drop(key) => m - {key}
  }

  function CacheAfter<K, V>(ops: seq<Op<K, V>>, maxEntries: int): map<K, Entry<V>> {
    if ops == [] then map[] else CacheNext(CacheAfter(ops[..|ops| - 1], maxEntries), maxEntries, ops[|ops| - 1])
  }

  /** The last `Set` of each key that no `Delete` has followed. */
  function PlainAfter<K, V>(ops: seq<Op<K, V>>): map<K, Stored<V>> {
    if ops == [] then map[]
    else
      var front := PlainAfter(ops[..|ops| - 1]);
      match ops[|ops| - 1]
      case SetAt(key, value, ttl, _, _, storeTime) => front[key := Stored(value, storeTime, ttl)]
      case DeleteKey(key) => front - {key}
      case _ => front
  }

  ghost predicate PartOf<K, V>(m: map<K, Entry<V>>, plain: map<K, Stored<V>>) {
    forall k | k in m :: k in plain && m[k] == Entry(plain[k].value, plain[k].setAt + plain[k].ttl)
  }

  lemma {:induction false} CachePartOfPlainMap<K, V>(ops: seq<Op<K, V>>, maxEntries: int)
    ensures PartOf(CacheAfter(ops, maxEntries), PlainAfter(ops))
  {
    if ops != [] {
      var front, last := ops[..|ops| - 1], ops[|ops| - 1];
      CachePartOfPlainMap(front, maxEntries);
      hide AfterEviction, Expired;
    }
  }

  /** A hit returns the value of the last `Set` not followed by a `Delete`, and only until that
      value's time to live is over. */
  lemma HitIsLastSet<K, V>(ops: seq<Op<K, V>>, maxEntries: int, key: K, now: int)
    requires var m := CacheAfter(ops, maxEntries); key in m && !Expired(m, key, now)
    ensures key in PlainAfter(ops)
    ensures CacheAfter(ops, maxEntries)[key].value == PlainAfter(ops)[key].value
    ensures now <= PlainAfter(ops)[key].setAt + PlainAfter(ops)[key].ttl
  {
  }

  /** A key just set is readable, even if it was its own eviction victim. */
  lemma JustSetIsReadable<K, V>(ops: seq<Op<K, V>>, maxEntries: int, op: Op<K, V>, now: int)
    requires op.SetAt? && now <= op.storeTime + op.ttl
    ensures var m := CacheAfter(ops + [op], maxEntries);
      op.key in m && !Expired(m, op.key, now) && m[op.key].value == op.value
  {
  }

  // ---------- what the cache retains ----------

  /** No `Set` of the run finds the cache full. */
  ghost predicate NeverFull<K, V>(ops: seq<Op<K, V>>, maxEntries: int) {
    maxEntries > 0 ==> forall i | 0 <= i < |ops| && ops[i].SetAt? :: |CacheAfter(ops[..i], maxEntries)| < maxEntries
  }

  ghost predicate NoDrops<K, V>(ops: seq<Op<K, V>>) {
    forall i | 0 <= i < |ops| :: !ops[i].Drop?
  }

  ghost predicate Looks<K, V>(op: Op<K, V>, key: K) {
    op.SweepAt? || (op.GetAt? && op.key == key)
  }

  /** Call `i`, a sweep or a get of the key, finds the value of its last `Set` expired. */
  ghost predicate FoundExpired<K, V>(ops: seq<Op<K, V>>, key: K, i: nat) {
    && i < |ops| && Looks(ops[i], key) && key in PlainAfter(ops[..i])
    && ops[i].now > PlainAfter(ops[..i])[key].setAt + PlainAfter(ops[..i])[key].ttl
    && forall j | i < j < |ops| && ops[j].SetAt? :: ops[j].key != key
  }

  /** As long as no `Set` finds the cache full, nothing is lost: the cache holds the last `Set` of
      every key, not followed by a `Delete`, unless some sweep or get has found it expired. */
  lemma {:induction false} RetainsExactly<K, V>(ops: seq<Op<K, V>>, maxEntries: int, key: K)
    requires NeverFull(ops, maxEntries) && NoDrops(ops)
    ensures key in CacheAfter(ops, maxEntries)
       <==> key in PlainAfter(ops) && forall i: nat :: !FoundExpired(ops, key, i)
  {
    if ops != [] {
      var n := |ops| - 1;
      var front, last := ops[..n], ops[n];
      PrefixNeverFull(ops, maxEntries);
      RetainsExactly(front, maxEntries, key);
      CachePartOfPlainMap(front, maxEntries);
      ExpiredSoFar(ops, key);
      assert last.SetAt? && maxEntries > 0 ==> |CacheAfter(front, maxEntries)| < maxEntries;
      hide NeverFull, FoundExpired, Evicted;
    }
  }

  lemma PrefixNeverFull<K, V>(ops: seq<Op<K, V>>, maxEntries: int)
    requires ops != [] && NeverFull(ops, maxEntries) && NoDrops(ops)
    ensures NeverFull(ops[..|ops| - 1], maxEntries) && NoDrops(ops[..|ops| - 1])
  {
    var front := ops[..|ops| - 1];
    forall i | 0 <= i < |front| ensures front[..i] == ops[..i] {
    }
    hide CacheAfter;
  }

  /** What the last call adds to what has been found expired. */
  lemma ExpiredSoFar<K, V>(ops: seq<Op<K, V>>, key: K)
    requires ops != []
    ensures var front, last := ops[..|ops| - 1], ops[|ops| - 1];
      (exists i: nat :: FoundExpired(ops, key, i)) <==>
        || ((exists i: nat :: FoundExpired(front, key, i)) && !(last.SetAt? && last.key == key))
        || (&& Looks(last, key) && key in PlainAfter(front)
            && last.now > PlainAfter(front)[key].setAt + PlainAfter(front)[key].ttl)
  {
    var n := |ops| - 1;
    var front, last := ops[..n], ops[n];
    hide PlainAfter;
    forall i: nat | i < n ensures front[..i] == ops[..i] {
    }
    forall i: nat | FoundExpired(ops, key, i)
      ensures i == n || FoundExpired(front, key, i)
    {
    }
    if i: nat :| FoundExpired(front, key, i) {
      assert !(last.SetAt? && last.key == key) ==> FoundExpired(ops, key, i);
    }
    assert ops[..n] == front;
    if Looks(last, key) && key in PlainAfter(front)
       && last.now > PlainAfter(front)[key].setAt + PlainAfter(front)[key].ttl {
      assert FoundExpired(ops, key, n);
    }
  }

  ghost function SetKeys<K, V>(ops: seq<Op<K, V>>): set<K> {
    set i | 0 <= i < |ops| && ops[i].SetAt? :: ops[i].key
  }

  /** A run over fewer keys than the maximum never finds the cache full. */
  lemma FewKeysNeverFull<K, V>(ops: seq<Op<K, V>>, maxEntries: int)
    requires maxEntries <= 0 || |SetKeys(ops)| < maxEntries
    ensures NeverFull(ops, maxEntries)
  {
    forall i | 0 <= i < |ops| ensures |CacheAfter(ops[..i], maxEntries)| <= |SetKeys(ops)| {
      KeysWereSet(ops[..i], maxEntries);
      var keys := CacheAfter(ops[..i], maxEntries).Keys;
      assert keys <= SetKeys(ops[..i]) <= SetKeys(ops);
      SubsetSize(keys, SetKeys(ops));
    }
    hide CacheAfter, SetKeys;
  }

  lemma {:induction false} KeysWereSet<K, V>(ops: seq<Op<K, V>>, maxEntries: int)
    ensures CacheAfter(ops, maxEntries).Keys <= SetKeys(ops)
  {
    if ops != [] {
      var front, last := ops[..|ops| - 1], ops[|ops| - 1];
      KeysWereSet(front, maxEntries);
      assert SetKeys(front) <= SetKeys(ops) && (last.SetAt? ==> last.key in SetKeys(ops));
      hide AfterEviction, Expired;
    }
  }

  lemma SubsetSize<T>(a: set<T>, b: set<T>)
    requires a <= b
    ensures |a| <= |b|
  {
    assert b == a + (b - a);
  }

  /** With as many keys as the maximum an entry can be lost long before it expires: a `Set` of a
      key that is there evicts another one from a full cache. */
  lemma FullCacheLosesOnOverwrite()
    ensures var a := SetAt("a", 0, 100, [], 0, 0);
            var b := SetAt("b", 0, 100, ["a"], 0, 0);
            var again := SetAt("b", 1, 100, ["a", "b"], 1, 1);
      && Ranges(["a", "b"], CacheAfter([a, b], 2).Keys)
      && "a" in PlainAfter([a, b, again]) && "a" !in CacheAfter([a, b, again], 2)
  {
    var a := SetAt("a", 0, 100, [], 0, 0);
    var b := SetAt("b", 0, 100, ["a"], 0, 0);
    var again := SetAt("b", 1, 100, ["a", "b"], 1, 1);
    assert [a][..0] == [] && [a, b][..1] == [a] && [a, b, again][..2] == [a, b];
    assert CacheAfter([a], 2) == map["a" := Entry(0, 100)];
    var full := CacheAfter([a, b], 2);
    assert full == map["a" := Entry(0, 100), "b" := Entry(0, 100)];
    assert full.Keys == {"a", "b"};
    assert FirstExpired(["a", "b"], full, 1).None? by {
      FirstExpiredAt(["a", "b"], full, 1);
    }
    assert PlainAfter([a]).Keys == {"a"};
  }

  // ---------- how far concurrent calls can overshoot ----------

  /** `Set` calls in flight by phase: before the size check, found full and about to evict, or
      passed and about to store. Each phase change is one atomic step. */
  datatype Load<K> = Load(
    entries: set<K>, counting: set<nat>, evicting: set<nat>, passed: set<nat>, keys: map<nat, K>)

  datatype LoadStep<K> =
    | Begin(call: nat, key: K)
    | Count(call: nat)
    | EvictStep(call: nat, victim: K)
    | StoreStep(call: nat)
    | Remove(key: K)

  ghost predicate CanTake<K>(s: Load<K>, step: LoadStep<K>, k: nat) {
    match step
    case Begin(c, _) =>
      && c !in s.counting + s.evicting + s.passed
      && |s.counting| + |s.evicting| + |s.passed| < k
    case Count(c) => c in s.counting
    case EvictStep(c, victim) => c in s.evicting && (s.entries != {} ==> victim in s.entries)
    case StoreStep(c) => c in s.passed && c in s.keys
    case Remove(_) => true
  }

  function Take<K>(s: Load<K>, step: LoadStep<K>, maxEntries: nat): Load<K>
    requires step.StoreStep? ==> step.call in s.keys
  {
    match step
    case Begin(c, key) => s.(counting := s.counting + {c}, keys := s.keys[c := key])
    case Count(c) =>
      if |s.entries| >= maxEntries
      then s.(counting := s.counting - {c}, evicting := s.evicting + {c})
      else s.(counting := s.counting - {c}, passed := s.passed + {c})
    case EvictStep(c, victim) =>
      s.(evicting := s.evicting - {c}, passed := s.passed + {c}, entries := s.entries - {victim})
    case StoreStep(c) => s.(passed := s.passed - {c}, entries := s.entries + {s.keys[c]})
    case Remove(key) => s.(entries := s.entries - {key})
  }

  ghost predicate Bounded<K>(s: Load<K>, maxEntries: nat, k: nat) {
    && s.counting !! s.evicting && s.counting !! s.passed && s.evicting !! s.passed
    && |s.counting| + |s.evicting| + |s.passed| <= k
    && |s.entries| + |s.passed| <= maxEntries + k - 1
  }

  lemma SizeAfterMove<T>(a: set<T>, x: T)
    ensures |a + {x}| == |a| + if x in a then 0 else 1
    ensures |a - {x}| == |a| - if x in a then 1 else 0
  {
  }

  lemma StepStaysBounded<K>(s: Load<K>, step: LoadStep<K>, maxEntries: nat, k: nat)
    requires 1 <= maxEntries && 1 <= k && Bounded(s, maxEntries, k) && CanTake(s, step, k)
    ensures Bounded(Take(s, step, maxEntries), maxEntries, k)
  {
    match step
    case Begin(c, _) => SizeAfterMove(s.counting, c);
    case Count(c) =>
      SizeAfterMove(s.counting, c);
      SizeAfterMove(s.evicting, c);
      SizeAfterMove(s.passed, c);
    case EvictStep(c, victim) =>
      SizeAfterMove(s.evicting, c);
      SizeAfterMove(s.passed, c);
      SizeAfterMove(s.entries, victim);
    case StoreStep(c) =>
      SizeAfterMove(s.passed, c);
      SizeAfterMove(s.entries, s.keys[c]);
    case Remove(key) => SizeAfterMove(s.entries, key);
  }

  /** A schedule whose every step can be taken when its turn comes. */
  ghost predicate Schedule<K>(states: seq<Load<K>>, steps: seq<LoadStep<K>>, maxEntries: nat, k: nat) {
    && |states| == |steps| + 1
    && forall i | 0 <= i < |steps| :: StepsTo(states[i], steps[i], states[i + 1], maxEntries, k)
  }

  ghost predicate StepsTo<K>(s: Load<K>, step: LoadStep<K>, s': Load<K>, maxEntries: nat, k: nat) {
    CanTake(s, step, k) && s' == Take(s, step, maxEntries)
  }

  /** A schedule from the empty cache. */
  ghost predicate Run<K>(states: seq<Load<K>>, steps: seq<LoadStep<K>>, maxEntries: nat, k: nat) {
    Schedule(states, steps, maxEntries, k) && states[0] == Load({}, {}, {}, {}, map[])
  }

  /** With at most `k` calls in flight, entries and passed calls together never exceed
      `maxEntries + k - 1`; one call at a time never exceeds `maxEntries`. */
  lemma {:induction false} OvershootIsBounded<K>(
    states: seq<Load<K>>, steps: seq<LoadStep<K>>, maxEntries: nat, k: nat, n: nat)
    requires 1 <= maxEntries && 1 <= k && Run(states, steps, maxEntries, k) && n <= |steps|
    ensures |states[n].entries| + |states[n].passed| <= maxEntries + k - 1
    ensures k == 1 ==> |states[n].entries| <= maxEntries
    ensures Bounded(states[n], maxEntries, k)
  {
    if n > 0 {
      OvershootIsBounded(states, steps, maxEntries, k, n - 1);
      assert StepsTo(states[n - 1], steps[n - 1], states[n], maxEntries, k);
      StepStaysBounded(states[n - 1], steps[n - 1], maxEntries, k);
    }
  }

  function Upto(n: nat): (s: set<nat>)
    ensures |s| == n && forall x: nat :: x in s <==> x < n
  {
    if n == 0 then {} else Upto(n - 1) + {n - 1}
  }

  lemma Extend<K>(states: seq<Load<K>>, steps: seq<LoadStep<K>>, step: LoadStep<K>, maxEntries: nat, k: nat)
    returns (states': seq<Load<K>>, steps': seq<LoadStep<K>>)
    requires Schedule(states, steps, maxEntries, k) && CanTake(states[|steps|], step, k)
    ensures Schedule(states', steps', maxEntries, k) && states'[0] == states[0]
    ensures states'[|steps'|] == Take(states[|steps|], step, maxEntries)
  {
    states', steps' := states + [Take(states[|steps|], step, maxEntries)], steps + [step];
    forall i | 0 <= i < |steps'| ensures StepsTo(states'[i], steps'[i], states'[i + 1], maxEntries, k) {
      if i < |steps| {
        assert StepsTo(states[i], steps[i], states[i + 1], maxEntries, k);
      }
    }
  }

  ghost predicate Idle<K>(s: Load<K>) {
    s.counting == s.evicting == s.passed == {}
  }

  /** Calls one at a time can fill all places but one, with the keys 0, 1, ... */
  lemma FillAlmost(maxEntries: nat, k: nat, n: nat) returns (states: seq<Load<nat>>, steps: seq<LoadStep<nat>>)
    requires 1 <= k && n < maxEntries
    ensures Run(states, steps, maxEntries, k)
    ensures states[|steps|].entries == Upto(n) && Idle(states[|steps|])
  {
    if n == 0 {
      states, steps := [Load({}, {}, {}, {}, map[])], [];
    } else {
      states, steps := FillAlmost(maxEntries, k, n - 1);
      hide Schedule;
      states, steps := Extend(states, steps, Begin(0, n - 1), maxEntries, k);
      states, steps := Extend(states, steps, Count(0), maxEntries, k);
      states, steps := Extend(states, steps, StoreStep(0), maxEntries, k);
    }
  }

  ghost predicate Assigned(keys: map<nat, nat>, free: nat, n: nat) {
    forall c: nat | c < n :: c in keys && keys[c] == free + c
  }

  /** `n` calls for new keys begin before any of them goes on. */
  lemma BeginAll(maxEntries: nat, k: nat, n: nat) returns (states: seq<Load<nat>>, steps: seq<LoadStep<nat>>)
    requires 1 <= maxEntries && 1 <= k && n <= k
    ensures Run(states, steps, maxEntries, k)
    ensures var s := states[|steps|];
      && s.entries == Upto(maxEntries - 1) && s.counting == Upto(n) && s.evicting == s.passed == {}
      && Assigned(s.keys, maxEntries - 1, n)
  {
    if n == 0 {
      states, steps := FillAlmost(maxEntries, k, maxEntries - 1);
    } else {
      states, steps := BeginAll(maxEntries, k, n - 1);
      hide Schedule;
      states, steps := Extend(states, steps, Begin(n - 1, maxEntries - 1 + n - 1), maxEntries, k);
    }
  }

  ghost predicate Counted(s: Load<nat>, free: nat, k: nat, n: nat) {
    && s.entries == Upto(free) && s.counting == Upto(k) - Upto(n) && s.evicting == {}
    && s.passed == Upto(n) && Assigned(s.keys, free, k)
  }

  lemma CountOne(s: Load<nat>, free: nat, k: nat, n: nat)
    requires n < k && Counted(s, free, k, n)
    ensures CanTake(s, Count(n), k) && Counted(Take(s, Count(n), free + 1), free, k, n + 1)
  {
  }

  /** All find the one free place. */
  lemma CountAll(maxEntries: nat, k: nat, n: nat) returns (states: seq<Load<nat>>, steps: seq<LoadStep<nat>>)
    requires 1 <= maxEntries && 1 <= k && n <= k
    ensures Run(states, steps, maxEntries, k) && Counted(states[|steps|], maxEntries - 1, k, n)
  {
    if n == 0 {
      states, steps := BeginAll(maxEntries, k, k);
    } else {
      states, steps := CountAll(maxEntries, k, n - 1);
      CountOne(states[|steps|], maxEntries - 1, k, n - 1);
      hide Schedule, Counted, CanTake, Take;
      states, steps := Extend(states, steps, Count(n - 1), maxEntries, k);
    }
  }

  ghost predicate Filled(s: Load<nat>, free: nat, k: nat, n: nat) {
    s.entries == Upto(free + n) && s.passed == Upto(k) - Upto(n) && Assigned(s.keys, free, k)
  }

  lemma StoreOne(s: Load<nat>, free: nat, k: nat, n: nat)
    requires n < k && Filled(s, free, k, n)
    ensures CanTake(s, StoreStep(n), k) && Filled(Take(s, StoreStep(n), free + 1), free, k, n + 1)
  {
  }

  lemma StoreAll(maxEntries: nat, k: nat, n: nat) returns (states: seq<Load<nat>>, steps: seq<LoadStep<nat>>)
    requires 1 <= maxEntries && 1 <= k && n <= k
    ensures Run(states, steps, maxEntries, k) && Filled(states[|steps|], maxEntries - 1, k, n)
  {
    if n == 0 {
      states, steps := CountAll(maxEntries, k, k);
    } else {
      states, steps := StoreAll(maxEntries, k, n - 1);
      StoreOne(states[|steps|], maxEntries - 1, k, n - 1);
      hide Schedule, Filled, CanTake, Take;
      states, steps := Extend(states, steps, StoreStep(n - 1), maxEntries, k);
    }
  }

  /** The bound is reached: `k` calls can all find one free place before any of them stores. */
  lemma OvershootIsReached(maxEntries: nat, k: nat)
    returns (states: seq<Load<nat>>, steps: seq<LoadStep<nat>>)
    requires 1 <= maxEntries && 1 <= k
    ensures Run(states, steps, maxEntries, k) && |states[|steps|].entries| == maxEntries + k - 1
  {
    states, steps := StoreAll(maxEntries, k, k);
  }
}
