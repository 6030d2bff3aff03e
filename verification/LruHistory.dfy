/**
 The cache over whole runs, told from the history: what was set and touched, and when collections
 ran.  A run may interleave collections with the other operations in any way.
 */
module LruHistory {
  import opened Basics
  import opened LruModel

  /** What a cache is made with. */
  datatype Config = Config(maxItemCount: int, ttl: int, gcInterval: int)

  ghost predicate Enabled(s: Cache, e: Step) {
    match e
    case Set(key, _, _) => key != ""
    case Gc(_, keys) => Sorted(s.items, keys)
    case _ => true
  }

  ghost function Apply(s: Cache, e: Step): (t: Cache)
    requires Enabled(s, e)
    ensures t.ttl == s.ttl && t.maxItemCount == s.maxItemCount
  {
    match e
    case Set(key, value, now) => SetItem(s, key, value, now)
    case Get(key, now) => Touch(s, key, now)
    case Has(_) => s
    case Gc(now, keys) => Collect(s, now, keys)
    case SetGCInterval(interval) => s.(gcInterval := interval)
  }

  ghost predicate Legal(c: Config, es: seq<Step>)
    decreases |es|, 0
  {
    es == [] || (Legal(c, es[..|es| - 1]) && Enabled(After(c, es[..|es| - 1]), es[|es| - 1]))
  }

  ghost function After(c: Config, es: seq<Step>): (s: Cache)
    requires Legal(c, es)
    ensures s.ttl == c.ttl && s.maxItemCount == c.maxItemCount
    decreases |es|, 1
  {
    if es == [] then Initial(c.maxItemCount, c.ttl, c.gcInterval)
    else Apply(After(c, es[..|es| - 1]), es[|es| - 1])
  }

  // ---------------------------------------------------------------- the reference reading of a history

  ghost function LastSet(es: seq<Step>, key: Key): Option<Value> {
    if es == [] then None else
      var e := es[|es| - 1];
      if e.Set? && e.key == key then Some(e.value) else LastSet(es[..|es| - 1], key)
  }

  /** When the key was last set or asked for. */
  ghost function LastAccess(es: seq<Step>, key: Key): Option<int> {
    if es == [] then None else
      var e := es[|es| - 1];
      if (e.Set? || e.Get?) && e.key == key then Some(e.now) else LastAccess(es[..|es| - 1], key)
  }

  ghost function EverSet(es: seq<Step>): set<Key> {
    set i | 0 <= i < |es| && es[i].Set? :: es[i].key
  }

  /** Other keys set so far whose last access is no earlier than this key's. */
  ghost function Competitors(es: seq<Step>, key: Key): set<Key> {
    set k | k in EverSet(es) && k != key && LastAccess(es, key).Some? && LastAccess(es, k).Some?
            && LastAccess(es, k).value >= LastAccess(es, key).value
  }

  /** A collection at this point of the history cannot take the key. */
  ghost predicate Spares(c: Config, before: seq<Step>, key: Key, now: int) {
    && LastAccess(before, key).Some?
    && LastAccess(before, key).value + c.ttl >= now
    && |Competitors(before, key)| < c.maxItemCount
  }

  /** The key was set, and every collection since then has had to spare it. */
  ghost predicate Protected(c: Config, es: seq<Step>, key: Key) {
    exists r :: 0 <= r < |es| && es[r].Set? && es[r].key == key && SparedSince(c, es, key, r)
  }

  ghost predicate SparedSince(c: Config, es: seq<Step>, key: Key, r: nat) {
    forall j | r < j < |es| && es[j].Gc? :: Spares(c, es[..j], key, es[j].now)
  }

  lemma ProtectedStep(c: Config, es: seq<Step>, e: Step, key: Key)
    requires Protected(c, es + [e], key) && !(e.Set? && e.key == key)
    ensures Protected(c, es, key) && (e.Gc? ==> Spares(c, es, key, e.now))
  {
    var fs := es + [e];
    var r :| 0 <= r < |fs| && fs[r].Set? && fs[r].key == key && SparedSince(c, fs, key, r);
    assert r < |es| && es[r] == fs[r];
    forall j | r < j < |es| && es[j].Gc?
      ensures Spares(c, es[..j], key, es[j].now)
    {
      assert fs[j] == es[j] && fs[..j] == es[..j];
    }
    if e.Gc? {
      assert fs[|es|] == e && fs[..|es|] == es;
    }
  }

  // ---------------------------------------------------------------- the cache tracks the history

  /** A cached item holds the value last set and expires `ttl` after the last access. */
  ghost predicate Tracks(c: Config, s: Cache, es: seq<Step>) {
    forall k | k in s.items ::
      && k in EverSet(es)
      && LastSet(es, k) == Some(s.items[k].value)
      && LastAccess(es, k) == Some(s.items[k].expires - c.ttl)
  }

  lemma CollectKeepsItems(s: Cache, now: int, keys: seq<Key>)
    requires Sorted(s.items, keys)
    ensures forall k | k in Collect(s, now, keys).items :: k in s.items && Collect(s, now, keys).items[k] == s.items[k]
  {
    EvictFirstKeeps(s, keys, Cut(s, now, keys));
  }

  /** One step more of the history, as it reads for one key. */
  lemma HistoryStep(es: seq<Step>, e: Step, key: Key)
    ensures key in EverSet(es + [e]) <==> key in EverSet(es) || (e.Set? && e.key == key)
    ensures LastSet(es + [e], key) == if e.Set? && e.key == key then Some(e.value) else LastSet(es, key)
    ensures LastAccess(es + [e], key) ==
            if (e.Set? || e.Get?) && e.key == key then Some(e.now) else LastAccess(es, key)
  {
    var fs := es + [e];
    assert fs[..|es|] == es && fs[|es|] == e;
    if i :| 0 <= i < |es| && es[i].Set? && es[i].key == key {
      assert fs[i] == es[i];
    }
    if i :| 0 <= i < |fs| && fs[i].Set? && fs[i].key == key {
      assert i < |es| ==> es[i] == fs[i];
    }
  }

  /** What a step does to one item. */
  lemma ItemStep(s: Cache, e: Step, k: Key)
    requires Enabled(s, e) && k in Apply(s, e).items
    ensures var t := Apply(s, e);
      if e.Set? && e.key == k then t.items[k] == Item(e.now + s.ttl, e.value)
      else k in s.items && t.items[k] == if e.Get? && e.key == k then s.items[k].(expires := e.now + s.ttl) else s.items[k]
  {
    if e.Gc? { CollectKeepsItems(s, e.now, e.keys); }
  }

  lemma TracksStep(c: Config, s: Cache, es: seq<Step>, e: Step)
    requires s.ttl == c.ttl && Tracks(c, s, es) && Enabled(s, e)
    ensures Tracks(c, Apply(s, e), es + [e])
  {
    forall k | k in Apply(s, e).items
      ensures k in EverSet(es + [e])
      ensures LastSet(es + [e], k) == Some(Apply(s, e).items[k].value)
      ensures LastAccess(es + [e], k) == Some(Apply(s, e).items[k].expires - c.ttl)
    {
      HistoryStep(es, e, k);
      ItemStep(s, e, k);
    }
  }

  lemma {:induction false} CacheTracksHistory(c: Config, es: seq<Step>)
    requires Legal(c, es)
    ensures Tracks(c, After(c, es), es)
  {
    if es != [] {
      var before := es[..|es| - 1];
      CacheTracksHistory(c, before);
      assert before + [es[|es| - 1]] == es;
      TracksStep(c, After(c, before), before, es[|es| - 1]);
    }
  }

  /** `Get` returns nothing or the value most recently set for that key. */
  lemma GetReturnsLastSet(c: Config, es: seq<Step>, key: Key)
    requires Legal(c, es)
    ensures Peek(After(c, es), key).None? || Peek(After(c, es), key) == LastSet(es, key)
    ensures LastSet(es, key).None? ==> Peek(After(c, es), key).None?
  {
    CacheTracksHistory(c, es);
  }

  lemma CompetitorsCoverRivals(c: Config, s: Cache, es: seq<Step>, key: Key)
    requires Tracks(c, s, es) && key in s.items
    ensures |Rivals(s.items, key, false)| <= |Competitors(es, key)|
  {
    SubsetSize(Rivals(s.items, key, false), Competitors(es, key));
  }

  /** A value that every later collection had to spare is still there: it was unexpired each time, and
      each time fewer than `maxItemCount` other keys had been accessed as recently. */
  lemma {:induction false} ProtectedIsReturned(c: Config, es: seq<Step>, key: Key)
    requires Legal(c, es) && Protected(c, es, key)
    ensures Peek(After(c, es), key) == LastSet(es, key)
    ensures Peek(After(c, es), key).Some?
  {
    var before, e := es[..|es| - 1], es[|es| - 1];
    CacheTracksHistory(c, es);
    if !(e.Set? && e.key == key) {
      assert before + [e] == es;
      ProtectedStep(c, before, e, key);
      ProtectedIsReturned(c, before, key);
      var s := After(c, before);
      if e.Gc? {
        CacheTracksHistory(c, before);
        CompetitorsCoverRivals(c, s, before, key);
        WhoSurvives(s, e.now, e.keys, key);
      }
    }
  }

  // ---------------------------------------------------------------- conservation

  /** How many sets of this key found it absent. */
  ghost function Insertions(c: Config, es: seq<Step>, key: Key): nat
    requires Legal(c, es)
  {
    if es == [] then 0 else
      var before, e := es[..|es| - 1], es[|es| - 1];
      Insertions(c, before, key) + if e.Set? && e.key == key && key !in After(c, before).items then 1 else 0
  }

  ghost function TotalInsertions(c: Config, es: seq<Step>): nat
    requires Legal(c, es)
  {
    if es == [] then 0 else
      var before, e := es[..|es| - 1], es[|es| - 1];
      TotalInsertions(c, before) + if e.Set? && e.key !in After(c, before).items then 1 else 0
  }

  datatype Eviction = Eviction(key: Key, value: Value)

  ghost function Removals(items: map<Key, Item>, keys: seq<Key>, n: nat): (r: seq<Eviction>)
    requires n <= |keys| && forall i | 0 <= i < |keys| :: keys[i] in items
    ensures |r| == n && forall i | 0 <= i < n :: r[i] == Eviction(keys[i], items[keys[i]].value)
  {
    seq(n, i requires 0 <= i < n => Eviction(keys[i], items[keys[i]].value))
  }

  /** Every eviction of the run, in order. */
  ghost function Evictions(c: Config, es: seq<Step>): seq<Eviction>
    requires Legal(c, es)
  {
    if es == [] then [] else
      var before, e := es[..|es| - 1], es[|es| - 1];
      if !e.Gc? then Evictions(c, before) else
        var s := After(c, before);
        Evictions(c, before) + Removals(s.items, e.keys, Cut(s, e.now, e.keys))
  }

  function CountKey(vs: seq<Eviction>, key: Key): nat {
    if vs == [] then 0 else CountKey(vs[..|vs| - 1], key) + if vs[|vs| - 1].key == key then 1 else 0
  }

  /** The values that must hear of these evictions, once per eviction. */
  function ToNotify(vs: seq<Eviction>): seq<Value> {
    if vs == [] then [] else
      var v := vs[|vs| - 1].value;
      ToNotify(vs[..|vs| - 1]) + if v.remover then [v] else []
  }

  lemma {:induction false} CountKeyConcat(a: seq<Eviction>, b: seq<Eviction>, key: Key)
    ensures CountKey(a + b, key) == CountKey(a, key) + CountKey(b, key)
  {
    if b == [] {
      assert a + b == a;
    } else {
      CountKeyConcat(a, b[..|b| - 1], key);
      assert (a + b)[..|a + b| - 1] == a + b[..|b| - 1];
    }
  }

  lemma ToNotifySnoc(vs: seq<Eviction>, v: Eviction)
    ensures ToNotify(vs + [v]) == ToNotify(vs) + if v.value.remover then [v.value] else []
  {
    assert (vs + [v])[..|vs|] == vs;
  }

  lemma {:induction false} ToNotifyConcat(a: seq<Eviction>, b: seq<Eviction>)
    ensures ToNotify(a + b) == ToNotify(a) + ToNotify(b)
  {
    if b == [] {
      Regroup(a, [], []);
      Regroup(ToNotify(a), [], []);
    } else {
      var init, v := b[..|b| - 1], b[|b| - 1];
      assert b == init + [v];
      ToNotifyConcat(a, init);
      Regroup(a, init, [v]);
      ToNotifySnoc(a + init, v);
      ToNotifySnoc(init, v);
      Regroup(ToNotify(a), ToNotify(init), if v.value.remover then [v.value] else []);
    }
  }

  lemma RemovalsPrefix(items: map<Key, Item>, keys: seq<Key>, n: nat)
    requires 0 < n <= |keys| && forall i | 0 <= i < |keys| :: keys[i] in items
    ensures Removals(items, keys, n)[..n - 1] == Removals(items, keys, n - 1)
  {
  }

  lemma InHead(keys: seq<Key>, n: nat, key: Key)
    requires Distinct(keys) && 0 < n <= |keys|
    ensures key in keys[..n] <==> key in keys[..n - 1] || key == keys[n - 1]
    ensures keys[n - 1] !in keys[..n - 1]
  {
    assert keys[..n] == keys[..n - 1] + [keys[n - 1]];
  }

  lemma {:induction false} RemovalsCount(items: map<Key, Item>, keys: seq<Key>, n: nat, key: Key)
    requires Distinct(keys) && n <= |keys| && forall i | 0 <= i < |keys| :: keys[i] in items
    ensures CountKey(Removals(items, keys, n), key) == if key in keys[..n] then 1 else 0
  {
    if n > 0 {
      RemovalsCount(items, keys, n - 1, key);
      RemovalsPrefix(items, keys, n);
      InHead(keys, n, key);
    }
  }

  lemma {:induction false} RemovalsNotify(items: map<Key, Item>, keys: seq<Key>, n: nat)
    requires n <= |keys| && forall i | 0 <= i < |keys| :: keys[i] in items
    ensures ToNotify(Removals(items, keys, n)) == Notices(items, keys, n)
  {
    if n > 0 {
      RemovalsNotify(items, keys, n - 1);
      RemovalsPrefix(items, keys, n);
    }
  }

  /** Conservation, key by key: every insertion is still cached or was evicted, exactly once. */
  lemma {:induction false} InsertionsAreConserved(c: Config, es: seq<Step>, key: Key)
    requires Legal(c, es)
    ensures Insertions(c, es, key) ==
            CountKey(Evictions(c, es), key) + if key in After(c, es).items then 1 else 0
  {
    if es != [] {
      var before, e := es[..|es| - 1], es[|es| - 1];
      InsertionsAreConserved(c, before, key);
      if e.Gc? {
        var s := After(c, before);
        var n := Cut(s, e.now, e.keys);
        EvictFirstKeeps(s, e.keys, n);
        CountKeyConcat(Evictions(c, before), Removals(s.items, e.keys, n), key);
        RemovalsCount(s.items, e.keys, n, key);
        assert key in e.keys[..n] ==> key in KeySet(e.keys[..n]);
      }
    }
  }

  /** Conservation in total, and every evicted value that asked for it is told, once per eviction and
      in order; nobody else is. */
  lemma {:induction false} EvictionsAreConserved(c: Config, es: seq<Step>)
    requires Legal(c, es)
    ensures TotalInsertions(c, es) == |After(c, es).items| + |Evictions(c, es)|
    ensures After(c, es).notified == ToNotify(Evictions(c, es))
  {
    if es != [] {
      var before, e := es[..|es| - 1], es[|es| - 1];
      EvictionsAreConserved(c, before);
      var s := After(c, before);
      if e.Gc? {
        var n := Cut(s, e.now, e.keys);
        EvictFirstKeeps(s, e.keys, n);
        ToNotifyConcat(Evictions(c, before), Removals(s.items, e.keys, n));
        RemovalsNotify(s.items, e.keys, n);
        KeptSize(s.items, e.keys, n);
        KeySetSize(e.keys);
        assert |s.items| == |s.items.Keys|;
      } else if e.Get? && e.key in s.items {
        assert After(c, es).items.Keys == s.items.Keys;
      } else if e.Set? {
        assert After(c, es).items.Keys == s.items.Keys + {e.key};
      }
    }
  }

  // ---------------------------------------------------------------- size, and when collections start

  ghost function SetsSinceGc(es: seq<Step>): nat {
    if es == [] then 0 else
      var before, e := es[..|es| - 1], es[|es| - 1];
      if e.Gc? then 0 else SetsSinceGc(before) + if e.Set? then 1 else 0
  }

  /** The cache overshoots its limit by at most the sets made since the last collection. */
  lemma {:induction false} SizeIsBounded(c: Config, es: seq<Step>)
    requires Legal(c, es)
    ensures |After(c, es).items| <= Max(c.maxItemCount, 0) + SetsSinceGc(es)
  {
    if es != [] {
      var before, e := es[..|es| - 1], es[|es| - 1];
      SizeIsBounded(c, before);
      var s := After(c, before);
      if e.Gc? {
        CollectionIsExact(s, e.now, e.keys);
      } else if e.Get? && e.key in s.items {
        assert After(c, es).items.Keys == s.items.Keys;
      } else if e.Set? {
        assert After(c, es).items.Keys == s.items.Keys + {e.key};
      }
    }
  }

  ghost function SetCount(es: seq<Step>): nat {
    if es == [] then 0 else SetCount(es[..|es| - 1]) + if es[|es| - 1].Set? then 1 else 0
  }

  lemma CounterStep(s: Cache, e: Step, n: int, count: int)
    requires Enabled(s, e) && !e.SetGCInterval?
    requires n == Max(s.gcInterval, 1) && 0 <= s.setCounter < n && count == s.started * n + s.setCounter
    ensures var t := Apply(s, e);
      && t.gcInterval == s.gcInterval && 0 <= t.setCounter < n
      && t.started * n + t.setCounter == count + if e.Set? then 1 else 0
  {
    assert (s.started + 1) * n == s.started * n + n;
  }

  /** With a fixed interval, a collection is started on every `gcInterval`-th set; an interval below
      one acts as one. */
  lemma {:induction false} CollectionsStartRegularly(c: Config, es: seq<Step>)
    requires Legal(c, es)
    requires forall i | 0 <= i < |es| :: !es[i].SetGCInterval?
    ensures var s := After(c, es);
      && s.gcInterval == c.gcInterval
      && 0 <= s.setCounter < Max(c.gcInterval, 1)
      && SetCount(es) == s.started * Max(c.gcInterval, 1) + s.setCounter
  {
    if es != [] {
      var before := es[..|es| - 1];
      CollectionsStartRegularly(c, before);
      CounterStep(After(c, before), es[|es| - 1], Max(c.gcInterval, 1), SetCount(before));
    }
  }
}
