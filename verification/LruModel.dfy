/**
 The cache as a step system.  A collection is a step of its own that may run at any time, with
 whatever order of equal expiry times the sort happened to produce.
 */
module LruModel {
  import opened Basics

  type Key = string

  /** A cached value; `remover` says whether it wants to be told when it falls out of the cache. */
  datatype Value = Value(tag: int, remover: bool)

  datatype Item = Item(expires: int, value: Value)

  datatype Cache = Cache(
    maxItemCount: int,
    ttl: int,
    items: map<Key, Item>,
    setCounter: int,
    gcInterval: int,
    started: nat,          // collections started so far
    notified: seq<Value>)  // values told of their removal, in order

  datatype Step =
    | Set(key: Key, value: Value, now: int)
    | Get(key: Key, now: int)
    | Has(key: Key)
    | Gc(now: int, keys: seq<Key>) // `keys` is what the sort produced
    | SetGCInterval(interval: int)

  function Initial(maxItemCount: int, ttl: int, gcInterval: int): Cache {
    Cache(maxItemCount, ttl, map[], 0, gcInterval, 0, [])
  }

  // ---------------------------------------------------------------- the operations

  function SetItem(s: Cache, key: Key, value: Value, now: int): Cache {
    var due := s.setCounter + 1 >= s.gcInterval || s.setCounter + 1 == 0;
    s.(items := s.items[key := Item(now + s.ttl, value)],
       setCounter := if due then 0 else s.setCounter + 1,
       started := if due then s.started + 1 else s.started)
  }

  function Touch(s: Cache, key: Key, now: int): Cache {
    if key !in s.items then s else
      s.(items := s.items[key := s.items[key].(expires := now + s.ttl)])
  }

  /** What `Get` returns. */
  function Peek(s: Cache, key: Key): Option<Value> {
    if key in s.items then Some(s.items[key].value) else None
  }

  // ---------------------------------------------------------------- the collector

  /** `keys` lists the keys of the cache once each, by increasing expiry; ties in any order. */
  ghost predicate Sorted(items: map<Key, Item>, keys: seq<Key>) {
    && (forall i | 0 <= i < |keys| :: keys[i] in items)
    && KeySet(keys) == items.Keys
    && Distinct(keys)
    && (forall i, j | 0 <= i < j < |keys| :: items[keys[i]].expires <= items[keys[j]].expires)
  }

  ghost predicate Distinct(keys: seq<Key>) {
    forall i, j | 0 <= i < j < |keys| :: keys[i] != keys[j]
  }

  function KeySet(keys: seq<Key>): (s: set<Key>) {
    set k | k in keys
  }

  /** The first position from `i` on whose key has not expired. */
  function FirstLive(items: map<Key, Item>, keys: seq<Key>, now: int, i: nat): (n: nat)
    requires i <= |keys| && forall j | 0 <= j < |keys| :: keys[j] in items
    ensures i <= n <= |keys|
    decreases |keys| - i
  {
    if i == |keys| || items[keys[i]].expires >= now then i else FirstLive(items, keys, now, i + 1)
  }

  /** How many leading keys have expired. */
  function ExpiredCount(items: map<Key, Item>, keys: seq<Key>, now: int): (n: nat)
    requires forall j | 0 <= j < |keys| :: keys[j] in items
    ensures n <= |keys|
  {
    FirstLive(items, keys, now, 0)
  }

  lemma {:induction false} FirstLiveDivides(items: map<Key, Item>, keys: seq<Key>, now: int, i: nat, j: nat)
    requires Sorted(items, keys) && i <= j < |keys|
    ensures items[keys[j]].expires < now <==> j < FirstLive(items, keys, now, i)
    decreases |keys| - i
  {
    if items[keys[i]].expires < now && i < j {
      FirstLiveDivides(items, keys, now, i + 1, j);
    }
  }

  /** The position of the first key that a collection keeps. */
  function Cut(s: Cache, now: int, keys: seq<Key>): (n: nat)
    requires forall i | 0 <= i < |keys| :: keys[i] in s.items
    ensures n <= |keys|
  {
    Max(ExpiredCount(s.items, keys, now), |keys| - Max(s.maxItemCount, 0))
  }

  /** The items left when the first `n` keys have been deleted. */
  function Kept(items: map<Key, Item>, keys: seq<Key>, n: nat): map<Key, Item>
    requires n <= |keys|
  {
    items - KeySet(keys[..n])
  }

  /** The values among the first `n` keys that must be told of their removal. */
  function Notices(items: map<Key, Item>, keys: seq<Key>, n: nat): seq<Value>
    requires n <= |keys| && forall i | 0 <= i < |keys| :: keys[i] in items
  {
    if n == 0 then [] else
      var v := items[keys[n - 1]].value;
      Notices(items, keys, n - 1) + if v.remover then [v] else []
  }

  /** Deletes one key and tells its value; a key that is not there is left alone. */
  function EvictOne(s: Cache, key: Key): Cache {
    if key !in s.items then s else
      var v := s.items[key].value;
      s.(items := s.items - {key}, notified := s.notified + if v.remover then [v] else [])
  }

  function EvictFirst(s: Cache, keys: seq<Key>, n: nat): (t: Cache)
    requires n <= |keys|
    ensures t == s.(items := t.items, notified := t.notified)
  {
    if n == 0 then s else EvictOne(EvictFirst(s, keys, n - 1), keys[n - 1])
  }

  function Collect(s: Cache, now: int, keys: seq<Key>): Cache
    requires forall i | 0 <= i < |keys| :: keys[i] in s.items
  {
    EvictFirst(s, keys, Cut(s, now, keys))
  }

  // ---------------------------------------------------------------- what one collection does

  lemma {:induction false} KeySetSize(keys: seq<Key>)
    requires Distinct(keys)
    ensures |KeySet(keys)| == |keys|
  {
    if keys != [] {
      KeySetSize(keys[1..]);
      assert KeySet(keys) == {keys[0]} + KeySet(keys[1..]);
    }
  }

  lemma Split(keys: seq<Key>, n: nat)
    requires Distinct(keys) && n <= |keys|
    ensures KeySet(keys) == KeySet(keys[..n]) + KeySet(keys[n..])
    ensures KeySet(keys[..n]) !! KeySet(keys[n..])
  {
    assert keys == keys[..n] + keys[n..];
  }

  /** The key at position `i` is among the first `n`, or among the rest. */
  lemma SideOf(keys: seq<Key>, n: nat, i: nat)
    requires Distinct(keys) && n <= |keys| && i < |keys|
    ensures keys[i] in KeySet(keys[..n]) <==> i < n
    ensures keys[i] in KeySet(keys[n..]) <==> n <= i
  {
    assert if i < n then keys[..n][i] == keys[i] else keys[n..][i - n] == keys[i];
  }

  lemma KeptSize(items: map<Key, Item>, keys: seq<Key>, n: nat)
    requires Sorted(items, keys) && n <= |keys|
    ensures |Kept(items, keys, n)| == |keys| - n
  {
    Split(keys, n);
    KeySetSize(keys[n..]);
    assert Kept(items, keys, n).Keys == KeySet(keys[n..]);
  }

  lemma KeptStep(items: map<Key, Item>, keys: seq<Key>, i: nat)
    requires Sorted(items, keys) && i < |keys|
    ensures keys[i] in Kept(items, keys, i) && Kept(items, keys, i)[keys[i]] == items[keys[i]]
    ensures Kept(items, keys, i + 1) == Kept(items, keys, i) - {keys[i]}
  {
    SideOf(keys, i, i);
    assert keys[..i + 1] == keys[..i] + [keys[i]];
    assert KeySet(keys[..i + 1]) == KeySet(keys[..i]) + {keys[i]};
  }

  /** Evicting one more key. */
  lemma EvictStep(s: Cache, keys: seq<Key>, n: nat, t: Cache)
    requires Sorted(s.items, keys) && n < |keys|
    requires t == s.(items := Kept(s.items, keys, n), notified := s.notified + Notices(s.items, keys, n))
    ensures EvictOne(t, keys[n]) ==
            s.(items := Kept(s.items, keys, n + 1), notified := s.notified + Notices(s.items, keys, n + 1))
  {
    var v := s.items[keys[n]].value;
    KeptStep(s.items, keys, n);
    Regroup(s.notified, Notices(s.items, keys, n), if v.remover then [v] else []);
  }

  /** Evicting the first `n` keys one by one. */
  lemma {:induction false} EvictFirstKeeps(s: Cache, keys: seq<Key>, n: nat)
    requires Sorted(s.items, keys) && n <= |keys|
    ensures EvictFirst(s, keys, n) ==
            s.(items := Kept(s.items, keys, n), notified := s.notified + Notices(s.items, keys, n))
  {
    if n == 0 {
      assert Kept(s.items, keys, 0) == s.items;
      Regroup(s.notified, [], []);
    } else {
      EvictFirstKeeps(s, keys, n - 1);
      EvictStep(s, keys, n - 1, EvictFirst(s, keys, n - 1));
    }
  }

  /** Along the way, the next key is still there, unchanged, and each eviction makes room for one. */
  lemma EvictFirstNext(s: Cache, keys: seq<Key>, n: nat)
    requires Sorted(s.items, keys) && n <= |keys|
    ensures var t := EvictFirst(s, keys, n);
      && |t.items| == |keys| - n && t.maxItemCount == s.maxItemCount
      && (n < |keys| ==> keys[n] in t.items && t.items[keys[n]] == s.items[keys[n]])
  {
    EvictFirstKeeps(s, keys, n);
    KeptSize(s.items, keys, n);
    if n < |keys| { KeptStep(s.items, keys, n); }
  }

  ghost function Unexpired(items: map<Key, Item>, now: int): set<Key> {
    set k | k in items && items[k].expires >= now
  }

  lemma {:induction false} SubsetSize<T>(a: set<T>, b: set<T>)
    requires a <= b
    ensures |a| <= |b|
  {
    if a != {} {
      var x :| x in a;
      SubsetSize(a - {x}, b - {x});
    }
  }

  /** Every cached key has one position in the order. */
  lemma Position(items: map<Key, Item>, keys: seq<Key>, k: Key) returns (i: nat)
    requires Sorted(items, keys) && k in items
    ensures i < |keys| && keys[i] == k
  {
    assert k in KeySet(keys);
    i :| 0 <= i < |keys| && keys[i] == k;
  }

  lemma UnexpiredSize(items: map<Key, Item>, keys: seq<Key>, now: int)
    requires Sorted(items, keys)
    ensures |Unexpired(items, now)| == |keys| - ExpiredCount(items, keys, now)
  {
    var p := ExpiredCount(items, keys, now);
    UnexpiredAreLast(items, keys, now);
    KeySetSize(keys[p..]);
  }

  lemma UnexpiredAreLast(items: map<Key, Item>, keys: seq<Key>, now: int)
    requires Sorted(items, keys)
    ensures Distinct(keys[ExpiredCount(items, keys, now)..])
    ensures Unexpired(items, now) == KeySet(keys[ExpiredCount(items, keys, now)..])
  {
    var p := ExpiredCount(items, keys, now);
    Split(keys, p);
    forall k | k in items
      ensures k in Unexpired(items, now) <==> k in KeySet(keys[p..])
    {
      var i := Position(items, keys, k);
      SideOf(keys, p, i);
      FirstLiveDivides(items, keys, now, 0, i);
    }
    assert KeySet(keys[p..]) <= items.Keys;
  }

  /** A collection removes every expired item, then the oldest until exactly
      min(maxItemCount, unexpired count) remain.  Nothing it removes outlives anything it keeps,
      and what it keeps is unchanged. */
  lemma CollectionIsExact(s: Cache, now: int, keys: seq<Key>)
    requires Sorted(s.items, keys)
    ensures var t := Collect(s, now, keys);
      && |t.items| == Min(Max(s.maxItemCount, 0), |Unexpired(s.items, now)|)
      && (forall k | k in t.items :: k in s.items && t.items[k] == s.items[k] && s.items[k].expires >= now)
      && (forall k, k' | k in s.items && k !in t.items && k' in t.items :: s.items[k].expires <= t.items[k'].expires)
  {
    var n := Cut(s, now, keys);
    var t := Collect(s, now, keys);
    EvictFirstKeeps(s, keys, n);
    KeptSize(s.items, keys, n);
    UnexpiredSize(s.items, keys, now);
    forall k | k in t.items
      ensures s.items[k].expires >= now
    {
      var i := Position(s.items, keys, k);
      SideOf(keys, n, i);
      FirstLiveDivides(s.items, keys, now, 0, i);
    }
    forall k, k' | k in s.items && k !in t.items && k' in t.items
      ensures s.items[k].expires <= t.items[k'].expires
    {
      var i := Position(s.items, keys, k);
      var j := Position(s.items, keys, k');
      SideOf(keys, n, i);
      SideOf(keys, n, j);
    }
  }

  ghost function Rivals(items: map<Key, Item>, key: Key, strictly: bool): set<Key>
    requires key in items
  {
    set k | k in items && k != key &&
      (items[k].expires > items[key].expires || (!strictly && items[k].expires == items[key].expires))
  }

  lemma LaterKeys(items: map<Key, Item>, keys: seq<Key>, i: nat)
    requires Sorted(items, keys) && i < |keys|
    ensures KeySet(keys[i + 1..]) <= Rivals(items, keys[i], false)
    ensures Rivals(items, keys[i], true) <= KeySet(keys[i + 1..])
  {
    Split(keys, i + 1);
    forall k | k in KeySet(keys[i + 1..])
      ensures k in Rivals(items, keys[i], false)
    {
      var j := Position(items, keys, k);
      SideOf(keys, i + 1, j);
    }
    forall k | k in Rivals(items, keys[i], true)
      ensures k in KeySet(keys[i + 1..])
    {
      var j := Position(items, keys, k);
      SideOf(keys, i + 1, j);
    }
  }

  lemma LaterKeysCount(items: map<Key, Item>, keys: seq<Key>, i: nat)
    requires Sorted(items, keys) && i < |keys|
    ensures |Rivals(items, keys[i], true)| <= |keys| - 1 - i <= |Rivals(items, keys[i], false)|
  {
    LaterKeys(items, keys, i);
    KeySetSize(keys[i + 1..]);
    SubsetSize(KeySet(keys[i + 1..]), Rivals(items, keys[i], false));
    SubsetSize(Rivals(items, keys[i], true), KeySet(keys[i + 1..]));
  }

  /** Which items survive, for every order the sort may give to equal expiry times: surely those with
      fewer than `maxItemCount` others at least as young, and surely no others than those with fewer
      than `maxItemCount` others strictly younger. */
  lemma WhoSurvives(s: Cache, now: int, keys: seq<Key>, key: Key)
    requires Sorted(s.items, keys) && key in s.items
    ensures s.items[key].expires >= now && |Rivals(s.items, key, false)| < s.maxItemCount ==>
            key in Collect(s, now, keys).items
    ensures key in Collect(s, now, keys).items ==>
            s.items[key].expires >= now && |Rivals(s.items, key, true)| < s.maxItemCount
  {
    var i := Position(s.items, keys, key);
    LaterKeysCount(s.items, keys, i);
    EvictFirstKeeps(s, keys, Cut(s, now, keys));
    SideOf(keys, Cut(s, now, keys), i);
    FirstLiveDivides(s.items, keys, now, 0, i);
  }
}
