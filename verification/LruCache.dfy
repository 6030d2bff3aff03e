/**
 The cache as the object the program keeps: a map updated in place under a lock, and a collector that
 sorts the keys and deletes in two passes.  Each method is proved against its step in LruModel.
 */
module LruCache {
  import opened Basics
  import M = LruModel
  import opened LruModel

  const NANOS_PER_SECOND := 1000 * 1000 * 1000

  /** Some order of the keys by increasing expiry.  Callers learn nothing about ties. */
  method SortKeys(items: map<Key, Item>) returns (keys: seq<Key>)
    ensures Sorted(items, keys)
  {
    keys := [];
    var rest := items.Keys;
    while rest != {}
      invariant rest <= items.Keys
      invariant KeySet(keys) == items.Keys - rest
      invariant Ordered(items, keys)
      decreases rest
    {
      var k :| k in rest;
      assert k !in KeySet(keys);
      keys := Insert(items, keys, k);
      rest := rest - {k};
    }
  }

  ghost predicate Ordered(items: map<Key, Item>, keys: seq<Key>) {
    && (forall i | 0 <= i < |keys| :: keys[i] in items)
    && Distinct(keys)
    && (forall i, j | 0 <= i < j < |keys| :: items[keys[i]].expires <= items[keys[j]].expires)
  }

  method Insert(items: map<Key, Item>, keys: seq<Key>, k: Key) returns (longer: seq<Key>)
    requires Ordered(items, keys) && k in items && k !in KeySet(keys)
    ensures Ordered(items, longer) && KeySet(longer) == KeySet(keys) + {k}
  {
    var pos := 0;
    while pos < |keys| && items[keys[pos]].expires < items[k].expires
      invariant 0 <= pos <= |keys|
      invariant forall i | 0 <= i < pos :: items[keys[i]].expires < items[k].expires
    {
      pos := pos + 1;
    }
    longer := keys[..pos] + [k] + keys[pos..];
    InsertedKeys(keys, pos, k);
    InsertedOrder(items, keys, pos, k);
  }

  lemma InsertedKeys(keys: seq<Key>, pos: nat, k: Key)
    requires pos <= |keys|
    ensures KeySet(keys[..pos] + [k] + keys[pos..]) == KeySet(keys) + {k}
  {
    assert keys == keys[..pos] + keys[pos..];
  }

  lemma InsertedOrder(items: map<Key, Item>, keys: seq<Key>, pos: nat, k: Key)
    requires Ordered(items, keys) && k in items && k !in KeySet(keys) && pos <= |keys|
    requires forall i | 0 <= i < pos :: items[keys[i]].expires < items[k].expires
    requires pos < |keys| ==> items[keys[pos]].expires >= items[k].expires
    ensures Ordered(items, keys[..pos] + [k] + keys[pos..])
  {
    var longer := keys[..pos] + [k] + keys[pos..];
    forall i, j | 0 <= i < j < |longer|
      ensures longer[i] != longer[j] && longer[i] in items && longer[j] in items
      ensures items[longer[i]].expires <= items[longer[j]].expires
    {
      assert i < pos ==> longer[i] == keys[i];
      assert i > pos ==> longer[i] == keys[i - 1];
      assert j < pos ==> longer[j] == keys[j];
      assert j > pos ==> longer[j] == keys[j - 1];
    }
  }

  class LruCache {
    var maxItemCount: int
    var ttl: int
    var items: map<Key, Item>
    var setCounter: int
    var gcInterval: int
    var started: nat           // collector goroutines launched
    var notified: seq<Value>   // calls made to Removed

    ghost function State(): M.Cache
      reads this
    {
      M.Cache(maxItemCount, ttl, items, setCounter, gcInterval, started, notified)
    }

    constructor (maxItemCount: int, ttlSeconds: int)
      ensures State() == M.Initial(maxItemCount, ttlSeconds * NANOS_PER_SECOND, Max(16, maxItemCount / 8))
    {
      var gci := maxItemCount / 8;
      if gci < 16 {
        gci := 16;
      }
      this.maxItemCount, ttl, items := maxItemCount, ttlSeconds * NANOS_PER_SECOND, map[];
      setCounter, gcInterval, started, notified := 0, gci, 0, [];
    }

    method SetGCInterval(interval: int)
      modifies `gcInterval
      ensures State() == old(State()).(gcInterval := interval)
    {
      gcInterval := interval;
    }

    /** A missing value or a blank key is refused before anything changes. */
    method Set(key: Key, v: Option<Value>, now: int) returns (panicked: bool)
      modifies this
      ensures panicked <==> v.None? || key == ""
      ensures State() == if panicked then old(State()) else M.SetItem(old(State()), key, v.value, now)
    {
      if v.None? || key == "" {
        return true;
      }
      panicked := false;
      items := items[key := Item(now + ttl, v.value)];
      setCounter := setCounter + 1;
      if setCounter >= gcInterval {
        setCounter := 0;
      }
      if setCounter == 0 {
        started := started + 1;
      }
    }

    method Get(key: Key, now: int) returns (v: Option<Value>)
      modifies `items
      ensures v == M.Peek(old(State()), key)
      ensures State() == M.Touch(old(State()), key, now)
    {
      if key !in items {
        return None;
      }
      var i := items[key].(expires := now + ttl);
      items := items[key := i];
      v := Some(i.value);
    }

    method Has(key: Key) returns (exists_: bool)
      ensures exists_ <==> M.Peek(State(), key).Some?
    {
      exists_ := key in items;
    }

    method Evict(key: Key)
      modifies `items, `notified
      ensures State() == M.EvictOne(old(State()), key)
    {
      if key in items {
        var v := items[key].value;
        items := items - {key};
        if v.remover {
          notified := notified + [v];
        }
      }
    }

    /** First pass: evict until a key that has not expired.  Returns the last position looked at. */
    method EvictExpired(now: int, keys: seq<Key>) returns (itemNum: nat)
      requires Sorted(items, keys)
      modifies `items, `notified
      ensures var n := ExpiredCount(old(items), keys, now);
        State() == M.EvictFirst(old(State()), keys, n) && itemNum == LastLooked(n, |keys|)
    {
      ghost var s := State();
      itemNum := 0;
      for i := 0 to |keys|
        invariant ExpiredCount(s.items, keys, now) == M.FirstLive(s.items, keys, now, i)
        invariant State() == M.EvictFirst(s, keys, i)
        invariant itemNum == if i == 0 then 0 else i - 1
      {
        itemNum := i;
        M.EvictFirstNext(s, keys, i);
        if items[keys[i]].expires >= now {
          return;
        }
        Evict(keys[i]);
      }
    }

    /** Second pass: evict from position `itemNum` on until the cache is small enough.  When everything
        had expired it starts at the last key, already deleted, and deleting it again does nothing. */
    method EvictOldest(keys: seq<Key>, itemNum: nat, ghost s: M.Cache, ghost n: nat) returns (ghost done: nat)
      requires Sorted(s.items, keys) && n <= |keys| && State() == M.EvictFirst(s, keys, n)
      requires itemNum == LastLooked(n, |keys|)
      requires |items| > maxItemCount
      modifies `items, `notified
      ensures done == Max(n, |keys| - Max(s.maxItemCount, 0)) && State() == M.EvictFirst(s, keys, done)
    {
      done := n;
      M.EvictFirstNext(s, keys, n);
      for j := itemNum to |keys|
        invariant done == Max(n, j) && State() == M.EvictFirst(s, keys, done)
        invariant |keys| - done == |items| > maxItemCount
      {
        done := EvictAt(keys, j, s, done);
        if |items| <= maxItemCount {
          return;
        }
      }
    }

    /** One deletion of the second pass, of the next key or of one already deleted. */
    method EvictAt(keys: seq<Key>, j: nat, ghost s: M.Cache, ghost done: nat) returns (ghost after: nat)
      requires Sorted(s.items, keys) && j < |keys| && (done == j || done == j + 1)
      requires State() == M.EvictFirst(s, keys, done)
      modifies `items, `notified
      ensures after == j + 1 && State() == M.EvictFirst(s, keys, after)
      ensures |items| == |keys| - after && maxItemCount == s.maxItemCount
    {
      M.EvictFirstNext(s, keys, done);
      if done > j { M.EvictFirstKeeps(s, keys, done); }
      Evict(keys[j]);
      after := j + 1;
      M.EvictFirstNext(s, keys, after);
    }

    /** One collection: expired items first, then the oldest while the cache is still too big. */
    method Gc(now: int) returns (ghost order: seq<Key>)
      modifies `items, `notified
      ensures Sorted(old(items), order)
      ensures State() == M.Collect(old(State()), now, order)
    {
      var keys := SortKeys(items);
      order := keys;
      ghost var s, n := State(), ExpiredCount(items, keys, now);
      var itemNum := EvictExpired(now, keys);
      M.EvictFirstNext(s, keys, n);
      if |items| > maxItemCount {
        ghost var done := EvictOldest(keys, itemNum, s, n);
        assert done == M.Cut(s, now, keys);
      }
    }
  }

  /** Where the first pass stops looking when `n` of `size` keys have expired. */
  function LastLooked(n: nat, size: nat): nat {
    if n < size || n == 0 then n else n - 1
  }
}
