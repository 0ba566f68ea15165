/** The in-memory LRU cache of src/core/cache.py as a state machine over an
    insertion-ordered list of entries (the `OrderedDict`): least recently used
    first, most recently used last. Clock readings are passed in as instants in
    microseconds. */
module Cache {
  import opened Wrappers
  import opened Seqs

  const MicrosPerSecond := 1000000

  /** `CacheEntry` (its metadata dict aside). */
  datatype Entry<V> = Entry(
    key: string,
    value: V,
    createdAt: int,
    lastAccessed: int,
    accessCount: nat,
    ttlSeconds: Option<int>,
    sizeBytes: nat)

  /** `CacheEntry.is_expired` at instant `now`: never without a TTL, otherwise
      strictly after creation plus the TTL. */
  predicate IsExpired<V>(e: Entry<V>, now: int) {
    e.ttlSeconds.Some? && now > e.createdAt + e.ttlSeconds.value * MicrosPerSecond
  }

  /** Once expired, an entry stays expired. */
  lemma ExpiryIsPermanent<V>(e: Entry<V>, now: int, later: int)
    requires IsExpired(e, now) && now <= later
    ensures IsExpired(e, later)
  {
  }

  /** `CacheEntry.touch`. */
  function Touch<V>(e: Entry<V>, now: int): (t: Entry<V>)
    ensures t.accessCount == e.accessCount + 1 && t.lastAccessed == now
    ensures t.(accessCount := e.accessCount, lastAccessed := e.lastAccessed) == e
  {
    e.(lastAccessed := now, accessCount := e.accessCount + 1)
  }

  /** Expiry counts from creation: touching an entry on access does not
      renew its lease. */
  lemma TouchKeepsExpiry<V>(e: Entry<V>, at: int, now: int)
    ensures IsExpired(Touch(e, at), now) <==> IsExpired(e, now)
  {
  }

  /** An entry with a TTL is alive exactly up to its creation plus the TTL. */
  lemma ExpiryBoundary<V>(e: Entry<V>, ttl: int)
    requires e.ttlSeconds == Some(ttl)
    ensures !IsExpired(e, e.createdAt + ttl * MicrosPerSecond)
    ensures IsExpired(e, e.createdAt + ttl * MicrosPerSecond + 1)
  {
  }

  /** `LRUCache`: `entries` is the OrderedDict in order. */
  datatype Lru<V> = Lru(
    maxSize: int,
    defaultTtl: Option<int>,
    entries: seq<Entry<V>>,
    hits: nat,
    misses: nat,
    evictions: nat)

  function NewCache<V>(maxSize: int, defaultTtl: Option<int>): Lru<V> {
    Lru(maxSize, defaultTtl, [], 0, 0, 0)
  }

  predicate DifferentKeys<V>(a: Entry<V>, b: Entry<V>) {
    a.key != b.key
  }

  /** A dict holds each key once. */
  predicate Valid<V>(c: Lru<V>) {
    Pairwise(c.entries, DifferentKeys)
  }

  predicate HasKey<V>(s: seq<Entry<V>>, key: string) {
    exists i :: 0 <= i < |s| && s[i].key == key
  }

  /** `self._cache[key]` */
  function Find<V>(s: seq<Entry<V>>, key: string): (e: Entry<V>)
    requires HasKey(s, key)
    ensures e in s && e.key == key
  {
    if s[0].key == key then s[0] else Find(s[1..], key)
  }

  function KeyIsNot<V>(key: string): Entry<V> -> bool {
    (e: Entry<V>) => e.key != key
  }

  /** `del self._cache[key]` (or nothing when the key is absent). */
  function Without<V>(s: seq<Entry<V>>, key: string): (r: seq<Entry<V>>)
    requires Pairwise(s, DifferentKeys)
    ensures Pairwise(r, DifferentKeys)
    ensures forall i :: 0 <= i < |r| ==> r[i] in s && r[i].key != key
    ensures forall i :: 0 <= i < |s| && s[i].key != key ==> s[i] in r
    ensures !HasKey(r, key)
    ensures HasKey(s, key) ==> |r| == |s| - 1
    ensures !HasKey(s, key) ==> r == s
  {
    var r := Filter(s, KeyIsNot(key));
    FilterPairwise(s, KeyIsNot(key), DifferentKeys);
    forall i | 0 <= i < |r| ensures r[i] in s && r[i].key != key {
      FilterMembership(s, KeyIsNot(key), r[i]);
    }
    forall i | 0 <= i < |s| && s[i].key != key ensures s[i] in r {
      FilterMembership(s, KeyIsNot(key), s[i]);
    }
    WithoutLength(s, key);
    r
  }

  lemma {:induction false} WithoutLength<V>(s: seq<Entry<V>>, key: string)
    requires Pairwise(s, DifferentKeys)
    ensures HasKey(s, key) ==> |Filter(s, KeyIsNot(key))| == |s| - 1
    ensures !HasKey(s, key) ==> Filter(s, KeyIsNot(key)) == s
  {
    if |s| > 0 {
      var tail := s[1..];
      assert Pairwise(tail, DifferentKeys);
      WithoutLength(tail, key);
      if s[0].key == key {
        assert !HasKey(tail, key) by {
          forall i | 0 <= i < |tail|
            ensures tail[i].key != key
          {
            assert DifferentKeys(s[0], s[i + 1]);
          }
        }
        assert !KeyIsNot(key)(s[0]);
        assert Filter(s, KeyIsNot(key)) == Filter(tail, KeyIsNot(key));
      } else {
        assert HasKey(s, key) ==> HasKey(tail, key) by {
          if HasKey(s, key) {
            var i :| 0 <= i < |s| && s[i].key == key;
            assert tail[i - 1].key == key;
          }
        }
        assert HasKey(tail, key) ==> HasKey(s, key) by {
          if HasKey(tail, key) {
            var i :| 0 <= i < |tail| && tail[i].key == key;
            assert s[i + 1].key == key;
          }
        }
        assert KeyIsNot(key)(s[0]);
        assert Filter(s, KeyIsNot(key)) == [s[0]] + Filter(tail, KeyIsNot(key));
        assert s == [s[0]] + tail;
      }
    }
  }

  /** `get(key, default)` at instant `now`: a miss returns `default`; an
      expired entry is dropped and counts as a miss; a hit moves the entry to
      the most-recently-used end, touches it and returns its value. */
  function Get<V>(c: Lru<V>, key: string, default: V, now: int): (res: (Lru<V>, V))
    requires Valid(c)
    ensures Valid(res.0)
    ensures res.0.maxSize == c.maxSize && res.0.defaultTtl == c.defaultTtl && res.0.evictions == c.evictions
    ensures !HasKey(c.entries, key) ==> res == (c.(misses := c.misses + 1), default)
    ensures HasKey(c.entries, key) && IsExpired(Find(c.entries, key), now) ==>
      res == (c.(entries := Without(c.entries, key), misses := c.misses + 1), default)
    ensures HasKey(c.entries, key) && !IsExpired(Find(c.entries, key), now) ==>
      && res.1 == Find(c.entries, key).value
      && res.0 == c.(entries := Without(c.entries, key) + [Touch(Find(c.entries, key), now)], hits := c.hits + 1)
  {
    if !HasKey(c.entries, key) then (c.(misses := c.misses + 1), default)
    else
      var e := Find(c.entries, key);
      if IsExpired(e, now) then (c.(entries := Without(c.entries, key), misses := c.misses + 1), default)
      else
        var rest := Without(c.entries, key);
        var t := Touch(e, now);
        PairwisePrepend(t, [], DifferentKeys);
        PairwiseAppend(rest, [t], DifferentKeys);
        (c.(entries := rest + [t], hits := c.hits + 1), e.value)
  }

  /** `ttl or self.default_ttl`: a TTL of None or 0 falls back to the default. */
  function EffectiveTtl(ttl: Option<int>, defaultTtl: Option<int>): (r: Option<int>)
    ensures ttl.Some? && ttl.value != 0 ==> r == ttl
    ensures ttl.None? || ttl.value == 0 ==> r == defaultTtl
  {
    if ttl.None? || ttl.value == 0 then defaultTtl else ttl
  }

  /** `_evict_lru`: drops the least recently used entry, if any. */
  function EvictLru<V>(c: Lru<V>): (c': Lru<V>)
    ensures |c.entries| > 0 ==> c' == c.(entries := c.entries[1..], evictions := c.evictions + 1)
    ensures |c.entries| == 0 ==> c' == c
  {
    if |c.entries| > 0 then c.(entries := c.entries[1..], evictions := c.evictions + 1) else c
  }

  function Min(a: int, b: int): int {
    if a <= b then a else b
  }

  /** `while len(self._cache) > self.max_size: self._evict_lru()`. With a
      negative `max_size` the loop never ends. */
  function EvictWhileOver<V>(c: Lru<V>): (c': Lru<V>)
    requires c.maxSize >= 0
    ensures |c'.entries| == Min(|c.entries|, c.maxSize)
    ensures c'.entries == c.entries[|c.entries| - |c'.entries|..]
    ensures c'.evictions == c.evictions + (|c.entries| - |c'.entries|)
    ensures c' == c.(entries := c'.entries, evictions := c'.evictions)
    decreases |c.entries|
  {
    if |c.entries| > c.maxSize then
      var next := EvictLru(c);
      var r := EvictWhileOver(next);
      assert c.entries[1..][|next.entries| - |r.entries|..] == c.entries[|c.entries| - |r.entries|..];
      r
    else c
  }

  lemma SuffixKeepsKeysApart<V>(s: seq<Entry<V>>, k: nat)
    requires Pairwise(s, DifferentKeys) && k <= |s|
    ensures Pairwise(s[k..], DifferentKeys)
  {
    forall i, j | 0 <= i < j < |s[k..]|
      ensures DifferentKeys(s[k..][i], s[k..][j])
    {
      assert s[k..][i] == s[k + i] && s[k..][j] == s[k + j];
    }
  }

  /** The entry `set` stores. */
  function Fresh<V>(c: Lru<V>, key: string, value: V, ttl: Option<int>, sizeBytes: nat, now: int): Entry<V> {
    Entry(key, value, now, now, 0, EffectiveTtl(ttl, c.defaultTtl), sizeBytes)
  }

  /** `set(key, value, ttl)` at instant `now`; `sizeBytes` is the pickled size
      (0 when pickling fails). The entry replaces any old one at the
      most-recently-used end, then least recently used entries are evicted
      until at most `max_size` remain. */
  function Set<V>(c: Lru<V>, key: string, value: V, ttl: Option<int>, sizeBytes: nat, now: int): (c': Lru<V>)
    requires Valid(c) && c.maxSize >= 0
    ensures Valid(c')
    ensures var all := Without(c.entries, key) + [Fresh(c, key, value, ttl, sizeBytes, now)];
      && |c'.entries| == Min(|all|, c.maxSize)
      && c'.entries == all[|all| - |c'.entries|..]
      && c'.evictions == c.evictions + (|all| - |c'.entries|)
    ensures c'.hits == c.hits && c'.misses == c.misses && c'.maxSize == c.maxSize && c'.defaultTtl == c.defaultTtl
    ensures c.maxSize >= 1 ==> c'.entries[|c'.entries| - 1] == Fresh(c, key, value, ttl, sizeBytes, now)
    ensures |c'.entries| <= c.maxSize
  {
    var stored := Fresh(c, key, value, ttl, sizeBytes, now);
    var rest := Without(c.entries, key);
    PairwisePrepend(stored, [], DifferentKeys);
    PairwiseAppend(rest, [stored], DifferentKeys);
    var all := rest + [stored];
    var r := EvictWhileOver(c.(entries := all));
    SuffixKeepsKeysApart(all, |all| - |r.entries|);
    r
  }

  /** `delete(key)`: true iff the key was present; only that key goes. */
  function Delete<V>(c: Lru<V>, key: string): (res: (Lru<V>, bool))
    requires Valid(c)
    ensures Valid(res.0)
    ensures res.1 <==> HasKey(c.entries, key)
    ensures res.0 == c.(entries := Without(c.entries, key))
  {
    (c.(entries := Without(c.entries, key)), HasKey(c.entries, key))
  }

  /** `clear()`: no entries; the statistics are kept. */
  function Clear<V>(c: Lru<V>): (c': Lru<V>)
    ensures Valid(c') && c'.entries == []
    ensures c'.hits == c.hits && c'.misses == c.misses && c'.evictions == c.evictions
  {
    c.(entries := [])
  }

  function Live<V>(now: int): Entry<V> -> bool {
    (e: Entry<V>) => !IsExpired(e, now)
  }

  /** `cleanup_expired()` at instant `now`: removes exactly the expired entries,
      keeps the others in order, and returns how many went. */
  function CleanupExpired<V>(c: Lru<V>, now: int): (res: (Lru<V>, nat))
    requires Valid(c)
    ensures Valid(res.0)
    ensures res.0 == c.(entries := res.0.entries)
    ensures forall i :: 0 <= i < |res.0.entries| ==> res.0.entries[i] in c.entries && !IsExpired(res.0.entries[i], now)
    ensures forall i :: 0 <= i < |c.entries| && !IsExpired(c.entries[i], now) ==> c.entries[i] in res.0.entries
    ensures res.0.entries == Filter(c.entries, Live(now))
    ensures res.1 == |c.entries| - |res.0.entries|
  {
    var kept := Filter(c.entries, Live(now));
    FilterPairwise(c.entries, Live(now), DifferentKeys);
    forall i | 0 <= i < |kept| ensures kept[i] in c.entries && !IsExpired(kept[i], now) {
      FilterMembership(c.entries, Live(now), kept[i]);
    }
    forall i | 0 <= i < |c.entries| && !IsExpired(c.entries[i], now) ensures c.entries[i] in kept {
      FilterMembership(c.entries, Live(now), c.entries[i]);
    }
    (c.(entries := kept), |c.entries| - |kept|)
  }

  /** A second cleanup at the same instant removes nothing. */
  lemma CleanupIdempotent<V>(c: Lru<V>, now: int)
    requires Valid(c)
    ensures CleanupExpired(CleanupExpired(c, now).0, now).1 == 0
  {
    FilterIdempotent(c.entries, Live(now));
  }

  /** What `set` stored is what `get` returns, as long as the entry has not
      expired and nothing else touched the cache in between. */
  lemma GetAfterSet<V>(c: Lru<V>, key: string, value: V, ttl: Option<int>, sizeBytes: nat, now: int, later: int, default: V)
    requires Valid(c) && c.maxSize >= 1
    requires !IsExpired(Fresh(c, key, value, ttl, sizeBytes, now), later)
    ensures Get(Set(c, key, value, ttl, sizeBytes, now), key, default, later).1 == value
  {
    var c' := Set(c, key, value, ttl, sizeBytes, now);
    var last := |c'.entries| - 1;
    assert c'.entries[last].key == key;
    assert HasKey(c'.entries, key);
    FindUnique(c'.entries, key, last);
  }

  lemma {:induction false} FindUnique<V>(s: seq<Entry<V>>, key: string, i: nat)
    requires Pairwise(s, DifferentKeys) && i < |s| && s[i].key == key
    ensures Find(s, key) == s[i]
  {
    if i > 0 {
      assert DifferentKeys(s[0], s[i]);
      assert Pairwise(s[1..], DifferentKeys);
      FindUnique(s[1..], key, i - 1);
    }
  }

  /** After `delete(key)`, `get(key)` misses. */
  lemma DeleteThenMiss<V>(c: Lru<V>, key: string, default: V, now: int)
    requires Valid(c)
    ensures var d := Delete(c, key).0;
      Get(d, key, default, now) == (d.(misses := d.misses + 1), default)
  {
  }

  /** Repeated `set`s never leave more than `max_size` entries, and keep keys unique. */
  lemma {:induction false} SetsRespectBound<V>(c: Lru<V>, keys: seq<string>, value: V, now: int)
    requires Valid(c) && c.maxSize >= 0 && |c.entries| <= c.maxSize
    ensures Valid(SetAll(c, keys, value, now)) && |SetAll(c, keys, value, now).entries| <= c.maxSize
    ensures SetAll(c, keys, value, now).maxSize == c.maxSize
    decreases |keys|
  {
    if |keys| > 0 {
      SetsRespectBound(Set(c, keys[0], value, None, 0, now), keys[1..], value, now);
    }
  }

  /** `set(k, value)` for each key in turn. */
  function SetAll<V>(c: Lru<V>, keys: seq<string>, value: V, now: int): Lru<V>
    requires Valid(c) && c.maxSize >= 0
    decreases |keys|
  {
    if |keys| == 0 then c
    else
      var next := Set(c, keys[0], value, None, 0, now);
      SetAll(next, keys[1..], value, now)
  }
}
