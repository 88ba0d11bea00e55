/**
 * The cache facade: an immutable configuration (cache name, optional maximum
 * age, ignore-cache flag) and the typed get-or-fetch protocol over the storage
 * layer, with invalidation of stale and undecodable entries. Every storage
 * error is swallowed.
 */
module Cache {
  import opened Wrappers
  import opened Hex
  import opened Store

  /** The cache name `TinyRef::new` uses. */
  const DefaultCacheName: string := ".tiny_cache"

  /** The state an entry is found in at lookup time. */
  datatype Lookup<T> = Fresh(value: T) | Stale | Corrupt | Missing

  /**
   * The lookup policy for a cache whose maximum age is `maxAge`: no file is
   * Missing; a file older than the limit (when its age can be computed) is
   * Stale; otherwise it is Fresh when its bytes decode and Corrupt when not.
   */
  function Classify<T>(maxAge: Option<nat>, codec: Codec<T>, files: map<Path, Entry>, now: nat, p: Path): Lookup<T>
  {
    if p !in files then Missing
    else if maxAge.Some? && files[p].mtime <= now && now - files[p].mtime > maxAge.value then Stale
    else
      match codec.decode(files[p].bytes)
      case None => Corrupt
      case Some(v) => Fresh(v)
  }

  /** The files once an entry found in state `s` has been invalidated (best effort). */
  function Healed<T>(files: map<Path, Entry>, denied: set<string>, p: Path, s: Lookup<T>): map<Path, Entry>
  {
    if s.Stale? || s.Corrupt? then Removed(files, denied, p) else files
  }

  datatype TinyRef = TinyRef(cacheName: string, maxCacheAge: Option<nat>, ignoreCache: bool) {

    static function WithName(name: string): (r: TinyRef)
      ensures r.cacheName == name
      ensures r.maxCacheAge == None && !r.ignoreCache
    {
      TinyRef(name, None, false)
    }

    static function New(): (r: TinyRef)
      ensures r.cacheName == DefaultCacheName
      ensures r.maxCacheAge == None && !r.ignoreCache
    {
      TinyRef(DefaultCacheName, None, false)
    }

    /** The same configuration with the maximum age set to `d`. */
    function MaxAge(d: nat): (r: TinyRef)
      ensures r.maxCacheAge == Some(d)
      ensures r.cacheName == cacheName && r.ignoreCache == ignoreCache
    {
      this.(maxCacheAge := Some(d))
    }

    /** A copy that bypasses lookups; the receiver is a value and stays as it was. */
    function NoCache(): (r: TinyRef)
      ensures r.ignoreCache
      ensures r.cacheName == cacheName && r.maxCacheAge == maxCacheAge
    {
      this.(ignoreCache := true)
    }

    /** The state `GetCachedOrFetch` acts on: every entry is Missing when lookups are bypassed. */
    function State<T>(codec: Codec<T>, files: map<Path, Entry>, now: nat, p: Path): Lookup<T>
    {
      if ignoreCache then Missing else Classify(maxCacheAge, codec, files, now, p)
    }

    /**
     * Returns the cached value of `key` when it is Fresh, without calling the
     * producer and without writing. Otherwise (Stale or Corrupt entries are
     * invalidated first; with ignore-cache nothing is looked up) the producer
     * is called once, its result `fetched` is written back and returned.
     */
    method GetCachedOrFetch<T>(store: Store, codec: Codec<T>, key: string, fetched: T) returns (r: T, ghost called: bool)
      modifies store
      ensures var p := KeyPath(store.sha1, cacheName, key);
              var s := State(codec, old(store.files), old(store.now), p);
              && r == (if s.Fresh? then s.value else fetched)
              && called == !s.Fresh?
              && store.files == (if s.Fresh? then old(store.files)
                                 else Saved(Healed(old(store.files), store.denied, p, s), store.denied, p,
                                            codec.encode(fetched), old(store.now)))
              && store.dirs == (if s.Fresh? then old(store.dirs)
                                else CreatedDirs(old(store.dirs), store.denied, cacheName))
      ensures ignoreCache ==> called && r == fetched
      ensures ignoreCache ==> store.files == Saved(old(store.files), store.denied, KeyPath(store.sha1, cacheName, key),
                                                   codec.encode(fetched), old(store.now))
      ensures store.now == old(store.now)
    {
      if !ignoreCache {
        var res := Read(store, codec, key);
        if res.Some? {
          return res.value, false;
        }
      }
      r, called := fetched, true;
      Write(store, codec, key, fetched);
    }

    /** Stores `value` under `key`; a storage error is swallowed. */
    method Write<T>(store: Store, codec: Codec<T>, key: string, value: T)
      modifies store
      ensures store.dirs == CreatedDirs(old(store.dirs), store.denied, cacheName)
      ensures store.files == Saved(old(store.files), store.denied, KeyPath(store.sha1, cacheName, key),
                                   codec.encode(value), old(store.now))
      ensures store.now == old(store.now)
    {
      var _ := store.Write(codec, cacheName, key, value);
    }

    /** The age of the entry of `key`, when it can be computed. */
    method ItemAge(store: Store, key: string) returns (r: Option<nat>)
      ensures var p := KeyPath(store.sha1, cacheName, key);
              r == if p in store.files && store.files[p].mtime <= store.now
                   then Some(store.now - store.files[p].mtime) else None
    {
      var age := store.ItemAge(cacheName, key);
      r := if age.Ok? then Some(age.value) else None;
    }

    /**
     * The value of `key` when its entry is Fresh, else None. A Stale or
     * Corrupt entry is invalidated; a Missing one changes nothing.
     */
    method Read<T>(store: Store, codec: Codec<T>, key: string) returns (r: Option<T>)
      modifies store
      ensures var p := KeyPath(store.sha1, cacheName, key);
              var s := Classify(maxCacheAge, codec, old(store.files), old(store.now), p);
              && r == (if s.Fresh? then Some(s.value) else None)
              && store.files == Healed(old(store.files), store.denied, p, s)
      ensures store.dirs == old(store.dirs) && store.now == old(store.now)
    {
      if maxCacheAge.Some? {
        var age := ItemAge(store, key);
        if age.Some? && age.value > maxCacheAge.value {
          Invalidate(store, key);
          return None;
        }
      }
      var res := store.Read(codec, cacheName, key);
      match res
      case Ok(v) =>
        r := Some(v);
      case Err(e) =>
        if e == Ser {
          Invalidate(store, key);
        }
        r := None;
    }

    /** Deletes the entry of `key` if it can; a storage error is swallowed. */
    method Invalidate(store: Store, key: string)
      modifies store
      ensures store.files == Removed(old(store.files), store.denied, KeyPath(store.sha1, cacheName, key))
      ensures store.dirs == old(store.dirs) && store.now == old(store.now)
    {
      var _ := store.Remove(cacheName, key);
    }
  }

  /** The four states, each by what the entry's file is like. */
  lemma ClassifyCases<T>(maxAge: Option<nat>, codec: Codec<T>, files: map<Path, Entry>, now: nat, p: Path)
    ensures Classify(maxAge, codec, files, now, p) == Missing <==> p !in files
    ensures Classify(maxAge, codec, files, now, p) == Stale <==>
              maxAge.Some? && p in files && files[p].mtime <= now && now - files[p].mtime > maxAge.value
    ensures forall v :: Classify(maxAge, codec, files, now, p) == Fresh(v) <==>
              p in files && codec.decode(files[p].bytes) == Some(v)
              && !(maxAge.Some? && files[p].mtime <= now && now - files[p].mtime > maxAge.value)
    ensures Classify(maxAge, codec, files, now, p) == Corrupt <==>
              p in files && codec.decode(files[p].bytes).None?
              && !(maxAge.Some? && files[p].mtime <= now && now - files[p].mtime > maxAge.value)
  {
  }

  /** An age equal to the limit is not stale, nor is an entry whose age cannot be computed. */
  lemma NotStaleAtLimitOrSkew<T>(m: nat, codec: Codec<T>, files: map<Path, Entry>, now: nat, p: Path)
    requires p in files
    requires files[p].mtime + m == now || files[p].mtime > now
    ensures Classify(Some(m), codec, files, now, p) == Classify(None, codec, files, now, p)
  {
  }

  /** Right after a successful write the entry is Fresh and holds the written value, whatever the age limit. */
  lemma FreshAfterSave<T(!new)>(maxAge: Option<nat>, codec: Codec<T>, files: map<Path, Entry>, denied: set<string>,
                                p: Path, v: T, now: nat)
    requires Lawful(codec) && codec.encode(v).Some? && p.dir !in denied
    ensures Classify(maxAge, codec, Saved(files, denied, p, codec.encode(v), now), now, p) == Fresh(v)
  {
  }

  /** An entry written at time `t` is Stale at time `t + d` exactly when `d` exceeds the limit. */
  lemma StaleAfterWait<T>(m: nat, codec: Codec<T>, files: map<Path, Entry>, denied: set<string>, p: Path,
                          encoded: Option<seq<byte>>, t: nat, d: nat)
    requires encoded.Some? && p.dir !in denied
    ensures Classify(Some(m), codec, Saved(files, denied, p, encoded, t), t + d, p) == Stale <==> d > m
  {
  }

  /** After an invalidation the entry is Missing, unless its directory refuses the removal. */
  lemma MissingAfterInvalidate<T>(maxAge: Option<nat>, codec: Codec<T>, files: map<Path, Entry>, denied: set<string>,
                                  p: Path, now: nat)
    requires p.dir !in denied
    ensures Classify(maxAge, codec, Removed(files, denied, p), now, p) == Missing
  {
  }

  /** A successful write-back after a Stale or Corrupt miss leaves just the written entry. */
  lemma HealThenSave<T>(files: map<Path, Entry>, denied: set<string>, p: Path, s: Lookup<T>,
                       encoded: Option<seq<byte>>, t: nat)
    requires encoded.Some?
    ensures Saved(Healed(files, denied, p, s), denied, p, encoded, t) == Saved(files, denied, p, encoded, t)
  {
    if p.dir !in denied && (s.Stale? || s.Corrupt?) && p in files {
      assert (files - {p})[p := Entry(encoded.value, t)] == files[p := Entry(encoded.value, t)];
    }
  }

  /** With `no_cache` every lookup is a miss, whatever is stored. */
  lemma NoCacheAlwaysMisses<T>(cfg: TinyRef, codec: Codec<T>, files: map<Path, Entry>, now: nat, p: Path)
    ensures cfg.NoCache().State(codec, files, now, p) == Missing
  {
  }

  /** Key isolation: writing one key leaves the state of every key with another digest as it was. */
  lemma OtherKeysUnaffected<T>(sha1: Hasher, maxAge: Option<nat>, codec: Codec<T>, files: map<Path, Entry>,
                               denied: set<string>, cacheName: string, written: string, other: string,
                               encoded: Option<seq<byte>>, t: nat, now: nat)
    requires sha1(written) != sha1(other)
    ensures var q := KeyPath(sha1, cacheName, other);
            Classify(maxAge, codec, Saved(files, denied, KeyPath(sha1, cacheName, written), encoded, t), now, q)
            == Classify(maxAge, codec, files, now, q)
  {
    KeyPathsEqual(sha1, cacheName, written, cacheName, other);
  }

  /** Deriving with `no_cache` twice is deriving once; the two builders commute. */
  lemma BuildersCompose(cfg: TinyRef, d: nat, e: nat)
    ensures cfg.NoCache().NoCache() == cfg.NoCache()
    ensures cfg.MaxAge(d).NoCache() == cfg.NoCache().MaxAge(d)
    ensures cfg.MaxAge(e).MaxAge(d) == cfg.MaxAge(d)
  {
  }

  /**
   * The repository's own test: write then read gives the value back, the age
   * grows with the time slept, and after an invalidation the read misses.
   */
  method TestCache<T(!new)>(store: Store, codec: Codec<T>, testStruct: T)
    returns (stored: Option<T>, age: Option<nat>, afterInvalidate: Option<T>)
    requires Lawful(codec) && codec.encode(testStruct).Some? && DefaultCacheName !in store.denied
    modifies store
    ensures stored == Some(testStruct)
    ensures age.Some? && age.value > 50
    ensures afterInvalidate == None
  {
    var tiny := TinyRef.New();
    var key := "testval";
    tiny.Write(store, codec, key, testStruct);
    stored := tiny.Read(store, codec, key);
    store.Sleep(100);
    age := tiny.ItemAge(store, key);
    tiny.Invalidate(store, key);
    afterInvalidate := tiny.Read(store, codec, key);
  }

  /**
   * Expiry end to end: a value written under a 200-unit limit is read back at
   * once; 250 units later the lookup calls the producer, and its result is
   * what is read afterwards.
   */
  method ExpiryScenario<T(!new)>(store: Store, codec: Codec<T>, first: T, second: T)
    returns (early: Option<T>, fetched: T, ghost called: bool, late: Option<T>)
    requires Lawful(codec) && codec.encode(first).Some? && codec.encode(second).Some?
    requires "test_cache" !in store.denied
    modifies store
    ensures early == Some(first)
    ensures called && fetched == second
    ensures late == Some(second)
  {
    var cache := TinyRef.WithName("test_cache").MaxAge(200);
    cache.Write(store, codec, "k", first);
    early := cache.Read(store, codec, "k");
    store.Sleep(250);
    fetched, called := cache.GetCachedOrFetch(store, codec, "k", second);
    late := cache.Read(store, codec, "k");
  }

  /**
   * Clock skew: an entry whose modification time is after the current time
   * has no computable age, so even under a zero limit it is read normally
   * and nothing is removed.
   */
  method ClockSkewScenario<T(!new)>(store: Store, codec: Codec<T>, value: T)
    returns (age: Option<nat>, r: Option<T>)
    requires Lawful(codec) && codec.encode(value).Some? && "skewed" !in store.denied
    modifies store
    ensures age == None
    ensures r == Some(value)
    ensures KeyPath(store.sha1, "skewed", "k") in store.files
  {
    var cache := TinyRef.WithName("skewed").MaxAge(0);
    store.Sleep(1);
    cache.Write(store, codec, "k", value);
    store.SetClock(0);
    age := cache.ItemAge(store, "k");
    r := cache.Read(store, codec, "k");
  }
}
