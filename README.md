# tinycache, modelled in Dafny

tinycache is a small on-disk key/value cache. A value is stored under a string
key in a cache directory (a *namespace*), one file per key, named by the
lower-case hex SHA-1 digest of the key; the file's modification time is the
entry's age. A `TinyRef` configuration (cache name, optional maximum age,
ignore-cache flag) offers get-or-fetch, read, write, invalidate and item-age
on top of that storage layer, and swallows every storage error.

The model has four modules:

- `Wrappers` (wrappers.dfy): the `Option` type.
- `Hex` (hex.dfy): the `{:02x}`-per-byte rendering used for file names, with
  its inverse `FromHex`. The round trip through the inverse proves the
  rendering injective.
- `Store` (store.dfy, for `src/store.rs`): the error kinds `Ser`, `IO` and
  `Time`; the codec and its round-trip law; `FmtKey`, `PathJoin` and
  `KeyPath`. The class `Store` models the filesystem and the clock: the
  directories, a map from paths to (bytes, mtime) entries, the current time,
  and the set `denied` of directories where the filesystem refuses to create
  or change anything. Its methods `CreateCache`, `Read`, `Write`, `Remove`
  and `ItemAge` are written step by step over small methods for `fs::*`.
- `Cache` (cache.dfy, for `src/cache.rs`): the `TinyRef` value with its
  builders, and the facade methods, which take the `Store` they act on. The
  function `Classify` is the four-state lookup policy (Fresh, Stale, Corrupt,
  Missing), defined directly on the entry's file. The facade's `Read` and
  `GetCachedOrFetch` are proved against it, and the lemmas state the policy's
  properties. The repository's unit test, an expiry scenario and a clock-skew
  scenario are client methods whose postconditions are the scenarios'
  assertions.

External pieces are parameters:

- SHA-1 is `Store.sha1`, a function from keys to 20-byte digests that is
  never looked into. Key isolation is therefore stated as an equivalence
  (`Store.KeyPathsEqual`): two keys share a file exactly when their digests
  collide.
- bincode is a `Codec<T>`: an encoder that may fail and a decoder that may
  fail. The round-trip law `Lawful(codec)` is a hypothesis of exactly the
  lemmas and scenarios that need it.
- The producer passed to `get_cached_or_fetch` is the value `fetched` it would
  return, plus a ghost out-parameter `called` that says whether it was
  invoked.

Three points of `read` (src/cache.rs:91-115) shape the policy:

- The age is consulted only when a maximum age is set.
- An age that cannot be computed (a modification time after the current
  time) is not stale, so the entry is read normally.
- Whether an entry is Missing is decided by `store::read` alone.

## Model

| member | source | states |
|---|---|---|
| `Hex.ByteHex` | src/store.rs:53 | two lower-case hex digits per byte, high nibble first, that determine the byte |
| `Hex.ToHex` | src/store.rs:51-55 | the joined rendering has exactly two lower-case hex digits (`[0-9a-f]`) per input byte |
| `Hex.ToHexAt` | src/store.rs:51-55 | byte `i` is rendered at positions `2i` and `2i+1` |
| `Hex.FromToHex` | src/store.rs:51-55 | parsing the rendering gives back the bytes |
| `Hex.ToFromHex` | src/store.rs:51-55 | every string that parses as hex is the rendering of what it parses to |
| `Hex.ToHexInjective` | src/store.rs:51-55 | two byte strings have the same rendering if and only if they are equal |
| `Store.FmtKey` | src/store.rs:45-57 | the file name of a key is 40 lower-case hex digits that parse back to the key's SHA-1 digest |
| `Store.StoreErr` | src/store.rs:11-31 | the three error kinds `Ser`, `IO` and `Time`; the helpers `ser`, `io` and `time` are its constructors |
| `Store.PathJoin` | src/store.rs:41-43 | the joined path lies in the cache directory and carries the given file name |
| `Store.KeyPath` | src/store.rs:63-64 | `path_join(cache_name, fmt_key(key))`, as composed here and at src/store.rs:73-75, 82-83 and 90-91: the entry of a key lives in the cache directory, under the hashed name |
| `Store.KeyPathsEqual` | src/store.rs:41-57 | two (cache, key) pairs resolve to the same path if and only if the caches are equal and the key digests collide |
| `Store.Elapsed` | src/store.rs:94 | a time error exactly when the modification time is after now; otherwise mtime plus the age is now |
| `Store.Store.CreateDir` | src/store.rs:38 | `create_dir` fails with IO on an existing or refused directory, and otherwise adds it |
| `Store.Store.ReadFile` | src/store.rs:65 | `fs::read` gives the file's bytes, or IO when it is absent |
| `Store.Store.WriteFile` | src/store.rs:77 | `fs::write` replaces the file's content and stamps it with now; IO, and no change, when the directory is missing or refused |
| `Store.Store.RemoveFile` | src/store.rs:84 | `fs::remove_file` deletes exactly that file; IO, and no change, when it is absent or its directory is refused |
| `Store.Store.Modified` | src/store.rs:92-93 | the modification time from the file's metadata, or IO when it is absent |
| `Store.Store.CreateCache` | src/store.rs:33-39 | creates the directory if missing; on an existing one it is a silent no-op, and it never reports an error |
| `Store.Store.Read` | src/store.rs:59-67 | IO when the file is absent, Ser when its bytes do not decode, otherwise the decoded value; the store is not modified |
| `Store.Store.Write` | src/store.rs:69-79 | the directory is created first; Ser with no file touched when encoding fails; otherwise the file becomes the encoding stamped with now and every other file is unchanged (IO when the directory is refused) |
| `Store.Store.Remove` | src/store.rs:81-86 | deletes exactly the hashed path and nothing else; IO, with no change, when that file is absent |
| `Store.Store.ItemAge` | src/store.rs:88-96 | IO when the file is absent, Time when its mtime is after now, otherwise now minus mtime |
| `Store.Store.Sleep` | src/cache.rs:145 | time advances by the amount slept; no file or directory changes |
| `Store.Store.SetClock` | src/store.rs:94 | the clock is set, possibly behind a file's mtime, which is what makes a time error possible |
| `Store.WriteThenRead` | src/store.rs:59-79 | under the codec's round-trip law, a successful write followed by a read gives the written value; the write succeeds exactly when encoding succeeds and the directory is not refused |
| `Store.SavedFrame` | src/store.rs:69-79 | a write leaves every other path as it was |
| `Store.RemovedAbsent` | src/store.rs:81-86 | removing an absent file changes nothing |
| `Cache.TinyRef.WithName` | src/cache.rs:19-25 | the given name, no maximum age, lookups not ignored |
| `Cache.TinyRef.New` | src/cache.rs:16-32 | the name `.tiny_cache`, no maximum age, lookups not ignored |
| `Cache.TinyRef.MaxAge` | src/cache.rs:33-37 | only the maximum age changes, to the given duration |
| `Cache.TinyRef.NoCache` | src/cache.rs:39-43 | only the ignore-cache flag changes, to true |
| `Cache.TinyRef.GetCachedOrFetch` | src/cache.rs:47-65 | a Fresh entry's value is returned without calling the producer or writing; otherwise (always with ignore-cache, and then with no lookup or invalidation first) the producer is called once, its result is written back after any invalidation, and it is returned |
| `Cache.TinyRef.Write` | src/cache.rs:66-81 | the storage write's effect, with its error swallowed |
| `Cache.TinyRef.ItemAge` | src/cache.rs:82-84 | the age when the storage layer can compute it, else None |
| `Cache.TinyRef.Read` | src/cache.rs:85-116 | Some(v) for a Fresh entry; None otherwise; Stale and Corrupt entries are removed (best effort) and a Missing one changes nothing |
| `Cache.TinyRef.Invalidate` | src/cache.rs:117-122 | removes the entry if it can; errors are swallowed, and an absent key leaves the store as it was |
| `Cache.ClassifyCases` | src/cache.rs:91-115 | Missing exactly when there is no file; Stale exactly when a limit is set, the age is computable and strictly above it; Fresh(v) exactly when not stale and the bytes decode to v; Corrupt exactly when not stale and they do not decode |
| `Cache.NotStaleAtLimitOrSkew` | src/cache.rs:91-100 | an age equal to the limit, or one that cannot be computed, is not stale: the entry is treated as with no limit |
| `Cache.FreshAfterSave` | src/cache.rs:139-142 | right after a successful write the entry is Fresh with the written value, whatever the limit |
| `Cache.StaleAfterWait` | src/cache.rs:91-98 | an entry written at `t` is Stale at `t + d` exactly when `d` exceeds the limit |
| `Cache.MissingAfterInvalidate` | src/cache.rs:117-122 | after an invalidation that is not refused, the entry is Missing |
| `Cache.HealThenSave` | src/cache.rs:54-64 | a successful write-back after a Stale or Corrupt miss leaves just the new entry |
| `Cache.NoCacheAlwaysMisses` | src/cache.rs:39-43 | with `no_cache` the lookup state is Missing whatever is stored |
| `Cache.OtherKeysUnaffected` | src/cache.rs:66-81 | writing one key leaves the lookup state of every key with a different digest unchanged |
| `Cache.BuildersCompose` | src/cache.rs:33-43 | `no_cache` is idempotent, it commutes with `max_age`, and the last `max_age` wins |
| `Cache.TestCache` | src/cache.rs:129-153 | write then read gives the value; after sleeping 100 the age exceeds 50; after invalidation the read is None |
| `Cache.ExpiryScenario` | src/cache.rs:48-116 | with a 200 limit, a value is read back at once; 250 later get-or-fetch calls the producer and returns its value, which a later read returns |
| `Cache.ClockSkewScenario` | src/cache.rs:91-102 | after the clock is set behind an entry's mtime, `item_age` is None and, even under a zero limit, `read` returns the value and keeps the entry |

## Left out

- The real filesystem. Disk-full errors, unreadable files and a platform
  without modification times are not modelled. Permission failures are the
  `denied` set.
- Parent directories. `create_dir` is not recursive, and a cache name whose
  parent is missing makes every write fail. The model treats directory names
  as flat.
- Path normalisation. Two spellings of one directory (`a` and `./a`) are two
  caches here. A path is the (directory, name) pair that `Path::join`
  produces for a one-component relative name, which a hex name always is.
- SHA-1 internals and the key's UTF-8 encoding. Both are folded into the
  uninterpreted `sha1` function. That distinct keys get distinct digests is
  never assumed globally; it is a hypothesis where it is used.
- The bincode format. It is the abstract `Codec`, and the error payloads of
  all three error kinds are dropped.
- `SystemTime` and `Duration`. Both are natural numbers in one unit.
- The `tracing` logging. It has no effect on control flow.
- Concurrency and cross-process races. The code does no locking.
- `src/lib.rs`. It only delegates to `TinyRef::new` and `TinyRef::with_name`.
- The producer's own behaviour. Only its result and the fact that it was
  called are modelled.
