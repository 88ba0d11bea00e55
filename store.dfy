/**
 * The storage layer: one file per (cache name, key) pair, at
 * `cache_name / hex(sha1(key))`, holding the serialized value; the file's
 * modification time is the entry's age reference.
 *
 * The filesystem is the `Store` object: the set of directories, the map from
 * paths to file contents and modification times, and the clock. SHA-1 and the
 * binary codec are parameters that are never looked into.
 */
module Store {
  import opened Wrappers
  import opened Hex

  /** The three kinds of failure the layer reports (their payloads are not modelled). */
  datatype StoreErr = Ser | IO | Time

  datatype Result<T> = Ok(value: T) | Err(error: StoreErr) {
    predicate IsFailure() {
      Err?
    }

    function PropagateFailure<U>(): Result<U>
      requires Err?
    {
      Err(error)
    }

    function Extract(): T
      requires Ok?
    {
      value
    }
  }

  /** A SHA-1 digest: 160 bits. */
  type Digest = d: seq<byte> | |d| == 20 witness [0, 0, 0, 0, 0, 0, 0, 0, 0, 0, 0, 0, 0, 0, 0, 0, 0, 0, 0, 0]

  /** SHA-1 of a key's UTF-8 bytes. */
  type Hasher = string -> Digest

  /**
   * The binary encoding of values of one type. Encoding may fail, and so may
   * decoding: the bytes carry no type tag, so bytes written for one type may
   * not decode as another.
   */
  datatype Codec<!T> = Codec(encode: T -> Option<seq<byte>>, decode: seq<byte> -> Option<T>)

  /** The round-trip law the cache relies on: what was encoded decodes back to itself. */
  ghost predicate Lawful<T(!new)>(codec: Codec<T>) {
    forall v :: codec.encode(v).Some? ==> codec.decode(codec.encode(v).value) == Some(v)
  }

  /** One file: its contents and its modification time. */
  datatype Entry = Entry(bytes: seq<byte>, mtime: nat)

  /** A file path: the directory it lives in and its name there. */
  datatype Path = Path(dir: string, name: string)

  /** The file name of a key: the lower-case hex rendering of its SHA-1 digest. */
  function FmtKey(sha1: Hasher, key: string): (name: string)
    ensures |name| == 40
    ensures forall i | 0 <= i < |name| :: IsHexDigit(name[i])
    ensures FromHex(name) == Some(sha1(key))
  {
    FromToHex(sha1(key));
    ToHex(sha1(key))
  }

  /** `Path::new(cache_name).join(name)` for a one-component relative name. */
  function PathJoin(cacheName: string, name: string): (p: Path)
    ensures p.dir == cacheName && p.name == name
  {
    Path(cacheName, name)
  }

  /** Where the entry of `key` in cache `cacheName` lives. */
  function KeyPath(sha1: Hasher, cacheName: string, key: string): (p: Path)
    ensures p.dir == cacheName
    ensures p.name == FmtKey(sha1, key)
  {
    PathJoin(cacheName, FmtKey(sha1, key))
  }

  /** Two keys share a file exactly when they are in the same cache and their digests collide. */
  lemma KeyPathsEqual(sha1: Hasher, c1: string, k1: string, c2: string, k2: string)
    ensures KeyPath(sha1, c1, k1) == KeyPath(sha1, c2, k2) <==> c1 == c2 && sha1(k1) == sha1(k2)
  {
    ToHexInjective(sha1(k1), sha1(k2));
  }

  /** The directories after `create_dir(name)`: unchanged if refused or already there. */
  function CreatedDirs(dirs: set<string>, denied: set<string>, name: string): (d: set<string>)
  {
    if name in denied then dirs else dirs + {name}
  }

  /** The files after writing `encoded` (if encoding succeeded) to `p` at time `t`. */
  function Saved(files: map<Path, Entry>, denied: set<string>, p: Path, encoded: Option<seq<byte>>, t: nat): map<Path, Entry>
  {
    if encoded.Some? && p.dir !in denied then files[p := Entry(encoded.value, t)] else files
  }

  /** The files after removing `p`, if it exists and its directory may be changed. */
  function Removed(files: map<Path, Entry>, denied: set<string>, p: Path): map<Path, Entry>
  {
    if p in files && p.dir !in denied then files - {p} else files
  }

  /** Time elapsed since `mtime`, as `SystemTime::elapsed` computes it. */
  function Elapsed(mtime: nat, now: nat): (r: Result<nat>)
    ensures r.Err? <==> mtime > now
    ensures r.Err? ==> r.error == Time
    ensures r.Ok? ==> mtime + r.value == now
  {
    if mtime > now then Err(Time) else Ok(now - mtime)
  }

  /**
   * The filesystem and the clock. `denied` names the directories in which the
   * filesystem refuses to create or change anything (permission denied).
   */
  class Store {
    const sha1: Hasher
    const denied: set<string>
    var dirs: set<string>
    var files: map<Path, Entry>
    var now: nat

    constructor (sha1: Hasher, denied: set<string>, now: nat)
      ensures this.denied == denied && this.now == now
      ensures dirs == {} && files == map[]
    {
      this.sha1 := sha1;
      this.denied := denied;
      this.now := now;
      dirs := {};
      files := map[];
    }

    /** Time passes. */
    method Sleep(d: nat)
      modifies this
      ensures now == old(now) + d
      ensures dirs == old(dirs) && files == old(files)
    {
      now := now + d;
    }

    /** The system clock is set to `t`, possibly into the past. */
    method SetClock(t: nat)
      modifies this
      ensures now == t
      ensures dirs == old(dirs) && files == old(files)
    {
      now := t;
    }

    // The filesystem operations the layer uses: `fs::create_dir`, `fs::read`,
    // `fs::write`, `fs::remove_file` and the modification time from `fs::metadata`.

    method CreateDir(name: string) returns (r: Result<()>)
      modifies this
      ensures r == if name !in old(dirs) && name !in denied then Ok(()) else Err(IO)
      ensures dirs == CreatedDirs(old(dirs), denied, name)
      ensures files == old(files) && now == old(now)
    {
      if name in dirs || name in denied {
        return Err(IO);
      }
      dirs := dirs + {name};
      return Ok(());
    }

    method ReadFile(p: Path) returns (r: Result<seq<byte>>)
      ensures p in files ==> r == Ok(files[p].bytes)
      ensures p !in files ==> r == Err(IO)
    {
      if p !in files {
        return Err(IO);
      }
      return Ok(files[p].bytes);
    }

    method WriteFile(p: Path, bytes: seq<byte>) returns (r: Result<()>)
      modifies this
      ensures r == if p.dir in old(dirs) && p.dir !in denied then Ok(()) else Err(IO)
      ensures files == if r.Ok? then old(files)[p := Entry(bytes, old(now))] else old(files)
      ensures dirs == old(dirs) && now == old(now)
    {
      if p.dir !in dirs || p.dir in denied {
        return Err(IO);
      }
      files := files[p := Entry(bytes, now)];
      return Ok(());
    }

    method RemoveFile(p: Path) returns (r: Result<()>)
      modifies this
      ensures r == if p in old(files) && p.dir !in denied then Ok(()) else Err(IO)
      ensures files == Removed(old(files), denied, p)
      ensures dirs == old(dirs) && now == old(now)
    {
      if p !in files || p.dir in denied {
        return Err(IO);
      }
      files := files - {p};
      return Ok(());
    }

    method Modified(p: Path) returns (r: Result<nat>)
      ensures p in files ==> r == Ok(files[p].mtime)
      ensures p !in files ==> r == Err(IO)
    {
      if p !in files {
        return Err(IO);
      }
      return Ok(files[p].mtime);
    }

    // The storage layer proper.

    /** Creates the cache directory if it is missing; every failure is ignored. */
    method CreateCache(name: string)
      modifies this
      ensures dirs == CreatedDirs(old(dirs), denied, name)
      ensures name in old(dirs) ==> dirs == old(dirs)
      ensures name !in denied ==> name in dirs
      ensures files == old(files) && now == old(now)
    {
      var _ := CreateDir(name);
    }

    /**
     * Reads and decodes the entry of `key`: an IO error when its file is
     * absent, a serialization error when its bytes do not decode.
     */
    method Read<T>(codec: Codec<T>, cacheName: string, key: string) returns (r: Result<T>)
      ensures var p := KeyPath(sha1, cacheName, key);
              r == if p !in files then Err(IO)
                   else if codec.decode(files[p].bytes).None? then Err(Ser)
                   else Ok(codec.decode(files[p].bytes).value)
    {
      var name := FmtKey(sha1, key);
      var path := PathJoin(cacheName, name);
      var bytes :- ReadFile(path);
      var decoded := codec.decode(bytes);
      if decoded.None? {
        return Err(Ser);
      }
      return Ok(decoded.value);
    }

    /**
     * Encodes `value` and writes it as the entry of `key`, replacing what was
     * there and stamping it with the current time. The cache directory is
     * created first, so it exists even when encoding then fails.
     */
    method Write<T>(codec: Codec<T>, cacheName: string, key: string, value: T) returns (r: Result<()>)
      modifies this
      ensures r == if codec.encode(value).None? then Err(Ser)
                   else if cacheName in denied then Err(IO)
                   else Ok(())
      ensures dirs == CreatedDirs(old(dirs), denied, cacheName)
      ensures files == Saved(old(files), denied, KeyPath(sha1, cacheName, key), codec.encode(value), old(now))
      ensures r.Ok? ==> files == old(files)[KeyPath(sha1, cacheName, key) := Entry(codec.encode(value).value, old(now))]
      ensures r.Err? ==> files == old(files)
      ensures now == old(now)
    {
      var name := FmtKey(sha1, key);
      CreateCache(cacheName);
      var path := PathJoin(cacheName, name);
      var encoded := codec.encode(value);
      if encoded.None? {
        return Err(Ser);
      }
      r := WriteFile(path, encoded.value);
    }

    /** Deletes the entry of `key`; an IO error, and no change, when it cannot. */
    method Remove(cacheName: string, key: string) returns (r: Result<()>)
      modifies this
      ensures var p := KeyPath(sha1, cacheName, key);
              && (r.Ok? <==> p in old(files) && cacheName !in denied)
              && (r.Err? ==> r.error == IO && files == old(files))
              && (r.Ok? ==> files == old(files) - {p})
      ensures files == Removed(old(files), denied, KeyPath(sha1, cacheName, key))
      ensures dirs == old(dirs) && now == old(now)
    {
      var name := FmtKey(sha1, key);
      var path := PathJoin(cacheName, name);
      r := RemoveFile(path);
    }

    /**
     * The age of the entry of `key`: an IO error when its file is absent, a
     * time error when it was modified after the current time.
     */
    method ItemAge(cacheName: string, key: string) returns (r: Result<nat>)
      ensures var p := KeyPath(sha1, cacheName, key);
              r == if p !in files then Err(IO)
                   else if files[p].mtime > now then Err(Time)
                   else Ok(now - files[p].mtime)
    {
      var name := FmtKey(sha1, key);
      var path := PathJoin(cacheName, name);
      var mtime :- Modified(path);
      r := Elapsed(mtime, now);
    }
  }

  /** Writing a value and reading it back under the same key gives the value. */
  method WriteThenRead<T(!new)>(store: Store, codec: Codec<T>, cacheName: string, key: string, value: T)
    returns (w: Result<()>, r: Result<T>)
    requires Lawful(codec)
    modifies store
    ensures w.Ok? ==> r == Ok(value)
    ensures w.Ok? <==> codec.encode(value).Some? && cacheName !in store.denied
  {
    w := store.Write(codec, cacheName, key, value);
    r := store.Read(codec, cacheName, key);
    if w.Ok? {
      var p := KeyPath(store.sha1, cacheName, key);
      assert store.files[p].bytes == codec.encode(value).value;
      assert codec.decode(store.files[p].bytes) == Some(value);
    }
  }

  /** A write changes no other key's file, unless the digests collide. */
  lemma SavedFrame(files: map<Path, Entry>, denied: set<string>, sha1: Hasher,
                   cacheName: string, key: string, other: Path, encoded: Option<seq<byte>>, t: nat)
    requires other != KeyPath(sha1, cacheName, key)
    ensures var f := Saved(files, denied, KeyPath(sha1, cacheName, key), encoded, t);
            (other in f <==> other in files) && (other in files ==> f[other] == files[other])
  {
  }

  /** Removing an entry that is not there changes nothing. */
  lemma RemovedAbsent(files: map<Path, Entry>, denied: set<string>, p: Path)
    requires p !in files
    ensures Removed(files, denied, p) == files
  {
  }
}
