/**
 * The response cache of internal/cache/cache.go: a table from request URL
 * to entry, and a running total `currentSize` of the entries' recorded
 * sizes. The mutex, the reaper goroutine and its ticker are left out: each
 * method here is one critical section, and the clock reading time.Now()
 * is the parameter `now`. The write-through SaveCache call at the end of
 * Add does not change the table and is not modelled.
 */
module Store {
  import opened Entries
  import opened Config

  /** What reading the cache file gave LoadCache. */
  datatype LoadSource =
    | Missing                        // os.Open reports that the file does not exist
    | OpenFailed                     // any other os.Open error
    | ReadFailed                     // gzip.NewReader or io.ReadAll failed
    | DecodeFailed(partial: Table)   // json.Unmarshal failed after merging `partial`
    | Decoded(entries: Table)        // json.Unmarshal decoded `entries`

  class Cache {
    var cache: Table
    var currentSize: int
    var filePath: string
    const config: CacheConfig

    /** The size invariant: the running total is the sum of the recorded sizes. */
    ghost predicate Valid()
      reads this
    {
      currentSize == SumSizes(cache)
    }

    /**
     * NewCache: the configuration with its defaults filled in, the file
     * path, and whatever loading that file yields on an empty table.
     */
    constructor (cfg: CacheConfig, env: Env, file: LoadSource)
      ensures config == WithDefaults(cfg)
      ensures filePath == CacheFilePath(config, env)
      ensures file.Decoded? ==> cache == file.entries && Valid()
      ensures file.DecodeFailed? ==> cache == file.partial && currentSize == 0
      ensures !file.Decoded? && !file.DecodeFailed? ==> cache == map[] && currentSize == 0 && Valid()
    {
      config := WithDefaults(cfg);
      cache := map[];
      currentSize := 0;
      filePath := "";
      new;
      CreateCacheDir(env);
      var _ := LoadCache(file);
      if file.Decoded? {
        assert map[] + file.entries == file.entries;
      } else if file.DecodeFailed? {
        assert map[] + file.partial == file.partial;
      }
    }

    /** CreateCacheDir: fixes the cache file's path (the directory itself is not created here). */
    method CreateCacheDir(env: Env)
      modifies this
      ensures filePath == CacheFilePath(config, env)
      ensures cache == old(cache) && currentSize == old(currentSize)
    {
      filePath := CacheFilePath(config, env);
    }

    /**
     * Add with the two defects of cache.go:74-116 corrected (see the
     * AsWritten module): the scan uses a flag for "no candidate yet", and
     * storing over a key that survived the eviction loop takes the replaced
     * entry's size off the total. `evicted` lists the removed keys in
     * removal order. Payloads larger than maxSize are turned away with
     * nothing changed.
     */
    method Add(key: string, val: seq<byte>, now: int) returns (ghost evicted: seq<string>)
      requires Valid()
      modifies this
      ensures Valid()
      ensures filePath == old(filePath)
      ensures |val| > config.maxSize ==>
                cache == old(cache) && currentSize == old(currentSize) && evicted == []
      ensures |val| <= config.maxSize ==>
                && Evicts(old(cache), evicted, |val|)
                && cache == Without(old(cache), evicted)[key := Entry(now, val, |val|)]
      ensures |val| <= config.maxSize ==>
                currentSize == old(currentSize) - SizeOf(old(cache), evicted) + |val|
                  - (if key in Without(old(cache), evicted) then old(cache)[key].size else 0)
      ensures |val| <= config.maxSize && SizesNonNegative(old(cache)) ==>
                SizesNonNegative(cache) && currentSize <= config.maxSize
    {
      var newSize := |val|;
      if newSize > config.maxSize {
        return [];
      }
      evicted := MakeRoom(newSize);
      if key in cache {
        currentSize := currentSize - cache[key].size;
        SumSizesRemove(cache, key);
      } else {
        assert cache - {key} == cache;
      }
      SumSizesStore(cache, key, Entry(now, val, newSize));
      cache := cache[key := Entry(now, val, newSize)];
      currentSize := currentSize + newSize;
    }

    /**
     * The eviction loop of Add (cache.go:86-104): while the new payload does
     * not fit beside the current total, delete an oldest entry.
     */
    ghost predicate Evicts(before: Table, evicted: seq<string>, newSize: int)
      reads this
    {
      && OldestFirst(before, evicted)
      && OverBudgetBefore(before, evicted, newSize, config.maxSize)
      && SumSizes(Without(before, evicted)) + newSize <= config.maxSize
    }

    method MakeRoom(newSize: nat) returns (ghost evicted: seq<string>)
      requires Valid() && newSize <= config.maxSize
      modifies this
      ensures Valid()
      ensures Evicts(old(cache), evicted, newSize)
      ensures cache == Without(old(cache), evicted)
      ensures currentSize == old(currentSize) - SizeOf(old(cache), evicted)
      ensures filePath == old(filePath)
    {
      evicted := [];
      ghost var start := cache;
      while currentSize + newSize > config.maxSize
        invariant cache == Without(start, evicted)
        invariant OldestFirst(start, evicted)
        invariant OverBudgetBefore(start, evicted, newSize, config.maxSize)
        invariant currentSize == SumSizes(cache)
        invariant currentSize == old(currentSize) - SizeOf(start, evicted)
        invariant filePath == old(filePath)
        decreases |cache|
      {
        var oldest := FindOldest(cache);
        SumSizesRemove(cache, oldest);
        OldestFirstExtend(start, evicted, oldest);
        OverBudgetExtend(start, evicted, oldest, newSize, config.maxSize);
        currentSize := currentSize - cache[oldest].size;
        assert (cache - {oldest}).Keys == cache.Keys - {oldest};
        cache := cache - {oldest};
        evicted := evicted + [oldest];
      }
    }

    /** Get: the stored payload and true when the key is in the table; nothing changes. */
    method Get(key: string) returns (val: seq<byte>, ok: bool)
      ensures ok <==> key in cache
      ensures ok ==> val == cache[key].val
      ensures !ok ==> val == []
    {
      if key in cache {
        return cache[key].val, true;
      }
      return [], false;
    }

    /**
     * One sweep of the reaper at clock reading `now`: deletes exactly the
     * entries older than expireAfter and takes each one's size off the total.
     */
    method ReapExpired(now: int)
      modifies this
      ensures cache == Live(old(cache), now, config.expireAfter)
      ensures currentSize == old(currentSize) - SumSizes(ExpiredPart(old(cache), now, config.expireAfter))
      ensures filePath == old(filePath)
      ensures old(Valid()) ==> Valid()
    {
      ghost var start := cache;
      var ttl := config.expireAfter;
      var rest := cache.Keys;
      while rest != {}
        invariant rest <= start.Keys
        invariant cache == map k | k in start && (k in rest || !Expired(start[k], now, ttl)) :: start[k]
        invariant currentSize == old(currentSize)
                    - SumSizes(map k | k in start && k !in rest && Expired(start[k], now, ttl) :: start[k])
        invariant filePath == old(filePath)
        decreases rest
      {
        var key :| key in rest;
        ghost var gone := map k | k in start && k !in rest && Expired(start[k], now, ttl) :: start[k];
        rest := rest - {key};
        ghost var gone' := map k | k in start && k !in rest && Expired(start[k], now, ttl) :: start[k];
        if now - cache[key].createdAt > ttl {
          SumSizesRemove(gone', key);
          assert gone' - {key} == gone;
          currentSize := currentSize - cache[key].size;
          cache := cache - {key};
        } else {
          assert gone' == gone;
        }
      }
      assert cache == Live(start, now, ttl);
      assert (map k | k in start && k !in rest && Expired(start[k], now, ttl) :: start[k])
          == ExpiredPart(start, now, ttl);
      SumSizesReap(start, now, ttl);
    }

    /** ClearMemoryCache: an empty table and a zero total. */
    method ClearMemoryCache()
      modifies this
      ensures cache == map[] && currentSize == 0
      ensures filePath == old(filePath)
      ensures Valid()
    {
      cache := map[];
      currentSize := 0;
    }

    /**
     * LoadCache, given what reading the file yielded. A missing file is
     * success with nothing changed; any other open or read failure changes
     * nothing. Decoding merges the decoded entries over the table (keys
     * already present are overwritten, others stay) and the total is reset
     * to zero before decoding and then recomputed from the recorded sizes of
     * every entry now in the table.
     */
    method LoadCache(file: LoadSource) returns (ok: bool)
      modifies this
      ensures ok <==> file.Missing? || file.Decoded?
      ensures filePath == old(filePath)
      ensures file.Missing? || file.OpenFailed? || file.ReadFailed? ==>
                cache == old(cache) && currentSize == old(currentSize)
      ensures file.DecodeFailed? ==> cache == old(cache) + file.partial && currentSize == 0
      ensures file.Decoded? ==> cache == old(cache) + file.entries && Valid()
    {
      match file {
        case Missing => return true;
        case OpenFailed => return false;
        case ReadFailed => return false;
        case DecodeFailed(partial) =>
          currentSize := 0;
          cache := cache + partial;
          return false;
        case Decoded(entries) =>
          currentSize := 0;
          cache := cache + entries;
      }
      var rest := cache;
      while rest != map[]
        invariant currentSize + SumSizes(rest) == SumSizes(cache)
        invariant cache == old(cache) + file.entries && filePath == old(filePath)
        decreases |rest|
      {
        var key :| key in rest;
        SumSizesRemove(rest, key);
        currentSize := currentSize + rest[key].size;
        assert (rest - {key}).Keys == rest.Keys - {key};
        rest := rest - {key};
      }
      return true;
    }
  }
}
