# gamehub response cache, modelled in Dafny

gamehub keeps the bodies of the HTTP responses it fetches in a size-bounded
in-memory cache keyed by request URL (`internal/cache/cache.go`). Each entry
records when it was stored, its byte payload and its size. The cache keeps
a running total `currentSize` of the recorded sizes. When an `Add` would
push the total past `MaxSize`, the oldest entries are evicted first. A
reaper periodically deletes entries older than `ExpireAfter`. The table can
be cleared, and it can be reloaded from a JSON (optionally gzip) file whose
location is derived from the configuration.

The project has these modules:

- `FilePath` (filepath.dfy): Go's `filepath.Clean` and two-element
  `filepath.Join` on a Unix system, lexically. The path of the cache file
  is built from two `Join`s, so this module decides its exact shape.
- `Config` (config.dfy): the configuration record, the zero-value defaults
  `NewCache` fills in, the base-directory fallback chain and
  `getCacheFilePath`. The operating system's answers (user cache
  directory, home directory, temporary directory and whether it is
  reachable) are the inputs in `Env`.
- `Entries` (entries.dfy): entries and tables, the sum of recorded sizes,
  expiry, the "oldest first" eviction order, and the scan that finds an
  oldest entry (`FindOldest`).
- `Store` (store.dfy): the `Cache` class, with fields `cache`,
  `currentSize`, `filePath` and `config`. Its methods are `Add` (with its
  eviction loop `MakeRoom`), `Get`, one reaper sweep `ReapExpired`,
  `ClearMemoryCache`, `LoadCache`, `CreateCacheDir` and the constructor
  (`NewCache`). The size invariant is `Valid()`: `currentSize` is the sum
  of the recorded sizes.
- `AsWritten` (as_written.dfy): `Add` as the source writes it, as
  functions on values. The eviction loop is followed pass by pass: a pass
  whose scan ends on the empty key deletes nothing, and the loop goes on
  with the next pass. The functions follow at most `passes` passes. The
  result is `Spins` only once no key but the empty one is left, since
  from then on no pass can delete anything. If the passes run out before
  that, the result is `Unfinished`. Lemmas show that, on a table without
  the empty key and with an exact total, the loop agrees with the
  corrected one. Other lemmas exhibit the defects listed under Findings.
- `Scenarios` (scenarios.dfy): clients that replay
  `internal/cache/cache_test.go` and the Findings inputs on `Store.Cache`,
  using only its methods' contracts.

Modelling choices:

- Time is an integer count of nanoseconds passed in as `now`; it stands
  for `time.Now()`.
- Go visits map keys in an unspecified order, possibly a different one
  on every pass. The methods express this by choosing keys with `:|`.
  The `AsWritten` functions take a function `orders`, which gives the
  visiting order of pass `i` over the table `t` as `orders(i, t)`.
  `AddAsWritten` and the lemmas about it require `Visits(orders)`: every
  such order lists each key of its table exactly once.
- What reading the cache file produced is the input `LoadSource`.
- Ties between equally old entries are broken arbitrarily.
  `Entries.IsOldest` therefore specifies "an entry with minimal creation
  time", not a particular one.

`LoadCache` (internal/cache/cache.go:176-212) behaves as follows:

- It decodes into the existing map. The decoded entries are
  merged over the current ones rather than replacing the table.
- A missing cache file counts as success and leaves the table as it was.
- `currentSize` is reset to 0 before decoding. A failed decode therefore
  leaves the total at 0, beside whatever entries the decoder had already
  merged.

Storing a payload larger than `MaxSize` changes nothing. A later `Get` of
that key reports not-found exactly when the key was absent before, as in
the source.

## Model

| member | source | states |
|---|---|---|
| FilePath.CleanIdempotent | internal/cache/cache.go:261-270 | cleaning an already cleaned path changes nothing, for every input path |
| FilePath.CleanChild | internal/cache/cache.go:261 | cleaning `s/e` for a non-empty `s` and a plain element `e` gives `e` inside `Clean(s)` (`/e` under the root, `e` under `.`) |
| FilePath.RenderChild | internal/cache/cache.go:261 | rendering a clean element stack with one more plain element gives that element inside the rendering of the shorter stack |
| FilePath.JoinPlain | internal/cache/cache.go:261 | `filepath.Join(dir, e)` for a plain element is `e` inside the cleaned `dir`, including the empty-`dir` case |
| FilePath.ChildClean | internal/cache/cache.go:270 | the child of a clean directory is itself clean, so the second Join does not rewrite the directory the first one built |
| Config.WithDefaults | internal/cache/cache.go:40-54 | each zero-valued project name, cleanup interval, max size, extension and expiry gets its default ("unnamed-project", 30 min, 10 MiB, "json", 30 min); non-zero fields, compression and cache path are kept |
| Config.WithDefaultsIdempotent | internal/cache/cache.go:40-54 | defaulting twice equals defaulting once |
| Config.WithDefaultsKeepsDefaulted | internal/cache/cache.go:40-54 | a configuration with all five fields set is left unchanged |
| Config.BaseDir | internal/cache/cache.go:243-259 | the base directory is the configured cache path, else the user cache directory, else the home directory, else the temporary directory if reachable, else "." |
| Config.CacheFilePathShape | internal/cache/cache.go:242-271 | when the project name and extension contain no '/', the file path is `<clean base>/<project>-cache/cache.gz` with compression, else `.../cache.<extension>` |
| Entries.FindOldest | internal/cache/cache.go:87-96 | the scan over a non-empty table returns an entry whose creation time is minimal among all entries, whatever order the keys are visited in |
| Entries.SumSizesRemove | internal/cache/cache.go:99-101 | deleting any one entry takes exactly its recorded size off the sum of sizes |
| Entries.SumSizesStore | internal/cache/cache.go:106-111 | storing an entry under a key replaces that key's old size in the sum with the new one |
| Entries.SumSizesReap | internal/cache/cache.go:132-137 | the sum over a table is the sum over the entries a sweep keeps plus the sum over those it deletes |
| Entries.SumSizesWithout | internal/cache/cache.go:86-104 | removing a list of distinct entries takes exactly the sum of their sizes off the table's sum |
| Entries.EvictedNoNewer | internal/cache/cache.go:86-104 | every entry the eviction loop removed is no newer than every entry it left in place |
| Entries.FirstEvictionOverBudget | internal/cache/cache.go:86 | the loop evicts something only when the new payload does not fit beside the whole table |
| Entries.SoleEntryEvicted | internal/cache/cache.go:86-104 | a lone entry that leaves no room for the new payload is evicted |
| Entries.OldestFirstExtend | internal/cache/cache.go:98-101 | deleting an oldest remaining entry extends the eviction order, removes just that key and adds just its size to the evicted total |
| Entries.OldestFirstDistinct | internal/cache/cache.go:98-100 | an eviction order lists distinct keys of the table |
| Store.Cache.constructor | internal/cache/cache.go:39-72 | the kept configuration is the defaulted one, the file path is `getCacheFilePath` of it, and the table is what loading the file yields from an empty table |
| Store.Cache.CreateCacheDir | internal/cache/cache.go:214-217 | the file path becomes `getCacheFilePath(config)`; table and total unchanged |
| Store.Cache.Add | internal/cache/cache.go:74-116 | oversize payloads change nothing; otherwise oldest-first evictions, each made while over budget, until the payload fits; then the entry is stored, survivors keep their entries, the total stays the sum of sizes, and it is at most MaxSize when sizes are non-negative |
| Store.Cache.MakeRoom | internal/cache/cache.go:86-104 | the eviction loop ends; it removes entries oldest first, only while over budget, until the payload fits, and subtracts exactly the evicted sizes |
| Store.Cache.Get | internal/cache/cache.go:118-125 | found exactly when the key is in the table, with its stored payload; not found gives an empty payload; nothing changes |
| Store.Cache.ReapExpired | internal/cache/cache.go:130-138 | the sweep deletes exactly the entries with `now - createdAt > expireAfter`, keeps the others unchanged, subtracts the deleted sizes, and keeps the size invariant |
| Store.Cache.ClearMemoryCache | internal/cache/cache.go:224-229 | the table is empty and the total is 0 |
| Store.Cache.LoadCache | internal/cache/cache.go:176-212 | a missing file is success with nothing changed; open or read failures change nothing; a decode merges the file's entries over the table and the total becomes the sum of the recorded sizes; a failed decode leaves a total of 0 |
| AsWritten.ScanFrom | internal/cache/cache.go:87-96 | the scan's candidate is the one it started with or a key of the table |
| AsWritten.Scan | internal/cache/cache.go:87-96 | the scan yields "" or a key of the table |
| AsWritten.ScanFromMin | internal/cache/cache.go:87-96 | on a table without the empty key, the scan ends on a key of the table no newer than its starting candidate and than every key it visited |
| AsWritten.ScanOldest | internal/cache/cache.go:87-96 | on a non-empty table without the empty key, a scan visiting every key once returns an oldest entry |
| AsWritten.Evict | internal/cache/cache.go:86-104 | the loop, followed for a bounded number of passes, ends with the payload fitting, or still over budget with no key but "" left, or out of passes |
| AsWritten.EvictLeaves | internal/cache/cache.go:86-104 | the table the loop leaves is the original minus exactly the keys it deleted |
| AsWritten.EvictKeepsSum | internal/cache/cache.go:99-101 | when the total starts as the sum of sizes, the total the loop leaves is the sum of the remaining sizes |
| AsWritten.AddAsWritten | internal/cache/cache.go:74-116 | Add as written rejects exactly the oversize payloads; a stored outcome is the table minus the evicted keys plus the new entry, and its total is the survivors' sum plus the new size when the starting total was exact; a spinning outcome is over budget with no key but "" left |
| AsWritten.EvictAgrees | internal/cache/cache.go:86-104 | without the empty key, with an exact total and one pass per entry, the loop as written ends with the payload fitting, having evicted oldest first and only while over budget |
| AsWritten.AddAsWrittenAgrees | internal/cache/cache.go:74-116 | without the empty key and with an exact total, Add as written stores the entry after evicting oldest first while over budget; its total is the sum of sizes exactly when the key was not among the survivors, and otherwise exceeds it by the replaced entry's size |
| AsWritten.ScanFindsNothing | internal/cache/cache.go:87-98 | on a table whose only key is "", every scan ends with no candidate |
| AsWritten.OverwriteDoubleCounts | internal/cache/cache.go:106-111 | storing 6 then 3 bytes under one key leaves a total of 9 beside recorded sizes summing to 3 |
| AsWritten.OverwriteThenAddSpins | internal/cache/cache.go:86-111 | after that, adding 5 bytes under a new key with MaxSize 10 empties the table and then loops with nothing to delete |
| AsWritten.EmptyKeyThenAddSpins | internal/cache/cache.go:87-98 | with 5 bytes stored under "", adding 7 bytes with MaxSize 10 loops forever, for every key order |
| AsWritten.EmptyKeyEvictsNewer | internal/cache/cache.go:87-101 | with "" at time 0 and "x" at time 1 (total 8, MaxSize 10), adding 5 bytes under "y" can skip a pass and then evict "x", which is not the oldest entry |
| Scenarios.AddGetScenario | internal/cache/cache_test.go:11-44 | with the defaults, a URL's payload is read back after Add |
| Scenarios.ClearThenGet | internal/cache/cache.go:224-229 | after a clear, any key is not found and the total is 0 |
| Scenarios.MaxSizeScenario | internal/cache/cache_test.go:71-108 | 15 bytes are refused; 5 bytes under key1 are stored; 7 bytes under key2 evict key1 and are stored |
| Scenarios.LoadScenario | internal/cache/cache_test.go:110-146 | two 5-byte entries loaded into a fresh cache give a total of 10 |
| Scenarios.ReapScenario | internal/cache/cache_test.go:46-69 | with a 5 ms expiry, an entry survives the sweep at 3 ms and is gone after the sweep at 6 ms |
| Scenarios.OverwriteScenario | internal/cache/cache.go:106-111 | on the corrected Add, the overwrite inputs leave a total of 8, with both keys present |
| Scenarios.EmptyKeyScenario | internal/cache/cache.go:87-98 | on the corrected Add, the entry under "" is evicted and the new entry is stored, with a total of 7 |

## Left out

- The mutex, the reaper goroutine and its ticker (internal/cache/cache.go:69, 75-76, 119-120, 127-129, 138). Each method is modelled as one critical section, and only the body of one sweep is modelled.
- `SaveCache`, including the write-through call at the end of `Add` (cache.go:113-115). It is file output and does not change the table. Its errors are only logged.
- JSON and gzip encoding and the file I/O of `LoadCache` (cache.go:177-199). What they produce is the input `LoadSource`. A JSON syntax error merges nothing, which is `DecodeFailed` with an empty table.
- Payloads are shared byte slices in the source. `Add` stores the caller's slice without copying it (cache.go:106-110), and `Get` returns the stored slice itself (cache.go:122). A `seq<byte>` is a value, so the model cannot show a caller changing a cached payload through such an alias. The caller in internal/handlers/helper_resp.go:40 stores a fresh copy, but helper_resp.go:10-12 returns the cached slice itself to its caller.
- A cache file holding JSON `null`. It makes the Go map nil, so a later `Add` would panic. The model has no nil map.
- `os.MkdirAll` in `CreateCacheDir`, `DeleteCacheDir`, `GetCacheSize` (float64 MiB of a stat'd file) and `PrintCache` (output only). These are filesystem calls or output.
- `os.UserCacheDir`, `os.UserHomeDir`, `os.TempDir` and `os.Stat`. Their answers are the fields of `Env`. The warnings that are logged are not modelled.
- Windows paths. `FilePath` models Go's Unix path rules only, with '/' as the only separator.
- Store.Cache.Add: int64 overflow of `currentSize` and of sizes is not modelled, and neither is the saturation of `time.Sub` on extreme clock values. Integers are unbounded.
- Store.Cache.Add: requires the size invariant `Valid()`. A failed decode in `LoadCache` can leave entries beside a total of 0 and break the invariant. The as-written loop then behaves as `AsWritten.AddAsWritten` describes.
- AsWritten.AddAsWritten: follows the eviction loop for at most `passes` passes and reports `Unfinished` when they run out. While the table still holds the empty key next to other keys, a visiting order can keep ending every scan on "" (a pass visiting "" last after a newer key does), so no bound on the number of passes holds for every order. On a table without the empty key, one pass per entry is enough (AsWritten.EvictAgrees).
- Store.Cache.LoadCache: after a failed decode it states only that the total is 0 and the table is the merge. It does not restore the size invariant, because the source does not.

## Findings

| source | as written | input that shows it | evidently intended | confidence | as-written member | corrected member |
|---|---|---|---|---|---|---|
| internal/cache/cache.go:106-111 | storing under a key that survives the eviction loop adds the new size without subtracting the replaced entry's size, so `currentSize` drifts above the sum of sizes | MaxSize 10: Add("a", 6 bytes), Add("a", 3 bytes) gives total 9 over sizes summing to 3; then Add("b", 5 bytes) evicts "a" and loops forever on an empty table with total 6 | subtract the replaced entry's size so the total stays the sum of sizes | not executed | AsWritten.OverwriteThenAddSpins | Store.Cache.Add |
| internal/cache/cache.go:87-98 | the empty string is both a valid key and the scan's "no candidate" marker, so an entry stored under "" is never chosen for eviction | MaxSize 10: Add("", 5 bytes), then Add("b", 7 bytes) loops forever, whatever order the keys are visited in | track "candidate found" separately from the key, so that any oldest key can be evicted | not executed | AsWritten.EmptyKeyThenAddSpins | Entries.FindOldest |
| internal/cache/cache.go:87-101 | a scan that meets "" when it is older than the current candidate takes "" as its candidate, and any later key then replaces it, since "" reads as "none"; a pass can therefore end on no key at all, or on a key that is not the oldest | MaxSize 10, "" stored at time 0 and "x" at time 1 (total 8): Add("y", 5 bytes) with a first pass visiting "x" then "" deletes nothing, and a second pass visiting "" then "x" evicts "x", the newer entry | evict an oldest entry on every pass | not executed | AsWritten.EmptyKeyEvictsNewer | Entries.FindOldest |
