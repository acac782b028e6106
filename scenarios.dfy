/**
 * Clients of Store.Cache that replay the repository's own test scenarios
 * and the inputs of the AsWritten counterexamples on the corrected Add,
 * using nothing but the contracts of Cache's methods.
 */
module Scenarios {
  import opened Entries
  import opened Config
  import opened Store
  import opened AsWritten

  const NoDirs: Env := Env(None, None, "/tmp", true)

  lemma SumSizesOne(k: string, e: Entry)
    ensures SumSizes(map[k := e]) == e.size
  {
    SumSizesRemove(map[k := e], k);
    assert map[k := e] - {k} == map[];
  }

  /** With the defaults, a payload stored under a URL is read back unchanged. */
  method AddGetScenario() returns (val: seq<byte>, ok: bool)
    ensures ok && val == Digits(8)
  {
    var c := new Cache(CacheConfig("", 5 * Second, 0, "", false, 0, ""), NoDirs, Missing);
    var _ := c.Add("https://example.com", Digits(8), 0);
    val, ok := c.Get("https://example.com");
  }

  /** After ClearMemoryCache, whatever the cache held, no key is found. */
  method ClearThenGet(c: Cache, key: string) returns (ok: bool)
    modifies c
    ensures !ok && c.currentSize == 0
  {
    c.ClearMemoryCache();
    var _, found := c.Get(key);
    ok := found;
  }

  /**
   * maxSize 10: 15 bytes under "key0" are turned away; 5 bytes under "key1"
   * are stored; 7 bytes under "key2" evict "key1" and are stored.
   */
  method MaxSizeScenario() returns (found0: bool, found1: bool, val1: seq<byte>,
                                    found1After: bool, found2: bool, val2: seq<byte>)
    ensures !found0
    ensures found1 && val1 == Digits(5)
    ensures !found1After
    ensures found2 && val2 == Digits(7)
  {
    var c := new Cache(CacheConfig("", 0, 10, "", false, 0, ""), NoDirs, Missing);
    c.ClearMemoryCache();
    var _ := c.Add("key0", Digits(15), 0);
    var v0, f0 := c.Get("key0");
    found0 := f0;
    var _ := c.Add("key1", Digits(5), 1);
    val1, found1 := c.Get("key1");
    assert c.cache == map["key1" := Entry(1, Digits(5), 5)];
    ghost var before := c.cache;
    SumSizesOne("key1", Entry(1, Digits(5), 5));
    ghost var evicted := c.Add("key2", Digits(7), 2);
    SoleEntryEvicted(before, "key1", evicted, 7, 10);
    var v1, f1 := c.Get("key1");
    found1After := f1;
    val2, found2 := c.Get("key2");
  }

  /**
   * Two payloads of 5 bytes decoded from a cache file into a fresh cache
   * give a running total of 10, taken from the recorded sizes.
   */
  method LoadScenario() returns (size: int, val1: seq<byte>, ok1: bool)
    ensures size == 10
    ensures ok1 && val1 == Digits(5)
  {
    var c := new Cache(CacheConfig("", 0, 100, "", false, 0, ""), NoDirs, Missing);
    var e1 := Entry(0, Digits(5), 5);
    var e2 := Entry(1, Digits(5), 5);
    var file := map["key1" := e1, "key2" := e2];
    var ok := c.LoadCache(Decoded(file));
    assert c.cache == file;
    SumSizesRemove(file, "key2");
    assert file - {"key2"} == map["key1" := e1];
    SumSizesOne("key1", e1);
    size := c.currentSize;
    val1, ok1 := c.Get("key1");
  }

  /**
   * The inputs of AsWritten.OverwriteDoubleCounts and OverwriteThenAddSpins
   * on the corrected Add: the total stays the sum and the third Add ends.
   */
  method OverwriteScenario() returns (size: int, okA: bool, okB: bool)
    ensures size == 8 && okA && okB
  {
    var c := OverwrittenCache();
    ghost var before := c.cache;
    SumSizesOne("a", Entry(1, Digits(3), 3));
    ghost var evicted := c.Add("b", Digits(5), 2);
    FirstEvictionOverBudget(before, evicted, 5, 10);
    assert evicted == [];
    assert Without(before, []) == before;
    assert c.cache == map["a" := Entry(1, Digits(3), 3), "b" := Entry(2, Digits(5), 5)];
    size := c.currentSize;
    var va, fa := c.Get("a");
    var vb, fb := c.Get("b");
    okA, okB := fa, fb;
  }

  /** A cache with maxSize 10 after storing six bytes under "a", then three. */
  method OverwrittenCache() returns (c: Cache)
    ensures fresh(c) && c.Valid() && c.config.maxSize == 10
    ensures c.cache == map["a" := Entry(1, Digits(3), 3)] && c.currentSize == 3
  {
    c := new Cache(CacheConfig("", 0, 10, "", false, 0, ""), NoDirs, Missing);
    ghost var ev0 := c.Add("a", Digits(6), 0);
    FirstEvictionOverBudget(map[], ev0, 6, 10);
    assert ev0 == [];
    assert Without(map[], []) == map[];
    assert c.cache == map["a" := Entry(0, Digits(6), 6)] && c.currentSize == 6;
    SumSizesOne("a", Entry(0, Digits(6), 6));
    ghost var first := c.cache;
    ghost var ev1 := c.Add("a", Digits(3), 1);
    FirstEvictionOverBudget(first, ev1, 3, 10);
    assert ev1 == [];
    assert Without(first, []) == first;
  }

  /**
   * The inputs of AsWritten.EmptyKeyThenAddSpins on the corrected Add: the
   * entry under the empty key is evicted and "b" is stored.
   */
  method EmptyKeyScenario() returns (size: int, okEmpty: bool, okB: bool)
    ensures size == 7 && !okEmpty && okB
  {
    var c := new Cache(CacheConfig("", 0, 10, "", false, 0, ""), NoDirs, Missing);
    var _ := c.Add("", Digits(5), 0);
    ghost var before := c.cache;
    assert before == map["" := Entry(0, Digits(5), 5)];
    SumSizesOne("", Entry(0, Digits(5), 5));
    ghost var evicted := c.Add("b", Digits(7), 1);
    SoleEntryEvicted(before, "", evicted, 7, 10);
    assert c.cache == map["b" := Entry(1, Digits(7), 7)];
    SumSizesOne("b", Entry(1, Digits(7), 7));
    size := c.currentSize;
    var ve, fe := c.Get("");
    var vb, fb := c.Get("b");
    okEmpty, okB := fe, fb;
  }

  /**
   * expireAfter 5 ms, sweeps every 3 ms: an entry stored at time 0 survives
   * the sweep at 3 ms and is gone after the sweep at 6 ms.
   */
  method ReapScenario() returns (foundEarly: bool, foundLate: bool, size: int)
    ensures foundEarly && !foundLate && size == 0
  {
    var ms := 1_000_000;
    var c := new Cache(CacheConfig("", 3 * ms, 0, "", false, 5 * ms, ""), NoDirs, Missing);
    var _ := c.Add("https://example.com", Digits(8), 0);
    c.ReapExpired(3 * ms);
    var v1, f1 := c.Get("https://example.com");
    c.ReapExpired(6 * ms);
    var v2, f2 := c.Get("https://example.com");
    assert c.cache == map[];
    foundEarly, foundLate, size := f1, f2, c.currentSize;
  }
}
