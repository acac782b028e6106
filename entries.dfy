/**
 * The entries of the cache table and what is said about a whole table:
 * the sum of the entries' stored sizes, which entry is oldest, which
 * entries have expired, and the order in which eviction removes entries.
 */
module Entries {

  newtype byte = b: int | 0 <= b < 256

  /**
   * One cached response: when it was stored (nanoseconds on the caller's
   * clock), the payload, and the size recorded for it. Add records
   * |val|; an entry read back from the cache file carries whatever size
   * the file says.
   */
  datatype Entry = Entry(createdAt: int, val: seq<byte>, size: int)

  type Table = map<string, Entry>

  /** The sum of the recorded sizes of all entries. */
  ghost function SumSizes(m: Table): int
    decreases |m|
  {
    if m == map[] then 0
    else
      var k :| k in m;
      assert |m - {k}| < |m| by { assert (m - {k}).Keys == m.Keys - {k}; }
      m[k].size + SumSizes(m - {k})
  }

  /** The entries whose keys are not listed in `ks`. */
  function Without(m: Table, ks: seq<string>): (r: Table)
    ensures forall k :: k in r <==> k in m && k !in ks
    ensures forall k :: k in r ==> r[k] == m[k]
  {
    map k | k in m && k !in ks :: m[k]
  }

  /** The total recorded size of the entries of `m` listed in `ks`, counting each listing. */
  function SizeOf(m: Table, ks: seq<string>): int
  {
    if ks == [] then 0
    else
      var k := ks[|ks| - 1];
      SizeOf(m, ks[..|ks| - 1]) + (if k in m then m[k].size else 0)
  }

  /** `k` is an entry of `m` created no later than any other entry of `m`. */
  ghost predicate IsOldest(m: Table, k: string)
  {
    k in m && forall j :: j in m ==> m[k].createdAt <= m[j].createdAt
  }

  /**
   * `ev` lists entries of `m` in an order eviction may remove them: each one
   * is an oldest entry among those of `m` not removed before it.
   */
  ghost predicate OldestFirst(m: Table, ev: seq<string>)
  {
    forall i :: 0 <= i < |ev| ==> IsOldest(Without(m, ev[..i]), ev[i])
  }

  /** Every recorded size is at least zero, as Add records them. */
  ghost predicate SizesNonNegative(m: Table)
  {
    forall k :: k in m ==> m[k].size >= 0
  }

  /** The reaper's expiry test: the entry is older than `ttl` at time `now` (strictly). */
  predicate Expired(e: Entry, now: int, ttl: int)
  {
    now - e.createdAt > ttl
  }

  /** The entries a sweep at `now` keeps. */
  function Live(m: Table, now: int, ttl: int): (r: Table)
    ensures forall k :: k in r <==> k in m && !Expired(m[k], now, ttl)
    ensures forall k :: k in r ==> r[k] == m[k]
  {
    map k | k in m && !Expired(m[k], now, ttl) :: m[k]
  }

  /** The entries a sweep at `now` deletes. */
  function ExpiredPart(m: Table, now: int, ttl: int): (r: Table)
    ensures forall k :: k in r <==> k in m && Expired(m[k], now, ttl)
    ensures forall k :: k in r ==> r[k] == m[k]
  {
    map k | k in m && Expired(m[k], now, ttl) :: m[k]
  }

  // ---------------------------------------------------------------------------
  // Size accounting

  /** Taking any one entry out of a table takes exactly its size off the sum. */
  lemma {:induction false} SumSizesRemove(m: Table, k: string)
    requires k in m
    ensures SumSizes(m) == m[k].size + SumSizes(m - {k})
    decreases |m|
  {
    var j :| j in m && SumSizes(m) == m[j].size + SumSizes(m - {j});
    if j != k {
      assert (m - {j}).Keys == m.Keys - {j};
      assert (m - {k}).Keys == m.Keys - {k};
      SumSizesRemove(m - {j}, k);
      SumSizesRemove(m - {k}, j);
      assert (m - {j}) - {k} == (m - {k}) - {j};
    }
  }

  /** Storing `e` under `k` replaces whatever `k` held before in the sum. */
  lemma SumSizesStore(m: Table, k: string, e: Entry)
    ensures SumSizes(m[k := e]) == SumSizes(m - {k}) + e.size
  {
    SumSizesRemove(m[k := e], k);
    assert m[k := e] - {k} == m - {k};
  }

  /** The sum over a table is the sum over the entries with keys in `ks` plus the sum over the rest. */
  lemma {:induction false} SumSizesSplit(m: Table, ks: set<string>)
    ensures SumSizes(m) == SumSizes(map k | k in m && k in ks :: m[k]) + SumSizes(m - ks)
    decreases |m|
  {
    var inside := map k | k in m && k in ks :: m[k];
    if m == map[] {
      assert inside == map[];
      assert m - ks == map[];
    } else {
      var k :| k in m;
      var rest := m - {k};
      assert rest.Keys == m.Keys - {k};
      SumSizesRemove(m, k);
      SumSizesSplit(rest, ks);
      var insideRest := map j | j in rest && j in ks :: rest[j];
      if k in ks {
        SumSizesRemove(inside, k);
        assert inside - {k} == insideRest;
        assert rest - ks == m - ks;
      } else {
        SumSizesRemove(m - ks, k);
        assert (m - ks) - {k} == rest - ks;
        assert inside == insideRest;
      }
    }
  }

  /** A sweep splits the size of the table into what it keeps and what it deletes. */
  lemma SumSizesReap(m: Table, now: int, ttl: int)
    ensures SumSizes(m) == SumSizes(Live(m, now, ttl)) + SumSizes(ExpiredPart(m, now, ttl))
  {
    var gone := set k | k in m && Expired(m[k], now, ttl);
    SumSizesSplit(m, gone);
    assert (map k | k in m && k in gone :: m[k]) == ExpiredPart(m, now, ttl);
    assert m - gone == Live(m, now, ttl);
  }

  /** Removing the listed entries of a table takes exactly their sizes off the sum. */
  lemma {:induction false} SumSizesWithout(m: Table, ev: seq<string>)
    requires forall i :: 0 <= i < |ev| ==> ev[i] in m
    requires forall i, j :: 0 <= i < j < |ev| ==> ev[i] != ev[j]
    ensures SumSizes(m) == SumSizes(Without(m, ev)) + SizeOf(m, ev)
    decreases |ev|
  {
    if ev == [] {
      assert Without(m, ev) == m;
    } else {
      var init := ev[..|ev| - 1];
      var last := ev[|ev| - 1];
      SumSizesWithout(m, init);
      assert last in Without(m, init);
      SumSizesRemove(Without(m, init), last);
      assert Without(m, init) - {last} == Without(m, ev);
    }
  }

  // ---------------------------------------------------------------------------
  // Eviction order

  /** Whatever eviction removed is no newer than anything of the table it left in place. */
  lemma EvictedNoNewer(m: Table, ev: seq<string>)
    requires OldestFirst(m, ev)
    ensures forall i, s :: 0 <= i < |ev| && s in Without(m, ev) ==> m[ev[i]].createdAt <= m[s].createdAt
  {
    forall i, s | 0 <= i < |ev| && s in Without(m, ev)
      ensures m[ev[i]].createdAt <= m[s].createdAt
    {
      assert IsOldest(Without(m, ev[..i]), ev[i]);
      assert s in Without(m, ev[..i]);
    }
  }

  /** Before each listed eviction, the total and `newSize` together exceeded `maxSize`. */
  ghost predicate OverBudgetBefore(m: Table, ev: seq<string>, newSize: int, maxSize: int)
  {
    forall i :: 0 <= i < |ev| ==> SumSizes(Without(m, ev[..i])) + newSize > maxSize
  }

  lemma OverBudgetExtend(m: Table, ev: seq<string>, k: string, newSize: int, maxSize: int)
    requires OverBudgetBefore(m, ev, newSize, maxSize)
    requires SumSizes(Without(m, ev)) + newSize > maxSize
    ensures OverBudgetBefore(m, ev + [k], newSize, maxSize)
  {
    assert (ev + [k])[..|ev|] == ev;
    forall i | 0 <= i < |ev| ensures (ev + [k])[..i] == ev[..i] { }
  }

  /** Eviction starts only when the new payload does not fit beside the whole table. */
  lemma FirstEvictionOverBudget(m: Table, ev: seq<string>, newSize: int, maxSize: int)
    requires OverBudgetBefore(m, ev, newSize, maxSize)
    ensures ev != [] ==> SumSizes(m) + newSize > maxSize
  {
    if ev != [] {
      assert ev[..0] == [];
      assert Without(m, ev[..0]) == m;
    }
  }

  /** A table with a single entry that does not leave room loses that entry. */
  lemma SoleEntryEvicted(m: Table, k: string, ev: seq<string>, newSize: int, maxSize: int)
    requires m.Keys == {k}
    requires SumSizes(m) + newSize > maxSize
    requires SumSizes(Without(m, ev)) + newSize <= maxSize
    ensures k in ev
  {
    assert k !in ev ==> Without(m, ev) == m;
  }

  lemma WithoutSnoc(m: Table, ev: seq<string>, k: string)
    ensures Without(m, ev + [k]) == Without(m, ev) - {k}
  {
  }

  /** Evicting an oldest remaining entry extends an eviction order. */
  lemma OldestFirstExtend(m: Table, ev: seq<string>, k: string)
    requires OldestFirst(m, ev) && IsOldest(Without(m, ev), k)
    ensures OldestFirst(m, ev + [k])
    ensures Without(m, ev + [k]) == Without(m, ev) - {k}
    ensures SizeOf(m, ev + [k]) == SizeOf(m, ev) + m[k].size
  {
    var ev' := ev + [k];
    assert ev'[..|ev|] == ev;
    forall i | 0 <= i < |ev'| ensures IsOldest(Without(m, ev'[..i]), ev'[i]) {
      if i < |ev| {
        assert ev'[..i] == ev[..i];
      }
    }
    WithoutSnoc(m, ev, k);
  }

  lemma WithoutCons(m: Table, k: string, ks: seq<string>)
    ensures Without(m, [k] + ks) == Without(m - {k}, ks)
  {
  }

  /** Evicting an oldest entry first, then an eviction order of the rest, is an eviction order. */
  lemma OldestFirstCons(m: Table, k: string, ev: seq<string>)
    requires IsOldest(m, k) && OldestFirst(m - {k}, ev)
    ensures OldestFirst(m, [k] + ev)
  {
    var ev' := [k] + ev;
    forall i | 0 <= i < |ev'| ensures IsOldest(Without(m, ev'[..i]), ev'[i]) {
      if i == 0 {
        assert Without(m, ev'[..0]) == m;
      } else {
        assert ev'[..i] == [k] + ev[..i - 1];
        WithoutCons(m, k, ev[..i - 1]);
      }
    }
  }

  /** Evicting first from an over-budget table, then while over budget from the rest. */
  lemma OverBudgetCons(m: Table, k: string, ev: seq<string>, newSize: int, maxSize: int)
    requires SumSizes(m) + newSize > maxSize
    requires OverBudgetBefore(m - {k}, ev, newSize, maxSize)
    ensures OverBudgetBefore(m, [k] + ev, newSize, maxSize)
  {
    var ev' := [k] + ev;
    forall i | 0 <= i < |ev'| ensures SumSizes(Without(m, ev'[..i])) + newSize > maxSize {
      if i == 0 {
        assert Without(m, ev'[..0]) == m;
      } else {
        assert ev'[..i] == [k] + ev[..i - 1];
        WithoutCons(m, k, ev[..i - 1]);
      }
    }
  }

  /** An eviction order lists distinct entries of the table. */
  lemma OldestFirstDistinct(m: Table, ev: seq<string>)
    requires OldestFirst(m, ev)
    ensures forall i :: 0 <= i < |ev| ==> ev[i] in m
    ensures forall i, j :: 0 <= i < j < |ev| ==> ev[i] != ev[j]
  {
    forall i, j | 0 <= i < j < |ev| ensures ev[i] != ev[j] {
      assert IsOldest(Without(m, ev[..j]), ev[j]);
      assert ev[..j][i] == ev[i];
    }
    forall i | 0 <= i < |ev| ensures ev[i] in m {
      assert IsOldest(Without(m, ev[..i]), ev[i]);
    }
  }

  /**
   * The scan Add runs before each eviction (cache.go:87-96): it visits the
   * keys in an arbitrary order, keeps the first key it sees and then any key
   * created strictly before the one it holds. A flag, not the empty key,
   * marks "no candidate yet".
   */
  method FindOldest(m: Table) returns (oldest: string)
    requires m != map[]
    ensures IsOldest(m, oldest)
  {
    var found := false;
    var oldestTime := 0;
    oldest := "";
    var rest := m.Keys;
    while rest != {}
      invariant rest <= m.Keys
      invariant found <==> rest != m.Keys
      invariant found ==> oldest in m && oldest !in rest && oldestTime == m[oldest].createdAt
      invariant found ==> forall j :: j in m && j !in rest ==> oldestTime <= m[j].createdAt
      decreases rest
    {
      var k :| k in rest;
      if !found || m[k].createdAt < oldestTime {
        oldest, oldestTime := k, m[k].createdAt;
        found := true;
      }
      rest := rest - {k};
    }
    assert m.Keys != {} by {
      var k :| k in m;
    }
  }
}
