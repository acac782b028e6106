/**
 * Add as cache.go:74-116 writes it, on values: the empty key doubles as
 * "no candidate yet" in the oldest-entry scan, and storing over a key that
 * survived eviction adds the new size without taking the old one off.
 * Go's `range` visits a map's keys in an order of its own choosing, fresh on
 * every pass; here pass i visits the table t in the order `orders(i, t)`,
 * which lists every key of t exactly once (`Visits`).
 *
 * The loop is followed for at most `passes` passes. It is reported as
 * spinning only once the table holds no key but the empty one: from then on
 * every scan ends without a candidate (ScanFindsNothing), nothing is ever
 * deleted again and the condition never changes.
 */
module AsWritten {
  import opened Entries

  /** How the followed part of the eviction loop ended. */
  datatype End = Fits | NoProgress | OutOfPasses

  /** The loop's end, the table and running total it left, and the keys it deleted, in order. */
  datatype Pass = Pass(end: End, table: Table, size: int, evicted: seq<string>)

  datatype Outcome =
    | Rejected
    | Stored(table: Table, size: int, evicted: seq<string>)
    | Spins(table: Table, size: int)
    | Unfinished(table: Table, size: int)

  /** `order` visits every key of `m` exactly once, as `range` over a map does. */
  ghost predicate ListsKeys(m: Table, order: seq<string>)
  {
    && (forall k :: k in order <==> k in m)
    && (forall i, j :: 0 <= i < j < |order| ==> order[i] != order[j])
  }

  /** Every pass visits the table in front of it in a visiting order of that table. */
  ghost predicate Visits(orders: (nat, Table) -> seq<string>)
  {
    forall pass: nat, t: Table {:trigger ListsKeys(t, orders(pass, t))} :: ListsKeys(t, orders(pass, t))
  }

  /** Some visiting order of every table. */
  ghost function KeyList(m: Table): (r: seq<string>)
    ensures ListsKeys(m, r)
    decreases |m|
  {
    if m == map[] then []
    else
      var k :| k in m;
      assert |m - {k}| < |m| by { assert (m - {k}).Keys == m.Keys - {k}; }
      var rest := KeyList(m - {k});
      assert k !in rest;
      [k] + rest
  }

  /** `Visits` can be met: each pass may visit its table in the order KeyList gives. */
  lemma SomeOrdersVisit()
    ensures Visits((pass: nat, t: Table) => KeyList(t))
  {
  }

  /**
   * The scan of cache.go:87-96 over the keys in `order`, holding `oldestKey`
   * (the empty string while there is no candidate) and its time.
   */
  function ScanFrom(m: Table, order: seq<string>, oldestKey: string, oldestTime: int): (r: string)
    ensures r == oldestKey || r in m
    decreases |order|
  {
    if order == [] then oldestKey
    else
      var k := order[0];
      if k in m && (oldestKey == "" || m[k].createdAt < oldestTime) then
        ScanFrom(m, order[1..], k, m[k].createdAt)
      else
        ScanFrom(m, order[1..], oldestKey, oldestTime)
  }

  function Scan(m: Table, order: seq<string>): (r: string)
    ensures r == "" || r in m
  {
    ScanFrom(m, order, "", 0)
  }

  /**
   * On a table without the empty key, the scan ends on a key of the table no
   * newer than the candidate it started with and than every key it visited.
   */
  lemma {:induction false} ScanFromMin(m: Table, order: seq<string>, oldestKey: string, oldestTime: int)
    requires "" !in m
    requires oldestKey != "" ==> oldestKey in m && oldestTime == m[oldestKey].createdAt
    ensures var r := ScanFrom(m, order, oldestKey, oldestTime);
              oldestKey != "" ==> r in m && m[r].createdAt <= oldestTime
    ensures var r := ScanFrom(m, order, oldestKey, oldestTime);
              forall i :: 0 <= i < |order| && order[i] in m ==>
                r in m && m[r].createdAt <= m[order[i]].createdAt
    decreases |order|
  {
    if order != [] {
      var k := order[0];
      if k in m && (oldestKey == "" || m[k].createdAt < oldestTime) {
        ScanFromMin(m, order[1..], k, m[k].createdAt);
      } else {
        ScanFromMin(m, order[1..], oldestKey, oldestTime);
      }
      forall i | 1 <= i < |order| ensures order[i] == order[1..][i - 1] { }
    }
  }

  /** Over a table without the empty key, a scan visiting every key finds an oldest entry. */
  lemma ScanOldest(m: Table, order: seq<string>)
    requires "" !in m && m != map[] && ListsKeys(m, order)
    ensures IsOldest(m, Scan(m, order))
  {
    ScanFromMin(m, order, "", 0);
    var r := Scan(m, order);
    forall j | j in m ensures r in m && m[r].createdAt <= m[j].createdAt {
      assert j in order;
    }
  }

  /**
   * The loop of cache.go:86-104 from pass `pass` on, for at most `passes`
   * more passes: a scan, then a delete only when the scan's key is not empty.
   */
  function Evict(m: Table, total: int, newSize: int, maxSize: int,
                 orders: (nat, Table) -> seq<string>, pass: nat, passes: nat): (r: Pass)
    ensures r.end.Fits? ==> r.size + newSize <= maxSize
    ensures r.end.NoProgress? ==> r.size + newSize > maxSize && r.table.Keys <= {""}
    decreases passes
  {
    if total + newSize <= maxSize then Pass(Fits, m, total, [])
    else if m.Keys <= {""} then Pass(NoProgress, m, total, [])
    else if passes == 0 then Pass(OutOfPasses, m, total, [])
    else
      var k := Scan(m, orders(pass, m));
      if k == "" then Evict(m, total, newSize, maxSize, orders, pass + 1, passes - 1)
      else
        var r := Evict(m - {k}, total - m[k].size, newSize, maxSize, orders, pass + 1, passes - 1);
        r.(evicted := [k] + r.evicted)
  }

  /** The loop leaves the table minus exactly the keys it deleted. */
  lemma {:induction false} EvictLeaves(m: Table, total: int, newSize: int, maxSize: int,
                                       orders: (nat, Table) -> seq<string>, pass: nat, passes: nat)
    ensures var r := Evict(m, total, newSize, maxSize, orders, pass, passes);
              r.table == Without(m, r.evicted)
    decreases passes
  {
    if total + newSize <= maxSize || m.Keys <= {""} || passes == 0 {
      EvictStops(m, total, newSize, maxSize, orders, pass, passes);
      WithoutNone(m);
    } else {
      var k := Scan(m, orders(pass, m));
      if k == "" {
        EvictSkips(m, total, newSize, maxSize, orders, pass, passes);
        EvictLeaves(m, total, newSize, maxSize, orders, pass + 1, passes - 1);
      } else {
        EvictLeaves(m - {k}, total - m[k].size, newSize, maxSize, orders, pass + 1, passes - 1);
        EvictLeavesStep(m, total, newSize, maxSize, orders, pass, passes, k);
      }
    }
  }

  lemma WithoutNone(m: Table)
    ensures Without(m, []) == m
  {
  }

  /** The deleting step of `EvictLeaves`: deleting `k` first keeps the shape. */
  lemma EvictLeavesStep(m: Table, total: int, newSize: int, maxSize: int,
                        orders: (nat, Table) -> seq<string>, pass: nat, passes: nat, k: string)
    requires total + newSize > maxSize && k in m && k != "" && passes > 0
    requires k == Scan(m, orders(pass, m))
    requires var rest := Evict(m - {k}, total - m[k].size, newSize, maxSize, orders, pass + 1, passes - 1);
               rest.table == Without(m - {k}, rest.evicted)
    ensures var r := Evict(m, total, newSize, maxSize, orders, pass, passes);
              r.table == Without(m, r.evicted)
  {
    var rest := Evict(m - {k}, total - m[k].size, newSize, maxSize, orders, pass + 1, passes - 1);
    WithoutCons(m, k, rest.evicted);
    EvictDeletes(m, total, newSize, maxSize, orders, pass, passes, k);
  }

  /**
   * Each delete takes the deleted entry's recorded size off the total
   * (cache.go:99-101), so a total equal to the sum of sizes stays so.
   */
  lemma {:induction false} EvictKeepsSum(m: Table, total: int, newSize: int, maxSize: int,
                                         orders: (nat, Table) -> seq<string>, pass: nat, passes: nat)
    ensures var r := Evict(m, total, newSize, maxSize, orders, pass, passes);
              total == SumSizes(m) ==> r.size == SumSizes(r.table)
    decreases passes
  {
    if total + newSize <= maxSize || m.Keys <= {""} || passes == 0 {
      EvictStops(m, total, newSize, maxSize, orders, pass, passes);
    } else {
      var k := Scan(m, orders(pass, m));
      if k == "" {
        EvictSkips(m, total, newSize, maxSize, orders, pass, passes);
        EvictKeepsSum(m, total, newSize, maxSize, orders, pass + 1, passes - 1);
      } else {
        SumSizesRemove(m, k);
        EvictDeletes(m, total, newSize, maxSize, orders, pass, passes, k);
        EvictKeepsSum(m - {k}, total - m[k].size, newSize, maxSize, orders, pass + 1, passes - 1);
      }
    }
  }

  /** A loop whose condition fails, whose table holds only the empty key, or that has no passes left, deletes nothing. */
  lemma EvictStops(m: Table, total: int, newSize: int, maxSize: int,
                   orders: (nat, Table) -> seq<string>, pass: nat, passes: nat)
    requires total + newSize <= maxSize || m.Keys <= {""} || passes == 0
    ensures var r := Evict(m, total, newSize, maxSize, orders, pass, passes);
              r.table == m && r.size == total && r.evicted == []
  {
  }

  /** One pass whose scan ends on the empty key deletes nothing. */
  lemma EvictSkips(m: Table, total: int, newSize: int, maxSize: int,
                   orders: (nat, Table) -> seq<string>, pass: nat, passes: nat)
    requires total + newSize > maxSize && !(m.Keys <= {""}) && passes > 0
    requires Scan(m, orders(pass, m)) == ""
    ensures Evict(m, total, newSize, maxSize, orders, pass, passes)
              == Evict(m, total, newSize, maxSize, orders, pass + 1, passes - 1)
  {
  }

  /** Add as written, from the table `m` and the running total `total`. */
  function AddAsWritten(m: Table, total: int, key: string, val: seq<byte>, now: int,
                        maxSize: int, orders: (nat, Table) -> seq<string>, passes: nat): (r: Outcome)
    requires Visits(orders)
    ensures r.Rejected? <==> |val| > maxSize
    ensures r.Stored? ==> r.table == Without(m, r.evicted)[key := Entry(now, val, |val|)]
    ensures r.Stored? && total == SumSizes(m) ==> r.size == SumSizes(Without(m, r.evicted)) + |val|
    ensures r.Spins? ==> r.size + |val| > maxSize && r.table.Keys <= {""}
  {
    var newSize := |val|;
    if newSize > maxSize then Rejected
    else
      var p := Evict(m, total, newSize, maxSize, orders, 0, passes);
      EvictLeaves(m, total, newSize, maxSize, orders, 0, passes);
      EvictKeepsSum(m, total, newSize, maxSize, orders, 0, passes);
      match p.end
      case Fits => Stored(p.table[key := Entry(now, val, newSize)], p.size + newSize, p.evicted)
      case NoProgress => Spins(p.table, p.size)
      case OutOfPasses => Unfinished(p.table, p.size)
  }

  /** One pass that deletes the key `k` its scan ends on. */
  lemma EvictDeletes(m: Table, total: int, newSize: int, maxSize: int,
                     orders: (nat, Table) -> seq<string>, pass: nat, passes: nat, k: string)
    requires total + newSize > maxSize && k in m && k != "" && passes > 0
    requires k == Scan(m, orders(pass, m))
    ensures var rest := Evict(m - {k}, total - m[k].size, newSize, maxSize, orders, pass + 1, passes - 1);
              Evict(m, total, newSize, maxSize, orders, pass, passes) == rest.(evicted := [k] + rest.evicted)
  {
    assert !(m.Keys <= {""});
  }

  /** The loop ended with the payload fitting, having evicted oldest first and only while over budget. */
  ghost predicate EvictedOldestFirst(m: Table, r: Pass, newSize: int, maxSize: int)
  {
    && r.end.Fits?
    && OldestFirst(m, r.evicted)
    && OverBudgetBefore(m, r.evicted, newSize, maxSize)
  }

  lemma EvictedOldestFirstCons(m: Table, k: string, rest: Pass, newSize: int, maxSize: int)
    requires IsOldest(m, k) && SumSizes(m) + newSize > maxSize
    requires EvictedOldestFirst(m - {k}, rest, newSize, maxSize)
    ensures EvictedOldestFirst(m, rest.(evicted := [k] + rest.evicted), newSize, maxSize)
  {
    OldestFirstCons(m, k, rest.evicted);
    OverBudgetCons(m, k, rest.evicted, newSize, maxSize);
  }

  /** The scan of any pass over a table without the empty key finds an oldest entry. */
  lemma PassFindsOldest(m: Table, orders: (nat, Table) -> seq<string>, pass: nat)
    requires Visits(orders) && "" !in m && m != map[]
    ensures IsOldest(m, Scan(m, orders(pass, m)))
  {
    assert ListsKeys(m, orders(pass, m));
    ScanOldest(m, orders(pass, m));
  }

  lemma EvictAgreesStep(m: Table, total: int, newSize: int, maxSize: int,
                        orders: (nat, Table) -> seq<string>, pass: nat, passes: nat, k: string)
    requires total + newSize > maxSize && total == SumSizes(m) && passes > 0
    requires k == Scan(m, orders(pass, m)) && k != "" && IsOldest(m, k)
    requires EvictedOldestFirst(m - {k},
               Evict(m - {k}, total - m[k].size, newSize, maxSize, orders, pass + 1, passes - 1),
               newSize, maxSize)
    ensures EvictedOldestFirst(m, Evict(m, total, newSize, maxSize, orders, pass, passes), newSize, maxSize)
  {
    EvictDeletes(m, total, newSize, maxSize, orders, pass, passes, k);
    var rest := Evict(m - {k}, total - m[k].size, newSize, maxSize, orders, pass + 1, passes - 1);
    EvictedOldestFirstCons(m, k, rest, newSize, maxSize);
  }

  /**
   * Without the empty key, and with the total equal to the sum of sizes, the
   * loop as written evicts oldest first, only while over budget, and stops
   * when the payload fits, within one pass per entry.
   */
  lemma {:induction false} EvictAgrees(m: Table, total: int, newSize: int, maxSize: int,
                                       orders: (nat, Table) -> seq<string>, pass: nat, passes: nat)
    requires Visits(orders)
    requires "" !in m && total == SumSizes(m) && 0 <= newSize <= maxSize && passes >= |m|
    ensures EvictedOldestFirst(m, Evict(m, total, newSize, maxSize, orders, pass, passes), newSize, maxSize)
    decreases passes
  {
    if total + newSize > maxSize {
      assert m != map[];
      PassFindsOldest(m, orders, pass);
      var k := Scan(m, orders(pass, m));
      SumSizesRemove(m, k);
      assert (m - {k}).Keys == m.Keys - {k};
      EvictAgrees(m - {k}, total - m[k].size, newSize, maxSize, orders, pass + 1, passes - 1);
      EvictAgreesStep(m, total, newSize, maxSize, orders, pass, passes, k);
    } else {
      assert Evict(m, total, newSize, maxSize, orders, pass, passes).evicted == [];
    }
  }

  /** The stored outcome of Add as written on a table without the empty key. */
  lemma AddAsWrittenEvicts(m: Table, total: int, key: string, val: seq<byte>, now: int,
                           maxSize: int, orders: (nat, Table) -> seq<string>, passes: nat)
    requires Visits(orders)
    requires "" !in m && total == SumSizes(m) && |val| <= maxSize && passes >= |m|
    ensures var r := AddAsWritten(m, total, key, val, now, maxSize, orders, passes);
              r.Stored? && EvictedOldestFirst(m, Evict(m, total, |val|, maxSize, orders, 0, passes), |val|, maxSize)
              && r.evicted == Evict(m, total, |val|, maxSize, orders, 0, passes).evicted
  {
    EvictAgrees(m, total, |val|, maxSize, orders, 0, passes);
  }

  /** Storing over `left` adds the new size to the sum and takes off a replaced entry's size. */
  lemma StoreDrift(left: Table, key: string, e: Entry)
    ensures key !in left ==> SumSizes(left[key := e]) == SumSizes(left) + e.size
    ensures key in left ==> SumSizes(left[key := e]) + left[key].size == SumSizes(left) + e.size
  {
    SumSizesStore(left, key, e);
    if key in left {
      SumSizesRemove(left, key);
    } else {
      assert left - {key} == left;
    }
  }

  /**
   * Where the source is right (no empty key, the total equal to the sum of
   * sizes) Add as written does what Store.Cache.Add does: it evicts oldest
   * first while over budget until the payload fits, then stores it. Its
   * total is the sum of the sizes exactly when `key` was not among the
   * entries left in place; otherwise it exceeds it by the replaced size.
   */
  lemma AddAsWrittenAgrees(m: Table, total: int, key: string, val: seq<byte>, now: int,
                           maxSize: int, orders: (nat, Table) -> seq<string>, passes: nat)
    requires Visits(orders)
    requires "" !in m && total == SumSizes(m) && |val| <= maxSize && passes >= |m|
    ensures var r := AddAsWritten(m, total, key, val, now, maxSize, orders, passes);
              && r.Stored?
              && OldestFirst(m, r.evicted)
              && OverBudgetBefore(m, r.evicted, |val|, maxSize)
              && SumSizes(Without(m, r.evicted)) + |val| <= maxSize
              && r.table == Without(m, r.evicted)[key := Entry(now, val, |val|)]
              && r.size == SumSizes(Without(m, r.evicted)) + |val|
              && (key !in Without(m, r.evicted) ==> r.size == SumSizes(r.table))
              && (key in Without(m, r.evicted) ==> r.size == SumSizes(r.table) + m[key].size)
  {
    AddAsWrittenEvicts(m, total, key, val, now, maxSize, orders, passes);
    var r := AddAsWritten(m, total, key, val, now, maxSize, orders, passes);
    var p := Evict(m, total, |val|, maxSize, orders, 0, passes);
    EvictLeaves(m, total, |val|, maxSize, orders, 0, passes);
    EvictKeepsSum(m, total, |val|, maxSize, orders, 0, passes);
    StoreDrift(Without(m, r.evicted), key, Entry(now, val, |val|));
  }

  /**
   * On a table whose only key, if any, is the empty string, every scan ends
   * without a candidate: every later pass deletes nothing either, so the
   * loop repeats forever.
   */
  lemma {:induction false} ScanFindsNothing(m: Table, order: seq<string>, t: int)
    requires m.Keys <= {""}
    ensures ScanFrom(m, order, "", t) == ""
    decreases |order|
  {
    if order != [] {
      var k := order[0];
      if k in m {
        ScanFindsNothing(m, order[1..], m[k].createdAt);
      } else {
        ScanFindsNothing(m, order[1..], t);
      }
    }
  }

  /** A payload of `n` ASCII digits "1234567890123…". */
  function Digits(n: nat): (b: seq<byte>)
    ensures |b| == n
    ensures forall i :: 0 <= i < n ==> b[i] == (0x31 + i % 10) as byte
  {
    seq(n, i => (0x31 + i % 10) as byte)
  }

  /**
   * maxSize 10: storing 6 bytes under "a" and then 3 bytes under "a" leaves a
   * running total of 9 beside a table whose sizes sum to 3.
   */
  lemma OverwriteDoubleCounts(orders: (nat, Table) -> seq<string>, passes: nat)
    requires Visits(orders)
    ensures AddAsWritten(map[], 0, "a", Digits(6), 0, 10, orders, passes)
              == Stored(map["a" := Entry(0, Digits(6), 6)], 6, [])
    ensures AddAsWritten(map["a" := Entry(0, Digits(6), 6)], 6, "a", Digits(3), 1, 10, orders, passes)
              == Stored(map["a" := Entry(1, Digits(3), 3)], 9, [])
    ensures SumSizes(map["a" := Entry(1, Digits(3), 3)]) == 3
  {
    var m := map["a" := Entry(1, Digits(3), 3)];
    SumSizesRemove(m, "a");
    assert m - {"a"} == map[];
  }

  /**
   * ...then storing 5 bytes under "b" evicts "a" whatever order the pass
   * visits the table in, leaves a total of 6 on an empty table, and every
   * later pass finds nothing to delete while 6 + 5 > 10: the loop never ends.
   */
  lemma OverwriteThenAddSpins(orders: (nat, Table) -> seq<string>, passes: nat)
    requires Visits(orders) && passes >= 1
    ensures AddAsWritten(map["a" := Entry(1, Digits(3), 3)], 9, "b", Digits(5), 2, 10, orders, passes)
              == Spins(map[], 6)
    ensures forall order :: Scan(map[], order) == ""
  {
    var m := map["a" := Entry(1, Digits(3), 3)];
    assert "a" in m && "" !in m;
    assert ListsKeys(m, orders(0, m));
    ScanOldest(m, orders(0, m));
    assert Scan(m, orders(0, m)) == "a";
    assert m - {"a"} == map[];
    EvictDeletes(m, 9, 5, 10, orders, 0, passes, "a");
    assert Evict(map[], 6, 5, 10, orders, 1, passes - 1) == Pass(NoProgress, map[], 6, []);
    forall order ensures Scan(map[], order) == "" {
      ScanFindsNothing(map[], order, 0);
    }
  }

  /**
   * maxSize 10: storing 5 bytes under the empty key and then 7 bytes under
   * "b": the scan's candidate is the empty key, which reads as "none", so
   * nothing is deleted, whatever order any pass visits the table in.
   */
  lemma EmptyKeyThenAddSpins(orders: (nat, Table) -> seq<string>, passes: nat)
    requires Visits(orders)
    ensures AddAsWritten(map[], 0, "", Digits(5), 0, 10, orders, passes)
              == Stored(map["" := Entry(0, Digits(5), 5)], 5, [])
    ensures AddAsWritten(map["" := Entry(0, Digits(5), 5)], 5, "b", Digits(7), 1, 10, orders, passes)
              == Spins(map["" := Entry(0, Digits(5), 5)], 5)
    ensures forall order :: Scan(map["" := Entry(0, Digits(5), 5)], order) == ""
  {
    var m := map["" := Entry(0, Digits(5), 5)];
    forall order ensures Scan(m, order) == "" {
      ScanFindsNothing(m, order, 0);
    }
  }

  /**
   * maxSize 10, the empty key at time 0 and "x" at time 1: adding 5 bytes
   * under "y" with the first pass visiting "x" then "" and the second ""
   * then "x" deletes nothing on the first pass and "x", the newer entry, on
   * the second.
   */
  lemma EmptyKeyEvictsNewer(orders: (nat, Table) -> seq<string>, passes: nat)
    requires Visits(orders) && passes >= 2
    requires orders(0, map["" := Entry(0, Digits(5), 5), "x" := Entry(1, Digits(3), 3)]) == ["x", ""]
    requires orders(1, map["" := Entry(0, Digits(5), 5), "x" := Entry(1, Digits(3), 3)]) == ["", "x"]
    ensures AddAsWritten(map["" := Entry(0, Digits(5), 5), "x" := Entry(1, Digits(3), 3)], 8,
                         "y", Digits(5), 2, 10, orders, passes)
              == Stored(map["" := Entry(0, Digits(5), 5), "y" := Entry(2, Digits(5), 5)], 10, ["x"])
    ensures !IsOldest(map["" := Entry(0, Digits(5), 5), "x" := Entry(1, Digits(3), 3)], "x")
  {
    var m := map["" := Entry(0, Digits(5), 5), "x" := Entry(1, Digits(3), 3)];
    var left := map["" := Entry(0, Digits(5), 5)];
    assert "x" in m && !(m.Keys <= {""});
    assert Scan(m, ["x", ""]) == "";
    assert Evict(m, 8, 5, 10, orders, 0, passes) == Evict(m, 8, 5, 10, orders, 1, passes - 1);
    assert Scan(m, ["", "x"]) == "x";
    assert m - {"x"} == left;
    EvictDeletes(m, 8, 5, 10, orders, 1, passes - 1, "x");
    assert Evict(left, 5, 5, 10, orders, 2, passes - 2) == Pass(Fits, left, 5, []);
  }
}
