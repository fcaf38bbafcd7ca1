/** The store's size-bounded cache of resolver projections, evicted oldest first. */
module ProjectionCaching {
  import opened Common
  import opened GraphTables

  type Projections = set<(Path, Content)>
  datatype Cached = Cached(values: Projections, bytes: nat, order: nat)
  type Entries = map<VersionKey, Cached>

  /** The byte total over all entries, independent of any order. */
  ghost function Total(m: Entries): (t: nat)
    ensures m == map[] ==> t == 0
  {
    if m == map[] then 0 else
      var k :| k in m;
      m[k].bytes + Total(m - {k})
  }

  lemma {:induction false} TotalWithout(m: Entries, k: VersionKey)
    requires k in m
    ensures Total(m) == m[k].bytes + Total(m - {k})
    decreases |m|
  {
    var c :| c in m && Total(m) == m[c].bytes + Total(m - {c});
    if c != k {
      TotalWithout(m - {c}, k);
      TotalWithout(m - {k}, c);
      assert m - {c} - {k} == m - {k} - {c};
    }
  }

  lemma {:induction false} TotalOfPart(part: Entries, m: Entries)
    requires part.Keys <= m.Keys && forall k :: k in part ==> part[k] == m[k]
    ensures Total(part) <= Total(m)
    decreases |part|
  {
    if part != map[] {
      var k :| k in part;
      TotalWithout(part, k);
      TotalWithout(m, k);
      TotalOfPart(part - {k}, m - {k});
    }
  }

  /** The entries that are at least as new as the one for `key`, and those that are newer. */
  function FromOn(m: Entries, key: VersionKey): Entries
    requires key in m
  {
    map k | k in m && m[k].order >= m[key].order :: m[k]
  }

  function Newer(m: Entries, key: VersionKey): Entries
    requires key in m
  {
    map k | k in m && m[k].order > m[key].order :: m[k]
  }

  lemma TotalFromOn(m: Entries, key: VersionKey)
    requires key in m && forall k :: k in m && m[k].order == m[key].order ==> k == key
    ensures Total(FromOn(m, key)) == m[key].bytes + Total(Newer(m, key))
  {
    hide Total;
    TotalWithout(FromOn(m, key), key);
    assert FromOn(m, key) - {key} == Newer(m, key);
  }

  predicate Removes(k: VersionKey, w: Workspace, remove: Version -> bool) {
    k.workspace == w && remove(k.version)
  }

  /** The entries not yet looked at, and those that stay. */
  function Remaining(m: Entries, rest: set<VersionKey>, w: Workspace, remove: Version -> bool): Entries {
    map k | k in m && (k in rest || !Removes(k, w, remove)) :: m[k]
  }

  lemma AllRemain(m: Entries, w: Workspace, remove: Version -> bool)
    ensures Remaining(m, m.Keys, w, remove) == m
  {}

  lemma RemainingStep(m: Entries, rest: set<VersionKey>, k: VersionKey, w: Workspace, remove: Version -> bool)
    requires k in rest
    ensures Remaining(m, rest - {k}, w, remove)
         == Remaining(m, rest, w, remove) - if Removes(k, w, remove) then {k} else {}
  {}

  /** What an eviction leaves: untouched entries, all newer than every evicted one. */
  ghost predicate SurvivorsAreNewest(before: Entries, after: Entries) {
    && after.Keys <= before.Keys
    && (forall k :: k in after ==> after[k] == before[k])
    && (forall k, l :: k in before && k !in after && l in after ==> before[k].order < after[l].order)
  }

  /** Sizes are as computed, and orders tell entries apart. */
  ghost predicate EntriesOk(m: Entries, order: nat, cost: Projections -> nat) {
    && (forall k :: k in m ==> m[k].order <= order && m[k].bytes == cost(m[k].values))
    && (forall k, l :: k in m && l in m && m[k].order == m[l].order ==> k == l)
  }

  lemma InsertKeepsEntriesOk(m: Entries, order: nat, cost: Projections -> nat, key: VersionKey, values: Projections)
    requires EntriesOk(m, order, cost)
    ensures EntriesOk(m[key := Cached(values, cost(values), order + 1)], order + 1, cost)
  {}

  /** Nothing was evicted that could have stayed: with it and everything newer the new value did not fit. */
  ghost predicate EvictionWasNeeded(before: Entries, after: Entries, credit: nat, size: nat, limit: nat) {
    forall k :: k in before && k !in after ==> Total(FromOn(before, k)) - credit + size > limit
  }

  lemma EvictOldestIsNeeded(before: Entries, after: Entries, oldest: VersionKey, credit: nat, size: nat, limit: nat)
    requires SurvivorsAreNewest(before, after) && EvictionWasNeeded(before, after, credit, size, limit)
    requires oldest in after && forall k :: k in after ==> after[oldest].order <= after[k].order
    requires Total(after) - credit + size > limit
    ensures EvictionWasNeeded(before, after - {oldest}, credit, size, limit)
  {
    hide Total;
    assert FromOn(before, oldest) == after;
  }

  /** An entry survives exactly when the new value fits beside everything newer. */
  lemma SurvivesExactly(before: Entries, after: Entries, key: VersionKey, size: nat, limit: nat)
    requires key in before && forall k :: k in before && before[k].order == before[key].order ==> k == key
    requires SurvivorsAreNewest(before, after) && EvictionWasNeeded(before, after, before[key].bytes, size, limit)
    requires Total(after) - before[key].bytes + size <= limit
    ensures key in after <==> Total(Newer(before, key)) + size <= limit
  {
    hide Total;
    TotalFromOn(before, key);
    if key in after { TotalOfPart(FromOn(before, key), after); }
  }

  lemma EvictOldestKeepsNewest(before: Entries, after: Entries, oldest: VersionKey)
    requires SurvivorsAreNewest(before, after) && oldest in after
    requires forall k :: k in after ==> after[oldest].order <= after[k].order
    requires exists order, cost :: EntriesOk(after, order, cost)
    ensures SurvivorsAreNewest(before, after - {oldest})
  {}

  /** What is cached fits beside everything newer, so caching the same contents again never loses track. */
  lemma SameValueFits(m: Entries, order: nat, cost: Projections -> nat, key: VersionKey)
    requires EntriesOk(m, order, cost)
    ensures key in m ==> Total(Newer(m, key)) + cost(m[key].values) <= Total(m)
  {
    hide Total;
    if key in m {
      TotalFromOn(m, key);
      TotalOfPart(FromOn(m, key), m);
    }
  }

  lemma AllSurvive(m: Entries)
    ensures SurvivorsAreNewest(m, m)
  {}

  lemma NothingEvicted(m: Entries, credit: nat, size: nat, limit: nat)
    ensures EvictionWasNeeded(m, m, credit, size, limit)
  {}

  lemma TotalReplace(m: Entries, k: VersionKey, c: Cached)
    ensures Total(m[k := c]) == Total(m) + c.bytes - if k in m then m[k].bytes else 0
  {
    hide Total;
    TotalWithout(m[k := c], k);
    assert m[k := c] - {k} == m - {k};
    if k in m { TotalWithout(m, k); } else { assert m - {k} == m; }
  }

  /** When a cached key is cached again, whether its old entry was still there to be replaced. */
  lemma ReplacedTotals(before: Entries, kept: Entries, order: nat, cost: Projections -> nat, key: VersionKey, size: nat,
                       limit: nat, credit: nat)
    requires EntriesOk(before, order, cost) && SurvivorsAreNewest(before, kept)
    requires credit == if key in before then before[key].bytes else 0
    requires EvictionWasNeeded(before, kept, credit, size, limit) && Total(kept) - credit + size <= limit
    ensures key in before ==> (key in kept <==> Total(Newer(before, key)) + size <= limit)
    ensures key !in before ==> key !in kept
    ensures SurvivorsAreNewest(before - {key}, kept - {key})
    ensures key in kept ==> kept[key].bytes == credit
  {
    hide Total, EvictionWasNeeded;
    if key in before { SurvivesExactly(before, kept, key, size, limit); }
  }

  lemma NewestIsLast(m: Entries, order: nat, cost: Projections -> nat, key: VersionKey)
    requires EntriesOk(m, order, cost)
    ensures forall k :: k in m && k != key ==> m[k].order < order + 1
  {}

  lemma SameEviction(before: Entries, kept: Entries, after: Entries, key: VersionKey,
                     credit: nat, size: nat, limit: nat)
    requires EvictionWasNeeded(before, kept, credit, size, limit) && key !in before && kept.Keys <= after.Keys
    ensures EvictionWasNeeded(before, after, credit, size, limit)
  {}

  class ProjectionCache {
    var entries: Entries
    var bytes: int
    var order: nat
    const limit: nat
    const cost: Projections -> nat

    /** The counter is the exact total and within the limit. */
    ghost predicate Valid()
      reads this
    {
      && bytes == Total(entries)
      && bytes <= limit
      && EntriesOk(entries, order, cost)
    }

    constructor (limit: nat, cost: Projections -> nat)
      ensures Valid() && entries == map[] && this.limit == limit && this.cost == cost
    {
      this.entries, this.bytes, this.order := map[], 0, 0;
      this.limit, this.cost := limit, cost;
    }

    method Lookup(key: VersionKey) returns (r: Option<Projections>)
      ensures r == if key in entries then Some(entries[key].values) else None
    {
      r := if key in entries then Some(entries[key].values) else None;
    }

    /** The scan for the entry with the smallest order. */
    method Oldest() returns (oldest: Option<VersionKey>)
      ensures oldest.None? <==> entries == map[]
      ensures oldest.Some? ==> oldest.value in entries &&
                               forall k :: k in entries ==> entries[oldest.value].order <= entries[k].order
    {
      oldest := None;
      var rest := entries.Keys;
      while rest != {}
        invariant rest <= entries.Keys
        invariant oldest.None? <==> rest == entries.Keys
        invariant oldest.Some? ==> oldest.value in entries
        invariant oldest.Some? ==>
                    forall k :: k in entries && k !in rest ==> entries[oldest.value].order <= entries[k].order
        decreases rest
      {
        var k :| k in rest;
        if oldest.None? || entries[k].order < entries[oldest.value].order {
          oldest := Some(k);
        }
        rest := rest - {k};
      }
      assert entries == map[] <==> entries.Keys == {};
    }

    /** The counter is `credit` bytes below the total. */
    ghost predicate Behind(credit: nat)
      reads this
    {
      bytes == Total(entries) - credit && EntriesOk(entries, order, cost)
    }

    method Remove(key: VersionKey, ghost credit: nat)
      requires Behind(credit) && key in entries
      modifies this
      ensures Behind(credit) && order == old(order) && bytes <= old(bytes)
      ensures entries == old(entries) - {key}
    {
      hide Total;
      TotalWithout(entries, key);
      bytes := bytes - entries[key].bytes;
      entries := entries - {key};
    }

    /** Evicts oldest entries until `size` more bytes fit, and no entry more. */
    method EvictFor(size: nat, ghost credit: nat)
      requires Behind(credit) && size <= limit
      modifies this
      ensures Behind(credit) && order == old(order) && bytes + size <= limit
      ensures SurvivorsAreNewest(old(entries), entries)
      ensures EvictionWasNeeded(old(entries), entries, credit, size, limit)
    {
      hide Total, EvictionWasNeeded;
      NothingEvicted(entries, credit, size, limit);
      while bytes + size > limit
        invariant Behind(credit) && order == old(order)
        invariant SurvivorsAreNewest(old(entries), entries)
        invariant EvictionWasNeeded(old(entries), entries, credit, size, limit)
        decreases |entries|
      {
        var oldest := Oldest();
        if oldest.None? { break; }
        EvictOldestKeepsNewest(old(entries), entries, oldest.value);
        EvictOldestIsNeeded(old(entries), entries, oldest.value, credit, size, limit);
        Remove(oldest.value, credit);
      }
    }

    /**
     * Caching a value; one above the limit is not cached. For a key that is already cached the code
     * first takes the old entry's bytes off the counter, and again if eviction reaches that entry:
     * the counter stays the exact total if and only if it does not, or the old entry has no bytes.
     */
    method Insert(key: VersionKey, values: Projections)
      requires Valid()
      modifies this
      ensures cost(values) > limit ==> Valid() && entries == old(entries)
      ensures cost(values) <= limit ==> key in entries && entries[key].values == values && bytes <= limit
      ensures SurvivorsAreNewest(old(entries) - {key}, entries - {key})
      ensures cost(values) <= limit ==> forall k :: k in entries && k != key ==> entries[k].order < entries[key].order
      ensures cost(values) <= limit && key !in old(entries) ==>
                EvictionWasNeeded(old(entries), entries, 0, cost(values), limit)
      ensures cost(values) <= limit ==>
                (Valid() <==> (key !in old(entries) || old(entries)[key].bytes == 0
                               || Total(Newer(old(entries), key)) + cost(values) <= limit))
      ensures !Valid() ==> key in old(entries) && bytes == Total(entries) - old(entries)[key].bytes
      ensures key in old(entries) && old(entries)[key].values == values ==> Valid()
    {
      hide Total, EntriesOk, EvictionWasNeeded, SurvivorsAreNewest, Newer;
      var size := cost(values);
      if size > limit {
        AllSurvive(entries - {key});
        return;
      }
      ghost var before := entries;
      ghost var credit := if key in entries then entries[key].bytes else 0;
      if key in entries { bytes := bytes - entries[key].bytes; }
      EvictFor(size, credit);
      order := order + 1;
      ghost var kept := entries;
      SameValueFits(before, order - 1, cost, key);
      ReplacedTotals(before, kept, order - 1, cost, key, size, limit, credit);
      TotalReplace(kept, key, Cached(values, size, order));
      InsertKeepsEntriesOk(kept, order - 1, cost, key, values);
      entries := entries[key := Cached(values, size, order)];
      bytes := bytes + size;
      assert entries - {key} == kept - {key};
      NewestIsLast(kept, order - 1, cost, key);
      if key !in before { SameEviction(before, kept, entries, key, credit, size, limit); }
    }

    /** Removes exactly the workspace's entries whose version is selected. */
    method Invalidate(w: Workspace, remove: Version -> bool)
      requires Valid()
      modifies this
      ensures Valid()
      ensures entries == Remaining(old(entries), {}, w, remove)
    {
      hide Total, EntriesOk, Removes, Remaining;
      AllRemain(entries, w, remove);
      var rest := entries.Keys;
      while rest != {}
        invariant Valid()
        invariant rest <= entries.Keys
        invariant entries == Remaining(old(entries), rest, w, remove)
        decreases rest
      {
        var k :| k in rest;
        RemainingStep(old(entries), rest, k, w, remove);
        rest := rest - {k};
        if Removes(k, w, remove) {
          Remove(k, 0);
        }
      }
    }
  }

  lemma OnlyOneAdded(before: Entries, after: Entries, key: VersionKey)
    requires SurvivorsAreNewest(before - {key}, after - {key})
    ensures after.Keys <= before.Keys + {key}
  {
    forall k | k in after ensures k in before.Keys + {key} {
      if k != key { assert k in after - {key}; }
    }
  }

  /** What the example charges: nothing for the empty list, 4 bytes for one value, 6 for others. */
  function ExampleCost(small: Projections): Projections -> nat {
    values => if values == {} then 0 else if values == small then 4 else 6
  }

  /** Entries of 4 and 6 bytes, the larger one newer, fill a cache of 10. */
  method FillTwo(w: Workspace, small: Projections, large: Projections) returns (cache: ProjectionCache)
    requires small != {} && large != {} && small != large
    ensures fresh(cache) && cache.Valid() && cache.limit == 10 && cache.cost == ExampleCost(small)
    ensures VersionKey(w, 1) in cache.entries && cache.entries[VersionKey(w, 1)].bytes == 4
    ensures Total(Newer(cache.entries, VersionKey(w, 1))) == 6
  {
    hide Total, EvictionWasNeeded;
    cache := new ProjectionCache(10, ExampleCost(small));
    var first, second := VersionKey(w, 1), VersionKey(w, 2);
    cache.Insert(first, small);
    OnlyOneAdded(map[], cache.entries, first);
    ghost var one := cache.entries;
    cache.Insert(second, large);
    BothKept(one, cache.entries, first, second);
  }

  lemma BothKept(one: Entries, two: Entries, first: VersionKey, second: VersionKey)
    requires first != second && one.Keys == {first} && one[first].bytes == 4
    requires second in two && two[second].bytes == 6 && SurvivorsAreNewest(one - {second}, two - {second})
    requires forall k :: k in two && k != second ==> two[k].order < two[second].order
    requires EvictionWasNeeded(one, two, 0, 6, 10)
    ensures first in two && two[first] == one[first] && Total(Newer(two, first)) == 6
  {
    hide Total;
    TotalWithout(one, first);
    assert one - {first} == map[] && FromOn(one, first) == one;
    assert first in two - {second} && (two - {second})[first] == (one - {second})[first];
    OnlyOneAdded(one, two, second);
    var newer := Newer(two, first);
    assert newer.Keys == {second} && newer - {second} == map[];
    TotalWithout(newer, second);
  }

  /**
   * A number that is rolled back and published again can have other contents when a reader that
   * missed before caches what it read. Caching the older of the two keys again with 6 bytes then
   * loses track of 4.
   */
  method RecachingDrifts(w: Workspace, small: Projections, large: Projections) returns (cache: ProjectionCache)
    requires small != {} && large != {} && small != large
    ensures !cache.Valid() && cache.bytes == Total(cache.entries) - 4
  {
    hide Total, EvictionWasNeeded, Newer;
    cache := FillTwo(w, small, large);
    cache.Insert(VersionKey(w, 1), large);
  }
}
