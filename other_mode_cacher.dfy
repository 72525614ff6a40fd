/** A memoizing decorator around a transfer provider. */
module OtherModeCacher {
  import opened Transit
  import opened OtherMode

  /** The freshly built `List<StopId>` in a batched key; it has reference identity. */
  class IdList {
    const ids: seq<StopId>

    constructor(ids: seq<StopId>)
      ensures this.ids == ids
    {
      this.ids := ids;
    }
  }

  function Ids(stops: seq<Stop>): (r: seq<StopId>)
    ensures |r| == |stops| && forall k :: 0 <= k < |r| ==> r[k] == stops[k].id
  {
    seq(|stops|, k requires 0 <= k < |stops| => stops[k].id)
  }

  class OtherModeCacher {
    const fallback: OtherModeGenerator
    var cacheSingle: map<(Coordinate, StopId), UInt32>
    var cache: map<(Coordinate, IdList), TimesTable>
    /** The stop each single entry was computed for. */
    ghost var asked: map<(Coordinate, StopId), Stop>
    /** The batched memo as evidently intended: keyed by the coordinate and the stop ids. */
    var cacheByIds: map<(Coordinate, seq<StopId>), TimesTable>
    /** The stops each batched entry was computed for. */
    ghost var askedMany: map<(Coordinate, seq<StopId>), seq<Stop>>
    /** How often the fallback has been asked. */
    ghost var fallbackCalls: nat

    /** Every entry is the fallback's answer for stops with the key's ids. */
    ghost predicate Valid()
      reads this
    {
      asked.Keys == cacheSingle.Keys
      && (forall k :: k in cacheSingle ==> asked[k].id == k.1 && cacheSingle[k] == fallback.timeBetween(k.0, asked[k]))
      && askedMany.Keys == cacheByIds.Keys
      && (forall k :: k in cacheByIds ==> Ids(askedMany[k]) == k.1 && cacheByIds[k] == fallback.timesBetween(k.0, askedMany[k]))
    }

    constructor(fallback: OtherModeGenerator)
      ensures this.fallback == fallback && Valid()
      ensures cacheSingle == map[] && cache == map[] && cacheByIds == map[] && fallbackCalls == 0
    {
      this.fallback := fallback;
      cacheSingle := map[];
      cache := map[];
      asked := map[];
      cacheByIds := map[];
      askedMany := map[];
      fallbackCalls := 0;
    }

    /**
     * `TimeBetween`: a hit returns the stored value without asking the fallback; a miss asks it
     * once and stores the answer under `(from, to.Id)`. Stored entries are never changed.
     */
    method TimeBetween(from: Coordinate, to: Stop) returns (r: UInt32)
      requires Valid()
      modifies this
      ensures Valid() && cache == old(cache) && cacheByIds == old(cacheByIds)
      ensures (from, to.id) in old(cacheSingle) ==>
        r == old(cacheSingle)[(from, to.id)] && cacheSingle == old(cacheSingle) && fallbackCalls == old(fallbackCalls)
      ensures (from, to.id) !in old(cacheSingle) ==>
        r == fallback.timeBetween(from, to) && cacheSingle == old(cacheSingle)[(from, to.id) := r]
        && fallbackCalls == old(fallbackCalls) + 1
      ensures (from, to.id) in cacheSingle && cacheSingle[(from, to.id)] == r
      ensures exists s: Stop :: s.id == to.id && r == fallback.timeBetween(from, s)
      ensures forall k :: k in old(cacheSingle) ==> k in cacheSingle && cacheSingle[k] == old(cacheSingle)[k]
    {
      var key := (from, to.id);
      if key in cacheSingle {
        assert asked[key].id == to.id;
        return cacheSingle[key];
      }
      var v := fallback.timeBetween(from, to);
      fallbackCalls := fallbackCalls + 1;
      cacheSingle := cacheSingle[key := v];
      asked := asked[key := to];
      return v;
    }

    /** Two calls for the same coordinate and stop id give the same time. */
    method TimeBetweenIsStable(from: Coordinate, to: Stop, again: Stop) returns (first: UInt32, second: UInt32)
      requires Valid() && again.id == to.id
      modifies this
      ensures first == second
      ensures Valid()
    {
      first := TimeBetween(from, to);
      second := TimeBetween(from, again);
    }

    /**
     * `TimesBetween`: the key holds a freshly built id list, which no stored key can equal,
     * so the fallback is always asked and one more entry is stored.
     */
    method TimesBetween(from: Coordinate, to: seq<Stop>) returns (r: TimesTable)
      requires Valid()
      modifies this
      ensures Valid() && cacheSingle == old(cacheSingle) && cacheByIds == old(cacheByIds)
      ensures r == fallback.timesBetween(from, to)
      ensures fallbackCalls == old(fallbackCalls) + 1
      ensures exists l: IdList :: fresh(l) && l.ids == Ids(to) && cache == old(cache)[(from, l) := r]
      ensures |cache| == |old(cache)| + 1
    {
      var tos := new IdList(Ids(to));
      var key := (from, tos);
      assert key !in cache;
      var v := fallback.timesBetween(from, to);
      fallbackCalls := fallbackCalls + 1;
      cache := cache[key := v];
      return v;
    }

    /** As written, asking twice for the same stops asks the fallback twice. */
    method TimesBetweenTwice(from: Coordinate, to: seq<Stop>) returns (first: TimesTable, second: TimesTable)
      requires Valid()
      modifies this
      ensures Valid() && first == second == fallback.timesBetween(from, to)
      ensures fallbackCalls == old(fallbackCalls) + 2
      ensures |cache| == |old(cache)| + 2
    {
      first := TimesBetween(from, to);
      second := TimesBetween(from, to);
    }
    /**
     * The batched lookup keyed by the ids of the stops, as the single lookup is: a repeated
     * request is answered from the memo without asking the fallback.
     */
    method TimesBetweenByIds(from: Coordinate, to: seq<Stop>) returns (r: TimesTable)
      requires Valid()
      modifies this
      ensures Valid() && cacheSingle == old(cacheSingle) && cache == old(cache)
      ensures (from, Ids(to)) in old(cacheByIds) ==>
        r == old(cacheByIds)[(from, Ids(to))] && cacheByIds == old(cacheByIds) && fallbackCalls == old(fallbackCalls)
      ensures (from, Ids(to)) !in old(cacheByIds) ==>
        r == fallback.timesBetween(from, to) && cacheByIds == old(cacheByIds)[(from, Ids(to)) := r]
        && fallbackCalls == old(fallbackCalls) + 1
      ensures (from, Ids(to)) in cacheByIds && cacheByIds[(from, Ids(to))] == r
      ensures exists s: seq<Stop> :: Ids(s) == Ids(to) && r == fallback.timesBetween(from, s)
    {
      var key := (from, Ids(to));
      if key in cacheByIds {
        assert Ids(askedMany[key]) == Ids(to);
        return cacheByIds[key];
      }
      var v := fallback.timesBetween(from, to);
      fallbackCalls := fallbackCalls + 1;
      cacheByIds := cacheByIds[key := v];
      askedMany := askedMany[key := to];
      return v;
    }
    /** Keyed by ids, the second of two equal requests is a hit: the fallback is asked at most once. */
    method TimesBetweenByIdsTwice(from: Coordinate, to: seq<Stop>) returns (first: TimesTable, second: TimesTable)
      requires Valid()
      modifies this
      ensures Valid() && first == second
      ensures fallbackCalls <= old(fallbackCalls) + 1
    {
      first := TimesBetweenByIds(from, to);
      second := TimesBetweenByIds(from, to);
    }
    /** `Range`: the fallback's range. */
    function Range(): (r: real)
      ensures r == fallback.range
    {
      fallback.range
    }
  }
}
