/**
 * Helpers shared by the transfer providers: the one-by-one default for batched travel times,
 * and the generators that extend a journey by one other-mode leg to every stop in range.
 */
module OtherModeExtensions {
  import opened Wrappers
  import opened Transit
  import opened Journeys
  import opened OtherMode
  import OtherModeCacher

  /** The entries `DefaultTimesBetween` adds: each stop whose time is not `uint.MaxValue`, in order. */
  function Reachable(timeBetween: Stop -> UInt32, to: seq<Stop>): TimesTable
    decreases |to|
  {
    if to == [] then []
    else
      var init := Reachable(timeBetween, to[..|to| - 1]);
      var stop := to[|to| - 1];
      if timeBetween(stop) == UINT_MAX then init else init + [(stop.id, timeBetween(stop))]
  }

  /** An entry is reachable iff some stop with that id and that (finite) time is in the list. */
  lemma {:induction false} ReachableMembers(timeBetween: Stop -> UInt32, to: seq<Stop>)
    ensures forall e :: e in Reachable(timeBetween, to) <==>
      exists s :: s in to && s.id == e.0 && timeBetween(s) == e.1 && e.1 != UINT_MAX
    ensures |Reachable(timeBetween, to)| <= |to|
    decreases |to|
  {
    if to != [] {
      var init := to[..|to| - 1];
      ReachableMembers(timeBetween, init);
      assert to == init + [to[|to| - 1]];
      forall e ensures e in Reachable(timeBetween, to) <==>
        exists s :: s in to && s.id == e.0 && timeBetween(s) == e.1 && e.1 != UINT_MAX
      {
        if exists s :: s in to && s.id == e.0 && timeBetween(s) == e.1 && e.1 != UINT_MAX {
          var s :| s in to && s.id == e.0 && timeBetween(s) == e.1 && e.1 != UINT_MAX;
          if s != to[|to| - 1] {
            assert s in init;
          }
        }
      }
    }
  }

  const DUPLICATE_KEY := "An item with the same key has already been added"

  /**
   * `DefaultTimesBetween`: asks for the stops one by one and keeps the reachable ones;
   * `Dictionary.Add` throws when a reachable stop id comes up a second time.
   */
  method DefaultTimesBetween(timeBetween: Stop -> UInt32, to: seq<Stop>) returns (r: Result<TimesTable>)
    ensures r.Success? <==> DistinctKeys(Reachable(timeBetween, to))
    ensures r.Success? ==> r.value == Reachable(timeBetween, to)
    ensures r.Failure? ==> r.error == DUPLICATE_KEY
  {
    var times: TimesTable := [];
    var i := 0;
    while i < |to|
      invariant 0 <= i <= |to|
      invariant times == Reachable(timeBetween, to[..i])
      invariant DistinctKeys(times)
    {
      var stop := to[i];
      assert to[..i + 1][..i] == to[..i];
      var time := timeBetween(stop);
      if time != UINT_MAX {
        if exists k :: 0 <= k < |times| && times[k].0 == stop.id {
          var k :| 0 <= k < |times| && times[k].0 == stop.id;
          ReachablePrefix(timeBetween, to, i + 1);
          assert Reachable(timeBetween, to[..i + 1]) == times + [(stop.id, time)];
          assert Reachable(timeBetween, to)[k].0 == stop.id;
          assert Reachable(timeBetween, to)[|times|].0 == stop.id;
          return Failure(DUPLICATE_KEY);
        }
        times := times + [(stop.id, time)];
      }
      i := i + 1;
    }
    assert to[..i] == to;
    r := Success(times);
  }

  /** The entries for a prefix of the stops are a prefix of the entries for all of them. */
  lemma {:induction false} ReachablePrefix(timeBetween: Stop -> UInt32, to: seq<Stop>, n: nat)
    requires n <= |to|
    ensures |Reachable(timeBetween, to[..n])| <= |Reachable(timeBetween, to)|
    ensures Reachable(timeBetween, to) == Reachable(timeBetween, to[..n])
                                          + Reachable(timeBetween, to)[|Reachable(timeBetween, to[..n])|..]
    decreases |to| - n
  {
    if n < |to| {
      ReachablePrefix(timeBetween, to, n + 1);
      assert to[..n + 1][..n] == to[..n];
      assert to[..|to|] == to;
    } else {
      assert to[..n] == to;
    }
  }

  /** The stops a walk goes to: every entry except the origin itself, in order. */
  function Targets(times: TimesTable, origin: StopId): (r: TimesTable)
    ensures forall e :: e in r <==> e in times && e.0 != origin
    ensures |r| <= |times|
    decreases |times|
  {
    if times == [] then []
    else
      var init := Targets(times[..|times| - 1], origin);
      assert times == times[..|times| - 1] + [times[|times| - 1]];
      if times[|times| - 1].0 == origin then init else init + [times[|times| - 1]]
  }

  /** One other-mode leg from `j` to each target, arriving `time` later. */
  function ExtendForward<M>(j: Journey<M>, targets: TimesTable, ops: MetricOps<M>): (r: seq<Journey<M>>)
    ensures |r| == |targets|
    ensures forall k :: 0 <= k < |r| ==>
      r[k].PreviousLink() == Some(j) && r[k].Location() == targets[k].0
      && r[k].Time() == AddU64(j.Time(), targets[k].1) && r[k] == ChainSpecial(j, OtherMode, AddU64(j.Time(), targets[k].1), targets[k].0, WALK_TRIP, ops)
    decreases |targets|
  {
    if targets == [] then []
    else ExtendForward(j, targets[..|targets| - 1], ops)
         + [ChainSpecial(j, OtherMode, AddU64(j.Time(), targets[|targets| - 1].1), targets[|targets| - 1].0, WALK_TRIP, ops)]
  }

  /** One other-mode leg into `j` from each target, departing `time` earlier. */
  function ExtendBackward<M>(j: Journey<M>, targets: TimesTable, ops: MetricOps<M>): (r: seq<Journey<M>>)
    ensures |r| == |targets|
    ensures forall k :: 0 <= k < |r| ==>
      r[k].PreviousLink() == Some(j) && r[k].Location() == targets[k].0
      && r[k].Time() == SubU64(j.Time(), targets[k].1) && r[k] == ChainSpecial(j, OtherMode, SubU64(j.Time(), targets[k].1), targets[k].0, WALK_TRIP, ops)
    decreases |targets|
  {
    if targets == [] then []
    else ExtendBackward(j, targets[..|targets| - 1], ops)
         + [ChainSpecial(j, OtherMode, SubU64(j.Time(), targets[|targets| - 1].1), targets[|targets| - 1].0, WALK_TRIP, ops)]
  }

  const LOCATION_NOT_FOUND := "Location not found, could not move to it"

  /**
   * `WalkAwayFrom`: one other-mode journey from the journey's location to every other stop the
   * generator reaches. `stops` is the stops reader's database; `inRange` is what its
   * `LocationsInRange` returns around that location for the generator's range.
   */
  function WalkAwayFrom<M>(journey: Journey<M>, generator: OtherModeGenerator, stops: map<StopId, Coordinate>,
                           inRange: seq<Stop>, ops: MetricOps<M>): (r: Result<seq<Journey<M>>>)
    ensures r.Failure? <==> journey.Location() !in stops
    ensures r.Success? ==>
      |r.value| == |Targets(generator.timesBetween(stops[journey.Location()], inRange), journey.Location())|
      <= |generator.timesBetween(stops[journey.Location()], inRange)|
  {
    var location := journey.Location();
    if location !in stops then Failure(LOCATION_NOT_FOUND)
    else
      var times := generator.timesBetween(stops[location], inRange);
      Success(ExtendForward(journey, Targets(times, location), ops))
  }

  /** Every walk leaves `j` for a stop other than `j`'s own, arriving an entry's time later. */
  ghost predicate WalksLeave<M>(j: Journey<M>, times: TimesTable, walks: seq<Journey<M>>) {
    forall w :: w in walks ==>
      w.PreviousLink() == Some(j) && w.Location() != j.Location()
      && exists t :: (w.Location(), t) in times && w.Time() == AddU64(j.Time(), t)
  }
  /** Every entry for a stop other than `j`'s own gets a walk, arriving the entry's time later. */
  ghost predicate WalksCover<M>(j: Journey<M>, times: TimesTable, walks: seq<Journey<M>>) {
    forall e :: e in times && e.0 != j.Location() ==>
      exists w :: w in walks && w.Location() == e.0 && w.Time() == AddU64(j.Time(), e.1)
  }
  /**
   * Every walk `WalkAwayFrom` yields leaves the journey for another stop, arriving the reported
   * time later; and every other stop the generator reports gets such a walk.
   */
  lemma WalkAwayFromYields<M>(journey: Journey<M>, generator: OtherModeGenerator, stops: map<StopId, Coordinate>,
                              inRange: seq<Stop>, ops: MetricOps<M>)
    requires journey.Location() in stops
    ensures WalksLeave(journey, generator.timesBetween(stops[journey.Location()], inRange),
                       WalkAwayFrom(journey, generator, stops, inRange, ops).value)
    ensures WalksCover(journey, generator.timesBetween(stops[journey.Location()], inRange),
                       WalkAwayFrom(journey, generator, stops, inRange, ops).value)
  {
    ExtendForwardSound(journey, generator.timesBetween(stops[journey.Location()], inRange),
                       WalkAwayFrom(journey, generator, stops, inRange, ops).value, ops);
    ExtendForwardComplete(journey, generator.timesBetween(stops[journey.Location()], inRange),
                          WalkAwayFrom(journey, generator, stops, inRange, ops).value, ops);
  }
  lemma ExtendForwardSound<M>(j: Journey<M>, times: TimesTable, walks: seq<Journey<M>>, ops: MetricOps<M>)
    requires walks == ExtendForward(j, Targets(times, j.Location()), ops)
    ensures WalksLeave(j, times, walks)
  {
    var targets := Targets(times, j.Location());
    forall w | w in walks
      ensures w.PreviousLink() == Some(j) && w.Location() != j.Location()
      ensures exists t :: (w.Location(), t) in times && w.Time() == AddU64(j.Time(), t)
    {
      var k :| 0 <= k < |walks| && walks[k] == w;
      assert targets[k] in targets;
    }
  }
  lemma ExtendForwardComplete<M>(j: Journey<M>, times: TimesTable, walks: seq<Journey<M>>, ops: MetricOps<M>)
    requires walks == ExtendForward(j, Targets(times, j.Location()), ops)
    ensures WalksCover(j, times, walks)
  {
    var targets := Targets(times, j.Location());
    forall e | e in times && e.0 != j.Location()
      ensures exists w :: w in walks && w.Location() == e.0 && w.Time() == AddU64(j.Time(), e.1)
    {
      var k :| 0 <= k < |targets| && targets[k] == e;
      assert walks[k] in walks;
    }
  }
  /** The blocks one after the other. */
  function Flatten<T>(blocks: seq<seq<T>>): seq<T>
    decreases |blocks|
  {
    if blocks == [] then [] else blocks[0] + Flatten(blocks[1..])
  }

  /** `i·m` as repeated addition, so that the block layout can be proved without multiplication. */
  function Offset(i: nat, m: nat): nat {
    if i == 0 then 0 else m + Offset(i - 1, m)
  }

  lemma {:induction false} OffsetIsProduct(i: nat, m: nat)
    ensures Offset(i, m) == i * m
  {
    if i > 0 {
      OffsetIsProduct(i - 1, m);
      assert (i - 1) * m + m == i * m;
    }
  }

  ghost predicate BlocksOfLength<T>(blocks: seq<seq<T>>, m: nat) {
    forall b :: 0 <= b < |blocks| ==> |blocks[b]| == m
  }

  /** `n` blocks of `m` elements flatten to `Offset(n, m)` elements. */
  lemma {:induction false} FlattenLength<T>(blocks: seq<seq<T>>, m: nat)
    requires BlocksOfLength(blocks, m)
    ensures |Flatten(blocks)| == Offset(|blocks|, m)
    decreases |blocks|
  {
    if blocks != [] {
      FlattenLength(blocks[1..], m);
    }
  }

  /** Element `Offset(i, m) + k` of the flattened blocks is element `k` of block `i`. */
  lemma {:induction false} FlattenAt<T>(blocks: seq<seq<T>>, m: nat, i: nat, k: nat)
    requires BlocksOfLength(blocks, m) && i < |blocks| && k < m
    ensures Offset(i, m) + k < |Flatten(blocks)|
    ensures Flatten(blocks)[Offset(i, m) + k] == blocks[i][k]
    decreases i
  {
    FlattenLength(blocks, m);
    if i > 0 {
      FlattenAt(blocks[1..], m, i - 1, k);
      assert blocks[1..][i - 1] == blocks[i];
      assert Flatten(blocks) == blocks[0] + Flatten(blocks[1..]);
    }
  }

  /** All walks into each of `journeys`, journey by journey (the outer loop). */
  function WalksInto<M>(journeys: seq<Journey<M>>, targets: TimesTable, ops: MetricOps<M>): seq<Journey<M>> {
    Flatten(seq(|journeys|, i requires 0 <= i < |journeys| => ExtendBackward(journeys[i], targets, ops)))
  }

  /**
   * `WalkTowards` for many journeys that all start at `location`: each journey is prefixed with an
   * other-mode leg from every other stop the generator reaches, journeys forming the outer loop.
   */
  function WalkTowards<M>(journeys: seq<Journey<M>>, location: StopId, generator: OtherModeGenerator,
                          stops: map<StopId, Coordinate>, inRange: seq<Stop>, ops: MetricOps<M>): (r: Result<seq<Journey<M>>>)
    ensures r.Failure? <==> location !in stops
  {
    if location !in stops then Failure(LOCATION_NOT_FOUND)
    else
      var times := generator.timesBetween(stops[location], inRange);
      Success(WalksInto(journeys, Targets(times, location), ops))
  }

  /**
   * Walk number `off = i·m + k` (with `m` the number of targets) of `n` journeys' `n·m` walks is the
   * walk from the `k`-th target into the `i`-th journey.
   */
  lemma WalksIntoAt<M>(journeys: seq<Journey<M>>, targets: TimesTable, ops: MetricOps<M>, i: nat, k: nat, off: nat)
    requires i < |journeys| && k < |targets| && off == i * |targets| + k
    ensures |WalksInto(journeys, targets, ops)| == |journeys| * |targets|
    ensures off < |WalksInto(journeys, targets, ops)|
    ensures WalksInto(journeys, targets, ops)[off] == ExtendBackward(journeys[i], targets, ops)[k]
  {
    var blocks := seq(|journeys|, i requires 0 <= i < |journeys| => ExtendBackward(journeys[i], targets, ops));
    assert BlocksOfLength(blocks, |targets|);
    FlattenLength(blocks, |targets|);
    FlattenAt(blocks, |targets|, i, k);
    OffsetIsProduct(i, |targets|);
    OffsetIsProduct(|journeys|, |targets|);
  }

  /** Walk number `off = i·m + k` of `WalksInto` leaves the `k`-th target for the `i`-th journey. */
  lemma WalksIntoLayout<M>(journeys: seq<Journey<M>>, targets: TimesTable, ops: MetricOps<M>, i: nat, k: nat, off: nat)
    requires i < |journeys| && k < |targets| && off == i * |targets| + k
    ensures var r := WalksInto(journeys, targets, ops);
      |r| == |journeys| * |targets|
      && off < |r|
      && r[off].PreviousLink() == Some(journeys[i])
      && r[off].Location() == targets[k].0
      && r[off].Time() == SubU64(journeys[i].Time(), targets[k].1)
  {
    var r := WalksInto(journeys, targets, ops);
    WalksIntoAt(journeys, targets, ops, i, k, off);
    ExtendBackwardAt(journeys[i], targets, ops, k, r[off]);
  }

  lemma ExtendBackwardAt<M>(j: Journey<M>, targets: TimesTable, ops: MetricOps<M>, k: nat, w: Journey<M>)
    requires k < |targets| && k < |ExtendBackward(j, targets, ops)| && w == ExtendBackward(j, targets, ops)[k]
    ensures w.PreviousLink() == Some(j) && w.Location() == targets[k].0 && w.Time() == SubU64(j.Time(), targets[k].1)
  {
  }

  /**
   * The walks towards many journeys, stated per walk: walk number `off = i·m + k` (with `m` the
   * number of targets) leaves the `k`-th target for the `i`-th journey, departing the reported
   * time earlier.
   */
  lemma WalkTowardsLayout<M>(journeys: seq<Journey<M>>, location: StopId, generator: OtherModeGenerator,
                             stops: map<StopId, Coordinate>, inRange: seq<Stop>, ops: MetricOps<M>,
                             i: nat, k: nat, off: nat)
    requires location in stops
    requires var targets := Targets(generator.timesBetween(stops[location], inRange), location);
      i < |journeys| && k < |targets| && off == i * |targets| + k
    ensures var targets := Targets(generator.timesBetween(stops[location], inRange), location);
      var r := WalkTowards(journeys, location, generator, stops, inRange, ops).value;
      |r| == |journeys| * |targets|
      && off < |r|
      && r[off].PreviousLink() == Some(journeys[i])
      && r[off].Location() == targets[k].0 != location
      && r[off].Time() == SubU64(journeys[i].Time(), targets[k].1)
  {
    var targets := Targets(generator.timesBetween(stops[location], inRange), location);
    WalksIntoLayout(journeys, targets, ops, i, k, off);
    assert targets[k] in targets;
  }

  /** `WalkTowards` for one journey: the many-journey version on `[journey]` at its own location. */
  function WalkTowardsOne<M>(journey: Journey<M>, generator: OtherModeGenerator, stops: map<StopId, Coordinate>,
                             inRange: seq<Stop>, ops: MetricOps<M>): (r: Result<seq<Journey<M>>>)
    ensures r.Failure? <==> journey.Location() !in stops
    ensures r.Success? ==>
      r.value == ExtendBackward(journey, Targets(generator.timesBetween(stops[journey.Location()], inRange), journey.Location()), ops)
  {
    var r := WalkTowards([journey], journey.Location(), generator, stops, inRange, ops);
    assert [journey][1..] == [];
    if journey.Location() in stops then
      var targets := Targets(generator.timesBetween(stops[journey.Location()], inRange), journey.Location());
      var js := [journey];
      var blocks := seq(|js|, i requires 0 <= i < |js| => ExtendBackward(js[i], targets, ops));
      assert WalksInto([journey], targets, ops) == Flatten(blocks);
      assert blocks[1..] == [];
      assert Flatten(blocks) == blocks[0] + Flatten(blocks[1..]);
      assert ExtendBackward(journey, targets, ops) + [] == ExtendBackward(journey, targets, ops);
      r
    else r
  }

  /** `UseCache`: the generator behind a fresh, empty memo. */
  method UseCache(fallback: OtherModeGenerator) returns (c: OtherModeCacher.OtherModeCacher)
    ensures fresh(c) && c.fallback == fallback && c.Valid()
    ensures c.cacheSingle == map[] && c.cache == map[] && c.cacheByIds == map[] && c.fallbackCalls == 0
  {
    c := new OtherModeCacher.OtherModeCacher(fallback);
  }
}
