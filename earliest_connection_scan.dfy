/**
 * The earliest-arrival connection scan: a forward scan over the timetable that keeps,
 * per stop, the journey arriving there earliest and, per trip, the journey currently
 * on board that trip. Connections are integrated in batches of equal departure time.
 */
module EarliestConnectionScan {
  import opened Wrappers
  import opened Transit
  import opened Journeys
  import opened Connections

  /** What a scan runs on: the timetable, the transfer policy and the metric factory. */
  datatype Profile<!M> = Profile(
    connections: seq<Connection>,
    /** `CreateDepartureTransfer(journey, c)`: a transfer at the departure stop, then `c`; null if impossible. */
    transferPolicy: (Journey<M>, Connection) -> Option<Journey<M>>,
    metric: MetricOps<M>)

  /** The two dictionaries of a scan: `_s` (best journey per stop) and `_trips` (journey on board per trip). */
  datatype ScanState<M> = ScanState(s: map<StopId, Journey<M>>, trips: map<TripId, Journey<M>>)

  /** `GetJourneyTo`: the best journey to `stop`, or the `InfiniteJourney` sentinel. */
  function GetJourneyTo<M>(s: map<StopId, Journey<M>>, stop: StopId): (r: JourneyRef<M>)
    ensures r.InfiniteJourney? <==> stop !in s
    ensures r.Ref? ==> r.journey == s[stop]
  {
    if stop in s then Ref(s[stop]) else InfiniteJourney
  }

  /** A non-null candidate's arrival time; `ulong.MaxValue` stands in for "none yet". */
  function TimeOr<M>(r: JourneyRef<M>): Time {
    if r.Null? then TIME_MAX else r.Time()
  }

  /**
   * `SelectEarliest` as a left fold: each non-null candidate replaces the pick so far
   * only if it arrives strictly earlier, so on a tie the first candidate stays.
   */
  function Earliest<M>(cs: seq<JourneyRef<M>>): (r: JourneyRef<M>)
    ensures !r.InfiniteJourney?
    ensures r.Ref? ==> r.Time() < TIME_MAX
    decreases |cs|
  {
    if cs == [] then Null
    else
      var prev := Earliest(cs[..|cs| - 1]);
      var j := cs[|cs| - 1];
      if !j.Null? && j.Time() < TimeOr(prev) then j else prev
  }

  /**
   * `Earliest` picks the first candidate with the least arrival time, among those that are
   * non-null and arrive before `ulong.MaxValue`; it is null exactly when there is none.
   */
  lemma {:induction false} EarliestIsFirstMinimum<M>(cs: seq<JourneyRef<M>>)
    ensures Earliest(cs).Null? <==> forall k :: 0 <= k < |cs| ==> cs[k].Null? || cs[k].Time() == TIME_MAX
    ensures Earliest(cs).Ref? ==>
      exists k :: 0 <= k < |cs| && cs[k] == Earliest(cs)
        && (forall j :: 0 <= j < k ==> cs[j].Null? || cs[j].Time() > Earliest(cs).Time())
    ensures Earliest(cs).Ref? ==>
      forall j :: 0 <= j < |cs| && !cs[j].Null? ==> Earliest(cs).Time() <= cs[j].Time()
    decreases |cs|
  {
    if cs != [] {
      var init := cs[..|cs| - 1];
      EarliestIsFirstMinimum(init);
      var prev := Earliest(init);
      var r := Earliest(cs);
      var last := cs[|cs| - 1];
      if prev.Ref? {
        var k :| 0 <= k < |init| && init[k] == prev
          && (forall j :: 0 <= j < k ==> init[j].Null? || init[j].Time() > prev.Time());
        if r == prev {
          assert cs[k] == r;
        } else {
          assert cs[|cs| - 1] == r;
          assert forall j :: 0 <= j < |cs| - 1 ==> cs[j] == init[j];
        }
      } else {
        assert forall j :: 0 <= j < |cs| - 1 ==> cs[j] == init[j];
        if r.Ref? {
          assert cs[|cs| - 1] == r;
        }
      }
    }
  }

  /** The boarding journey `t1`: a transfer when the journey so far ends on this very trip, else chained directly. */
  function Boarding<M>(p: Profile<M>, journey: Journey<M>, c: Connection): (r: JourneyRef<M>)
    ensures !r.InfiniteJourney?
  {
    if journey.LastTripId() == Some(c.tripId) then ToRef(p.transferPolicy(journey, c))
    else Ref(ChainForward(journey, c, p.metric))
  }

  /** `IntegrateConnection` on the two dictionaries. */
  function Integrate<M>(p: Profile<M>, st: ScanState<M>, c: Connection): ScanState<M> {
    if c.departureStop !in st.s then st
    else
      var journeyTillDeparture := st.s[c.departureStop];
      if c.departureTime < journeyTillDeparture.Time() && c.tripId !in st.trips then st
      else
        var t1 := Boarding(p, journeyTillDeparture, c);
        var t2: JourneyRef<M> := if c.tripId in st.trips then Ref(ChainForward(st.trips[c.tripId], c, p.metric)) else Null;
        var trips := if t2.Ref? then st.trips[c.tripId := t2.journey]
                     else if t1.Ref? then st.trips[c.tripId := t1.journey]
                     else st.trips;
        var newJourney := Earliest([GetJourneyTo(st.s, c.arrivalStop), t1, t2]);
        ScanState(if newJourney.Ref? then st.s[c.arrivalStop := newJourney.journey] else st.s, trips)
  }

  /** Integrating connections one after the other, in the given order. */
  function IntegrateAll<M>(p: Profile<M>, st: ScanState<M>, cs: seq<Connection>): ScanState<M>
    decreases |cs|
  {
    if cs == [] then st else Integrate(p, IntegrateAll(p, st, cs[..|cs| - 1]), cs[|cs| - 1])
  }

  /** A connection from a stop not reached yet changes nothing. */
  lemma IntegrateFromUnreachedStop<M>(p: Profile<M>, st: ScanState<M>, c: Connection)
    requires c.departureStop !in st.s
    ensures Integrate(p, st, c) == st
  {
  }

  /** A connection that left before the stop is reached is ignored, unless its trip is already boarded. */
  lemma IntegrateMissedConnection<M>(p: Profile<M>, st: ScanState<M>, c: Connection)
    requires c.departureStop in st.s && c.departureTime < st.s[c.departureStop].Time()
    requires c.tripId !in st.trips
    ensures Integrate(p, st, c) == st
  {
  }

  /**
   * Trip bookkeeping once a connection is taken: an already-boarded trip is extended by the
   * connection; the first encounter stores the boarding journey, but only if there is one.
   */
  lemma IntegrateTrips<M>(p: Profile<M>, st: ScanState<M>, c: Connection)
    requires c.departureStop in st.s
    requires c.departureTime >= st.s[c.departureStop].Time() || c.tripId in st.trips
    ensures c.tripId in st.trips ==>
      Integrate(p, st, c).trips == st.trips[c.tripId := ChainForward(st.trips[c.tripId], c, p.metric)]
    ensures c.tripId !in st.trips ==>
      var t1 := Boarding(p, st.s[c.departureStop], c);
      Integrate(p, st, c).trips == if t1.Ref? then st.trips[c.tripId := t1.journey] else st.trips
  {
  }

  /**
   * Only the arrival stop's entry can change, its new journey is the earliest of
   * (existing, boarding, on board) with ties kept by the first, and no stop gets later.
   */
  lemma IntegrateArrival<M>(p: Profile<M>, st: ScanState<M>, c: Connection)
    ensures Integrate(p, st, c).s.Keys == st.s.Keys || Integrate(p, st, c).s.Keys == st.s.Keys + {c.arrivalStop}
    ensures forall x :: x in st.s && x != c.arrivalStop ==> Integrate(p, st, c).s[x] == st.s[x]
    ensures c.arrivalStop in Integrate(p, st, c).s && c.arrivalStop in st.s ==>
      Integrate(p, st, c).s[c.arrivalStop].Time() <= st.s[c.arrivalStop].Time()
    ensures c.arrivalStop in Integrate(p, st, c).s && c.arrivalStop in st.s
            && Integrate(p, st, c).s[c.arrivalStop] != st.s[c.arrivalStop] ==>
      Integrate(p, st, c).s[c.arrivalStop].Time() < st.s[c.arrivalStop].Time()
  {
    if c.departureStop in st.s {
      var jd := st.s[c.departureStop];
      if !(c.departureTime < jd.Time() && c.tripId !in st.trips) {
        var t1 := Boarding(p, jd, c);
        var t2: JourneyRef<M> := if c.tripId in st.trips then Ref(ChainForward(st.trips[c.tripId], c, p.metric)) else Null;
        var cands := [GetJourneyTo(st.s, c.arrivalStop), t1, t2];
        EarliestIsFirstMinimum(cands);
        var best := Earliest(cands);
        assert Integrate(p, st, c).s == if best.Ref? then st.s[c.arrivalStop := best.journey] else st.s;
        if c.arrivalStop in st.s && best.Ref? {
          assert cands[0] == Ref(st.s[c.arrivalStop]);
          if best.journey != st.s[c.arrivalStop] {
            var k :| 0 <= k < |cands| && cands[k] == best
              && (forall j :: 0 <= j < k ==> cands[j].Null? || cands[j].Time() > best.Time());
            assert k != 0;
          }
        }
      }
    }
  }

  /** One integration never makes any stop's best journey later, and never forgets a stop. */
  lemma IntegrateNeverDelays<M>(p: Profile<M>, st: ScanState<M>, c: Connection)
    ensures st.s.Keys <= Integrate(p, st, c).s.Keys
    ensures forall x :: x in st.s ==> Integrate(p, st, c).s[x].Time() <= st.s[x].Time()
  {
    IntegrateArrival(p, st, c);
  }

  /** Over any run of connections, arrival times at stops never increase and reached stops stay reached. */
  lemma {:induction false} IntegrateAllNeverDelays<M>(p: Profile<M>, st: ScanState<M>, cs: seq<Connection>)
    ensures st.s.Keys <= IntegrateAll(p, st, cs).s.Keys
    ensures forall x :: x in st.s ==> IntegrateAll(p, st, cs).s[x].Time() <= st.s[x].Time()
    decreases |cs|
  {
    if cs != [] {
      IntegrateAllNeverDelays(p, st, cs[..|cs| - 1]);
      IntegrateNeverDelays(p, IntegrateAll(p, st, cs[..|cs| - 1]), cs[|cs| - 1]);
    }
  }

  /** Extending a run of the timetable by its next connection integrates one more connection. */
  lemma IntegrateAllStep<M>(p: Profile<M>, st: ScanState<M>, cs: seq<Connection>, i: nat, j: nat)
    requires i <= j < |cs|
    ensures IntegrateAll(p, st, cs[i..j + 1]) == Integrate(p, IntegrateAll(p, st, cs[i..j]), cs[j])
  {
    var seg := cs[i..j + 1];
    assert seg[..|seg| - 1] == cs[i..j];
  }
  /** Integrating two runs one after the other is integrating their concatenation. */
  lemma {:induction false} IntegrateAllAppend<M>(p: Profile<M>, st: ScanState<M>, xs: seq<Connection>, ys: seq<Connection>)
    ensures IntegrateAll(p, IntegrateAll(p, st, xs), ys) == IntegrateAll(p, st, xs + ys)
    decreases |ys|
  {
    if ys == [] {
      assert xs + ys == xs;
    } else {
      IntegrateAllAppend(p, st, xs, ys[..|ys| - 1]);
      assert (xs + ys)[..|xs + ys| - 1] == xs + ys[..|ys| - 1];
    }
  }

  /** Integrating a run of the timetable and then the run after it integrates both runs. */
  lemma IntegrateAllSplit<M>(p: Profile<M>, st: ScanState<M>, cs: seq<Connection>, i: nat, j: nat, k: nat)
    requires i <= j <= k <= |cs|
    ensures IntegrateAll(p, IntegrateAll(p, st, cs[i..j]), cs[j..k]) == IntegrateAll(p, st, cs[i..k])
  {
    IntegrateAllAppend(p, st, cs[i..j], cs[j..k]);
    assert cs[i..j] + cs[j..k] == cs[i..k];
  }
  /**
   * The time `GetBestTime` computes, as a fold over the targets in order: the least arrival time
   * at a reached target, or `ulong.MaxValue` when no target is reached earlier.
   */
  function BestTime<M>(targets: seq<StopId>, s: map<StopId, Journey<M>>): (r: Time)
    ensures forall j :: 0 <= j < |targets| && targets[j] in s ==> r <= s[targets[j]].Time()
    ensures r == TIME_MAX || exists j :: 0 <= j < |targets| && targets[j] in s && s[targets[j]].Time() == r
    decreases |targets|
  {
    if targets == [] then TIME_MAX
    else
      var rest := targets[..|targets| - 1];
      var b := BestTime(rest, s);
      var t := targets[|targets| - 1];
      assert forall j :: 0 <= j < |rest| ==> rest[j] == targets[j];
      if t in s && s[t].Time() < b then s[t].Time() else b
  }

  /** Reaching more stops, and none later, never makes the best time at the targets later. */
  lemma BestTimeMonotone<M>(targets: seq<StopId>, s: map<StopId, Journey<M>>, s': map<StopId, Journey<M>>)
    requires s.Keys <= s'.Keys
    requires forall x :: x in s ==> s'[x].Time() <= s[x].Time()
    ensures BestTime(targets, s') <= BestTime(targets, s)
  {
    var b := BestTime(targets, s);
    if b != TIME_MAX {
      var j :| 0 <= j < |targets| && targets[j] in s && s[targets[j]].Time() == b;
      assert BestTime(targets, s') <= s'[targets[j]].Time();
    }
  }

  /** `a` is the first index of the timetable departing at or after `t`: where `MoveToNext(t)` leaves the cursor. */
  ghost predicate FirstAtOrAfter(cs: seq<Connection>, a: nat, t: Time) {
    a <= |cs|
    && (forall k :: 0 <= k < a ==> cs[k].departureTime < t)
    && (a < |cs| ==> cs[a].departureTime >= t)
  }

  /** There is only one such index, so the scan's starting point is determined by `earliestDeparture`. */
  lemma FirstAtOrAfterUnique(cs: seq<Connection>, a: nat, a': nat, t: Time)
    requires FirstAtOrAfter(cs, a, t) && FirstAtOrAfter(cs, a', t)
    ensures a == a'
  {
  }

  /** The best target time once `cs[start..k]` is integrated into `st0`. */
  ghost function BestAfter<M>(p: Profile<M>, targets: seq<StopId>, st0: ScanState<M>, start: nat, k: nat): Time
    requires start <= k <= |p.connections|
  {
    BestTime(targets, IntegrateAll(p, st0, p.connections[start..k]).s)
  }

  /**
   * Every batch of `cs[start..end]` after the first departs no later than the best target time
   * reached by the connections integrated before it.
   */
  ghost predicate BatchesWithinBest<M>(p: Profile<M>, targets: seq<StopId>, st0: ScanState<M>, start: nat, end: nat)
    requires start <= end <= |p.connections|
  {
    forall k :: start < k < end && p.connections[k - 1].departureTime < p.connections[k].departureTime ==>
      p.connections[k].departureTime <= BestAfter(p, targets, st0, start, k)
  }

  /** Appending one batch that departs within the best time reached so far keeps `BatchesWithinBest`. */
  lemma BatchesWithinBestExtend<M>(p: Profile<M>, targets: seq<StopId>, st0: ScanState<M>, start: nat, mid: nat, end: nat)
    requires start <= mid < end <= |p.connections|
    requires BatchesWithinBest(p, targets, st0, start, mid)
    requires forall k :: mid <= k < end ==> p.connections[k].departureTime == p.connections[mid].departureTime
    requires mid > start ==>
      p.connections[mid].departureTime <= BestAfter(p, targets, st0, start, mid)
    ensures BatchesWithinBest(p, targets, st0, start, end)
  {
    forall k | start < k < end && p.connections[k - 1].departureTime < p.connections[k].departureTime
      ensures p.connections[k].departureTime <= BestAfter(p, targets, st0, start, k)
    {
      if mid < k {
        assert false;
      }
    }
  }

  /**
   * The bound the main loop of `CalculateJourney` tests once `cs[a..mid]` is integrated:
   * `lastDeparture` before the first batch, and after it the smaller of `lastDeparture` and the
   * best target time.
   */
  ghost function ScanBound<M>(p: Profile<M>, targets: seq<StopId>, lastDeparture: Time, st0: ScanState<M>, a: nat, mid: nat): (r: Time)
    requires a <= mid <= |p.connections|
    ensures r <= lastDeparture
    ensures mid > a ==> r <= BestAfter(p, targets, st0, a, mid)
  {
    if mid == a then lastDeparture
    else
      var best := BestAfter(p, targets, st0, a, mid);
      if best < lastDeparture then best else lastDeparture
  }

  /**
   * One more batch lowers the bound to the new best target time, taken against the old bound, as
   * `Math.Min(GetBestTime().bestTime, lastDeparture)` does, provided the best time did not rise.
   */
  lemma ScanBoundStep<M>(p: Profile<M>, targets: seq<StopId>, lastDeparture: Time, st0: ScanState<M>, a: nat, mid: nat, end: nat)
    requires a <= mid < end <= |p.connections|
    requires mid > a ==>
      BestAfter(p, targets, st0, a, end)
        <= BestAfter(p, targets, st0, a, mid)
    ensures var best := BestAfter(p, targets, st0, a, end);
      var bound := ScanBound(p, targets, lastDeparture, st0, a, mid);
      ScanBound(p, targets, lastDeparture, st0, a, end) == if best < bound then best else bound
  {
  }

  /**
   * The main loop integrated `cs[a..mid]`: nothing departing after `lastDeparture`, no batch after
   * the first departing after the best target time reached before it, and it stopped at the first
   * connection departing after the bound in force, or at the end of the timetable.
   */
  ghost predicate ScannedUntilTarget<M>(p: Profile<M>, targets: seq<StopId>, lastDeparture: Time, st0: ScanState<M>, a: nat, mid: nat) {
    a <= mid <= |p.connections|
    && (forall k :: a <= k < mid ==> p.connections[k].departureTime <= lastDeparture)
    && BatchesWithinBest(p, targets, st0, a, mid)
    && (mid < |p.connections| ==> p.connections[mid].departureTime > ScanBound(p, targets, lastDeparture, st0, a, mid))
  }

  /** On a sorted timetable, every connection the main loop left unscanned departs after the bound it stopped at. */
  lemma UnscannedDepartLater<M>(p: Profile<M>, targets: seq<StopId>, lastDeparture: Time, st0: ScanState<M>, a: nat, mid: nat, k: nat)
    requires SortedByDeparture(p.connections)
    requires ScannedUntilTarget(p, targets, lastDeparture, st0, a, mid)
    requires mid <= k < |p.connections|
    ensures p.connections[k].departureTime > ScanBound(p, targets, lastDeparture, st0, a, mid)
  {
    assert p.connections[mid].departureTime <= p.connections[k].departureTime;
  }

  /**
   * The filter loop integrated `cs[mid..b]`: everything departs before `filterEnd`, and it stopped
   * at the first connection departing at or after it, or at the end of the timetable.
   */
  ghost predicate ScannedWindow(cs: seq<Connection>, mid: nat, b: nat, filterEnd: Time) {
    mid <= b <= |cs|
    && (forall k :: mid <= k < b ==> cs[k].departureTime < filterEnd)
    && (b < |cs| ==> cs[b].departureTime >= filterEnd)
  }

  /** `CanBeTaken`'s verdict, stated on a scan state. */
  predicate Takeable<M>(s: map<StopId, Journey<M>>, c: Connection) {
    c.departureStop in s && s[c.departureStop].Time() <= c.departureTime
  }

  /**
   * Used as a filter, the scan rejects exactly the connections its own integration would skip
   * on a trip not yet boarded: unreached departure stop, or departed before the stop is reached.
   */
  lemma FilterAgreesWithScan<M>(p: Profile<M>, st: ScanState<M>, c: Connection)
    requires c.tripId !in st.trips
    ensures !Takeable(st.s, c) ==> Integrate(p, st, c) == st
    ensures Takeable(st.s, c) && Boarding(p, st.s[c.departureStop], c).Ref? ==>
      c.tripId in Integrate(p, st, c).trips
    ensures Takeable(st.s, c) && Boarding(p, st.s[c.departureStop], c).Ref?
            && Boarding(p, st.s[c.departureStop], c).Time() < TIME_MAX ==>
      c.arrivalStop in Integrate(p, st, c).s
  {
    if Takeable(st.s, c) && Boarding(p, st.s[c.departureStop], c).Ref? {
      var t1 := Boarding(p, st.s[c.departureStop], c);
      var cands := [GetJourneyTo(st.s, c.arrivalStop), t1, Null];
      EarliestIsFirstMinimum(cands);
      assert Integrate(p, st, c).s == if Earliest(cands).Ref? then st.s[c.arrivalStop := Earliest(cands).journey] else st.s;
      if t1.Time() < TIME_MAX {
        assert !cands[1].Null? && cands[1].Time() != TIME_MAX;
      }
    }
  }

  ghost predicate Distinct(xs: seq<StopId>) {
    forall i, j :: 0 <= i < j < |xs| ==> xs[i] != xs[j]
  }

  /** The constructor's `_s.Add` loop: every departure stop gets a root journey; a repeated stop throws. */
  method SeedStops<M>(departures: seq<StopId>, time: Time, zero: M) returns (r: Result<map<StopId, Journey<M>>>)
    ensures r.Success? <==> Distinct(departures)
    ensures r.Success? ==> r.value.Keys == set d | d in departures
    ensures r.Success? ==> forall d :: d in r.value ==> r.value[d] == Genesis(d, time, zero)
  {
    var s: map<StopId, Journey<M>> := map[];
    var i := 0;
    while i < |departures|
      invariant 0 <= i <= |departures|
      invariant Distinct(departures[..i])
      invariant s.Keys == set d | d in departures[..i]
      invariant forall d :: d in s ==> s[d] == Genesis(d, time, zero)
    {
      var loc := departures[i];
      if loc in s {
        var k :| 0 <= k < i && departures[k] == loc;
        return Failure("An item with the same key has already been added");
      }
      s := s[loc := Genesis(loc, time, zero)];
      assert departures[..i + 1] == departures[..i] + [loc];
      i := i + 1;
    }
    assert departures[..i] == departures;
    r := Success(s);
  }

  /** The messages of the exceptions `CheckWindow` throws. */
  const BEFORE_SCAN := "This EAS can not be used as connection filter, the requesting algorithm requests connections before my scantime "
  const AFTER_SCAN := "This EAS can not be used as connection filter, the requesting algorithm requests connections after my scantime "
  const NOT_RUN := "This algorithm hasn't run yet"

  class EarliestConnectionScan<M> {
    const targets: seq<StopId>
    const profile: Profile<M>
    const earliestDeparture: Time
    const lastDeparture: Time
    /** At what time this scan stops being usable as a connection filter. */
    var filterEndTime: Time
    var s: map<StopId, Journey<M>>
    var trips: map<TripId, Journey<M>>

    ghost predicate Valid()
      reads this
    {
      SortedByDeparture(profile.connections)
    }

    function State(): ScanState<M>
      reads this
    {
      ScanState(s, trips)
    }

    constructor Init(targets: seq<StopId>, earliestDeparture: Time, lastDeparture: Time,
                     profile: Profile<M>, seeded: map<StopId, Journey<M>>)
      requires SortedByDeparture(profile.connections)
      ensures Valid()
      ensures this.targets == targets && this.profile == profile
      ensures this.earliestDeparture == earliestDeparture && this.lastDeparture == lastDeparture
      ensures s == seeded && trips == map[] && filterEndTime == 0
    {
      this.targets := targets;
      this.profile := profile;
      this.earliestDeparture := earliestDeparture;
      this.lastDeparture := lastDeparture;
      filterEndTime := 0;
      s := seeded;
      trips := map[];
    }

    /** The list constructor: each departure stop starts with a root journey at `earliestDeparture`. */
    static method Create(departures: seq<StopId>, targets: seq<StopId>, earliestDeparture: Time,
                         lastDeparture: Time, profile: Profile<M>)
      returns (r: Result<EarliestConnectionScan<M>>)
      requires SortedByDeparture(profile.connections)
      ensures r.Success? <==> Distinct(departures)
      ensures r.Success? ==> fresh(r.value) && r.value.Valid()
      ensures r.Success? ==> r.value.targets == targets && r.value.profile == profile
      ensures r.Success? ==> r.value.earliestDeparture == earliestDeparture && r.value.lastDeparture == lastDeparture
      ensures r.Success? ==> r.value.trips == map[] && r.value.filterEndTime == 0
      ensures r.Success? ==> r.value.s.Keys == set d | d in departures
      ensures r.Success? ==> forall d :: d in r.value.s ==> r.value.s[d] == Genesis(d, earliestDeparture, profile.metric.zero)
    {
      var seeded := SeedStops(departures, earliestDeparture, profile.metric.zero);
      if seeded.Failure? {
        return Failure(seeded.error);
      }
      var scan := new EarliestConnectionScan.Init(targets, earliestDeparture, lastDeparture, profile, seeded.value);
      r := Success(scan);
    }

    /** `SelectEarliest(params journeys)`: a running minimum over the non-null candidates. */
    static method SelectEarliest(journeys: seq<JourneyRef<M>>) returns (earliest: JourneyRef<M>)
      ensures earliest == Earliest(journeys)
    {
      earliest := Null;
      var earliestTime := TIME_MAX;
      var i := 0;
      while i < |journeys|
        invariant 0 <= i <= |journeys|
        invariant earliest == Earliest(journeys[..i])
        invariant earliestTime == TimeOr(earliest)
      {
        var journey := journeys[i];
        assert journeys[..i + 1][..i] == journeys[..i];
        if !journey.Null? {
          var arrTime := journey.Time();
          if arrTime < earliestTime {
            earliest := journey;
            earliestTime := arrTime;
          }
        }
        i := i + 1;
      }
      assert journeys[..i] == journeys;
    }

    /**
     * `GetBestTime`: the earliest time at which a target stop is reached, with the first target
     * reaching it, or `(ulong.MaxValue, null)` when no target is reached before that.
     */
    method GetBestTime() returns (bestTime: Time, bestLocation: Option<StopId>)
      ensures bestLocation.None? <==> forall t :: t in targets && t in s ==> s[t].Time() == TIME_MAX
      ensures bestLocation.None? ==> bestTime == TIME_MAX
      ensures bestLocation.Some? ==>
        bestLocation.value in targets && bestLocation.value in s && bestTime == s[bestLocation.value].Time() < TIME_MAX
      ensures forall t :: t in targets && t in s ==> bestTime <= s[t].Time()
      ensures bestLocation.Some? ==>
        exists k :: 0 <= k < |targets| && targets[k] == bestLocation.value
          && forall j :: 0 <= j < k && targets[j] in s ==> s[targets[j]].Time() > bestTime
      ensures bestTime == BestTime(targets, s)
    {
      bestTime := TIME_MAX;
      bestLocation := None;
      var i := 0;
      while i < |targets|
        invariant 0 <= i <= |targets|
        invariant bestLocation.None? <==> forall j :: 0 <= j < i && targets[j] in s ==> s[targets[j]].Time() == TIME_MAX
        invariant bestLocation.None? ==> bestTime == TIME_MAX
        invariant bestLocation.Some? ==>
          bestLocation.value in s && bestTime == s[bestLocation.value].Time() < TIME_MAX
        invariant forall j :: 0 <= j < i && targets[j] in s ==> bestTime <= s[targets[j]].Time()
        invariant bestLocation.Some? ==>
          exists k :: 0 <= k < i && targets[k] == bestLocation.value
            && forall j :: 0 <= j < k && targets[j] in s ==> s[targets[j]].Time() > bestTime
        invariant bestTime == BestTime(targets[..i], s)
      {
        var targetLoc := targets[i];
        assert targets[..i + 1][..i] == targets[..i];
        if targetLoc in s {
          var arrival := s[targetLoc].Time();
          if arrival < bestTime {
            bestTime := arrival;
            bestLocation := Some(targetLoc);
          }
        }
        i := i + 1;
      }
      assert targets[..i] == targets;
    }

    /** `IntegrateConnection`: updates `_s` and `_trips` as `Integrate` describes. */
    method IntegrateConnection(c: Connection)
      modifies this
      ensures State() == Integrate(profile, old(State()), c)
      ensures filterEndTime == old(filterEndTime)
    {
      if c.departureStop !in s {
        return;
      }
      var journeyTillDeparture := s[c.departureStop];
      var trip := c.tripId;
      if c.departureTime < journeyTillDeparture.Time() && trip !in trips {
        return;
      }
      var t1: JourneyRef<M>;
      var lastTripId := journeyTillDeparture.LastTripId();
      if lastTripId == Some(trip) {
        t1 := ToRef(profile.transferPolicy(journeyTillDeparture, c));
      } else {
        t1 := Ref(ChainForward(journeyTillDeparture, c, profile.metric));
      }
      var t2: JourneyRef<M> := Null;
      if trip in trips {
        var onBoard := ChainForward(trips[trip], c, profile.metric);
        trips := trips[trip := onBoard];
        t2 := Ref(onBoard);
      } else if t1.Ref? {
        trips := trips[trip := t1.journey];
      }
      var journeyTillArrival := GetJourneyTo(s, c.arrivalStop);
      var newJourney := SelectEarliest([journeyTillArrival, t1, t2]);
      if !newJourney.Ref? {
        return;
      }
      s := s[c.arrivalStop := newJourney.journey];
    }

    /**
     * `IntegrateBatch`: integrate the current connection and every following one with the same
     * departure time; false once the timetable is exhausted.
     */
    method IntegrateBatch(e: DepartureEnumerator) returns (more: bool)
      requires e.Valid() && e.connections == profile.connections && !e.Exhausted()
      modifies this, e
      ensures e.Valid() && old(e.index) < e.index
      ensures forall k :: old(e.index) <= k < e.index ==> e.connections[k].departureTime == old(e.DepartureTime())
      ensures more <==> !e.Exhausted()
      ensures more ==> e.DepartureTime() > old(e.DepartureTime())
      ensures State() == IntegrateAll(profile, old(State()), e.connections[old(e.index)..e.index])
      ensures filterEndTime == old(filterEndTime)
    {
      var lastDepartureTime := e.DepartureTime();
      ghost var start := e.index;
      ghost var st0 := State();
      while true
        invariant e.Valid() && start <= e.index < |e.connections|
        invariant e.DepartureTime() == lastDepartureTime
        invariant forall k :: start <= k < e.index ==> e.connections[k].departureTime == lastDepartureTime
        invariant State() == IntegrateAll(profile, st0, e.connections[start..e.index])
        invariant filterEndTime == old(filterEndTime)
        decreases |e.connections| - e.index
      {
        IntegrateConnection(e.Current());
        IntegrateAllStep(profile, st0, e.connections, start, e.index);
        var moved := e.MoveNext();
        if !moved {
          return false;
        }
        if lastDepartureTime != e.DepartureTime() {
          assert e.connections[e.index - 1].departureTime <= e.connections[e.index].departureTime;
          return true;
        }
      }
    }

    /**
     * The main loop of `CalculateJourney`: integrate batch after batch while the next departure
     * is not later than the bound, which shrinks to the best time at a target after each batch.
     */
    method ScanUntilTarget(e: DepartureEnumerator)
      requires e.Valid() && e.connections == profile.connections
      modifies this, e
      ensures e.Valid() && old(e.index) <= e.index
      ensures State() == IntegrateAll(profile, old(State()), e.connections[old(e.index)..e.index])
      ensures ScannedUntilTarget(profile, targets, lastDeparture, old(State()), old(e.index), e.index)
      ensures filterEndTime == old(filterEndTime)
    {
      ghost var start := e.index;
      ghost var st0 := State();
      assert e.connections[start..e.index] == [];
      var lastDep := lastDeparture;
      while e.DepartureTime() <= lastDep
        invariant e.Valid() && e.connections == profile.connections && start <= e.index
        invariant State() == IntegrateAll(profile, st0, e.connections[start..e.index])
        invariant lastDep == ScanBound(profile, targets, lastDeparture, st0, start, e.index)
        invariant forall k :: start <= k < e.index ==> e.connections[k].departureTime <= lastDeparture
        invariant BatchesWithinBest(profile, targets, st0, start, e.index)
        invariant filterEndTime == old(filterEndTime)
        decreases |e.connections| - e.index
      {
        ghost var mid := e.index;
        ghost var stMid := State();
        var more := IntegrateBatch(e);
        IntegrateAllSplit(profile, st0, e.connections, start, mid, e.index);
        BatchesWithinBestExtend(profile, targets, st0, start, mid, e.index);
        if !more {
          break;
        }
        var bestTime, _ := GetBestTime();
        IntegrateAllNeverDelays(profile, stMid, e.connections[mid..e.index]);
        BestTimeMonotone(targets, stMid.s, s);
        ScanBoundStep(profile, targets, lastDeparture, st0, start, mid, e.index);
        lastDep := if bestTime < lastDep then bestTime else lastDep;
      }
    }

    /** The filter extension of `CalculateJourney`: integrate batches while they depart before `filterEndTime`. */
    method ScanFilterWindow(e: DepartureEnumerator)
      requires e.Valid() && e.connections == profile.connections
      modifies this, e
      ensures e.Valid() && old(e.index) <= e.index
      ensures State() == IntegrateAll(profile, old(State()), e.connections[old(e.index)..e.index])
      ensures ScannedWindow(e.connections, old(e.index), e.index, filterEndTime)
      ensures filterEndTime == old(filterEndTime)
    {
      ghost var start := e.index;
      ghost var st0 := State();
      assert e.connections[start..e.index] == [];
      while e.DepartureTime() < filterEndTime
        invariant e.Valid() && e.connections == profile.connections && start <= e.index
        invariant State() == IntegrateAll(profile, st0, e.connections[start..e.index])
        invariant forall k :: start <= k < e.index ==> e.connections[k].departureTime < filterEndTime
        invariant filterEndTime == old(filterEndTime)
        decreases |e.connections| - e.index
      {
        ghost var mid := e.index;
        var more := IntegrateBatch(e);
        IntegrateAllSplit(profile, st0, e.connections, start, mid, e.index);
        if !more {
          break;
        }
      }
    }

    /**
     * `CalculateJourney`: scan from `earliestDeparture` until a target is reached, and return the
     * journey to the earliest target. With `depArrivalToTimeout`, record the filter end time it
     * gives for that journey and keep scanning up to it. The ghost results name the runs of the
     * timetable scanned: `cs[a..mid]` by the main loop and `cs[mid..b]` by the filter loop.
     */
    method CalculateJourney(depArrivalToTimeout: Option<(Time, Time) -> Time>)
      returns (r: Option<Journey<M>>, ghost a: nat, ghost mid: nat, ghost b: nat)
      requires Valid()
      modifies this
      ensures FirstAtOrAfter(profile.connections, a, earliestDeparture)
      ensures ScannedUntilTarget(profile, targets, lastDeparture, old(State()), a, mid)
      ensures mid <= b <= |profile.connections|
      ensures State() == IntegrateAll(profile, old(State()), profile.connections[a..b])
      ensures var found := IntegrateAll(profile, old(State()), profile.connections[a..mid]).s;
        && (r.None? <==> BestTime(targets, found) == TIME_MAX)
        && (r.Some? ==> r.value.Time() == BestTime(targets, found))
        && (r.Some? ==> exists t :: t in targets && t in found && found[t] == r.value)
      ensures r.None? <==> forall t :: t in targets && t in s ==> s[t].Time() == TIME_MAX
      ensures r.Some? ==> exists t :: t in targets && t in s && s[t].Time() <= r.value.Time()
      ensures r.None? || depArrivalToTimeout.None? ==> b == mid && filterEndTime == old(filterEndTime)
      ensures r.Some? && depArrivalToTimeout.Some? ==>
        filterEndTime == depArrivalToTimeout.value(r.value.Root().Time(), r.value.Time())
        && ScannedWindow(profile.connections, mid, b, filterEndTime)
    {
      var e := new DepartureEnumerator(profile.connections);
      e.MoveToNext(earliestDeparture);
      a := e.index;
      ScanUntilTarget(e);
      mid := e.index;
      b := mid;
      ghost var stMid := State();
      var bestTime, bestLocation := GetBestTime();
      if bestLocation.None? {
        r := None;
        return;
      }
      var journey := s[bestLocation.value];
      if depArrivalToTimeout.None? {
        r := Some(journey);
        return;
      }
      filterEndTime := depArrivalToTimeout.value(journey.Root().Time(), journey.Time());
      ScanFilterWindow(e);
      b := e.index;
      IntegrateAllNeverDelays(profile, stMid, profile.connections[mid..b]);
      IntegrateAllSplit(profile, old(State()), profile.connections, a, mid, b);
      assert bestLocation.value in targets && bestLocation.value in s && s[bestLocation.value].Time() <= journey.Time();
      r := Some(journey);
    }
    /**
     * `CheckWindow`: the scan may serve as a filter only inside the window it scanned,
     * and only after it has run.
     */
    function CheckWindow(earliestDepTime: Time, latestArrivalTime: Time): (r: Outcome)
      reads this
      ensures r.Pass? <==> earliestDepTime >= earliestDeparture && latestArrivalTime <= filterEndTime && |s| != 1
      ensures earliestDepTime < earliestDeparture ==>
        r == Fail(BEFORE_SCAN)
      ensures earliestDepTime >= earliestDeparture && latestArrivalTime > filterEndTime ==>
        r == Fail(AFTER_SCAN)
      ensures earliestDepTime >= earliestDeparture && latestArrivalTime <= filterEndTime && |s| == 1 ==>
        r == Fail(NOT_RUN)
    {
      if !(earliestDepTime >= earliestDeparture) then
        Fail(BEFORE_SCAN)
      else if !(latestArrivalTime <= filterEndTime) then
        Fail(AFTER_SCAN)
      else if |s| == 1 then
        Fail(NOT_RUN)
      else
        Pass
    }

    /** `CanBeTaken`: the departure stop is reached no later than the connection leaves (inclusive). */
    function CanBeTaken(c: Connection): (r: bool)
      reads this
      ensures r <==> c.departureStop in s && s[c.departureStop].Time() <= c.departureTime
      ensures r == Takeable(s, c)
    {
      if c.departureStop !in s then false else s[c.departureStop].Time() <= c.departureTime
    }
  }
}
