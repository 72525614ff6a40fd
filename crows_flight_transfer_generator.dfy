/** Walks between stops timed by their straight-line distance. */
module CrowsFlightTransferGenerator {
  import opened Wrappers
  import opened Transit
  import opened Journeys

  /** The default maximum walking distance, in metres. */
  const DEFAULT_MAX_DISTANCE: int := 500
  /** The single-precision value of the default speed `1.4f`, in metres per second. */
  const DEFAULT_SPEED: real := 1.39999997615814208984375

  /** `reader.CalculateDistanceBetween`: the distance in metres between two stops. */
  type Distances = (StopId, StopId) -> real

  datatype CrowsFlightTransferGenerator = CrowsFlightTransferGenerator(maxDistance: int, speed: real)
  {
    /** The constructor with its default arguments. */
    static function Default(): (g: CrowsFlightTransferGenerator)
      ensures g.maxDistance == DEFAULT_MAX_DISTANCE && g.speed == DEFAULT_SPEED
    {
      CrowsFlightTransferGenerator(DEFAULT_MAX_DISTANCE, DEFAULT_SPEED)
    }

    /** The walking time in seconds over `distance` metres. */
    function WalkingTime(distance: real): (w: real)
      requires distance >= 0.0 && speed >= 0.0
      ensures w >= 0.0
    {
      distance * speed
    }

    /**
     * The walking time the speed's unit calls for: `distance` metres at `speed` metres
     * per second.
     */
    function SecondsToWalk(distance: real): (w: real)
      requires distance >= 0.0 && speed > 0.0
      ensures w >= 0.0 && w * speed == distance
    {
      distance / speed
    }
    /**
     * `CreateDepartureTransfer`: walk from the end of `buildOn` to `otherLocation`, arriving
     * no later than `timeWhenLeaving`; null when too far or too late.
     */
    function CreateDepartureTransfer<M>(reader: Distances, buildOn: Journey<M>, timeWhenLeaving: Time,
                                        otherLocation: StopId, ops: MetricOps<M>): (r: Option<Journey<M>>)
      requires speed >= 0.0 && reader(buildOn.Location(), otherLocation) >= 0.0
      ensures var distance := reader(buildOn.Location(), otherLocation);
        r.None? <==> distance > maxDistance as real || buildOn.Time() as real + WalkingTime(distance) > timeWhenLeaving as real
      ensures r.Some? ==>
        r.value.Chain? && r.value.link == Walk && r.value.trip == UINT_MAX
        && r.value.previous == buildOn && r.value.Location() == otherLocation
        && buildOn.Time() <= r.value.Time() <= timeWhenLeaving
      ensures r.Some? ==>
        r.value.Time() as real <= buildOn.Time() as real + WalkingTime(reader(buildOn.Location(), otherLocation))
        < r.value.Time() as real + 1.0
    {
      var distance := reader(buildOn.Location(), otherLocation);
      if distance > maxDistance as real then None
      else
        var arrivalTime := buildOn.Time() as real + WalkingTime(distance);
        if arrivalTime > timeWhenLeaving as real then None
        else
          assert buildOn.Time() <= arrivalTime.Floor <= timeWhenLeaving;
          Some(ChainSpecial(buildOn, Walk, arrivalTime.Floor, otherLocation, UINT_MAX, ops))
    }

    /**
     * `CreateArrivingTransfer`: walk from `otherLocation` into the start of the backward journey
     * `buildOn`, leaving no earlier than `timeWhenDeparting`; null when too far or too early.
     */
    function CreateArrivingTransfer<M>(reader: Distances, buildOn: Journey<M>, timeWhenDeparting: Time,
                                       otherLocation: StopId, ops: MetricOps<M>): (r: Option<Journey<M>>)
      requires speed >= 0.0 && reader(buildOn.Location(), otherLocation) >= 0.0
      ensures var distance := reader(buildOn.Location(), otherLocation);
        r.None? <==> distance > maxDistance as real || buildOn.Time() as real - WalkingTime(distance) < timeWhenDeparting as real
      ensures r.Some? ==>
        r.value.Chain? && r.value.link == Walk && r.value.trip == UINT_MAX
        && r.value.previous == buildOn && r.value.Location() == otherLocation
        && timeWhenDeparting <= r.value.Time() <= buildOn.Time()
      ensures r.Some? ==>
        r.value.Time() as real <= buildOn.Time() as real - WalkingTime(reader(buildOn.Location(), otherLocation))
        < r.value.Time() as real + 1.0
    {
      var distance := reader(buildOn.Location(), otherLocation);
      if distance > maxDistance as real then None
      else
        var arrivalTime := buildOn.Time() as real - WalkingTime(distance);
        if arrivalTime < timeWhenDeparting as real then None
        else
          assert timeWhenDeparting <= arrivalTime.Floor <= buildOn.Time();
          Some(ChainSpecial(buildOn, Walk, arrivalTime.Floor, otherLocation, UINT_MAX, ops))
    }

    /** `Range`: the maximum walking distance. */
    function Range(): (r: real)
      ensures r == maxDistance as real
    {
      maxDistance as real
    }
  }

  /** A stop no farther away is never refused where a farther one is reached, and is reached no later. */
  lemma CloserIsNoWorse<M>(g: CrowsFlightTransferGenerator, near: Distances, far: Distances, buildOn: Journey<M>,
                           timeWhenLeaving: Time, otherLocation: StopId, ops: MetricOps<M>)
    requires g.speed >= 0.0
    requires 0.0 <= near(buildOn.Location(), otherLocation) <= far(buildOn.Location(), otherLocation)
    requires g.CreateDepartureTransfer(far, buildOn, timeWhenLeaving, otherLocation, ops).Some?
    ensures g.CreateDepartureTransfer(near, buildOn, timeWhenLeaving, otherLocation, ops).Some?
    ensures g.CreateDepartureTransfer(near, buildOn, timeWhenLeaving, otherLocation, ops).value.Time()
         <= g.CreateDepartureTransfer(far, buildOn, timeWhenLeaving, otherLocation, ops).value.Time()
  {
    var dn := near(buildOn.Location(), otherLocation);
    var df := far(buildOn.Location(), otherLocation);
    WalkingTimeMonotone(g, dn, df);
  }

  /** 140 metres at 1.4 metres per second: 196 seconds as written, 100 seconds by the unit. */
  lemma WalkingTimeIsNotSeconds()
    ensures var g := CrowsFlightTransferGenerator(DEFAULT_MAX_DISTANCE, 1.4);
      g.WalkingTime(140.0) == 196.0 && g.SecondsToWalk(140.0) == 100.0
  {
  }
  /** At any speed above one metre per second the written walking time overstates the real one. */
  lemma WalkingTimeOverstates(g: CrowsFlightTransferGenerator, distance: real)
    requires g.speed > 1.0 && distance > 0.0
    ensures g.WalkingTime(distance) > g.SecondsToWalk(distance)
  {
    var w := g.SecondsToWalk(distance);
    assert w * g.speed == distance;
    assert w > 0.0;
    assert w * g.speed - w == w * (g.speed - 1.0);
    assert w * (g.speed - 1.0) > 0.0;
    assert w * g.speed * g.speed - w * g.speed == w * g.speed * (g.speed - 1.0);
    assert w * g.speed * (g.speed - 1.0) > 0.0;
    assert g.WalkingTime(distance) == w * g.speed * g.speed;
  }

  lemma WalkingTimeMonotone(g: CrowsFlightTransferGenerator, a: real, b: real)
    requires 0.0 <= a <= b && g.speed >= 0.0
    ensures g.WalkingTime(a) <= g.WalkingTime(b)
  {
    assert (b - a) * g.speed >= 0.0;
    assert (b - a) * g.speed == b * g.speed - a * g.speed;
  }

  /**
   * Walking there and walking back: when a forward walk of `d` metres reaches the other stop,
   * a backward walk from there covering the same distance is allowed down to the original time.
   */
  lemma WalkBackReachesStart<M>(g: CrowsFlightTransferGenerator, reader: Distances, buildOn: Journey<M>,
                                timeWhenLeaving: Time, otherLocation: StopId, ops: MetricOps<M>)
    requires g.speed >= 0.0 && reader(buildOn.Location(), otherLocation) >= 0.0
    requires reader(otherLocation, buildOn.Location()) == reader(buildOn.Location(), otherLocation)
    requires g.CreateDepartureTransfer(reader, buildOn, timeWhenLeaving, otherLocation, ops).Some?
    ensures var there := g.CreateDepartureTransfer(reader, buildOn, timeWhenLeaving, otherLocation, ops).value;
      there.Time() as real - reader(otherLocation, buildOn.Location()) * g.speed <= buildOn.Time() as real
  {
  }
}
