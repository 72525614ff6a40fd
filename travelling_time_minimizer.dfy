/**
 * The "pragmatic" metric: minimise walking time, then time on board, then maximise the
 * shortest transfer; an optional station-importance comparator breaks remaining ties.
 */
module Metric {
  import opened Wrappers
  import opened Transit
  import opened Journeys
  import MaximizeStations

  /** Every field is read-only: adding a leg builds a new value. */
  datatype TravellingTimeMinimizer = TravellingTimeMinimizer(
    totalTimeWalking: UInt32,
    totalTimeInVehicle: UInt32,
    smallestTransfer: UInt32)
  {
    /** `Zero()` hands out the factory object, built by the private constructor. */
    static function Zero(): (r: TravellingTimeMinimizer)
      ensures r.totalTimeWalking == 0 && r.totalTimeInVehicle == 0
      ensures r.smallestTransfer == UINT_MAX
    {
      TravellingTimeMinimizer(0, 0, UINT_MAX)
    }

    /** Accumulate one leg: walks add to walking, transfers lower the shortest transfer, rides add to time on board. */
    function Add(leg: Leg): (r: TravellingTimeMinimizer)
      ensures r.smallestTransfer <= smallestTransfer
      ensures leg.link.Walk? ==>
        r.totalTimeWalking == WrapU32(totalTimeWalking + LegTime(leg))
        && r.totalTimeInVehicle == totalTimeInVehicle && r.smallestTransfer == smallestTransfer
      ensures leg.link.Transfer? ==>
        r.totalTimeWalking == totalTimeWalking && r.totalTimeInVehicle == totalTimeInVehicle
        && r.smallestTransfer == Min(smallestTransfer, LegTime(leg))
      ensures leg.link.Scheduled? ==>
        r.totalTimeInVehicle == WrapU32(totalTimeInVehicle + LegTime(leg))
        && r.totalTimeWalking == totalTimeWalking && r.smallestTransfer == smallestTransfer
      ensures leg.link.OtherMode? ==> r == this
    {
      var journeyTime := LegTime(leg);
      if leg.link.IsSpecial() && leg.link.Walk? then
        TravellingTimeMinimizer(WrapU32(totalTimeWalking + journeyTime), totalTimeInVehicle, smallestTransfer)
      else if leg.link.IsSpecial() && leg.link.Transfer? then
        TravellingTimeMinimizer(totalTimeWalking, totalTimeInVehicle, Min(smallestTransfer, journeyTime))
      else if !leg.link.IsSpecial() then
        TravellingTimeMinimizer(totalTimeWalking, WrapU32(totalTimeInVehicle + journeyTime), smallestTransfer)
      else
        this
    }
  }

  /** `(uint)(ArrivalTime() - DepartureTime())`: the `ulong` difference truncated to 32 bits. */
  function LegTime(leg: Leg): (r: UInt32)
    ensures leg.departureTime <= leg.arrivalTime <= leg.departureTime + UINT_MAX ==>
      r == leg.arrivalTime - leg.departureTime
  {
    WrapU32(SubU64(leg.arrivalTime, leg.departureTime))
  }

  /**
   * A link whose arrival is read before its departure, as a link built backwards in time is when
   * its endpoints are taken in build order, wraps: the `ulong` difference is negative and its
   * 32-bit truncation is `2^32` minus the gap.
   */
  lemma BackwardLegWraps(leg: Leg)
    requires leg.arrivalTime < leg.departureTime < leg.arrivalTime + TWO_32
    ensures LegTime(leg) == TWO_32 - (leg.departureTime - leg.arrivalTime)
    ensures leg.link.Walk? ==>
      TravellingTimeMinimizer.Zero().Add(leg).totalTimeWalking == TWO_32 - (leg.departureTime - leg.arrivalTime)
  {
    var d := leg.departureTime - leg.arrivalTime;
    assert SubU64(leg.arrivalTime, leg.departureTime) == TWO_64 - d;
    assert TWO_64 - d == (TWO_32 - 1) * TWO_32 + (TWO_32 - d);
  }

  function Min(a: int, b: int): int { if a <= b then a else b }

  /** The metric as the journey model consumes it. */
  function Ops(): MetricOps<TravellingTimeMinimizer> {
    MetricOps(TravellingTimeMinimizer.Zero(), (m: TravellingTimeMinimizer, leg: Leg) => m.Add(leg))
  }

  /** The metric after a sequence of legs, in order. */
  function AddAll(m: TravellingTimeMinimizer, legs: seq<Leg>): TravellingTimeMinimizer
    decreases |legs|
  {
    if legs == [] then m else AddAll(m.Add(legs[0]), legs[1..])
  }

  /** Reference totals over a leg sequence, exact (without 32-bit wrap-around). */
  function WalkSum(legs: seq<Leg>): nat {
    if legs == [] then 0 else (if legs[0].link.Walk? then LegTime(legs[0]) else 0) + WalkSum(legs[1..])
  }

  function RideSum(legs: seq<Leg>): nat {
    if legs == [] then 0 else (if legs[0].link.Scheduled? then LegTime(legs[0]) else 0) + RideSum(legs[1..])
  }

  /** The shortest transfer among the legs, or `start` if that is shorter or there is none. */
  function ShortestTransfer(start: UInt32, legs: seq<Leg>): UInt32 {
    if legs == [] then start
    else ShortestTransfer(if legs[0].link.Transfer? then Min(start, LegTime(legs[0])) else start, legs[1..])
  }

  lemma WrapU32Assoc(a: int, b: int)
    ensures WrapU32(WrapU32(a) + b) == WrapU32(a + b)
  {
  }

  /**
   * Accumulating a journey's legs gives the total walking time and the total time on board,
   * each modulo 2^32, and the shortest transfer it contains.
   */
  lemma {:induction false} AddAllTotals(m: TravellingTimeMinimizer, legs: seq<Leg>)
    ensures AddAll(m, legs).totalTimeWalking == WrapU32(m.totalTimeWalking + WalkSum(legs))
    ensures AddAll(m, legs).totalTimeInVehicle == WrapU32(m.totalTimeInVehicle + RideSum(legs))
    ensures AddAll(m, legs).smallestTransfer == ShortestTransfer(m.smallestTransfer, legs)
    decreases |legs|
  {
    if legs != [] {
      var m' := m.Add(legs[0]);
      AddAllTotals(m', legs[1..]);
      WrapU32Assoc(m.totalTimeWalking + (if legs[0].link.Walk? then LegTime(legs[0]) else 0), WalkSum(legs[1..]));
      WrapU32Assoc(m.totalTimeInVehicle + (if legs[0].link.Scheduled? then LegTime(legs[0]) else 0), RideSum(legs[1..]));
    }
  }

  /** The shortest transfer never grows as legs are added. */
  lemma {:induction false} SmallestTransferNeverIncreases(m: TravellingTimeMinimizer, legs: seq<Leg>)
    ensures AddAll(m, legs).smallestTransfer <= m.smallestTransfer
    decreases |legs|
  {
    if legs != [] {
      SmallestTransferNeverIncreases(m.Add(legs[0]), legs[1..]);
    }
  }

  /** `UInt32.CompareTo`. */
  function CompareTo(a: int, b: int): (r: int)
    ensures r == -1 <==> a < b
    ensures r == 1 <==> a > b
    ensures r == 0 <==> a == b
  {
    if a < b then -1 else if a > b then 1 else 0
  }

  /** The comparator; `stations` is the optional `MaximizeStations` tie-breaker. */
  datatype Minimizer = Minimizer(stations: Option<MaximizeStations.Importances>)

  /** The parameterless `Minimizer()` (and the static `Minimize`) has no tie-breaker. */
  const Minimize: Minimizer := Minimizer(None)

  /** -1: `ja` is better, 1: `jb` is better, 0: a tie. */
  function ADominatesB(c: Minimizer, ja: Journey<TravellingTimeMinimizer>, jb: Journey<TravellingTimeMinimizer>): int {
    var a := ja.Metric();
    var b := jb.Metric();
    if a.totalTimeWalking != b.totalTimeWalking then CompareTo(a.totalTimeWalking, b.totalTimeWalking)
    else if a.totalTimeInVehicle != b.totalTimeInVehicle then CompareTo(a.totalTimeInVehicle, b.totalTimeInVehicle)
    else if a.smallestTransfer != b.smallestTransfer then CompareTo(b.smallestTransfer, a.smallestTransfer)
    else if c.stations.Some? then MaximizeStations.Compare(c.stations.value, ja, jb)
    else 0
  }

  /** The reference order: less walking, then less time on board, then a longer shortest transfer. */
  predicate LexBetter(a: TravellingTimeMinimizer, b: TravellingTimeMinimizer) {
    || a.totalTimeWalking < b.totalTimeWalking
    || (a.totalTimeWalking == b.totalTimeWalking && a.totalTimeInVehicle < b.totalTimeInVehicle)
    || (a.totalTimeWalking == b.totalTimeWalking && a.totalTimeInVehicle == b.totalTimeInVehicle
        && a.smallestTransfer > b.smallestTransfer)
  }

  /** Without a tie-breaker the duel is exactly the lexicographic order, three-valued. */
  lemma ADominatesBIsLexicographic(ja: Journey<TravellingTimeMinimizer>, jb: Journey<TravellingTimeMinimizer>)
    ensures ADominatesB(Minimize, ja, jb) in {-1, 0, 1}
    ensures ADominatesB(Minimize, ja, jb) == -1 <==> LexBetter(ja.Metric(), jb.Metric())
    ensures ADominatesB(Minimize, ja, jb) == 1 <==> LexBetter(jb.Metric(), ja.Metric())
    ensures ADominatesB(Minimize, ja, jb) == 0 <==> ja.Metric() == jb.Metric()
  {
  }

  /** A journey ties with itself, with or without the station tie-breaker. */
  lemma ADominatesBSelf(c: Minimizer, ja: Journey<TravellingTimeMinimizer>)
    ensures ADominatesB(c, ja, ja) == 0
  {
    if c.stations.Some? {
      MaximizeStations.CompareSelf(c.stations.value, ja);
    }
  }

  /** Swapping the journeys negates the duel (for the tie-breaker: unless it wrapped to `int.MinValue`). */
  lemma ADominatesBAntisymmetric(c: Minimizer, ja: Journey<TravellingTimeMinimizer>, jb: Journey<TravellingTimeMinimizer>)
    requires ADominatesB(c, ja, jb) != -0x8000_0000
    ensures ADominatesB(c, jb, ja) == -ADominatesB(c, ja, jb)
  {
    var a := ja.Metric();
    var b := jb.Metric();
    if a.totalTimeWalking == b.totalTimeWalking && a.totalTimeInVehicle == b.totalTimeInVehicle
       && a.smallestTransfer == b.smallestTransfer && c.stations.Some? {
      MaximizeStations.CompareAntisymmetric(c.stations.value, ja, jb);
    }
  }

  /** The default comparator is transitive on "better". */
  lemma ADominatesBTransitive(ja: Journey<TravellingTimeMinimizer>, jb: Journey<TravellingTimeMinimizer>,
                              jc: Journey<TravellingTimeMinimizer>)
    requires ADominatesB(Minimize, ja, jb) == -1 && ADominatesB(Minimize, jb, jc) == -1
    ensures ADominatesB(Minimize, ja, jc) == -1
  {
    ADominatesBIsLexicographic(ja, jb);
    ADominatesBIsLexicographic(jb, jc);
    ADominatesBIsLexicographic(ja, jc);
  }
}
