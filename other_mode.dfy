/**
 * The contract every transfer provider (walks, in-station transfers, other modes) offers:
 * a travel time to one stop, travel times to many stops, and the range it covers.
 */
module OtherMode {
  import opened Transit

  /**
   * A `Dictionary<StopId, uint>` that is only ever added to, as the list of its entries
   * in enumeration (insertion) order.
   */
  type TimesTable = seq<(StopId, UInt32)>

  ghost predicate DistinctKeys(t: TimesTable) {
    forall i, j :: 0 <= i < j < |t| ==> t[i].0 != t[j].0
  }

  /**
   * A transfer provider, `IOtherModeGenerator`: `timeBetween` is `uint.MaxValue` when the stop
   * cannot be reached, `timesBetween` leaves such stops out, `range` is in metres.
   */
  datatype OtherModeGenerator = OtherModeGenerator(
    timeBetween: (Coordinate, Stop) -> UInt32,
    timesBetween: (Coordinate, seq<Stop>) -> TimesTable,
    range: real)
}
