/** Identifiers, times and connections shared by the scans and the transfer providers. */
module Transit {

  /** `ulong.MaxValue`: the largest `Time`, also used as "not reachable". */
  const TIME_MAX: int := 0xFFFF_FFFF_FFFF_FFFF
  /** `uint.MaxValue`: the "unreachable" answer of a transfer provider. */
  const UINT_MAX: int := 0xFFFF_FFFF
  const TWO_32: int := 0x1_0000_0000
  const TWO_64: int := 0x1_0000_0000_0000_0000

  /** Seconds since the unix epoch, held in a C# `ulong`. */
  type Time = t: int | 0 <= t <= TIME_MAX
  /** A C# `uint`. */
  type UInt32 = x: int | 0 <= x <= UINT_MAX

  /** `(localTileId, localId)`: a stop identifier with structural equality. */
  datatype StopId = StopId(tileId: UInt32, localId: UInt32)

  type TripId = UInt32

  /** The trip id written on walking nodes (`TripId.Walk`, `UInt32.MaxValue`). */
  const WALK_TRIP: TripId := UINT_MAX

  /** What a journey node was reached by: a scheduled connection or one of the special markers. */
  datatype Marker = Scheduled(connectionId: UInt32) | Walk | Transfer | OtherMode
  {
    /** `SpecialConnection` of a journey node. */
    predicate IsSpecial() { !Scheduled? }
  }

  /** One scheduled vehicle movement between two stops. */
  datatype Connection = Connection(
    id: UInt32,
    departureStop: StopId,
    arrivalStop: StopId,
    departureTime: Time,
    arrivalTime: Time,
    tripId: TripId)

  /** The view of one journey leg that a metric accumulates. */
  datatype Leg = Leg(link: Marker, departureTime: Time, arrivalTime: Time)

  /** A stop as a transfer provider sees it: its id and its coordinate. */
  datatype Coordinate = Coordinate(latitude: real, longitude: real)
  datatype Stop = Stop(id: StopId, location: Coordinate)

  /** Unchecked `ulong` addition and subtraction. */
  function AddU64(a: Time, b: int): (r: Time)
    ensures 0 <= a + b <= TIME_MAX ==> r == a + b
  {
    (a + b) % TWO_64
  }

  function SubU64(a: Time, b: int): (r: Time)
    ensures 0 <= a - b <= TIME_MAX ==> r == a - b
  {
    (a - b) % TWO_64
  }

  /** Unchecked `uint` arithmetic: the mathematical value reduced modulo 2^32. */
  function WrapU32(x: int): (r: UInt32)
    ensures 0 <= x <= UINT_MAX ==> r == x
  {
    x % TWO_32
  }

  /** Unchecked conversion to a C# `int`: the value modulo 2^32, read as two's complement. */
  function WrapI32(x: int): (r: int)
    ensures -0x8000_0000 <= r < 0x8000_0000
    ensures -0x8000_0000 <= x < 0x8000_0000 ==> r == x
  {
    var u := x % TWO_32;
    if u < 0x8000_0000 then u else u - TWO_32
  }

  /** Connections as the timetable enumerates them: by non-decreasing departure time. */
  ghost predicate SortedByDeparture(cs: seq<Connection>) {
    forall i, j :: 0 <= i <= j < |cs| ==> cs[i].departureTime <= cs[j].departureTime
  }
}
