/**
 * An abstract model of the persistent, backward-linked journey the scans build.
 * Each node records where and when it is, what it was reached by, the trip active
 * there and the metric accumulated so far. Extending a journey makes a new node;
 * nothing is ever changed in place.
 */
module Journeys {
  import opened Wrappers
  import opened Transit

  /** The metric a journey accumulates: its zero and how one leg is added. */
  datatype MetricOps<!M> = MetricOps(zero: M, add: (M, Leg) -> M)

  datatype Journey<M> =
    | Genesis(location: StopId, time: Time, metric: M)
    | Chain(previous: Journey<M>, location: StopId, time: Time, link: Marker, trip: TripId, metric: M)
    /** Two equally good journeys with the same time window, merged into one record. */
    | Joined(main: Journey<M>, alternative: Journey<M>)
  {
    function Location(): StopId {
      match this
      case Genesis(l, _, _) => l
      case Chain(_, l, _, _, _, _) => l
      case Joined(m, _) => m.Location()
    }

    function Time(): Time {
      match this
      case Genesis(_, t, _) => t
      case Chain(_, _, t, _, _, _) => t
      case Joined(m, _) => m.Time()
    }

    function Metric(): M {
      match this
      case Genesis(_, _, m) => m
      case Chain(_, _, _, _, _, m) => m
      case Joined(m, _) => m.Metric()
    }

    /** The first node of the journey. */
    function Root(): (r: Journey<M>)
      ensures r.Genesis?
    {
      match this
      case Genesis(_, _, _) => this
      case Chain(p, _, _, _, _, _) => p.Root()
      case Joined(m, _) => m.Root()
    }

    /** The node itself, or the main journey of a merged node. */
    function Base(): (r: Journey<M>)
      ensures !r.Joined? && r.Depth() == Depth()
      ensures r.Location() == Location() && r.Time() == Time() && r.Root() == Root()
    {
      if Joined? then main.Base() else this
    }

    /** The number of links back to the root. */
    function Depth(): nat {
      match this
      case Genesis(_, _, _) => 0
      case Chain(p, _, _, _, _, _) => p.Depth() + 1
      case Joined(m, _) => m.Depth()
    }

    /** The predecessor node, or null at the root. */
    function PreviousLink(): (r: Option<Journey<M>>)
      ensures r.Some? <==> Depth() > 0
      ensures r.Some? ==> r.value.Depth() == Depth() - 1
    {
      match this
      case Genesis(_, _, _) => None
      case Chain(p, _, _, _, _, _) => Some(p)
      case Joined(m, _) => m.PreviousLink()
    }

    /**
     * The trip of the last node reached by a scheduled connection,
     * looking back over walks, transfers and other modes; null if there is none.
     */
    function LastTripId(): Option<TripId> {
      match this
      case Genesis(_, _, _) => None
      case Chain(p, _, _, link, trip, _) => if link.Scheduled? then Some(trip) else p.LastTripId()
      case Joined(m, _) => m.LastTripId()
    }
  }

  /** A C# `Journey<T>` reference: null, the `InfiniteJourney` sentinel, or a real journey. */
  datatype JourneyRef<M> = Null | InfiniteJourney | Ref(journey: Journey<M>)
  {
    /** The time of a non-null reference; `InfiniteJourney` is never reached. */
    function Time(): Time
      requires !Null?
    {
      if InfiniteJourney? then TIME_MAX else journey.Time()
    }
  }

  function ToRef<M>(j: Option<Journey<M>>): (r: JourneyRef<M>)
    ensures r.Null? <==> j.None?
    ensures j.Some? ==> r == Ref(j.value)
  {
    if j.Some? then Ref(j.value) else Null
  }

  /** Stay aboard: a node at the connection's arrival stop and time, reached by it. */
  function ChainForward<M>(j: Journey<M>, c: Connection, ops: MetricOps<M>): (r: Journey<M>)
    ensures r.Location() == c.arrivalStop && r.Time() == c.arrivalTime
    ensures r.PreviousLink() == Some(j) && r.Root() == j.Root()
    ensures r.LastTripId() == Some(c.tripId)
  {
    var leg := Leg(Scheduled(c.id), c.departureTime, c.arrivalTime);
    Chain(j, c.arrivalStop, c.arrivalTime, Scheduled(c.id), c.tripId, ops.add(j.Metric(), leg))
  }

  /** A special node (walk, transfer, other mode) at `location`, reached at `time`. */
  function ChainSpecial<M>(j: Journey<M>, link: Marker, time: Time, location: StopId, trip: TripId,
                           ops: MetricOps<M>): (r: Journey<M>)
    requires link.IsSpecial()
    ensures r.Location() == location && r.Time() == time
    ensures r.PreviousLink() == Some(j) && r.Root() == j.Root()
    ensures r.LastTripId() == j.LastTripId()
  {
    Chain(j, location, time, link, trip, ops.add(j.Metric(), Leg(link, j.Time(), time)))
  }

  /**
   * Journey identity: every node's stop, time, link and trip match, walking back to the roots.
   * A merged node is compared through its main journey; metrics are not compared.
   */
  predicate Identical<M>(a: Journey<M>, b: Journey<M>)
    decreases a.Depth()
  {
    match (a.Base(), b.Base())
    case (Genesis(l1, t1, _), Genesis(l2, t2, _)) => l1 == l2 && t1 == t2
    case (Chain(p1, l1, t1, k1, r1, _), Chain(p2, l2, t2, k2, r2, _)) =>
      l1 == l2 && t1 == t2 && k1 == k2 && r1 == r2 && Identical(p1, p2)
    case _ => false
  }

  lemma {:induction false} IdenticalReflexive<M>(a: Journey<M>)
    ensures Identical(a, a)
    decreases a.Depth()
  {
    match a.Base()
    case Genesis(_, _, _) =>
    case Chain(p, _, _, _, _, _) => IdenticalReflexive(p);
  }
}
