/** The timetable as the scans read it: connections in departure order, behind a cursor. */
module Connections {
  import opened Transit

  /**
   * `ConnectionsDb.DepartureEnumerator`. Once the cursor has passed the last connection,
   * it reports a departure time later than every `Time`, so no loop over departure times
   * can integrate a connection that does not exist.
   */
  class DepartureEnumerator {
    const connections: seq<Connection>
    var index: nat

    ghost predicate Valid()
      reads this
    {
      index <= |connections| && SortedByDeparture(connections)
    }

    constructor (connections: seq<Connection>)
      requires SortedByDeparture(connections)
      ensures Valid() && this.connections == connections && index == 0
    {
      this.connections := connections;
      index := 0;
    }

    predicate Exhausted()
      reads this
    {
      index >= |connections|
    }

    /** The current connection's departure time, or `TIME_MAX + 1` once exhausted. */
    function DepartureTime(): (t: int)
      reads this
      ensures Exhausted() <==> t == TIME_MAX + 1
      ensures !Exhausted() ==> t == connections[index].departureTime
    {
      if index < |connections| then connections[index].departureTime else TIME_MAX + 1
    }

    function Current(): (c: Connection)
      reads this
      requires !Exhausted()
      ensures c == connections[index]
    {
      connections[index]
    }

    /** Position the cursor on the first connection departing at or after `t`. */
    method MoveToNext(t: Time)
      requires Valid()
      modifies this
      ensures Valid()
      ensures forall k :: 0 <= k < index ==> connections[k].departureTime < t
      ensures !Exhausted() ==> connections[index].departureTime >= t
    {
      index := 0;
      while index < |connections| && connections[index].departureTime < t
        invariant index <= |connections|
        invariant forall k :: 0 <= k < index ==> connections[k].departureTime < t
      {
        index := index + 1;
      }
    }

    /** Advance by one; false once the cursor has passed the last connection. */
    method MoveNext() returns (ok: bool)
      requires Valid() && !Exhausted()
      modifies this
      ensures Valid() && index == old(index) + 1
      ensures ok <==> !Exhausted()
    {
      index := index + 1;
      ok := index < |connections|;
    }
  }
}
