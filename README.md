# Itinero-Transit routing core in Dafny

This project models the core of Itinero-Transit, a public-transport route planner, and proves
properties of that model:

- **Earliest-arrival connection scan (EAS).** It walks the timetable forward in order of
  departure. For each stop it keeps the journey that arrives there earliest. For each trip it keeps
  the journey currently on board that trip. It stops once a target stop is reached, and it can then
  keep scanning up to a caller-supplied end time, after which it serves as a connection filter.
- **Profiled Pareto frontier.** This is the list of journeys the profiled scan keeps per stop. A
  new journey is compared with every guard already in the list. It may be rejected or merged with a
  guard that is just as good. It may also evict the guards it beats before it is appended.
- **Travelling-time minimizer.** This metric sums the walking time and the in-vehicle time, and
  keeps the shortest transfer. Its comparator orders journeys lexicographically on these three
  fields and breaks ties with `MaximizeStations`. That tie-breaker sums station importances along
  two journeys walked back in lockstep.
- **Other-mode generators.** These cover walking and transfers:
  - the internal transfer generator, which allows a fixed transfer time at the same stop only;
  - the crows-flight walk generator;
  - the memoizing `OtherModeCacher`;
  - the `WalkAwayFrom` / `WalkTowards` extensions that extend journeys with other-mode legs.
- **Linked-connections `Synchronizer`.** It sorts its update policies by frequency and runs its
  clock at their greatest common divisor. On each tick it runs the policies that are due.

Integer widths are explicit:
- Times are `ulong`; `AddU64`/`SubU64` wrap modulo 2^64.
- Metric sums are `uint`; `WrapU32` wraps modulo 2^32.
- Comparator sums are `int`; `WrapI32` is two's complement.

Distances and speeds are real numbers. Journeys are values (`Journey<M>`): a root, a chain link, or
a join of two equally good journeys. A nullable journey reference, with the `InfiniteJourney`
sentinel, is `JourneyRef<M>`. Mutable objects are classes:
- `EarliestConnectionScan`, with the two dictionaries `s` and `trips`;
- `ProfiledParetoFrontier`;
- `OtherModeCacher`, with its memo maps;
- `Synchronizer`;
- `DepartureEnumerator`, a cursor over the sorted timetable.

Each method is proved against a function of the old state, such as `Integrate`/`IntegrateAll`,
`Consider`/`Sweep` or `DueRuns`/`InitialRuns`, and lemmas state what those functions guarantee.

Things the code does are modelled as the code does them, even where the surrounding comments say
otherwise. Two cases:
- The crows-flight walking time is `distance * speed`, although `speed` is documented in metres per
  second.
- `ProfiledParetoFrontier.AddToFrontier` decrements its index twice after a removal.

Both are reported under "## Findings".

## Model

| member | source | states |
|---|---|---|
| Metric.TravellingTimeMinimizer.Zero | src/Itinero.Transit/Data/Metric/TravellingTimeMinimizer.cs:31-51 | The zero metric has no walking, no vehicle time and `uint.MaxValue` as its shortest transfer. |
| Metric.TravellingTimeMinimizer.Add | src/Itinero.Transit/Data/Metric/TravellingTimeMinimizer.cs:53-76 | A walk leg adds its duration to the walking time only. A scheduled leg adds its duration to the in-vehicle time only. Both sums wrap at 2^32. A transfer lowers the shortest transfer to its duration if that is shorter. An other-mode leg changes nothing. The shortest transfer never grows. |
| Metric.LegTime | src/Itinero.Transit/Data/Metric/TravellingTimeMinimizer.cs:59 | A leg's duration is arrival minus departure whenever that fits in a `uint`. |
| Metric.BackwardLegWraps | src/Itinero.Transit/Data/Metric/TravellingTimeMinimizer.cs:59 | A leg read with its arrival before its departure, by a gap under 2^32, lasts 2^32 minus the gap. Added to the zero metric as a walk, that is the walking time. |
| Metric.AddAllTotals | src/Itinero.Transit/Data/Metric/TravellingTimeMinimizer.cs:53-76 | After any sequence of legs, the walking time is the old one plus the sum of the walk legs, modulo 2^32. The in-vehicle time is likewise the old one plus the scheduled legs. The shortest transfer is the minimum over the transfer legs. |
| Metric.SmallestTransferNeverIncreases | src/Itinero.Transit/Data/Metric/TravellingTimeMinimizer.cs:70-72 | No sequence of legs lengthens the shortest transfer. |
| Metric.CompareTo | src/Itinero.Transit/Data/Metric/TravellingTimeMinimizer.cs:101-113 | `CompareTo` is -1, 0 or 1 exactly when the first operand is smaller, equal or larger. |
| Metric.ADominatesBIsLexicographic | src/Itinero.Transit/Data/Metric/TravellingTimeMinimizer.cs:94-117 | Without a tie-breaker the duel is three-valued. It is -1 exactly when the first journey is lexicographically better, 1 when the second is better, and 0 when the metrics are equal. The order is less walking, then less vehicle time, then a longer shortest transfer. |
| Metric.ADominatesBSelf | src/Itinero.Transit/Data/Metric/TravellingTimeMinimizer.cs:94-117 | A journey duels itself to 0, with or without the station tie-breaker. |
| Metric.ADominatesBAntisymmetric | src/Itinero.Transit/Data/Metric/TravellingTimeMinimizer.cs:94-117 | Swapping the journeys negates the duel, tie-breaker included, unless the duel is `int.MinValue`. |
| Metric.ADominatesBTransitive | src/Itinero.Transit/Data/Metric/TravellingTimeMinimizer.cs:94-117 | Without a tie-breaker, "dominates" is transitive. |
| MaximizeStations.Importance | src/Itinero.Transit/Data/Journeys/MaximizeStations.cs:32-35 | A stop's importance is its dictionary entry, or 0 when `TryGetValue` finds none. |
| MaximizeStations.LockstepLength | src/Itinero.Transit/Data/Journeys/MaximizeStations.cs:26-30 | The comparison visits one node pair per link of the shorter journey, plus the end nodes. |
| MaximizeStations.LockstepSwapped | src/Itinero.Transit/Data/Journeys/MaximizeStations.cs:26-30 | Walking `y, x` in lockstep visits the same pairs as `x, y`, each pair swapped. |
| MaximizeStations.GainOfSwap | src/Itinero.Transit/Data/Journeys/MaximizeStations.cs:38 | Swapping every pair negates the summed importance gain. |
| MaximizeStations.GainOfSelf | src/Itinero.Transit/Data/Journeys/MaximizeStations.cs:24-40 | A journey gains nothing over itself. |
| MaximizeStations.GainStep | src/Itinero.Transit/Data/Journeys/MaximizeStations.cs:26-38 | The gain over all lockstep pairs is the gain over the predecessors plus that of the last pair. |
| MaximizeStations.CompareIsWrappedGain | src/Itinero.Transit/Data/Journeys/MaximizeStations.cs:24-40 | `Compare` with its wrapping `(int)(yL - xL)` and `int` additions equals the exact sum of importance differences along the lockstep pairs, wrapped once to 32 bits. |
| MaximizeStations.CompareSelf | src/Itinero.Transit/Data/Journeys/MaximizeStations.cs:24-40 | Comparing a journey with itself yields 0. |
| MaximizeStations.CompareAntisymmetric | src/Itinero.Transit/Data/Journeys/MaximizeStations.cs:24-40 | `Compare(y, x) == -Compare(x, y)` unless `Compare(x, y)` is `int.MinValue`, whose negation wraps. |
| Journeys.Journey.PreviousLink | src/Itinero.Transit/Data/Journeys/MaximizeStations.cs:27 | A journey has a previous link exactly when it is not a root, and that link is one step shorter. |
| Journeys.IdenticalReflexive | src/Itinero.Transit/Algorithms/CSA/ParetoFrontier.cs:105 | The structural equality the frontier uses for `considered.Equals(guard)` is reflexive. |
| CrowsFlightTransferGenerator.CrowsFlightTransferGenerator.Default | src/Itinero.Transit/Data/Walks/CrowsFlightTransferGenerator.cs:30-34 | The default generator walks up to 500 m at the `float` value of 1.4. |
| CrowsFlightTransferGenerator.CrowsFlightTransferGenerator.WalkingTime | src/Itinero.Transit/Data/Walks/CrowsFlightTransferGenerator.cs:49 | The walking time as written is `distance * speed` and is never negative. |
| CrowsFlightTransferGenerator.CrowsFlightTransferGenerator.SecondsToWalk | src/Itinero.Transit/Data/Walks/CrowsFlightTransferGenerator.cs:29 | The time in seconds to cover `distance` metres at `speed` metres per second: it times the speed back to the distance. |
| CrowsFlightTransferGenerator.CrowsFlightTransferGenerator.CreateDepartureTransfer | src/Itinero.Transit/Data/Walks/CrowsFlightTransferGenerator.cs:39-59 | The result is null exactly when the distance exceeds the maximum or the walk would arrive after `timeWhenLeaving`. Otherwise it is a walk link on `buildOn` to the other stop with trip `uint.MaxValue`. It arrives at the truncated arrival time, between `buildOn`'s time and `timeWhenLeaving`. |
| CrowsFlightTransferGenerator.CrowsFlightTransferGenerator.CreateArrivingTransfer | src/Itinero.Transit/Data/Walks/CrowsFlightTransferGenerator.cs:62-82 | The backward counterpart. Null exactly when too far, or when the walk would have to start before `timeWhenDeparting`. Otherwise it is a walk link whose truncated time lies between `timeWhenDeparting` and `buildOn`'s time. |
| CrowsFlightTransferGenerator.CrowsFlightTransferGenerator.Range | src/Itinero.Transit/Data/Walks/CrowsFlightTransferGenerator.cs:84-87 | The range is the maximum distance. |
| CrowsFlightTransferGenerator.CloserIsNoWorse | src/Itinero.Transit/Data/Walks/CrowsFlightTransferGenerator.cs:43-58 | If a walk to a stop is possible, it is also possible when the stop is nearer, and it arrives no later. |
| CrowsFlightTransferGenerator.WalkingTimeMonotone | src/Itinero.Transit/Data/Walks/CrowsFlightTransferGenerator.cs:49 | A longer distance never takes less walking time. |
| CrowsFlightTransferGenerator.WalkBackReachesStart | src/Itinero.Transit/Data/Walks/CrowsFlightTransferGenerator.cs:39-82 | With a symmetric distance, walking back from the walk's arrival, computed as an arriving transfer would, gets back no later than `buildOn`'s time. |
| CrowsFlightTransferGenerator.WalkingTimeIsNotSeconds | src/Itinero.Transit/Data/Walks/CrowsFlightTransferGenerator.cs:29-49 | At 1.4 m/s, 140 m takes 196 s as written, against the 100 s the documented unit gives. |
| CrowsFlightTransferGenerator.WalkingTimeOverstates | src/Itinero.Transit/Data/Walks/CrowsFlightTransferGenerator.cs:29-49 | For any speed above 1 m/s and any positive distance, the walking time as written exceeds the time in seconds. |
| InternalTransferGenerator.InternalTransferGenerator.Default | src/Itinero.Transit/OtherMode/InternalTransferGenerator.cs:15-18 | The default transfer time is 180 s. |
| InternalTransferGenerator.InternalTransferGenerator.TimeBetween | src/Itinero.Transit/OtherMode/InternalTransferGenerator.cs:21-29 | A transfer takes the configured time between equal stop ids and is impossible (`uint.MaxValue`) otherwise. |
| InternalTransferGenerator.InternalTransferGenerator.TimesBetween | src/Itinero.Transit/OtherMode/InternalTransferGenerator.cs:31-37 | It succeeds exactly when the reachable stops have distinct ids. The table then holds only the `from` stop at the transfer time, and holds it whenever it is listed and reachable. With an infinite transfer time the table is empty. |
| InternalTransferGenerator.InternalTransferGenerator.TimesBetweenInto | src/Itinero.Transit/OtherMode/InternalTransferGenerator.cs:39-42 | The same for many origins and one destination. Every entry is the destination at the transfer time. |
| InternalTransferGenerator.InternalTransferGenerator.SameStopOnly | src/Itinero.Transit/OtherMode/InternalTransferGenerator.cs:21-42 | In either direction, the reachable table holds only the stop itself, at the transfer time, and holds it whenever it is listed. It is empty when transfers are impossible. |
| InternalTransferGenerator.InternalTransferGenerator.Range | src/Itinero.Transit/OtherMode/InternalTransferGenerator.cs:44-47 | The range is 0, and indeed only a stop reaches itself. |
| InternalTransferGenerator.InternalTransferGenerator.OtherModeIdentifier | src/Itinero.Transit/OtherMode/InternalTransferGenerator.cs:49-52 | The identifier is the fixed prefix followed by the decimal digits of the transfer time, and those digits denote that time. |
| InternalTransferGenerator.InternalTransferGenerator.GetSource | src/Itinero.Transit/OtherMode/InternalTransferGenerator.cs:54-57 | The source for any pair of stops behaves as the generator itself. |
| InternalTransferGenerator.IdentifierDeterminesTime | src/Itinero.Transit/OtherMode/InternalTransferGenerator.cs:49-52 | Two generators with the same identifier are the same generator. |
| InternalTransferGenerator.DecimalRoundTrip | src/Itinero.Transit/OtherMode/InternalTransferGenerator.cs:51 | The decimal rendering of a number consists of digits and reads back as that number. |
| OtherModeCacher.Ids | src/Itinero.Transit/OtherMode/OtherModeCacher.cs:71 | The id list holds the stops' ids, in order. |
| OtherModeCacher.OtherModeCacher.constructor | src/Itinero.Transit/OtherMode/OtherModeCacher.cs:11-18 | A new cacher wraps the fallback, with empty memos and no fallback call made. |
| OtherModeCacher.OtherModeCacher.TimeBetween | src/Itinero.Transit/OtherMode/OtherModeCacher.cs:20-31 | A memo hit returns the stored time, with no fallback call and no change. A miss asks the fallback once and stores the answer. Either way the key maps to the result afterwards, the result is the fallback's answer for a stop with that id, and no stored entry changes. |
| OtherModeCacher.OtherModeCacher.TimeBetweenIsStable | src/Itinero.Transit/OtherMode/OtherModeCacher.cs:20-31 | Asking twice for the same coordinate and stop id returns the same time. |
| OtherModeCacher.OtherModeCacher.TimesBetween | src/Itinero.Transit/OtherMode/OtherModeCacher.cs:39-81 | As written, each call returns the fallback's table and calls the fallback once. The memo grows by one entry, keyed by a freshly made id list. |
| OtherModeCacher.OtherModeCacher.TimesBetweenTwice | src/Itinero.Transit/OtherMode/OtherModeCacher.cs:70-80 | Two identical calls both reach the fallback and add two memo entries. The memo never answers. |
| OtherModeCacher.OtherModeCacher.TimesBetweenByIds | src/Itinero.Transit/OtherMode/OtherModeCacher.cs:39-81 | The memo keyed by the id list's contents. A hit returns the stored table without a fallback call. A miss asks once and stores the table. The result is the fallback's table for stops with those ids. |
| OtherModeCacher.OtherModeCacher.TimesBetweenByIdsTwice | src/Itinero.Transit/OtherMode/OtherModeCacher.cs:39-81 | With that key, two identical calls return the same table and ask the fallback at most once. |
| OtherModeCacher.OtherModeCacher.Range | src/Itinero.Transit/OtherMode/OtherModeCacher.cs:83-86 | The range is the fallback's range. |
| OtherModeExtensions.UseCache | src/Itinero.Transit/OtherMode/OtherModeExtensions.cs:10-13 | It yields a new, empty cacher over the generator. |
| OtherModeExtensions.ReachableMembers | src/Itinero.Transit/OtherMode/OtherModeExtensions.cs:131-148 | An entry is in the default table exactly when some listed stop has that id and a time other than `uint.MaxValue`. The table is no longer than the stop list. |
| OtherModeExtensions.ReachablePrefix | src/Itinero.Transit/OtherMode/OtherModeExtensions.cs:136-145 | The table for a prefix of the stops is a prefix of the whole table. |
| OtherModeExtensions.DefaultTimesBetween | src/Itinero.Transit/OtherMode/OtherModeExtensions.cs:131-148 | The loop succeeds exactly when the reachable stops have distinct ids, and then returns their table. A repeated id fails with the duplicate-key error `Dictionary.Add` throws. |
| OtherModeExtensions.Targets | src/Itinero.Transit/OtherMode/OtherModeExtensions.cs:63-66 | The table without the origin's own entry: exactly the other entries. |
| OtherModeExtensions.ExtendForward | src/Itinero.Transit/OtherMode/OtherModeExtensions.cs:58-72 | One other-mode link per target, in order. Each is on the journey, goes to the target's stop, and arrives the target's time later, modulo 2^64. |
| OtherModeExtensions.ExtendBackward | src/Itinero.Transit/OtherMode/OtherModeExtensions.cs:108-123 | The same for prefixing: each link departs the target's time earlier, modulo 2^64. |
| OtherModeExtensions.WalkAwayFrom | src/Itinero.Transit/OtherMode/OtherModeExtensions.cs:26-73 | It fails exactly when the journey's location is unknown. Otherwise it yields one journey per reported stop other than the journey's own. |
| OtherModeExtensions.WalkAwayFromYields | src/Itinero.Transit/OtherMode/OtherModeExtensions.cs:41-73 | Every yielded journey extends the given one to another stop and arrives that stop's reported time later. Every other stop the generator reports gets such a journey. |
| OtherModeExtensions.ExtendForwardSound | src/Itinero.Transit/OtherMode/OtherModeExtensions.cs:58-72 | The forward extensions only leave for other reported stops, at the reported times. |
| OtherModeExtensions.ExtendForwardComplete | src/Itinero.Transit/OtherMode/OtherModeExtensions.cs:58-72 | Every other reported stop gets a forward extension. |
| OtherModeExtensions.WalkTowards | src/Itinero.Transit/OtherMode/OtherModeExtensions.cs:90-125 | It fails exactly when the location is unknown. |
| OtherModeExtensions.WalkTowardsLayout | src/Itinero.Transit/OtherMode/OtherModeExtensions.cs:90-125 | With `n` journeys and `m` other reachable stops, the result has `n*m` journeys. Entry `i*m + k` prefixes journey `i` with a link from the `k`-th other stop, departing that stop's time earlier. |
| OtherModeExtensions.WalksIntoLayout | src/Itinero.Transit/OtherMode/OtherModeExtensions.cs:106-124 | The nested loop's output, journeys outer and targets inner, is laid out block by block. |
| OtherModeExtensions.WalkTowardsOne | src/Itinero.Transit/OtherMode/OtherModeExtensions.cs:75-81 | For a single journey it fails exactly when its location is unknown. Otherwise it is the backward extension to every other reachable stop. |
| OtherModeExtensions.FlattenLength | src/Itinero.Transit/OtherMode/OtherModeExtensions.cs:106-124 | `n` blocks of `m` journeys flatten to `n*m` journeys. |
| OtherModeExtensions.FlattenAt | src/Itinero.Transit/OtherMode/OtherModeExtensions.cs:106-124 | Element `k` of block `i` lands at offset `i*m + k`. |
| Connections.DepartureEnumerator.DepartureTime | src/Itinero.Transit/Algorithms/CSA/EarliestConnectionScan.cs:120 | The current departure time, or a time past every `ulong` once exhausted. |
| Connections.DepartureEnumerator.MoveToNext | src/Itinero.Transit/Algorithms/CSA/EarliestConnectionScan.cs:116-117 | The cursor skips exactly the connections departing before the given time. |
| Connections.DepartureEnumerator.MoveNext | src/Itinero.Transit/Algorithms/CSA/EarliestConnectionScan.cs:178 | The cursor advances by one and reports whether a connection remains. |
| EarliestConnectionScan.GetJourneyTo | src/Itinero.Transit/Algorithms/CSA/EarliestConnectionScan.cs:356-362 | The best journey to a reached stop, or `InfiniteJourney` exactly for an unreached one. |
| EarliestConnectionScan.Earliest | src/Itinero.Transit/Algorithms/CSA/EarliestConnectionScan.cs:299-319 | The pick is never the sentinel, and a picked journey arrives before `ulong.MaxValue`. |
| EarliestConnectionScan.EarliestIsFirstMinimum | src/Itinero.Transit/Algorithms/CSA/EarliestConnectionScan.cs:299-319 | The pick is null exactly when every candidate is null or arrives at `ulong.MaxValue`. Otherwise the pick is a candidate that arrives no later than any other, and it is the first with that time. |
| EarliestConnectionScan.EarliestConnectionScan.SelectEarliest | src/Itinero.Transit/Algorithms/CSA/EarliestConnectionScan.cs:299-319 | The loop computes the fold `Earliest`. |
| EarliestConnectionScan.IntegrateFromUnreachedStop | src/Itinero.Transit/Algorithms/CSA/EarliestConnectionScan.cs:202-206 | A connection from an unreached stop changes nothing. |
| EarliestConnectionScan.IntegrateMissedConnection | src/Itinero.Transit/Algorithms/CSA/EarliestConnectionScan.cs:208-216 | A connection that left before its stop is reached, on a trip not boarded, changes nothing. |
| EarliestConnectionScan.IntegrateTrips | src/Itinero.Transit/Algorithms/CSA/EarliestConnectionScan.cs:219-253 | A boarded trip is extended by the connection. An unboarded trip is boarded with the transfer or chained journey, if there is one. |
| EarliestConnectionScan.IntegrateArrival | src/Itinero.Transit/Algorithms/CSA/EarliestConnectionScan.cs:255-267 | Only the arrival stop's entry can change or appear. Its journey never gets later, and a changed one is strictly earlier. |
| EarliestConnectionScan.IntegrateNeverDelays | src/Itinero.Transit/Algorithms/CSA/EarliestConnectionScan.cs:196-268 | Integrating a connection keeps every reached stop and never delays its arrival. |
| EarliestConnectionScan.IntegrateAllNeverDelays | src/Itinero.Transit/Algorithms/CSA/EarliestConnectionScan.cs:119-161 | The same for any run of connections: reached stops stay reached, and arrival times only improve. |
| EarliestConnectionScan.IntegrateAllAppend | src/Itinero.Transit/Algorithms/CSA/EarliestConnectionScan.cs:171-185 | Scanning two runs one after the other equals scanning their concatenation. |
| EarliestConnectionScan.IntegrateAllSplit | src/Itinero.Transit/Algorithms/CSA/EarliestConnectionScan.cs:155-161 | Scanning two adjacent slices of the timetable equals scanning the slice they form. |
| EarliestConnectionScan.BestTime | src/Itinero.Transit/Algorithms/CSA/EarliestConnectionScan.cs:276-297 | The fold over the targets that `GetBestTime` computes is no later than the arrival at any reached target. It is `ulong.MaxValue` or the arrival time at some reached target. |
| EarliestConnectionScan.BestTimeMonotone | src/Itinero.Transit/Algorithms/CSA/EarliestConnectionScan.cs:119-131 | Once more stops are reached and none later, the best time at the targets is no later. |
| EarliestConnectionScan.FirstAtOrAfterUnique | src/Itinero.Transit/Algorithms/CSA/EarliestConnectionScan.cs:116-117 | Only one index is the first connection departing at or after a given time, so `earliestDeparture` determines where the scan starts. |
| EarliestConnectionScan.BatchesWithinBestExtend | src/Itinero.Transit/Algorithms/CSA/EarliestConnectionScan.cs:119-131 | Appending a batch that departs no later than the best target time reached so far keeps every batch after the first within the best time before it. |
| EarliestConnectionScan.ScanBoundStep | src/Itinero.Transit/Algorithms/CSA/EarliestConnectionScan.cs:130 | After one more batch, the loop bound is the smaller of the new best target time and the old bound, which is `Math.Min(GetBestTime().bestTime, lastDeparture)`. |
| EarliestConnectionScan.UnscannedDepartLater | src/Itinero.Transit/Algorithms/CSA/EarliestConnectionScan.cs:119-131 | On a sorted timetable, every connection the main loop did not reach departs after the bound it stopped at. |
| EarliestConnectionScan.FilterAgreesWithScan | src/Itinero.Transit/Algorithms/CSA/EarliestConnectionScan.cs:342-354 | On a trip not yet boarded, a connection the filter rejects is one the scan leaves unused. One it accepts, if boarding yields a journey, boards its trip, and with an arrival before `ulong.MaxValue` reaches its arrival stop. |
| EarliestConnectionScan.SeedStops | src/Itinero.Transit/Algorithms/CSA/EarliestConnectionScan.cs:89-94 | It succeeds exactly when the departure stops are distinct. Every departure stop then gets a root journey at the earliest departure with the zero metric. |
| EarliestConnectionScan.EarliestConnectionScan.Create | src/Itinero.Transit/Algorithms/CSA/EarliestConnectionScan.cs:77-95 | The constructor succeeds exactly when the departure stops are distinct. It then starts with one root journey per departure stop and no trips. |
| EarliestConnectionScan.EarliestConnectionScan.GetBestTime | src/Itinero.Transit/Algorithms/CSA/EarliestConnectionScan.cs:276-297 | No location exactly when no target is reached before `ulong.MaxValue`. Otherwise it returns the first target, in list order, with the least arrival time, and that time. The time is the fold `BestTime`. |
| EarliestConnectionScan.EarliestConnectionScan.IntegrateConnection | src/Itinero.Transit/Algorithms/CSA/EarliestConnectionScan.cs:196-268 | The two dictionaries become `Integrate` of their old contents. |
| EarliestConnectionScan.EarliestConnectionScan.IntegrateBatch | src/Itinero.Transit/Algorithms/CSA/EarliestConnectionScan.cs:171-185 | It integrates exactly the connections sharing the current departure time, in order, and reports whether a later connection remains. |
| EarliestConnectionScan.EarliestConnectionScan.ScanUntilTarget | src/Itinero.Transit/Algorithms/CSA/EarliestConnectionScan.cs:119-131 | The state is the old state with the scanned slice integrated. The slice departs no later than `lastDeparture`. Each batch after the first departs no later than the best target time reached before it. The loop stops at the end of the timetable, or at the first connection departing after the bound in force: `lastDeparture` if no batch ran, otherwise the smaller of `lastDeparture` and the best target time of the new state. |
| EarliestConnectionScan.EarliestConnectionScan.ScanFilterWindow | src/Itinero.Transit/Algorithms/CSA/EarliestConnectionScan.cs:154-161 | The state is the old state with the scanned slice integrated. Everything in the slice departs before `filterEndTime`. The loop stops at the end of the timetable or at the first connection departing at or after `filterEndTime`. |
| EarliestConnectionScan.EarliestConnectionScan.CalculateJourney | src/Itinero.Transit/Algorithms/CSA/EarliestConnectionScan.cs:114-164 | The scan starts at the first connection departing at or after `earliestDeparture`. The main loop stops as `ScanUntilTarget` states. The result is null exactly when no target is reached by then. Otherwise it is the journey to a target with the best time at that point. Without a timeout nothing more is scanned. With one, the filter end time is set from the result's departure and arrival, and the filter loop stops as `ScanFilterWindow` states. The new state is the old one with exactly the two scanned slices integrated. |
| EarliestConnectionScan.EarliestConnectionScan.CheckWindow | src/Itinero.Transit/Algorithms/CSA/EarliestConnectionScan.cs:321-340 | It passes exactly when the window lies inside the scanned one and the scan has run. Otherwise it fails with the message of the first condition that does not hold. |
| EarliestConnectionScan.EarliestConnectionScan.CanBeTaken | src/Itinero.Transit/Algorithms/CSA/EarliestConnectionScan.cs:342-354 | True exactly when the departure stop is reached no later than the connection leaves. |
| ParetoFrontier.DecideCases | src/Itinero.Transit/Algorithms/CSA/ParetoFrontier.cs:86-184 | The loop body against one guard can end in five ways. A guard is removed exactly when the candidate ties its window and wins, or lies strictly inside it with a duel of 0 or 1. The loop throws exactly on a strict-inside duel outside {-1, 0, 1, `int.MaxValue`}. The candidate is merged exactly on an equal duel in the same window with a non-identical journey. It is rejected exactly when the guard's window is inside and the guard wins, or ties without a merge. Unrelated windows keep the guard. |
| ParetoFrontier.SweepShape | src/Itinero.Transit/Algorithms/CSA/ParetoFrontier.cs:78-190 | Only guards, the candidate, or a guard merged with the candidate end up in the frontier. An appended candidate is last, with the frontier grown by at most one. Otherwise the frontier does not grow. |
| ParetoFrontier.MergeKeepsOrigins | src/Itinero.Transit/Algorithms/CSA/ParetoFrontier.cs:112 | A merge introduces only the joined journey. |
| ParetoFrontier.RemoveKeepsOrigins | src/Itinero.Transit/Algorithms/CSA/ParetoFrontier.cs:125-173 | A removal introduces nothing new. |
| ParetoFrontier.SweepRemoveStep | src/Itinero.Transit/Algorithms/CSA/ParetoFrontier.cs:128-173 | After a removal the loop resumes two guards lower, as written. |
| ParetoFrontier.SweepKeepStep | src/Itinero.Transit/Algorithms/CSA/ParetoFrontier.cs:134-183 | A kept guard moves the loop one guard lower. |
| ParetoFrontier.SweepNeverThrows | src/Itinero.Transit/Algorithms/CSA/ParetoFrontier.cs:175-177 | A comparator that only answers -1, 0, 1 or `int.MaxValue` never makes the loop throw. |
| ParetoFrontier.MinimizeComparator | src/Itinero.Transit/Data/Metric/TravellingTimeMinimizer.cs:94-117 | The frontier comparator is the minimizer's duel. |
| ParetoFrontier.MinimizerNeverThrows | src/Itinero.Transit/Algorithms/CSA/ParetoFrontier.cs:175-177 | With the travelling-time minimizer, adding to a frontier never throws. |
| ParetoFrontier.SweepSkipsNeighbour | src/Itinero.Transit/Algorithms/CSA/ParetoFrontier.cs:128-173 | On a three-guard frontier, a candidate evicts the top guard and is appended next to a guard it would also evict, leaving that guard in place. |
| ParetoFrontier.SweepCorrectedKeepsNoRemovable | src/Itinero.Transit/Algorithms/CSA/ParetoFrontier.cs:78-190 | With single decrements, an appended candidate leaves no guard in the frontier that it would remove. |
| ParetoFrontier.SweepCorrectedEvictsNeighbour | src/Itinero.Transit/Algorithms/CSA/ParetoFrontier.cs:78-190 | With single decrements, the example above evicts both guards. |
| ParetoFrontier.ConsiderCases | src/Itinero.Transit/Algorithms/CSA/ParetoFrontier.cs:48-191 | A null, an infinite or a filtered-out journey leaves the frontier and adds nothing. A journey that is not backwards fails with its message and leaves the frontier as it was. A frontier not added to does not grow. Only old guards or offspring of the candidate remain. |
| ParetoFrontier.ReinsertionNotIdempotent | src/Itinero.Transit/Algorithms/CSA/ParetoFrontier.cs:102-112 | A journey merged into a guard, considered again, is merged a second time: the entry nests one level deeper instead of staying as it was. |
| ParetoFrontier.ConsiderAllYieldsSubsequence | src/Itinero.Transit/Algorithms/CSA/ParetoFrontier.cs:218-228 | The journeys `AddAllToFrontier` yields are among the given ones, and there are no more of them. |
| ParetoFrontier.ProfiledParetoFrontier.constructor | src/Itinero.Transit/Algorithms/CSA/ParetoFrontier.cs:33-38 | A new frontier is empty, with the given comparator and filter. |
| ParetoFrontier.ProfiledParetoFrontier.AddToFrontier | src/Itinero.Transit/Algorithms/CSA/ParetoFrontier.cs:48-191 | The result and the new frontier are `Consider` of the old frontier. |
| ParetoFrontier.ProfiledParetoFrontier.SweepFrontier | src/Itinero.Transit/Algorithms/CSA/ParetoFrontier.cs:78-190 | The in-place loop, double decrement included, computes `Sweep` of the old frontier. |
| ParetoFrontier.ProfiledParetoFrontier.IsSorted | src/Itinero.Transit/Algorithms/CSA/ParetoFrontier.cs:194-208 | It passes exactly when the frontier is non-empty and the `Time()` of its backward journeys, their departure times, never increases along it. An empty frontier fails on `Frontier[0]`. An unsorted one fails with its message. |
| ParetoFrontier.ProfiledParetoFrontier.AddAllToFrontier | src/Itinero.Transit/Algorithms/CSA/ParetoFrontier.cs:218-228 | The yielded journeys and the new frontier are `ConsiderAll` of the old frontier. |
| Synchronizer.Gcd | src/Itinero.Transit.IO.LC/IO/LC/Synchronization/Synchronizer.cs:99-110 | The result is zero exactly when both inputs are. Its divisors are exactly the common divisors of the inputs, and 0 acts as the identity. |
| Synchronizer.GcdIsGreatest | src/Itinero.Transit.IO.LC/IO/LC/Synchronization/Synchronizer.cs:99-110 | A number whose divisors are the common ones is itself a common divisor, and the greatest. |
| Synchronizer.Insert | src/Itinero.Transit.IO.LC/IO/LC/Synchronization/Synchronizer.cs:25 | Inserting into a frequency-sorted list keeps it sorted and adds exactly that policy. |
| Synchronizer.SortByFrequency | src/Itinero.Transit.IO.LC/IO/LC/Synchronization/Synchronizer.cs:25 | The result is sorted by frequency and is a permutation of the policies. |
| Synchronizer.SortedMembers | src/Itinero.Transit.IO.LC/IO/LC/Synchronization/Synchronizer.cs:25 | Every policy appears in the sorted list and every sorted entry is a policy. |
| Synchronizer.ClockRate | src/Itinero.Transit.IO.LC/IO/LC/Synchronization/Synchronizer.cs:26-42 | No policies fails with its message, and a zero frequency fails with its message. Otherwise the clock rate is positive and its divisors are exactly the common divisors of all frequencies. |
| Synchronizer.RoundDown | src/Itinero.Transit.IO.LC/IO/LC/Synchronization/Synchronizer.cs:75 | `now - now % f` is a multiple of `f` within one period at or before `now`. |
| Synchronizer.RoundDownIsGreatestMultiple | src/Itinero.Transit.IO.LC/IO/LC/Synchronization/Synchronizer.cs:75 | It is the greatest such multiple. |
| Synchronizer.DuePoliciesMembers | src/Itinero.Transit.IO.LC/IO/LC/Synchronization/Synchronizer.cs:77-83 | A policy runs on a tick exactly when it is a policy and is due: on the first run, or when the tick is a multiple of its frequency. |
| Synchronizer.DueRunsAttemptDuePolicies | src/Itinero.Transit.IO.LC/IO/LC/Synchronization/Synchronizer.cs:77-93 | Every due policy is attempted, in order, at the tick's date, and a throwing one is logged and does not stop the others. |
| Synchronizer.FirstRunRunsAll | src/Itinero.Transit.IO.LC/IO/LC/Synchronization/Synchronizer.cs:79 | On the first run every policy is due. |
| Synchronizer.DueOnItsMultiple | src/Itinero.Transit.IO.LC/IO/LC/Synchronization/Synchronizer.cs:75-83 | Because the clock rate divides every frequency, a tick at a multiple of a policy's frequency is not moved by rounding, and the policy is due on it. |
| Synchronizer.InitialRunsShape | src/Itinero.Transit.IO.LC/IO/LC/Synchronization/Synchronizer.cs:58-69 | Policies run in order, each at its own rounded-down date, up to and including the first that throws, and all of them when none throws. |
| Synchronizer.Synchronizer.Create | src/Itinero.Transit.IO.LC/IO/LC/Synchronization/Synchronizer.cs:20-46 | It fails exactly as `ClockRate` does. Otherwise the policies are stored sorted by frequency, the clock rate is their greatest common divisor, and the synchronizer is on its first run. |
| Synchronizer.Synchronizer.RunAll | src/Itinero.Transit.IO.LC/IO/LC/Synchronization/Synchronizer.cs:72-96 | The tick's date is `now` rounded down to the clock rate. The runs are exactly the due runs, and the first-run flag is cleared. |
| Synchronizer.Synchronizer.InitialRun | src/Itinero.Transit.IO.LC/IO/LC/Synchronization/Synchronizer.cs:58-69 | The runs are `InitialRuns` of the policies. The first-run flag is cleared unless a policy threw. |

## Left out

- Boarding modes, the profiled connection scan, `IsochroneFilter`, the `Journey<T>` class and `IConnectionsDb` are not part of this model. Journeys are a value datatype with the operations the core uses: location, time, metric, root, previous link, last trip, chain forward, chain special and join.
- `Journey<T>.LastTripId` is modelled as the trip of the latest scheduled link, walking back over special links, and none at the root.
- `Journey<T>.Equals` in `AddToFrontier` is modelled as structural equality (`Identical`).
- `InfiniteJourney` is modelled as arriving at `ulong.MaxValue`.
- `DepartureEnumerator` reports a departure time one past `ulong.MaxValue` once exhausted, so that neither scan loop reads a connection that does not exist. The timetable is a sorted sequence.
- The `DateTime` overloads and the single-target EAS constructor are left out. So is the profile's walk generator beyond a transfer function.
- OtherModeExtensions.cs lines 15-24, the reader-based `TimeBetween` extension, is left out: the reader is a mutable cursor, and the model passes coordinates directly. The `TimesBetween` extension at lines 26-34 is inlined into `WalkAwayFrom`/`WalkTowards` as a coordinate lookup.
- `WalkAwayFrom` and `WalkTowards` are lazy iterators in the source. The model returns the whole sequence. `LocationsInRange` is a parameter, the stops in range.
- `Dictionary<StopId, uint>` is modelled as a sequence of pairs, in insertion order. Its iteration order is assumed to be that order.
- The reverse `TimesBetween` of a generator is assumed to be the same table as the forward one with its arguments swapped. Only the forward direction is a generator parameter.
- Floating point: distances and speeds are exact reals. `(ulong)` casts are modelled as `Floor`, and `float` rounding is left out, both of the product `distance * _speed` and of the sums below. The two generator functions require a non-negative speed and distance, which the source takes for granted.
- CrowsFlightTransferGenerator.CrowsFlightTransferGenerator.CreateDepartureTransfer: the sum `buildOn.Time + walkingTimeInSec` (CrowsFlightTransferGenerator.cs line 50) and its comparison with `timeWhenLeaving` are exact here. In the source they are `float` operations, and near present-day unix times (about 1.5e9 seconds) a `float` is only precise to 128 seconds. So the proved bounds `buildOn.Time() <= r.value.Time() <= timeWhenLeaving` hold for the exact sum only. For example, with `buildOn.Time` = 1546300801, a distance of 7 and a speed of 1.4, the `float` sum rounds to 1546300800, and the walk the source builds arrives one second before it starts.
- CrowsFlightTransferGenerator.CrowsFlightTransferGenerator.CreateArrivingTransfer: the same holds for `buildOn.Time - walkingTimeInSec` (line 73) and its comparison with `timeWhenDeparting`. The proved `timeWhenDeparting <= r.value.Time() <= buildOn.Time()` holds for the exact difference only, and rounding can move the time the source computes by as much as 128 seconds.
- CrowsFlightTransferGenerator: the constructor's documentation says a walk is generated only between locations that are not the same. The code does not check this, and the model follows the code: two equal locations at distance 0 get a zero-length walk.
- The Synchronizer's `TransitDbUpdater`, its `Timer`, the clock and logging are left out. The current time is a parameter, `DateTime.Now` per policy in `InitialRun` is a sequence of clock readings, and whether a policy throws is a parameter function. The `SynchronizedWindow` payload is reduced to its frequency and an id.
- SortByFrequency: stated as sorted and a permutation of the input. The stability of `OrderBy` is not stated.
- `Decide` never yields `Throw` in the first branch of the frontier loop, because the source's switch there has no default. The duel value in the throw message is not modelled, only its fixed prefix.
- The comparator null check in the `ProfiledParetoFrontier` constructor is left out: Dafny function values cannot be null.
- The `ProfiledParetoFrontier` class keeps the loop as written, with the double decrement. The corrected loop is the function `SweepCorrected`.
- The EAS `CalculateJourney` loops are split into `ScanUntilTarget` and `ScanFilterWindow`, each a method with its own loop.
- EarliestConnectionScan.EarliestConnectionScan.CalculateJourney: the contract states which connections were scanned and where each loop stopped. It does not state that the result is the earliest arrival over every journey the timetable allows. That global optimality needs a model of journey feasibility that this project does not have, so it is stated only step by step, by `IntegrateArrival` and `IntegrateNeverDelays`.
- Metric.TravellingTimeMinimizer.Add: a link's `ArrivalTime()`/`DepartureTime()` (the `Journey<T>` extension methods are not part of this model) are taken as the times of the node it leaves and the node it reaches, in build order. Links built backwards in time, by `CreateArrivingTransfer` or `WalkTowards`, then have their arrival before their departure, and `BackwardLegWraps` shows that their duration wraps to 2^32 minus the gap. The model promises nothing about the metric of backward-built journeys beyond that.
- ParetoFrontier.ProfiledParetoFrontier.AddToFrontier: re-considering a journey is not idempotent, and no guard is promised never to dominate another. `ReinsertionNotIdempotent` shows the first: `considered.Equals(guard)` looks at the guard's main journey only, so a journey already merged as an alternative is merged again. For the second, `SweepSkipsNeighbour` shows the frontier as written can keep a guard the new entry beats. `SweepCorrectedKeepsNoRemovable` proves the corrected loop does not.
- OtherModeExtensions.WalkTowards: its own contract states only the error case. The layout of its result is stated by `WalkTowardsLayout`.

## Findings

| source | as written | input that shows it | evidently intended | confidence | as-written member | corrected member |
|---|---|---|---|---|---|---|
| src/Itinero.Transit/Algorithms/CSA/ParetoFrontier.cs:128-173 | After `Frontier.RemoveAt(i)` the body does `i--`, and the loop does `i--` again, so the guard just below a removed one is never compared | Frontier of windows [0,1], [4,7], [3,8] and a candidate [5,6], with a comparator where the candidate always wins: [3,8] is removed, [4,7] is skipped, and the candidate is appended beside [4,7], which it also beats | Move one index down after a removal, so every guard is compared with the candidate | high (not executed) | ParetoFrontier.SweepSkipsNeighbour | ParetoFrontier.SweepCorrectedKeepsNoRemovable |
| src/Itinero.Transit/Data/Walks/CrowsFlightTransferGenerator.cs:49 | The walking time in seconds is `distance * _speed` (also at line 72), with the speed documented in metres per second | 140 m at 1.4 m/s gives 196 s instead of 100 s | `distance / _speed` | medium (not executed) | CrowsFlightTransferGenerator.WalkingTimeIsNotSeconds | CrowsFlightTransferGenerator.CrowsFlightTransferGenerator.SecondsToWalk |
| src/Itinero.Transit/OtherMode/OtherModeCacher.cs:70-80 | The batched memo is keyed by a freshly built `List<LocationId>`, which C# compares by reference, so the lookup never hits and the memo grows on every call | Two calls of `TimesBetween` with the same coordinate and stops: both reach the fallback and the memo holds two entries | Key the memo by the list's contents | high (not executed) | OtherModeCacher.OtherModeCacher.TimesBetweenTwice | OtherModeCacher.OtherModeCacher.TimesBetweenByIdsTwice |
