/**
 * The time-aware Pareto frontier of the profiled scan. Every entry is a backward journey
 * with a time window [Time, Root.Time]; a candidate is dueled only against entries whose
 * window contains its own or lies inside it.
 */
module ParetoFrontier {
  import opened Wrappers
  import opened Transit
  import opened Journeys
  import Metric

  /** `int.MaxValue`: the duel verdict "each is better on some statistic". */
  const INT_MAX: int := 0x7FFF_FFFF

  /** The window of `inner` lies (not necessarily strictly) inside the window of `outer`. */
  predicate Within<M>(inner: Journey<M>, outer: Journey<M>) {
    outer.Time() <= inner.Time() && inner.Root().Time() <= outer.Root().Time()
  }

  predicate SameWindow<M>(a: Journey<M>, b: Journey<M>) {
    a.Time() == b.Time() && a.Root().Time() == b.Root().Time()
  }

  /** What one guard does to a candidate. */
  datatype Action = Reject | Merge | Remove | Keep | Throw(duel: int)

  /** The body of the frontier loop for the guard at the current index. */
  function Decide<M>(guard: Journey<M>, candidate: Journey<M>, cmp: (Journey<M>, Journey<M>) -> int): Action {
    if Within(guard, candidate) then
      var duel := cmp(guard, candidate);
      if duel == -1 then Reject
      else if duel == 0 then
        if SameWindow(candidate, guard) then (if Identical(candidate, guard) then Reject else Merge)
        else Reject
      else if duel == 1 && SameWindow(candidate, guard) then Remove
      else Keep
    else if Within(candidate, guard) then
      var duel := cmp(guard, candidate);
      if duel == INT_MAX || duel == -1 then Keep
      else if duel == 0 || duel == 1 then Remove
      else Throw(duel)
    else Keep
  }

  /**
   * A guard is removed exactly when the windows are equal and the candidate wins, or the candidate
   * lies strictly inside the guard and ties or wins; the loop throws exactly on an unknown verdict
   * in the strict-containment branch; guards whose windows do not nest are kept.
   */
  lemma DecideCases<M>(guard: Journey<M>, candidate: Journey<M>, cmp: (Journey<M>, Journey<M>) -> int)
    ensures Decide(guard, candidate, cmp) == Remove <==>
      (SameWindow(candidate, guard) && cmp(guard, candidate) == 1)
      || (Within(candidate, guard) && !Within(guard, candidate) && cmp(guard, candidate) in {0, 1})
    ensures Decide(guard, candidate, cmp).Throw? <==>
      Within(candidate, guard) && !Within(guard, candidate) && cmp(guard, candidate) !in {-1, 0, 1, INT_MAX}
    ensures Decide(guard, candidate, cmp) == Merge <==>
      SameWindow(candidate, guard) && cmp(guard, candidate) == 0 && !Identical(candidate, guard)
    ensures Decide(guard, candidate, cmp) == Reject <==>
      Within(guard, candidate) && (cmp(guard, candidate) == -1
        || (cmp(guard, candidate) == 0 && (!SameWindow(candidate, guard) || Identical(candidate, guard))))
    ensures !Within(guard, candidate) && !Within(candidate, guard) ==> Decide(guard, candidate, cmp) == Keep
  {
  }

  datatype Verdict = Rejected | Merged | Appended | Thrown(duel: int)

  /** The frontier after the loop, and how the loop ended. */
  datatype Swept<M> = Swept(verdict: Verdict, frontier: seq<Journey<M>>)

  /** The frontier loop as written: after a removal the index drops by two, skipping the next guard. */
  function Sweep<M>(f: seq<Journey<M>>, i: int, candidate: Journey<M>, cmp: (Journey<M>, Journey<M>) -> int): Swept<M>
    requires -2 <= i < |f|
    decreases i + 2
  {
    if i < 0 then Swept(Appended, f + [candidate])
    else
      match Decide(f[i], candidate, cmp)
      case Reject => Swept(Rejected, f)
      case Merge => Swept(Merged, f[i := Joined(f[i], candidate)])
      case Remove => Sweep(f[..i] + f[i + 1..], i - 2, candidate, cmp)
      case Keep => Sweep(f, i - 1, candidate, cmp)
      case Throw(d) => Swept(Thrown(d), f)
  }

  /** The frontier loop as evidently intended: after a removal the next guard is the one just below. */
  function SweepCorrected<M>(f: seq<Journey<M>>, i: int, candidate: Journey<M>, cmp: (Journey<M>, Journey<M>) -> int): Swept<M>
    requires -1 <= i < |f|
    decreases i + 1
  {
    if i < 0 then Swept(Appended, f + [candidate])
    else
      match Decide(f[i], candidate, cmp)
      case Reject => Swept(Rejected, f)
      case Merge => Swept(Merged, f[i := Joined(f[i], candidate)])
      case Remove => SweepCorrected(f[..i] + f[i + 1..], i - 1, candidate, cmp)
      case Keep => SweepCorrected(f, i - 1, candidate, cmp)
      case Throw(d) => Swept(Thrown(d), f)
  }

  /** An entry after the loop is an old entry, the candidate itself, or an old entry merged with it. */
  ghost predicate FromFrontier<M>(x: Journey<M>, f: seq<Journey<M>>, candidate: Journey<M>) {
    x in f || x == candidate || (x.Joined? && x.main in f && x.alternative == candidate)
  }

  /**
   * The loop only removes, merges into one slot, or appends the candidate: nothing else enters the
   * frontier, it grows by at most one, the candidate is last exactly when appended, and an
   * unappended candidate leaves the frontier no longer than before.
   */
  lemma {:induction false} SweepShape<M>(f: seq<Journey<M>>, i: int, candidate: Journey<M>, cmp: (Journey<M>, Journey<M>) -> int)
    requires -2 <= i < |f|
    ensures forall x :: x in Sweep(f, i, candidate, cmp).frontier ==> FromFrontier(x, f, candidate)
    ensures Sweep(f, i, candidate, cmp).verdict == Appended ==>
      0 < |Sweep(f, i, candidate, cmp).frontier| <= |f| + 1
      && Sweep(f, i, candidate, cmp).frontier[|Sweep(f, i, candidate, cmp).frontier| - 1] == candidate
    ensures Sweep(f, i, candidate, cmp).verdict != Appended ==> |Sweep(f, i, candidate, cmp).frontier| <= |f|
    decreases i + 2
  {
    if i >= 0 {
      match Decide(f[i], candidate, cmp)
      case Reject =>
      case Merge =>
        MergeKeepsOrigins(f, i, candidate);
      case Remove =>
        SweepShape(f[..i] + f[i + 1..], i - 2, candidate, cmp);
        RemoveKeepsOrigins(f, i, candidate);
      case Keep =>
        SweepShape(f, i - 1, candidate, cmp);
      case Throw(_) =>
    }
  }

  /** Merging the candidate into one slot brings in nothing else. */
  lemma MergeKeepsOrigins<M>(f: seq<Journey<M>>, i: int, candidate: Journey<M>)
    requires 0 <= i < |f|
    ensures forall x :: x in f[i := Joined(f[i], candidate)] ==> FromFrontier(x, f, candidate)
  {
    forall x | x in f[i := Joined(f[i], candidate)] ensures FromFrontier(x, f, candidate) {
      var k :| 0 <= k < |f| && f[i := Joined(f[i], candidate)][k] == x;
    }
  }

  /** Whatever comes from the frontier with one entry removed comes from the frontier. */
  lemma RemoveKeepsOrigins<M>(f: seq<Journey<M>>, i: int, candidate: Journey<M>)
    requires 0 <= i < |f|
    ensures forall x :: FromFrontier(x, f[..i] + f[i + 1..], candidate) ==> FromFrontier(x, f, candidate)
  {
    var g := f[..i] + f[i + 1..];
    forall x | FromFrontier(x, g, candidate) ensures FromFrontier(x, f, candidate) {
      if x in g {
        var k :| 0 <= k < |g| && g[k] == x;
        if k < i { assert f[k] == x; } else { assert f[k + 1] == x; }
      } else if x.Joined? && x.main in g {
        var k :| 0 <= k < |g| && g[k] == x.main;
        if k < i { assert f[k] == x.main; } else { assert f[k + 1] == x.main; }
      }
    }
  }

  lemma SweepRemoveStep<M>(f: seq<Journey<M>>, i: int, candidate: Journey<M>, cmp: (Journey<M>, Journey<M>) -> int)
    requires 0 <= i < |f| && Decide(f[i], candidate, cmp) == Remove
    ensures Sweep(f, i, candidate, cmp) == Sweep(f[..i] + f[i + 1..], i - 2, candidate, cmp)
  {
  }

  lemma SweepKeepStep<M>(f: seq<Journey<M>>, i: int, candidate: Journey<M>, cmp: (Journey<M>, Journey<M>) -> int)
    requires 0 <= i < |f| && Decide(f[i], candidate, cmp) == Keep
    ensures Sweep(f, i, candidate, cmp) == Sweep(f, i - 1, candidate, cmp)
  {
  }

  /** A comparator that only answers -1, 0, 1 or `int.MaxValue` never makes the loop throw. */
  lemma {:induction false} SweepNeverThrows<M>(f: seq<Journey<M>>, i: int, candidate: Journey<M>, cmp: (Journey<M>, Journey<M>) -> int)
    requires -2 <= i < |f|
    requires forall a, b :: cmp(a, b) in {-1, 0, 1, INT_MAX}
    ensures !Sweep(f, i, candidate, cmp).verdict.Thrown?
    decreases i + 2
  {
    if i >= 0 {
      DecideCases(f[i], candidate, cmp);
      match Decide(f[i], candidate, cmp)
      case Remove => SweepNeverThrows(f[..i] + f[i + 1..], i - 2, candidate, cmp);
      case Keep => SweepNeverThrows(f, i - 1, candidate, cmp);
      case _ =>
    }
  }

  /** The comparator of the default `TravellingTimeMinimizer` (no station importances). */
  function MinimizeComparator(): (cmp: (Journey<Metric.TravellingTimeMinimizer>, Journey<Metric.TravellingTimeMinimizer>) -> int)
    ensures forall a, b :: cmp(a, b) == Metric.ADominatesB(Metric.Minimize, a, b)
  {
    (a, b) => Metric.ADominatesB(Metric.Minimize, a, b)
  }

  /** With the default minimizer the frontier never throws: its duel is always -1, 0 or 1. */
  lemma MinimizerNeverThrows(f: seq<Journey<Metric.TravellingTimeMinimizer>>, candidate: Journey<Metric.TravellingTimeMinimizer>)
    ensures !Sweep(f, |f| - 1, candidate, MinimizeComparator()).verdict.Thrown?
  {
    var cmp := MinimizeComparator();
    forall a, b ensures cmp(a, b) in {-1, 0, 1, INT_MAX} {
      Metric.ADominatesBIsLexicographic(a, b);
    }
    SweepNeverThrows(f, |f| - 1, candidate, cmp);
  }

  /** A journey with window [departure, arrival]: a walk back to a root at `arrival`. */
  function Window(departure: Time, arrival: Time): Journey<int> {
    Chain(Genesis(StopId(0, 0), arrival, 0), StopId(0, 0), departure, Walk, WALK_TRIP, 0)
  }

  /**
   * As written, removing a guard skips the guard below it: with a comparator that always lets the
   * candidate win, [5,6] evicts [3,8] but is appended next to [4,7], which it would also evict.
   */
  lemma SweepSkipsNeighbour()
    ensures var cmp := (a: Journey<int>, b: Journey<int>) => 1;
      var f := [Window(0, 1), Window(4, 7), Window(3, 8)];
      Sweep(f, 2, Window(5, 6), cmp) == Swept(Appended, [Window(0, 1), Window(4, 7), Window(5, 6)])
      && Decide(Window(4, 7), Window(5, 6), cmp) == Remove
  {
    var cmp := (a: Journey<int>, b: Journey<int>) => 1;
    var f := [Window(0, 1), Window(4, 7), Window(3, 8)];
    var c := Window(5, 6);
    assert Decide(f[2], c, cmp) == Remove;
    assert f[..2] + f[3..] == [Window(0, 1), Window(4, 7)];
    assert Decide(Window(0, 1), c, cmp) == Keep;
    assert Sweep([Window(0, 1), Window(4, 7)], 0, c, cmp) == Sweep([Window(0, 1), Window(4, 7)], -1, c, cmp);
  }

  /**
   * With the corrected index, an appended candidate leaves no entry it would evict:
   * every guard still on the frontier survives a duel with it.
   */
  lemma {:induction false} SweepCorrectedKeepsNoRemovable<M>(f: seq<Journey<M>>, i: int, candidate: Journey<M>,
                                                             cmp: (Journey<M>, Journey<M>) -> int)
    requires -1 <= i < |f|
    requires forall k :: i < k < |f| ==> Decide(f[k], candidate, cmp) != Remove
    ensures SweepCorrected(f, i, candidate, cmp).verdict == Appended ==>
      var r := SweepCorrected(f, i, candidate, cmp).frontier;
      |r| > 0 && r[|r| - 1] == candidate
      && forall k :: 0 <= k < |r| - 1 ==> Decide(r[k], candidate, cmp) != Remove
    decreases i + 1
  {
    if i >= 0 {
      match Decide(f[i], candidate, cmp)
      case Remove =>
        var g := f[..i] + f[i + 1..];
        assert forall k :: i - 1 < k < |g| ==> g[k] == f[k + 1];
        SweepCorrectedKeepsNoRemovable(g, i - 1, candidate, cmp);
      case Keep =>
        SweepCorrectedKeepsNoRemovable(f, i - 1, candidate, cmp);
      case _ =>
    }
  }

  /** The corrected loop evicts both [3,8] and [4,7] in the example above. */
  lemma SweepCorrectedEvictsNeighbour()
    ensures var cmp := (a: Journey<int>, b: Journey<int>) => 1;
      SweepCorrected([Window(0, 1), Window(4, 7), Window(3, 8)], 2, Window(5, 6), cmp)
        == Swept(Appended, [Window(0, 1), Window(5, 6)])
  {
    var cmp := (a: Journey<int>, b: Journey<int>) => 1;
    var f := [Window(0, 1), Window(4, 7), Window(3, 8)];
    var c := Window(5, 6);
    assert Decide(f[2], c, cmp) == Remove;
    assert f[..2] + f[3..] == [Window(0, 1), Window(4, 7)];
    assert Decide(Window(4, 7), c, cmp) == Remove;
    assert [Window(0, 1), Window(4, 7)][..1] + [Window(0, 1), Window(4, 7)][2..] == [Window(0, 1)];
    assert Decide(Window(0, 1), c, cmp) == Keep;
  }

  /** One call of `AddToFrontier`: its result (or exception) and the frontier it leaves. */
  datatype Considered<M> = Considered(result: Result<bool>, frontier: seq<Journey<M>>)

  const NOT_BACKWARDS := "Not a backwards journey in the Pareto Frontier"
  const BAD_DUEL := "Comparison of two journeys in metric did not return -1,1 or 0"

  /** What `AddToFrontier` reports once the loop has ended. */
  function Finish<M>(sw: Swept<M>): Considered<M> {
    Considered(if sw.verdict.Thrown? then Failure(BAD_DUEL) else Success(sw.verdict.Merged? || sw.verdict.Appended?),
               sw.frontier)
  }

  /** `AddToFrontier` as a function of the frontier before the call. */
  function Consider<M>(f: seq<Journey<M>>, considered: JourneyRef<M>, cmp: (Journey<M>, Journey<M>) -> int,
                       filter: Option<Journey<M> -> bool>): Considered<M>
  {
    if !considered.Ref? then Considered(Success(false), f)
    else if filter.Some? && !filter.value(considered.journey) then Considered(Success(false), f)
    else if considered.journey.Root().Time() < considered.journey.Time() then Considered(Failure(NOT_BACKWARDS), f)
    else
      Finish(Sweep(f, |f| - 1, considered.journey, cmp))
  }

  /**
   * The guard checks of `AddToFrontier`: null, the infinite journey and filtered journeys are
   * refused and a forward journey throws, all without touching the frontier; an accepted
   * candidate ends up last, a refused one never grows the frontier.
   */
  lemma ConsiderCases<M>(f: seq<Journey<M>>, considered: JourneyRef<M>, cmp: (Journey<M>, Journey<M>) -> int,
                         filter: Option<Journey<M> -> bool>)
    ensures considered.Null? || considered.InfiniteJourney? ==> Consider(f, considered, cmp, filter) == Considered(Success(false), f)
    ensures considered.Ref? && filter.Some? && !filter.value(considered.journey) ==>
      Consider(f, considered, cmp, filter) == Considered(Success(false), f)
    ensures considered.Ref? && (filter.None? || filter.value(considered.journey))
            && considered.journey.Root().Time() < considered.journey.Time() ==>
      Consider(f, considered, cmp, filter) == Considered(Failure(NOT_BACKWARDS), f)
    ensures Consider(f, considered, cmp, filter).result != Success(true) ==>
      |Consider(f, considered, cmp, filter).frontier| <= |f|
    ensures forall x :: x in Consider(f, considered, cmp, filter).frontier ==>
      x in f || (considered.Ref? && FromFrontier(x, f, considered.journey))
  {
    if considered.Ref? && !(filter.Some? && !filter.value(considered.journey))
       && !(considered.journey.Root().Time() < considered.journey.Time()) {
      SweepShape(f, |f| - 1, considered.journey, cmp);
    }
  }

  /**
   * Considering again a journey the frontier already holds as the alternative of a merged entry
   * is not a no-op: `Identical` compares the candidate with the entry's main journey only, so the
   * candidate is merged a second time and the entry nests one level deeper.
   */
  lemma ReinsertionNotIdempotent()
    ensures var root: Journey<int> := Genesis(StopId(0, 0), 100, 0);
      var g := Chain(root, StopId(0, 1), 50, Scheduled(7), 1, 0);
      var j := Chain(root, StopId(0, 1), 50, Scheduled(8), 2, 0);
      var cmp := (a: Journey<int>, b: Journey<int>) => 0;
      Consider([g], Ref(j), cmp, None) == Considered(Success(true), [Joined(g, j)])
      && Consider([Joined(g, j)], Ref(j), cmp, None) == Considered(Success(true), [Joined(Joined(g, j), j)])
  {
  }

  /** `AddAllToFrontier`, consumed to the end: the accepted journeys in order, or the first exception. */
  datatype ConsideredAll<M> = ConsideredAll(result: Result<seq<Journey<M>>>, frontier: seq<Journey<M>>)

  function ConsiderAll<M>(f: seq<Journey<M>>, journeys: seq<JourneyRef<M>>, cmp: (Journey<M>, Journey<M>) -> int,
                          filter: Option<Journey<M> -> bool>): ConsideredAll<M>
    decreases |journeys|
  {
    if journeys == [] then ConsideredAll(Success([]), f)
    else
      var first := Consider(f, journeys[0], cmp, filter);
      if first.result.Failure? then ConsideredAll(Failure(first.result.error), first.frontier)
      else
        var rest := ConsiderAll(first.frontier, journeys[1..], cmp, filter);
        if rest.result.Failure? then rest
        else ConsideredAll(Success((if first.result.value then [journeys[0].journey] else []) + rest.result.value), rest.frontier)
  }

  /** `AddAllToFrontier` yields no more journeys than it was given, each one of the given journeys. */
  lemma {:induction false} ConsiderAllYieldsSubsequence<M>(f: seq<Journey<M>>, journeys: seq<JourneyRef<M>>,
                                                           cmp: (Journey<M>, Journey<M>) -> int, filter: Option<Journey<M> -> bool>)
    ensures ConsiderAll(f, journeys, cmp, filter).result.Success? ==>
      var ys := ConsiderAll(f, journeys, cmp, filter).result.value;
      |ys| <= |journeys| && forall y :: y in ys ==> Ref(y) in journeys
    decreases |journeys|
  {
    if journeys != [] {
      var first := Consider(f, journeys[0], cmp, filter);
      if first.result.Success? {
        ConsiderAllYieldsSubsequence(first.frontier, journeys[1..], cmp, filter);
        if first.result.value {
          assert journeys[0].Ref?;
        }
        forall y | ConsiderAll(first.frontier, journeys[1..], cmp, filter).result.Success?
                   && y in ConsiderAll(first.frontier, journeys[1..], cmp, filter).result.value
          ensures Ref(y) in journeys
        {
          assert Ref(y) in journeys[1..];
        }
      }
    }
  }

  /** Each entry's `Time` is no earlier than the next one's. */
  ghost predicate SortedDescending<M>(f: seq<Journey<M>>) {
    forall i, j :: 0 <= i <= j < |f| ==> f[i].Time() >= f[j].Time()
  }

  class ProfiledParetoFrontier<M> {
    const comparator: (Journey<M>, Journey<M>) -> int
    /** `JourneyFilter.CanBeTakenBackwards`, if there is a filter. */
    const journeyFilter: Option<Journey<M> -> bool>
    var frontier: seq<Journey<M>>

    constructor(comparator: (Journey<M>, Journey<M>) -> int, journeyFilter: Option<Journey<M> -> bool>)
      ensures this.comparator == comparator && this.journeyFilter == journeyFilter && frontier == []
    {
      this.comparator := comparator;
      this.journeyFilter := journeyFilter;
      frontier := [];
    }

    /** `AddToFrontier`: true iff the candidate went onto the frontier, appended or merged. */
    method AddToFrontier(considered: JourneyRef<M>) returns (r: Result<bool>)
      modifies this
      ensures Considered(r, frontier) == Consider(old(frontier), considered, comparator, journeyFilter)
    {
      if !considered.Ref? {
        return Success(false);
      }
      var c := considered.journey;
      if journeyFilter.Some? && !journeyFilter.value(c) {
        return Success(false);
      }
      if c.Root().Time() < c.Time() {
        return Failure(NOT_BACKWARDS);
      }
      r := SweepFrontier(c);
    }

    /** The loop of `AddToFrontier`, over the guards from the last entry down to the first. */
    method SweepFrontier(c: Journey<M>) returns (r: Result<bool>)
      modifies this
      ensures Considered(r, frontier) == Finish(Sweep(old(frontier), |old(frontier)| - 1, c, comparator))
    {
      ghost var goal := Sweep(frontier, |frontier| - 1, c, comparator);
      var i := |frontier| - 1;
      while i >= 0
        invariant -2 <= i < |frontier|
        invariant Sweep(frontier, i, c, comparator) == goal
        decreases i + 2
      {
        var guard := frontier[i];
        ghost var action := Decide(guard, c, comparator);
        if c.Time() <= guard.Time() && guard.Root().Time() <= c.Root().Time() {
          var duel := comparator(guard, c);
          if duel == -1 {
            assert action == Reject;
            return Success(false);
          } else if duel == 0 {
            if c.Time() == guard.Time() && guard.Root().Time() == c.Root().Time() {
              if Identical(c, guard) {
                assert action == Reject;
                return Success(false);
              }
              assert action == Merge;
              frontier := frontier[i := Joined(guard, c)];
              return Success(true);
            } else {
              assert action == Reject;
              return Success(false);
            }
          } else if duel == 1 {
            if c.Time() == guard.Time() && guard.Root().Time() == c.Root().Time() {
              assert action == Remove;
              SweepRemoveStep(frontier, i, c, comparator);
              frontier := frontier[..i] + frontier[i + 1..];
              i := i - 1;
            } else {
              assert action == Keep;
              SweepKeepStep(frontier, i, c, comparator);
            }
          } else {
            assert action == Keep;
            SweepKeepStep(frontier, i, c, comparator);
          }
        } else if guard.Time() <= c.Time() && c.Root().Time() <= guard.Root().Time() {
          var duel := comparator(guard, c);
          if duel == INT_MAX || duel == -1 {
            assert action == Keep;
            SweepKeepStep(frontier, i, c, comparator);
          } else if duel == 0 || duel == 1 {
            assert action == Remove;
            SweepRemoveStep(frontier, i, c, comparator);
            frontier := frontier[..i] + frontier[i + 1..];
            i := i - 1;
          } else {
            assert action == Throw(duel);
            return Failure(BAD_DUEL);
          }
        } else {
          assert action == Keep;
          SweepKeepStep(frontier, i, c, comparator);
        }
        i := i - 1;
      }
      frontier := frontier + [c];
      return Success(true);
    }

    /** `IsSorted`: passes iff the frontier is non-empty and sorted by descending `Time`. */
    method IsSorted() returns (r: Outcome)
      ensures r.Pass? <==> |frontier| > 0 && SortedDescending(frontier)
      ensures |frontier| == 0 ==> r == Fail("Index was out of range")
      ensures |frontier| > 0 && !SortedDescending(frontier) ==> r == Fail("Not sorted. A journey departs earlier then its predecessor")
    {
      if |frontier| == 0 {
        return Fail("Index was out of range");
      }
      var lastDep := frontier[0];
      var k := 0;
      while k < |frontier|
        invariant 0 <= k <= |frontier|
        invariant lastDep == frontier[if k == 0 then 0 else k - 1]
        invariant SortedDescending(frontier[..k])
      {
        var journey := frontier[k];
        if lastDep.Time() >= journey.Time() {
          lastDep := journey;
        } else {
          assert frontier[k - 1].Time() < frontier[k].Time();
          return Fail("Not sorted. A journey departs earlier then its predecessor");
        }
        k := k + 1;
      }
      assert frontier[..k] == frontier;
      r := Pass;
    }

    /** `AddAllToFrontier`, with the lazy enumeration consumed to the end. */
    method AddAllToFrontier(journeys: seq<JourneyRef<M>>) returns (r: Result<seq<Journey<M>>>)
      modifies this
      ensures ConsideredAll(r, frontier) == ConsiderAll(old(frontier), journeys, comparator, journeyFilter)
    {
      var added: seq<Journey<M>> := [];
      var k := 0;
      assert journeys[k..] == journeys;
      ghost var all := ConsiderAll(frontier, journeys, comparator, journeyFilter);
      if all.result.Success? {
        assert added + all.result.value == all.result.value;
      }
      while k < |journeys|
        invariant 0 <= k <= |journeys|
        invariant ConsiderAll(old(frontier), journeys, comparator, journeyFilter) ==
          var rest := ConsiderAll(frontier, journeys[k..], comparator, journeyFilter);
          if rest.result.Failure? then rest else ConsideredAll(Success(added + rest.result.value), rest.frontier)
      {
        ghost var before := frontier;
        var wasAdded := AddToFrontier(journeys[k]);
        assert journeys[k..][0] == journeys[k];
        assert journeys[k..][1..] == journeys[k + 1..];
        ghost var rest := ConsiderAll(frontier, journeys[k + 1..], comparator, journeyFilter);
        assert ConsiderAll(before, journeys[k..], comparator, journeyFilter) ==
          if wasAdded.Failure? then ConsideredAll(Failure(wasAdded.error), frontier)
          else if rest.result.Failure? then rest
          else ConsideredAll(Success((if wasAdded.value then [journeys[k].journey] else []) + rest.result.value), rest.frontier);
        if rest.result.Success? && wasAdded.Success? && wasAdded.value {
          assert (added + [journeys[k].journey]) + rest.result.value == added + ([journeys[k].journey] + rest.result.value);
        } else if rest.result.Success? && wasAdded.Success? {
          assert [] + rest.result.value == rest.result.value;
        }
        if wasAdded.Failure? {
          return Failure(wasAdded.error);
        }
        if wasAdded.value {
          added := added + [journeys[k].journey];
        }
        k := k + 1;
      }
      assert journeys[k..] == [];
      assert added + [] == added;
      r := Success(added);
    }
  }
}
