/**
 * The station tie-breaker of the travelling-time metric: walk two journeys back in
 * lockstep and add up, node by node, how much more important the second journey's
 * stop is than the first's.
 */
module MaximizeStations {
  import opened Wrappers
  import opened Transit
  import opened Journeys

  type Importances = map<StopId, UInt32>

  /** `TryGetValue` into the importance table: a stop that is not listed weighs 0. */
  function Importance(importances: Importances, stop: StopId): (r: UInt32)
    ensures stop in importances ==> r == importances[stop]
    ensures stop !in importances ==> r == 0
  {
    if stop in importances then importances[stop] else 0
  }

  /** `Compare(x, y)`, with C#'s unchecked `uint` subtraction, `(int)` cast and `int` addition. */
  function Compare<M>(importances: Importances, x: Journey<M>, y: Journey<M>): int
    decreases x.Depth()
  {
    var sum := if x.PreviousLink().Some? && y.PreviousLink().Some?
               then Compare(importances, x.PreviousLink().value, y.PreviousLink().value)
               else 0;
    var xL := Importance(importances, x.Location());
    var yL := Importance(importances, y.Location());
    WrapI32(sum + WrapI32(WrapU32(yL - xL)))
  }

  /** The stop pairs visited by `Compare`, oldest first: one per node until either chain ends. */
  function Lockstep<M>(x: Journey<M>, y: Journey<M>): (r: seq<(StopId, StopId)>)
    decreases x.Depth()
  {
    (if x.PreviousLink().Some? && y.PreviousLink().Some?
     then Lockstep(x.PreviousLink().value, y.PreviousLink().value)
     else [])
    + [(x.Location(), y.Location())]
  }

  /** The mathematical sum of the importance gains over a list of stop pairs. */
  function Gain(importances: Importances, pairs: seq<(StopId, StopId)>): int {
    if pairs == [] then 0
    else
      var last := pairs[|pairs| - 1];
      Gain(importances, pairs[..|pairs| - 1]) + (Importance(importances, last.1) - Importance(importances, last.0))
  }

  function Swap(pairs: seq<(StopId, StopId)>): (r: seq<(StopId, StopId)>)
    ensures |r| == |pairs|
    ensures forall k :: 0 <= k < |pairs| ==> r[k] == (pairs[k].1, pairs[k].0)
  {
    if pairs == [] then [] else Swap(pairs[..|pairs| - 1]) + [(pairs[|pairs| - 1].1, pairs[|pairs| - 1].0)]
  }

  function Min(a: int, b: int): int { if a <= b then a else b }

  /** The recursion visits one node pair per link of the shorter chain, plus the two end nodes. */
  lemma {:induction false} LockstepLength<M>(x: Journey<M>, y: Journey<M>)
    ensures |Lockstep(x, y)| == Min(x.Depth(), y.Depth()) + 1
    decreases x.Depth()
  {
    if x.PreviousLink().Some? && y.PreviousLink().Some? {
      LockstepLength(x.PreviousLink().value, y.PreviousLink().value);
    }
  }

  lemma {:induction false} LockstepSwapped<M>(x: Journey<M>, y: Journey<M>)
    ensures Lockstep(y, x) == Swap(Lockstep(x, y))
    decreases x.Depth()
  {
    if x.PreviousLink().Some? && y.PreviousLink().Some? {
      LockstepSwapped(x.PreviousLink().value, y.PreviousLink().value);
    }
  }

  lemma {:induction false} GainOfSwap(importances: Importances, pairs: seq<(StopId, StopId)>)
    ensures Gain(importances, Swap(pairs)) == -Gain(importances, pairs)
  {
    if pairs != [] {
      var init := pairs[..|pairs| - 1];
      GainOfSwap(importances, init);
      assert Swap(pairs)[..|pairs| - 1] == Swap(init);
    }
  }

  lemma {:induction false} GainOfSelf<M>(importances: Importances, x: Journey<M>)
    ensures Gain(importances, Lockstep(x, x)) == 0
    decreases x.Depth()
  {
    var ps := Lockstep(x, x);
    if x.PreviousLink().Some? {
      GainOfSelf(importances, x.PreviousLink().value);
    }
    assert ps[..|ps| - 1] == (if x.PreviousLink().Some? then Lockstep(x.PreviousLink().value, x.PreviousLink().value) else []);
  }

  /** Reducing after every step is the same as reducing the exact sum once. */
  lemma WrapI32Add(a: int, b: int)
    ensures WrapI32(WrapI32(a) + WrapI32(b)) == WrapI32(a + b)
  {
    assert (WrapI32(a) + WrapI32(b)) % TWO_32 == (a + b) % TWO_32;
  }

  lemma WrapI32OfU32(d: int)
    ensures WrapI32(WrapU32(d)) == WrapI32(d)
  {
  }

  lemma WrapI32Neg(a: int)
    requires WrapI32(a) != -0x8000_0000
    ensures WrapI32(-a) == -WrapI32(a)
  {
  }

  /** One step of `Compare`: adding the wrapped difference to the wrapped prefix sum. */
  lemma WrapStep(sum: int, g: int, d: int)
    requires sum == WrapI32(g)
    ensures WrapI32(sum + WrapI32(WrapU32(d))) == WrapI32(g + d)
  {
    WrapI32OfU32(d);
    WrapI32Add(g, d);
  }

  /** The pairs `Lockstep` visits before the last one. */
  function LockstepInit<M>(x: Journey<M>, y: Journey<M>): seq<(StopId, StopId)> {
    if x.PreviousLink().Some? && y.PreviousLink().Some?
    then Lockstep(x.PreviousLink().value, y.PreviousLink().value)
    else []
  }
  /** The importance gain at the last node pair. */
  function LastGain<M>(importances: Importances, x: Journey<M>, y: Journey<M>): int {
    Importance(importances, y.Location()) - Importance(importances, x.Location())
  }
  /** The gain over the lockstep pairs is the gain before the last pair plus that pair's. */
  lemma GainStep<M>(importances: Importances, x: Journey<M>, y: Journey<M>)
    ensures Gain(importances, Lockstep(x, y)) == Gain(importances, LockstepInit(x, y)) + LastGain(importances, x, y)
  {
    var ps := Lockstep(x, y);
    assert ps == LockstepInit(x, y) + [(x.Location(), y.Location())];
    assert ps[..|ps| - 1] == LockstepInit(x, y);
  }
  /** One level of `Compare`: the sum over the predecessors, plus the wrapped gain of the last pair. */
  lemma CompareUnfold<M>(importances: Importances, x: Journey<M>, y: Journey<M>, sum: int)
    requires sum == if x.PreviousLink().Some? && y.PreviousLink().Some?
                    then Compare(importances, x.PreviousLink().value, y.PreviousLink().value) else 0
    ensures Compare(importances, x, y) == WrapI32(sum + WrapI32(WrapU32(LastGain(importances, x, y))))
  {
  }
  /** `Compare` is the exact importance-gain sum over the lockstep pairs, wrapped to an `int` once. */
  lemma {:induction false} CompareIsWrappedGain<M>(importances: Importances, x: Journey<M>, y: Journey<M>)
    ensures Compare(importances, x, y) == WrapI32(Gain(importances, Lockstep(x, y)))
    decreases x.Depth()
  {
    var sum, g := 0, 0;
    if x.PreviousLink().Some? && y.PreviousLink().Some? {
      var px, py := x.PreviousLink().value, y.PreviousLink().value;
      CompareIsWrappedGain(importances, px, py);
      sum, g := Compare(importances, px, py), Gain(importances, Lockstep(px, py));
    }
    assert g == Gain(importances, LockstepInit(x, y));
    CompareUnfold(importances, x, y, sum);
    GainStep(importances, x, y);
    WrapChain(Compare(importances, x, y), sum, g, LastGain(importances, x, y), Gain(importances, Lockstep(x, y)));
  }
  /** The arithmetic of one step of `CompareIsWrappedGain`, on plain numbers. */
  lemma WrapChain(c: int, sum: int, g: int, d: int, total: int)
    requires c == WrapI32(sum + WrapI32(WrapU32(d))) && sum == WrapI32(g) && total == g + d
    ensures c == WrapI32(total)
  {
    WrapStep(sum, g, d);
  }
  /** A journey compared with itself gains nothing. */
  lemma CompareSelf<M>(importances: Importances, x: Journey<M>)
    ensures Compare(importances, x, x) == 0
  {
    CompareIsWrappedGain(importances, x, x);
    GainOfSelf(importances, x);
  }

  /** Swapping the arguments negates the result, unless it wrapped to `int.MinValue`. */
  lemma CompareAntisymmetric<M>(importances: Importances, x: Journey<M>, y: Journey<M>)
    requires Compare(importances, x, y) != -0x8000_0000
    ensures Compare(importances, y, x) == -Compare(importances, x, y)
  {
    CompareIsWrappedGain(importances, x, y);
    CompareIsWrappedGain(importances, y, x);
    LockstepSwapped(x, y);
    GainOfSwap(importances, Lockstep(x, y));
    NegChain(Compare(importances, x, y), Compare(importances, y, x),
             Gain(importances, Lockstep(x, y)), Gain(importances, Lockstep(y, x)));
  }
  /** The arithmetic of `CompareAntisymmetric`, on plain numbers. */
  lemma NegChain(c: int, c': int, g: int, g': int)
    requires c == WrapI32(g) && c' == WrapI32(g') && g' == -g && c != -0x8000_0000
    ensures c' == -c
  {
    WrapI32Neg(g);
  }
}
