/**
 * The scheduler that re-runs synchronization policies (time windows of a transit database that
 * are reloaded periodically): the common clock rate, the "is this policy due" rule and the
 * rounding of trigger dates.
 */
module Synchronizer {
  import opened Wrappers
  import opened Transit

  const NO_POLICIES: string := "At least one synchronization policy should be given"
  const ZERO_FREQUENCY: string := "This policy has a frequency of zero"

  /**
   * A synchronization policy. `frequency` is its period in seconds; `id` stands for the rest
   * of its configuration (the window it loads), which the scheduler never looks at.
   */
  datatype SynchronizedWindow = SynchronizedWindow(frequency: UInt32, id: nat)

  /** One call of a policy's `Run`: the policy, the trigger date it was given and whether it threw. */
  datatype Run = Run(policy: SynchronizedWindow, triggerDate: Time, failed: bool)

  // ---------------------------------------------------------------------------------------------
  // Divisibility

  /** `d` is a (positive) divisor of `x`. */
  ghost predicate Divides(d: int, x: int) {
    d > 0 && x % d == 0
  }

  /** `d` divides the frequency of every policy in `ps`. */
  ghost predicate DividesAll(d: int, ps: seq<SynchronizedWindow>) {
    forall i :: 0 <= i < |ps| ==> Divides(d, ps[i].frequency)
  }

  lemma MulAtLeast(k: int, d: int)
    requires d > 0 && k >= 1
    ensures k * d >= d
  {
  }

  /** Euclidean division has a unique quotient and remainder. */
  lemma ModUnique(y: int, q: int, r: int, d: int)
    requires d > 0 && 0 <= r < d && y == q * d + r
    ensures y % d == r && y / d == q
  {
    var k := q - y / d;
    assert y == (y / d) * d + y % d;
    assert k * d == q * d - (y / d) * d;
    assert k * d == y % d - r;
    if k >= 1 {
      MulAtLeast(k, d);
    } else if k <= -1 {
      MulAtLeast(-k, d);
    }
  }

  /** Adding a multiple of `d` does not change the remainder modulo `d`. */
  lemma ModOfLinear(k: int, d: int, r: int)
    requires d > 0
    ensures (k * d + r) % d == r % d
  {
    assert r == (r / d) * d + r % d;
    assert k * d + r == (k + r / d) * d + r % d;
    ModUnique(k * d + r, k + r / d, r % d, d);
  }

  /** A common divisor of `a` and `b` divides `a` exactly when it divides `a % b`. */
  lemma DividesMod(d: int, a: int, b: int)
    requires b > 0 && Divides(d, b)
    ensures Divides(d, a) <==> Divides(d, a % b)
  {
    assert a == (a / b) * b + a % b;
    assert b == (b / d) * d;
    assert (a / b) * b == ((a / b) * (b / d)) * d;
    ModOfLinear((a / b) * (b / d), d, a % b);
  }

  /** Divisibility is transitive. */
  lemma DividesTransitive(c: int, f: int, x: int)
    requires Divides(c, f) && Divides(f, x)
    ensures Divides(c, x)
  {
    assert x == (x / f) * f;
    assert f == (f / c) * c;
    assert x == ((x / f) * (f / c)) * c;
    ModOfLinear((x / f) * (f / c), c, 0);
  }

  /** A positive number has no divisor larger than itself. */
  lemma DivisorBound(d: int, x: int)
    requires x > 0 && Divides(d, x)
    ensures d <= x
  {
    assert x == (x / d) * d;
    assert x / d >= 1;
    MulAtLeast(x / d, d);
  }

  /**
   * `Gcd`: Euclid's algorithm by repeated remainders. The result is zero only when both
   * arguments are, `Gcd(a, 0) == a`, `Gcd(0, b) == b`, and its divisors are exactly the common
   * divisors of the arguments (so it is the greatest of them, see `GcdIsGreatest`).
   */
  method Gcd(a0: UInt32, b0: UInt32) returns (r: UInt32)
    ensures r == 0 <==> a0 == 0 && b0 == 0
    ensures a0 == 0 ==> r == b0
    ensures b0 == 0 ==> r == a0
    ensures forall d :: d > 0 ==> (Divides(d, r) <==> Divides(d, a0) && Divides(d, b0))
  {
    var a: UInt32, b: UInt32 := a0, b0;
    while a != 0 && b != 0
      invariant (a == 0 && b == 0) <==> (a0 == 0 && b0 == 0)
      invariant a0 == 0 ==> a == 0 && b == b0
      invariant b0 == 0 ==> b == 0 && a == a0
      invariant forall d :: d > 0 ==> (Divides(d, a) && Divides(d, b) <==> Divides(d, a0) && Divides(d, b0))
      decreases a as int + b as int
    {
      if a > b {
        forall d | d > 0
          ensures Divides(d, a % b) && Divides(d, b) <==> Divides(d, a) && Divides(d, b)
        {
          if Divides(d, b) {
            DividesMod(d, a, b);
          }
        }
        a := a % b;
      } else {
        forall d | d > 0
          ensures Divides(d, a) && Divides(d, b % a) <==> Divides(d, a) && Divides(d, b)
        {
          if Divides(d, a) {
            DividesMod(d, b, a);
          }
        }
        b := b % a;
      }
    }
    r := if a == 0 then b else a;
    forall d | d > 0
      ensures Divides(d, r) <==> Divides(d, a) && Divides(d, b)
    {
      assert Divides(d, 0);
    }
  }

  /** A positive value whose divisors are exactly the common divisors is the greatest of them. */
  lemma GcdIsGreatest(r: int, a: int, b: int)
    requires r > 0
    requires forall d :: d > 0 ==> (Divides(d, r) <==> Divides(d, a) && Divides(d, b))
    ensures Divides(r, a) && Divides(r, b)
    ensures forall d :: Divides(d, a) && Divides(d, b) ==> d <= r
  {
    assert Divides(r, r);
    forall d | Divides(d, a) && Divides(d, b)
      ensures d <= r
    {
      DivisorBound(d, r);
    }
  }

  // ---------------------------------------------------------------------------------------------
  // Ordering the policies

  predicate PositiveFrequencies(ps: seq<SynchronizedWindow>) {
    forall i :: 0 <= i < |ps| ==> ps[i].frequency > 0
  }

  ghost predicate SortedByFrequency(ps: seq<SynchronizedWindow>) {
    forall i, j :: 0 <= i < j < |ps| ==> ps[i].frequency <= ps[j].frequency
  }

  /** Inserts `p` before the first policy that is not more frequent than it. */
  function Insert(p: SynchronizedWindow, sorted: seq<SynchronizedWindow>): (r: seq<SynchronizedWindow>)
    requires SortedByFrequency(sorted)
    ensures |r| == |sorted| + 1
    ensures r[0] == p || (sorted != [] && r[0] == sorted[0])
    ensures SortedByFrequency(r)
    ensures multiset(r) == multiset(sorted) + multiset{p}
  {
    if sorted == [] || p.frequency <= sorted[0].frequency then [p] + sorted
    else
      var rest := Insert(p, sorted[1..]);
      assert sorted == [sorted[0]] + sorted[1..];
      SortedCons(sorted[0], rest);
      assert multiset([sorted[0]] + rest) == multiset{sorted[0]} + multiset(rest);
      [sorted[0]] + rest
  }

  /** A policy no less frequent than the head of a sorted list can go in front of it. */
  lemma SortedCons(p: SynchronizedWindow, ps: seq<SynchronizedWindow>)
    requires SortedByFrequency(ps) && (ps != [] ==> p.frequency <= ps[0].frequency)
    ensures SortedByFrequency([p] + ps)
  {
    var r := [p] + ps;
    forall i, j | 0 <= i < j < |r|
      ensures r[i].frequency <= r[j].frequency
    {
      if i == 0 {
        assert r[j] == ps[j - 1];
      }
    }
  }

  /** `policies.OrderBy(p => p.Frequency)`: ascending frequency. */
  function SortByFrequency(ps: seq<SynchronizedWindow>): (r: seq<SynchronizedWindow>)
    ensures SortedByFrequency(r)
    ensures multiset(r) == multiset(ps)
    ensures |r| == |ps|
  {
    if ps == [] then []
    else
      assert ps == [ps[0]] + ps[1..];
      Insert(ps[0], SortByFrequency(ps[1..]))
  }

  /** Sorting keeps exactly the policies it was given. */
  lemma SortedMembers(ps: seq<SynchronizedWindow>, i: int)
    requires 0 <= i < |ps|
    ensures exists j :: 0 <= j < |SortByFrequency(ps)| && SortByFrequency(ps)[j] == ps[i]
    ensures exists j :: 0 <= j < |ps| && ps[j] == SortByFrequency(ps)[i]
  {
    var s := SortByFrequency(ps);
    assert ps[i] in multiset(ps);
    assert ps[i] in s;
    assert s[i] in multiset(s);
    assert s[i] in ps;
  }

  /**
   * The clock-rate fold of the `Synchronizer` constructor: starting from the most frequent
   * policy, the gcd with every policy's frequency in the given order; it fails on an empty list
   * and on a zero frequency.
   */
  method ClockRate(policies: seq<SynchronizedWindow>) returns (r: Result<UInt32>)
    ensures r.Failure? <==> |policies| == 0 || !PositiveFrequencies(policies)
    ensures |policies| == 0 ==> r == Failure(NO_POLICIES)
    ensures |policies| > 0 && !PositiveFrequencies(policies) ==> r == Failure(ZERO_FREQUENCY)
    ensures r.Success? ==>
      r.value > 0 && forall d :: d > 0 ==> (Divides(d, r.value) <==> DividesAll(d, policies))
  {
    var sorted := SortByFrequency(policies);
    if |policies| == 0 {
      return Failure(NO_POLICIES);
    }
    var clockRate := sorted[0].frequency;
    var i := 0;
    while i < |policies|
      invariant 0 <= i <= |policies|
      invariant PositiveFrequencies(policies[..i])
      invariant forall d :: d > 0 ==> (Divides(d, clockRate) <==> Divides(d, sorted[0].frequency) && DividesAll(d, policies[..i]))
      invariant clockRate == 0 ==> sorted[0].frequency == 0
    {
      var policy := policies[i];
      if policy.frequency <= 0 {
        return Failure(ZERO_FREQUENCY);
      }
      var oldRate := clockRate;
      clockRate := Gcd(clockRate, policy.frequency);
      assert policies[..i + 1] == policies[..i] + [policy];
      forall d | d > 0
        ensures DividesAll(d, policies[..i + 1]) <==> DividesAll(d, policies[..i]) && Divides(d, policy.frequency)
      {
      }
      i := i + 1;
    }
    assert policies[..i] == policies;
    SortedMembers(policies, 0);
    var j :| 0 <= j < |policies| && policies[j] == sorted[0];
    assert clockRate > 0;
    forall d | d > 0
      ensures DividesAll(d, policies) ==> Divides(d, sorted[0].frequency)
    {
    }
    r := Success(clockRate);
  }

  /** `unixNow - unixNow % frequency`: the latest multiple of `f` that is not after `now`. */
  function RoundDown(now: Time, f: UInt32): (r: Time)
    requires f > 0
    ensures r % f == 0 && r <= now < r + f
  {
    assert now == (now / f) * f + now % f;
    ModUnique(now - now % f, now / f, 0, f);
    now - now % f
  }

  /** No multiple of `f` lies strictly between `RoundDown(now, f)` and `now`. */
  lemma RoundDownIsGreatestMultiple(now: Time, f: UInt32, m: int)
    requires f > 0 && m % f == 0 && m <= now
    ensures m <= RoundDown(now, f)
  {
    var r := RoundDown(now, f);
    assert m == (m / f) * f;
    assert r == (r / f) * f;
    if m > r {
      var k := m / f - r / f;
      assert m - r == k * f;
      assert k >= 1;
      MulAtLeast(k, f);
    }
  }

  // ---------------------------------------------------------------------------------------------
  // Which policies run

  /** The due rule of `RunAll`: the trigger date is a multiple of the frequency, or it is the first run. */
  predicate IsDue(p: SynchronizedWindow, date: Time, firstRun: bool)
    requires p.frequency > 0
  {
    date % p.frequency == 0 || firstRun
  }

  /** The policies of `ps` that are due, in order. */
  function DuePolicies(ps: seq<SynchronizedWindow>, date: Time, firstRun: bool): (r: seq<SynchronizedWindow>)
    requires PositiveFrequencies(ps)
    ensures |r| <= |ps|
  {
    if ps == [] then []
    else
      var last := ps[|ps| - 1];
      DuePolicies(ps[..|ps| - 1], date, firstRun) + (if IsDue(last, date, firstRun) then [last] else [])
  }

  /** The runs `RunAll` makes over `ps`: each due policy in order, all at the same trigger date. */
  function DueRuns(ps: seq<SynchronizedWindow>, date: Time, firstRun: bool,
                   throws: (SynchronizedWindow, Time) -> bool): seq<Run>
    requires PositiveFrequencies(ps)
  {
    if ps == [] then []
    else
      var last := ps[|ps| - 1];
      DueRuns(ps[..|ps| - 1], date, firstRun, throws)
        + (if IsDue(last, date, firstRun) then [Run(last, date, throws(last, date))] else [])
  }

  function Policies(runs: seq<Run>): (r: seq<SynchronizedWindow>)
    ensures |r| == |runs| && forall k :: 0 <= k < |r| ==> r[k] == runs[k].policy
  {
    seq(|runs|, k requires 0 <= k < |runs| => runs[k].policy)
  }

  /**
   * A failing policy does not stop the others: `RunAll` attempts exactly the due policies,
   * whichever of them throw, each with the common trigger date and its own outcome.
   */
  lemma {:induction false} DueRunsAttemptDuePolicies(ps: seq<SynchronizedWindow>, date: Time, firstRun: bool,
                                                     throws: (SynchronizedWindow, Time) -> bool)
    requires PositiveFrequencies(ps)
    ensures Policies(DueRuns(ps, date, firstRun, throws)) == DuePolicies(ps, date, firstRun)
    ensures forall k :: 0 <= k < |DueRuns(ps, date, firstRun, throws)| ==>
      DueRuns(ps, date, firstRun, throws)[k].triggerDate == date
      && DueRuns(ps, date, firstRun, throws)[k].failed == throws(DueRuns(ps, date, firstRun, throws)[k].policy, date)
  {
    if ps != [] {
      var init := ps[..|ps| - 1];
      assert PositiveFrequencies(init);
      DueRunsAttemptDuePolicies(init, date, firstRun, throws);
    }
  }

  /** A policy is among the due policies exactly when it is one of them and the due rule holds. */
  lemma {:induction false} DuePoliciesMembers(ps: seq<SynchronizedWindow>, date: Time, firstRun: bool, p: SynchronizedWindow)
    requires PositiveFrequencies(ps)
    ensures p in DuePolicies(ps, date, firstRun) <==> p in ps && IsDue(p, date, firstRun)
  {
    if ps != [] {
      var init := ps[..|ps| - 1];
      assert ps == init + [ps[|ps| - 1]];
      DuePoliciesMembers(init, date, firstRun, p);
    }
  }

  /** On the first run every policy is due. */
  lemma {:induction false} FirstRunRunsAll(ps: seq<SynchronizedWindow>, date: Time)
    requires PositiveFrequencies(ps)
    ensures DuePolicies(ps, date, true) == ps
  {
    if ps != [] {
      var init := ps[..|ps| - 1];
      assert ps == init + [ps[|ps| - 1]];
      FirstRunRunsAll(init, date);
    }
  }

  /**
   * A policy whose frequency divides the current time runs: the clock rate divides its
   * frequency, so rounding down to the clock rate leaves the time unchanged.
   */
  lemma DueOnItsMultiple(p: SynchronizedWindow, clockRate: UInt32, now: Time, firstRun: bool)
    requires p.frequency > 0 && Divides(clockRate, p.frequency)
    requires now % p.frequency == 0
    ensures RoundDown(now, clockRate) == now
    ensures IsDue(p, RoundDown(now, clockRate), firstRun)
  {
    DividesTransitive(clockRate, p.frequency, now);
  }

  /**
   * The runs of `InitialRun`: every policy in order, each at the time read for it rounded down to
   * its own frequency; an exception ends the loop after the failing run.
   */
  function InitialRuns(ps: seq<SynchronizedWindow>, clock: seq<Time>,
                       throws: (SynchronizedWindow, Time) -> bool): (r: seq<Run>)
    requires PositiveFrequencies(ps) && |clock| == |ps|
  {
    if ps == [] then []
    else
      var date := RoundDown(clock[0], ps[0].frequency);
      var run := Run(ps[0], date, throws(ps[0], date));
      if run.failed then [run] else [run] + InitialRuns(ps[1..], clock[1..], throws)
  }

  predicate Failed(runs: seq<Run>) {
    |runs| > 0 && runs[|runs| - 1].failed
  }

  /**
   * `InitialRun` runs the policies in order up to and including the first one that throws:
   * each at a multiple of its frequency within one period before its clock reading; all of them
   * when none throws.
   */
  lemma {:induction false} InitialRunsShape(ps: seq<SynchronizedWindow>, clock: seq<Time>,
                                            throws: (SynchronizedWindow, Time) -> bool)
    requires PositiveFrequencies(ps) && |clock| == |ps|
    ensures var r := InitialRuns(ps, clock, throws);
      |r| <= |ps|
      && (forall k :: 0 <= k < |r| ==>
            r[k].policy == ps[k] && r[k].triggerDate == RoundDown(clock[k], ps[k].frequency)
            && r[k].failed == throws(ps[k], r[k].triggerDate))
      && (forall k :: 0 <= k < |r| - 1 ==> !r[k].failed)
      && (|r| < |ps| ==> Failed(r))
  {
    if ps != [] {
      assert PositiveFrequencies(ps[1..]);
      InitialRunsShape(ps[1..], clock[1..], throws);
    }
  }

  // ---------------------------------------------------------------------------------------------
  // The scheduler

  class Synchronizer {
    /** The policies, most frequent first. */
    const policies: seq<SynchronizedWindow>
    /** The timer period: the gcd of all policy frequencies. */
    const clockRate: UInt32
    var firstRun: bool

    ghost predicate Valid() {
      |policies| > 0 && PositiveFrequencies(policies) && SortedByFrequency(policies)
      && clockRate > 0 && DividesAll(clockRate, policies)
    }

    constructor Init(policies: seq<SynchronizedWindow>, clockRate: UInt32)
      ensures this.policies == policies && this.clockRate == clockRate && firstRun
    {
      this.policies := policies;
      this.clockRate := clockRate;
      firstRun := true;
    }

    /**
     * The constructor: orders the policies by frequency and computes the clock rate, throwing
     * on an empty list or a zero frequency.
     */
    static method Create(policies: seq<SynchronizedWindow>) returns (r: Result<Synchronizer>)
      ensures r.Failure? <==> |policies| == 0 || !PositiveFrequencies(policies)
      ensures |policies| == 0 ==> r == Failure(NO_POLICIES)
      ensures |policies| > 0 && !PositiveFrequencies(policies) ==> r == Failure(ZERO_FREQUENCY)
      ensures r.Success? ==>
        fresh(r.value) && r.value.Valid() && r.value.firstRun
        && r.value.policies == SortByFrequency(policies)
        && forall d :: d > 0 ==> (Divides(d, r.value.clockRate) <==> DividesAll(d, policies))
    {
      var rate := ClockRate(policies);
      if rate.Failure? {
        return Failure(rate.error);
      }
      var sorted := SortByFrequency(policies);
      assert Divides(rate.value, rate.value);
      forall i | 0 <= i < |sorted|
        ensures sorted[i].frequency > 0 && Divides(rate.value, sorted[i].frequency)
      {
        SortedMembers(policies, i);
      }
      var s := new Synchronizer.Init(sorted, rate.value);
      r := Success(s);
    }

    /**
     * `RunAll`, one timer tick at time `now`: every due policy is run at `now` rounded down to
     * the clock rate; a policy that throws is logged and the loop goes on; the first-run flag
     * is cleared.
     */
    method RunAll(now: Time, throws: (SynchronizedWindow, Time) -> bool) returns (date: Time, runs: seq<Run>)
      requires Valid()
      modifies this
      ensures date == RoundDown(now, clockRate)
      ensures runs == DueRuns(policies, date, old(firstRun), throws)
      ensures !firstRun
    {
      date := now - now % clockRate;
      runs := [];
      var i := 0;
      while i < |policies|
        invariant 0 <= i <= |policies|
        invariant firstRun == old(firstRun)
        invariant runs == DueRuns(policies[..i], date, firstRun, throws)
      {
        var policy := policies[i];
        assert policies[..i + 1][..i] == policies[..i];
        if date % policy.frequency != 0 && !firstRun {
          // not due this cycle
        } else {
          var failed := throws(policy, date);
          runs := runs + [Run(policy, date, failed)];
        }
        i := i + 1;
      }
      assert policies[..i] == policies;
      firstRun := false;
    }

    /**
     * `InitialRun`: runs every policy in order at the clock reading taken for it, rounded down to
     * its frequency. An exception escapes after the failing run and leaves the first-run flag
     * set; otherwise the flag is cleared.
     */
    method InitialRun(clock: seq<Time>, throws: (SynchronizedWindow, Time) -> bool) returns (runs: seq<Run>)
      requires Valid() && |clock| == |policies|
      modifies this
      ensures runs == InitialRuns(policies, clock, throws)
      ensures firstRun == (old(firstRun) && Failed(runs))
    {
      runs := [];
      var i := 0;
      while i < |policies|
        invariant 0 <= i <= |policies|
        invariant firstRun == old(firstRun)
        invariant !Failed(runs)
        invariant PositiveFrequencies(policies[i..])
        invariant runs + InitialRuns(policies[i..], clock[i..], throws) == InitialRuns(policies, clock, throws)
      {
        var policy := policies[i];
        var date := clock[i] - clock[i] % policy.frequency;
        var run := Run(policy, date, throws(policy, date));
        assert policies[i..][1..] == policies[i + 1..] && clock[i..][1..] == clock[i + 1..];
        if run.failed {
          runs := runs + [run];
          return;
        }
        assert runs + InitialRuns(policies[i..], clock[i..], throws)
            == (runs + [run]) + InitialRuns(policies[i + 1..], clock[i + 1..], throws);
        runs := runs + [run];
        i := i + 1;
      }
      assert runs + [] == runs;
      firstRun := false;
    }
  }
}
