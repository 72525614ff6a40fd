/** In-station transfers: a fixed transfer time, and only between a stop and itself. */
module InternalTransferGenerator {
  import opened Wrappers
  import opened Transit
  import opened OtherMode
  import OtherModeExtensions

  const DEFAULT_TRANSFER_TIME: UInt32 := 180
  const IDENTIFIER_PREFIX := "internalTransfer&timeNeeded="

  datatype InternalTransferGenerator = InternalTransferGenerator(internalTransferTime: UInt32)
  {
    /** The constructor with its default argument. */
    static function Default(): (g: InternalTransferGenerator)
      ensures g.internalTransferTime == DEFAULT_TRANSFER_TIME
    {
      InternalTransferGenerator(DEFAULT_TRANSFER_TIME)
    }

    /** The transfer time between two stops: the fixed time at the same stop, `uint.MaxValue` elsewhere. */
    function TimeBetween(from: Stop, to: Stop): (r: UInt32)
      ensures from.id == to.id ==> r == internalTransferTime
      ensures from.id != to.id ==> r == UINT_MAX
    {
      if from.id == to.id then internalTransferTime else UINT_MAX
    }

    /** `TimesBetween(from, to)`: the default batch over the target stops. */
    method TimesBetween(from: Stop, to: seq<Stop>) returns (r: Result<TimesTable>)
      ensures r.Success? <==> DistinctKeys(OtherModeExtensions.Reachable(s => TimeBetween(from, s), to))
      ensures r.Success? ==> r.value == OtherModeExtensions.Reachable(s => TimeBetween(from, s), to)
      ensures r.Success? ==> forall e :: e in r.value ==> e.0 == from.id && e.1 == internalTransferTime
      ensures r.Success? && internalTransferTime != UINT_MAX ==>
        forall s :: s in to && s.id == from.id ==> (from.id, internalTransferTime) in r.value
      ensures internalTransferTime == UINT_MAX ==> r == Success([])
    {
      r := OtherModeExtensions.DefaultTimesBetween(s => TimeBetween(from, s), to);
      SameStopOnly(from, to, false);
    }

    /** `TimesBetween(from, to)` with many origins and one target, keyed by the origins. */
    method TimesBetweenInto(from: seq<Stop>, to: Stop) returns (r: Result<TimesTable>)
      ensures r.Success? <==> DistinctKeys(OtherModeExtensions.Reachable(s => TimeBetween(s, to), from))
      ensures r.Success? ==> r.value == OtherModeExtensions.Reachable(s => TimeBetween(s, to), from)
      ensures r.Success? ==> forall e :: e in r.value ==> e.0 == to.id && e.1 == internalTransferTime
      ensures internalTransferTime == UINT_MAX ==> r == Success([])
    {
      r := OtherModeExtensions.DefaultTimesBetween(s => TimeBetween(s, to), from);
      SameStopOnly(to, from, true);
    }

    /** Only the origin's own stop id is reachable, always at the fixed time, and nothing if that time is `uint.MaxValue`. */
    lemma SameStopOnly(at: Stop, others: seq<Stop>, reversed: bool)
      ensures var f := if reversed then (s: Stop) => TimeBetween(s, at) else (s: Stop) => TimeBetween(at, s);
        (forall e :: e in OtherModeExtensions.Reachable(f, others) ==> e.0 == at.id && e.1 == internalTransferTime)
        && (internalTransferTime != UINT_MAX ==>
              forall s :: s in others && s.id == at.id ==> (at.id, internalTransferTime) in OtherModeExtensions.Reachable(f, others))
        && (internalTransferTime == UINT_MAX ==> OtherModeExtensions.Reachable(f, others) == [])
    {
      var f := if reversed then (s: Stop) => TimeBetween(s, at) else (s: Stop) => TimeBetween(at, s);
      OtherModeExtensions.ReachableMembers(f, others);
      if internalTransferTime == UINT_MAX && OtherModeExtensions.Reachable(f, others) != [] {
        assert OtherModeExtensions.Reachable(f, others)[0] in OtherModeExtensions.Reachable(f, others);
      }
    }

    /** `Range`: in-station transfers cover no distance; nothing but the stop itself is reachable. */
    function Range(): (r: real)
      ensures r == 0.0
      ensures forall a, b :: TimeBetween(a, b) != UINT_MAX ==> a.id == b.id
    {
      0.0
    }

    /** `OtherModeIdentifier`: the prefix followed by the transfer time in decimal. */
    function OtherModeIdentifier(): (r: string)
      ensures |r| > |IDENTIFIER_PREFIX| && r[..|IDENTIFIER_PREFIX|] == IDENTIFIER_PREFIX
      ensures AllDigits(r[|IDENTIFIER_PREFIX|..]) && DecimalValue(r[|IDENTIFIER_PREFIX|..]) == internalTransferTime
    {
      var digits := Decimal(internalTransferTime);
      DecimalRoundTrip(internalTransferTime);
      assert (IDENTIFIER_PREFIX + digits)[|IDENTIFIER_PREFIX|..] == digits;
      IDENTIFIER_PREFIX + digits
    }

    /** `GetSource`: the generator answers for every pair of stops itself. */
    function GetSource(from: StopId, to: StopId): (r: InternalTransferGenerator)
      ensures forall a, b :: r.TimeBetween(a, b) == TimeBetween(a, b)
      ensures r.OtherModeIdentifier() == OtherModeIdentifier()
    {
      this
    }
  }

  /** Two generators with the same identifier have the same transfer time. */
  lemma IdentifierDeterminesTime(g: InternalTransferGenerator, h: InternalTransferGenerator)
    requires g.OtherModeIdentifier() == h.OtherModeIdentifier()
    ensures g == h
  {
    var p := |IDENTIFIER_PREFIX|;
    assert g.OtherModeIdentifier()[p..] == h.OtherModeIdentifier()[p..];
  }

  function Digit(d: nat): (c: char)
    requires d < 10
  {
    "0123456789"[d]
  }

  /** The decimal text of `n`, most significant digit first, without leading zeros. */
  function Decimal(n: nat): (s: string)
    ensures |s| > 0
    decreases n
  {
    if n < 10 then [Digit(n)] else Decimal(n / 10) + [Digit(n % 10)]
  }

  predicate AllDigits(s: string) {
    forall k :: 0 <= k < |s| ==> '0' <= s[k] <= '9'
  }

  /** The number a string of decimal digits denotes. */
  function DecimalValue(s: string): nat
    requires AllDigits(s)
    decreases |s|
  {
    if s == [] then 0 else 10 * DecimalValue(s[..|s| - 1]) + (s[|s| - 1] as int - '0' as int)
  }

  lemma {:induction false} DecimalRoundTrip(n: nat)
    ensures AllDigits(Decimal(n)) && DecimalValue(Decimal(n)) == n
    decreases n
  {
    if n >= 10 {
      DecimalRoundTrip(n / 10);
      var s := Decimal(n);
      assert s[..|s| - 1] == Decimal(n / 10);
    }
  }
}
