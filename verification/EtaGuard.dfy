/** The monotonic arrival guard of internal/eta/service.go. */
module EtaGuard {
  /** A call: the trip it is about and the freshly computed arrival. */
  datatype Call = Call(trip: string, raw: int)

  function GuardOf(last: map<string, int>, regress: int, c: Call): int {
    if c.trip in last && c.raw < last[c.trip] - regress then last[c.trip] - regress else c.raw
  }

  class Guard {
    const regress: int // guardMaxRegress, as a duration
    var lastETA: map<string, int>

    constructor (minutes: int, minute: int)
      requires minute > 0
      ensures regress == (if minutes <= 0 then 5 else minutes) * minute && regress > 0 && lastETA == map[]
    {
      var m := if minutes <= 0 then 5 else minutes;
      assert m * minute > 0;
      regress := m * minute;
      lastETA := map[];
    }

    method Apply(trip: string, newArrival: int) returns (arrival: int)
      modifies this
      ensures arrival == GuardOf(old(lastETA), regress, Call(trip, newArrival))
      ensures lastETA == old(lastETA)[trip := arrival]
    {
      if trip !in lastETA {
        lastETA := lastETA[trip := newArrival];
        return newArrival;
      }
      var earliestAllowed := lastETA[trip] - regress;
      if newArrival < earliestAllowed {
        lastETA := lastETA[trip := earliestAllowed];
        return earliestAllowed;
      }
      lastETA := lastETA[trip := newArrival];
      return newArrival;
    }
  }

  // ---------- runs ----------

  /** The guard's memory after a sequence of calls. */
  function After(regress: int, calls: seq<Call>): map<string, int> {
    if calls == [] then map[]
    else
      var last, c := After(regress, calls[..|calls| - 1]), calls[|calls| - 1];
      last[c.trip := GuardOf(last, regress, c)]
  }

  /** The raw arrivals of one trip, in order. */
  function RawOf(calls: seq<Call>, trip: string): seq<int> {
    if calls == [] then []
    else
      var c := calls[|calls| - 1];
      RawOf(calls[..|calls| - 1], trip) + if c.trip == trip then [c.raw] else []
  }

  /** Max over k of raw[k] minus regress for every call after k. */
  function Envelope(regress: int, raw: seq<int>): int
    requires raw != []
  {
    var r := raw[|raw| - 1];
    if |raw| == 1 then r
    else
      var e := Envelope(regress, raw[..|raw| - 1]) - regress;
      if r < e then e else r
  }

  /** Whatever other trips do in between, a trip's guarded arrival depends on its own raw arrivals only. */
  lemma {:induction false} GuardIsEnvelope(regress: int, calls: seq<Call>, trip: string)
    ensures trip in After(regress, calls) <==> RawOf(calls, trip) != []
    ensures trip in After(regress, calls) ==> After(regress, calls)[trip] == Envelope(regress, RawOf(calls, trip))
  {
    if calls != [] {
      var before, c := calls[..|calls| - 1], calls[|calls| - 1];
      GuardIsEnvelope(regress, before, trip);
      var raw := RawOf(before, trip);
      if c.trip == trip {
        assert RawOf(calls, trip) == raw + [c.raw] && (raw + [c.raw])[..|raw|] == raw;
      } else {
        assert RawOf(calls, trip) == raw + [] == raw;
      }
    }
  }

  /** Arrival k less the allowance for every call since. */
  function Lowered(regress: int, raw: seq<int>, k: int): int
    requires 0 <= k < |raw|
  {
    raw[k] - (|raw| - 1 - k) * regress
  }

  lemma LoweredOnce(regress: int, raw: seq<int>, k: int)
    requires 0 <= k < |raw| - 1
    ensures Lowered(regress, raw, k) == Lowered(regress, raw[..|raw| - 1], k) - regress
  {
    assert (|raw| - 1 - k) * regress == (|raw| - 2 - k) * regress + regress;
  }

  /** The envelope is the maximum of the lowered arrivals: an upper bound, and attained. */
  lemma {:induction false} EnvelopeIsMaximum(regress: int, raw: seq<int>)
    requires raw != []
    ensures forall k | 0 <= k < |raw| :: Lowered(regress, raw, k) <= Envelope(regress, raw)
    ensures exists k :: 0 <= k < |raw| && Lowered(regress, raw, k) == Envelope(regress, raw)
  {
    var n := |raw|;
    assert Lowered(regress, raw, n - 1) == raw[n - 1];
    if n > 1 {
      var before := raw[..n - 1];
      EnvelopeIsMaximum(regress, before);
      forall k | 0 <= k < n - 1
        ensures Lowered(regress, raw, k) <= Envelope(regress, before) - regress
      {
        LoweredOnce(regress, raw, k);
      }
      var k :| 0 <= k < n - 1 && Lowered(regress, before, k) == Envelope(regress, before);
      LoweredOnce(regress, raw, k);
    }
  }

  /** The guarded arrivals of a trip along its raw ones. */
  function Guarded(regress: int, raw: seq<int>): seq<int> {
    if raw == [] then [] else Guarded(regress, raw[..|raw| - 1]) + [Envelope(regress, raw)]
  }

  /** `g` stays at or above the raw arrivals and never falls by more than regress per call. */
  ghost predicate Admissible(regress: int, raw: seq<int>, g: seq<int>) {
    && |g| == |raw|
    && (forall k | 0 <= k < |raw| :: g[k] >= raw[k])
    && (forall k | 1 <= k < |raw| :: g[k] >= g[k - 1] - regress)
  }

  lemma {:induction false} GuardedAdmissible(regress: int, raw: seq<int>)
    ensures Admissible(regress, raw, Guarded(regress, raw))
    ensures raw != [] ==> Guarded(regress, raw)[|raw| - 1] == Envelope(regress, raw)
  {
    if raw != [] { GuardedAdmissible(regress, raw[..|raw| - 1]); }
  }

  lemma AdmissiblePrefix(regress: int, raw: seq<int>, g: seq<int>, n: nat)
    requires Admissible(regress, raw, g) && n <= |raw|
    ensures Admissible(regress, raw[..n], g[..n])
  {
  }

  lemma {:induction false} GuardedLeast(regress: int, raw: seq<int>, g: seq<int>)
    requires Admissible(regress, raw, g)
    ensures |Guarded(regress, raw)| == |raw| && forall k | 0 <= k < |raw| :: Guarded(regress, raw)[k] <= g[k]
  {
    if raw != [] {
      var n := |raw| - 1;
      AdmissiblePrefix(regress, raw, g, n);
      GuardedLeast(regress, raw[..n], g[..n]);
      GuardedAdmissible(regress, raw[..n]);
      if n > 0 { assert Guarded(regress, raw[..n])[n - 1] <= g[n - 1]; }
    }
  }

  /** The guard gives the least admissible sequence: it is admissible, and below every other one. */
  lemma {:induction false} GuardIsLeastAdmissible(regress: int, raw: seq<int>, g: seq<int>)
    ensures Admissible(regress, raw, Guarded(regress, raw))
    ensures raw != [] ==> Guarded(regress, raw)[|raw| - 1] == Envelope(regress, raw)
    ensures Admissible(regress, raw, g) ==> forall k | 0 <= k < |raw| :: Guarded(regress, raw)[k] <= g[k]
  {
    GuardedAdmissible(regress, raw);
    if Admissible(regress, raw, g) { GuardedLeast(regress, raw, g); }
  }
}
