/**
 * The state of a vehicle and its events, read off the readings alone: gaps, trip ends, the
 * odometer, the smoothed level, the current stop, and from them when each kind of event is
 * raised.  Every stream starts with a new vehicle.
 */
module FuelStream {
  import opened Common
  import opened Smoothing
  import opened FuelEngine
  import opened FuelLedger

  /** What does not change about a vehicle. */
  datatype Tank = Tank(fitted: bool, capacity: real, inLitres: bool)

  /** The vehicle after a stream of readings. */
  function Now(c: Config, k: Tank, rs: seq<Reading>): (v: Vehicle)
    requires c.medianWindow >= 1
    ensures Sound(c, v)
  {
    Stream(c, Fresh(k.fitted, k.capacity, k.inLitres), rs)
  }

  lemma NowNext(c: Config, k: Tank, past: seq<Reading>, r: Reading)
    requires c.medianWindow >= 1
    ensures Now(c, k, past + [r]) == After(c, Now(c, k, past), r)
  {
    assert (past + [r])[..|past|] == past;
  }

  // ---------- what only the gates change ----------

  /** u differs from v at most in what the level is about. */
  predicate SameGates(v: Vehicle, u: Vehicle) {
    && (u.sensorFitted, u.tankCapacity, u.inLitres) == (v.sensorFitted, v.tankCapacity, v.inLitres)
    && (u.lastTs, u.tripID, u.tripActive, u.lastOdometer) == (v.lastTs, v.tripID, v.tripActive, v.lastOdometer)
  }

  lemma DetectKeepsGates(c: Config, v: Vehicle, s: Snapshot, odoBefore: real, smoothed: real)
    requires v.lastLevel.Some? && v.baseline.Some?
    ensures SameGates(v, DetectStage(c, v, s, odoBefore, smoothed).0)
  {
  }

  lemma LevelKeepsGates(c: Config, v: Vehicle, s: Snapshot, odoBefore: real)
    requires (v.lastLevel.Some? <==> v.baseline.Some?) && c.medianWindow >= 1
    ensures SameGates(v, LevelStage(c, v, s, odoBefore).0)
  {
    if v.lastLevel.Some? && Measures(v) && !Held(c, v.window, v.pendingSpike, LitresOf(v, s)) {
      var w := NewWindow(c, v.window, v.pendingSpike, LitresOf(v, s));
      LevelCase(c, v, s, odoBefore);
      DetectKeepsGates(c, v.(window := w, pendingSpike := None), s, odoBefore, Median(w));
    }
  }

  lemma GatesOnly(c: Config, v: Vehicle, r: Reading)
    requires Sound(c, v)
    ensures var u := Prepared(c, v, r.s, r.warmup);
            && u.lastOdometer == v.lastOdometer
            && (u.sensorFitted, u.tankCapacity, u.inLitres) == (v.sensorFitted, v.tankCapacity, v.inLitres)
            && if Rejected(c, v, r) then After(c, v, r) == u else SameGates(OdoStage(u, r.s), After(c, v, r))
  {
    PreparedFacts(c, v, r.s, r.warmup);
    var u := Prepared(c, v, r.s, r.warmup);
    if !Rejected(c, v, r) {
      PassesGates(c, v, r, u);
      LevelKeepsGates(c, OdoStage(u, r.s), r.s, u.lastOdometer);
    }
  }

  lemma {:induction false} SameTank(c: Config, k: Tank, rs: seq<Reading>)
    requires c.medianWindow >= 1
    ensures var v := Now(c, k, rs); (v.sensorFitted, v.tankCapacity, v.inLitres) == (k.fitted, k.capacity, k.inLitres)
  {
    if rs != [] {
      SameTank(c, k, rs[..|rs| - 1]);
      GatesOnly(c, Now(c, k, rs[..|rs| - 1]), rs[|rs| - 1]);
    }
  }

  // ---------- gaps ----------

  /** A live reading later than every dated one before it by more than the tolerance. */
  ghost predicate GapBefore(c: Config, past: seq<Reading>, r: Reading) {
    && !r.warmup && (exists i :: 0 <= i < |past| && past[i].s.ts > 0.0)
    && forall i | 0 <= i < |past| && past[i].s.ts > 0.0 :: r.s.ts - past[i].s.ts > c.gapTolerance
  }

  ghost predicate IsLatest(rs: seq<Reading>, t: real) {
    && t >= 0.0 && (forall i | 0 <= i < |rs| :: rs[i].s.ts <= t)
    && (t > 0.0 ==> exists i :: 0 <= i < |rs| && rs[i].s.ts == t)
  }

  lemma LatestNext(past: seq<Reading>, r: Reading, t: real)
    requires IsLatest(past, t)
    ensures IsLatest(past + [r], if r.s.ts > t then r.s.ts else t)
  {
    var all := past + [r];
    assert all[|past|] == r;
    if t > 0.0 {
      var i :| 0 <= i < |past| && past[i].s.ts == t;
      assert all[i].s.ts == t;
    }
  }

  lemma {:induction false} Watermark(c: Config, k: Tank, rs: seq<Reading>)
    requires c.medianWindow >= 1
    ensures IsLatest(rs, Now(c, k, rs).lastTs)
  {
    if rs != [] {
      var past, r := rs[..|rs| - 1], rs[|rs| - 1];
      Watermark(c, k, past);
      GatesOnly(c, Now(c, k, past), r);
      LatestNext(past, r, Now(c, k, past).lastTs);
      assert rs == past + [r];
    }
  }

  lemma GapExactly(c: Config, k: Tank, past: seq<Reading>, r: Reading)
    requires c.medianWindow >= 1
    ensures Gap(c, Now(c, k, past), r.s, r.warmup) <==> GapBefore(c, past, r)
  {
    Watermark(c, k, past);
    var t := Now(c, k, past).lastTs;
    if t > 0.0 {
      var i :| 0 <= i < |past| && past[i].s.ts == t;
      assert past[i].s.ts > 0.0;
    }
  }

  // ---------- trips ----------

  /** On a trip in one of the states before completion, or between trips. */
  predicate OnTrip(s: Snapshot) {
    s.tripID == "" || s.status in {"scheduled", "assigned", "started", "in_transit", "delivered"}
  }

  /** The trip of the reading before ends. */
  predicate EndsTrip(past: seq<Reading>, r: Reading) {
    past != [] && OnTrip(past[|past| - 1].s) && !OnTrip(r.s) && past[|past| - 1].s.tripID == r.s.tripID
  }

  lemma TripEndsExactly(c: Config, k: Tank, past: seq<Reading>, r: Reading)
    requires c.medianWindow >= 1
    ensures TripEnds(Now(c, k, past), r.s) <==> EndsTrip(past, r)
    ensures ActiveAt(r.s) <==> OnTrip(r.s)
  {
    if past != [] { GatesOnly(c, Now(c, k, past[..|past| - 1]), past[|past| - 1]); }
  }

  // ---------- the odometer ----------

  /** Behind the last odometer value by more than the tolerance. */
  predicate Backwards(c: Config, km: real, r: Reading) {
    r.s.odometer > 0.0 && km > 0.0 && km - r.s.odometer > c.odoTolerance
  }

  /** A rollback that cannot be written stops the reading. */
  predicate TurnedAway(c: Config, km: real, r: Reading) { Backwards(c, km, r) && !r.odoCommits }

  /** The last odometer value, of the readings not turned away. */
  function Km(c: Config, rs: seq<Reading>): real {
    if rs == [] then 0.0
    else
      var km, r := Km(c, rs[..|rs| - 1]), rs[|rs| - 1];
      if r.s.odometer > 0.0 && !TurnedAway(c, km, r) then r.s.odometer else km
  }

  lemma {:induction false} OdometerIsKm(c: Config, k: Tank, rs: seq<Reading>)
    requires c.medianWindow >= 1
    ensures Now(c, k, rs).lastOdometer == Km(c, rs)
  {
    if rs != [] {
      var past, r := rs[..|rs| - 1], rs[|rs| - 1];
      OdometerIsKm(c, k, past);
      GatesOnly(c, Now(c, k, past), r);
      PreparedFacts(c, Now(c, k, past), r.s, r.warmup);
    }
  }

  /** A rollback is seen exactly against the last odometer value, and stops the reading exactly when it cannot be written. */
  lemma RollbackExactly(c: Config, k: Tank, past: seq<Reading>, r: Reading)
    requires c.medianWindow >= 1
    ensures var o := PipelineOf(c, Now(c, k, past), r.s, r.warmup, r.odoCommits, r.commits).1;
            && (o.RollbackUnwritten? <==> TurnedAway(c, Km(c, past), r))
            && (o.Ok? ==> (o.rollback <==> Backwards(c, Km(c, past), r)))
    ensures Rejected(c, Now(c, k, past), r) <==> TurnedAway(c, Km(c, past), r)
  {
    OdometerIsKm(c, k, past);
    PreparedFacts(c, Now(c, k, past), r.s, r.warmup);
  }

  // ---------- the smoothed level ----------

  function LitresAt(k: Tank, r: Reading): real { Litres(k.inLitres, k.capacity, r.s.fuelLevel) }

  /** The reading gets as far as the level. */
  predicate Measured(c: Config, k: Tank, past: seq<Reading>, r: Reading) {
    k.fitted && k.capacity > 0.0 && !TurnedAway(c, Km(c, past), r)
  }

  function Newest(w: seq<real>, n: nat): seq<real> { if |w| <= n then w else w[|w| - n..] }

  /** Away from the median of the newest readings by more than the spike percentage. */
  predicate Off(c: Config, w: seq<real>, x: real)
    requires c.medianWindow >= 1
  {
    w != [] &&
    var m := Median(Newest(w, c.medianWindow));
    if m < 0.000000001 then x > 0.000000001
    else x - m > c.spikePct / 100.0 * m || m - x > c.spikePct / 100.0 * m
  }

  /** The readings since the last gap, oldest first, and whether the newest is held back.  A held one outlives the gap. */
  datatype Tape = Tape(readings: seq<real>, held: bool)

  ghost function TapeOf(c: Config, k: Tank, rs: seq<Reading>): (t: Tape)
    requires c.medianWindow >= 1
    ensures t.held ==> t.readings != []
  {
    if rs == [] then Tape([], false)
    else
      var past, r := rs[..|rs| - 1], rs[|rs| - 1];
      var t := Spliced(c, past, r, TapeOf(c, k, past));
      if Measured(c, k, past, r) then Tape(t.readings + [LitresAt(k, r)], !t.held && Off(c, t.readings, LitresAt(k, r)))
      else t
  }

  ghost function Spliced(c: Config, past: seq<Reading>, r: Reading, t: Tape): (u: Tape)
    requires t.held ==> t.readings != []
    ensures u.held == t.held && (u.held ==> u.readings != [])
  {
    if !GapBefore(c, past, r) then t
    else t.(readings := if t.held then [t.readings[|t.readings| - 1]] else [])
  }

  /** The readings smoothed: a held one waits. */
  function Settled(t: Tape): seq<real>
    requires t.held ==> t.readings != []
  {
    if t.held then t.readings[..|t.readings| - 1] else t.readings
  }

  ghost predicate OnTape(c: Config, v: Vehicle, t: Tape)
    requires t.held ==> t.readings != []
  {
    && v.window == Newest(Settled(t), c.medianWindow)
    && v.pendingSpike == if t.held then Some(t.readings[|t.readings| - 1]) else None
  }

  lemma Quotient(d: real, m: real, p: real)
    requires m > 0.0
    ensures d / m > p <==> d > p * m
  {
    var x := d / m;
    assert x * m == d;
    if x > p { assert (x - p) * m > 0.0; } else { assert (p - x) * m >= 0.0; }
  }

  lemma DeviatesExactly(x: real, m: real, pct: real)
    ensures Deviates(x, m, pct) <==>
            if m < 0.000000001 then x > 0.000000001 else x - m > pct / 100.0 * m || m - x > pct / 100.0 * m
  {
    if m >= 0.000000001 {
      var bound := pct / 100.0 * m;
      Quotient(Abs(x - m), m, pct / 100.0);
      assert Abs(x - m) > bound <==> x - m > bound || m - x > bound by { PositiveBound(x - m, bound); }
    }
  }

  lemma PositiveBound(d: real, b: real)
    ensures Abs(d) > b <==> d > b || -d > b
  {
  }

  lemma NewestOfNewest(w: seq<real>, more: seq<real>, n: nat)
    ensures LastN(Newest(w, n) + more, n) == Newest(w + more, n)
  {
    var all := w + more;
    if |w| > n { assert Newest(w, n) + more == all[|w| - n..]; }
  }

  /** The gates splice the tape at a gap. */
  lemma PreparedOnTape(c: Config, k: Tank, past: seq<Reading>, r: Reading, v: Vehicle, t: Tape)
    requires c.medianWindow >= 1 && v == Now(c, k, past) && (t.held ==> t.readings != []) && OnTape(c, v, t)
    ensures OnTape(c, Prepared(c, v, r.s, r.warmup), Spliced(c, past, r, t))
  {
    PreparedFacts(c, v, r.s, r.warmup);
    GapExactly(c, k, past, r);
  }

  lemma HeldExactly(c: Config, u: Vehicle, t: Tape, x: real)
    requires c.medianWindow >= 1 && (t.held ==> t.readings != []) && OnTape(c, u, t)
    ensures Held(c, u.window, u.pendingSpike, x) <==> !t.held && Off(c, t.readings, x)
  {
    if !t.held && t.readings != [] { DeviatesExactly(x, Median(u.window), c.spikePct); }
  }

  lemma WindowExactly(c: Config, u: Vehicle, t: Tape, x: real)
    requires c.medianWindow >= 1 && (t.held ==> t.readings != []) && OnTape(c, u, t)
    ensures NewWindow(c, u.window, u.pendingSpike, x) == Newest(t.readings + [x], c.medianWindow)
  {
    if t.held {
      var p := t.readings[|t.readings| - 1];
      NewestOfNewest(Settled(t), [p, x], c.medianWindow);
      assert u.window + [p] + [x] == u.window + [p, x] && Settled(t) + [p, x] == t.readings + [x];
    } else {
      NewestOfNewest(t.readings, [x], c.medianWindow);
    }
  }

  /** The reading is smoothed and looked at. */
  ghost predicate Looked(c: Config, k: Tank, past: seq<Reading>, r: Reading)
    requires c.medianWindow >= 1
  {
    Measured(c, k, past, r) && !TapeOf(c, k, past + [r]).held
  }

  /** The smoothed level: the median of the newest readings since the last gap when the last reading was looked at. */
  ghost function LevelOf(c: Config, k: Tank, rs: seq<Reading>): Option<real>
    requires c.medianWindow >= 1
  {
    if rs == [] then None
    else
      var past, r := rs[..|rs| - 1], rs[|rs| - 1];
      var t := TapeOf(c, k, rs);
      if Measured(c, k, past, r) && !t.held then Some(Median(Newest(t.readings, c.medianWindow))) else LevelOf(c, k, past)
  }

  lemma TapeNext(c: Config, k: Tank, past: seq<Reading>, r: Reading)
    requires c.medianWindow >= 1
    ensures var t, x := Spliced(c, past, r, TapeOf(c, k, past)), LitresAt(k, r);
            TapeOf(c, k, past + [r]) ==
              if Measured(c, k, past, r) then Tape(t.readings + [x], !t.held && Off(c, t.readings, x)) else t
    ensures LevelOf(c, k, past + [r]) ==
            if Looked(c, k, past, r) then Some(Median(Newest(TapeOf(c, k, past + [r]).readings, c.medianWindow)))
            else LevelOf(c, k, past)
  {
    assert (past + [r])[..|past|] == past;
  }

  ghost predicate Smooth(c: Config, k: Tank, v: Vehicle, rs: seq<Reading>)
    requires c.medianWindow >= 1
  {
    && OnTape(c, v, TapeOf(c, k, rs)) && v.lastLevel == LevelOf(c, k, rs)
    && (v.lastLevel.None? ==> TapeOf(c, k, rs).readings == [])
  }

  lemma FirstStage(c: Config, v: Vehicle, s: Snapshot, odoBefore: real)
    requires v.lastLevel.None? && v.baseline.None? && c.medianWindow >= 1
    ensures LevelStage(c, v, s, odoBefore) == if Measures(v) then (FirstReading(c, v, s), []) else (v, [])
  {
  }

  /** Before there is a level, a reading only sets it. */
  lemma FirstAfter(c: Config, v: Vehicle, r: Reading, u: Vehicle, o: Vehicle)
    requires Sound(c, v) && v.lastLevel.None? && u == Prepared(c, v, r.s, r.warmup) && o == OdoStage(u, r.s)
    ensures EventsOf(c, v, r) == []
    ensures After(c, v, r) == if Rejected(c, v, r) then u else if Measures(v) then FirstReading(c, o, r.s) else o
  {
    PreparedFacts(c, v, r.s, r.warmup);
    if !Rejected(c, v, r) {
      PassesGates(c, v, r, u);
      FirstStage(c, o, r.s, u.lastOdometer);
    }
  }

  lemma FirstOnTape(c: Config, k: Tank, u: Vehicle, s: Snapshot, x: real)
    requires c.medianWindow >= 1 && OnTape(c, u, Tape([], false)) && LitresOf(u, s) == x
    ensures OnTape(c, FirstReading(c, u, s), Tape([x], false))
    ensures Median(Newest([x], c.medianWindow)) == x
  {
    assert Sorted([x]) == [x];
    assert [] + [x] == [x];
  }

  /** What a first reading meets. */
  lemma FirstMeets(c: Config, k: Tank, past: seq<Reading>, r: Reading, v: Vehicle)
    requires c.medianWindow >= 1 && v == Now(c, k, past) && Smooth(c, k, v, past) && v.lastLevel.None?
    ensures var u := Prepared(c, v, r.s, r.warmup);
            && OnTape(c, u, Tape([], false)) && u.lastLevel.None? && LitresOf(u, r.s) == LitresAt(k, r)
            && Spliced(c, past, r, TapeOf(c, k, past)) == Tape([], false)
            && (!Rejected(c, v, r) && Measures(v) <==> Measured(c, k, past, r))
  {
    RollbackExactly(c, k, past, r);
    SameTank(c, k, past);
    PreparedFacts(c, v, r.s, r.warmup);
    PreparedOnTape(c, k, past, r, v, TapeOf(c, k, past));
  }

  /** The first reading that is measured sets the level. */
  lemma FirstIsLooked(c: Config, k: Tank, past: seq<Reading>, r: Reading)
    requires c.medianWindow >= 1 && Smooth(c, k, Now(c, k, past), past) && Now(c, k, past).lastLevel.None?
    ensures Smooth(c, k, Now(c, k, past + [r]), past + [r])
    ensures Looked(c, k, past, r) <==> Measured(c, k, past, r)
    ensures EventsOf(c, Now(c, k, past), r) == []
  {
    var v := Now(c, k, past);
    var u := Prepared(c, v, r.s, r.warmup);
    NowNext(c, k, past, r);
    TapeNext(c, k, past, r);
    FirstMeets(c, k, past, r, v);
    FirstAfter(c, v, r, u, OdoStage(u, r.s));
    if Measured(c, k, past, r) {
      assert [] + [LitresAt(k, r)] == [LitresAt(k, r)];
      FirstOnTape(c, k, OdoStage(u, r.s), r.s, LitresAt(k, r));
    }
  }

  lemma DetectKeepsWindow(c: Config, v: Vehicle, s: Snapshot, odoBefore: real, smoothed: real)
    requires v.lastLevel.Some? && v.baseline.Some?
    ensures var u := DetectStage(c, v, s, odoBefore, smoothed).0;
            u.window == v.window && u.pendingSpike == v.pendingSpike && u.lastLevel == v.lastLevel
  {
  }

  /** A reading that is not measured leaves window, held reading and level as the gates left them. */
  lemma UnmeasuredKeeps(c: Config, v: Vehicle, r: Reading, u: Vehicle)
    requires Sound(c, v) && u == Prepared(c, v, r.s, r.warmup) && (Rejected(c, v, r) || !Measures(v))
    ensures var t := After(c, v, r);
            (t.window, t.pendingSpike, t.lastLevel, t.baseline, t.stopStart, t.refillPending) ==
            (u.window, u.pendingSpike, u.lastLevel, u.baseline, u.stopStart, u.refillPending) && EventsOf(c, v, r) == []
  {
    PreparedFacts(c, v, r.s, r.warmup);
    if !Rejected(c, v, r) { PassesGates(c, v, r, u); }
  }

  /** A held reading is kept aside. */
  lemma HeldKeeps(c: Config, v: Vehicle, r: Reading, u: Vehicle)
    requires Sound(c, v) && v.lastLevel.Some? && u == Prepared(c, v, r.s, r.warmup)
    requires !Rejected(c, v, r) && Measures(v) && Held(c, u.window, u.pendingSpike, LitresOf(v, r.s))
    ensures var t := After(c, v, r);
            (t.window, t.pendingSpike, t.lastLevel, t.baseline, t.stopStart, t.refillPending) ==
            (u.window, Some(LitresOf(v, r.s)), u.lastLevel, u.baseline, u.stopStart, u.refillPending) && EventsOf(c, v, r) == []
  {
    PreparedFacts(c, v, r.s, r.warmup);
    PassesGates(c, v, r, u);
  }

  /** What detection leaves of window, held reading and level. */
  lemma DetectedKeeps(c: Config, v: Vehicle, r: Reading)
    requires Sound(c, v) && Detects(c, v, r)
    ensures var t := After(c, v, r);
            (t.window, t.pendingSpike, t.lastLevel) == (WindowAt(c, v, r), None, Some(Smoothed(c, v, r)))
  {
    DetectCase(c, v, r);
    DetectKeepsWindow(c, ToDetect(c, v, r), r.s, v.lastOdometer, Smoothed(c, v, r));
  }

  /** When a reading goes to detection, and with which window. */
  lemma LookedExactly(c: Config, k: Tank, past: seq<Reading>, r: Reading)
    requires c.medianWindow >= 1 && Smooth(c, k, Now(c, k, past), past) && Now(c, k, past).lastLevel.Some?
    ensures var v := Now(c, k, past);
            && (Detects(c, v, r) <==> Looked(c, k, past, r))
            && (Detects(c, v, r) ==> WindowAt(c, v, r) == Newest(TapeOf(c, k, past + [r]).readings, c.medianWindow))
            && (Rejected(c, v, r) || !Measures(v) <==> !Measured(c, k, past, r)) && LitresOf(v, r.s) == LitresAt(k, r)
  {
    var v, t := Now(c, k, past), Spliced(c, past, r, TapeOf(c, k, past));
    var u := Prepared(c, v, r.s, r.warmup);
    TapeNext(c, k, past, r);
    RollbackExactly(c, k, past, r);
    SameTank(c, k, past);
    PreparedOnTape(c, k, past, r, v, TapeOf(c, k, past));
    HeldExactly(c, u, t, LitresAt(k, r));
    WindowExactly(c, u, t, LitresAt(k, r));
  }

  /** A later reading, with the state before it and the state past its gates. */
  ghost predicate Later(c: Config, k: Tank, past: seq<Reading>, r: Reading, v: Vehicle, u: Vehicle)
    requires c.medianWindow >= 1
  {
    v == Now(c, k, past) && v.lastLevel.Some? && Smooth(c, k, v, past) && u == Prepared(c, v, r.s, r.warmup)
  }

  lemma LookedIsSmooth(c: Config, k: Tank, past: seq<Reading>, r: Reading, v: Vehicle, u: Vehicle)
    requires c.medianWindow >= 1 && Later(c, k, past, r, v, u) && Looked(c, k, past, r)
    ensures Smooth(c, k, After(c, v, r), past + [r])
  {
    TapeNext(c, k, past, r);
    LookedExactly(c, k, past, r);
    DetectedKeeps(c, v, r);
  }

  lemma HeldIsSmooth(c: Config, k: Tank, past: seq<Reading>, r: Reading, v: Vehicle, u: Vehicle)
    requires c.medianWindow >= 1 && Later(c, k, past, r, v, u) && Measured(c, k, past, r) && !Looked(c, k, past, r)
    ensures Smooth(c, k, After(c, v, r), past + [r])
  {
    TapeNext(c, k, past, r);
    LookedExactly(c, k, past, r);
    PreparedFacts(c, v, r.s, r.warmup);
    PreparedOnTape(c, k, past, r, v, TapeOf(c, k, past));
    HeldKeeps(c, v, r, u);
    var t := Spliced(c, past, r, TapeOf(c, k, past));
    assert (t.readings + [LitresAt(k, r)])[..|t.readings|] == t.readings;
  }

  lemma UnmeasuredIsSmooth(c: Config, k: Tank, past: seq<Reading>, r: Reading, v: Vehicle, u: Vehicle)
    requires c.medianWindow >= 1 && Later(c, k, past, r, v, u) && !Measured(c, k, past, r)
    ensures Smooth(c, k, After(c, v, r), past + [r])
  {
    TapeNext(c, k, past, r);
    LookedExactly(c, k, past, r);
    PreparedFacts(c, v, r.s, r.warmup);
    PreparedOnTape(c, k, past, r, v, TapeOf(c, k, past));
    UnmeasuredKeeps(c, v, r, u);
  }

  lemma LaterIsSmooth(c: Config, k: Tank, past: seq<Reading>, r: Reading, v: Vehicle, u: Vehicle)
    requires c.medianWindow >= 1 && Later(c, k, past, r, v, u)
    ensures Smooth(c, k, After(c, v, r), past + [r])
  {
    if Looked(c, k, past, r) {
      LookedIsSmooth(c, k, past, r, v, u);
    } else if Measured(c, k, past, r) {
      HeldIsSmooth(c, k, past, r, v, u);
    } else {
      UnmeasuredIsSmooth(c, k, past, r, v, u);
    }
  }

  /**
   * Window, held reading and smoothed level are those of the readings since the last gap: the
   * newest ones form the window, and the level is their median.
   */
  lemma {:induction false} LevelIsTapeMedian(c: Config, k: Tank, rs: seq<Reading>)
    requires c.medianWindow >= 1
    ensures Smooth(c, k, Now(c, k, rs), rs)
  {
    if rs != [] {
      var past, r := rs[..|rs| - 1], rs[|rs| - 1];
      LevelIsTapeMedian(c, k, past);
      assert rs == past + [r];
      var v := Now(c, k, past);
      if v.lastLevel.None? {
        FirstIsLooked(c, k, past, r);
      } else {
        NowNext(c, k, past, r);
        LaterIsSmooth(c, k, past, r, v, Prepared(c, v, r.s, r.warmup));
      }
    }
  }

  // ---------- the current stop ----------

  predicate Still(c: Config, r: Reading) { -c.stopSpeed < r.s.speed < c.stopSpeed }

  /** Reading i does not end a stop that goes on before it. */
  ghost predicate Goes(c: Config, k: Tank, rs: seq<Reading>, i: nat)
    requires c.medianWindow >= 1 && i < |rs|
  {
    !GapBefore(c, rs[..i], rs[i]) && (Looked(c, k, rs[..i], rs[i]) ==> Still(c, rs[i]))
  }

  /** Standing from the dated reading j on: no gap since, and no moving reading that was looked at. */
  ghost predicate Stands(c: Config, k: Tank, rs: seq<Reading>, j: nat)
    requires c.medianWindow >= 1
  {
    && j < |rs| && Looked(c, k, rs[..j], rs[j]) && Still(c, rs[j]) && rs[j].s.ts != 0.0
    && forall i: nat | j < i < |rs| :: Goes(c, k, rs, i)
  }

  /** The stop began with reading j, and with none before. */
  ghost predicate StopsAt(c: Config, k: Tank, rs: seq<Reading>, j: nat)
    requires c.medianWindow >= 1
  {
    Stands(c, k, rs, j) && forall i: nat | i < j :: !Stands(c, k, rs, i)
  }

  /** t is the time the stop began at, zero when there is none. */
  ghost predicate StopIs(c: Config, k: Tank, rs: seq<Reading>, t: real)
    requires c.medianWindow >= 1
  {
    if t == 0.0 then forall j: nat :: !Stands(c, k, rs, j)
    else exists j: nat :: StopsAt(c, k, rs, j) && rs[j].s.ts == t
  }

  lemma StandsNext(c: Config, k: Tank, past: seq<Reading>, r: Reading, all: seq<Reading>, j: nat)
    requires c.medianWindow >= 1 && all == past + [r]
    ensures j < |past| ==> (Stands(c, k, all, j) <==> Stands(c, k, past, j) && Goes(c, k, all, |past|))
    ensures j == |past| ==> (Stands(c, k, all, j) <==> Looked(c, k, past, r) && Still(c, r) && r.s.ts != 0.0)
    ensures Goes(c, k, all, |past|) <==> !GapBefore(c, past, r) && (Looked(c, k, past, r) ==> Still(c, r))
  {
    assert all[..|past|] == past && all[|past|] == r;
    forall i: nat | i < |past|
      ensures all[..i] == past[..i] && all[i] == past[i]
    {
    }
    if j < |past| && Stands(c, k, all, j) {
      forall i: nat | j < i < |past|
        ensures Goes(c, k, past, i)
      {
        assert Goes(c, k, all, i);
      }
    }
    if j < |past| && Stands(c, k, past, j) && Goes(c, k, all, |past|) {
      forall i: nat | j < i < |all|
        ensures Goes(c, k, all, i)
      {
        if i < |past| { assert Goes(c, k, past, i); }
      }
    }
  }

  /** The time of the stop after one more reading. */
  ghost function StopNext(c: Config, k: Tank, past: seq<Reading>, r: Reading, t: real): real
    requires c.medianWindow >= 1
  {
    var kept := if GapBefore(c, past, r) then 0.0 else t;
    if !Looked(c, k, past, r) then kept else if !Still(c, r) then 0.0 else if kept == 0.0 then r.s.ts else kept
  }

  lemma StopIsNext(c: Config, k: Tank, past: seq<Reading>, r: Reading, all: seq<Reading>, t: real)
    requires c.medianWindow >= 1 && all == past + [r] && StopIs(c, k, past, t)
    ensures StopIs(c, k, all, StopNext(c, k, past, r, t))
  {
    forall j: nat
      ensures j < |past| ==> (Stands(c, k, all, j) <==> Stands(c, k, past, j) && Goes(c, k, all, |past|))
      ensures j == |past| ==> (Stands(c, k, all, j) <==> Looked(c, k, past, r) && Still(c, r) && r.s.ts != 0.0)
    {
      StandsNext(c, k, past, r, all, j);
    }
    StandsNext(c, k, past, r, all, |past|);
    var t' := StopNext(c, k, past, r, t);
    if t' != 0.0 {
      if Goes(c, k, all, |past|) && t != 0.0 {
        var j: nat :| StopsAt(c, k, past, j) && past[j].s.ts == t;
        assert StopsAt(c, k, all, j) && all[j].s.ts == t';
      } else {
        assert StopsAt(c, k, all, |past|) && all[|past|].s.ts == t';
      }
    }
  }

  lemma StillExactly(c: Config, r: Reading)
    ensures Stationary(c, r.s) <==> Still(c, r)
  {
  }

  lemma DetectStop(c: Config, v: Vehicle, s: Snapshot, odoBefore: real, smoothed: real)
    requires v.lastLevel.Some? && v.baseline.Some?
    ensures DetectStage(c, v, s, odoBefore, smoothed).0.stopStart == StopStart(c, v, s)
  {
  }

  /** The stop as detection finds it. */
  lemma DetectedStop(c: Config, v: Vehicle, r: Reading)
    requires Sound(c, v) && Detects(c, v, r)
    ensures After(c, v, r).stopStart == StopStart(c, Prepared(c, v, r.s, r.warmup), r.s)
    ensures StopStart(c, ToDetect(c, v, r), r.s) == StopStart(c, Prepared(c, v, r.s, r.warmup), r.s)
  {
    DetectCase(c, v, r);
    DetectStop(c, ToDetect(c, v, r), r.s, v.lastOdometer, Smoothed(c, v, r));
  }

  lemma StopAfter(c: Config, k: Tank, past: seq<Reading>, r: Reading)
    requires c.medianWindow >= 1 && (Now(c, k, past).lastLevel.None? ==> Now(c, k, past).stopStart == 0.0)
    ensures var t := Now(c, k, past + [r]);
            t.stopStart == StopNext(c, k, past, r, Now(c, k, past).stopStart) && (t.lastLevel.None? ==> t.stopStart == 0.0)
  {
    var v := Now(c, k, past);
    var u := Prepared(c, v, r.s, r.warmup);
    assert u.stopStart == if Gap(c, v, r.s, r.warmup) then 0.0 else v.stopStart;
    LevelIsTapeMedian(c, k, past);
    NowNext(c, k, past, r);
    GapExactly(c, k, past, r);
    StillExactly(c, r);
    if v.lastLevel.None? {
      FirstIsLooked(c, k, past, r);
      RollbackExactly(c, k, past, r);
      SameTank(c, k, past);
      FirstAfter(c, v, r, u, OdoStage(u, r.s));
    } else {
      LaterStop(c, k, past, r, v, u);
      StaysSound(c, v, r);
    }
  }

  lemma LaterStop(c: Config, k: Tank, past: seq<Reading>, r: Reading, v: Vehicle, u: Vehicle)
    requires c.medianWindow >= 1 && v == Now(c, k, past) && v.lastLevel.Some? && u == Prepared(c, v, r.s, r.warmup)
    requires Smooth(c, k, v, past)
    ensures After(c, v, r).stopStart == if Looked(c, k, past, r) then StopStart(c, u, r.s) else u.stopStart
  {
    LookedExactly(c, k, past, r);
    PreparedFacts(c, v, r.s, r.warmup);
    if Looked(c, k, past, r) {
      DetectedStop(c, v, r);
    } else if Measured(c, k, past, r) {
      HeldKeeps(c, v, r, u);
    } else {
      UnmeasuredKeeps(c, v, r, u);
    }
  }

  /** The stop is the one read off the stream. */
  lemma {:induction false} StopIsBlock(c: Config, k: Tank, rs: seq<Reading>)
    requires c.medianWindow >= 1
    ensures StopIs(c, k, rs, Now(c, k, rs).stopStart)
    ensures Now(c, k, rs).lastLevel.None? ==> Now(c, k, rs).stopStart == 0.0
  {
    if rs != [] {
      var past, r := rs[..|rs| - 1], rs[|rs| - 1];
      StopIsBlock(c, k, past);
      assert rs == past + [r];
      StopAfter(c, k, past, r);
      StopIsNext(c, k, past, r, rs, Now(c, k, past).stopStart);
    }
  }

  // ---------- which event is raised, and what it says ----------

  /** The level the fall is counted from: the baseline or, after a gap or a trip end, the last level. */
  function BaseOf(c: Config, k: Tank, past: seq<Reading>, r: Reading): real
    requires c.medianWindow >= 1 && Now(c, k, past).lastLevel.Some?
  {
    Prepared(c, Now(c, k, past), r.s, r.warmup).baseline.value
  }

  lemma BaseExactly(c: Config, k: Tank, past: seq<Reading>, r: Reading)
    requires c.medianWindow >= 1 && Now(c, k, past).lastLevel.Some?
    ensures Some(BaseOf(c, k, past, r)) ==
            if EndsTrip(past, r) || GapBefore(c, past, r) then LevelOf(c, k, past) else Now(c, k, past).baseline
  {
    TripEndsExactly(c, k, past, r);
    GapExactly(c, k, past, r);
    LevelIsTapeMedian(c, k, past);
    PreparedFacts(c, Now(c, k, past), r.s, r.warmup);
  }

  /** The stop this reading belongs to has lasted long enough for a siphon. */
  ghost predicate LongStop(c: Config, k: Tank, past: seq<Reading>, r: Reading)
    requires c.medianWindow >= 1
  {
    exists j: nat :: StopsAt(c, k, past + [r], j) && r.s.ts - (past + [r])[j].s.ts >= c.siphonStop
  }

  ghost predicate SiphonDue(c: Config, k: Tank, past: seq<Reading>, r: Reading, fall: real)
    requires c.medianWindow >= 1
  {
    OnTrip(r.s) && Still(c, r) && LongStop(c, k, past, r) && fall >= c.siphonL
  }

  ghost predicate TheftDue(c: Config, k: Tank, past: seq<Reading>, r: Reading, fall: real)
    requires c.medianWindow >= 1
  {
    OnTrip(r.s) && Still(c, r) && fall >= c.theftL && !(LongStop(c, k, past, r) && fall >= c.siphonL)
  }

  /** The litres the kilometres since the last odometer value explain, margin included. */
  function Burn(c: Config, km: real, r: Reading): real {
    if km > 0.0 && r.s.odometer > 0.0
    then (r.s.odometer - km) * c.abnormalLPerKm + (r.s.odometer - km) * c.abnormalLPerKm * c.abnormalMarginPct / 100.0
    else 0.0
  }

  predicate DrainDue(c: Config, past: seq<Reading>, r: Reading, fall: real) {
    !Still(c, r) && OnTrip(r.s) && r.s.status == "in_transit" && fall >= Burn(c, Km(c, past), r)
  }

  ghost predicate RefillDue(c: Config, k: Tank, past: seq<Reading>, r: Reading, fall: real)
    requires c.medianWindow >= 1
  {
    -fall >= c.refillL && !SiphonDue(c, k, past, r, fall) && !TheftDue(c, k, past, r, fall) && !DrainDue(c, past, r, fall)
  }

  lemma BurnExactly(c: Config, km: real, r: Reading)
    ensures ExpectedBurn(km, r.s.odometer, c) == Burn(c, km, r)
  {
    if km > 0.0 && r.s.odometer > 0.0 {
      var x := (r.s.odometer - km) * c.abnormalLPerKm;
      assert x * (1.0 + c.abnormalMarginPct / 100.0) == x + x * (c.abnormalMarginPct / 100.0);
      assert x * c.abnormalMarginPct / 100.0 == x * (c.abnormalMarginPct / 100.0);
    }
  }

  lemma LongStopExactly(c: Config, k: Tank, past: seq<Reading>, r: Reading, t: real)
    requires c.medianWindow >= 1 && StopIs(c, k, past + [r], t)
    ensures LongStop(c, k, past, r) <==> t != 0.0 && r.s.ts - t >= c.siphonStop
  {
    var all := past + [r];
    if t != 0.0 {
      var j: nat :| StopsAt(c, k, all, j) && all[j].s.ts == t;
      forall i: nat | StopsAt(c, k, all, i)
        ensures i == j
      {
        assert !(i < j) && !(j < i);
      }
    }
  }

  /** Trip, stop and odometer as detection meets them. */
  lemma DetectionMeets(c: Config, k: Tank, past: seq<Reading>, r: Reading, v: Vehicle, d: Vehicle)
    requires c.medianWindow >= 1 && v == Now(c, k, past) && v.lastLevel.Some? && Looked(c, k, past, r)
    requires d == ToDetect(c, v, r)
    ensures Sound(c, v) && Detects(c, v, r)
    ensures d.tripActive == OnTrip(r.s) && d.baseline == Some(BaseOf(c, k, past, r)) && d.lastLevel == LevelOf(c, k, past)
    ensures LongStop(c, k, past, r) <==>
            StopStart(c, d, r.s) != 0.0 && r.s.ts - StopStart(c, d, r.s) >= c.siphonStop
    ensures v.lastOdometer == Km(c, past) && d.tankCapacity == k.capacity
    ensures d.refillPending == Prepared(c, v, r.s, r.warmup).refillPending
    ensures LevelOf(c, k, past + [r]) == Some(Smoothed(c, v, r))
  {
    LevelIsTapeMedian(c, k, past);
    LookedExactly(c, k, past, r);
    TripEndsExactly(c, k, past, r);
    PreparedFacts(c, v, r.s, r.warmup);
    SameTank(c, k, past);
    OdometerIsKm(c, k, past);
    StopIsBlock(c, k, past + [r]);
    NowNext(c, k, past, r);
    DetectedStop(c, v, r);
    LongStopExactly(c, k, past, r, StopStart(c, d, r.s));
    TapeNext(c, k, past, r);
  }

  /** The class of a fall is the kind that is due. */
  lemma ClassExactly(c: Config, k: Tank, past: seq<Reading>, r: Reading, d: Vehicle, fall: real)
    requires c.medianWindow >= 1 && d.tripActive == OnTrip(r.s)
    requires LongStop(c, k, past, r) <==> StopStart(c, d, r.s) != 0.0 && r.s.ts - StopStart(c, d, r.s) >= c.siphonStop
    ensures Classify(c, d, r.s, Km(c, past), fall) ==
            if SiphonDue(c, k, past, r, fall) then Some(Siphon)
            else if TheftDue(c, k, past, r, fall) then Some(Theft)
            else if DrainDue(c, past, r, fall) then Some(AbnormalDrain)
            else if RefillDue(c, k, past, r, fall) then Some(Refill) else None
  {
    StillExactly(c, r);
    BurnExactly(c, Km(c, past), r);
  }

  /** The movement since the last level stays below the noise floor. */
  ghost predicate SmallMove(c: Config, k: Tank, past: seq<Reading>, level: real)
    requires c.medianWindow >= 1 && LevelOf(c, k, past).Some?
  {
    var noise, move := Percent(c.noisePct, k.capacity), level - LevelOf(c, k, past).value;
    -noise < move < noise
  }

  /** The events of a reading that takes the level from base to level, and the baseline it leaves. */
  ghost predicate ReportsDue(c: Config, k: Tank, past: seq<Reading>, r: Reading, base: real, level: real,
                             events: seq<Event>, after: Option<real>)
    requires c.medianWindow >= 1 && LevelOf(c, k, past).Some?
  {
    var fall := base - level;
    && (SiphonDue(c, k, past, r, fall) <==> events == [Event(Siphon, fall, base, level)])
    && (TheftDue(c, k, past, r, fall) <==> events == [Event(Theft, fall, base, level)])
    && (DrainDue(c, past, r, fall) <==> events == [Event(AbnormalDrain, fall, base, level)])
    && (RefillDue(c, k, past, r, fall) <==> events == [Event(Refill, -fall, base, level)])
    && (events == [] || exists e :: events == [e])
    && after == Some(if events != [] || !Still(c, r) || SmallMove(c, k, past, level) then level else base)
  }

  function EventsFor(kind: Option<Kind>, fall: real, base: real, level: real): seq<Event> {
    match kind
    case None => []
    case Some(Refill) => [Event(Refill, -fall, base, level)]
    case Some(x) => [Event(x, fall, base, level)]
  }

  lemma StageOfKind(c: Config, d: Vehicle, s: Snapshot, odoBefore: real, base: real, level: real, kind: Option<Kind>)
    requires d.lastLevel.Some? && d.baseline == Some(base) && Classify(c, d, s, odoBefore, base - level) == kind
    ensures var (u, events) := DetectStage(c, d, s, odoBefore, level);
            && events == EventsFor(kind, base - level, base, level)
            && u.baseline == Some(if kind.Some? || Explained(c, d, s, level - d.lastLevel.value) then level else base)
  {
  }

  lemma KindReports(kind: Option<Kind>, fall: real, base: real, level: real)
    ensures var events := EventsFor(kind, fall, base, level);
            && (events == [] <==> kind.None?)
            && (kind == Some(Siphon) <==> events == [Event(Siphon, fall, base, level)])
            && (kind == Some(Theft) <==> events == [Event(Theft, fall, base, level)])
            && (kind == Some(AbnormalDrain) <==> events == [Event(AbnormalDrain, fall, base, level)])
            && (kind == Some(Refill) <==> events == [Event(Refill, -fall, base, level)])
            && (events == [] || exists e :: events == [e])
  {
    var events := EventsFor(kind, fall, base, level);
    if kind.Some? { assert events == [events[0]]; }
  }

  /** Exactly one kind is due, or none. */
  lemma OneKindDue(c: Config, k: Tank, past: seq<Reading>, r: Reading, fall: real, kind: Option<Kind>)
    requires c.medianWindow >= 1
    requires kind == if SiphonDue(c, k, past, r, fall) then Some(Siphon)
                     else if TheftDue(c, k, past, r, fall) then Some(Theft)
                     else if DrainDue(c, past, r, fall) then Some(AbnormalDrain)
                     else if RefillDue(c, k, past, r, fall) then Some(Refill) else None
    ensures SiphonDue(c, k, past, r, fall) <==> kind == Some(Siphon)
    ensures TheftDue(c, k, past, r, fall) <==> kind == Some(Theft)
    ensures DrainDue(c, past, r, fall) <==> kind == Some(AbnormalDrain)
    ensures RefillDue(c, k, past, r, fall) <==> kind == Some(Refill)
  {
  }

  lemma ExplainedExactly(c: Config, k: Tank, past: seq<Reading>, r: Reading, d: Vehicle, level: real)
    requires c.medianWindow >= 1 && d.lastLevel == LevelOf(c, k, past) && d.lastLevel.Some? && d.tankCapacity == k.capacity
    ensures Explained(c, d, r.s, level - d.lastLevel.value) <==> !Still(c, r) || SmallMove(c, k, past, level)
  {
    StillExactly(c, r);
  }

  lemma StageReports(c: Config, k: Tank, past: seq<Reading>, r: Reading, d: Vehicle, base: real, level: real, kind: Option<Kind>)
    requires c.medianWindow >= 1 && LevelOf(c, k, past).Some? && d.lastLevel == LevelOf(c, k, past)
    requires d.baseline == Some(base) && d.tankCapacity == k.capacity && kind == Classify(c, d, r.s, Km(c, past), base - level)
    requires kind == if SiphonDue(c, k, past, r, base - level) then Some(Siphon)
                     else if TheftDue(c, k, past, r, base - level) then Some(Theft)
                     else if DrainDue(c, past, r, base - level) then Some(AbnormalDrain)
                     else if RefillDue(c, k, past, r, base - level) then Some(Refill) else None
    ensures var (u, events) := DetectStage(c, d, r.s, Km(c, past), level);
            ReportsDue(c, k, past, r, base, level, events, u.baseline)
  {
    StageOfKind(c, d, r.s, Km(c, past), base, level, kind);
    KindReports(kind, base - level, base, level);
    OneKindDue(c, k, past, r, base - level, kind);
    ExplainedExactly(c, k, past, r, d, level);
  }

  /** Detection of this reading, in the terms of the stream. */
  lemma DetectionAt(c: Config, k: Tank, past: seq<Reading>, r: Reading, v: Vehicle, d: Vehicle, level: real)
    requires c.medianWindow >= 1 && v == Now(c, k, past) && v.lastLevel.Some? && Looked(c, k, past, r)
    requires Detects(c, v, r) && d == ToDetect(c, v, r) && v.lastOdometer == Km(c, past) && level == Smoothed(c, v, r)
    ensures d.lastLevel.Some? && d.baseline.Some?
    ensures EventsOf(c, v, r) == DetectStage(c, d, r.s, Km(c, past), level).1
    ensures Now(c, k, past + [r]).baseline == DetectStage(c, d, r.s, Km(c, past), level).0.baseline
  {
    NowNext(c, k, past, r);
    DetectCase(c, v, r);
  }

  /**
   * Which kind of event a reading raises, read off the stream, and what the event says; and
   * whether the baseline moves to the level.
   */
  lemma KindsExactly(c: Config, k: Tank, past: seq<Reading>, r: Reading)
    requires c.medianWindow >= 1 && LevelOf(c, k, past).Some? && Looked(c, k, past, r)
    ensures Now(c, k, past).lastLevel.Some? && LevelOf(c, k, past + [r]).Some?
    ensures ReportsDue(c, k, past, r, BaseOf(c, k, past, r), LevelOf(c, k, past + [r]).value,
                       EventsOf(c, Now(c, k, past), r), Now(c, k, past + [r]).baseline)
  {
    LevelIsTapeMedian(c, k, past);
    var v := Now(c, k, past);
    var d := ToDetect(c, v, r);
    DetectionMeets(c, k, past, r, v, d);
    var base, level := BaseOf(c, k, past, r), LevelOf(c, k, past + [r]).value;
    DetectionAt(c, k, past, r, v, d, level);
    ClassExactly(c, k, past, r, d, base - level);
    StageReports(c, k, past, r, d, base, level, Classify(c, d, r.s, Km(c, past), base - level));
  }

  lemma FirstRaisesNothing(c: Config, k: Tank, past: seq<Reading>, r: Reading, v: Vehicle, t: Vehicle)
    requires c.medianWindow >= 1 && LevelOf(c, k, past).None? && v == Now(c, k, past) && t == Now(c, k, past + [r])
    ensures EventsOf(c, v, r) == [] && t.refillPending == Prepared(c, v, r.s, r.warmup).refillPending
    ensures v.lastLevel.None? && t.baseline == t.lastLevel
  {
    var u := Prepared(c, v, r.s, r.warmup);
    LevelIsTapeMedian(c, k, past);
    NowNext(c, k, past, r);
    PreparedFacts(c, v, r.s, r.warmup);
    FirstAfter(c, v, r, u, OdoStage(u, r.s));
  }

  lemma LaterRaisesNothing(c: Config, k: Tank, past: seq<Reading>, r: Reading, v: Vehicle, t: Vehicle)
    requires c.medianWindow >= 1 && LevelOf(c, k, past).Some? && !Looked(c, k, past, r)
    requires v == Now(c, k, past) && t == Now(c, k, past + [r])
    ensures EventsOf(c, v, r) == [] && t.refillPending == Prepared(c, v, r.s, r.warmup).refillPending
    ensures v.lastLevel.Some? && t.baseline == Some(BaseOf(c, k, past, r))
  {
    var u := Prepared(c, v, r.s, r.warmup);
    LevelIsTapeMedian(c, k, past);
    NowNext(c, k, past, r);
    PreparedFacts(c, v, r.s, r.warmup);
    LookedExactly(c, k, past, r);
    if Measured(c, k, past, r) { HeldKeeps(c, v, r, u); } else { UnmeasuredKeeps(c, v, r, u); }
  }

  /** Any other reading raises nothing; the first one measured sets the baseline, the others leave it to the gates. */
  lemma OthersRaiseNothing(c: Config, k: Tank, past: seq<Reading>, r: Reading)
    requires c.medianWindow >= 1 && (LevelOf(c, k, past).None? || !Looked(c, k, past, r))
    ensures var v, t := Now(c, k, past), Now(c, k, past + [r]);
            && EventsOf(c, v, r) == [] && t.refillPending == Prepared(c, v, r.s, r.warmup).refillPending
            && (v.lastLevel.Some? <==> LevelOf(c, k, past).Some?)
            && t.baseline == if v.lastLevel.None? then LevelOf(c, k, past + [r]) else Some(BaseOf(c, k, past, r))
  {
    if LevelOf(c, k, past).None? {
      FirstRaisesNothing(c, k, past, r, Now(c, k, past), Now(c, k, past + [r]));
      LevelIsTapeMedian(c, k, past + [r]);
    } else {
      LaterRaisesNothing(c, k, past, r, Now(c, k, past), Now(c, k, past + [r]));
    }
  }

  // ---------- refills of a trip ----------

  function RefillIn(events: seq<Event>): real {
    if events != [] && events[0].kind.Refill? then events[0].estimated else 0.0
  }

  /** What the refills since the last trip end add up to. */
  ghost function Refilled(c: Config, k: Tank, rs: seq<Reading>): real
    requires c.medianWindow >= 1
  {
    if rs == [] then 0.0
    else
      var past, r := rs[..|rs| - 1], rs[|rs| - 1];
      (if EndsTrip(past, r) then 0.0 else Refilled(c, k, past)) + RefillIn(EventsOf(c, Now(c, k, past), r))
  }

  lemma DetectRefills(c: Config, v: Vehicle, s: Snapshot, odoBefore: real, smoothed: real)
    requires v.lastLevel.Some? && v.baseline.Some?
    ensures var (u, events) := DetectStage(c, v, s, odoBefore, smoothed);
            u.refillPending == v.refillPending + RefillIn(events)
  {
  }

  lemma LaterRefills(c: Config, k: Tank, past: seq<Reading>, r: Reading)
    requires c.medianWindow >= 1 && LevelOf(c, k, past).Some? && Looked(c, k, past, r)
    ensures var v := Now(c, k, past);
            Now(c, k, past + [r]).refillPending == Prepared(c, v, r.s, r.warmup).refillPending + RefillIn(EventsOf(c, v, r))
  {
    var v := Now(c, k, past);
    LevelIsTapeMedian(c, k, past);
    NowNext(c, k, past, r);
    DetectionMeets(c, k, past, r, v, ToDetect(c, v, r));
    DetectCase(c, v, r);
    DetectRefills(c, ToDetect(c, v, r), r.s, v.lastOdometer, Smoothed(c, v, r));
  }

  /** The accumulator holds the refills of the current trip. */
  lemma {:induction false} AccumulatorIsRefilled(c: Config, k: Tank, rs: seq<Reading>)
    requires c.medianWindow >= 1
    ensures Now(c, k, rs).refillPending == Refilled(c, k, rs)
  {
    if rs != [] {
      var past, r := rs[..|rs| - 1], rs[|rs| - 1];
      var v := Now(c, k, past);
      AccumulatorIsRefilled(c, k, past);
      TripEndsExactly(c, k, past, r);
      assert rs == past + [r];
      assert Prepared(c, v, r.s, r.warmup).refillPending == if TripEnds(v, r.s) then 0.0 else v.refillPending;
      if LevelOf(c, k, past).Some? && Looked(c, k, past, r) {
        LaterRefills(c, k, past, r);
      } else {
        OthersRaiseNothing(c, k, past, r);
      }
    }
  }
}
