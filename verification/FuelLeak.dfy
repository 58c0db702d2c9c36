/**
 * A slow leak on a parked vehicle: from the very first reading on, each reading comes a little
 * later and a little lower than the one before, and nothing is ever reported.
 */
module FuelLeak {
  import opened Common
  import opened Smoothing
  import opened FuelEngine
  import opened FuelLedger

  // ---------- a window of evenly falling readings ----------

  /** n readings, the latest x, each d below the one before. */
  function Ramp(x: real, d: real, n: nat): (w: seq<real>)
    ensures |w| == n
    decreases n
  {
    if n == 0 then [] else Ramp(x + d, d, n - 1) + [x]
  }

  /** The same readings in ascending order. */
  function Sloping(x: real, d: real, n: nat): (s: seq<real>)
    ensures |s| == n
  {
    if n == 0 then [] else Sloping(x, d, n - 1) + [x + Times(n - 1, d)]
  }

  lemma {:induction false} RampHead(x: real, d: real, n: nat)
    requires n >= 1
    ensures Ramp(x, d, n) == [x + Times(n - 1, d)] + Ramp(x, d, n - 1)
    decreases n
  {
    if n > 1 {
      RampHead(x + d, d, n - 1);
      assert x + d + Times(n - 2, d) == x + Times(n - 1, d);
    }
  }

  lemma {:induction false} SlopingAt(x: real, d: real, n: nat, k: nat)
    requires k < n
    ensures Sloping(x, d, n)[k] == x + Times(k, d)
  {
    if k < n - 1 { SlopingAt(x, d, n - 1, k); }
  }

  lemma {:induction false} TimesGrows(k: nat, n: nat, d: real)
    requires k <= n && d >= 0.0
    ensures Times(k, d) <= Times(n, d) && (k < n && d > 0.0 ==> Times(k, d) < Times(n, d))
    decreases n
  {
    if k < n { TimesGrows(k, n - 1, d); }
  }

  lemma SlopingBelow(x: real, d: real, n: nat)
    requires d > 0.0
    ensures forall i | 0 <= i < n :: Sloping(x, d, n)[i] < x + Times(n, d)
  {
    forall i | 0 <= i < n
      ensures Sloping(x, d, n)[i] < x + Times(n, d)
    {
      SlopingAt(x, d, n, i);
      TimesGrows(i, n, d);
    }
  }

  lemma {:induction false} RampSorted(x: real, d: real, n: nat)
    requires d > 0.0
    ensures Sorted(Ramp(x, d, n)) == Sloping(x, d, n)
  {
    if n > 0 {
      RampSorted(x, d, n - 1);
      RampHead(x, d, n);
      SlopingBelow(x, d, n - 1);
      PlaceLast(x + Times(n - 1, d), Sloping(x, d, n - 1));
      assert Ramp(x, d, n)[1..] == Ramp(x, d, n - 1);
    }
  }

  /** The middle of a ramp. */
  function Mid(x: real, d: real, n: nat): real
    requires n >= 1
  {
    x + Times((n - 1) / 2, d)
  }

  lemma RampMedian(x: real, d: real, n: nat)
    requires d > 0.0 && n >= 1
    ensures Ramp(x, d, n) != [] && Median(Ramp(x, d, n)) == Mid(x, d, n)
  {
    RampSorted(x, d, n);
    SlopingAt(x, d, n, (n - 1) / 2);
  }

  function Least(a: nat, b: nat): nat { if a <= b then a else b }

  /** The next reading joins the window; when it is full the oldest leaves. */
  lemma RampMoves(x: real, d: real, size: nat, n: nat, m: nat)
    requires 1 <= n && m == n + 1
    ensures LastN(Ramp(x, d, Least(n, size)) + [x - d], size) == Ramp(x - d, d, Least(m, size))
  {
    assert x - d + d == x;
    if n >= size && size >= 1 {
      RampHead(x, d, size);
      var w := Ramp(x, d, size);
      assert (w + [x - d])[1..] == w[1..] + [x - d] && w[1..] == Ramp(x, d, size - 1);
    }
  }

  /** From one reading to the next the middle falls by d or, while the window fills, not at all. */
  lemma MidFalls(x: real, d: real, size: nat, n: nat, m: nat)
    requires 1 <= n && m == n + 1 && d > 0.0 && size >= 1
    ensures 0.0 <= Mid(x, d, Least(n, size)) - Mid(x - d, d, Least(m, size)) <= d
  {
    var a, b := (Least(n, size) - 1) / 2, (Least(m, size) - 1) / 2;
    assert b == a || b == a + 1;
  }

  // ---------- the leak ----------

  /** The fall stays below every threshold, and readings follow each other without a gap. */
  predicate Creeping(c: Config, capacity: real, d: real, dt: real) {
    && 0.0 < d < Percent(c.noisePct, capacity) && d < c.theftL && d < c.siphonL && c.refillL > 0.0
    && c.medianWindow >= 1 && c.stopSpeed > 0.0 && 0.0 < dt <= c.gapTolerance
  }

  /** After reading y the next is far enough above zero not to count as a spike, and fits the tank. */
  predicate Plausible(c: Config, capacity: real, y: real, d: real) {
    0.000000001 <= y && 0.0 <= y - d <= capacity && Times(c.medianWindow, d) <= c.spikePct / 100.0 * y
  }

  /** A leak of n readings that the thresholds cannot see. */
  ghost predicate Unseen(c: Config, capacity: real, x: real, d: real, dt: real, n: nat) {
    && Creeping(c, capacity, d, dt) && 0.0 <= x <= capacity && capacity > 0.0
    && forall k: nat | k + 1 < n :: Plausible(c, capacity, x - Times(k, d), d)
  }

  /** Reading k: parked between trips, without an odometer, k times dt after the first and k times d below it. */
  function LeakReading(x: real, d: real, t0: real, dt: real, k: nat): Reading {
    Reading(Snapshot("", "", t0 + Times(k, dt), 0.0, x - Times(k, d), 0.0), false, true, true)
  }

  function Leak(x: real, d: real, t0: real, dt: real, n: nat): (rs: seq<Reading>)
    ensures |rs| == n && forall k: nat | k < n :: rs[k] == LeakReading(x, d, t0, dt, k)
  {
    if n == 0 then [] else Leak(x, d, t0, dt, n - 1) + [LeakReading(x, d, t0, dt, n - 1)]
  }

  function NewVehicle(capacity: real): Vehicle { Fresh(true, capacity, true) }

  /** The vehicle after n readings. */
  function StateAt(c: Config, capacity: real, x: real, d: real, t0: real, dt: real, n: nat): Vehicle
    requires n >= 1 && c.medianWindow >= 1
  {
    var y, m := x - Times(n - 1, d), Least(n, c.medianWindow);
    NewVehicle(capacity).(window := Ramp(y, d, m), lastLevel := Some(Mid(y, d, m)), baseline := Some(Mid(y, d, m)),
                          lastTs := t0 + Times(n - 1, dt), stopStart := t0, tripActive := true)
  }

  // ---------- one reading ----------

  lemma RatioBound(a: real, b: real, pct: real, x: real)
    requires x > 0.0 && b >= x && 0.0 <= a <= pct * x && pct >= 0.0
    ensures a / b <= pct
  {
    assert pct * x <= pct * b;
    assert a <= pct * b;
    assert a / b <= pct * b / b == pct;
  }

  lemma FactorSign(p: real, x: real)
    requires x > 0.0
    ensures p <= 0.0 ==> p * x <= 0.0
  {
  }

  /** A fall from the median that is small against the latest reading is small against the median. */
  lemma SmallDeviation(y: real, fall: real, med: real, pct: real)
    requires y > 0.0 && med >= y && 0.0 < fall <= pct * y
    ensures fall / med <= pct
  {
    FactorSign(pct, y);
    RatioBound(fall, med, pct, y);
  }

  /** The next reading is not held as a spike. */
  lemma NotASpike(c: Config, capacity: real, y: real, d: real, m: nat)
    requires 1 <= m <= c.medianWindow && d > 0.0 && Plausible(c, capacity, y, d)
    ensures Ramp(y, d, m) != [] && !Deviates(y - d, Median(Ramp(y, d, m)), c.spikePct)
  {
    RampMedian(y, d, m);
    var med := Mid(y, d, m);
    MidBounds(y, d, m, c.medianWindow);
    SmallDeviation(y, med - (y - d), med, c.spikePct / 100.0);
  }

  lemma MidBounds(y: real, d: real, m: nat, n: nat)
    requires 1 <= m <= n && d > 0.0
    ensures y <= Mid(y, d, m) && 0.0 < Mid(y, d, m) - (y - d) <= Times(n, d)
  {
    TimesGrows(0, (m - 1) / 2, d);
    TimesGrows((m - 1) / 2 + 1, n, d);
  }

  lemma FirstReadingStarts(c: Config, capacity: real, x: real, d: real, t0: real, dt: real, n: nat)
    requires Unseen(c, capacity, x, d, dt, n) && t0 > 0.0 && n >= 1
    ensures var r := LeakReading(x, d, t0, dt, 0);
            && Sound(c, NewVehicle(capacity)) && Parked(c, r) && !Gap(c, NewVehicle(capacity), r.s, r.warmup)
            && After(c, NewVehicle(capacity), r) == StateAt(c, capacity, x, d, t0, dt, 1)
            && EventsOf(c, NewVehicle(capacity), r) == []
  {
    var r := LeakReading(x, d, t0, dt, 0);
    assert Litres(true, capacity, x) == x;
    assert Ramp(x, d, 1) == [x] && Mid(x, d, 1) == x;
  }

  /** Only the clock moves before the level is looked at. */
  lemma LeakPrepared(c: Config, capacity: real, x: real, d: real, t0: real, dt: real, n: nat)
    requires Creeping(c, capacity, d, dt) && n >= 1
    ensures var v, r := StateAt(c, capacity, x, d, t0, dt, n), LeakReading(x, d, t0, dt, n);
            && Prepared(c, v, r.s, r.warmup) == v.(lastTs := t0 + Times(n, dt))
            && !Gap(c, v, r.s, r.warmup) && !Rejected(c, v, r) && Parked(c, r)
  {
    assert t0 + Times(n, dt) == t0 + Times(n - 1, dt) + dt;
  }

  /** The litres of the next reading, and that they are not held. */
  lemma LeakNotHeld(c: Config, capacity: real, x: real, d: real, t0: real, dt: real, n: nat, m: nat)
    requires Unseen(c, capacity, x, d, dt, m) && n >= 1 && m == n + 1
    ensures var v, r := StateAt(c, capacity, x, d, t0, dt, n), LeakReading(x, d, t0, dt, n);
            LitresOf(v, r.s) == x - Times(n, d) && !Held(c, v.window, v.pendingSpike, x - Times(n, d))
  {
    var before := x - Times(n - 1, d);
    assert Plausible(c, capacity, before, d) && x - Times(n, d) == before - d;
    NotASpike(c, capacity, before, d, Least(n, c.medianWindow));
  }

  /** What the next reading brings to detection. */
  lemma NextReadingDetects(c: Config, capacity: real, x: real, d: real, t0: real, dt: real, n: nat, m: nat)
    requires Unseen(c, capacity, x, d, dt, m) && n >= 1 && m == n + 1
    ensures var v, r := StateAt(c, capacity, x, d, t0, dt, n), LeakReading(x, d, t0, dt, n);
            var y := x - Times(n, d);
            && Detects(c, v, r) && WindowAt(c, v, r) == Ramp(y, d, Least(m, c.medianWindow))
            && Smoothed(c, v, r) == Mid(y, d, Least(m, c.medianWindow))
  {
    var before := x - Times(n - 1, d);
    LeakPrepared(c, capacity, x, d, t0, dt, n);
    LeakNotHeld(c, capacity, x, d, t0, dt, n, m);
    assert x - Times(n, d) == before - d;
    RampMoves(before, d, c.medianWindow, n, m);
    RampMedian(before - d, d, Least(m, c.medianWindow));
  }

  /** A parked vehicle whose level falls from its baseline by less than the thresholds and the noise floor. */
  lemma SmallFallUnseen(c: Config, v: Vehicle, s: Snapshot, odoBefore: real, level: real)
    requires v.lastLevel.Some? && v.lastLevel == v.baseline && Stationary(c, s) && v.stopStart != 0.0
    requires 0.0 <= v.baseline.value - level < Percent(c.noisePct, v.tankCapacity)
    requires v.baseline.value - level < c.theftL && v.baseline.value - level < c.siphonL && c.refillL > 0.0
    ensures DetectStage(c, v, s, odoBefore, level) == (v.(baseline := Some(level)), [])
  {
  }

  /** The state after the next reading, put together from what detection leaves. */
  lemma NextState(c: Config, capacity: real, x: real, d: real, t0: real, dt: real, n: nat, m: nat)
    requires c.medianWindow >= 1 && n >= 1 && m == n + 1
    ensures var y, size := x - Times(n, d), Least(m, c.medianWindow);
            StateAt(c, capacity, x, d, t0, dt, n).(lastTs := t0 + Times(n, dt), window := Ramp(y, d, size),
              baseline := Some(Mid(y, d, size)), lastLevel := Some(Mid(y, d, size)))
            == StateAt(c, capacity, x, d, t0, dt, m)
  {
  }

  lemma LeakToDetect(c: Config, capacity: real, x: real, d: real, t0: real, dt: real, n: nat)
    requires Creeping(c, capacity, d, dt) && n >= 1
    ensures var v, r := StateAt(c, capacity, x, d, t0, dt, n), LeakReading(x, d, t0, dt, n);
            ToDetect(c, v, r) == v.(lastTs := t0 + Times(n, dt), window := WindowAt(c, v, r))
  {
    LeakPrepared(c, capacity, x, d, t0, dt, n);
  }

  /** The fall of the level stays below all thresholds. */
  lemma FallIsSmall(c: Config, capacity: real, x: real, d: real, dt: real, n: nat, m: nat)
    requires Creeping(c, capacity, d, dt) && n >= 1 && m == n + 1
    ensures var fall := Mid(x - Times(n - 1, d), d, Least(n, c.medianWindow)) - Mid(x - Times(n, d), d, Least(m, c.medianWindow));
            0.0 <= fall < Percent(c.noisePct, capacity) && fall < c.theftL && fall < c.siphonL
  {
    MidFalls(x - Times(n - 1, d), d, c.medianWindow, n, m);
    assert x - Times(n, d) == x - Times(n - 1, d) - d;
  }

  /** Detection of the next reading. */
  lemma LeakDetection(c: Config, capacity: real, x: real, d: real, t0: real, dt: real, n: nat, m: nat, odoBefore: real)
    requires Creeping(c, capacity, d, dt) && t0 > 0.0 && n >= 1 && m == n + 1
    ensures var v := StateAt(c, capacity, x, d, t0, dt, n);
            var w := Ramp(x - Times(n, d), d, Least(m, c.medianWindow));
            var u := v.(lastTs := t0 + Times(n, dt), window := w);
            var level := Mid(x - Times(n, d), d, Least(m, c.medianWindow));
            DetectStage(c, u, LeakReading(x, d, t0, dt, n).s, odoBefore, level) == (u.(baseline := Some(level)), [])
  {
    var v := StateAt(c, capacity, x, d, t0, dt, n);
    var u := v.(lastTs := t0 + Times(n, dt), window := Ramp(x - Times(n, d), d, Least(m, c.medianWindow)));
    FallIsSmall(c, capacity, x, d, dt, n, m);
    SmallFallUnseen(c, u, LeakReading(x, d, t0, dt, n).s, odoBefore, Mid(x - Times(n, d), d, Least(m, c.medianWindow)));
  }

  lemma NextReadingFalls(c: Config, capacity: real, x: real, d: real, t0: real, dt: real, n: nat, m: nat)
    requires Unseen(c, capacity, x, d, dt, m) && t0 > 0.0 && n >= 1 && m == n + 1
    ensures var v, r := StateAt(c, capacity, x, d, t0, dt, n), LeakReading(x, d, t0, dt, n);
            && Sound(c, v) && Parked(c, r) && !Gap(c, v, r.s, r.warmup)
            && After(c, v, r) == StateAt(c, capacity, x, d, t0, dt, m) && EventsOf(c, v, r) == []
  {
    var v, r := StateAt(c, capacity, x, d, t0, dt, n), LeakReading(x, d, t0, dt, n);
    LeakPrepared(c, capacity, x, d, t0, dt, n);
    NextReadingDetects(c, capacity, x, d, t0, dt, n, m);
    LeakToDetect(c, capacity, x, d, t0, dt, n);
    LeakDetection(c, capacity, x, d, t0, dt, n, m, v.lastOdometer);
    DetectCase(c, v, r);
    NextState(c, capacity, x, d, t0, dt, n, m);
  }

  // ---------- streams ----------

  /** No reading of the stream leaves a gap. */
  ghost predicate Gapless(c: Config, v: Vehicle, rs: seq<Reading>)
    requires Sound(c, v)
  {
    rs == [] ||
    var r := rs[|rs| - 1];
    Gapless(c, v, rs[..|rs| - 1]) && !Gap(c, Stream(c, v, rs[..|rs| - 1]), r.s, r.warmup)
  }

  /** One more reading that changes the state from u to u' without an event. */
  lemma StreamNext(c: Config, v: Vehicle, before: seq<Reading>, r: Reading, rs: seq<Reading>, u: Vehicle, u': Vehicle)
    requires Sound(c, v) && rs == before + [r] && Stream(c, v, before) == u && Sound(c, u) && After(c, u, r) == u'
    requires StreamEvents(c, v, before) == [] && EventsOf(c, u, r) == []
    requires Gapless(c, v, before) && !Gap(c, u, r.s, r.warmup)
    ensures Stream(c, v, rs) == u' && StreamEvents(c, v, rs) == [] && Gapless(c, v, rs)
  {
    assert rs[..|before|] == before;
  }

  /**
   * A leak of any length, from the first reading of a new vehicle on: the readings span (n - 1)
   * times dt, none leaves a gap, the level falls by d with every reading once the window is
   * full, and no event is ever raised.
   */
  lemma {:induction false} SlowLeakIsNeverReported(c: Config, capacity: real, x: real, d: real, t0: real, dt: real, n: nat)
    requires Unseen(c, capacity, x, d, dt, n) && t0 > 0.0 && n >= 1
    ensures var v, rs := NewVehicle(capacity), Leak(x, d, t0, dt, n);
            && Sound(c, v) && ParkedStream(c, rs) && Gapless(c, v, rs) && StreamEvents(c, v, rs) == []
            && Stream(c, v, rs) == StateAt(c, capacity, x, d, t0, dt, n)
  {
    var v, r, rs := NewVehicle(capacity), LeakReading(x, d, t0, dt, n - 1), Leak(x, d, t0, dt, n);
    var before := Leak(x, d, t0, dt, n - 1);
    if n == 1 {
      FirstReadingStarts(c, capacity, x, d, t0, dt, n);
      assert rs == before + [r] && before == [];
      StreamNext(c, v, before, r, rs, v, StateAt(c, capacity, x, d, t0, dt, n));
    } else {
      SlowLeakIsNeverReported(c, capacity, x, d, t0, dt, n - 1);
      NextReadingFalls(c, capacity, x, d, t0, dt, n - 1, n);
      StreamNext(c, v, before, r, rs, StateAt(c, capacity, x, d, t0, dt, n - 1), StateAt(c, capacity, x, d, t0, dt, n));
    }
    LeakParked(c, x, d, t0, dt, n);
  }

  lemma LeakParked(c: Config, x: real, d: real, t0: real, dt: real, n: nat)
    requires c.stopSpeed > 0.0
    ensures ParkedStream(c, Leak(x, d, t0, dt, n))
  {
    forall i | 0 <= i < n
      ensures Parked(c, Leak(x, d, t0, dt, n)[i])
    {
      assert Leak(x, d, t0, dt, n)[i] == LeakReading(x, d, t0, dt, i);
    }
  }

  // ---------- a tank that runs down unseen ----------

  /** A noise floor of one percent, a window of five, a gap tolerance of fifteen minutes. */
  const TANK_CONFIG := Config(5, 15.0, 1.0, 10.0, 10.0, 20.0, 1800.0, 5.0, 1.0, 0.35, 30.0, 900.0)

  lemma TankUnseen(n: nat)
    requires n <= 145
    ensures Unseen(TANK_CONFIG, 200.0, 184.0, 1.0, 60.0, n)
  {
    forall k: nat | k + 1 < n
      ensures Plausible(TANK_CONFIG, 200.0, 184.0 - Times(k, 1.0), 1.0)
    {
      TimesIsProduct(k, 1.0);
      TimesIsProduct(TANK_CONFIG.medianWindow, 1.0);
    }
  }

  lemma TankLevel(c: Config, capacity: real, x: real, d: real, t0: real, dt: real, n: nat)
    requires (c, capacity, x, d, t0, dt) == (TANK_CONFIG, 200.0, 184.0, 1.0, 60.0, 60.0) && 5 <= n
    ensures StateAt(c, capacity, x, d, t0, dt, n).lastLevel == Some(187.0 - n as real)
    ensures StateAt(c, capacity, x, d, t0, dt, n).lastTs == 60.0 * n as real
  {
    TimesIsProduct(n - 1, d);
    TimesIsProduct(n - 1, dt);
    TimesIsProduct(2, d);
    assert Least(n, c.medianWindow) == 5;
  }

  /**
   * A 200-litre tank, read once a minute, one litre less each time: after 145 readings, at a
   * level of 42 litres, nothing has been reported.
   */
  lemma TankRunsDownUnseen(c: Config, capacity: real, x: real, d: real, t0: real, dt: real, n: nat)
    requires (c, capacity, x, d, t0, dt) == (TANK_CONFIG, 200.0, 184.0, 1.0, 60.0, 60.0) && 5 <= n <= 145
    ensures var v, rs := NewVehicle(capacity), Leak(x, d, t0, dt, n);
            && Sound(c, v) && ParkedStream(c, rs) && Gapless(c, v, rs) && StreamEvents(c, v, rs) == []
            && Stream(c, v, rs) == StateAt(c, capacity, x, d, t0, dt, n)
    ensures StateAt(c, capacity, x, d, t0, dt, n).lastLevel == Some(187.0 - n as real)
  {
    TankUnseen(n);
    TankLevel(c, capacity, x, d, t0, dt, n);
    SlowLeakIsNeverReported(c, capacity, x, d, t0, dt, n);
  }
}
