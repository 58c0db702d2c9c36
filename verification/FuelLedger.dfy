/** The fuel baseline as a ledger over whole reading streams, and what single readings can do to it. */
module FuelLedger {
  import opened Common
  import opened Smoothing
  import opened FuelEngine

  /** A snapshot as the engine meets it: replayed at start-up or live, its writes succeeding or not. */
  datatype Reading = Reading(s: Snapshot, warmup: bool, odoCommits: bool, commits: bool)

  ghost predicate Sound(c: Config, v: Vehicle) {
    && (v.lastLevel.Some? <==> v.baseline.Some?)
    && |v.window| <= c.medianWindow && c.medianWindow >= 1
  }

  function After(c: Config, v: Vehicle, r: Reading): Vehicle
    requires Sound(c, v)
  {
    PipelineOf(c, v, r.s, r.warmup, r.odoCommits, r.commits).0
  }

  /** What is detected, written or not. */
  function EventsOf(c: Config, v: Vehicle, r: Reading): seq<Event>
    requires Sound(c, v)
  {
    var o := PipelineOf(c, v, r.s, r.warmup, r.odoCommits, r.commits).1;
    if o.RollbackUnwritten? then [] else o.events
  }

  // ---------- one reading, case by case ----------

  predicate Rejected(c: Config, v: Vehicle, r: Reading) {
    RollsBack(c, Prepared(c, v, r.s, r.warmup), r.s) && !r.odoCommits
  }

  /** The reading reaches detection: it is measured, not the first, and neither held nor cut short. */
  predicate Detects(c: Config, v: Vehicle, r: Reading) {
    var u := Prepared(c, v, r.s, r.warmup);
    !Rejected(c, v, r) && Measures(v) && v.lastLevel.Some? && !Held(c, u.window, u.pendingSpike, LitresOf(v, r.s))
  }

  /** The window and the smoothed level after detection. */
  function WindowAt(c: Config, v: Vehicle, r: Reading): seq<real> {
    var u := Prepared(c, v, r.s, r.warmup);
    NewWindow(c, u.window, u.pendingSpike, LitresOf(v, r.s))
  }

  function Smoothed(c: Config, v: Vehicle, r: Reading): real
    requires c.medianWindow >= 1
  {
    Median(WindowAt(c, v, r))
  }

  /** The vehicle as detection meets it. */
  function ToDetect(c: Config, v: Vehicle, r: Reading): Vehicle {
    var u := OdoStage(Prepared(c, v, r.s, r.warmup), r.s);
    u.(window := WindowAt(c, v, r), pendingSpike := None)
  }

  lemma PreparedFacts(c: Config, v: Vehicle, s: Snapshot, warmup: bool)
    ensures var u := Prepared(c, v, s, warmup);
            && u.lastLevel == v.lastLevel && u.pendingSpike == v.pendingSpike && u.lastOdometer == v.lastOdometer
            && u.sensorFitted == v.sensorFitted && u.tankCapacity == v.tankCapacity && u.inLitres == v.inLitres
            && u.tripActive == ActiveAt(s)
            && u.baseline == (if TripEnds(v, s) || Gap(c, v, s, warmup) then v.lastLevel else v.baseline)
            && u.window == (if Gap(c, v, s, warmup) then [] else v.window)
  {
  }

  lemma QuietCases(c: Config, v: Vehicle, r: Reading)
    requires Sound(c, v) && v.lastLevel.Some? && !Detects(c, v, r)
    ensures EventsOf(c, v, r) == []
    ensures var u, t := Prepared(c, v, r.s, r.warmup), After(c, v, r);
            && t.lastLevel == u.lastLevel && t.baseline == u.baseline && t.window == u.window
            && (Measures(v) && !Rejected(c, v, r) ==> t.pendingSpike == Some(LitresOf(v, r.s)) && u.pendingSpike == None)
  {
    PreparedFacts(c, v, r.s, r.warmup);
  }

  /** Past the gates the reading is smoothed, and the smoothed level goes to detection. */
  lemma LevelCase(c: Config, v: Vehicle, s: Snapshot, odoBefore: real)
    requires v.lastLevel.Some? && v.baseline.Some? && c.medianWindow >= 1
    requires Measures(v) && !Held(c, v.window, v.pendingSpike, LitresOf(v, s))
    ensures var w := NewWindow(c, v.window, v.pendingSpike, LitresOf(v, s));
            var (u, events) := DetectStage(c, v.(window := w, pendingSpike := None), s, odoBefore, Median(w));
            LevelStage(c, v, s, odoBefore) == (u.(lastLevel := Some(Median(w))), events)
  {
  }

  lemma PassesGates(c: Config, v: Vehicle, r: Reading, u: Vehicle)
    requires Sound(c, v) && !Rejected(c, v, r) && u == Prepared(c, v, r.s, r.warmup)
    requires u.lastLevel.Some? <==> u.baseline.Some?
    ensures var (x, events) := LevelStage(c, OdoStage(u, r.s), r.s, u.lastOdometer);
            After(c, v, r) == x && EventsOf(c, v, r) == events
  {
  }

  /** The odometer does not matter to the level. */
  lemma ToDetectFacts(c: Config, v: Vehicle, r: Reading, o: Vehicle)
    requires o == OdoStage(Prepared(c, v, r.s, r.warmup), r.s)
    ensures WindowAt(c, v, r) == NewWindow(c, o.window, o.pendingSpike, LitresOf(o, r.s))
    ensures ToDetect(c, v, r) == o.(window := WindowAt(c, v, r), pendingSpike := None)
    ensures Detects(c, v, r) ==> Measures(o) && !Held(c, o.window, o.pendingSpike, LitresOf(o, r.s))
    ensures o.lastLevel == Prepared(c, v, r.s, r.warmup).lastLevel && o.baseline == Prepared(c, v, r.s, r.warmup).baseline
  {
  }

  lemma DetectCase(c: Config, v: Vehicle, r: Reading)
    requires Sound(c, v) && Detects(c, v, r)
    ensures var d := ToDetect(c, v, r);
            && d.lastLevel.Some? && d.baseline.Some?
            && EventsOf(c, v, r) == DetectStage(c, d, r.s, v.lastOdometer, Smoothed(c, v, r)).1
            && After(c, v, r) == DetectStage(c, d, r.s, v.lastOdometer, Smoothed(c, v, r)).0.(lastLevel := Some(Smoothed(c, v, r)))
  {
    PreparedFacts(c, v, r.s, r.warmup);
    var u := Prepared(c, v, r.s, r.warmup);
    PassesGates(c, v, r, u);
    ToDetectFacts(c, v, r, OdoStage(u, r.s));
    LevelCase(c, OdoStage(u, r.s), r.s, u.lastOdometer);
  }

  /** What detection does to the baseline. */
  lemma DetectFacts(c: Config, v: Vehicle, s: Snapshot, odoBefore: real, smoothed: real)
    requires v.lastLevel.Some? && v.baseline.Some?
    ensures var (u, events) := DetectStage(c, v, s, odoBefore, smoothed);
            && u.window == v.window && u.baseline.Some? && |events| <= 1
            && u.baseline.value - v.baseline.value ==
                 Total(events) + (if events == [] && Explained(c, v, s, smoothed - v.lastLevel.value)
                                  then smoothed - v.baseline.value else 0.0)
            && (events != [] ==> u.baseline.value == smoothed)
            && (events == [] && Stationary(c, s) && v.tripActive ==>
                  -c.refillL < v.baseline.value - smoothed < c.theftL)
  {
    var (u, events) := DetectStage(c, v, s, odoBefore, smoothed);
    if events != [] { assert events[..0] == []; }
  }

  // ---------- the smoothing window ----------

  /** The window never outgrows its size, and a level is established exactly with its baseline. */
  lemma StaysSound(c: Config, v: Vehicle, r: Reading)
    requires Sound(c, v)
    ensures Sound(c, After(c, v, r))
    ensures v.lastLevel.Some? ==> After(c, v, r).lastLevel.Some?
  {
    PreparedFacts(c, v, r.s, r.warmup);
    if v.lastLevel.Some? {
      if Detects(c, v, r) {
        DetectCase(c, v, r);
        DetectFacts(c, ToDetect(c, v, r), r.s, v.lastOdometer, Smoothed(c, v, r));
      } else {
        QuietCases(c, v, r);
      }
    }
  }

  /** After a detection the level is the lower median of the window; otherwise it did not move. */
  lemma LevelIsMedian(c: Config, v: Vehicle, r: Reading)
    requires Sound(c, v) && v.lastLevel.Some?
    ensures if Detects(c, v, r) then
              var w := After(c, v, r).window;
              w != [] && After(c, v, r).lastLevel == Some(Median(w)) && Median(w) == Smoothed(c, v, r)
            else After(c, v, r).lastLevel == v.lastLevel
  {
    PreparedFacts(c, v, r.s, r.warmup);
    if Detects(c, v, r) {
      DetectCase(c, v, r);
      DetectFacts(c, ToDetect(c, v, r), r.s, v.lastOdometer, Smoothed(c, v, r));
    } else {
      QuietCases(c, v, r);
    }
  }

  /** A minority of arbitrary readings in the window cannot move the level outside the others' range. */
  lemma LevelWithstandsOutliers(c: Config, v: Vehicle, r: Reading, lo: real, hi: real)
    requires Sound(c, v) && Detects(c, v, r)
    requires var w := After(c, v, r).window;
             w != [] && Below(w, lo) + Above(w, hi) <= (|w| - 1) / 2
    ensures lo <= After(c, v, r).lastLevel.value <= hi
  {
    LevelIsMedian(c, v, r);
    MedianWithstandsOutliers(After(c, v, r).window, lo, hi);
  }

  /** A held spike changes nothing but the held reading itself. */
  lemma HeldReadingWaits(c: Config, v: Vehicle, r: Reading)
    requires Sound(c, v) && v.lastLevel.Some? && Measures(v) && !Rejected(c, v, r) && !Detects(c, v, r)
    ensures After(c, v, r).pendingSpike == Some(LitresOf(v, r.s)) && EventsOf(c, v, r) == []
    ensures After(c, v, r).window == Prepared(c, v, r.s, r.warmup).window
    ensures v.pendingSpike == None
  {
    PreparedFacts(c, v, r.s, r.warmup);
    QuietCases(c, v, r);
  }

  // ---------- the ledger ----------

  function Signed(e: Event): real { if e.kind.Refill? then e.estimated else -e.estimated }

  function Total(events: seq<Event>): real {
    if events == [] then 0.0 else Total(events[..|events| - 1]) + Signed(events[|events| - 1])
  }

  /** The baseline follows the level without an event: at a trip end, ... */
  function TripDrift(v: Vehicle, s: Snapshot): real
    requires v.lastLevel.Some? && v.baseline.Some?
  {
    if TripEnds(v, s) then v.lastLevel.value - v.baseline.value else 0.0
  }

  /** ... at a telemetry gap, ... */
  function GapDrift(c: Config, v: Vehicle, s: Snapshot, warmup: bool): real
    requires v.lastLevel.Some? && v.baseline.Some?
  {
    if Gap(c, v, s, warmup) && !TripEnds(v, s) then v.lastLevel.value - v.baseline.value else 0.0
  }

  /** ... and when the movement is explained by driving or lost in the noise. */
  function MoveDrift(c: Config, v: Vehicle, r: Reading): real
    requires Sound(c, v) && v.lastLevel.Some?
  {
    if Detects(c, v, r) && EventsOf(c, v, r) == [] && Explained(c, v, r.s, Smoothed(c, v, r) - v.lastLevel.value)
    then Smoothed(c, v, r) - Prepared(c, v, r.s, r.warmup).baseline.value
    else 0.0
  }

  function Drift(c: Config, v: Vehicle, r: Reading): real
    requires Sound(c, v) && v.lastLevel.Some?
  {
    TripDrift(v, r.s) + GapDrift(c, v, r.s, r.warmup) + MoveDrift(c, v, r)
  }

  lemma LedgerStep(c: Config, v: Vehicle, r: Reading)
    requires Sound(c, v) && v.lastLevel.Some?
    ensures After(c, v, r).baseline.Some?
    ensures After(c, v, r).baseline.value - v.baseline.value == Total(EventsOf(c, v, r)) + Drift(c, v, r)
    ensures |EventsOf(c, v, r)| <= 1
  {
    PreparedFacts(c, v, r.s, r.warmup);
    if Detects(c, v, r) {
      DetectCase(c, v, r);
      DetectFacts(c, ToDetect(c, v, r), r.s, v.lastOdometer, Smoothed(c, v, r));
    } else {
      QuietCases(c, v, r);
    }
  }

  // ---------- streams ----------

  /** The vehicle after a stream of readings. */
  function Stream(c: Config, v: Vehicle, rs: seq<Reading>): (u: Vehicle)
    requires Sound(c, v)
    ensures Sound(c, u) && (v.lastLevel.Some? ==> u.lastLevel.Some?)
  {
    if rs == [] then v
    else
      var before := Stream(c, v, rs[..|rs| - 1]);
      StaysSound(c, before, rs[|rs| - 1]);
      After(c, before, rs[|rs| - 1])
  }

  function StreamEvents(c: Config, v: Vehicle, rs: seq<Reading>): seq<Event>
    requires Sound(c, v)
  {
    if rs == [] then []
    else StreamEvents(c, v, rs[..|rs| - 1]) + EventsOf(c, Stream(c, v, rs[..|rs| - 1]), rs[|rs| - 1])
  }

  function StreamDrift(c: Config, v: Vehicle, rs: seq<Reading>): real
    requires Sound(c, v) && v.lastLevel.Some?
  {
    if rs == [] then 0.0
    else StreamDrift(c, v, rs[..|rs| - 1]) + Drift(c, Stream(c, v, rs[..|rs| - 1]), rs[|rs| - 1])
  }

  lemma TotalAppend(a: seq<Event>, b: seq<Event>)
    requires |b| <= 1
    ensures Total(a + b) == Total(a) + Total(b)
  {
    if b == [] {
      assert a + b == a;
    } else {
      assert (a + b)[..|a|] == a && b[..0] == [];
    }
  }

  /**
   * Over any stream, the change of the baseline is the refills reported minus the losses
   * reported plus the drift, and drift arises only at trip ends, gaps and explained moves.
   */
  lemma {:induction false} LedgerBalances(c: Config, v: Vehicle, rs: seq<Reading>)
    requires Sound(c, v) && v.lastLevel.Some?
    ensures Stream(c, v, rs).baseline.Some?
    ensures Stream(c, v, rs).baseline.value - v.baseline.value
            == Total(StreamEvents(c, v, rs)) + StreamDrift(c, v, rs)
  {
    if rs != [] {
      var before, r := rs[..|rs| - 1], rs[|rs| - 1];
      LedgerBalances(c, v, before);
      LedgerStep(c, Stream(c, v, before), r);
      TotalAppend(StreamEvents(c, v, before), EventsOf(c, Stream(c, v, before), r));
    }
  }

  // ---------- what is written and what is lost ----------

  function Written(c: Config, v: Vehicle, r: Reading): seq<Event>
    requires Sound(c, v)
  {
    if r.commits then EventsOf(c, v, r) else []
  }

  /** The state moves on before the events are written: an event whose write fails is gone. */
  lemma WrittenExactly(c: Config, v: Vehicle, r: Reading)
    requires Sound(c, v)
    ensures var o := PipelineOf(c, v, r.s, r.warmup, r.odoCommits, r.commits).1;
            Written(c, v, r) == if o.Ok? then o.events else []
    ensures After(c, v, r) == After(c, v, r.(commits := true)) && EventsOf(c, v, r) == EventsOf(c, v, r.(commits := true))
  {
  }

  function StreamWritten(c: Config, v: Vehicle, rs: seq<Reading>): seq<Event>
    requires Sound(c, v)
  {
    if rs == [] then []
    else StreamWritten(c, v, rs[..|rs| - 1]) + Written(c, Stream(c, v, rs[..|rs| - 1]), rs[|rs| - 1])
  }

  /** Events of the stream that were detected but not written. */
  function StreamLost(c: Config, v: Vehicle, rs: seq<Reading>): seq<Event>
    requires Sound(c, v)
  {
    if rs == [] then []
    else
      var u, r := Stream(c, v, rs[..|rs| - 1]), rs[|rs| - 1];
      StreamLost(c, v, rs[..|rs| - 1]) + if r.commits then [] else EventsOf(c, u, r)
  }

  /** The written events balance the baseline up to drift and the events lost. */
  lemma {:induction false} WrittenBalances(c: Config, v: Vehicle, rs: seq<Reading>)
    requires Sound(c, v) && v.lastLevel.Some?
    ensures Stream(c, v, rs).baseline.Some?
    ensures Stream(c, v, rs).baseline.value - v.baseline.value
            == Total(StreamWritten(c, v, rs)) + Total(StreamLost(c, v, rs)) + StreamDrift(c, v, rs)
  {
    if rs != [] {
      var before, r := rs[..|rs| - 1], rs[|rs| - 1];
      var u := Stream(c, v, before);
      WrittenBalances(c, v, before);
      LedgerStep(c, u, r);
      TotalAppend(StreamWritten(c, v, before), Written(c, u, r));
      TotalAppend(StreamLost(c, v, before), if r.commits then [] else EventsOf(c, u, r));
    }
  }

  // ---------- a stationary stretch ----------

  /** Standing on an active trip (or between trips); gaps and small movements included. */
  predicate Parked(c: Config, r: Reading) { ActiveAt(r.s) && Stationary(c, r.s) }

  ghost predicate ParkedStream(c: Config, rs: seq<Reading>) { forall i | 0 <= i < |rs| :: Parked(c, rs[i]) }

  /** Some reading of the stream reached detection. */
  ghost predicate SomeDetected(c: Config, v: Vehicle, rs: seq<Reading>)
    requires Sound(c, v) && v.lastLevel.Some?
  {
    rs != [] && (SomeDetected(c, v, rs[..|rs| - 1]) || Detects(c, Stream(c, v, rs[..|rs| - 1]), rs[|rs| - 1]))
  }

  /** Fuel that has moved but is not reported yet. */
  ghost predicate SmallRemainder(c: Config, v: Vehicle) {
    v.lastLevel.Some? && v.baseline.Some? && -c.refillL < v.baseline.value - v.lastLevel.value < c.theftL
  }

  lemma RemainderStep(c: Config, v: Vehicle, r: Reading)
    requires Sound(c, v) && v.lastLevel.Some? && Parked(c, r) && c.refillL > 0.0 && c.theftL > 0.0
    ensures Detects(c, v, r) || SmallRemainder(c, v) ==> SmallRemainder(c, After(c, v, r))
  {
    PreparedFacts(c, v, r.s, r.warmup);
    if Detects(c, v, r) {
      DetectCase(c, v, r);
      DetectFacts(c, ToDetect(c, v, r), r.s, v.lastOdometer, Smoothed(c, v, r));
    } else {
      QuietCases(c, v, r);
    }
  }

  /** In every parked stretch what is not reported stays strictly between the refill and the theft threshold. */
  lemma {:induction false} RemainderStaysSmall(c: Config, v: Vehicle, rs: seq<Reading>)
    requires Sound(c, v) && v.lastLevel.Some? && ParkedStream(c, rs) && c.refillL > 0.0 && c.theftL > 0.0
    ensures SmallRemainder(c, v) || SomeDetected(c, v, rs) ==> SmallRemainder(c, Stream(c, v, rs))
  {
    if rs != [] {
      var before, r := rs[..|rs| - 1], rs[|rs| - 1];
      RemainderStaysSmall(c, v, before);
      RemainderStep(c, Stream(c, v, before), r);
    }
  }

  // ---------- what a parked stretch forgets ----------

  /** The level of this reading, seen from baseline b, passes a threshold. */
  predicate Crosses(c: Config, v: Vehicle, r: Reading, b: real)
    requires c.medianWindow >= 1
  {
    Classify(c, ToDetect(c, v, r), r.s, v.lastOdometer, b - Smoothed(c, v, r)).Some?
  }

  predicate SubNoise(c: Config, v: Vehicle, r: Reading)
    requires c.medianWindow >= 1 && v.lastLevel.Some?
  {
    Abs(Smoothed(c, v, r) - v.lastLevel.value) < Percent(c.noisePct, v.tankCapacity)
  }

  /** Windows, held spikes, levels and crossings do not depend on the baseline the engine keeps. */
  predicate Alike(v: Vehicle, w: Vehicle) {
    v.lastLevel.Some? && v.baseline.Some? && w.baseline.Some?
    && w == v.(baseline := w.baseline, refillPending := w.refillPending)
  }

  lemma PreparedAlike(c: Config, v: Vehicle, w: Vehicle, r: Reading)
    requires Alike(v, w)
    ensures Alike(Prepared(c, v, r.s, r.warmup), Prepared(c, w, r.s, r.warmup))
  {
  }

  lemma DetectAlike(c: Config, v: Vehicle, w: Vehicle, s: Snapshot, odoBefore: real, level: real)
    requires Alike(v, w)
    ensures Alike(DetectStage(c, v, s, odoBefore, level).0, DetectStage(c, w, s, odoBefore, level).0)
  {
  }

  lemma LevelAlike(c: Config, v: Vehicle, w: Vehicle, s: Snapshot, odoBefore: real)
    requires Alike(v, w) && c.medianWindow >= 1
    ensures Alike(LevelStage(c, v, s, odoBefore).0, LevelStage(c, w, s, odoBefore).0)
  {
    if Measures(v) && !Held(c, v.window, v.pendingSpike, LitresOf(v, s)) {
      var window := NewWindow(c, v.window, v.pendingSpike, LitresOf(v, s));
      LevelCase(c, v, s, odoBefore);
      LevelCase(c, w, s, odoBefore);
      DetectAlike(c, v.(window := window, pendingSpike := None), w.(window := window, pendingSpike := None),
                  s, odoBefore, Median(window));
    }
  }

  lemma ClassifyAlike(c: Config, v: Vehicle, w: Vehicle, s: Snapshot, odoBefore: real, drop: real)
    requires Alike(v, w)
    ensures Classify(c, v, s, odoBefore, drop) == Classify(c, w, s, odoBefore, drop)
  {
  }

  lemma ToDetectAlike(c: Config, v: Vehicle, w: Vehicle, r: Reading)
    requires Alike(v, w)
    ensures Alike(ToDetect(c, v, r), ToDetect(c, w, r)) && WindowAt(c, v, r) == WindowAt(c, w, r)
  {
    PreparedAlike(c, v, w, r);
  }

  lemma DetectsAlike(c: Config, v: Vehicle, w: Vehicle, r: Reading)
    requires Alike(v, w)
    ensures Rejected(c, v, r) <==> Rejected(c, w, r)
    ensures Detects(c, v, r) <==> Detects(c, w, r)
  {
    PreparedAlike(c, v, w, r);
  }

  lemma GatesAlike(c: Config, v: Vehicle, w: Vehicle, r: Reading, b: real)
    requires c.medianWindow >= 1 && Alike(v, w)
    ensures Rejected(c, v, r) <==> Rejected(c, w, r)
    ensures Detects(c, v, r) <==> Detects(c, w, r)
    ensures Smoothed(c, v, r) == Smoothed(c, w, r) && (Crosses(c, v, r, b) <==> Crosses(c, w, r, b))
  {
    DetectsAlike(c, v, w, r);
    ToDetectAlike(c, v, w, r);
    ClassifyAlike(c, ToDetect(c, v, r), ToDetect(c, w, r), r.s, v.lastOdometer, b - Smoothed(c, v, r));
  }

  lemma AfterAlike(c: Config, v: Vehicle, w: Vehicle, r: Reading)
    requires Sound(c, v) && Sound(c, w) && Alike(v, w)
    ensures Alike(After(c, v, r), After(c, w, r))
  {
    PreparedAlike(c, v, w, r);
    GatesAlike(c, v, w, r, 0.0);
    if !Rejected(c, v, r) {
      var p, q := Prepared(c, v, r.s, r.warmup), Prepared(c, w, r.s, r.warmup);
      PassesGates(c, v, r, p);
      PassesGates(c, w, r, q);
      LevelAlike(c, OdoStage(p, r.s), OdoStage(q, r.s), r.s, p.lastOdometer);
    }
  }

  lemma LevelsIgnoreBaseline(c: Config, v: Vehicle, w: Vehicle, r: Reading, b: real)
    requires Sound(c, v) && Sound(c, w) && Alike(v, w)
    ensures Detects(c, v, r) <==> Detects(c, w, r)
    ensures Smoothed(c, v, r) == Smoothed(c, w, r) && (Crosses(c, v, r, b) <==> Crosses(c, w, r, b))
    ensures Alike(After(c, v, r), After(c, w, r))
  {
    GatesAlike(c, v, w, r, b);
    AfterAlike(c, v, w, r);
  }

  /** A reference that starts at the baseline and moves at crossings only: it forgets nothing. */
  function Reference(c: Config, v: Vehicle, rs: seq<Reading>): real
    requires Sound(c, v) && v.lastLevel.Some?
  {
    if rs == [] then v.baseline.value
    else
      var u, r, b := Stream(c, v, rs[..|rs| - 1]), rs[|rs| - 1], Reference(c, v, rs[..|rs| - 1]);
      NextReference(c, u, r, b)
  }

  function NextReference(c: Config, v: Vehicle, r: Reading, b: real): real
    requires c.medianWindow >= 1
  {
    if Detects(c, v, r) && Crosses(c, v, r, b) then Smoothed(c, v, r) else b
  }

  /** Where a reading starts from: the reference, or the last level after a gap. */
  function Basis(c: Config, v: Vehicle, r: Reading, b: real): real
    requires v.lastLevel.Some?
  {
    if Gap(c, v, r.s, r.warmup) then v.lastLevel.value else b
  }

  /** The reading forgets nothing that has built up since reference b. */
  predicate Keeps(c: Config, v: Vehicle, r: Reading, b: real)
    requires c.medianWindow >= 1 && v.lastLevel.Some?
  {
    if Detects(c, v, r) && SubNoise(c, v, r) && !Crosses(c, v, r, Basis(c, v, r, b)) then Smoothed(c, v, r) == b
    else Basis(c, v, r, b) == b
  }

  /** Where the engine's own baseline goes in a parked stretch. */
  lemma ParkedStep(c: Config, v: Vehicle, r: Reading)
    requires Sound(c, v) && v.lastLevel.Some? && Parked(c, r)
    ensures var q, t := Basis(c, v, r, v.baseline.value), After(c, v, r);
            && t.baseline.Some?
            && t.baseline.value == (if Detects(c, v, r) && (Crosses(c, v, r, q) || SubNoise(c, v, r)) then Smoothed(c, v, r) else q)
            && Total(EventsOf(c, v, r)) == (if Detects(c, v, r) && Crosses(c, v, r, q) then Smoothed(c, v, r) - q else 0.0)
  {
    PreparedFacts(c, v, r.s, r.warmup);
    if Detects(c, v, r) {
      DetectCase(c, v, r);
      DetectFacts(c, ToDetect(c, v, r), r.s, v.lastOdometer, Smoothed(c, v, r));
    } else {
      QuietCases(c, v, r);
    }
  }

  lemma KeepsExactly(c: Config, v: Vehicle, r: Reading, b: real)
    requires Sound(c, v) && v.lastLevel.Some? && Parked(c, r) && v.baseline == Some(b)
    ensures After(c, v, r).baseline.Some?
    ensures Keeps(c, v, r, b) <==> After(c, v, r).baseline.value - b == Total(EventsOf(c, v, r))
    ensures Keeps(c, v, r, b) ==> After(c, v, r).baseline.value == NextReference(c, v, r, b)
  {
    ParkedStep(c, v, r);
  }

  /** After every reading of the stream the baseline has moved by exactly the events detected. */
  ghost predicate NothingForgotten(c: Config, v: Vehicle, rs: seq<Reading>)
    requires Sound(c, v) && v.lastLevel.Some?
  {
    rs == [] || (NothingForgotten(c, v, rs[..|rs| - 1]) && BalancedAt(c, v, rs))
  }

  ghost predicate BalancedAt(c: Config, v: Vehicle, rs: seq<Reading>)
    requires Sound(c, v) && v.lastLevel.Some?
  {
    Stream(c, v, rs).baseline.value - v.baseline.value == Total(StreamEvents(c, v, rs))
  }

  ghost predicate KeepsAll(c: Config, v: Vehicle, rs: seq<Reading>)
    requires Sound(c, v) && v.lastLevel.Some?
  {
    rs == [] ||
    var before := rs[..|rs| - 1];
    KeepsAll(c, v, before) && Keeps(c, Stream(c, v, before), rs[|rs| - 1], Reference(c, v, before))
  }

  /** One more reading is balanced exactly when the engine's step is. */
  lemma BalancedNext(c: Config, v: Vehicle, rs: seq<Reading>, before: seq<Reading>, r: Reading, u: Vehicle)
    requires Sound(c, v) && v.lastLevel.Some? && rs == before + [r] && u == Stream(c, v, before) && BalancedAt(c, v, before)
    ensures u.baseline.Some? && Stream(c, v, rs) == After(c, u, r) && After(c, u, r).baseline.Some?
    ensures BalancedAt(c, v, rs) <==> After(c, u, r).baseline.value - u.baseline.value == Total(EventsOf(c, u, r))
  {
    assert rs[..|before|] == before;
    LedgerBalances(c, v, before);
    LedgerStep(c, u, r);
    TotalAppend(StreamEvents(c, v, before), EventsOf(c, u, r));
  }

  /**
   * In a parked stretch "drops accumulate toward their thresholds" holds, every movement of the
   * baseline being an event, exactly when no gap and no reading below the noise floor comes
   * while the level is away from the reference, which moves at crossings only.  Then the
   * baseline is the reference.
   */
  lemma {:induction false} NothingForgottenExactly(c: Config, v: Vehicle, rs: seq<Reading>)
    requires Sound(c, v) && v.lastLevel.Some? && ParkedStream(c, rs)
    ensures NothingForgotten(c, v, rs) <==> KeepsAll(c, v, rs)
    ensures KeepsAll(c, v, rs) ==> Stream(c, v, rs).baseline == Some(Reference(c, v, rs)) && BalancedAt(c, v, rs)
  {
    if rs == [] {
      assert Total([]) == 0.0;
    } else {
      var before, r := rs[..|rs| - 1], rs[|rs| - 1];
      var u := Stream(c, v, before);
      assert rs == before + [r] && Parked(c, r);
      NothingForgottenExactly(c, v, before);
      if KeepsAll(c, v, before) {
        BalancedNext(c, v, rs, before, r, u);
        KeepsExactly(c, u, r, Reference(c, v, before));
      }
    }
  }

  /** In particular when there are no gaps and every detected movement reaches the noise floor. */
  ghost predicate Quiet(c: Config, v: Vehicle, rs: seq<Reading>)
    requires Sound(c, v) && v.lastLevel.Some?
  {
    rs == [] ||
    var u, r := Stream(c, v, rs[..|rs| - 1]), rs[|rs| - 1];
    Quiet(c, v, rs[..|rs| - 1]) && !Gap(c, u, r.s, r.warmup) && !(Detects(c, u, r) && SubNoise(c, u, r))
  }

  lemma {:induction false} QuietForgetsNothing(c: Config, v: Vehicle, rs: seq<Reading>)
    requires Sound(c, v) && v.lastLevel.Some? && ParkedStream(c, rs) && Quiet(c, v, rs)
    ensures NothingForgotten(c, v, rs)
  {
    QuietKeeps(c, v, rs);
    NothingForgottenExactly(c, v, rs);
  }

  lemma {:induction false} QuietKeeps(c: Config, v: Vehicle, rs: seq<Reading>)
    requires Sound(c, v) && v.lastLevel.Some? && Quiet(c, v, rs)
    ensures KeepsAll(c, v, rs)
  {
    if rs != [] { QuietKeeps(c, v, rs[..|rs| - 1]); }
  }

  // ---------- single readings: what is promised and what holds ----------

  lemma PercentFits(x: real, k: real)
    requires k > 0.0
    ensures Percent(x, k) <= k <==> x <= 100.0
    ensures x >= 0.0 ==> Percent(x, k) >= 0.0
  {
    if x <= 100.0 { assert (100.0 - x) * k >= 0.0; } else { assert (x - 100.0) * k > 0.0; }
  }

  /** "Bounds the raw level to the tank": a converted level fits exactly when litres are read, or one of the two is at most 100. */
  lemma LitresFitExactly(v: Vehicle, s: Snapshot)
    requires v.tankCapacity > 0.0
    ensures 0.0 <= LitresOf(v, s)
    ensures LitresOf(v, s) <= v.tankCapacity <==> v.inLitres || s.fuelLevel <= 100.0 || v.tankCapacity <= 100.0
  {
    PercentFits(ClampFuel(s.fuelLevel, v.tankCapacity), v.tankCapacity);
  }

  /** The clamp leaves a reading alone exactly when it lies between 0 and the capacity in litres, whatever its unit. */
  lemma ClampKeepsExactly(v: Vehicle, s: Snapshot)
    requires v.tankCapacity > 0.0
    ensures LitresOf(v, s) == ToLitres(v.inLitres, v.tankCapacity, s.fuelLevel) <==> 0.0 <= s.fuelLevel <= v.tankCapacity
  {
    var x, k := s.fuelLevel, v.tankCapacity;
    if !v.inLitres {
      if x < 0.0 { assert x * k < 0.0; }
      if x > k { assert (x - k) * k > 0.0; }
    }
  }

  /** A 200-litre tank read in percent accepts 150 percent as 300 litres. */
  lemma PercentOverflows()
    ensures var v := Fresh(true, 200.0, false);
            LitresOf(v, Snapshot("", "", 1.0, 0.0, 150.0, 0.0)) == 300.0
  {
  }

  /** An abnormal drain always reports a loss exactly when the expected burn is positive. */
  lemma AbnormalDrainIsLossExactly(c: Config, v: Vehicle, s: Snapshot, odoBefore: real)
    requires v.lastLevel.Some? && v.baseline.Some?
    requires !Stationary(c, s) && v.tripActive && s.status == "in_transit"
    ensures (forall smoothed :: AbnormalLoss(c, v, s, odoBefore, smoothed))
            <==> ExpectedBurn(odoBefore, s.odometer, c) > 0.0
  {
    if ExpectedBurn(odoBefore, s.odometer, c) <= 0.0 {
      var x := v.baseline.value;
      var e := Event(AbnormalDrain, 0.0, x, x);
      assert DetectStage(c, v, s, odoBefore, x).1 == [e];
      assert e in DetectStage(c, v, s, odoBefore, x).1;
      assert !AbnormalLoss(c, v, s, odoBefore, x);
    }
  }

  /** Every abnormal-drain event of this detection has a positive estimate. */
  ghost predicate AbnormalLoss(c: Config, v: Vehicle, s: Snapshot, odoBefore: real, smoothed: real)
    requires v.lastLevel.Some? && v.baseline.Some?
  {
    forall e | e in DetectStage(c, v, s, odoBefore, smoothed).1 :: e.kind.AbnormalDrain? ==> e.estimated > 0.0
  }

  /** Without an odometer reading a moving vehicle whose level did not change at all is reported. */
  lemma MissingOdometerReportsNothing(c: Config, v: Vehicle, s: Snapshot, odoBefore: real)
    requires v.lastLevel.Some? && v.baseline.Some?
    requires !Stationary(c, s) && v.tripActive && s.status == "in_transit" && s.odometer <= 0.0
    ensures var x := v.baseline.value;
            DetectStage(c, v, s, odoBefore, x).1 == [Event(AbnormalDrain, 0.0, x, x)]
  {
  }
}
