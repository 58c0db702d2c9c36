/**
 * The per-vehicle fuel pipeline of internal/fuel/engine.go.
 *
 * Levels are reals in litres; None stands for the not-a-number level before the first
 * reading.  Times are reals in seconds, 0.0 being the zero time.
 */
module FuelEngine {
  import opened Common
  import opened Smoothing

  datatype Config = Config(medianWindow: nat, spikePct: real, noisePct: real, refillL: real, theftL: real,
                           siphonL: real, siphonStop: real, stopSpeed: real, odoTolerance: real,
                           abnormalLPerKm: real, abnormalMarginPct: real, gapTolerance: real)

  datatype Snapshot = Snapshot(tripID: string, status: string, ts: real, speed: real, fuelLevel: real, odometer: real)

  datatype Vehicle = Vehicle(sensorFitted: bool, tankCapacity: real, inLitres: bool,
                             window: seq<real>, pendingSpike: Option<real>, lastLevel: Option<real>,
                             baseline: Option<real>, lastOdometer: real, lastTs: real, refillPending: real,
                             stopStart: real, tripID: string, tripActive: bool)

  datatype Kind = Siphon | Theft | AbnormalDrain | Refill

  datatype Event = Event(kind: Kind, estimated: real, before: real, after: real)

  /** What one call reports: events written, a rollback event it could not write, or events it could not write. */
  datatype Outcome = Ok(events: seq<Event>, rollback: bool) | RollbackUnwritten | EventsUnwritten(events: seq<Event>)

  const ACTIVE: seq<string> := ["scheduled", "assigned", "started", "in_transit", "delivered"]

  function Fresh(sensorFitted: bool, tankCapacity: real, inLitres: bool): Vehicle {
    Vehicle(sensorFitted, tankCapacity, inLitres, [], None, None, None, 0.0, 0.0, 0.0, 0.0, "", false)
  }

  // ---------- pure parts ----------

  function ClampFuel(level: real, capacity: real): real {
    if level < 0.0 then 0.0 else if level > capacity then capacity else level
  }

  function Percent(level: real, capacity: real): real { level * capacity / 100.0 }

  function ToLitres(inLitres: bool, capacity: real, level: real): real {
    if inLitres then level else Percent(level, capacity)
  }

  /** The clamped and converted level of a reading. */
  function Litres(inLitres: bool, capacity: real, level: real): real {
    ToLitres(inLitres, capacity, ClampFuel(level, capacity))
  }

  function LitresOf(v: Vehicle, s: Snapshot): real { Litres(v.inLitres, v.tankCapacity, s.fuelLevel) }

  predicate Deviates(reading: real, med: real, pct: real) {
    if med < 0.000000001 then reading > 0.000000001 else Abs(reading - med) / med > pct / 100.0
  }

  function ExpectedBurn(odoBefore: real, odometer: real, c: Config): real {
    (if odometer > 0.0 && odoBefore > 0.0 then odometer - odoBefore else 0.0)
      * c.abnormalLPerKm * (1.0 + c.abnormalMarginPct / 100.0)
  }

  predicate ActiveAt(s: Snapshot) { s.tripID == "" || s.status in ACTIVE }
  predicate Stationary(c: Config, s: Snapshot) { Abs(s.speed) < c.stopSpeed }

  function LastN(w: seq<real>, n: nat): seq<real> {
    if |w| > n then w[|w| - n..] else w
  }

  // ---------- stages ----------

  predicate TripEnds(v: Vehicle, s: Snapshot) { v.tripActive && !ActiveAt(s) && v.tripID == s.tripID }

  function TripStage(v: Vehicle, s: Snapshot): Vehicle {
    var u := if TripEnds(v, s) then v.(refillPending := 0.0, baseline := v.lastLevel) else v;
    u.(tripID := s.tripID, tripActive := ActiveAt(s))
  }

  predicate Gap(c: Config, v: Vehicle, s: Snapshot, warmup: bool) {
    !warmup && v.lastTs != 0.0 && s.ts - v.lastTs > c.gapTolerance
  }

  function GapStage(c: Config, v: Vehicle, s: Snapshot, warmup: bool): Vehicle {
    var u := if Gap(c, v, s, warmup) then v.(window := [], baseline := v.lastLevel, stopStart := 0.0) else v;
    u.(lastTs := if s.ts > v.lastTs then s.ts else v.lastTs)
  }

  predicate RollsBack(c: Config, v: Vehicle, s: Snapshot) {
    s.odometer > 0.0 && v.lastOdometer > 0.0 && s.odometer < v.lastOdometer - c.odoTolerance
  }

  function OdoStage(v: Vehicle, s: Snapshot): Vehicle {
    if s.odometer <= 0.0 then v else v.(lastOdometer := s.odometer)
  }

  predicate Measures(v: Vehicle) { v.sensorFitted && v.tankCapacity > 0.0 }

  predicate Held(c: Config, window: seq<real>, pending: Option<real>, litres: real) {
    pending.None? && window != [] && Deviates(litres, Median(window), c.spikePct)
  }

  /** The window after a reading that is not held. */
  function NewWindow(c: Config, window: seq<real>, pending: Option<real>, litres: real): seq<real> {
    LastN((if pending.Some? then window + [pending.value] else window) + [litres], c.medianWindow)
  }

  function FirstReading(c: Config, v: Vehicle, s: Snapshot): Vehicle {
    v.(window := LastN(v.window + [LitresOf(v, s)], c.medianWindow),
       lastLevel := Some(LitresOf(v, s)), baseline := Some(LitresOf(v, s)),
       stopStart := if Stationary(c, s) then s.ts else v.stopStart)
  }

  function StopStart(c: Config, v: Vehicle, s: Snapshot): real {
    if !Stationary(c, s) then 0.0 else if v.stopStart == 0.0 then s.ts else v.stopStart
  }

  /** Which anomaly a smoothed level is, if any. */
  function Classify(c: Config, v: Vehicle, s: Snapshot, odoBefore: real, drop: real): Option<Kind> {
    var stop := StopStart(c, v, s);
    if Stationary(c, s) && v.tripActive && stop != 0.0 && s.ts - stop >= c.siphonStop && drop >= c.siphonL then Some(Siphon)
    else if Stationary(c, s) && v.tripActive && drop >= c.theftL then Some(Theft)
    else if !Stationary(c, s) && v.tripActive && s.status == "in_transit"
            && drop >= ExpectedBurn(odoBefore, s.odometer, c) then Some(AbnormalDrain)
    else if -drop >= c.refillL then Some(Refill)
    else None
  }

  predicate Explained(c: Config, v: Vehicle, s: Snapshot, delta: real) {
    !Stationary(c, s) || Abs(delta) < Percent(c.noisePct, v.tankCapacity)
  }

  function DetectStage(c: Config, v: Vehicle, s: Snapshot, odoBefore: real, smoothed: real): (Vehicle, seq<Event>)
    requires v.lastLevel.Some? && v.baseline.Some?
  {
    var base := v.baseline.value;
    var drop := base - smoothed;
    var kind := Classify(c, v, s, odoBefore, drop);
    var u := v.(stopStart := StopStart(c, v, s));
    match kind
    case Some(k) =>
      (u.(baseline := Some(smoothed),
          refillPending := if k.Refill? then v.refillPending - drop else v.refillPending),
       [Event(k, if k.Refill? then -drop else drop, base, smoothed)])
    case None =>
      (if Explained(c, v, s, smoothed - v.lastLevel.value) then u.(baseline := Some(smoothed)) else u, [])
  }

  function LevelStage(c: Config, v: Vehicle, s: Snapshot, odoBefore: real): (Vehicle, seq<Event>)
    requires v.lastLevel.Some? <==> v.baseline.Some?
    requires c.medianWindow >= 1
  {
    if !Measures(v) then (v, [])
    else if v.lastLevel.None? then (FirstReading(c, v, s), [])
    else if Held(c, v.window, v.pendingSpike, LitresOf(v, s)) then (v.(pendingSpike := Some(LitresOf(v, s))), [])
    else
      var w := NewWindow(c, v.window, v.pendingSpike, LitresOf(v, s));
      var (u, events) := DetectStage(c, v.(window := w, pendingSpike := None), s, odoBefore, Median(w));
      (u.(lastLevel := Some(Median(w))), events)
  }

  /** State before the level is looked at. */
  function Prepared(c: Config, v: Vehicle, s: Snapshot, warmup: bool): Vehicle {
    GapStage(c, TripStage(v, s), s, warmup)
  }

  /** One snapshot; odoCommits and commits tell whether a rollback event, and other events, could be written. */
  function PipelineOf(c: Config, v: Vehicle, s: Snapshot, warmup: bool, odoCommits: bool, commits: bool): (Vehicle, Outcome)
    requires v.lastLevel.Some? <==> v.baseline.Some?
    requires c.medianWindow >= 1
  {
    var u := Prepared(c, v, s, warmup);
    if RollsBack(c, u, s) && !odoCommits then (u, RollbackUnwritten)
    else
      var (x, events) := LevelStage(c, OdoStage(u, s), s, u.lastOdometer);
      (x, if events == [] || commits then Ok(events, RollsBack(c, u, s)) else EventsUnwritten(events))
  }

  // ---------- the code ----------

  class VehicleFuelState {
    const sensorFitted: bool
    const tankCapacity: real
    const inLitres: bool
    var window: seq<real>
    var pendingSpike: Option<real>
    var lastLevel: Option<real>
    var baselineLevel: Option<real>
    var lastOdometer: real
    var lastTs: real
    var refillPending: real
    var stopStart: real
    var tripID: string
    var tripActive: bool

    function View(): Vehicle
      reads this
    {
      Vehicle(sensorFitted, tankCapacity, inLitres, window, pendingSpike, lastLevel, baselineLevel,
              lastOdometer, lastTs, refillPending, stopStart, tripID, tripActive)
    }

    constructor (sensorFitted: bool, tankCapacity: real, inLitres: bool)
      ensures View() == Fresh(sensorFitted, tankCapacity, inLitres)
    {
      this.sensorFitted, this.tankCapacity, this.inLitres := sensorFitted, tankCapacity, inLitres;
      window, pendingSpike, lastLevel, baselineLevel := [], None, None, None;
      lastOdometer, lastTs, refillPending, stopStart, tripID, tripActive := 0.0, 0.0, 0.0, 0.0, "", false;
    }

    method OdoRollback(c: Config, s: Snapshot, commits: bool) returns (ok: bool, rolledBack: bool)
      modifies this
      ensures rolledBack == RollsBack(c, old(View()), s) && ok == (commits || !rolledBack)
      ensures View() == if ok then OdoStage(old(View()), s) else old(View())
    {
      ok, rolledBack := true, false;
      if s.odometer <= 0.0 {
        return;
      }
      if lastOdometer > 0.0 && s.odometer < lastOdometer - c.odoTolerance {
        rolledBack := true;
        if !commits {
          ok := false;
          return;
        }
      }
      lastOdometer := s.odometer;
    }

    method Detect(c: Config, s: Snapshot, odoBefore: real, smoothed: real) returns (events: seq<Event>)
      requires lastLevel.Some? && baselineLevel.Some?
      modifies this
      ensures (View(), events) == DetectStage(c, old(View()), s, odoBefore, smoothed)
    {
      var delta := smoothed - lastLevel.value;
      var noise := Percent(c.noisePct, tankCapacity);
      var stationary := Abs(s.speed) < c.stopSpeed;
      var stoppedFor := 0.0;
      if stationary {
        if stopStart == 0.0 {
          stopStart := s.ts;
        }
        stoppedFor := s.ts - stopStart;
      } else {
        stopStart := 0.0;
      }
      var base := baselineLevel.value;
      var drop, jump := base - smoothed, smoothed - base;
      events := [];
      if stationary && tripActive && stopStart != 0.0 && stoppedFor >= c.siphonStop && drop >= c.siphonL {
        events := [Event(Siphon, drop, base, smoothed)];
        baselineLevel := Some(smoothed);
      } else if stationary && tripActive && drop >= c.theftL {
        events := [Event(Theft, drop, base, smoothed)];
        baselineLevel := Some(smoothed);
      } else if !stationary && tripActive && s.status == "in_transit" && drop >= ExpectedBurn(odoBefore, s.odometer, c) {
        events := [Event(AbnormalDrain, drop, base, smoothed)];
        baselineLevel := Some(smoothed);
      } else if jump >= c.refillL {
        refillPending := refillPending + jump;
        events := [Event(Refill, jump, base, smoothed)];
        baselineLevel := Some(smoothed);
      }
      if |events| == 0 {
        if !stationary || Abs(delta) < noise {
          baselineLevel := Some(smoothed);
        }
      }
    }

    /** Trip status, gap tolerance and watermark. */
    method Prepare(c: Config, s: Snapshot, warmup: bool)
      modifies this
      ensures View() == Prepared(c, old(View()), s, warmup)
    {
      var active := s.tripID == "" || s.status in ACTIVE;
      if tripActive && !active && tripID == s.tripID {
        refillPending := 0.0;
        baselineLevel := lastLevel;
      }
      tripID := s.tripID;
      tripActive := active;
      if !warmup && lastTs != 0.0 && s.ts - lastTs > c.gapTolerance {
        window := [];
        baselineLevel := lastLevel;
        stopStart := 0.0;
      }
      if s.ts > lastTs {
        lastTs := s.ts;
      }
    }

    /** Appends a reading and keeps the newest ones. */
    method Push(c: Config, litres: real)
      modifies this`window
      ensures window == LastN(old(window) + [litres], c.medianWindow)
    {
      window := window + [litres];
      if |window| > c.medianWindow {
        window := window[|window| - c.medianWindow..];
      }
    }

    /** Smoothing with spike hold, then detection. */
    method Level(c: Config, s: Snapshot, odoBefore: real) returns (events: seq<Event>)
      requires lastLevel.Some? <==> baselineLevel.Some?
      requires c.medianWindow >= 1
      modifies this
      ensures (View(), events) == LevelStage(c, old(View()), s, odoBefore)
    {
      if !sensorFitted || tankCapacity <= 0.0 {
        return [];
      }
      var litres := Litres(inLitres, tankCapacity, s.fuelLevel);
      if lastLevel.None? {
        Push(c, litres);
        lastLevel, baselineLevel := Some(litres), Some(litres);
        if Abs(s.speed) < c.stopSpeed {
          stopStart := s.ts;
        }
        return [];
      }
      if pendingSpike.Some? {
        window := window + [pendingSpike.value];
        pendingSpike := None;
      } else if |window| > 0 {
        if Deviates(litres, Median(window), c.spikePct) {
          pendingSpike := Some(litres);
          return [];
        }
      }
      Push(c, litres);
      var smoothed := Median(window);
      events := Detect(c, s, odoBefore, smoothed);
      lastLevel := Some(smoothed);
    }

    method Pipeline(c: Config, s: Snapshot, warmup: bool, odoCommits: bool, commits: bool) returns (r: Outcome)
      requires lastLevel.Some? <==> baselineLevel.Some?
      requires c.medianWindow >= 1
      modifies this
      ensures (View(), r) == PipelineOf(c, old(View()), s, warmup, odoCommits, commits)
    {
      Prepare(c, s, warmup);
      var odoBefore := lastOdometer;
      var ok, rolledBack := OdoRollback(c, s, odoCommits);
      if !ok {
        return RollbackUnwritten;
      }
      var events := Level(c, s, odoBefore);
      if |events| == 0 {
        return Ok([], rolledBack);
      }
      if !commits {
        return EventsUnwritten(events);
      }
      return Ok(events, rolledBack);
    }
  }
}
