/**
 * The route-deviation state machine of internal/deviation/state.go.
 *
 * Times are reals in seconds, 0.0 being the zero time.  The distance of a fix to the
 * corridor is part of the fix; the distance between two fixes is an arbitrary function.
 */
module Deviation {
  import opened Common

  datatype Policy = Policy(maxDistance: real, returnDistance: real, sustainedSec: real, minStreak: int,
                           maxAccuracy: real, maxSpeedKmh: real, cooldownSec: real)

  /** onCorridor: a route corridor with at least two waypoints is known. */
  datatype Fix = Fix(onCorridor: bool, lat: real, lng: real, accuracy: real, ts: real, dist: real)

  type Haversine = (real, real, real, real) -> real

  datatype State = OnRoute | Deviating | Sustained | Alerted | ReturnedToRoute

  datatype Tracker = Tracker(state: State, deviationStart: real, streak: int, lastAlertAt: real, maxDist: real,
                             lastLat: real, lastLng: real, hasLastFix: bool, lastFixTime: real)

  function New(): Tracker { Tracker(OnRoute, 0.0, 0, 0.0, 0.0, 0.0, 0.0, false, 0.0) }

  // ---------- specification of one step ----------

  /** A fix the gates let through: corridor known, accuracy good, no teleportation. */
  predicate Accepts(p: Policy, hav: Haversine, t: Tracker, f: Fix) {
    && f.onCorridor
    && !(f.accuracy > 0.0 && p.maxAccuracy > 0.0 && f.accuracy > p.maxAccuracy)
    && !Teleports(p, hav, t, f)
  }

  predicate Teleports(p: Policy, hav: Haversine, t: Tracker, f: Fix) {
    && t.hasLastFix && t.lastLat != 0.0 && t.lastLng != 0.0 && t.lastFixTime != 0.0
    && f.ts - t.lastFixTime > 0.0
    && p.maxSpeedKmh > 0.0
    && (hav(t.lastLat, t.lastLng, f.lat, f.lng) / 1000.0) / ((f.ts - t.lastFixTime) / 3600.0) > p.maxSpeedKmh
  }

  /** The transition on an accepted fix. */
  function Move(p: Policy, t: Tracker, f: Fix): (Tracker, bool) {
    var u := t.(lastLat := f.lat, lastLng := f.lng, hasLastFix := true, lastFixTime := f.ts);
    match t.state
    case OnRoute =>
      (if f.dist > p.maxDistance then u.(state := Deviating, deviationStart := f.ts, streak := 1, maxDist := f.dist)
       else u.(state := OnRoute), false)
    case ReturnedToRoute =>
      (if f.dist > p.maxDistance then u.(state := Deviating, deviationStart := f.ts, streak := 1, maxDist := f.dist)
       else u.(state := OnRoute), false)
    case Deviating =>
      if f.dist <= p.returnDistance then (u.(state := OnRoute, streak := 0, deviationStart := 0.0), false)
      else
        var v := u.(streak := t.streak + 1, maxDist := if f.dist > t.maxDist then f.dist else t.maxDist);
        if v.streak >= p.minStreak && f.ts - t.deviationStart >= p.sustainedSec then
          (v.(state := Alerted, lastAlertAt := f.ts), true)
        else (v, false)
    case Alerted =>
      if f.dist <= p.returnDistance then (u.(state := ReturnedToRoute, streak := 0, deviationStart := 0.0), false)
      else
        var v := u.(maxDist := if f.dist > t.maxDist then f.dist else t.maxDist);
        if p.cooldownSec > 0.0 && t.lastAlertAt != 0.0 && f.ts - t.lastAlertAt >= p.cooldownSec then
          (v.(lastAlertAt := f.ts), true)
        else (v, false)
    case Sustained => (u, false)
  }

  function StepOf(p: Policy, hav: Haversine, t: Tracker, f: Fix): (Tracker, bool) {
    if Accepts(p, hav, t, f) then Move(p, t, f) else (t, false)
  }

  // ---------- the code ----------

  class TripDeviationTracker {
    var State: State
    var DeviationStart: real
    var StreakCount: int
    var LastAlertAt: real
    var MaxDeviationDist: real
    var LastLat: real
    var LastLng: real
    var HasLastFix: bool
    var LastFixTime: real

    function View(): Tracker
      reads this
    {
      Tracker(State, DeviationStart, StreakCount, LastAlertAt, MaxDeviationDist, LastLat, LastLng, HasLastFix, LastFixTime)
    }

    constructor ()
      ensures View() == New()
    {
      State, DeviationStart, StreakCount, LastAlertAt, MaxDeviationDist := OnRoute, 0.0, 0, 0.0, 0.0;
      LastLat, LastLng, HasLastFix, LastFixTime := 0.0, 0.0, false, 0.0;
    }

    /** Returns the distance, the state after the fix, and whether an alert is due. */
    method Step(p: Policy, hav: Haversine, f: Fix) returns (distM: real, state: State, shouldAlert: bool)
      modifies this
      ensures (View(), shouldAlert) == StepOf(p, hav, old(View()), f)
      ensures state == State && distM == if Accepts(p, hav, old(View()), f) then f.dist else 0.0
    {
      if !f.onCorridor {
        return 0.0, State, false;
      }
      if f.accuracy > 0.0 && p.maxAccuracy > 0.0 && f.accuracy > p.maxAccuracy {
        return 0.0, State, false;
      }
      if HasLastFix && LastLat != 0.0 && LastLng != 0.0 && LastFixTime != 0.0 {
        var dtSec := f.ts - LastFixTime;
        if dtSec > 0.0 {
          var jump := hav(LastLat, LastLng, f.lat, f.lng);
          var speedKmh := (jump / 1000.0) / (dtSec / 3600.0);
          if p.maxSpeedKmh > 0.0 && speedKmh > p.maxSpeedKmh {
            return 0.0, State, false;
          }
        }
      }
      shouldAlert := Advance(p, f);
      return f.dist, State, shouldAlert;
    }

    /** An accepted fix. */
    method Advance(p: Policy, f: Fix) returns (shouldAlert: bool)
      modifies this
      ensures (View(), shouldAlert) == Move(p, old(View()), f)
    {
      LastLat, LastLng, HasLastFix, LastFixTime := f.lat, f.lng, true, f.ts;
      shouldAlert := false;
      if State == OnRoute || State == ReturnedToRoute {
        if f.dist > p.maxDistance {
          State, DeviationStart, StreakCount, MaxDeviationDist := Deviating, f.ts, 1, f.dist;
        } else {
          State := OnRoute;
        }
      } else if State == Deviating {
        if f.dist <= p.returnDistance {
          State, StreakCount, DeviationStart := OnRoute, 0, 0.0;
        } else {
          StreakCount := StreakCount + 1;
          if f.dist > MaxDeviationDist {
            MaxDeviationDist := f.dist;
          }
          var elapsedSec := f.ts - DeviationStart;
          if StreakCount >= p.minStreak && elapsedSec >= p.sustainedSec {
            State, LastAlertAt := Alerted, f.ts;
            shouldAlert := true;
          }
        }
      } else if State == Alerted {
        if f.dist <= p.returnDistance {
          State, StreakCount, DeviationStart := ReturnedToRoute, 0, 0.0;
        } else {
          if f.dist > MaxDeviationDist {
            MaxDeviationDist := f.dist;
          }
          if p.cooldownSec > 0.0 && LastAlertAt != 0.0 && f.ts - LastAlertAt >= p.cooldownSec {
            LastAlertAt := f.ts;
            shouldAlert := true;
          }
        }
      }
    }
  }

  // ---------- runs ----------

  /** The tracker after a whole stream of fixes. */
  function Run(p: Policy, hav: Haversine, fixes: seq<Fix>): Tracker {
    if fixes == [] then New()
    else StepOf(p, hav, Run(p, hav, fixes[..|fixes| - 1]), fixes[|fixes| - 1]).0
  }

  /** The fixes of a stream that pass the gates. */
  function Accepted(p: Policy, hav: Haversine, fixes: seq<Fix>): seq<Fix> {
    if fixes == [] then []
    else
      var before, f := fixes[..|fixes| - 1], fixes[|fixes| - 1];
      Accepted(p, hav, before) + if Accepts(p, hav, Run(p, hav, before), f) then [f] else []
  }

  /** Times of the alerts raised along a stream. */
  function Alerts(p: Policy, hav: Haversine, fixes: seq<Fix>): seq<real> {
    if fixes == [] then []
    else
      var before, f := fixes[..|fixes| - 1], fixes[|fixes| - 1];
      Alerts(p, hav, before) + if StepOf(p, hav, Run(p, hav, before), f).1 then [f.ts] else []
  }

  lemma Snoc(p: Policy, hav: Haversine, fixes: seq<Fix>, f: Fix)
    ensures Run(p, hav, fixes + [f]) == StepOf(p, hav, Run(p, hav, fixes), f).0
    ensures Accepted(p, hav, fixes + [f]) ==
            Accepted(p, hav, fixes) + if Accepts(p, hav, Run(p, hav, fixes), f) then [f] else []
    ensures Alerts(p, hav, fixes + [f]) ==
            Alerts(p, hav, fixes) + if StepOf(p, hav, Run(p, hav, fixes), f).1 then [f.ts] else []
  {
    assert (fixes + [f])[..|fixes|] == fixes;
  }

  /** Rejected fixes leave the whole run as if they were absent. */
  lemma {:induction false} RejectedFixesAreInvisible(p: Policy, hav: Haversine, fixes: seq<Fix>)
    ensures Run(p, hav, Accepted(p, hav, fixes)) == Run(p, hav, fixes)
    ensures Alerts(p, hav, Accepted(p, hav, fixes)) == Alerts(p, hav, fixes)
    ensures Accepted(p, hav, Accepted(p, hav, fixes)) == Accepted(p, hav, fixes)
  {
    if fixes != [] {
      var before, f := fixes[..|fixes| - 1], fixes[|fixes| - 1];
      RejectedFixesAreInvisible(p, hav, before);
      assert before + [f] == fixes;
      Snoc(p, hav, before, f);
      var acc := Accepted(p, hav, before);
      if Accepts(p, hav, Run(p, hav, before), f) {
        Snoc(p, hav, acc, f);
      } else {
        assert acc + [] == acc && Alerts(p, hav, before) + [] == Alerts(p, hav, before);
      }
    }
  }

  // ---------- which fixes are kept ----------

  /** Speed in km/h over h metres and dt seconds against a limit, without a quotient. */
  lemma SpeedLimit(h: real, dt: real, limit: real)
    requires dt > 0.0
    ensures (h / 1000.0) / (dt / 3600.0) <= limit <==> 3600.0 * h <= limit * dt * 1000.0
  {
    var speed := (h / 1000.0) / (dt / 3600.0);
    assert speed * dt * 1000.0 == 3600.0 * h;
    if speed <= limit {
      assert (limit - speed) * dt >= 0.0;
    } else {
      assert (speed - limit) * dt > 0.0;
    }
  }

  /** Could the vehicle have driven from the last fix kept to this one?  Zero coordinates and times are no evidence. */
  predicate Reachable(p: Policy, hav: Haversine, last: Fix, f: Fix) {
    last.lat == 0.0 || last.lng == 0.0 || last.ts == 0.0 || f.ts <= last.ts || p.maxSpeedKmh <= 0.0
    || 3600.0 * hav(last.lat, last.lng, f.lat, f.lng) <= p.maxSpeedKmh * (f.ts - last.ts) * 1000.0
  }

  /** A fix on a known corridor, not known to be inaccurate, within reach of the last one kept. */
  predicate Credible(p: Policy, hav: Haversine, kept: seq<Fix>, f: Fix) {
    && f.onCorridor
    && (f.accuracy <= 0.0 || p.maxAccuracy <= 0.0 || f.accuracy <= p.maxAccuracy)
    && (kept == [] || Reachable(p, hav, kept[|kept| - 1], f))
  }

  /** The tracker's last fix is the last one kept. */
  ghost predicate LastKept(t: Tracker, kept: seq<Fix>) {
    && (t.hasLastFix <==> kept != [])
    && (kept != [] ==> var f := kept[|kept| - 1]; (t.lastLat, t.lastLng, t.lastFixTime) == (f.lat, f.lng, f.ts))
  }

  lemma {:induction false} RemembersLastKept(p: Policy, hav: Haversine, fixes: seq<Fix>)
    ensures LastKept(Run(p, hav, fixes), Accepted(p, hav, fixes))
  {
    if fixes != [] { RemembersLastKept(p, hav, fixes[..|fixes| - 1]); }
  }

  /** Which fixes are kept, read off the stream: the credible ones, judged by those kept before. */
  lemma {:induction false} AcceptedExactly(p: Policy, hav: Haversine, fixes: seq<Fix>, f: Fix)
    ensures var kept := Accepted(p, hav, fixes);
            Accepted(p, hav, fixes + [f]) == if Credible(p, hav, kept, f) then kept + [f] else kept
  {
    Snoc(p, hav, fixes, f);
    RemembersLastKept(p, hav, fixes);
    var t := Run(p, hav, fixes);
    if f.ts - t.lastFixTime > 0.0 {
      SpeedLimit(hav(t.lastLat, t.lastLng, f.lat, f.lng), f.ts - t.lastFixTime, p.maxSpeedKmh);
    }
  }

  // ---------- alert rate ----------

  predicate Ascending(fixes: seq<Fix>) {
    forall i, j | 0 <= i < j < |fixes| :: fixes[i].ts <= fixes[j].ts
  }

  /** Least time between two alerts; without a cooldown there are no repeated alerts in an excursion. */
  function MinGap(p: Policy): real {
    if p.cooldownSec > 0.0 then MinR(p.cooldownSec, p.sustainedSec) else p.sustainedSec
  }

  ghost predicate Spaced(alerts: seq<real>, gap: real) {
    forall i | 0 < i < |alerts| :: alerts[i] - alerts[i - 1] >= gap
  }

  /** What the tracker remembers about the last alert. */
  ghost predicate Remembers(t: Tracker, alerts: seq<real>) {
    && t.state != Sustained
    && (t.state == Alerted ==> alerts != [] && t.lastAlertAt == alerts[|alerts| - 1])
    && (t.state == Deviating && alerts != [] ==> t.deviationStart >= alerts[|alerts| - 1])
  }

  lemma SpacedStep(p: Policy, t: Tracker, f: Fix, alerts: seq<real>)
    requires Spaced(alerts, MinGap(p)) && Remembers(t, alerts)
    requires alerts != [] ==> alerts[|alerts| - 1] <= f.ts
    ensures var (t', alert) := Move(p, t, f);
            var alerts' := if alert then alerts + [f.ts] else alerts;
            Spaced(alerts', MinGap(p)) && Remembers(t', alerts')
  {
  }

  /** Alert times lie within the span of the stream. */
  ghost predicate InSpan(alerts: seq<real>, fixes: seq<Fix>) {
    forall i | 0 <= i < |alerts| :: fixes != [] && fixes[0].ts <= alerts[i] <= fixes[|fixes| - 1].ts
  }

  lemma SpanStep(alerts: seq<real>, before: seq<Fix>, f: Fix)
    requires InSpan(alerts, before) && (before != [] ==> before[|before| - 1].ts <= f.ts && before[0].ts <= f.ts)
    ensures InSpan(alerts, before + [f]) && InSpan(alerts + [f.ts], before + [f])
  {
  }

  ghost predicate Spacing(p: Policy, t: Tracker, alerts: seq<real>, fixes: seq<Fix>) {
    Spaced(alerts, MinGap(p)) && Remembers(t, alerts) && InSpan(alerts, fixes)
  }

  lemma SpacingStep(p: Policy, hav: Haversine, fixes: seq<Fix>, f: Fix)
    requires Ascending(fixes + [f]) && Spacing(p, Run(p, hav, fixes), Alerts(p, hav, fixes), fixes)
    ensures Spacing(p, Run(p, hav, fixes + [f]), Alerts(p, hav, fixes + [f]), fixes + [f])
  {
    var t, alerts, all := Run(p, hav, fixes), Alerts(p, hav, fixes), fixes + [f];
    assert fixes != [] ==> all[|fixes| - 1].ts <= all[|fixes|].ts && all[0].ts <= all[|fixes|].ts;
    SpacedStep(p, t, f, alerts);
    SpanStep(alerts, fixes, f);
    Snoc(p, hav, fixes, f);
    assert alerts + [] == alerts;
  }

  /** No two alerts of a stream are closer than the gap. */
  lemma {:induction false} AlertsAreSpaced(p: Policy, hav: Haversine, fixes: seq<Fix>)
    requires Ascending(fixes)
    ensures Spacing(p, Run(p, hav, fixes), Alerts(p, hav, fixes), fixes)
  {
    if fixes != [] {
      var before, f := fixes[..|fixes| - 1], fixes[|fixes| - 1];
      AlertsAreSpaced(p, hav, before);
      assert before + [f] == fixes;
      SpacingStep(p, hav, before, f);
    }
  }

  lemma {:induction false} SpacedSpan(alerts: seq<real>, gap: real)
    requires Spaced(alerts, gap) && alerts != []
    ensures Times(|alerts| - 1, gap) <= alerts[|alerts| - 1] - alerts[0]
  {
    if |alerts| > 1 { SpacedSpan(alerts[..|alerts| - 1], gap); }
  }

  /** Hence the number of alerts is bounded by the span of the stream: (alerts - 1) gaps fit into it. */
  lemma {:induction false} AlertRateBounded(p: Policy, hav: Haversine, fixes: seq<Fix>)
    requires Ascending(fixes) && Alerts(p, hav, fixes) != []
    ensures fixes != []
    ensures Times(|Alerts(p, hav, fixes)| - 1, MinGap(p)) <= fixes[|fixes| - 1].ts - fixes[0].ts
  {
    AlertsAreSpaced(p, hav, fixes);
    var alerts := Alerts(p, hav, fixes);
    SpacedSpan(alerts, MinGap(p));
    assert alerts[0] >= fixes[0].ts && alerts[|alerts| - 1] <= fixes[|fixes| - 1].ts;
  }

  // ---------- excursions ----------

  /**
   * Hysteresis read off the stream alone: the fixes since the vehicle left the corridor by
   * more than maxDistance, as long as it has not come back within returnDistance.
   */
  function Excursion(p: Policy, acc: seq<Fix>): seq<Fix> {
    if acc == [] then []
    else
      var e, f := Excursion(p, acc[..|acc| - 1]), acc[|acc| - 1];
      if e == [] then (if f.dist > p.maxDistance then [f] else [])
      else if f.dist <= p.returnDistance then []
      else e + [f]
  }

  /** Some prefix of at least two and minStreak fixes spans the sustained duration. */
  ghost predicate Ripe(p: Policy, e: seq<Fix>) {
    exists k :: RipeAt(p, e, k)
  }

  predicate RipeAt(p: Policy, e: seq<Fix>, k: int) {
    2 <= k <= |e| && k >= p.minStreak && e[k - 1].ts - e[0].ts >= p.sustainedSec
  }

  function MaxDist(e: seq<Fix>): real
    requires e != []
  {
    if |e| == 1 then e[0].dist
    else
      var m, d := MaxDist(e[..|e| - 1]), e[|e| - 1].dist;
      if d > m then d else m
  }

  /** The tracker's state is a function of the current excursion. */
  ghost predicate Reflects(p: Policy, t: Tracker, e: seq<Fix>) {
    if e == [] then
      (t.state == OnRoute || t.state == ReturnedToRoute) && t.streak == 0 && t.deviationStart == 0.0
    else
      && t.state == (if Ripe(p, e) then Alerted else Deviating)
      && t.deviationStart == e[0].ts && t.maxDist == MaxDist(e)
      && (t.state == Deviating ==> t.streak == |e|)
  }

  lemma RipeSnoc(p: Policy, e: seq<Fix>, f: Fix)
    requires e != []
    ensures Ripe(p, e + [f]) <==> Ripe(p, e) || RipeAt(p, e + [f], |e| + 1)
  {
    if k :| RipeAt(p, e, k) { assert RipeAt(p, e + [f], k); }
    if k :| RipeAt(p, e + [f], k) && k != |e| + 1 { assert RipeAt(p, e, k); }
  }

  lemma ReflectsMove(p: Policy, t: Tracker, acc: seq<Fix>, f: Fix)
    requires Reflects(p, t, Excursion(p, acc))
    ensures Reflects(p, Move(p, t, f).0, Excursion(p, acc + [f]))
    ensures t.state == Deviating ==>
      (Move(p, t, f).1 <==> Excursion(p, acc + [f]) != [] && Ripe(p, Excursion(p, acc + [f])))
  {
    assert (acc + [f])[..|acc|] == acc;
    var e := Excursion(p, acc);
    if e == [] {
      assert !Ripe(p, [f]);
    } else {
      RipeSnoc(p, e, f);
      assert (e + [f])[..|e|] == e;
    }
  }

  /** State, start, maximum and streak are exactly those of the current excursion of accepted fixes. */
  lemma {:induction false} TrackerFollowsExcursion(p: Policy, hav: Haversine, fixes: seq<Fix>)
    ensures Reflects(p, Run(p, hav, fixes), Excursion(p, Accepted(p, hav, fixes)))
  {
    if fixes != [] {
      var before, f := fixes[..|fixes| - 1], fixes[|fixes| - 1];
      TrackerFollowsExcursion(p, hav, before);
      if Accepts(p, hav, Run(p, hav, before), f) {
        ReflectsMove(p, Run(p, hav, before), Accepted(p, hav, before), f);
      } else {
        assert Accepted(p, hav, fixes) == Accepted(p, hav, before);
      }
    }
  }

  /** An unbroken block at the end of the stream, opened beyond maxDistance and never back within returnDistance. */
  ghost predicate Block(p: Policy, acc: seq<Fix>, e: seq<Fix>) {
    && |e| <= |acc| && e == acc[|acc| - |e|..]
    && (e != [] ==> e[0].dist > p.maxDistance)
    && forall i | 0 < i < |e| :: e[i].dist > p.returnDistance
  }

  lemma BlockGrows(p: Policy, acc: seq<Fix>, e: seq<Fix>, f: Fix)
    requires Block(p, acc, e) && e != [] && f.dist > p.returnDistance
    ensures Block(p, acc + [f], e + [f])
  {
    var k := |acc| - |e|;
    assert (acc + [f])[k..] == acc[k..] + [f];
  }

  lemma BlockStarts(p: Policy, acc: seq<Fix>, f: Fix)
    ensures Block(p, acc + [f], []) && (f.dist > p.maxDistance ==> Block(p, acc + [f], [f]))
  {
    assert (acc + [f])[|acc|..] == [f] && (acc + [f])[|acc| + 1..] == [];
  }

  /** An excursion is such a block. */
  lemma {:induction false} ExcursionIsBlock(p: Policy, acc: seq<Fix>)
    ensures Block(p, acc, Excursion(p, acc))
  {
    if acc != [] {
      var before, f := acc[..|acc| - 1], acc[|acc| - 1];
      ExcursionIsBlock(p, before);
      assert acc == before + [f];
      BlockStarts(p, before, f);
      var e := Excursion(p, before);
      if e != [] && f.dist > p.returnDistance { BlockGrows(p, before, e, f); }
    }
  }

  /** MaxDist bounds the excursion and is attained. */
  lemma {:induction false} MaxDistIsMaximum(e: seq<Fix>)
    requires e != []
    ensures forall f | f in e :: f.dist <= MaxDist(e)
    ensures exists f :: f in e && f.dist == MaxDist(e)
  {
    if |e| > 1 {
      var before := e[..|e| - 1];
      MaxDistIsMaximum(before);
      assert e == before + [e[|e| - 1]];
      var f :| f in before && f.dist == MaxDist(before);
      assert f in e && e[|e| - 1] in e;
    } else {
      assert e[0] in e;
    }
  }

  /**
   * The first alert of an excursion, both ways: a fix raises it exactly when the block of
   * accepted fixes it ends has at least two and minStreak members and spans the sustained time.
   */
  lemma {:induction false} FirstAlertExactly(p: Policy, hav: Haversine, fixes: seq<Fix>, f: Fix)
    requires Run(p, hav, fixes).state == Deviating && Accepts(p, hav, Run(p, hav, fixes), f)
    ensures var acc := Accepted(p, hav, fixes + [f]);
            var e := Excursion(p, acc);
            && (StepOf(p, hav, Run(p, hav, fixes), f).1 <==> RipeAt(p, e, |e|))
            && Block(p, acc, e) && (e != [] ==> e[|e| - 1] == f)
  {
    var before := Accepted(p, hav, fixes);
    TrackerFollowsExcursion(p, hav, fixes);
    Snoc(p, hav, fixes, f);
    ReflectsMove(p, Run(p, hav, fixes), before, f);
    ExcursionIsBlock(p, before + [f]);
    EndsWith(p, before, f);
    var e0, e := Excursion(p, before), Excursion(p, before + [f]);
    if e != [] { RipeSnoc(p, e0, f); }
  }

  lemma EndsWith(p: Policy, before: seq<Fix>, f: Fix)
    ensures var e0, e := Excursion(p, before), Excursion(p, before + [f]);
            e != [] ==> e == e0 + [f] && e[|e| - 1] == f
  {
    assert (before + [f])[..|before|] == before;
  }

  // ---------- every alert ----------

  /** A fix the gates let through raises an alert: the block it ends ripens, or its cooldown is over. */
  ghost predicate Alarming(p: Policy, kept: seq<Fix>, alerts: seq<real>, f: Fix) {
    var e0, e := Excursion(p, kept), Excursion(p, kept + [f]);
    e0 != [] && e != [] &&
    if Ripe(p, e0) then
      p.cooldownSec > 0.0 && alerts != [] && alerts[|alerts| - 1] != 0.0 && f.ts - alerts[|alerts| - 1] >= p.cooldownSec
    else Ripe(p, e)
  }

  /** What the tracker remembers of past alerts. */
  ghost predicate LastAlert(t: Tracker, alerts: seq<real>) {
    t.state != Sustained && (t.state == Alerted ==> alerts != [] && t.lastAlertAt == alerts[|alerts| - 1])
  }

  lemma {:induction false} RemembersLastAlert(p: Policy, hav: Haversine, fixes: seq<Fix>)
    ensures LastAlert(Run(p, hav, fixes), Alerts(p, hav, fixes))
  {
    if fixes != [] { RemembersLastAlert(p, hav, fixes[..|fixes| - 1]); }
  }

  /** Which fixes raise an alert, first and repeated ones, read off the stream. */
  lemma {:induction false} AlertsExactly(p: Policy, hav: Haversine, fixes: seq<Fix>, f: Fix)
    ensures var kept, alerts := Accepted(p, hav, fixes), Alerts(p, hav, fixes);
            Alerts(p, hav, fixes + [f]) ==
              if Credible(p, hav, kept, f) && Alarming(p, kept, alerts, f) then alerts + [f.ts] else alerts
  {
    var t, kept := Run(p, hav, fixes), Accepted(p, hav, fixes);
    Snoc(p, hav, fixes, f);
    AcceptedExactly(p, hav, fixes, f);
    assert |kept + [f]| > |kept|;
    TrackerFollowsExcursion(p, hav, fixes);
    RemembersLastAlert(p, hav, fixes);
    ReflectsMove(p, t, kept, f);
    assert (kept + [f])[..|kept|] == kept;
  }

  // ---------- what is left of an excursion that is over ----------

  /** The current excursion or, between excursions, the latest one. */
  function Latest(p: Policy, kept: seq<Fix>): seq<Fix> {
    if kept == [] || Excursion(p, kept) != [] then Excursion(p, kept) else Latest(p, kept[..|kept| - 1])
  }

  /** The last fix kept ended an excursion that had raised its alert. */
  ghost predicate JustReturned(p: Policy, kept: seq<Fix>) {
    kept != [] && Excursion(p, kept) == [] && Ripe(p, Excursion(p, kept[..|kept| - 1]))
  }

  ghost predicate Recalls(p: Policy, t: Tracker, kept: seq<Fix>) {
    && (t.state == ReturnedToRoute <==> JustReturned(p, kept))
    && t.maxDist == if Latest(p, kept) == [] then 0.0 else MaxDist(Latest(p, kept))
  }

  lemma RecallsMove(p: Policy, t: Tracker, kept: seq<Fix>, f: Fix)
    requires Reflects(p, t, Excursion(p, kept)) && Recalls(p, t, kept)
    ensures Recalls(p, Move(p, t, f).0, kept + [f])
  {
    ReflectsMove(p, t, kept, f);
    assert (kept + [f])[..|kept|] == kept;
  }

  /**
   * Between excursions the state tells whether an alerted one has just ended, and the maximum
   * stays that of the latest one.
   */
  lemma {:induction false} TrackerRecallsLatest(p: Policy, hav: Haversine, fixes: seq<Fix>)
    ensures Recalls(p, Run(p, hav, fixes), Accepted(p, hav, fixes))
  {
    if fixes != [] {
      var before, f := fixes[..|fixes| - 1], fixes[|fixes| - 1];
      TrackerRecallsLatest(p, hav, before);
      TrackerFollowsExcursion(p, hav, before);
      if Accepts(p, hav, Run(p, hav, before), f) {
        RecallsMove(p, Run(p, hav, before), Accepted(p, hav, before), f);
      } else {
        assert Accepted(p, hav, fixes) == Accepted(p, hav, before);
      }
    }
  }
}
