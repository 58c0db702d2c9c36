/** In-transit segments of a completed trip (internal/eta/segments.go). */
module Segments {
  import opened Common
  import opened Geohash

  /** A telemetry row; any column may be missing.  Times are nanoseconds. */
  datatype Position = Position(lat: Option<real>, lng: Option<real>, speed: Option<real>, time: Option<int>)

  /** A row with coordinates and a time; a missing speed counts as standing. */
  datatype Point = Point(lat: real, lng: real, speed: real, time: int)

  datatype Segment = Segment(start: string, end: string, durationMinutes: int)

  const MINUTE := 60_000_000_000

  predicate IsUsable(r: Position) { r.lat.Some? && r.lng.Some? && r.time.Some? }

  function ToPoint(r: Position): Point
    requires IsUsable(r)
  {
    Point(r.lat.value, r.lng.value, if r.speed.Some? then r.speed.value else 0.0, r.time.value)
  }

  function Usable(rows: seq<Position>): seq<Point> {
    if rows == [] then []
    else
      var r := rows[|rows| - 1];
      Usable(rows[..|rows| - 1]) + if IsUsable(r) then [ToPoint(r)] else []
  }

  lemma {:induction false} UsablePrefix(rows: seq<Position>, i: nat)
    requires i <= |rows|
    ensures Usable(rows[..i]) <= Usable(rows)
    decreases |rows| - i
  {
    if i < |rows| {
      UsablePrefix(rows, i + 1);
      assert rows[..i + 1][..i] == rows[..i];
    } else {
      assert rows[..i] == rows;
    }
  }

  predicate Fast(p: Point) { p.speed > 5.0 }

  /** Whole minutes, cut towards zero. */
  function Minutes(d: int): int {
    if d >= 0 then d / MINUTE else -((-d) / MINUTE)
  }

  // ---------- specification: maximal fast runs ----------

  /** Points a .. b - 1 are fast and the run cannot be extended on either side. */
  predicate MaximalRun(u: seq<Point>, a: nat, b: nat) {
    && a < b <= |u| && (forall i | a <= i < b :: Fast(u[i]))
    && (a == 0 || !Fast(u[a - 1])) && (b == |u| || !Fast(u[b]))
  }

  /** The point that closes a run: the first slow one, or the last of the trip. */
  function Closing(u: seq<Point>, b: nat): nat
    requires 0 < b <= |u|
  {
    if b < |u| then b else |u| - 1
  }

  function RunMinutes(u: seq<Point>, a: nat, b: nat): int
    requires a < b <= |u|
  {
    Minutes(u[Closing(u, b)].time - u[a].time)
  }

  predicate Qualifies(u: seq<Point>, a: nat, b: nat) {
    MaximalRun(u, a, b) && RunMinutes(u, a, b) >= 2
  }

  function SegmentOf(u: seq<Point>, a: nat, b: nat): Segment
    requires a < b <= |u|
  {
    var c := Closing(u, b);
    Segment(GeohashOf(u[a].lat, u[a].lng), GeohashOf(u[c].lat, u[c].lng), RunMinutes(u, a, b))
  }

  datatype Run = Run(a: nat, b: nat)

  /** `runs` lists qualifying runs in order. */
  ghost predicate InOrder(u: seq<Point>, runs: seq<Run>) {
    && (forall k | 0 <= k < |runs| :: Qualifies(u, runs[k].a, runs[k].b))
    && (forall j, k | 0 <= j < k < |runs| :: runs[j].b < runs[k].a)
  }

  /** Every qualifying run is listed. */
  ghost predicate ListsAll(u: seq<Point>, runs: seq<Run>) {
    forall a: nat, b: nat | Qualifies(u, a, b) :: Run(a, b) in runs
  }

  ghost predicate Describes(u: seq<Point>, runs: seq<Run>, segments: seq<Segment>) {
    |segments| == |runs|
    && forall k | 0 <= k < |runs| :: runs[k].a < runs[k].b <= |u| && segments[k] == SegmentOf(u, runs[k].a, runs[k].b)
  }

  // ---------- the code ----------

  /** Runs closed before point n are listed. */
  ghost predicate ListsClosed(u: seq<Point>, runs: seq<Run>, n: nat) {
    forall a: nat, b: nat | Qualifies(u, a, b) && b < n :: Run(a, b) in runs
  }

  /** A run is open at n and started at a. */
  ghost predicate OpenAt(u: seq<Point>, a: nat, n: nat) {
    a < n <= |u| && (forall i | a <= i < n :: Fast(u[i])) && (a == 0 || !Fast(u[a - 1]))
  }

  /** Two maximal runs that end together are the same. */
  lemma SameEndSameRun(u: seq<Point>, a: nat, b: nat, x: nat)
    requires MaximalRun(u, a, b) && MaximalRun(u, x, b)
    ensures a == x
  {
  }

  /** Where the scan stands after n usable points. */
  ghost predicate Tracks(u: seq<Point>, n: nat, open: Option<Point>, first: nat, runs: seq<Run>, segments: seq<Segment>) {
    n <= |u| && TracksRuns(u, n, runs, segments) && TracksOpen(u, n, open, first, runs)
  }

  ghost predicate TracksRuns(u: seq<Point>, n: nat, runs: seq<Run>, segments: seq<Segment>)
    requires n <= |u|
  {
    Describes(u, runs, segments) && InOrder(u, runs) && ListsClosed(u, runs, n)
  }

  ghost predicate TracksOpen(u: seq<Point>, n: nat, open: Option<Point>, first: nat, runs: seq<Run>)
    requires n <= |u|
  {
    && (open.Some? ==> OpenAt(u, first, n) && open.value == u[first])
    && (open.None? ==> n == 0 || !Fast(u[n - 1]))
    && forall k | 0 <= k < |runs| :: runs[k].b < n && (open.Some? ==> runs[k].b < first)
  }

  lemma LastIsFast(u: seq<Point>, a: nat, b: nat)
    requires MaximalRun(u, a, b)
    ensures Fast(u[b - 1])
  {
  }

  /** A fast point opens a run or extends the open one; no run closes. */
  lemma TrackFast(u: seq<Point>, n: nat, open: Option<Point>, first: nat, runs: seq<Run>, segments: seq<Segment>)
    requires Tracks(u, n, open, first, runs, segments) && n < |u| && Fast(u[n])
    ensures if open.None? then Tracks(u, n + 1, Some(u[n]), n, runs, segments)
            else Tracks(u, n + 1, open, first, runs, segments)
  {
    forall a: nat, b: nat | Qualifies(u, a, b) && b < n + 1
      ensures Run(a, b) in runs
    {
      assert b != n;
    }
  }

  /** A slow point with no open run closes nothing. */
  lemma TrackStanding(u: seq<Point>, n: nat, first: nat, runs: seq<Run>, segments: seq<Segment>)
    requires Tracks(u, n, None, first, runs, segments) && n < |u| && !Fast(u[n])
    ensures Tracks(u, n + 1, None, first, runs, segments)
  {
    forall a: nat, b: nat | Qualifies(u, a, b) && b < n + 1
      ensures Run(a, b) in runs
    {
      LastIsFast(u, a, b);
    }
  }

  /** Lists the run that ends at n if it is long enough. */
  function Listing(u: seq<Point>, runs: seq<Run>, first: nat, n: nat): seq<Run>
    requires first < n <= |u|
  {
    if RunMinutes(u, first, n) >= 2 then runs + [Run(first, n)] else runs
  }

  function Emitting(u: seq<Point>, segments: seq<Segment>, first: nat, n: nat): seq<Segment>
    requires first < n <= |u|
  {
    if RunMinutes(u, first, n) >= 2 then segments + [SegmentOf(u, first, n)] else segments
  }

  lemma ListingInOrder(u: seq<Point>, runs: seq<Run>, first: nat, n: nat)
    requires InOrder(u, runs) && MaximalRun(u, first, n) && forall k | 0 <= k < |runs| :: runs[k].b < first
    ensures InOrder(u, Listing(u, runs, first, n))
  {
  }

  lemma EmittingDescribes(u: seq<Point>, runs: seq<Run>, segments: seq<Segment>, first: nat, n: nat)
    requires Describes(u, runs, segments) && first < n <= |u|
    ensures Describes(u, Listing(u, runs, first, n), Emitting(u, segments, first, n))
  {
  }

  lemma ListingClosed(u: seq<Point>, runs: seq<Run>, first: nat, n: nat)
    requires MaximalRun(u, first, n) && ListsClosed(u, runs, n)
    ensures ListsClosed(u, Listing(u, runs, first, n), n + 1)
  {
    CloseRun(u, Listing(u, runs, first, n), first, n);
  }

  lemma TrackClose(u: seq<Point>, n: nat, open: Option<Point>, first: nat, runs: seq<Run>, segments: seq<Segment>)
    requires Tracks(u, n, open, first, runs, segments) && open.Some? && (n == |u| || !Fast(u[n]))
    ensures first < n && open.value == u[first]
    ensures Describes(u, Listing(u, runs, first, n), Emitting(u, segments, first, n))
    ensures InOrder(u, Listing(u, runs, first, n)) && ListsClosed(u, Listing(u, runs, first, n), n + 1)
    ensures n < |u| ==> Tracks(u, n + 1, None, first, Listing(u, runs, first, n), Emitting(u, segments, first, n))
  {
    assert MaximalRun(u, first, n);
    ListingInOrder(u, runs, first, n);
    EmittingDescribes(u, runs, segments, first, n);
    ListingClosed(u, runs, first, n);
  }

  /** The run open at the last point is closed there, and everything is listed. */
  lemma FinishOpen(u: seq<Point>, n: nat, open: Option<Point>, first: nat, runs: seq<Run>, segments: seq<Segment>)
    requires Tracks(u, n, open, first, runs, segments) && open.Some? && n == |u|
    ensures first < n && open.value == u[first]
    ensures Describes(u, Listing(u, runs, first, n), Emitting(u, segments, first, n))
    ensures InOrder(u, Listing(u, runs, first, n)) && ListsAll(u, Listing(u, runs, first, n))
  {
    TrackClose(u, n, open, first, runs, segments);
  }

  /** The first i rows hold the first n usable points. */
  ghost predicate ReadUpTo(rows: seq<Position>, i: nat, n: nat)
    requires i <= |rows|
  {
    n <= |Usable(rows)| && SamePoints(Usable(rows[..i]), Usable(rows)[..n])
  }

  ghost predicate SamePoints(a: seq<Point>, b: seq<Point>) { a == b }

  lemma {:induction false} NextUsable(rows: seq<Position>, i: nat, n: nat)
    requires i < |rows| && ReadUpTo(rows, i, n)
    ensures var u := Usable(rows);
            if IsUsable(rows[i]) then n < |u| && u[n] == ToPoint(rows[i]) && ReadUpTo(rows, i + 1, n + 1)
            else ReadUpTo(rows, i + 1, n)
  {
    assert rows[..i + 1][..i] == rows[..i];
    UsablePrefix(rows, i + 1);
    if IsUsable(rows[i]) {
      assert Usable(rows[..i + 1]) == Usable(rows)[..n] + [ToPoint(rows[i])];
    }
  }

  lemma ReadAll(rows: seq<Position>, n: nat)
    requires ReadUpTo(rows, |rows|, n)
    ensures n == |Usable(rows)|
  {
    assert rows[..|rows|] == rows;
  }

  method ExtractSegments(rows: seq<Position>) returns (segments: seq<Segment>, ghost runs: seq<Run>)
    ensures Describes(Usable(rows), runs, segments)
    ensures InOrder(Usable(rows), runs) && ListsAll(Usable(rows), runs)
  {
    segments, runs := [], [];
    ghost var u := Usable(rows);
    ghost var n: nat, first: nat := 0, 0;
    var segStart: Option<Point>, lastPos: Option<Point> := None, None;
    for i := 0 to |rows|
      invariant ReadUpTo(rows, i, n) && Tracks(u, n, segStart, first, runs, segments)
      invariant lastPos == if n == 0 then None else Some(u[n - 1])
    {
      var r := rows[i];
      NextUsable(rows, i, n);
      if !IsUsable(r) {
        continue;
      }
      var p := ToPoint(r);
      lastPos := Some(p);
      if p.speed > 5.0 {
        TrackFast(u, n, segStart, first, runs, segments);
        if segStart == None {
          segStart := Some(p);
          first := n;
        }
      } else if segStart.Some? {
        TrackClose(u, n, segStart, first, runs, segments);
        segments := Emit(segments, segStart.value, p, u, first, n);
        runs := Listing(u, runs, first, n);
        segStart := None;
      } else {
        TrackStanding(u, n, first, runs, segments);
      }
      n := n + 1;
    }
    ReadAll(rows, n);
    if segStart.Some? && lastPos.Some? {
      FinishOpen(u, n, segStart, first, runs, segments);
      segments := Emit(segments, segStart.value, lastPos.value, u, first, n);
      runs := Listing(u, runs, first, n);
    } else {
      NothingOpenAtEnd(u, runs);
    }
  }

  /** Appends the segment of a closed run if it lasts at least two minutes. */
  method Emit(segments: seq<Segment>, start: Point, end: Point, ghost u: seq<Point>, ghost first: nat, ghost n: nat)
    returns (segments': seq<Segment>)
    requires first < n <= |u| && start == u[first] && end == u[Closing(u, n)]
    ensures segments' == Emitting(u, segments, first, n)
  {
    var dur := Minutes(end.time - start.time);
    segments' := segments;
    if dur >= 2 {
      var hashA := Geohash6(start.lat, start.lng);
      var hashB := Geohash6(end.lat, end.lng);
      segments' := segments + [Segment(hashA, hashB, dur)];
    }
  }

  /** A trip that ends standing has no run left open. */
  lemma NothingOpenAtEnd(u: seq<Point>, runs: seq<Run>)
    requires ListsClosed(u, runs, |u|) && (u == [] || !Fast(u[|u| - 1]))
    ensures ListsAll(u, runs)
  {
    forall a: nat, b: nat | Qualifies(u, a, b)
      ensures Run(a, b) in runs
    {
      LastIsFast(u, a, b);
    }
  }

  /** After the run ending at n has been dealt with, everything closed up to n is listed. */
  lemma CloseRun(u: seq<Point>, runs: seq<Run>, first: nat, n: nat)
    requires MaximalRun(u, first, n) && ListsClosed(u, runs, n)
    requires RunMinutes(u, first, n) >= 2 ==> Run(first, n) in runs
    ensures ListsClosed(u, runs, n + 1)
  {
    forall a: nat, b: nat | Qualifies(u, a, b) && b < n + 1
      ensures Run(a, b) in runs
    {
      if b == n { SameEndSameRun(u, first, n, a); }
    }
  }

  // ---------- what the segments mean for an ascending stream ----------

  ghost predicate Ascending(u: seq<Point>) {
    forall i, j | 0 <= i < j < |u| :: u[i].time <= u[j].time
  }

  /** The segments of an ascending stream. */
  ghost predicate Timed(u: seq<Point>, runs: seq<Run>, segments: seq<Segment>) {
    Ascending(u) && InOrder(u, runs) && Describes(u, runs, segments)
  }

  function StartTime(u: seq<Point>, r: Run): int
    requires r.a < r.b <= |u|
  {
    u[r.a].time
  }

  function EndTime(u: seq<Point>, r: Run): int
    requires r.a < r.b <= |u|
  {
    u[Closing(u, r.b)].time
  }

  /** Segments follow each other in time without overlap, and each lasts at least two minutes. */
  lemma SegmentsDisjoint(u: seq<Point>, runs: seq<Run>, segments: seq<Segment>, j: nat, k: nat)
    requires Timed(u, runs, segments) && j < |runs|
    ensures segments[j].durationMinutes >= 2
    ensures StartTime(u, runs[j]) + 2 * MINUTE <= EndTime(u, runs[j])
    ensures j < k < |runs| ==> EndTime(u, runs[j]) <= StartTime(u, runs[k])
  {
    assert Qualifies(u, runs[j].a, runs[j].b);
    if j < k && k < |runs| {
      assert Qualifies(u, runs[k].a, runs[k].b) && runs[j].b < runs[k].a;
      assert u[Closing(u, runs[j].b)].time <= u[runs[k].a].time;
    }
  }

  /** Start, end and whole minutes of a segment. */
  datatype Span = Span(start: int, end: int, minutes: int)

  /** Minutes of the first k spans. */
  function TotalMinutes(spans: seq<Span>, k: nat): int
    requires k <= |spans|
  {
    if k == 0 then 0 else TotalMinutes(spans, k - 1) + spans[k - 1].minutes
  }

  ghost predicate Chain(spans: seq<Span>, from: int, to: int) {
    && (forall k | 0 <= k < |spans| ::
          spans[k].minutes * MINUTE <= spans[k].end - spans[k].start && from <= spans[k].start && spans[k].end <= to)
    && (forall k | 1 <= k < |spans| :: spans[k - 1].end <= spans[k].start)
  }

  lemma {:induction false} ChainTotal(spans: seq<Span>, from: int, to: int, k: nat)
    requires Chain(spans, from, to) && k <= |spans|
    ensures TotalMinutes(spans, k) * MINUTE <= if k == 0 then 0 else spans[k - 1].end - from
  {
    if k > 0 { ChainTotal(spans, from, to, k - 1); }
  }

  function SpansOf(u: seq<Point>, runs: seq<Run>, segments: seq<Segment>): (spans: seq<Span>)
    requires |runs| == |segments| && forall r | r in runs :: r.a < r.b <= |u|
    ensures |spans| == |runs|
  {
    seq(|runs|, k requires 0 <= k < |runs| =>
      assert runs[k] in runs;
      Span(StartTime(u, runs[k]), EndTime(u, runs[k]), segments[k].durationMinutes))
  }

  lemma RunsInRange(u: seq<Point>, runs: seq<Run>, segments: seq<Segment>)
    requires Describes(u, runs, segments)
    ensures forall r | r in runs :: r.a < r.b <= |u|
  {
  }

  lemma SpansChain(u: seq<Point>, runs: seq<Run>, segments: seq<Segment>)
    requires Timed(u, runs, segments) && u != [] && forall r | r in runs :: r.a < r.b <= |u|
    ensures Chain(SpansOf(u, runs, segments), u[0].time, u[|u| - 1].time)
  {
    var spans := SpansOf(u, runs, segments);
    forall k | 0 <= k < |runs|
      ensures spans[k].minutes * MINUTE <= spans[k].end - spans[k].start
      ensures u[0].time <= spans[k].start && spans[k].end <= u[|u| - 1].time
    {
      RunSpan(u, runs, segments, k);
    }
    forall k | 1 <= k < |runs|
      ensures spans[k - 1].end <= spans[k].start
    {
      SegmentsDisjoint(u, runs, segments, k - 1, k);
    }
  }

  /** All segments together never last longer than the observed span of the trip. */
  lemma {:induction false} TotalWithinSpan(u: seq<Point>, runs: seq<Run>, segments: seq<Segment>)
    requires Timed(u, runs, segments) && u != []
    ensures forall r | r in runs :: r.a < r.b <= |u|
    ensures TotalMinutes(SpansOf(u, runs, segments), |runs|) * MINUTE <= u[|u| - 1].time - u[0].time
  {
    RunsInRange(u, runs, segments);
    SpansChain(u, runs, segments);
    var spans := SpansOf(u, runs, segments);
    ChainTotal(spans, u[0].time, u[|u| - 1].time, |spans|);
    SpanOfTrip(u, spans);
  }

  lemma SpanOfTrip(u: seq<Point>, spans: seq<Span>)
    requires u != [] && Ascending(u) && Chain(spans, u[0].time, u[|u| - 1].time)
    ensures spans != [] ==> spans[|spans| - 1].end <= u[|u| - 1].time
    ensures u[0].time <= u[|u| - 1].time
  {
  }

  lemma RunSpan(u: seq<Point>, runs: seq<Run>, segments: seq<Segment>, n: nat)
    requires Timed(u, runs, segments) && n < |runs|
    ensures segments[n].durationMinutes * MINUTE <= EndTime(u, runs[n]) - StartTime(u, runs[n])
    ensures u[0].time <= StartTime(u, runs[n]) && EndTime(u, runs[n]) <= u[|u| - 1].time
  {
    assert Qualifies(u, runs[n].a, runs[n].b);
  }

  /** The output is determined: two lists that describe the same points are equal. */
  lemma {:induction false} SegmentationUnique(u: seq<Point>, a: seq<Run>, b: seq<Run>, k: nat)
    requires InOrder(u, a) && ListsAll(u, a) && InOrder(u, b) && ListsAll(u, b)
    requires k <= |a| && k <= |b| && a[..k] == b[..k]
    ensures a == b
    decreases |a| - k
  {
    if k < |a| {
      var r := a[k];
      assert Qualifies(u, r.a, r.b);
      NextListed(u, a, b, k);
      NextListed(u, b, a, k);
      assert a[..k + 1] == a[..k] + [a[k]] && b[..k + 1] == b[..k] + [b[k]];
      SegmentationUnique(u, a, b, k + 1);
    } else if k < |b| {
      NextListed(u, b, a, k);
    }
  }

  lemma RunsOrdered(u: seq<Point>, runs: seq<Run>, j: nat, k: nat)
    requires InOrder(u, runs) && j < k < |runs|
    ensures runs[j].a < runs[j].b < runs[k].a
  {
    assert Qualifies(u, runs[j].a, runs[j].b);
  }

  /** A run before position k of b starts before the k-th run of a. */
  lemma EarlierStarts(u: seq<Point>, a: seq<Run>, b: seq<Run>, j: nat, k: nat)
    requires InOrder(u, a) && j < |b| && k < |a| && k <= |b| && a[..k] == b[..k]
    ensures j < k ==> b[j].a < a[k].a
  {
    if j < k {
      assert a[..k][j] == b[..k][j];
      RunsOrdered(u, a, j, k);
    }
  }

  /** The k-th run of one list is listed in the other at k or later. */
  lemma NextListed(u: seq<Point>, a: seq<Run>, b: seq<Run>, k: nat)
    requires InOrder(u, a) && InOrder(u, b) && ListsAll(u, b)
    requires k < |a| && k <= |b| && a[..k] == b[..k]
    ensures k < |b| && b[k].a <= a[k].a
    ensures b[k].a == a[k].a ==> b[k] == a[k]
  {
    assert Qualifies(u, a[k].a, a[k].b);
    var j := IndexOf(b, Run(a[k].a, a[k].b));
    EarlierStarts(u, a, b, j, k);
    if k < j { RunsOrdered(u, b, k, j); }
  }

  ghost function IndexOf(runs: seq<Run>, r: Run): (j: nat)
    requires r in runs
    ensures j < |runs| && runs[j] == r
  {
    var j :| 0 <= j < |runs| && runs[j] == r;
    j
  }

  // ---------- what a segment says ----------

  /** The usable rows in order: each keeps its own coordinates and time, and a missing speed is none. */
  lemma UsableExactly(rows: seq<Position>, i: nat)
    requires i < |rows|
    ensures var r, before := rows[i], Usable(rows[..i]);
            Usable(rows[..i + 1]) ==
              if r.lat == None || r.lng == None || r.time == None then before
              else before + [Point(r.lat.value, r.lng.value, match r.speed case Some(v) => v case None => 0.0, r.time.value)]
    ensures Usable(rows[..i + 1]) <= Usable(rows)
  {
    assert rows[..i + 1][..i] == rows[..i];
    UsablePrefix(rows, i + 1);
  }

  /** From a to c the vehicle is above 5 km/h, not before a, and at c it is no longer or the trip ends. */
  ghost predicate Drive(u: seq<Point>, a: nat, c: nat) {
    && a <= c < |u| && (a > 0 ==> u[a - 1].speed <= 5.0)
    && (forall i | a <= i < c :: u[i].speed > 5.0)
    && (if u[c].speed > 5.0 then c == |u| - 1 else a < c)
  }

  /** At least two minutes. */
  predicate Long(u: seq<Point>, a: nat, c: nat)
    requires a < |u| && c < |u|
  {
    u[c].time - u[a].time >= 120_000_000_000
  }

  /** The text decodes to the cell of the point, and to no other. */
  ghost predicate Names(text: string, p: Point) {
    forall x: nat, y: nat :: Decode(text) == Some((x, y)) <==> InCells(p.lat, p.lng, 30, x, y)
  }

  /** The segment from point p to point q, by what its texts and its number mean. */
  ghost predicate Reports(s: Segment, p: Point, q: Point) {
    && Names(s.start, p) && Names(s.end, q)
    && s.durationMinutes * 60_000_000_000 <= q.time - p.time < (s.durationMinutes + 1) * 60_000_000_000
  }

  lemma TextNames(p: Point, n: nat)
    requires n == 6
    ensures Names(CodeText(p.lat, p.lng, n), p)
  {
    forall x: nat, y: nat
      ensures Decode(CodeText(p.lat, p.lng, n)) == Some((x, y)) <==> InCells(p.lat, p.lng, 30, x, y)
    {
      DecodeNamesCell(p.lat, p.lng, n, x, y);
    }
  }

  lemma TwoMinutes(d: int)
    ensures Minutes(d) >= 2 <==> d >= 120_000_000_000
    ensures d >= 0 ==> Minutes(d) * 60_000_000_000 <= d < (Minutes(d) + 1) * 60_000_000_000
  {
  }

  lemma SegmentReports(u: seq<Point>, a: nat, b: nat)
    requires Qualifies(u, a, b)
    ensures Reports(SegmentOf(u, a, b), u[a], u[Closing(u, b)])
  {
    TextNames(u[a], 6);
    TextNames(u[Closing(u, b)], 6);
    TwoMinutes(u[Closing(u, b)].time - u[a].time);
  }

  /** A run and the drive it is. */
  lemma RunIsDrive(u: seq<Point>, a: nat, b: nat)
    ensures MaximalRun(u, a, b) ==> Drive(u, a, Closing(u, b))
    ensures Qualifies(u, a, b) <==> MaximalRun(u, a, b) && Long(u, a, Closing(u, b))
  {
    if MaximalRun(u, a, b) { TwoMinutes(u[Closing(u, b)].time - u[a].time); }
  }

  lemma DriveIsRun(u: seq<Point>, a: nat, c: nat)
    requires Drive(u, a, c)
    ensures var b := if u[c].speed > 5.0 then |u| else c; MaximalRun(u, a, b) && Closing(u, b) == c
  {
  }

  /** Segment k reports the drive from a to c. */
  ghost predicate ReportsDrive(u: seq<Point>, s: Segment, a: nat, c: nat) {
    Drive(u, a, c) && Long(u, a, c) && Reports(s, u[a], u[c])
  }

  /**
   * Every segment reports a drive of at least two minutes, by the cells of its first and its
   * closing point and its whole minutes; and every such drive is reported.
   */
  lemma SegmentsReportDrives(u: seq<Point>, runs: seq<Run>, segments: seq<Segment>)
    requires Describes(u, runs, segments) && InOrder(u, runs) && ListsAll(u, runs)
    ensures forall k | 0 <= k < |segments| :: ReportsDrive(u, segments[k], runs[k].a, Closing(u, runs[k].b))
    ensures forall a: nat, c: nat | Drive(u, a, c) && Long(u, a, c) ::
              exists k :: 0 <= k < |segments| && runs[k].a == a && ReportsDrive(u, segments[k], a, c)
  {
    forall k | 0 <= k < |segments|
      ensures ReportsDrive(u, segments[k], runs[k].a, Closing(u, runs[k].b))
    {
      assert Qualifies(u, runs[k].a, runs[k].b);
      RunIsDrive(u, runs[k].a, runs[k].b);
      SegmentReports(u, runs[k].a, runs[k].b);
    }
    forall a: nat, c: nat | Drive(u, a, c) && Long(u, a, c)
      ensures exists k :: 0 <= k < |segments| && runs[k].a == a && ReportsDrive(u, segments[k], a, c)
    {
      var b := if u[c].speed > 5.0 then |u| else c;
      DriveIsRun(u, a, c);
      RunIsDrive(u, a, b);
      var k := IndexOf(runs, Run(a, b));
      assert runs[k].a == a && ReportsDrive(u, segments[k], a, c);
    }
  }
}
