// The map of one ride: the route (decoded polyline, or the start and end points),
// the map centre and zoom, the speed-coloured segments, the markers and overlays.

module RideMap {

  import opened JsValue
  import opened Normalizer

  // ---------------------------------------------------------------------
  // Speed colours

  const Palette: seq<string> := ["#00E676", "#76FF03", "#FFEB3B", "#FFC107", "#FF9800", "#FF5252"]

  /** `getSpeedColor`: green below 10 km/h, then one step every 10 km/h, red from 50. */
  function SpeedColor(speed: real): string
  {
    if speed < 10.0 then "#00E676"
    else if speed < 20.0 then "#76FF03"
    else if speed < 30.0 then "#FFEB3B"
    else if speed < 40.0 then "#FFC107"
    else if speed < 50.0 then "#FF9800"
    else "#FF5252"
  }

  /** The 10 km/h band a speed falls in, the last band open-ended. */
  function SpeedBand(speed: real): (b: nat)
    ensures b < |Palette|
    ensures b > 0 ==> speed >= b as real * 10.0
    ensures b < |Palette| - 1 ==> speed < (b + 1) as real * 10.0
  {
    if speed < 10.0 then 0
    else if speed < 20.0 then 1
    else if speed < 30.0 then 2
    else if speed < 40.0 then 3
    else if speed < 50.0 then 4
    else 5
  }

  /** The colour is the palette entry of the speed's band; faster never gets an
      earlier colour. */
  lemma SpeedColorBand(a: real, b: real)
    ensures SpeedColor(a) == Palette[SpeedBand(a)]
    ensures a <= b ==> SpeedBand(a) <= SpeedBand(b)
    ensures SpeedColor(a) == SpeedColor(b) <==> SpeedBand(a) == SpeedBand(b)
  {
  }

  /** One row of the speed legend: its colour and the range it labels. */
  datatype LegendItem = LegendItem(color: string, low: real, high: Option<real>)

  const Legend: seq<LegendItem> := [
    LegendItem("#FF5252", 50.0, None),
    LegendItem("#FF9800", 40.0, Some(50.0)),
    LegendItem("#FFC107", 30.0, Some(40.0)),
    LegendItem("#FFEB3B", 20.0, Some(30.0)),
    LegendItem("#76FF03", 10.0, Some(20.0)),
    LegendItem("#00E676", 0.0, Some(10.0))]

  predicate Labels(item: LegendItem, speed: real)
  {
    item.low <= speed && (item.high.None? || speed < item.high.value)
  }

  /** Every speed that is not negative is labelled by exactly one legend row, and
      that row shows the colour the segment is drawn in. */
  lemma SpeedColorMatchesLegend(speed: real)
    requires speed >= 0.0
    ensures exists k :: 0 <= k < |Legend| && Labels(Legend[k], speed)
    ensures forall k :: 0 <= k < |Legend| && Labels(Legend[k], speed) ==> Legend[k].color == SpeedColor(speed)
  {
    var k := |Legend| - 1 - SpeedBand(speed);
    assert Labels(Legend[k], speed);
  }

  // ---------------------------------------------------------------------
  // The route

  /** `[lat, lon]` with both coordinates nonzero (the loader puts 0 for a missing
      one). */
  predicate ValidPoint(p: Point)
  {
    p.lat != 0.0 && p.lon != 0.0
  }

  /** The polyline library: the decoded points of a polyline, or None when it
      throws. */
  type Decoder = string -> Option<seq<Point>>

  /** The route from the polyline cell: nothing when the cell is falsy or blank or
      the decoder throws, the decoded points otherwise.  A truthy cell that is not
      text (the CSV parser types numbers and booleans) has no `trim`, and the view
      throws: None. */
  function DecodedRoute(polyline: Cell, decode: Decoder): (route: Option<seq<Point>>)
    ensures route.None? <==> !polyline.Str? && Truthy(Some(polyline))
    ensures forall s :: polyline == Str(s) && Trim(s) != "" && decode(s).Some? ==> route == decode(s)
  {
    match polyline
    case Str(s) =>
      if s == "" || Trim(s) == "" then Some([])
      else if decode(s).None? then Some([])
      else decode(s)
    case _ => if Truthy(Some(polyline)) then None else Some([])
  }

  /** The route drawn: the decoded one, or, when that is empty and both end points
      are valid, the straight start-to-end line. */
  function Route(decoded: seq<Point>, loc: Location): (route: seq<Point>)
    ensures |decoded| > 0 ==> route == decoded
    ensures |decoded| == 0 && ValidPoint(loc.start) && ValidPoint(loc.end) ==> route == [loc.start, loc.end]
    ensures |route| == 0 <==> |decoded| == 0 && !(ValidPoint(loc.start) && ValidPoint(loc.end))
  {
    if |decoded| == 0 && ValidPoint(loc.start) && ValidPoint(loc.end) then [loc.start, loc.end] else decoded
  }

  const DefaultCenter: Point := Point(12.9716, 77.5946)

  /** The middle point of the route, else a valid start, else the default centre. */
  function Center(route: seq<Point>, loc: Location): (c: Point)
    ensures |route| > 0 ==> c in route
    ensures |route| == 0 ==> c == (if ValidPoint(loc.start) then loc.start else DefaultCenter)
  {
    if |route| > 0 then route[|route| / 2]
    else if ValidPoint(loc.start) then loc.start
    else DefaultCenter
  }

  /** The centre is the point in the middle of the route: as many route points come
      before it as after it, give or take one. */
  lemma CenterIsMiddle(route: seq<Point>, loc: Location)
    requires |route| > 0
    ensures exists k :: 0 <= k < |route| && Center(route, loc) == route[k] && |route| - 1 - k <= k <= |route| - k
  {
    var k := |route| / 2;
    assert Center(route, loc) == route[k];
  }

  // ---------------------------------------------------------------------
  // Speed-coloured segments

  /** `Math.floor(routeCoordinates.length / speedData.length)` as written. */
  function PointsPerSpeedAsWritten(n: nat, m: nat): nat
    requires m > 0
  {
    n / m
  }

  /** The same, at least 1, so that every segment finds a speed sample. */
  function PointsPerSpeed(n: nat, m: nat): (pps: nat)
    requires m > 0
    ensures pps >= 1
    ensures m <= n ==> pps == PointsPerSpeedAsWritten(n, m)
  {
    if n / m == 0 then 1 else n / m
  }

  /** The speed index of a segment: `Math.min(Math.floor(i / pps), m - 1)`.  With pps
      0, i / 0 is NaN for i == 0 (no index) and Infinity otherwise (the last one). */
  datatype Index = At(k: nat) | NoIndex

  function SpeedIndex(i: nat, pps: nat, m: nat): (x: Index)
    requires m > 0
    ensures x.At? ==> x.k < m
    ensures x.NoIndex? <==> pps == 0 && i == 0
  {
    if pps == 0 then (if i == 0 then NoIndex else At(m - 1))
    else if i / pps < m - 1 then At(i / pps)
    else At(m - 1)
  }

  /** `speedData[speedIndex] || 0`: the sample, or 0 when there is none. */
  function SpeedAt(speeds: seq<real>, x: Index): real
    requires x.At? ==> x.k < |speeds|
  {
    match x
    case At(k) => speeds[k]
    case NoIndex => 0.0
  }

  /** One segment: the two route points it joins, its colour and its speed. */
  datatype Segment = Segment(from: Point, to: Point, color: string, speed: real)

  function SegmentAt(route: seq<Point>, speeds: seq<real>, pps: nat, i: nat): (s: Segment)
    requires i + 1 < |route| && |speeds| > 0
  {
    var speed := SpeedAt(speeds, SpeedIndex(i, pps, |speeds|));
    Segment(route[i], route[i + 1], SpeedColor(speed), speed)
  }

  /** The segments of the loop for a given number of points per speed sample: one
      per consecutive pair of route points. */
  function Segments(route: seq<Point>, speeds: seq<real>, pps: nat): (segs: seq<Segment>)
    requires |speeds| > 0
    ensures |route| > 0 ==> |segs| == |route| - 1
    ensures |route| == 0 ==> segs == []
    ensures forall i :: 0 <= i < |segs| ==> segs[i] == SegmentAt(route, speeds, pps, i)
  {
    if |route| == 0 then []
    else seq(|route| - 1, i requires 0 <= i < |route| - 1 => SegmentAt(route, speeds, pps, i))
  }

  /** The segments as the view builds them, with `pointsPerSpeed` as written. */
  function SegmentsAsWritten(route: seq<Point>, speeds: seq<real>): seq<Segment>
    requires |speeds| > 0
  {
    Segments(route, speeds, PointsPerSpeedAsWritten(|route|, |speeds|))
  }

  /** The speed-coloured segments: built only when there is a route, speed data and
      the colours are switched on. */
  method SpeedSegments(route: seq<Point>, speeds: seq<real>, show: bool) returns (segs: seq<Segment>)
    ensures |route| > 0 && |speeds| > 0 && show ==> segs == SegmentsAsWritten(route, speeds)
    ensures !(|route| > 0 && |speeds| > 0 && show) ==> segs == []
  {
    segs := [];
    if |route| > 0 && |speeds| > 0 && show {
      var pps := PointsPerSpeedAsWritten(|route|, |speeds|);
      var i := 0;
      while i < |route| - 1
        invariant 0 <= i <= |route| - 1
        invariant |segs| == i
        invariant forall j :: 0 <= j < i ==> segs[j] == SegmentAt(route, speeds, pps, j)
      {
        var x := SpeedIndex(i, pps, |speeds|);
        var speed := SpeedAt(speeds, x);
        segs := segs + [Segment(route[i], route[i + 1], SpeedColor(speed), speed)];
        i := i + 1;
      }
    }
  }

  /** The segments form the route: each starts where the previous one ends, the first
      at the route's start and the last at its end. */
  lemma SegmentsFollowRoute(route: seq<Point>, speeds: seq<real>, pps: nat)
    requires |speeds| > 0 && |route| >= 2
    ensures var segs := Segments(route, speeds, pps);
      && segs[0].from == route[0] && segs[|segs| - 1].to == route[|route| - 1]
      && (forall i :: 0 <= i < |segs| - 1 ==> segs[i].to == segs[i + 1].from)
      && (forall i :: 0 <= i < |segs| ==> segs[i].color == SpeedColor(segs[i].speed))
  {
  }

  /** With at least one point per sample, every segment shows a recorded sample, the
      samples are taken in order, and the first segment shows the first sample. */
  lemma SegmentsUseSamples(route: seq<Point>, speeds: seq<real>, pps: nat)
    requires |speeds| > 0 && |route| >= 2 && pps >= 1
    ensures var segs := Segments(route, speeds, pps);
      && segs[0].speed == speeds[0]
      && (forall i :: 0 <= i < |segs| ==> SpeedIndex(i, pps, |speeds|).At?)
      && (forall i, j :: 0 <= i <= j < |segs| ==>
            SpeedIndex(i, pps, |speeds|).k <= SpeedIndex(j, pps, |speeds|).k)
  {
    forall i, j | 0 <= i <= j < |route| - 1
      ensures SpeedIndex(i, pps, |speeds|).k <= SpeedIndex(j, pps, |speeds|).k
    {
      DivMonotone(i, j, pps);
    }
  }

  lemma DivMonotone(i: nat, j: nat, d: nat)
    requires i <= j && d >= 1
    ensures i / d <= j / d
  {
    var qi, qj := i / d, j / d;
    assert qi * d <= i;
    assert j < (qj + 1) * d;
    MulLess(qi, qj + 1, d);
  }

  lemma MulLess(a: int, b: int, d: int)
    requires d > 0 && a * d < b * d
    ensures a < b
  {
    assert (b - a) * d > 0;
  }

  /** The guarded segments show a recorded sample everywhere, and are the view's own
      segments whenever there are no more samples than route points. */
  lemma GuardedSegments(route: seq<Point>, speeds: seq<real>)
    requires |speeds| > 0 && |route| >= 2
    ensures var segs := Segments(route, speeds, PointsPerSpeed(|route|, |speeds|));
      forall i :: 0 <= i < |segs| ==> segs[i].speed in speeds
    ensures |speeds| <= |route| ==>
      Segments(route, speeds, PointsPerSpeed(|route|, |speeds|)) == SegmentsAsWritten(route, speeds)
  {
    var pps := PointsPerSpeed(|route|, |speeds|);
    var segs := Segments(route, speeds, pps);
    forall i | 0 <= i < |segs| ensures segs[i].speed in speeds {
      var x := SpeedIndex(i, pps, |speeds|);
      assert segs[i] == SegmentAt(route, speeds, pps, i);
      assert segs[i].speed == SpeedAt(speeds, x) == speeds[x.k];
    }
  }

  /** More samples than route points, as written: the first segment shows 0 km/h in
      green whatever was recorded, and every other segment shows the last sample. */
  lemma SparseRouteAsWritten(route: seq<Point>, speeds: seq<real>)
    requires |route| >= 2 && |speeds| > |route|
    ensures var segs := SegmentsAsWritten(route, speeds);
      && segs[0].speed == 0.0 && segs[0].color == "#00E676"
      && forall i :: 1 <= i < |segs| ==> segs[i].speed == speeds[|speeds| - 1]
  {
  }

  /** The start-to-end fallback with three samples of 30 km/h and more: the only
      segment reads 0 km/h. */
  lemma FallbackRouteShowsZero(a: Point, b: Point)
    ensures var segs := SegmentsAsWritten([a, b], [30.0, 35.0, 40.0]);
      |segs| == 1 && segs[0].speed == 0.0
  {
    SparseRouteAsWritten([a, b], [30.0, 35.0, 40.0]);
  }

  // ---------------------------------------------------------------------
  // The whole view

  /** What is drawn along the route: coloured segments, one plain green line, or
      nothing. */
  datatype Line = Coloured(segments: seq<Segment>) | Plain(points: seq<Point>) | NoLine

  /** The view of one ride: the no-GPS notice, centre, zoom, the points the map is
      fitted to, the line, the markers, the info overlay with or without the top
      speed, and the speed toggle and legend. */
  datatype MapView = MapView(
    noData: bool,
    center: Point,
    zoom: nat,
    fitTo: seq<Point>,
    line: Line,
    startMarker: bool,
    endMarker: bool,
    overlay: bool,
    topSpeed: bool,
    toggle: bool,
    legend: bool)

  /** The view for a ride, or None when rendering throws on a polyline that is not
      text. */
  function MapOf(r: Ride, decode: Decoder, showSpeedColors: bool): (v: Option<MapView>)
    ensures v.None? <==> DecodedRoute(r.polyline, decode).None?
    ensures v.Some? ==> var route := Route(DecodedRoute(r.polyline, decode).value, r.location);
      && (v.value.noData <==> route == [])
      && (v.value.line.Coloured? <==> route != [] && r.speed != [] && showSpeedColors)
      && (v.value.line.Coloured? ==> v.value.line.segments == SegmentsAsWritten(route, r.speed))
      && (v.value.line.Plain? <==> |route| > 1 && !(r.speed != [] && showSpeedColors))
      && (v.value.line.NoLine? <==> |route| <= 1 && !(route != [] && r.speed != [] && showSpeedColors))
  {
    match DecodedRoute(r.polyline, decode)
    case None => None
    case Some(decoded) =>
      var route := Route(decoded, r.location);
      var hasRoute, hasSpeed := |route| > 0, |r.speed| > 0;
      var line :=
        if hasRoute && hasSpeed && showSpeedColors then
          Coloured(SegmentsAsWritten(route, r.speed))
        else if |route| > 1 then Plain(route)
        else NoLine;
      Some(MapView(!hasRoute, Center(route, r.location), if hasRoute then 13 else 12,
                   if hasRoute then route else [], line,
                   ValidPoint(r.location.start), ValidPoint(r.location.end),
                   hasRoute, hasRoute && hasSpeed, hasRoute && hasSpeed,
                   hasRoute && hasSpeed && showSpeedColors))
  }

  /** A ride with no usable polyline but valid start and end points is drawn as the
      straight line between them, centred on the end point and fitted to both. */
  lemma MapFallback(r: Ride, decode: Decoder, show: bool)
    requires DecodedRoute(r.polyline, decode) == Some([])
    requires ValidPoint(r.location.start) && ValidPoint(r.location.end)
    ensures var v := MapOf(r, decode, show).value;
      && !v.noData && v.zoom == 13 && v.fitTo == [r.location.start, r.location.end]
      && v.center == r.location.end && v.startMarker && v.endMarker
      && (|r.speed| > 0 && show ==>
            (v.line.Coloured? && |v.line.segments| == 1 &&
             v.line.segments[0].from == r.location.start && v.line.segments[0].to == r.location.end))
      && (!(|r.speed| > 0 && show) ==> v.line == Plain([r.location.start, r.location.end]))
  {
  }

  /** No route: the notice shows, the map is not fitted, nothing is drawn and no
      overlay appears; the map sits on a valid start point or on the default
      centre. */
  lemma MapWithoutRoute(r: Ride, decode: Decoder, show: bool)
    requires DecodedRoute(r.polyline, decode) == Some([])
    requires !(ValidPoint(r.location.start) && ValidPoint(r.location.end))
    ensures var v := MapOf(r, decode, show).value;
      && v.noData && v.zoom == 12 && v.fitTo == [] && v.line == NoLine
      && !v.overlay && !v.toggle && !v.legend
      && v.center == (if ValidPoint(r.location.start) then r.location.start else DefaultCenter)
  {
  }

  /** With a route the map is fitted to exactly the route and centred on a point of
      it; the coloured line appears exactly when there is speed data and the colours
      are on, and the legend exactly with it. */
  lemma MapWithRoute(r: Ride, decode: Decoder, show: bool)
    requires MapOf(r, decode, show).Some?
    requires var route := Route(DecodedRoute(r.polyline, decode).value, r.location); |route| > 0
    ensures var v, route := MapOf(r, decode, show).value, Route(DecodedRoute(r.polyline, decode).value, r.location);
      && !v.noData && v.zoom == 13 && v.fitTo == route && v.center in route && v.overlay
      && (v.line.Coloured? <==> |r.speed| > 0 && show)
      && (v.legend <==> v.line.Coloured?)
      && (v.line.Coloured? ==> |v.line.segments| == |route| - 1)
  {
  }

  /** `((distance / duration) * 60).toFixed(1)` in the overlay: km/h from km and
      minutes, None where the quotient is Infinity or NaN (no duration). */
  function AvgSpeed(distance: JsNum, duration: JsNum): (s: Option<real>)
    ensures s.Some? <==> distance.Fin? && duration.Fin? && duration.v != 0.0
    ensures s.Some? ==> s.value * duration.v == distance.v * 60.0
  {
    if distance.Fin? && duration.Fin? && duration.v != 0.0 then Some(distance.v / duration.v * 60.0) else None
  }
}
