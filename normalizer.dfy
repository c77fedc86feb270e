/** The ride loader: the empty-URL early return, the HTML-instead-of-CSV guard, and
    the transform that turns each parsed CSV row into a ride record.  A row whose
    transform throws is dropped and the others are kept in order. */
module Normalizer {

  import opened JsValue
  import opened Collections

  // ---------------------------------------------------------------------
  // The ride record

  /** A field the loader fills with `cond ? (x).toFixed(k) : 0`: the number 0, or the
      decimal text of x rounded to k decimals, held as the number that text reads
      back as (`value`, NaN for the text "NaN"). */
  datatype Shown = Zero | Fixed(value: JsNum)

  /** `parseFloat(s)`, also `parseFloat(s || 0)` and `Number(s)`: what a shown field
      reads back as. */
  function ShownNumber(s: Shown): (n: JsNum)
    ensures s.Zero? ==> n == Fin(0.0)
    ensures s.Fixed? ==> n == s.value
  {
    match s
    case Zero => Fin(0.0)
    case Fixed(v) => v
  }

  datatype Point = Point(lat: real, lon: real)

  /** Distance in metres per riding mode: exactly the six modes, in this order. */
  datatype Modes = Modes(eco: real, smartEco: real, ride: real, sport: real, warp: real, zip: real)

  /** Percentages of distance spent riding, braking and coasting. */
  datatype Behaviour = Behaviour(riding: Shown, braking: Shown, coasting: Shown)

  datatype Location = Location(start: Point, end: Point, startAddr: Cell, endAddr: Cell)

  datatype Ride = Ride(
    id: Cell,
    date: Cell,
    month: string,
    year: real,
    distance: Shown,        // km
    efficiency: real,       // Wh/km
    efficiencyKmKwh: real,
    duration: Shown,        // minutes
    topSpeed: real,
    avgSpeed: real,
    energyUsed: real,       // Wh
    socPercent: Shown,
    timestamp: Cell,        // Null when the column is falsy
    ridingM: real,
    brakingM: real,
    coastingM: real,
    behaviour: Behaviour,
    modes: Modes,
    location: Location,
    polyline: Cell,
    speed: seq<real>)

  // ---------------------------------------------------------------------
  // Field coercions

  /** `v || fallback` on a cell. */
  function OrCell(v: Option<Cell>, fallback: Cell): (c: Cell)
    ensures Truthy(v) ==> c == v.value
    ensures !Truthy(v) ==> c == fallback
  {
    if Truthy(v) then v.value else fallback
  }

  /** `n * k` on a JavaScript number. */
  function Times(n: JsNum, k: real): (r: JsNum)
    ensures r.NaN? <==> n.NaN?
    ensures r.Fin? ==> r.v == n.v * k
  {
    match n
    case NaN => NaN
    case Fin(x) => Fin(x * k)
  }

  /** `v ? (Number(v) / k).toFixed(2) : 0`. */
  function Scaled(v: Option<Cell>, k: real, host: Host): (s: Shown)
    requires k != 0.0
  {
    if Truthy(v) then Fixed(RoundNum2(Div(ToNumber(v, host), k))) else Zero
  }

  /** `s` is what `(Number(v) / unit).toFixed(2)` reads back as when `v` is truthy
      (NaN exactly when `v` is not numeric), and 0 when it is not. */
  predicate ShowsTwoDecimals(s: Shown, v: Option<Cell>, host: Host, unit: real)
    requires unit != 0.0
  {
    && (Truthy(v) <==> s.Fixed?)
    && (s.Fixed? ==> (s.value.NaN? <==> ToNumber(v, host).NaN?))
    && (s.Fixed? && s.value.Fin? && ToNumber(v, host).Fin? ==>
          s.value.v == Round2(ToNumber(v, host).v / unit))
  }

  lemma ScaledMeans(v: Option<Cell>, k: real, host: Host)
    requires k != 0.0
    ensures ShowsTwoDecimals(Scaled(v, k, host), v, host, k)
  {
  }

  /** A truthy cell as a percentage: its number times 100 to two decimals; a falsy
      one is 0. */
  function Percent(v: Option<Cell>, host: Host): (s: Shown)
  {
    if Truthy(v) then Fixed(RoundNum2(Times(ToNumber(v, host), 100.0))) else Zero
  }

  lemma PercentMeans(v: Option<Cell>, host: Host)
    ensures ShowsTwoDecimals(Percent(v, host), v, host, 0.01)
  {
  }

  lemma {:induction false} SplitHasSecond(s: string, c: char)
    requires Contains(s, c)
    ensures |Split(s, c)| >= 2
    decreases |s|
  {
    if s[0] != c {
      assert Contains(s[1..], c) by {
        var i :| 0 <= i < |s| && s[i] == c;
        assert s[1..][i - 1] == c;
      }
      SplitHasSecond(s[1..], c);
    }
  }

  /** The month column: `m ? (m.toString().includes('-') ? m.split('-')[1]
      : m.toString().padStart(2, '0')) : '01'`.  None is the TypeError thrown when the
      text of a cell that is not a string holds a '-': only strings have `split`. */
  function NormalizeMonth(v: Option<Cell>, host: Host): (r: Option<string>)
    ensures r.Some? ==> !Contains(r.value, '-')
  {
    if !Truthy(v) then Some("01")
    else
      var text := CellText(v.value, host);
      if Contains(text, '-') then
        if v.value.Str? then
          SplitHasSecond(text, '-');
          Some(Split(text, '-')[1])
        else None
      else
        var r := PadStart(text, 2, '0');
        assert !Contains(r, '-') by {
          assert forall i :: 0 <= i < |r| - |text| ==> r[i] == '0';
          assert forall i :: |r| - |text| <= i < |r| ==> r[i] == text[i - (|r| - |text|)];
        }
        Some(r)
  }

  /** The three cases of month normalisation. */
  lemma NormalizeMonthCases(v: Option<Cell>, host: Host)
    ensures !Truthy(v) ==> NormalizeMonth(v, host) == Some("01")
    ensures Truthy(v) && v.value.Str? && Contains(v.value.s, '-') ==>
      |Split(v.value.s, '-')| >= 2 && NormalizeMonth(v, host) == Some(Split(v.value.s, '-')[1])
    ensures Truthy(v) && !Contains(CellText(v.value, host), '-') ==>
      NormalizeMonth(v, host) == Some(PadStart(CellText(v.value, host), 2, '0')) &&
      |NormalizeMonth(v, host).value| >= 2
    ensures NormalizeMonth(v, host).None? <==>
      Truthy(v) && !v.value.Str? && Contains(CellText(v.value, host), '-')
  {
    if Truthy(v) && v.value.Str? && Contains(v.value.s, '-') {
      SplitHasSecond(v.value.s, '-');
    }
  }

  /** A year-month text keeps its month part: "2024-03" normalises to "03". */
  lemma NormalizeMonthOfYearMonth(host: Host)
    ensures NormalizeMonth(Some(Str("2024-03")), host) == Some("03")
  {
    assert !Contains("2024", '-') && !Contains("03", '-');
    SplitTwo("2024", "03", '-');
    assert "2024" + ['-'] + "03" == "2024-03";
  }

  /** A month number is padded: 3 normalises to "03". */
  lemma NormalizeMonthOfNumber(host: Host)
    ensures NormalizeMonth(Some(Num(3.0)), host) == Some("03")
  {
    assert IsInteger(3.0) && (3.0).Floor == 3;
    assert CellText(Num(3.0), host) == "3";
    assert !Contains("3", '-');
    assert PadStart("3", 2, '0') == "03";
  }

  /** The behaviour percentages: with `total` the sum of the three distances,
      `total > 0 ? (x / total * 100).toFixed(1) : 0` for each. */
  function Shares(riding: real, braking: real, coasting: real): (b: Behaviour)
  {
    var total := riding + braking + coasting;
    if total > 0.0 then
      Behaviour(Fixed(Fin(Round1(riding / total * 100.0))), Fixed(Fin(Round1(braking / total * 100.0))),
                Fixed(Fin(Round1(coasting / total * 100.0))))
    else Behaviour(Zero, Zero, Zero)
  }

  /** With a positive total each share is its exact percentage rounded to a tenth,
      the exact percentages add up to 100, and so the shown ones add up to 100
      give or take 0.15; otherwise all three are 0. */
  lemma SharesSumTo100(riding: real, braking: real, coasting: real)
    ensures var b := Shares(riding, braking, coasting);
      if riding + braking + coasting > 0.0 then
        var total := riding + braking + coasting;
        var r, k, c := riding / total * 100.0, braking / total * 100.0, coasting / total * 100.0;
        && r + k + c == 100.0
        && b == Behaviour(Fixed(Fin(Round1(r))), Fixed(Fin(Round1(k))), Fixed(Fin(Round1(c))))
        && 99.85 <= b.riding.value.v + b.braking.value.v + b.coasting.value.v <= 100.15
      else b == Behaviour(Zero, Zero, Zero)
  {
    var total := riding + braking + coasting;
    if total > 0.0 {
      calc {
        riding / total * 100.0 + braking / total * 100.0 + coasting / total * 100.0;
        (riding + braking + coasting) / total * 100.0;
        100.0;
      }
    }
  }

  // ---------------------------------------------------------------------
  // One row

  /** `Number(row.col) || 0`. */
  function Column(row: Row, col: string, host: Host): real
  {
    NumberOrZero(Get(row, col), host)
  }

  /** The record the loader builds from a row whose month and speed series were
      read without an exception. */
  function BuildRide(row: Row, index: nat, month: string, speed: seq<real>, host: Host): (r: Ride)
    ensures r.month == month && r.speed == speed
  {
    var yearNum := ToNumber(Get(row, "year"), host);
    Ride(
      id := OrCell(Get(row, "ride_id"), Str("ride-" + NatText(index))),
      date := OrCell(Get(row, "date"), Str("N/A")),
      month := month,
      year := if yearNum.Fin? && yearNum.v != 0.0 then yearNum.v else host.currentYear as real,
      distance := Scaled(Get(row, "distance_m"), 1000.0, host),
      efficiency := Column(row, "efficiency_wh_km", host),
      efficiencyKmKwh := Column(row, "efficiency_km_kwh", host),
      duration := Scaled(Get(row, "duration_secs"), 60.0, host),
      topSpeed := Column(row, "top_speed_kmph", host),
      avgSpeed := Column(row, "avg_speed_kmph", host),
      energyUsed := Column(row, "soc_usage_wh", host),
      socPercent := Percent(Get(row, "soc_usage_percent"), host),
      timestamp := OrCell(Get(row, "ride_start_time"), Null),
      ridingM := Column(row, "riding_m", host),
      brakingM := Column(row, "braking_m", host),
      coastingM := Column(row, "coasting_m", host),
      behaviour := Shares(Column(row, "riding_m", host), Column(row, "braking_m", host),
                          Column(row, "coasting_m", host)),
      modes := Modes(Column(row, "eco_mode_distance_m", host), Column(row, "smart_eco_mode_distance_m", host),
                     Column(row, "ride_mode_distance_m", host), Column(row, "sport_mode_distance_m", host),
                     Column(row, "warp_mode_distance_m", host), Column(row, "zip_mode_distance_m", host)),
      location := Location(
        Point(Column(row, "ride_start_lat", host), Column(row, "ride_start_lon", host)),
        Point(Column(row, "ride_end_lat", host), Column(row, "ride_end_lon", host)),
        OrCell(Get(row, "ride_start_location"), Str("")),
        OrCell(Get(row, "ride_end_location"), Str(""))),
      polyline := OrCell(Get(row, "polyline"), Str("")),
      speed := speed)
  }

  /** The record built from the row at position `index` among the object rows, or
      None when building it throws: the month TypeError above, or `JSON.parse` of a
      truthy speed cell failing. */
  function NormalizeRow(row: Row, index: nat, host: Host): (r: Option<Ride>)
    ensures r.Some? ==> !Contains(r.value.month, '-')
  {
    var month := NormalizeMonth(Get(row, "month"), host);
    var speedCell := Get(row, "speed");
    var speed := if Truthy(speedCell) then host.parseJson(CellText(speedCell.value, host)) else Some([]);
    if month.None? || speed.None? then None
    else Some(BuildRide(row, index, month.value, speed.value, host))
  }

  /** A row is dropped exactly when its month text throws or its speed cell is
      truthy and not valid JSON; a bad speed cell drops the whole ride. */
  lemma RowDropped(row: Row, index: nat, host: Host)
    ensures NormalizeRow(row, index, host).None? <==>
      NormalizeMonth(Get(row, "month"), host).None? ||
      (Truthy(Get(row, "speed")) && host.parseJson(CellText(row["speed"], host)).None?)
  {
  }

  /** A cell that `Number(x) || 0` turns into 0. */
  predicate Defaulted(v: Option<Cell>)
  {
    v.None? || v == Some(Null) || v == Some(Str("")) || v == Some(Num(0.0))
  }

  /** A kept row is the record built from its month and speed series. */
  lemma NormalizeRowBuilds(row: Row, index: nat, host: Host)
    requires NormalizeRow(row, index, host).Some?
    ensures NormalizeMonth(Get(row, "month"), host).Some?
    ensures NormalizeRow(row, index, host) ==
      Some(BuildRide(row, index, NormalizeMonth(Get(row, "month"), host).value,
                     NormalizeRow(row, index, host).value.speed, host))
  {
  }

  /** Distance in km, duration in minutes and the state-of-charge share as a
      percentage, each rounded to two decimals, when their columns are truthy, and 0
      otherwise; NaN when the column is truthy but not numeric. */
  lemma BuildRideUnits(row: Row, index: nat, month: string, speed: seq<real>, host: Host)
    ensures var r := BuildRide(row, index, month, speed, host);
      && ShowsTwoDecimals(r.distance, Get(row, "distance_m"), host, 1000.0)
      && ShowsTwoDecimals(r.duration, Get(row, "duration_secs"), host, 60.0)
      && ShowsTwoDecimals(r.socPercent, Get(row, "soc_usage_percent"), host, 0.01)
  {
    var r := BuildRide(row, index, month, speed, host);
    ScaledMeans(Get(row, "distance_m"), 1000.0, host);
    ScaledMeans(Get(row, "duration_secs"), 60.0, host);
    PercentMeans(Get(row, "soc_usage_percent"), host);
    assert r.distance == Scaled(Get(row, "distance_m"), 1000.0, host);
    assert r.duration == Scaled(Get(row, "duration_secs"), 60.0, host);
    assert r.socPercent == Percent(Get(row, "soc_usage_percent"), host);
  }

  /** The distance a ride reads back as lies within 5 m of the metres in its cell,
      and a ride reaches 10 km exactly when the cell holds at least 9995 m: the
      two-decimal text of 9.996 is "10.00". */
  lemma DistanceReadBack(row: Row, index: nat, month: string, speed: seq<real>, host: Host)
    requires Truthy(Get(row, "distance_m")) && ToNumber(Get(row, "distance_m"), host).Fin?
    ensures var r, m := BuildRide(row, index, month, speed, host), ToNumber(Get(row, "distance_m"), host).v;
      && r.distance.Fixed? && r.distance.value.Fin?
      && Abs(r.distance.value.v * 1000.0 - m) <= 5.0
      && (r.distance.value.v >= 10.0 <==> m >= 9995.0)
  {
    var r, m := BuildRide(row, index, month, speed, host), ToNumber(Get(row, "distance_m"), host).v;
    BuildRideUnits(row, index, month, speed, host);
    var km := r.distance.value.v;
    assert km == Round2(m / 1000.0);
    assert Abs(km - m / 1000.0) <= 0.005;
    Round2AtLeast(m / 1000.0, 1000);
  }

  /** The id is `ride_id` when truthy and `ride-<index>` otherwise; date, timestamp,
      year and the addresses fall back to "N/A", null, the current year and "". */
  lemma BuildRideFallbacks(row: Row, index: nat, month: string, speed: seq<real>, host: Host)
    ensures var r := BuildRide(row, index, month, speed, host);
      && (Truthy(Get(row, "ride_id")) ==> r.id == row["ride_id"])
      && (!Truthy(Get(row, "ride_id")) ==> r.id == Str("ride-" + NatText(index)))
      && (!Truthy(Get(row, "date")) ==> r.date == Str("N/A"))
      && (!Truthy(Get(row, "ride_start_time")) ==> r.timestamp == Null)
      && (Defaulted(Get(row, "year")) ==> r.year == host.currentYear as real)
      && (!Truthy(Get(row, "ride_start_location")) ==> r.location.startAddr == Str(""))
      && (!Truthy(Get(row, "ride_end_location")) ==> r.location.endAddr == Str(""))
      && (!Truthy(Get(row, "polyline")) ==> r.polyline == Str(""))
  {
  }

  /** Every `Number(x) || 0` field holds its column read by `Column`: the number in
      the cell, or 0 when the cell is missing, null, empty, 0 or not numeric (see
      `NumberOrZeroDefaults`); the behaviour shares are computed from the three
      stored distances. */
  lemma BuildRideZeros(row: Row, index: nat, month: string, speed: seq<real>, host: Host)
    ensures var r := BuildRide(row, index, month, speed, host);
      && r.efficiency == Column(row, "efficiency_wh_km", host)
      && r.efficiencyKmKwh == Column(row, "efficiency_km_kwh", host)
      && r.topSpeed == Column(row, "top_speed_kmph", host)
      && r.avgSpeed == Column(row, "avg_speed_kmph", host)
      && r.energyUsed == Column(row, "soc_usage_wh", host)
      && r.ridingM == Column(row, "riding_m", host)
      && r.brakingM == Column(row, "braking_m", host)
      && r.coastingM == Column(row, "coasting_m", host)
      && r.modes == Modes(Column(row, "eco_mode_distance_m", host), Column(row, "smart_eco_mode_distance_m", host),
                          Column(row, "ride_mode_distance_m", host), Column(row, "sport_mode_distance_m", host),
                          Column(row, "warp_mode_distance_m", host), Column(row, "zip_mode_distance_m", host))
      && r.location.start == Point(Column(row, "ride_start_lat", host), Column(row, "ride_start_lon", host))
      && r.location.end == Point(Column(row, "ride_end_lat", host), Column(row, "ride_end_lon", host))
      && r.behaviour == Shares(r.ridingM, r.brakingM, r.coastingM)
  {
  }

  /** A missing, null, empty or zero column reads as 0, so that a ride without
      coordinates starts and ends at [0, 0]. */
  lemma ColumnDefaults(row: Row, host: Host)
    ensures forall col :: Defaulted(Get(row, col)) ==> Column(row, col, host) == 0.0
  {
    forall col | Defaulted(Get(row, col)) ensures Column(row, col, host) == 0.0 {
      NumberOrZeroDefaults(Get(row, col), host);
    }
  }

  // ---------------------------------------------------------------------
  // The batch

  /** An entry of the parser's `data`: an object row, or something the
      `row && typeof row === 'object'` filter removes. */
  datatype Parsed = Object(row: Row) | NotObject

  /** The object rows, in order. */
  function Objects(data: seq<Parsed>): (rows: seq<Row>)
    ensures |rows| <= |data|
    decreases |data|
  {
    if |data| == 0 then []
    else
      var last := data[|data| - 1];
      Objects(data[..|data| - 1]) + (if last.Object? then [last.row] else [])
  }

  /** The `filter` / indexed `map` / `filter(item => item !== null)` chain: each
      object row is transformed with its position among the object rows, and the
      rows whose transform throws are left out. */
  function TransformRows(data: seq<Parsed>, host: Host): (rides: seq<Ride>)
    ensures |rides| <= |data|
  {
    Survivors(Objects(data), (row, i) => NormalizeRow(row, i, host))
  }

  /** The rides are the transforms of the object rows at increasing positions, and
      every object row left out is one whose transform throws. */
  lemma TransformRowsInOrder(data: seq<Parsed>, host: Host)
    ensures var rows, f := Objects(data), (row, i) => NormalizeRow(row, i, host);
      var ks := SurvivorPositions(rows, f);
      && |ks| == |TransformRows(data, host)|
      && (forall i, j :: 0 <= i < j < |ks| ==> ks[i] < ks[j])
      && (forall i :: 0 <= i < |ks| ==>
            ks[i] < |rows| && NormalizeRow(rows[ks[i]], ks[i], host) == Some(TransformRows(data, host)[i]))
      && (forall k :: 0 <= k < |rows| && k !in ks ==> NormalizeRow(rows[k], k, host).None?)
  {
    var rows, f := Objects(data), (row, i) => NormalizeRow(row, i, host);
    SurvivorPositionsBounds(rows, f);
    forall i | 0 <= i < |SurvivorPositions(rows, f)|
      ensures NormalizeRow(rows[SurvivorPositions(rows, f)[i]], SurvivorPositions(rows, f)[i], host)
        == Some(TransformRows(data, host)[i])
    {
      SurvivorsAtPositions(rows, f, i);
    }
    forall k | 0 <= k < |rows| && k !in SurvivorPositions(rows, f)
      ensures NormalizeRow(rows[k], k, host).None?
    {
      NonSurvivorsDropped(rows, f, k);
    }
  }

  // ---------------------------------------------------------------------
  // The loader

  datatype LoadError = HtmlInsteadOfCsv

  datatype Loaded = Rides(rides: seq<Ride>) | Failed(error: LoadError)

  /** `body.trim().toLowerCase()` starts with "<!doctype html" or "<html". */
  predicate LooksLikeHtml(body: string)
  {
    var t := LowerAscii(Trim(body));
    StartsWith(t, "<!doctype html") || StartsWith(t, "<html")
  }

  /** The loader for a URL whose response body is `body` and whose parse gave `data`:
      no request for an empty URL, the HTML error for an empty parse of an HTML
      page, and the transformed rows otherwise. */
  function LoadRides(url: string, body: string, data: seq<Parsed>, host: Host): (r: Loaded)
  {
    if url == "" then Rides([])
    else if |data| == 0 && LooksLikeHtml(body) then Failed(HtmlInsteadOfCsv)
    else Rides(TransformRows(data, host))
  }

  /** The HTML error is raised only for an empty parse of an HTML body; an empty
      parse of anything else gives no rides, and an empty URL gives no rides. */
  lemma LoadRidesOutcomes(url: string, body: string, data: seq<Parsed>, host: Host)
    ensures LoadRides(url, body, data, host).Failed? <==> url != "" && |data| == 0 && LooksLikeHtml(body)
    ensures url == "" ==> LoadRides(url, body, data, host) == Rides([])
    ensures url != "" && |data| == 0 && !LooksLikeHtml(body) ==> LoadRides(url, body, data, host) == Rides([])
    ensures LoadRides(url, body, data, host).Rides? ==> |LoadRides(url, body, data, host).rides| <= |data|
  {
  }

  /** White space in front of a body never changes the verdict. */
  lemma LooksLikeHtmlBlankPrefix(w: string, body: string)
    requires Blank(w)
    ensures LooksLikeHtml(w + body) == LooksLikeHtml(body)
  {
    TrimStartBlank(w, body);
  }

  /** Letter case never changes the verdict: bodies that differ only in the case
      of their letters are both taken for an HTML page, or neither is. */
  lemma LooksLikeHtmlCaseBlind(a: string, b: string)
    requires LowerAscii(a) == LowerAscii(b)
    ensures LooksLikeHtml(a) == LooksLikeHtml(b)
  {
    LowerTrim(a);
    LowerTrim(b);
  }

  /** In particular a body is taken for an HTML page exactly when its lower-cased
      text is. */
  lemma LooksLikeHtmlLowered(body: string)
    ensures LooksLikeHtml(LowerAscii(body)) == LooksLikeHtml(body)
  {
    LowerTwice(body);
    LooksLikeHtmlCaseBlind(LowerAscii(body), body);
  }

  /** Leading white space and upper case do not hide an HTML page. */
  lemma LooksLikeHtmlExample(body: string)
    requires body == " <HTML>"
    ensures LooksLikeHtml(body)
  {
    TrimmedPage(body);
    LoweredPage("<HTML>");
  }

  lemma TrimmedPage(body: string)
    requires body == " <HTML>"
    ensures Trim(body) == "<HTML>"
  {
    var t := "<HTML>";
    SpaceCut(body, t);
    TagKept(t);
  }

  lemma SpaceCut(body: string, t: string)
    requires body == " <HTML>" && t == "<HTML>"
    ensures TrimStart(body) == TrimStart(t)
  {
    assert IsJsSpace(body[0]) && body[1..] == t;
  }

  lemma TagKept(t: string)
    requires t == "<HTML>"
    ensures TrimStart(t) == t && TrimEnd(t) == t
  {
    assert !IsJsSpace(t[0]) && !IsJsSpace(t[5]);
  }

  lemma LoweredPage(t: string)
    requires t == "<HTML>"
    ensures StartsWith(LowerAscii(t), "<html")
  {
    var l := LowerAscii(t);
    assert l[..5] == "<html" by {
      assert l[0] == '<' && l[1] == 'h' && l[2] == 't' && l[3] == 'm' && l[4] == 'l';
    }
  }


}
