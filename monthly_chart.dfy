// The monthly performance chart: the header metrics, the click-to-filter wiring and
// its banner, and the month-over-month badges under the chart.

module MonthlyChart {

  import opened JsValue
  import opened Collections
  import opened Normalizer
  import opened Rollup
  import opened Dashboard

  // ---------------------------------------------------------------------
  // Header metrics

  /** The three mini metrics: the number of months, the mean distance per month and
      the total energy in kWh. */
  datatype Header = Header(months: nat, avgDistance: JsNum, totalEnergy: real)

  function EntryDistance(e: MonthEntry): JsNum
  {
    e.distance
  }

  function EntryEnergy(e: MonthEntry): real
  {
    e.energy
  }

  /** The header block, rendered only for a nonempty list: Σ distance / number of
      months, and Σ energy. */
  function HeaderOf(data: seq<MonthEntry>): (h: Option<Header>)
    ensures h.None? <==> |data| == 0
    ensures h.Some? ==> h.value.months == |data| && h.value.totalEnergy == Sum(data, EntryEnergy)
  {
    if |data| == 0 then None
    else Some(Header(|data|, Div(JsSum(data, EntryDistance), |data| as real), Sum(data, EntryEnergy)))
  }

  /** The rollup is empty exactly when there are no rides. */
  lemma RollupEmpty(rides: seq<Ride>, host: Host)
    ensures |MonthlyRollup(rides, host)| == 0 <==> |rides| == 0
  {
    RollupCounts(rides, host);
    if |rides| > 0 {
      RollupGroups(rides, host);
      assert rides[0] in rides;
    }
  }

  /** The distinct month keys among the rides. */
  function MonthsOf(rides: seq<Ride>, host: Host): set<string>
  {
    set r | r in rides :: MonthKey(r, host)
  }

  /** The header appears exactly when there are rides, and counts the distinct month
      keys among them. */
  lemma HeaderShown(rides: seq<Ride>, host: Host)
    ensures var h := HeaderOf(MonthlyRollup(rides, host));
      && (h.Some? <==> |rides| > 0)
      && (h.Some? ==> h.value.months == |MonthsOf(rides, host)|)
  {
    RollupEmpty(rides, host);
    RollupKeys(rides, host);
  }

  /** Every ride's month has an entry. */
  lemma EntryOfRide(rides: seq<Ride>, host: Host, r: Ride)
    requires r in rides
    ensures exists i :: 0 <= i < |MonthlyRollup(rides, host)| && MonthlyRollup(rides, host)[i].key == MonthKey(r, host)
  {
    RollupGroups(rides, host);
  }

  /** Every entry holds rides, and they have its key. */
  lemma RidesOfEntry(rides: seq<Ride>, host: Host, i: nat)
    requires i < |MonthlyRollup(rides, host)|
    ensures var e, ms := MonthlyRollup(rides, host)[i], Matching(rides, MonthKeyOf(host), MonthlyRollup(rides, host)[i].key);
      && |ms| == e.count > 0
      && forall r :: r in ms <==> r in rides && MonthKey(r, host) == e.key
  {
    RollupMeans(rides, host, i);
    MatchingMembers(rides, MonthKeyOf(host), MonthlyRollup(rides, host)[i].key);
  }

  lemma EntryKeysDistinct(rides: seq<Ride>, host: Host)
    ensures var es := MonthlyRollup(rides, host);
      forall i, j :: 0 <= i < j < |es| ==> es[i].key != es[j].key
  {
    RollupGroups(rides, host);
  }

  /** The rollup has one entry per distinct month key. */
  lemma RollupKeys(rides: seq<Ride>, host: Host)
    ensures |MonthlyRollup(rides, host)| == |MonthsOf(rides, host)|
  {
    var es := MonthlyRollup(rides, host);
    var eks := seq(|es|, i requires 0 <= i < |es| => es[i].key);
    var months := MonthsOf(rides, host);
    EntryKeysDistinct(rides, host);
    assert Distinct(eks);
    DistinctCard(eks);
    forall k | k in eks ensures k in months {
      var i :| 0 <= i < |es| && eks[i] == k;
      RidesOfEntry(rides, host, i);
      var ms := Matching(rides, MonthKeyOf(host), k);
      assert ms[0] in ms;
    }
    forall k | k in months ensures k in eks {
      var r :| r in rides && MonthKey(r, host) == k;
      EntryOfRide(rides, host, r);
      var i :| 0 <= i < |es| && es[i].key == k;
      assert eks[i] == k;
    }
    assert (set x | x in eks) == months;
  }

  /** The total energy is the rides' energy in kWh, up to the rounding of each
      month to a hundredth: within 5 Wh per month. */
  lemma HeaderEnergy(rides: seq<Ride>, host: Host)
    requires |rides| > 0
    ensures var h := HeaderOf(MonthlyRollup(rides, host));
      && h.Some?
      && -5.0 * h.value.months as real <= h.value.totalEnergy * 1000.0 - Sum(rides, EnergyOf) <= 5.0 * h.value.months as real
  {
    var gs, es := GroupBy(rides, MonthKeyOf(host)), MonthlyRollup(rides, host);
    RollupEmpty(rides, host);
    EntryWhsWithin(rides, host);
    GroupsWh(gs, es);
    GroupBySum(rides, MonthKeyOf(host), EnergyOf);
  }

  /** Months each within 5 Wh of their rides' energy add up to within 5 Wh per month
      of the energy of all the rides. */
  lemma GroupsWh(gs: seq<Group<string, Ride>>, es: seq<MonthEntry>)
    requires |es| == |gs|
    requires forall i :: 0 <= i < |gs| ==> -5.0 <= EntryWh(es[i]) - Sum(gs[i].members, EnergyOf) <= 5.0
    ensures -5.0 * |es| as real <= Sum(es, EntryEnergy) * 1000.0 - GroupSum(gs, EnergyOf) <= 5.0 * |es| as real
  {
    var slack: MonthEntry -> real := _ => 5.0;
    SumOverGroupsWithin(gs, es, EntryWh, EnergyOf, slack);
    SumConstant(es, slack, 5.0);
    SumWh(es);
  }

  /** Each month's energy is its rides' energy to within 5 Wh. */
  lemma EntryWhsWithin(rides: seq<Ride>, host: Host)
    ensures var gs, es := GroupBy(rides, MonthKeyOf(host)), MonthlyRollup(rides, host);
      |es| == |gs| &&
      forall i :: 0 <= i < |gs| ==> -5.0 <= EntryWh(es[i]) - Sum(gs[i].members, EnergyOf) <= 5.0
  {
    var gs, es := GroupBy(rides, MonthKeyOf(host)), MonthlyRollup(rides, host);
    forall i | 0 <= i < |gs| ensures -5.0 <= EntryWh(es[i]) - Sum(gs[i].members, EnergyOf) <= 5.0 {
      EntryOfGroup(gs[i], host);
    }
  }

  function EntryWh(e: MonthEntry): real
  {
    e.energy * 1000.0
  }

  lemma SumWh(es: seq<MonthEntry>)
    ensures Sum(es, EntryWh) == Sum(es, EntryEnergy) * 1000.0
  {
    SumScaled(es, EntryWh, EntryEnergy, 1000.0);
  }

  /** Some entry's distance is NaN exactly when some ride's distance is. */
  lemma RollupNaN(rides: seq<Ride>, host: Host)
    ensures var es := MonthlyRollup(rides, host);
      (exists i :: 0 <= i < |es| && es[i].distance.NaN?) <==> exists r :: r in rides && Km(r).NaN?
  {
    var es := MonthlyRollup(rides, host);
    if exists r :: r in rides && Km(r).NaN? {
      var r :| r in rides && Km(r).NaN?;
      EntryOfRide(rides, host, r);
      var i :| 0 <= i < |es| && es[i].key == MonthKey(r, host);
      EntryNaN(rides, host, i, r);
    }
    if exists i :: 0 <= i < |es| && es[i].distance.NaN? {
      var i :| 0 <= i < |es| && es[i].distance.NaN?;
      RollupDistance(rides, host, i);
      RidesOfEntry(rides, host, i);
      var ms := Matching(rides, MonthKeyOf(host), es[i].key);
      var j :| 0 <= j < |ms| && Km(ms[j]).NaN?;
      assert ms[j] in ms;
    }
  }

  /** A NaN ride makes its month's distance NaN. */
  lemma EntryNaN(rides: seq<Ride>, host: Host, i: nat, r: Ride)
    requires i < |MonthlyRollup(rides, host)|
    requires r in rides && Km(r).NaN? && MonthlyRollup(rides, host)[i].key == MonthKey(r, host)
    ensures MonthlyRollup(rides, host)[i].distance.NaN?
  {
    RollupDistance(rides, host, i);
    RidesOfEntry(rides, host, i);
    var ms := Matching(rides, MonthKeyOf(host), MonthKey(r, host));
    assert r in ms;
    var j :| 0 <= j < |ms| && ms[j] == r;
  }

  /** The months' summed distance is NaN exactly when some ride's distance is. */
  lemma TotalNaN(rides: seq<Ride>, host: Host)
    ensures JsSum(MonthlyRollup(rides, host), EntryDistance).NaN? <==> exists r :: r in rides && Km(r).NaN?
  {
    RollupNaN(rides, host);
    JsSumValue(MonthlyRollup(rides, host), EntryDistance, EntryKm);
  }

  /** With no NaN distance, the months' summed distance is the rides' total up to the
      rounding of each month: within 0.05 km per month. */
  lemma TotalFinite(rides: seq<Ride>, host: Host)
    requires forall r :: r in rides ==> Km(r).Fin?
    ensures var es := MonthlyRollup(rides, host);
      var total := JsSum(es, EntryDistance);
      && total.Fin?
      && -0.05 * |es| as real <= total.v - Sum(rides, KmOrZero) <= 0.05 * |es| as real
  {
    TotalNaN(rides, host);
    JsSumValue(MonthlyRollup(rides, host), EntryDistance, EntryKm);
    RollupDistanceTotal(rides, host);
  }

  /** The mean distance per month is NaN exactly when some ride's distance is, and
      otherwise, taken once per month, gives the rides' total distance. */
  lemma HeaderDistance(rides: seq<Ride>, host: Host)
    requires |rides| > 0
    ensures var h := HeaderOf(MonthlyRollup(rides, host));
      && h.Some?
      && (h.value.avgDistance.NaN? <==> exists r :: r in rides && Km(r).NaN?)
      && (h.value.avgDistance.Fin? ==> SpreadOver(h.value, Sum(rides, KmOrZero)))
  {
    var es := MonthlyRollup(rides, host);
    RollupEmpty(rides, host);
    TotalNaN(rides, host);
    HeaderMean(es);
    if forall r :: r in rides ==> Km(r).Fin? {
      HeaderDistanceTotal(rides, host);
    }
  }

  lemma HeaderDistanceTotal(rides: seq<Ride>, host: Host)
    requires |rides| > 0 && forall r :: r in rides ==> Km(r).Fin?
    ensures HeaderOf(MonthlyRollup(rides, host)).Some?
    ensures SpreadOver(HeaderOf(MonthlyRollup(rides, host)).value, Sum(rides, KmOrZero))
  {
    var es := MonthlyRollup(rides, host);
    RollupEmpty(rides, host);
    TotalFinite(rides, host);
    HeaderSpread(es, Sum(rides, KmOrZero));
  }

  lemma HeaderSpread(data: seq<MonthEntry>, total: real)
    requires |data| > 0 && JsSum(data, EntryDistance).Fin?
    requires -0.05 * |data| as real <= JsSum(data, EntryDistance).v - total <= 0.05 * |data| as real
    ensures SpreadOver(HeaderOf(data).value, total)
  {
    HeaderMean(data);
    MonthsTimesMean(HeaderOf(data).value, |data|, JsSum(data, EntryDistance).v, total);
  }

  /** The mean distance, taken once per month, gives `total` to within 0.05 km per
      month, the rounding of each month's distance to a tenth. */
  predicate SpreadOver(h: Header, total: real)
  {
    && h.avgDistance.Fin?
    && -0.05 * h.months as real <= h.avgDistance.v * h.months as real - total <= 0.05 * h.months as real
  }

  lemma MonthsTimesMean(h: Header, n: nat, s: real, total: real)
    requires h.avgDistance.Fin? && h.months == n && h.avgDistance.v * n as real == s
    requires -0.05 * n as real <= s - total <= 0.05 * n as real
    ensures SpreadOver(h, total)
  {
  }

  /** The mean distance is NaN exactly when the summed distance is, and otherwise
      gives that sum when taken once per month. */
  lemma HeaderMean(data: seq<MonthEntry>)
    requires |data| > 0
    ensures var a, total := HeaderOf(data).value.avgDistance, JsSum(data, EntryDistance);
      && (a.NaN? <==> total.NaN?)
      && (a.Fin? ==> a.v * |data| as real == total.v)
  {
  }

  // ---------------------------------------------------------------------
  // Click to filter

  /** The chart's click event: `activePayload` holds the entries under the pointer
      and is absent when the click missed the bars. */
  datatype ClickEvent = ClickEvent(activePayload: Option<seq<MonthEntry>>)

  /** `handleChartClick`: the key of the first entry under the pointer is passed on;
      a click that hits nothing calls nobody. */
  function ClickedKey(event: Option<ClickEvent>): (k: Option<string>)
    ensures k.Some? <==> event.Some? && event.value.activePayload.Some? && |event.value.activePayload.value| > 0
    ensures k.Some? ==> k.value == event.value.activePayload.value[0].key
  {
    match event
    case None => None
    case Some(e) =>
      match e.activePayload
      case None => None
      case Some(p) => if |p| > 0 then Some(p[0].key) else None
  }

  /** The chart month after a click on the chart: the dashboard toggles the key it is
      given. */
  function AfterChartClick(selected: Option<string>, event: Option<ClickEvent>): Option<string>
  {
    match ClickedKey(event)
    case None => selected
    case Some(k) => Toggle(selected, Some(k))
  }

  /** The chart month after the banner's clear button, which passes null. */
  function AfterClear(selected: Option<string>): (s: Option<string>)
    ensures s.None?
  {
    Toggle(selected, None)
  }

  /** The event of a click on bar i. */
  function BarClick(data: seq<MonthEntry>, i: nat): Option<ClickEvent>
    requires i < |data|
  {
    Some(ClickEvent(Some([data[i]])))
  }

  /** A click that hits nothing changes nothing; a click on a bar selects its month,
      or clears it when it was already selected. */
  lemma ChartClickToggles(data: seq<MonthEntry>, i: nat, selected: Option<string>)
    requires i < |data|
    ensures AfterChartClick(selected, None) == selected
    ensures AfterChartClick(selected, Some(ClickEvent(None))) == selected
    ensures AfterChartClick(selected, BarClick(data, i)) ==
      if selected == Some(data[i].key) then None else Some(data[i].key)
  {
  }

  // ---------------------------------------------------------------------
  // The filter banner

  function KeyOfEntry(e: MonthEntry): string
  {
    e.key
  }

  /** The banner: present only when a month is selected (the empty key is falsy), and
      naming the first entry with that key, if there is one. */
  function Banner(data: seq<MonthEntry>, selected: Option<string>): (b: Option<Option<string>>)
    ensures b.Some? <==> selected.Some? && selected.value != ""
    ensures b.Some? && b.value.Some? ==> exists i :: 0 <= i < |data| && data[i].key == selected.value && data[i].name == b.value.value
    ensures b.Some? && b.value.None? ==> forall i :: 0 <= i < |data| ==> data[i].key != selected.value
  {
    match selected
    case None => None
    case Some(k) =>
      if k == "" then None
      else
        var i := FirstIndex(data, KeyOfEntry, k);
        Some(if i < |data| then Some(data[i].name) else None)
  }

  /** The banner for the key of entry i names entry i. */
  lemma BannerOfEntry(rides: seq<Ride>, host: Host, i: nat)
    requires i < |MonthlyRollup(rides, host)|
    ensures var es := MonthlyRollup(rides, host);
      Banner(es, Some(es[i].key)) == Some(Some(es[i].name))
  {
    var es := MonthlyRollup(rides, host);
    var k := es[i].key;
    EntryKeysDistinct(rides, host);
    RidesOfEntry(rides, host, i);
    var ms := Matching(rides, MonthKeyOf(host), k);
    assert ms[0] in ms;
    MonthKeyNonEmpty(ms[0], host);
    var j := FirstIndex(es, KeyOfEntry, k);
    assert j <= i;
    assert j == i;
  }

  /** Clicking bar i of the rollup when its month was not selected shows exactly that
      month's rides, as many as the bar counts, and the banner names the bar's
      month. */
  lemma ClickFiltersMonth(rides: seq<Ride>, host: Host, i: nat, selected: Option<string>)
    requires i < |MonthlyRollup(rides, host)|
    requires selected != Some(MonthlyRollup(rides, host)[i].key)
    ensures var es := MonthlyRollup(rides, host);
      var s := AfterChartClick(selected, BarClick(es, i));
      var shown := Filtered(rides, Filters("all", false, s), host);
      && s == Some(es[i].key)
      && shown == Matching(rides, MonthKeyOf(host), es[i].key)
      && |shown| == es[i].count
      && Banner(es, s) == Some(Some(es[i].name))
  {
    var es := MonthlyRollup(rides, host);
    ChartClickToggles(es, i, selected);
    ChartMonthShowsMonth(rides, es[i].key, host);
    RidesOfEntry(rides, host, i);
    BannerOfEntry(rides, host, i);
  }

  /** Every month key holds the dash between year and month. */
  lemma MonthKeyNonEmpty(r: Ride, host: Host)
    ensures |MonthKey(r, host)| > 0
  {
  }

  // ---------------------------------------------------------------------
  // Month over month

  /** A JavaScript number a percentage can come out as. */
  datatype Change = Pct(p: real) | PlusInfinity | MinusInfinity | NotANumber

  /** `(latest - previous) / previous * 100`, with no guard against a zero previous
      value: x / 0 is ±Infinity and 0 / 0 is NaN. */
  function ChangeOf(latest: JsNum, previous: JsNum): (c: Change)
    ensures c.Pct? <==> latest.Fin? && previous.Fin? && previous.v != 0.0
    ensures c.Pct? ==> c.p * previous.v == (latest.v - previous.v) * 100.0
  {
    if latest.NaN? || previous.NaN? then NotANumber
    else if previous.v != 0.0 then Pct((latest.v - previous.v) / previous.v * 100.0)
    else if latest.v > 0.0 then PlusInfinity
    else if latest.v < 0.0 then MinusInfinity
    else NotANumber
  }

  /** `parseFloat(x.toFixed(1))` in tenths: the magnitude rounded to the nearest tenth
      with ties away from zero, the sign put back (a negative value that rounds to
      zero becomes -0, which compares equal to 0). */
  function Tenths(x: real): (t: real)
    ensures x >= 0.0 ==> t >= 0.0
    ensures x <= 0.0 ==> t <= 0.0
  {
    Nearest(x * 10.0)
  }

  /** The rounding is off by at most half a tenth. */
  lemma TenthsClose(x: real)
    ensures -0.5 <= x * 10.0 - Tenths(x) <= 0.5
  {
  }

  /** `parseFloat(c.toFixed(1)) >= 0`: "Infinity" passes, "-Infinity" and "NaN" fail. */
  predicate AtLeastZero(c: Change)
  {
    match c
    case Pct(p) => Tenths(p) >= 0.0
    case PlusInfinity => true
    case MinusInfinity => false
    case NotANumber => false
  }

  /** `parseFloat(c.toFixed(1)) <= 0`. */
  predicate AtMostZero(c: Change)
  {
    match c
    case Pct(p) => Tenths(p) <= 0.0
    case PlusInfinity => false
    case MinusInfinity => true
    case NotANumber => false
  }

  /** `Math.abs` of the rounded text: tenths, Infinity or NaN. */
  datatype Magnitude = TenthsOf(n: real) | Infinite | NotShown

  function MagnitudeOf(c: Change): Magnitude
  {
    match c
    case Pct(p) => TenthsOf(Abs(Tenths(p)))
    case PlusInfinity => Infinite
    case MinusInfinity => Infinite
    case NotANumber => NotShown
  }

  /** A trend badge: its colour class (positive or negative), its arrow and its
      number. */
  datatype Badge = Badge(positive: bool, up: bool, size: Magnitude)

  /** More distance is better: positive with an up arrow when the change is not
      below zero. */
  function MoreIsBetter(c: Change): Badge
  {
    Badge(AtLeastZero(c), AtLeastZero(c), MagnitudeOf(c))
  }

  /** Less efficiency (Wh/km) or energy is better: positive with a down arrow when the
      change is not above zero. */
  function LessIsBetter(c: Change): Badge
  {
    Badge(AtMostZero(c), !AtMostZero(c), MagnitudeOf(c))
  }

  datatype Trends = Trends(distance: Badge, efficiency: Badge, energy: Badge)

  /** The trend block, shown for two months or more: the last entry against the one
      before it. */
  function MonthTrends(data: seq<MonthEntry>): (t: Option<Trends>)
    ensures t.Some? <==> |data| >= 2
  {
    if |data| < 2 then None
    else
      var latest, previous := data[|data| - 1], data[|data| - 2];
      Some(Trends(MoreIsBetter(ChangeOf(latest.distance, previous.distance)),
                  LessIsBetter(ChangeOf(Fin(latest.efficiency), Fin(previous.efficiency))),
                  LessIsBetter(ChangeOf(Fin(latest.energy), Fin(previous.energy)))))
  }

  /** A finite change counts as not below zero exactly when it is above -0.05 %, the
      values that round to 0.0 or -0.0 included. */
  lemma AtLeastZeroMeaning(p: real)
    ensures AtLeastZero(Pct(p)) <==> p > -0.05
    ensures AtMostZero(Pct(p)) <==> p < 0.05
  {
    NearestZero(p * 10.0);
  }

  /** With a positive previous value the distance badge is positive whenever the
      distance did not fall, and only when it fell by less than 0.05 % at most. */
  lemma DistanceBadge(data: seq<MonthEntry>)
    requires |data| >= 2
    requires var l, p := data[|data| - 1].distance, data[|data| - 2].distance;
      l.Fin? && p.Fin? && p.v > 0.0
    ensures var l, p := data[|data| - 1].distance.v, data[|data| - 2].distance.v;
      var b := MonthTrends(data).value.distance;
      && (b.positive <==> (l - p) * 2000.0 > -p)
      && b.up == b.positive
      && (l >= p ==> b.positive)
  {
    var l, p := data[|data| - 1].distance.v, data[|data| - 2].distance.v;
    var c := ChangeOf(Fin(l), Fin(p));
    AtLeastZeroMeaning(c.p);
    ScaledBelow(c.p, l - p, p);
  }

  /** c * p == d * 100 with p > 0: c > -0.05 exactly when d * 2000 > -p, and
      c < 0.05 exactly when d * 2000 < p. */
  lemma ScaledBelow(c: real, d: real, p: real)
    requires p > 0.0 && c * p == d * 100.0
    ensures c > -0.05 <==> d * 2000.0 > -p
    ensures c < 0.05 <==> d * 2000.0 < p
  {
    assert c * p * 20.0 == d * 2000.0;
  }

  /** With a positive previous value the efficiency and energy badges are positive
      whenever the value did not rise, and only when it rose by less than 0.05 %; the
      arrow points down exactly when the badge is positive. */
  lemma LessIsBetterBadges(data: seq<MonthEntry>)
    requires |data| >= 2
    requires data[|data| - 2].efficiency > 0.0 && data[|data| - 2].energy > 0.0
    ensures var l, p := data[|data| - 1], data[|data| - 2];
      var t := MonthTrends(data).value;
      && (t.efficiency.positive <==> (l.efficiency - p.efficiency) * 2000.0 < p.efficiency)
      && (t.energy.positive <==> (l.energy - p.energy) * 2000.0 < p.energy)
      && t.efficiency.up == !t.efficiency.positive && t.energy.up == !t.energy.positive
      && (l.efficiency <= p.efficiency ==> t.efficiency.positive)
      && (l.energy <= p.energy ==> t.energy.positive)
  {
    var l, p := data[|data| - 1], data[|data| - 2];
    var ce := ChangeOf(Fin(l.efficiency), Fin(p.efficiency));
    var cn := ChangeOf(Fin(l.energy), Fin(p.energy));
    AtLeastZeroMeaning(ce.p);
    AtLeastZeroMeaning(cn.p);
    ScaledBelow(ce.p, l.efficiency - p.efficiency, p.efficiency);
    ScaledBelow(cn.p, l.energy - p.energy, p.energy);
  }

  /** The shown number is the change's size to the nearest tenth. */
  lemma BadgeSize(c: Change)
    requires c.Pct?
    ensures MagnitudeOf(c).TenthsOf?
    ensures var n := MagnitudeOf(c).n;
      -0.5 <= (if c.p < 0.0 then -c.p else c.p) * 10.0 - n <= 0.5
  {
    TenthsClose(c.p);
  }

  /** A month after a month with no distance: the badge reads "↑ Infinity%", and two
      months with no distance give a negative "↓ NaN%". */
  lemma ZeroPreviousShown(a: MonthEntry, b: MonthEntry)
    requires a.distance == Fin(0.0) && b.distance == Fin(5.0)
    ensures var t := MonthTrends([a, b]).value.distance;
      t.positive && t.up && t.size == Infinite
    ensures var t := MonthTrends([a, a]).value.distance;
      !t.positive && !t.up && t.size == NotShown
  {
  }

  /** The change with a zero or NaN previous value left out, as the summary page's
      trend does: no badge rather than Infinity or NaN. */
  function GuardedChange(latest: JsNum, previous: JsNum): (c: Option<Change>)
    ensures c.Some? <==> latest.Fin? && previous.Fin? && previous.v != 0.0
    ensures c.Some? ==> c.value.Pct? && c.value == ChangeOf(latest, previous)
  {
    if latest.Fin? && previous.Fin? && previous.v != 0.0 then Some(ChangeOf(latest, previous)) else None
  }

  /** The guarded badges: each present exactly when its previous value is a nonzero
      number, and then showing a finite size. */
  function GuardedTrends(data: seq<MonthEntry>): (t: Option<(Option<Badge>, Option<Badge>, Option<Badge>)>)
    ensures t.Some? <==> |data| >= 2
  {
    if |data| < 2 then None
    else
      var latest, previous := data[|data| - 1], data[|data| - 2];
      var d := GuardedChange(latest.distance, previous.distance);
      var e := GuardedChange(Fin(latest.efficiency), Fin(previous.efficiency));
      var n := GuardedChange(Fin(latest.energy), Fin(previous.energy));
      Some((if d.Some? then Some(MoreIsBetter(d.value)) else None,
            if e.Some? then Some(LessIsBetter(e.value)) else None,
            if n.Some? then Some(LessIsBetter(n.value)) else None))
  }

  /** Every guarded badge shows a finite number, and agrees with the unguarded one
      wherever it is present. */
  lemma GuardedTrendsFinite(data: seq<MonthEntry>)
    requires |data| >= 2
    ensures var g, t := GuardedTrends(data).value, MonthTrends(data).value;
      && (g.0.Some? <==> data[|data| - 2].distance.Fin? && data[|data| - 2].distance.v != 0.0 && data[|data| - 1].distance.Fin?)
      && (g.1.Some? <==> data[|data| - 2].efficiency != 0.0)
      && (g.2.Some? <==> data[|data| - 2].energy != 0.0)
      && (g.0.Some? ==> g.0.value == t.distance && g.0.value.size.TenthsOf?)
      && (g.1.Some? ==> g.1.value == t.efficiency && g.1.value.size.TenthsOf?)
      && (g.2.Some? ==> g.2.value == t.energy && g.2.value.size.TenthsOf?)
  {
  }
}
