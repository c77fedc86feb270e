/** The dashboard view of src/App.jsx over the loaded rides: the three filters that
    select the rides shown, the totals of the stat cards, the chart-month toggle,
    the riding-mode statistics, the month options of the month select and the check
    that there is something to show. */
module Dashboard {

  import opened JsValue
  import opened Collections
  import opened Normalizer
  import opened Rollup
  import opened Calendar

  // ---------------------------------------------------------------------
  // The filters

  /** The month select ("all" or a month key), the long-rides switch and the month
      picked on the monthly chart (None for null). */
  datatype Filters = Filters(month: string, longRides: bool, chartMonth: Option<string>)

  predicate InMonth(f: Filters, r: Ride, host: Host)
  {
    f.month == "all" || MonthKey(r, host) == f.month
  }

  /** `parseFloat(r.distance) >= 10`, false for NaN. */
  predicate LongRide(r: Ride)
  {
    Km(r).Fin? && Km(r).v >= 10.0
  }

  predicate InChartMonth(f: Filters, r: Ride, host: Host)
  {
    f.chartMonth.None? || MonthKey(r, host) == f.chartMonth.value
  }

  /** The `filteredData` predicate. */
  predicate Keep(f: Filters, r: Ride, host: Host)
  {
    InMonth(f, r, host) && (!f.longRides || LongRide(r)) && InChartMonth(f, r, host)
  }

  function KeepOf(f: Filters, host: Host): Ride -> bool
  {
    r => Keep(f, r, host)
  }

  function Filtered(rides: seq<Ride>, f: Filters, host: Host): seq<Ride>
  {
    Filter(rides, KeepOf(f, host))
  }

  /** A ride is shown exactly when it passes all three tests, and never more rides
      are shown than were loaded. */
  lemma FilteredMembers(rides: seq<Ride>, f: Filters, host: Host)
    ensures forall r :: r in Filtered(rides, f, host) <==>
      r in rides && InMonth(f, r, host) && (!f.longRides || LongRide(r)) && InChartMonth(f, r, host)
    ensures |Filtered(rides, f, host)| <= |rides|
  {
    FilterMembers(rides, KeepOf(f, host));
  }

  /** The shown rides keep their order: filtering two stretches of rides one after
      the other is filtering them together. */
  lemma FilteredInOrder(xs: seq<Ride>, ys: seq<Ride>, f: Filters, host: Host)
    ensures Filtered(xs + ys, f, host) == Filtered(xs, f, host) + Filtered(ys, f, host)
  {
    FilterAppend(xs, ys, KeepOf(f, host));
  }

  function MonthTestOf(f: Filters, host: Host): Ride -> bool
  {
    r => InMonth(f, r, host)
  }

  function DistanceTestOf(f: Filters): Ride -> bool
  {
    r => !f.longRides || LongRide(r)
  }

  function ChartTestOf(f: Filters, host: Host): Ride -> bool
  {
    r => InChartMonth(f, r, host)
  }

  /** Applying the three tests as three filters, month first or chart month first,
      shows the same rides. */
  lemma FilteredAnyOrder(rides: seq<Ride>, f: Filters, host: Host)
    ensures Filtered(rides, f, host) ==
      Filter(Filter(Filter(rides, MonthTestOf(f, host)), DistanceTestOf(f)), ChartTestOf(f, host))
    ensures Filtered(rides, f, host) ==
      Filter(Filter(Filter(rides, ChartTestOf(f, host)), DistanceTestOf(f)), MonthTestOf(f, host))
  {
    ThreeFilters(rides, MonthTestOf(f, host), DistanceTestOf(f), ChartTestOf(f, host), KeepOf(f, host));
    ThreeFilters(rides, ChartTestOf(f, host), DistanceTestOf(f), MonthTestOf(f, host), KeepOf(f, host));
  }

  lemma ThreeFilters(rides: seq<Ride>, p: Ride -> bool, q: Ride -> bool, s: Ride -> bool, all: Ride -> bool)
    requires forall r :: all(r) == (p(r) && q(r) && s(r))
    ensures Filter(Filter(Filter(rides, p), q), s) == Filter(rides, all)
  {
    FilterFilter(Filter(rides, p), q, s);
    FilterFilter(rides, p, x => q(x) && s(x));
    FilterSame(rides, x => p(x) && (q(x) && s(x)), all);
  }

  /** Picking a month on the chart alone shows the rides of that month. */
  lemma ChartMonthShowsMonth(rides: seq<Ride>, key: string, host: Host)
    ensures Filtered(rides, Filters("all", false, Some(key)), host) == Matching(rides, MonthKeyOf(host), key)
  {
    FilterByKey(rides, KeepOf(Filters("all", false, Some(key)), host), MonthKeyOf(host), key);
  }

  // ---------------------------------------------------------------------
  // The chart-month toggle

  /** `selectedMonthFilter === monthKey ? null : monthKey`; the clear button passes
      null. */
  function Toggle(selected: Option<string>, key: Option<string>): (s: Option<string>)
    ensures s.None? <==> key.None? || selected == key
    ensures s.Some? ==> s == key
  {
    if selected == key then None else key
  }

  /** Clicking the same month twice clears the selection unless it started out as
      that month, in which case it comes back to it. */
  lemma ToggleTwice(selected: Option<string>, key: string)
    ensures Toggle(Toggle(selected, Some(key)), Some(key)) ==
      if selected == Some(key) then Some(key) else None
  {
  }

  // ---------------------------------------------------------------------
  // Totals of the stat cards

  function DurationOf(r: Ride): JsNum
  {
    ShownNumber(r.duration)
  }

  function TopSpeedOf(r: Ride): real
  {
    r.topSpeed
  }

  function RidingOf(r: Ride): real
  {
    r.ridingM
  }

  function BrakingOf(r: Ride): real
  {
    r.brakingM
  }

  function CoastingOf(r: Ride): real
  {
    r.coastingM
  }

  /** The `totals` state: distance in km, mean efficiency in Wh/km, top speed, ride
      count, duration in minutes, energy in kWh and the behaviour shares. */
  datatype Totals = Totals(distance: JsNum, efficiency: real, topSpeed: real, rides: nat,
                           duration: JsNum, energy: real, behaviour: Behaviour)

  const NoTotals := Totals(Fin(0.0), 0.0, 0.0, 0, Fin(0.0), 0.0, Behaviour(Zero, Zero, Zero))

  /** What the totals effect computes for the shown rides. */
  function TotalsOf(shown: seq<Ride>): Totals
  {
    if |shown| == 0 then NoTotals
    else Totals(JsSum(shown, Km), Mean(shown, EfficiencyOf), Max(shown, TopSpeedOf), |shown|,
                JsSum(shown, DurationOf), Sum(shown, EnergyOf) / 1000.0,
                Shares(Sum(shown, RidingOf), Sum(shown, BrakingOf), Sum(shown, CoastingOf)))
  }

  /** The totals effect: the sums, the mean, the maximum, and the behaviour
      accumulator filled ride by ride. */
  method ComputeTotals(shown: seq<Ride>) returns (t: Totals)
    ensures t == TotalsOf(shown)
  {
    if |shown| > 0 {
      var totalDist := JsSum(shown, Km);
      var avgEff := Sum(shown, EfficiencyOf) / |shown| as real;
      var maxSpeed := Max(shown, TopSpeedOf);
      var totalDuration := JsSum(shown, DurationOf);
      var totalEnergy := Sum(shown, EnergyOf);

      var riding, braking, coasting := 0.0, 0.0, 0.0;
      for i := 0 to |shown|
        invariant riding == Sum(shown[..i], RidingOf)
        invariant braking == Sum(shown[..i], BrakingOf)
        invariant coasting == Sum(shown[..i], CoastingOf)
      {
        assert shown[..i + 1][..i] == shown[..i];
        riding := riding + shown[i].ridingM;
        braking := braking + shown[i].brakingM;
        coasting := coasting + shown[i].coastingM;
      }
      assert shown[..|shown|] == shown;
      var behaviour := Shares(riding, braking, coasting);
      t := Totals(totalDist, avgEff, maxSpeed, |shown|, totalDuration, totalEnergy / 1000.0, behaviour);
    } else {
      t := NoTotals;
    }
  }

  /** No shown ride gives all-zero totals. */
  lemma TotalsOfNothing(shown: seq<Ride>)
    requires |shown| == 0
    ensures TotalsOf(shown).rides == 0 && TotalsOf(shown).distance == Fin(0.0)
    ensures TotalsOf(shown).efficiency == 0.0 && TotalsOf(shown).topSpeed == 0.0
    ensures TotalsOf(shown).duration == Fin(0.0) && TotalsOf(shown).energy == 0.0
    ensures TotalsOf(shown).behaviour == Behaviour(Zero, Zero, Zero)
  {
  }

  /** Otherwise the ride count, and the top speed as the largest one. */
  lemma TotalsCountAndSpeed(shown: seq<Ride>)
    requires |shown| > 0
    ensures var t := TotalsOf(shown);
      && t.rides == |shown|
      && (forall i :: 0 <= i < |shown| ==> shown[i].topSpeed <= t.topSpeed)
      && (exists i :: 0 <= i < |shown| && shown[i].topSpeed == t.topSpeed)
  {
    MaxIsMax(shown, TopSpeedOf);
  }

  /** The efficiency is the mean over the shown rides and the energy their sum in
      kWh. */
  lemma TotalsMeans(shown: seq<Ride>)
    requires |shown| > 0
    ensures TotalsOf(shown).efficiency == Mean(shown, EfficiencyOf)
    ensures TotalsOf(shown).energy * 1000.0 == Sum(shown, EnergyOf)
  {
  }

  /** The distance is the sum of the distances, NaN as soon as one of them is. */
  lemma TotalsDistance(shown: seq<Ride>)
    requires |shown| > 0
    ensures var t := TotalsOf(shown);
      && (t.distance.NaN? <==> exists i :: 0 <= i < |shown| && Km(shown[i]).NaN?)
      && (t.distance.Fin? ==> t.distance.v == Sum(shown, KmOrZero))
  {
    JsSumValue(shown, Km, KmOrZero);
  }

  /** The behaviour shares, each rounded to a tenth, add up to 100 give or take 0.15
      when some metres were recorded, and are all 0 otherwise. */
  lemma TotalsShares(shown: seq<Ride>)
    requires |shown| > 0
    ensures var b, m := TotalsOf(shown).behaviour, Sum(shown, RidingOf) + Sum(shown, BrakingOf) + Sum(shown, CoastingOf);
      && (m > 0.0 ==> 99.85 <= b.riding.value.v + b.braking.value.v + b.coasting.value.v <= 100.15)
      && (m <= 0.0 ==> b == Behaviour(Zero, Zero, Zero))
  {
    SharesSumTo100(Sum(shown, RidingOf), Sum(shown, BrakingOf), Sum(shown, CoastingOf));
  }

  // ---------------------------------------------------------------------
  // When the totals are recomputed

  /** The part of the dashboard state the stat cards depend on. */
  datatype View = View(data: seq<Ride>, filters: Filters, totals: Totals)

  /** The stat cards agree with the rides shown. */
  ghost predicate Current(v: View, host: Host)
  {
    v.totals == TotalsOf(Filtered(v.data, v.filters, host))
  }

  /** The totals effect running. */
  function Recompute(v: View, host: Host): (w: View)
    ensures Current(w, host)
  {
    v.(totals := TotalsOf(Filtered(v.data, v.filters, host)))
  }

  /** New rides, a new month selection, or the long-rides switch: each is in the
      effect's dependency list, so the totals follow. */
  function Load(v: View, rides: seq<Ride>, host: Host): (w: View)
    ensures Current(w, host) && w.data == rides && w.filters == v.filters
  {
    Recompute(v.(data := rides), host)
  }

  function SelectMonth(v: View, month: string, host: Host): (w: View)
    ensures Current(w, host) && w.filters == v.filters.(month := month)
  {
    Recompute(v.(filters := v.filters.(month := month)), host)
  }

  function SwitchLongRides(v: View, on: bool, host: Host): (w: View)
    ensures Current(w, host) && w.filters == v.filters.(longRides := on)
  {
    Recompute(v.(filters := v.filters.(longRides := on)), host)
  }

  /** A click on the monthly chart as the dashboard handles it: the chart month
      changes, but it is not in the effect's dependency list, so the totals stay. */
  function ClickMonthAsWritten(v: View, key: Option<string>): (w: View)
    ensures w.totals == v.totals && w.data == v.data
    ensures w.filters == v.filters.(chartMonth := Toggle(v.filters.chartMonth, key))
  {
    v.(filters := v.filters.(chartMonth := Toggle(v.filters.chartMonth, key)))
  }

  /** Two rides of different months: after a click on the month of the first the
      table shows one ride, but the stat cards still count two. */
  lemma StaleTotalsAfterClick(a: Ride, b: Ride, host: Host)
    requires a.year == b.year && a.month == "03" && b.month == "04"
    ensures var v := Load(View([], Filters("all", false, None), NoTotals), [a, b], host);
      var w := ClickMonthAsWritten(v, Some(MonthKey(a, host)));
      && Current(v, host) && v.totals.rides == 2
      && |Filtered(w.data, w.filters, host)| == 1
      && !Current(w, host)
  {
    var f := Filters("all", false, None);
    var ka, kb := MonthKey(a, host), MonthKey(b, host);
    var t := NumberText(a.year, host);
    assert ka[|t| + 2] == '3' && kb[|t| + 2] == '4';
    assert ka != kb;
    var g := Filters("all", false, Some(ka));
    var v := Load(View([], f, NoTotals), [a, b], host);
    var w := ClickMonthAsWritten(v, Some(ka));
    assert w.filters == g;
    assert [a, b][..1] == [a] && [a][..0] == [];
    assert Filtered([a, b], f, host) == [a, b] by {
      var kf := KeepOf(f, host);
      assert kf(a) && kf(b);
      assert Filter([a], kf) == [a];
      assert Filter([a, b], kf) == Filter([a], kf) + [b];
    }
    assert Filtered([a, b], g, host) == [a] by {
      var kg := KeepOf(g, host);
      assert kg(a) && !kg(b);
      assert Filter([a], kg) == [a];
      assert Filter([a, b], kg) == Filter([a], kg);
    }
    assert v.totals.rides == 2 by {
      assert v.totals == TotalsOf([a, b]);
    }
    assert TotalsOf(Filtered(w.data, w.filters, host)).rides == 1 by {
      assert Filtered(w.data, w.filters, host) == [a];
    }
  }

  /** The click with the chart month in the dependency list: the totals follow the
      click, and picking a month from an unfiltered view counts that month's
      rides. */
  function ClickMonth(v: View, key: Option<string>, host: Host): (w: View)
    ensures Current(w, host) && w.data == v.data
    ensures w.filters == v.filters.(chartMonth := Toggle(v.filters.chartMonth, key))
  {
    Recompute(ClickMonthAsWritten(v, key), host)
  }

  lemma ClickMonthCounts(v: View, key: string, host: Host)
    requires v.filters == Filters("all", false, None)
    ensures ClickMonth(v, Some(key), host).totals.rides == |Matching(v.data, MonthKeyOf(host), key)|
  {
    ChartMonthShowsMonth(v.data, key, host);
  }

  // ---------------------------------------------------------------------
  // Riding modes

  const ModeNames: seq<string> := ["Eco", "SmartEco", "Ride", "Sport", "Warp", "Zip"]

  /** The metres of a ride in the mode at position k of `modes`. */
  function ModeMetres(m: Modes, k: nat): real
    requires k < 6
  {
    [m.eco, m.smartEco, m.ride, m.sport, m.warp, m.zip][k]
  }

  /** The km of a ride in mode k. */
  function ModeKm(k: nat): Ride -> real
    requires k < 6
  {
    (r: Ride) => ModeMetres(r.modes, k) / 1000.0
  }

  /** `aggregatedModeStats` as its entries: for each mode its km over the shown
      rides, or no entry at all when no ride is shown. */
  function ModeTotals(shown: seq<Ride>): (r: seq<(string, real)>)
    ensures |r| == if |shown| == 0 then 0 else 6
    ensures forall k :: 0 <= k < |r| ==> r[k] == (ModeNames[k], Sum(shown, ModeKm(k)))
  {
    if |shown| == 0 then [] else seq(6, k requires 0 <= k < 6 => (ModeNames[k], Sum(shown, ModeKm(k))))
  }

  /** The mode `reduce`: for each ride, each of its six modes adds its km to the
      entry of that mode, created on the first ride. */
  method AggregateModes(shown: seq<Ride>) returns (acc: seq<(string, real)>)
    ensures acc == ModeTotals(shown)
  {
    acc := [];
    for i := 0 to |shown|
      invariant i == 0 ==> acc == []
      invariant i > 0 ==> |acc| == 6 && forall k :: 0 <= k < 6 ==> acc[k] == (ModeNames[k], Sum(shown[..i], ModeKm(k)))
    {
      assert shown[..i + 1][..i] == shown[..i];
      var r := shown[i];
      for k := 0 to 6
        invariant |acc| == if i == 0 then k else 6
        invariant forall j :: 0 <= j < k ==> acc[j] == (ModeNames[j], Sum(shown[..i + 1], ModeKm(j)))
        invariant i > 0 ==> forall j :: k <= j < 6 ==> acc[j] == (ModeNames[j], Sum(shown[..i], ModeKm(j)))
      {
        var km := ModeMetres(r.modes, k) / 1000.0;
        if k < |acc| {
          acc := acc[k := (acc[k].0, acc[k].1 + km)];
        } else {
          acc := acc + [(ModeNames[k], 0.0 + km)];
        }
      }
    }
    assert shown[..|shown|] == shown;
  }

  function Positive(e: (string, real)): bool
  {
    e.1 > 0.0
  }

  /** `(a, b) => b.value - a.value` as "a goes first". */
  function MoreKm(a: (string, real), b: (string, real)): bool
  {
    a.1 > b.1
  }

  /** `parseFloat(value.toFixed(1))` on every entry. */
  function RoundedTotals(totals: seq<(string, real)>): (r: seq<(string, real)>)
    ensures |r| == |totals|
    ensures forall k :: 0 <= k < |r| ==> r[k] == (totals[k].0, Round1(totals[k].1))
  {
    seq(|totals|, k requires 0 <= k < |totals| => (totals[k].0, Round1(totals[k].1)))
  }

  /** `aggregatedChartData`: the modes whose total reads as more than 0 once rounded
      to a tenth, most km first. */
  function ModeStats(shown: seq<Ride>): seq<(string, real)>
  {
    SortBy(Filter(RoundedTotals(ModeTotals(shown)), Positive), MoreKm)
  }

  /** The chart lists exactly the modes with at least 0.05 km, each once with its
      total rounded to a tenth, in non-increasing order of the rounded km. */
  lemma ModeStatsSorted(shown: seq<Ride>)
    ensures var s, t := ModeStats(shown), ModeTotals(shown);
      && multiset(s) == multiset(Filter(RoundedTotals(t), Positive))
      && (forall e :: e in s <==> exists k :: 0 <= k < |t| && t[k].1 >= 0.05 && e == (t[k].0, Round1(t[k].1)))
      && (forall i, j :: 0 <= i < j < |s| ==> s[i].1 >= s[j].1)
  {
    var t := ModeTotals(shown);
    var rt := RoundedTotals(t);
    PositiveSorted(rt);
    forall k | 0 <= k < |t| ensures rt[k].1 > 0.0 <==> t[k].1 >= 0.05 {
      RoundedZero(t[k].1);
    }
  }

  /** The same for any list of totals. */
  lemma PositiveSorted(totals: seq<(string, real)>)
    ensures var s := SortBy(Filter(totals, Positive), MoreKm);
      && multiset(s) == multiset(Filter(totals, Positive))
      && (forall e :: e in s <==> e in totals && e.1 > 0.0)
      && (forall i, j :: 0 <= i < j < |s| ==> s[i].1 >= s[j].1)
  {
    var ps := Filter(totals, Positive);
    FilterMembers(totals, Positive);
    SortByPerm(ps, MoreKm);
    MoreKmStrictWeak(ps);
    SortBySorted(ps, MoreKm, ps);
    forall e ensures e in SortBy(ps, MoreKm) <==> e in totals && e.1 > 0.0 {
      SortByHas(ps, MoreKm, e);
    }
  }

  lemma MoreKmStrictWeak(entries: seq<(string, real)>)
    ensures StrictWeakOn(entries, MoreKm)
  {
  }

  /** One bar group of the per-ride mode chart: the ride's date and its km per mode. */
  datatype ModeBar = ModeBar(date: Cell, km: seq<real>)

  /** `filteredData.slice(-15).map(…)`: the last fifteen shown rides, oldest first,
      each mode in km to two decimals (within 5 m). */
  function ModeChart(shown: seq<Ride>): (bars: seq<ModeBar>)
    ensures |bars| == if |shown| < 15 then |shown| else 15
    ensures forall i :: 0 <= i < |bars| ==>
      var r := shown[|shown| - |bars| + i];
      bars[i].date == r.date && |bars[i].km| == 6 &&
      forall k :: 0 <= k < 6 ==>
        bars[i].km[k] == Kilo(ModeMetres(r.modes, k)) &&
        ModeMetres(r.modes, k) - 5.0 <= bars[i].km[k] * 1000.0 <= ModeMetres(r.modes, k) + 5.0
  {
    var last := if |shown| <= 15 then shown else shown[|shown| - 15..];
    seq(|last|, i requires 0 <= i < |last| =>
      ModeBar(last[i].date, seq(6, k requires 0 <= k < 6 => Kilo(ModeMetres(last[i].modes, k)))))
  }

  // ---------------------------------------------------------------------
  // The month select

  /** An option of the month select: its key and its label (`caption`). */
  datatype MonthOption = MonthOption(key: string, caption: string)

  /** `${r.year || 'Unknown'}-${r.month || '01'}`. */
  function OptionKey(r: Ride, host: Host): string
  {
    (if r.year == 0.0 then "Unknown" else NumberText(r.year, host)) + "-" + (if r.month == "" then "01" else r.month)
  }

  /** The option key is the key the month filter compares with, except for a ride
      without a year or without a month text. */
  lemma OptionKeyIsMonthKey(r: Ride, host: Host)
    requires r.year != 0.0 && r.month != ""
    ensures OptionKey(r, host) == MonthKey(r, host)
  {
  }

  /** `(a, b) => b.localeCompare(a)` as "a goes first". */
  function Later(a: string, b: string): bool
  {
    TextLess(b, a)
  }

  /** The label of a key: the month name of its second part and its first part, or
      "Unknown" for a month part that is not 1 to 12. */
  function OptionLabel(key: string): string
  {
    var parts := Split(key, '-');
    MonthNameOf(if |parts| > 1 then ParseInt(parts[1]) else None) + " " + parts[0]
  }

  /** `monthIndex >= 0 && monthIndex < 12 ? monthNames[monthIndex] : 'Unknown'`. */
  function MonthNameOf(n: Option<int>): string
  {
    if n.Some? && 1 <= n.value <= 12 then MonthNames[n.value - 1] else "Unknown"
  }

  function OptionKeys(rides: seq<Ride>, host: Host): seq<string>
  {
    SortBy(Dedup(seq(|rides|, i requires 0 <= i < |rides| => OptionKey(rides[i], host))), Later)
  }

  /** `availableMonths`: the distinct keys, latest first, with their labels. */
  function AvailableMonths(rides: seq<Ride>, host: Host): (opts: seq<MonthOption>)
    ensures |opts| == |OptionKeys(rides, host)|
    ensures forall i :: 0 <= i < |opts| ==>
      opts[i] == MonthOption(OptionKeys(rides, host)[i], OptionLabel(OptionKeys(rides, host)[i]))
  {
    var keys := OptionKeys(rides, host);
    seq(|keys|, i requires 0 <= i < |keys| => MonthOption(keys[i], OptionLabel(keys[i])))
  }

  /** There is one option per key some ride has, and none other. */
  lemma AvailableMonthsKeys(rides: seq<Ride>, host: Host)
    ensures var ks := OptionKeys(rides, host);
      forall k :: k in ks <==> exists r :: r in rides && OptionKey(r, host) == k
  {
    var xs := seq(|rides|, i requires 0 <= i < |rides| => OptionKey(rides[i], host));
    var d := Dedup(xs);
    var ks := OptionKeys(rides, host);
    SortByMembers(d, Later);
    forall k | k in ks ensures exists r :: r in rides && OptionKey(r, host) == k {
      var i :| 0 <= i < |d| && d[i] == k;
      var j :| 0 <= j < |xs| && xs[j] == k;
      assert rides[j] in rides;
    }
    forall r | r in rides ensures OptionKey(r, host) in ks {
      var j :| 0 <= j < |rides| && rides[j] == r;
      assert xs[j] == OptionKey(r, host);
    }
  }

  /** The options are in strictly decreasing order of their keys. */
  lemma AvailableMonthsOrder(rides: seq<Ride>, host: Host)
    ensures var ks := OptionKeys(rides, host);
      forall i, j :: 0 <= i < j < |ks| ==> TextLess(ks[j], ks[i])
  {
    var xs := seq(|rides|, i requires 0 <= i < |rides| => OptionKey(rides[i], host));
    var d := Dedup(xs);
    var ks := OptionKeys(rides, host);
    LaterStrictWeak(d);
    SortByPerm(d, Later);
    SortBySorted(d, Later, d);
    DistinctPerm(ks, d);
    forall i, j | 0 <= i < j < |ks| ensures TextLess(ks[j], ks[i]) {
      TextLessTotal(ks[i], ks[j]);
    }
  }

  lemma LaterStrictWeak(keys: seq<string>)
    ensures StrictWeakOn(keys, Later)
  {
    forall a, b | a in keys && b in keys && Later(a, b) ensures !Later(b, a) {
      TextLessAsymmetric(b, a);
    }
    forall a, b, c | a in keys && b in keys && c in keys && !Later(a, b) && !Later(b, c)
      ensures !Later(a, c)
    {
      TextLessTotal(a, b);
      TextLessTotal(b, c);
      if TextLess(c, a) {
        if a == b {
        } else if b == c {
        } else {
          TextLessTransitive(a, b, c);
          TextLessAsymmetric(a, c);
        }
      }
    }
  }

  /** The key of a year text and a month number padded to two digits, as the
      loader writes months, is labelled with that month's name and the year text. */
  lemma OptionLabelOfMonth(y: string, n: nat)
    requires !Contains(y, '-') && 1 <= n <= 12
    ensures OptionLabel(y + "-" + PadStart(NatText(n), 2, '0')) == MonthNames[n - 1] + " " + y
  {
    var m := PadStart(NatText(n), 2, '0');
    assert !Contains(m, '-') by {
      forall i | 0 <= i < |m| ensures m[i] != '-' {
        if i < |m| - |NatText(n)| {
          assert m[i] == '0';
        } else {
          assert m[i] == NatText(n)[i - (|m| - |NatText(n)|)];
        }
      }
    }
    var key := y + "-" + m;
    assert key == y + ['-'] + m;
    SplitTwo(y, m, '-');
    PaddedMonthParses(n);
    var parts := Split(key, '-');
    assert parts == [y, m];
    assert parts[1] == m && parts[0] == y;
  }

  lemma PaddedMonthParses(n: nat)
    requires 1 <= n <= 12
    ensures ParseInt(PadStart(NatText(n), 2, '0')) == Some(n)
    ensures MonthNameOf(ParseInt(PadStart(NatText(n), 2, '0'))) == MonthNames[n - 1]
  {
    if n >= 10 {
      TwoDigitsUnpadded(n);
      ParseIntNatText(n);
    } else {
      LeadingZeroParses(n);
    }
  }

  /** A two-digit number needs no padding. */
  lemma TwoDigitsUnpadded(n: nat)
    requires n >= 10
    ensures PadStart(NatText(n), 2, '0') == NatText(n)
  {
    assert NatText(n) == NatText(n / 10) + [DigitChar(n % 10)];
  }

  lemma LeadingZeroParses(n: nat)
    requires 1 <= n < 10
    ensures ParseInt(PadStart(NatText(n), 2, '0')) == Some(n)
  {
    var m := PadStart(NatText(n), 2, '0');
    assert NatText(n) == [DigitChar(n)];
    assert m == ['0', DigitChar(n)];
    assert DigitValue(m[1]) == n;
    assert !IsJsSpace(m[0]);
    assert TrimStart(m) == m;
    assert m[1..][1..] == [];
    assert Digits(m[1..][1..], DigitValue(m[1]), true) == Some(n);
    assert Digits(m[1..], 0, true) == Some(n);
    assert Digits(m, 0, false) == Some(n);
  }

  // ---------------------------------------------------------------------
  // Nothing to show

  /** What the dashboard does with a load: the fetch error; the "no rides" error for
      an empty list; the `RangeError` ("Invalid time value") that `toISOString`
      throws inside `processData` on an invalid timestamp, caught by `loadData`,
      which empties the rides after the monthly chart data were already set; or
      the rides shown. */
  datatype Screen =
    | LoadFailed(error: LoadError)
    | NoRides
    | InvalidTime(monthly: seq<MonthEntry>)
    | Ready(rides: seq<Ride>)

  function AfterLoad(loaded: Loaded, host: Host): (s: Screen)
    ensures s.LoadFailed? <==> loaded.Failed?
    ensures s == NoRides <==> loaded == Rides([])
    ensures s.InvalidTime? <==> loaded.Rides? && exists r :: r in loaded.rides && TimestampDay(r, host).None?
    ensures s.InvalidTime? ==> s.monthly == MonthlyRollup(loaded.rides, host)
    ensures s.Ready? <==>
      loaded.Rides? && |loaded.rides| > 0 && forall r :: r in loaded.rides ==> TimestampDay(r, host).Some?
    ensures s.Ready? ==> s.rides == loaded.rides
  {
    match loaded
    case Failed(e) => LoadFailed(e)
    case Rides(rs) =>
      ActivityFails(rs, host);
      if |rs| == 0 then NoRides
      else if Activity(rs, host).None? then InvalidTime(MonthlyRollup(rs, host))
      else Ready(rs)
  }

  /** Rides that `processData` takes without throwing always give a monthly rollup,
      the activity map, a year list and a valid selected year. */
  lemma ReadyHasData(loaded: Loaded, host: Host, prev: real)
    requires AfterLoad(loaded, host).Ready?
    ensures var rides := AfterLoad(loaded, host).rides;
      |MonthlyRollup(rides, host)| > 0 && Activity(rides, host).Some? && |Years(rides)| > 0 &&
      SelectYear(prev, Years(rides)) in Years(rides)
  {
    var rides := AfterLoad(loaded, host).rides;
    ActivityFails(rides, host);
    RollupGroups(rides, host);
    assert rides[0] in rides;
    YearsDescending(rides);
  }
}
