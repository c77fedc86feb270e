/** The period summaries page (src/components/SummaryPage.jsx): the rides grouped
    by day, by ISO week and by month, each group's totals, the newest-first
    order, the trend against the next-older period, and the drill-down chart of a
    selected period. */
module Summary {

  import opened JsValue
  import opened CivilDate
  import opened Collections
  import opened Normalizer
  import opened Rollup
  import opened Dashboard

  // ---------------------------------------------------------------------
  // Group keys

  /** `getWeekNumber(c)`: the ISO week key of the day `new Date(c)` falls on, or the
      text an Invalid Date produces. */
  function WeekNumber(c: Cell, host: Host): string
  {
    match DateDay(c, host)
    case Some(n) => WeekText(IsoWeekOf(n))
    case None => "NaN-WNaN"
  }

  /** The three views of the page. */
  datatype Kind = Daily | Weekly | Monthly

  /** `String(ride.date)`: the property name a date is filed under. */
  function DateKey(r: Ride, host: Host): string
  {
    CellText(r.date, host)
  }

  /** `ride.timestamp || ride.date`. */
  function WeekDate(r: Ride): Cell
  {
    if Truthy(Some(r.timestamp)) then r.timestamp else r.date
  }

  /** `getWeekNumber(ride.timestamp || ride.date)`. */
  function WeekKey(r: Ride, host: Host): string
  {
    WeekNumber(WeekDate(r), host)
  }

  /** The key each view groups rides by. */
  function KeyOf(kind: Kind, host: Host): Ride -> string
  {
    match kind
    case Daily => (r: Ride) => DateKey(r, host)
    case Weekly => (r: Ride) => WeekKey(r, host)
    case Monthly => MonthKeyOf(host)
  }

  /** A ride with a valid date is filed under the ISO week of that day. */
  lemma WeekKeyIsIsoWeek(r: Ride, host: Host)
    requires DateDay(WeekDate(r), host).Some?
    ensures var n := DateDay(WeekDate(r), host).value;
      var w := IsoWeekOf(n);
      && WeekKey(r, host) == WeekText(w)
      && 1 <= w.week <= 53
      && DaysBeforeYear(w.year) <= WeekThursday(n) < DaysBeforeYear(w.year + 1)
  {
  }

  lemma WeekKeyOfDay(r: Ride, host: Host, n: int)
    requires DateDay(WeekDate(r), host) == Some(n)
    ensures WeekKey(r, host) == WeekText(IsoWeekOf(n))
  {
  }

  /** Two rides on days of the same Monday-to-Sunday week share a weekly group. */
  lemma SameWeekSameKey(a: Ride, b: Ride, host: Host, n: int, m: int)
    requires DateDay(WeekDate(a), host) == Some(n)
    requires DateDay(WeekDate(b), host) == Some(m)
    requires n <= m <= n + 7 - IsoWeekday(n)
    ensures WeekKey(a, host) == WeekKey(b, host)
  {
    WeekKeyOfDay(a, host, n);
    WeekKeyOfDay(b, host, m);
    SameWeek(n, m);
  }

  // ---------------------------------------------------------------------
  // The grouping loops

  /** `parseFloat(ride.duration) || 0`. */
  function MinutesOrZero(r: Ride): real
  {
    OrZero(DurationOf(r))
  }

  function DateOf(r: Ride): Cell
  {
    r.date
  }

  /** The dates of the rides, in order. */
  function Dates(rs: seq<Ride>): (ds: seq<Cell>)
    ensures |ds| == |rs| && forall i :: 0 <= i < |rs| ==> ds[i] == rs[i].date
  {
    seq(|rs|, i requires 0 <= i < |rs| => rs[i].date)
  }

  /** The object a period's rides are accumulated into: the pushed rides, the `+=`
      totals, the running `Math.max` and the `Set` of dates in insertion order. */
  datatype PeriodAcc = PeriodAcc(rides: seq<Ride>, distance: real, duration: real, energy: real,
                                 maxSpeed: real, dates: seq<Cell>)

  /** The fresh object created for the first ride of a period. */
  function StartPeriod(r: Ride): PeriodAcc
  {
    PeriodAcc([], 0.0, 0.0, 0.0, 0.0, [])
  }

  /** The updates of the loop body for one ride. */
  function AddRide(a: PeriodAcc, r: Ride): PeriodAcc
  {
    a.(rides := a.rides + [r],
       distance := a.distance + KmOrZero(r),
       duration := a.duration + MinutesOrZero(r),
       energy := a.energy + r.energyUsed,
       maxSpeed := if r.topSpeed > a.maxSpeed then r.topSpeed else a.maxSpeed,
       dates := if r.date in a.dates then a.dates else a.dates + [r.date])
  }

  /** The object holding exactly the rides xs: pushed in order, summed, the
      largest top speed above 0, and the distinct dates. */
  function Collected(xs: seq<Ride>): PeriodAcc
  {
    PeriodAcc(xs, Sum(xs, KmOrZero), Sum(xs, MinutesOrZero), Sum(xs, EnergyOf),
              MaxFrom(xs, TopSpeedOf, 0.0), Dedup(Dates(xs)))
  }

  /** One more ride turns the object of p into the object of p + [x]. */
  lemma AddRideStep(xs: seq<Ride>)
    requires |xs| > 0
    ensures AddRide(Collected(xs[..|xs| - 1]), xs[|xs| - 1]) == Collected(xs)
  {
    assert xs[..|xs| - 1] + [xs[|xs| - 1]] == xs;
    DatesStep(xs);
  }

  /** The distinct dates of one more ride: its date appended unless already there. */
  lemma DatesStep(xs: seq<Ride>)
    requires |xs| > 0
    ensures var d, x := Dedup(Dates(xs[..|xs| - 1])), xs[|xs| - 1];
      Dedup(Dates(xs)) == if x.date in d then d else d + [x.date]
  {
    var ds := Dates(xs);
    assert ds[..|ds| - 1] == Dates(xs[..|xs| - 1]);
    assert ds[|ds| - 1] == xs[|xs| - 1].date;
  }

  /** Folding rides into a fresh object collects exactly them. */
  lemma {:induction false} FoldPeriod(xs: seq<Ride>, r: Ride)
    ensures Fold(xs, StartPeriod(r), AddRide) == Collected(xs)
    decreases |xs|
  {
    if |xs| == 0 {
      CollectedNone(xs, r);
    } else {
      FoldPeriod(xs[..|xs| - 1], r);
      AddRideStep(xs);
    }
  }

  lemma CollectedNone(xs: seq<Ride>, r: Ride)
    requires xs == []
    ensures Collected(xs) == StartPeriod(r)
  {
    assert Dates(xs) == [];
  }

  /** What a period is: a day with the first ride's date and timestamp, a week, or
      a month with the first ride's year, month and month name.  Weeks and months
      also count their active days. */
  datatype Period =
    | Day(date: Cell, timestamp: Cell)
    | Week(daysActive: nat)
    | Month(year: real, monthNum: string, monthName: string, daysActive: nat)

  /** One summary card. */
  datatype Summary = Summary(key: string, period: Period, rides: seq<Ride>, rideCount: nat,
                             totalDistance: real, totalDuration: real, totalEnergy: real,
                             avgEfficiency: real, maxSpeed: real)

  function RideCountOf(s: Summary): real
  {
    s.rideCount as real
  }

  function PeriodOf(kind: Kind, first: Ride, days: nat): Period
  {
    match kind
    case Daily => Day(first.date, first.timestamp)
    case Weekly => Week(days)
    case Monthly => Month(first.year, first.month, MonthNameOf(ParseInt(first.month)), days)
  }

  /** The `map` over `Object.values(...)`: the count, the number of distinct dates,
      and each total read back from `toFixed`: the distance to two decimals, the
      duration to whole minutes, the energy in kWh to two decimals, the mean
      efficiency and the top speed to one. */
  function Finish(kind: Kind, key: string, a: PeriodAcc): Summary
    requires |a.rides| > 0
  {
    Summary(key, PeriodOf(kind, a.rides[0], |a.dates|), a.rides, |a.rides|, Round2(a.distance),
            Round0(a.duration), Kilo(a.energy), Round1(Mean(a.rides, EfficiencyOf)), Round1(a.maxSpeed))
  }

  /** The summary of a group of rides that share a key. */
  function SummaryOf(kind: Kind, g: Group<string, Ride>): Summary
    requires |g.members| > 0
  {
    var ms := g.members;
    Summary(g.key, PeriodOf(kind, ms[0], |Dedup(Dates(ms))|), ms, |ms|, Round2(Sum(ms, KmOrZero)),
            Round0(Sum(ms, MinutesOrZero)), Kilo(Sum(ms, EnergyOf)), Round1(Mean(ms, EfficiencyOf)),
            Round1(MaxFrom(ms, TopSpeedOf, 0.0)))
  }

  /** The summaries in the order their keys were first met. */
  function Grouped(rides: seq<Ride>, kind: Kind, host: Host): (ss: seq<Summary>)
    ensures var gs := GroupBy(rides, KeyOf(kind, host));
      NonEmptyGroups(gs) && |ss| == |gs| && forall i :: 0 <= i < |gs| ==> ss[i] == SummaryOf(kind, gs[i])
  {
    var gs := GroupBy(rides, KeyOf(kind, host));
    GroupByNonEmpty(rides, KeyOf(kind, host));
    seq(|gs|, i requires 0 <= i < |gs| => SummaryOf(kind, gs[i]))
  }

  // ---------------------------------------------------------------------
  // Ordering

  /** `new Date(s.date)` of a daily summary. */
  function SummaryDay(s: Summary, host: Host): Option<int>
  {
    if s.period.Day? then DateDay(s.period.date, host) else None
  }

  /** `(a, b) => new Date(b.date) - new Date(a.date)` is negative: a is newer.  An
      Invalid Date makes the difference NaN, which the sort reads as "equal". */
  function NewerDay(a: Summary, b: Summary, host: Host): bool
  {
    SummaryDay(a, host).Some? && SummaryDay(b, host).Some? && SummaryDay(a, host).value > SummaryDay(b, host).value
  }

  /** `(a, b) => b.key.localeCompare(a.key)` is negative: a's key is later. */
  function LaterKey(a: Summary, b: Summary): bool
  {
    Later(a.key, b.key)
  }

  /** The comparator of each view's `sort`. */
  function Before(kind: Kind, host: Host): (Summary, Summary) -> bool
  {
    match kind
    case Daily => (a: Summary, b: Summary) => NewerDay(a, b, host)
    case Weekly => LaterKey
    case Monthly => LaterKey
  }

  /** `summaries[kind]`: the summaries of the view, sorted. */
  function Summaries(rides: seq<Ride>, kind: Kind, host: Host): seq<Summary>
  {
    SortBy(Grouped(rides, kind, host), Before(kind, host))
  }

  /** Finishing the object the loop built for a group gives the group's summary. */
  lemma FinishedSummary(rides: seq<Ride>, kind: Kind, host: Host, accs: seq<(string, PeriodAcc)>, i: nat)
    requires NonEmptyGroups(GroupBy(rides, KeyOf(kind, host)))
    requires accs == Accumulated(GroupBy(rides, KeyOf(kind, host)), StartPeriod, AddRide)
    requires i < |accs|
    ensures |accs[i].1.rides| > 0
    ensures Finish(kind, accs[i].0, accs[i].1) == Grouped(rides, kind, host)[i]
  {
    var g := GroupBy(rides, KeyOf(kind, host))[i];
    FoldPeriod(g.members, g.members[0]);
  }

  lemma FinishedSummaries(rides: seq<Ride>, kind: Kind, host: Host, accs: seq<(string, PeriodAcc)>)
    requires NonEmptyGroups(GroupBy(rides, KeyOf(kind, host)))
    requires accs == Accumulated(GroupBy(rides, KeyOf(kind, host)), StartPeriod, AddRide)
    ensures |accs| == |Grouped(rides, kind, host)|
    ensures forall j :: 0 <= j < |accs| ==>
      |accs[j].1.rides| > 0 && Finish(kind, accs[j].0, accs[j].1) == Grouped(rides, kind, host)[j]
  {
    forall j | 0 <= j < |accs|
      ensures |accs[j].1.rides| > 0 && Finish(kind, accs[j].0, accs[j].1) == Grouped(rides, kind, host)[j]
    {
      FinishedSummary(rides, kind, host, accs, j);
    }
  }

  /** The `forEach` loop of one view followed by the `map`: one object per key,
      filled ride by ride, then finished. */
  method GroupPeriods(rides: seq<Ride>, kind: Kind, host: Host) returns (finished: seq<Summary>)
    ensures finished == Grouped(rides, kind, host)
  {
    var accs := GroupInto(rides, KeyOf(kind, host), StartPeriod, AddRide);
    FinishedSummaries(rides, kind, host, accs);
    finished := seq(|accs|, j requires 0 <= j < |accs| && |accs[j].1.rides| > 0 =>
                      Finish(kind, accs[j].0, accs[j].1));
  }

  /** The `summaries` memo for one view: no summaries without rides, otherwise
      the grouped periods sorted by the view's comparator. */
  method Summarize(rides: seq<Ride>, kind: Kind, host: Host) returns (list: seq<Summary>)
    ensures list == Summaries(rides, kind, host)
  {
    if |rides| == 0 {
      assert GroupBy(rides, KeyOf(kind, host)) == [];
      return [];
    }
    var finished := GroupPeriods(rides, kind, host);
    list := SortBy(finished, Before(kind, host));
  }

  // ---------------------------------------------------------------------
  // What the summaries hold

  /** Every summary of a view is the summary of one of the groups, and every group
      has its summary in the view. */
  lemma SummariesAreGroups(rides: seq<Ride>, kind: Kind, host: Host)
    ensures var list, all := Summaries(rides, kind, host), Grouped(rides, kind, host);
      multiset(list) == multiset(all) &&
      (forall s :: s in list <==> s in all)
  {
    var list, all := Summaries(rides, kind, host), Grouped(rides, kind, host);
    SortByPerm(all, Before(kind, host));
    forall s ensures s in list <==> s in all {
      assert s in list <==> s in multiset(list);
    }
  }

  /** A grouped summary is the summary of the rides with its key. */
  lemma GroupedSummary(rides: seq<Ride>, kind: Kind, host: Host, p: nat)
    requires p < |Grouped(rides, kind, host)|
    ensures var s, key := Grouped(rides, kind, host)[p], KeyOf(kind, host);
      var ms := Matching(rides, key, s.key);
      |ms| > 0 && s == SummaryOf(kind, Group(s.key, ms)) &&
      s.key == GroupBy(rides, key)[p].key
  {
    GroupByPartition(rides, KeyOf(kind, host));
  }

  /** The keys of the grouped summaries are distinct, so the summaries are too. */
  lemma GroupedDistinct(rides: seq<Ride>, kind: Kind, host: Host)
    ensures var all := Grouped(rides, kind, host);
      forall p, q :: 0 <= p < q < |all| ==> all[p].key != all[q].key
  {
    GroupByPartition(rides, KeyOf(kind, host));
  }

  /** Each summary of a view holds exactly the rides with its key. */
  lemma SummariesMembers(rides: seq<Ride>, kind: Kind, host: Host)
    ensures var list, key := Summaries(rides, kind, host), KeyOf(kind, host);
      forall i :: 0 <= i < |list| ==>
        |Matching(rides, key, list[i].key)| > 0 &&
        list[i] == SummaryOf(kind, Group(list[i].key, Matching(rides, key, list[i].key)))
  {
    var list, all, key := Summaries(rides, kind, host), Grouped(rides, kind, host), KeyOf(kind, host);
    SummariesAreGroups(rides, kind, host);
    forall i | 0 <= i < |list|
      ensures |Matching(rides, key, list[i].key)| > 0
      ensures list[i] == SummaryOf(kind, Group(list[i].key, Matching(rides, key, list[i].key)))
    {
      assert list[i] in all;
      var p :| 0 <= p < |all| && all[p] == list[i];
      GroupedSummary(rides, kind, host, p);
    }
  }

  /** No two summaries of a view share a key. */
  lemma SummariesKeysDistinct(rides: seq<Ride>, kind: Kind, host: Host)
    ensures var list := Summaries(rides, kind, host);
      forall i, j :: 0 <= i < j < |list| ==> list[i].key != list[j].key
  {
    var list, all := Summaries(rides, kind, host), Grouped(rides, kind, host);
    SummariesAreGroups(rides, kind, host);
    GroupedDistinct(rides, kind, host);
    assert Distinct(all);
    DistinctPerm(list, all);
    forall i, j | 0 <= i < j < |list| ensures list[i].key != list[j].key {
      assert list[i] in all && list[j] in all;
      var p :| 0 <= p < |all| && all[p] == list[i];
      var q :| 0 <= q < |all| && all[q] == list[j];
      assert p == q || all[p].key != all[q].key;
    }
  }

  /** Every ride has the summary of its key in the view. */
  lemma SummariesCoverRides(rides: seq<Ride>, kind: Kind, host: Host)
    ensures var list, key := Summaries(rides, kind, host), KeyOf(kind, host);
      forall r :: r in rides ==> exists i :: 0 <= i < |list| && list[i].key == key(r)
  {
    var list, all, key := Summaries(rides, kind, host), Grouped(rides, kind, host), KeyOf(kind, host);
    var gs := GroupBy(rides, key);
    SummariesAreGroups(rides, kind, host);
    GroupByPartition(rides, key);
    forall r | r in rides ensures exists i :: 0 <= i < |list| && list[i].key == key(r) {
      assert HasKey(gs, key(r));
      var p :| 0 <= p < |gs| && gs[p].key == key(r);
      GroupedSummary(rides, kind, host, p);
      assert all[p] in list;
      var i :| 0 <= i < |list| && list[i] == all[p];
    }
  }

  /** The ride counts of a view add up to the number of rides. */
  lemma SummaryCounts(rides: seq<Ride>, kind: Kind, host: Host)
    ensures Sum(Summaries(rides, kind, host), RideCountOf) == |rides| as real
  {
    var gs, all := GroupBy(rides, KeyOf(kind, host)), Grouped(rides, kind, host);
    var one: Ride -> real := r => 1.0;
    forall i | 0 <= i < |gs| ensures RideCountOf(all[i]) == Sum(gs[i].members, one) {
      SumConstant(gs[i].members, one, 1.0);
    }
    SumOverGroups(gs, all, RideCountOf, one);
    GroupBySum(rides, KeyOf(kind, host), one);
    SumConstant(rides, one, 1.0);
    SortBySum(all, Before(kind, host), RideCountOf);
  }

  /** A summary's totals are those of the rides with its key, as `toFixed` rounds
      them: distance summed to a hundredth, duration summed to the minute, energy
      summed in kWh to a hundredth, efficiency their mean to a tenth. */
  lemma SummaryTotals(rides: seq<Ride>, kind: Kind, host: Host, i: nat)
    requires i < |Summaries(rides, kind, host)|
    ensures var s := Summaries(rides, kind, host)[i];
      var ms := Matching(rides, KeyOf(kind, host), s.key);
      && s.rides == ms && s.rideCount == |ms| > 0
      && s.totalDistance == Round2(Sum(ms, KmOrZero))
      && s.totalDuration == Round0(Sum(ms, MinutesOrZero))
      && s.totalEnergy == Kilo(Sum(ms, EnergyOf))
      && s.avgEfficiency == Round1(Mean(ms, EfficiencyOf))
  {
    SummariesMembers(rides, kind, host);
  }

  /** A summary's top speed is the largest of 0 and its rides' top speeds, to a
      tenth: at least 0, at least each ride's top speed to a tenth, and 0 or one of
      those speeds to a tenth. */
  lemma SummaryMaxSpeed(rides: seq<Ride>, kind: Kind, host: Host, i: nat)
    requires i < |Summaries(rides, kind, host)|
    ensures var s := Summaries(rides, kind, host)[i];
      && 0.0 <= s.maxSpeed
      && (forall r :: r in s.rides ==> Round1(r.topSpeed) <= s.maxSpeed)
      && (s.maxSpeed == 0.0 || exists r :: r in s.rides && Round1(r.topSpeed) == s.maxSpeed)
  {
    SummariesMembers(rides, kind, host);
    var s := Summaries(rides, kind, host)[i];
    var m := MaxFrom(s.rides, TopSpeedOf, 0.0);
    MaxFromIsMax(s.rides, TopSpeedOf, 0.0);
    assert s.maxSpeed == Round1(m);
    forall r | r in s.rides ensures Round1(r.topSpeed) <= s.maxSpeed {
      RoundMonotone(r.topSpeed, m);
    }
    RoundMonotone(0.0, m);
    if m == 0.0 {
      NearestZero(0.0);
    }
  }

  /** A week or month is active on as many days as its rides have distinct dates:
      at least one, and at most one per ride. */
  lemma SummaryDaysActive(rides: seq<Ride>, kind: Kind, host: Host, i: nat)
    requires kind != Daily
    requires i < |Summaries(rides, kind, host)|
    ensures var s := Summaries(rides, kind, host)[i];
      && !s.period.Day?
      && s.period.daysActive == |Dedup(Dates(s.rides))|
      && 1 <= s.period.daysActive <= s.rideCount
  {
    SummariesMembers(rides, kind, host);
  }

  // ---------------------------------------------------------------------
  // Newest first

  lemma LaterKeyStrictWeak(all: seq<Summary>)
    ensures StrictWeakOn(all, LaterKey)
  {
    forall a, b | a in all && b in all && LaterKey(a, b) ensures !LaterKey(b, a) {
      TextLessAsymmetric(b.key, a.key);
    }
    forall a, b, c | a in all && b in all && c in all && !LaterKey(a, b) && !LaterKey(b, c)
      ensures !LaterKey(a, c)
    {
      TextLessTotal(a.key, b.key);
      TextLessTotal(b.key, c.key);
      if a.key != b.key && b.key != c.key {
        TextLessTransitive(a.key, b.key, c.key);
        TextLessAsymmetric(a.key, c.key);
      }
    }
  }

  /** Weeks and months are listed latest key first: the keys strictly decrease. */
  lemma KeysLatestFirst(rides: seq<Ride>, kind: Kind, host: Host)
    requires kind != Daily
    ensures var list := Summaries(rides, kind, host);
      forall i, j :: 0 <= i < j < |list| ==> TextLess(list[j].key, list[i].key)
  {
    var list, all := Summaries(rides, kind, host), Grouped(rides, kind, host);
    assert Before(kind, host) == LaterKey;
    LaterKeyStrictWeak(all);
    SortBySorted(all, LaterKey, all);
    SummariesKeysDistinct(rides, kind, host);
    forall i, j | 0 <= i < j < |list| ensures TextLess(list[j].key, list[i].key) {
      assert !LaterKey(list[j], list[i]);
      TextLessTotal(list[i].key, list[j].key);
    }
  }

  /** Every daily summary is dated by one of its rides. */
  lemma DailyDates(rides: seq<Ride>, host: Host)
    ensures forall s :: s in Grouped(rides, Daily, host) ==>
      s.period.Day? && exists r :: r in rides && s.period.date == r.date
  {
    var all, gs := Grouped(rides, Daily, host), GroupBy(rides, KeyOf(Daily, host));
    forall s | s in all ensures s.period.Day? && exists r :: r in rides && s.period.date == r.date {
      var p :| 0 <= p < |all| && all[p] == s;
      GroupMember(rides, KeyOf(Daily, host), p, 0);
      assert gs[p].members[0] in rides;
    }
  }

  /** When every ride's date is valid, days are listed newest first. */
  lemma DaysNewestFirst(rides: seq<Ride>, host: Host)
    requires forall r :: r in rides ==> DateDay(r.date, host).Some?
    ensures var list := Summaries(rides, Daily, host);
      && (forall i :: 0 <= i < |list| ==> SummaryDay(list[i], host).Some?)
      && (forall i, j :: 0 <= i < j < |list| ==>
            SummaryDay(list[j], host).value <= SummaryDay(list[i], host).value)
  {
    var list, all := Summaries(rides, Daily, host), Grouped(rides, Daily, host);
    var lt := Before(Daily, host);
    DailyDates(rides, host);
    assert forall s :: s in all ==> SummaryDay(s, host).Some?;
    assert StrictWeakOn(all, lt);
    SortBySorted(all, lt, all);
    SummariesAreGroups(rides, Daily, host);
    forall i | 0 <= i < |list| ensures SummaryDay(list[i], host).Some? {
      assert list[i] in all;
    }
    forall i, j | 0 <= i < j < |list|
      ensures SummaryDay(list[j], host).value <= SummaryDay(list[i], host).value
    {
      assert !lt(list[j], list[i]);
    }
  }

  // ---------------------------------------------------------------------
  // Trends

  datatype Direction = Up | Down | Same

  /** The size of a percentage change and its direction. */
  datatype Trend = Trend(value: real, direction: Direction)

  /** `getTrend`: nothing without a previous period or when its value is 0;
      otherwise the percentage change, by size and direction. */
  function GetTrend(current: real, previous: Option<real>): (t: Option<Trend>)
    ensures t.None? <==> previous.None? || previous.value == 0.0
  {
    if previous.None? || previous.value == 0.0 then None
    else
      var change := (current - previous.value) / previous.value * 100.0;
      Some(Trend(Abs(change), if change > 0.0 then Up else if change < 0.0 then Down else Same))
  }

  /** The trend's size is the change relative to the previous value's size, and
      its direction follows the change: up when the value grew over a positive
      previous value (or shrank below a negative one), the same only when it did
      not change. */
  lemma TrendMeaning(current: real, previous: real)
    requires previous != 0.0
    ensures var t := GetTrend(current, Some(previous)).value;
      && t.value * Abs(previous) == Abs(current - previous) * 100.0
      && (t.direction == Same <==> current == previous)
      && (previous > 0.0 ==> (t.direction == Up <==> current > previous))
      && (previous > 0.0 ==> (t.direction == Down <==> current < previous))
      && (previous < 0.0 ==> (t.direction == Up <==> current < previous))
  {
    var d := current - previous;
    var change := d / previous * 100.0;
    assert change * previous == d * 100.0;
    if previous > 0.0 {
      assert change > 0.0 <==> d > 0.0;
      assert change < 0.0 <==> d < 0.0;
    } else {
      assert change > 0.0 <==> d < 0.0;
      assert change < 0.0 <==> d > 0.0;
    }
    assert Abs(change) * Abs(previous) == Abs(change * previous);
  }

  /** The two metrics a card shows a trend for. */
  datatype Metric = Distance | Efficiency

  function MetricOf(s: Summary, m: Metric): real
  {
    match m
    case Distance => s.totalDistance
    case Efficiency => s.avgEfficiency
  }

  /** The trend on card i: against `currentData[i + 1]`, the card after it. */
  function CardTrend(list: seq<Summary>, i: nat, m: Metric): Option<Trend>
    requires i < |list|
  {
    GetTrend(MetricOf(list[i], m), if i + 1 < |list| then Some(MetricOf(list[i + 1], m)) else None)
  }

  /** The oldest card has no trend. */
  lemma LastCardNoTrend(list: seq<Summary>, m: Metric)
    requires |list| > 0
    ensures CardTrend(list, |list| - 1, m).None?
  {
  }

  /** The card of a week or month is compared with the period of the next earlier
      key in the view. */
  lemma CardTrendAgainstEarlierKey(rides: seq<Ride>, kind: Kind, host: Host, i: nat, m: Metric)
    requires kind != Daily
    requires i + 1 < |Summaries(rides, kind, host)|
    ensures var list := Summaries(rides, kind, host);
      && CardTrend(list, i, m) == GetTrend(MetricOf(list[i], m), Some(MetricOf(list[i + 1], m)))
      && TextLess(list[i + 1].key, list[i].key)
  {
    KeysLatestFirst(rides, kind, host);
  }

  /** With valid dates, the card of a day is compared with a day that is not
      later. */
  lemma CardTrendAgainstEarlierDay(rides: seq<Ride>, host: Host, i: nat, m: Metric)
    requires forall r :: r in rides ==> DateDay(r.date, host).Some?
    requires i + 1 < |Summaries(rides, Daily, host)|
    ensures var list := Summaries(rides, Daily, host);
      && CardTrend(list, i, m) == GetTrend(MetricOf(list[i], m), Some(MetricOf(list[i + 1], m)))
      && SummaryDay(list[i + 1], host).Some? && SummaryDay(list[i], host).Some?
      && SummaryDay(list[i + 1], host).value <= SummaryDay(list[i], host).value
  {
    DaysNewestFirst(rides, host);
  }

  // ---------------------------------------------------------------------
  // The drill-down chart

  /** One bar: its axis name (None for `undefined`), the distance and the
      efficiency. */
  datatype Bar = Bar(name: Option<string>, distance: JsNum, efficiency: real)

  function BarKm(b: Bar): real
  {
    OrZero(b.distance)
  }

  /** The bars of a day: one per ride, named "Ride 1", "Ride 2", ... */
  function RideBars(rs: seq<Ride>): (bars: seq<Bar>)
    ensures |bars| == |rs|
  {
    seq(|rs|, i requires 0 <= i < |rs| => Bar(Some("Ride " + NatText(i + 1)), Km(rs[i]), rs[i].efficiency))
  }

  /** The object of one date in the drill-down `forEach`. */
  datatype DayAcc = DayAcc(date: Cell, distance: JsNum, efficiency: real, count: nat)

  function StartDay(r: Ride): DayAcc
  {
    DayAcc(r.date, Fin(0.0), 0.0, 0)
  }

  /** `distance += parseFloat(ride.distance)`, `efficiency += ...`, `count += 1`. */
  function AddToDay(a: DayAcc, r: Ride): DayAcc
  {
    a.(distance := Add(a.distance, Km(r)), efficiency := a.efficiency + r.efficiency, count := a.count + 1)
  }

  /** Folding rides into a date's object sums them and counts them. */
  lemma {:induction false} FoldDay(xs: seq<Ride>, r: Ride)
    ensures Fold(xs, StartDay(r), AddToDay) == DayAcc(r.date, JsSum(xs, Km), Sum(xs, EfficiencyOf), |xs|)
    decreases |xs|
  {
    if |xs| > 0 {
      var p, x := xs[..|xs| - 1], xs[|xs| - 1];
      FoldDay(p, r);
      assert Fold(xs, StartDay(r), AddToDay) == AddToDay(Fold(p, StartDay(r), AddToDay), x);
      assert JsSum(xs, Km) == Add(JsSum(p, Km), Km(x));
      assert Sum(xs, EfficiencyOf) == Sum(p, EfficiencyOf) + x.efficiency;
    }
  }

  /** `parts.slice(1).join('/')`. */
  function SlashJoin(parts: seq<string>): string
  {
    if |parts| <= 1 then "" else Join(parts[1..], '/')
  }

  /** The axis name of a date split at '-': month/day for a week, the day for a
      month (`undefined` when there is no third part). */
  function BarName(kind: Kind, parts: seq<string>): Option<string>
  {
    if kind == Weekly then Some(SlashJoin(parts))
    else if |parts| > 2 then Some(parts[2]) else None
  }

  /** The bar of a date's rides, or None when the date is not a string and
      `.split` throws. */
  function DayBar(kind: Kind, g: Group<string, Ride>): Option<Bar>
    requires |g.members| > 0
  {
    var ms := g.members;
    match ms[0].date
    case Str(t) => Some(Bar(BarName(kind, Split(t, '-')), RoundNum2(JsSum(ms, Km)), Round1(Mean(ms, EfficiencyOf))))
    case _ => None
  }

  /** The `map` over the dates' objects: all bars, or None when one of them throws. */
  function DayBars(kind: Kind, gs: seq<Group<string, Ride>>): (r: Option<seq<Bar>>)
    requires NonEmptyGroups(gs)
    ensures r.Some? ==> |r.value| == |gs|
    decreases |gs|
  {
    if |gs| == 0 then Some([])
    else
      var p := gs[..|gs| - 1];
      assert NonEmptyGroups(p) by {
        assert forall i :: 0 <= i < |p| ==> p[i] == gs[i];
      }
      match DayBars(kind, p)
      case None => None
      case Some(bs) =>
        match DayBar(kind, gs[|gs| - 1])
        case None => None
        case Some(b) => Some(bs + [b])
  }

  /** `a.name.localeCompare(b.name) < 0`. */
  function NameBefore(a: Bar, b: Bar): bool
  {
    a.name.Some? && b.name.Some? && TextLess(a.name.value, b.name.value)
  }

  /** `parseInt(b.name)`, None for NaN. */
  function DayOfMonth(b: Bar): Option<int>
  {
    if b.name.Some? then ParseInt(b.name.value) else None
  }

  /** `parseInt(a.name) - parseInt(b.name) < 0`; NaN reads as "equal". */
  function EarlierDay(a: Bar, b: Bar): bool
  {
    DayOfMonth(a).Some? && DayOfMonth(b).Some? && DayOfMonth(a).value < DayOfMonth(b).value
  }

  /** The comparator of the drill-down `sort`. */
  function BarOrder(kind: Kind): (Bar, Bar) -> bool
  {
    if kind == Weekly then NameBefore else EarlierDay
  }

  function DateKeyOf(host: Host): Ride -> string
  {
    KeyOf(Daily, host)
  }

  /** `chartData`: nothing without a selected period, a bar per ride for a day,
      and for a week or month a bar per date, sorted by name or by day of month.
      None stands for the TypeError of a date that is not a string. */
  function ChartData(kind: Kind, selected: Option<Summary>, host: Host): Option<seq<Bar>>
  {
    match selected
    case None => Some([])
    case Some(s) =>
      if kind == Daily then Some(RideBars(s.rides))
      else
        var gs := GroupBy(s.rides, DateKeyOf(host));
        GroupByNonEmpty(s.rides, DateKeyOf(host));
        match DayBars(kind, gs)
        case None => None
        case Some(bs) => Some(SortBy(bs, BarOrder(kind)))
  }

  /** Bars stop at the first date that throws. */
  lemma {:induction false} DayBarsPrefix(kind: Kind, gs: seq<Group<string, Ride>>, j: nat)
    requires NonEmptyGroups(gs) && j <= |gs|
    ensures NonEmptyGroups(gs[..j])
    ensures DayBars(kind, gs[..j]).None? ==> DayBars(kind, gs).None?
    ensures DayBars(kind, gs).Some? ==>
              (DayBars(kind, gs[..j]).Some? && DayBars(kind, gs[..j]).value == DayBars(kind, gs).value[..j])
    decreases |gs|
  {
    if j < |gs| {
      var p := gs[..|gs| - 1];
      assert gs[..j] == p[..j];
      DayBarsPrefix(kind, p, j);
    } else {
      assert gs[..j] == gs;
    }
  }

  /** The bars of all dates are the bars of each date, in order. */
  lemma {:induction false} DayBarsEach(kind: Kind, gs: seq<Group<string, Ride>>)
    requires NonEmptyGroups(gs)
    ensures DayBars(kind, gs).Some? <==> forall i :: 0 <= i < |gs| ==> DayBar(kind, gs[i]).Some?
    ensures DayBars(kind, gs).Some? ==>
      forall i :: 0 <= i < |gs| ==> DayBars(kind, gs).value[i] == DayBar(kind, gs[i]).value
    decreases |gs|
  {
    if |gs| > 0 {
      var p := gs[..|gs| - 1];
      assert forall i :: 0 <= i < |p| ==> p[i] == gs[i];
      DayBarsEach(kind, p);
    }
  }

  /** The bar made from a date's object: None when its date is not a string. */
  function BarOf(kind: Kind, a: DayAcc): Option<Bar>
    requires a.count > 0
  {
    match a.date
    case Str(t) => Some(Bar(BarName(kind, Split(t, '-')), RoundNum2(a.distance), Round1(a.efficiency / a.count as real)))
    case _ => None
  }

  /** The object the loop filled for a date makes that date's bar. */
  lemma BarOfDay(kind: Kind, g: Group<string, Ride>)
    requires |g.members| > 0
    ensures var a := Fold(g.members, StartDay(g.members[0]), AddToDay);
      a.count > 0 && BarOf(kind, a) == DayBar(kind, g)
  {
    var ms := g.members;
    FoldDay(ms, ms[0]);
    BarOfSums(kind, g);
  }

  lemma BarOfSums(kind: Kind, g: Group<string, Ride>)
    requires |g.members| > 0
    ensures var ms := g.members;
      BarOf(kind, DayAcc(ms[0].date, JsSum(ms, Km), Sum(ms, EfficiencyOf), |ms|)) == DayBar(kind, g)
  {
  }

  /** The bars of one more date: its bar appended, or None when it throws. */
  lemma DayBarsSnoc(kind: Kind, gs: seq<Group<string, Ride>>, j: nat)
    requires NonEmptyGroups(gs) && j < |gs|
    ensures NonEmptyGroups(gs[..j]) && NonEmptyGroups(gs[..j + 1])
    ensures DayBars(kind, gs[..j + 1]) ==
      match DayBars(kind, gs[..j])
      case None => None
      case Some(bs) => (match DayBar(kind, gs[j]) case None => None case Some(b) => Some(bs + [b]))
  {
    var q := gs[..j + 1];
    assert forall i :: 0 <= i < |q| ==> q[i] == gs[i];
    assert q[..j] == gs[..j];
  }

  /** One step of the bars loop: a date that throws ends all bars, and otherwise its
      bar extends the bars so far. */
  lemma DateBarsStep(kind: Kind, gs: seq<Group<string, Ride>>, accs: seq<(string, DayAcc)>, j: nat,
                     made: seq<Bar>)
    requires NonEmptyGroups(gs) && accs == Accumulated(gs, StartDay, AddToDay) && j < |accs|
    requires DayBars(kind, gs[..j]) == Some(made)
    ensures accs[j].1.count > 0 && NonEmptyGroups(gs[..j + 1])
    ensures BarOf(kind, accs[j].1).None? ==> DayBars(kind, gs).None?
    ensures BarOf(kind, accs[j].1).Some? ==> DayBars(kind, gs[..j + 1]) == Some(made + [BarOf(kind, accs[j].1).value])
  {
    BarOfDay(kind, gs[j]);
    DayBarsSnoc(kind, gs, j);
    DayBarsPrefix(kind, gs, j + 1);
  }

  /** The bucketing `forEach` and the `map` to bars of a week or a month. */
  method DateBars(kind: Kind, rides: seq<Ride>, host: Host) returns (bars: Option<seq<Bar>>)
    ensures NonEmptyGroups(GroupBy(rides, DateKeyOf(host)))
    ensures bars == DayBars(kind, GroupBy(rides, DateKeyOf(host)))
  {
    var accs := GroupInto(rides, DateKeyOf(host), StartDay, AddToDay);
    ghost var gs := GroupBy(rides, DateKeyOf(host));
    var made: seq<Bar> := [];
    for j := 0 to |accs|
      invariant |accs| == |gs|
      invariant NonEmptyGroups(gs[..j]) && DayBars(kind, gs[..j]) == Some(made)
    {
      DateBarsStep(kind, gs, accs, j, made);
      var b := BarOf(kind, accs[j].1);
      if b.None? {
        return None;
      }
      made := made + [b.value];
    }
    assert gs[..|accs|] == gs;
    return Some(made);
  }

  /** The drill-down `chartData` memo. */
  method DrillDown(kind: Kind, selected: Option<Summary>, host: Host) returns (bars: Option<seq<Bar>>)
    ensures bars == ChartData(kind, selected, host)
  {
    if selected.None? {
      return Some([]);
    }
    var s := selected.value;
    if kind == Daily {
      return Some(RideBars(s.rides));
    }
    var made := DateBars(kind, s.rides, host);
    if made.None? {
      return None;
    }
    return Some(SortBy(made.value, BarOrder(kind)));
  }

  /** A day's chart has one bar per ride, in order, and its bars add up to the
      day's distance. */
  lemma {:induction false} RideBarsTotal(rs: seq<Ride>)
    ensures forall i :: 0 <= i < |rs| ==> RideBars(rs)[i].distance == Km(rs[i])
    ensures Sum(RideBars(rs), BarKm) == Sum(rs, KmOrZero)
    decreases |rs|
  {
    if |rs| > 0 {
      var p := rs[..|rs| - 1];
      RideBarsTotal(p);
      assert RideBars(rs)[..|rs| - 1] == RideBars(p);
    }
  }

  /** The chart of a week or month is its date bars, sorted. */
  lemma ChartOfDates(kind: Kind, s: Summary, host: Host)
    requires kind != Daily
    ensures NonEmptyGroups(GroupBy(s.rides, DateKeyOf(host)))
    ensures var bs := DayBars(kind, GroupBy(s.rides, DateKeyOf(host)));
      ChartData(kind, Some(s), host) == if bs.None? then None else Some(SortBy(bs.value, BarOrder(kind)))
  {
    GroupByNonEmpty(s.rides, DateKeyOf(host));
  }

  /** Bar i of the unsorted date bars holds the rides of group i, which are the
      rides with that group's date. */
  lemma DateBar(kind: Kind, s: Summary, host: Host, i: nat)
    requires NonEmptyGroups(GroupBy(s.rides, DateKeyOf(host)))
    requires DayBars(kind, GroupBy(s.rides, DateKeyOf(host))).Some?
    requires i < |GroupBy(s.rides, DateKeyOf(host))|
    ensures var g, b := GroupBy(s.rides, DateKeyOf(host))[i], DayBars(kind, GroupBy(s.rides, DateKeyOf(host))).value[i];
      && g.members == Matching(s.rides, DateKeyOf(host), g.key) && |g.members| > 0
      && b.distance == RoundNum2(JsSum(g.members, Km)) && b.efficiency == Round1(Mean(g.members, EfficiencyOf))
  {
    GroupByPartition(s.rides, DateKeyOf(host));
    DayBarsEach(kind, GroupBy(s.rides, DateKeyOf(host)));
  }

  /** b is the bar of the rides dated d: their summed distance to a hundredth and
      their mean efficiency to a tenth. */
  predicate BarOfDate(b: Bar, rides: seq<Ride>, host: Host, d: string)
  {
    var ms := Matching(rides, DateKeyOf(host), d);
    |ms| > 0 && b.distance == RoundNum2(JsSum(ms, Km)) && b.efficiency == Round1(Mean(ms, EfficiencyOf))
  }

  /** Every bar of a week or month is the bar of the rides of one date. */
  lemma DrillDownBars(kind: Kind, s: Summary, host: Host)
    requires kind != Daily && ChartData(kind, Some(s), host).Some?
    ensures forall b :: b in ChartData(kind, Some(s), host).value ==>
      exists d :: BarOfDate(b, s.rides, host, d)
  {
    ChartOfDates(kind, s, host);
    var gs := GroupBy(s.rides, DateKeyOf(host));
    var bs := DayBars(kind, gs).value;
    var bars := ChartData(kind, Some(s), host).value;
    assert bars == SortBy(bs, BarOrder(kind));
    SortByPerm(bs, BarOrder(kind));
    forall b | b in bars ensures exists d :: BarOfDate(b, s.rides, host, d) {
      assert b in multiset(bs);
      var i :| 0 <= i < |bs| && bs[i] == b;
      DateBar(kind, s, host, i);
      assert BarOfDate(b, s.rides, host, gs[i].key);
    }
  }

  /** When no ride's distance is NaN, the bars of a week or month add up to the
      distance of its rides, up to the rounding of each bar: within 0.005 km per
      bar. */
  lemma DrillDownTotal(kind: Kind, s: Summary, host: Host)
    requires kind != Daily && ChartData(kind, Some(s), host).Some?
    requires forall r :: r in s.rides ==> Km(r).Fin?
    ensures var bars := ChartData(kind, Some(s), host).value;
      -0.005 * |bars| as real <= Sum(bars, BarKm) - Sum(s.rides, KmOrZero) <= 0.005 * |bars| as real
  {
    ChartOfDates(kind, s, host);
    var gs := GroupBy(s.rides, DateKeyOf(host));
    var bs := DayBars(kind, gs).value;
    BarsWithin(kind, s, host);
    BarsTotal(gs, bs);
    GroupBySum(s.rides, DateKeyOf(host), KmOrZero);
    SortBySum(bs, BarOrder(kind), BarKm);
    SortByPerm(bs, BarOrder(kind));
  }

  /** With no NaN distance, each date's bar is its rides' distance to a hundredth. */
  lemma BarsWithin(kind: Kind, s: Summary, host: Host)
    requires kind != Daily && ChartData(kind, Some(s), host).Some?
    requires forall r :: r in s.rides ==> Km(r).Fin?
    ensures NonEmptyGroups(GroupBy(s.rides, DateKeyOf(host)))
    ensures var gs := GroupBy(s.rides, DateKeyOf(host));
      var bs := DayBars(kind, gs).value;
      |bs| == |gs| &&
      forall i :: 0 <= i < |gs| ==> -0.005 <= BarKm(bs[i]) - Sum(gs[i].members, KmOrZero) <= 0.005
  {
    ChartOfDates(kind, s, host);
    var gs := GroupBy(s.rides, DateKeyOf(host));
    var bs := DayBars(kind, gs).value;
    forall i | 0 <= i < |gs| ensures -0.005 <= BarKm(bs[i]) - Sum(gs[i].members, KmOrZero) <= 0.005 {
      DateBar(kind, s, host, i);
      MatchingMembers(s.rides, DateKeyOf(host), gs[i].key);
      JsSumValue(gs[i].members, Km, KmOrZero);
    }
  }

  /** Bars each within 0.005 km of their date's distance add up to within 0.005 km
      per bar of the distance of all the dates. */
  lemma BarsTotal(gs: seq<Group<string, Ride>>, bs: seq<Bar>)
    requires |bs| == |gs|
    requires forall i :: 0 <= i < |gs| ==> -0.005 <= BarKm(bs[i]) - Sum(gs[i].members, KmOrZero) <= 0.005
    ensures -0.005 * |bs| as real <= Sum(bs, BarKm) - GroupSum(gs, KmOrZero) <= 0.005 * |bs| as real
  {
    var slack: Bar -> real := _ => 0.005;
    SumOverGroupsWithin(gs, bs, BarKm, KmOrZero, slack);
    SumConstant(bs, slack, 0.005);
  }

  /** The chart of a week or month exists when every date is a string, and it
      throws when the first ride's date is not one. */
  lemma DrillDownThrows(kind: Kind, s: Summary, host: Host)
    requires kind != Daily
    ensures (forall r :: r in s.rides ==> r.date.Str?) ==> ChartData(kind, Some(s), host).Some?
    ensures |s.rides| > 0 && !s.rides[0].date.Str? ==> ChartData(kind, Some(s), host).None?
  {
    var key := DateKeyOf(host);
    var gs := GroupBy(s.rides, key);
    GroupByPartition(s.rides, key);
    DayBarsEach(kind, gs);
    if forall r :: r in s.rides ==> r.date.Str? {
      forall i | 0 <= i < |gs| ensures DayBar(kind, gs[i]).Some? {
        GroupMember(s.rides, key, i, 0);
      }
    }
    if |s.rides| > 0 && !s.rides[0].date.Str? {
      assert HasKey(gs, key(s.rides[0]));
      var p :| 0 <= p < |gs| && gs[p].key == key(s.rides[0]);
      MatchingFirst(s.rides, key);
      assert DayBar(kind, gs[p]).None?;
    }
  }

  lemma NameBeforeStrictWeak(bs: seq<Bar>)
    requires forall b :: b in bs ==> b.name.Some?
    ensures StrictWeakOn(bs, NameBefore)
  {
    forall a, b | a in bs && b in bs && NameBefore(a, b) ensures !NameBefore(b, a) {
      TextLessAsymmetric(a.name.value, b.name.value);
    }
    forall a, b, c | a in bs && b in bs && c in bs && !NameBefore(a, b) && !NameBefore(b, c)
      ensures !NameBefore(a, c)
    {
      TextLessTotal(a.name.value, b.name.value);
      TextLessTotal(b.name.value, c.name.value);
      if a.name.value != b.name.value && b.name.value != c.name.value {
        TextLessTransitive(c.name.value, b.name.value, a.name.value);
        TextLessAsymmetric(c.name.value, a.name.value);
      }
    }
  }

  /** A week's bars are in name order: no bar's name is before an earlier bar's. */
  lemma WeekChartByName(s: Summary, host: Host)
    requires ChartData(Weekly, Some(s), host).Some?
    ensures var bars := ChartData(Weekly, Some(s), host).value;
      && (forall b :: b in bars ==> b.name.Some?)
      && (forall i, j :: 0 <= i < j < |bars| ==> !TextLess(bars[j].name.value, bars[i].name.value))
  {
    ChartOfDates(Weekly, s, host);
    var gs := GroupBy(s.rides, DateKeyOf(host));
    var bs := DayBars(Weekly, gs).value;
    DayBarsEach(Weekly, gs);
    assert forall b :: b in bs ==> b.name.Some?;
    SortedByName(bs);
  }

  /** Sorting named bars by name puts them in name order. */
  lemma SortedByName(bs: seq<Bar>)
    requires forall b :: b in bs ==> b.name.Some?
    ensures var r := SortBy(bs, NameBefore);
      && (forall b :: b in r ==> b.name.Some?)
      && (forall i, j :: 0 <= i < j < |r| ==> !TextLess(r[j].name.value, r[i].name.value))
  {
    NameBeforeStrictWeak(bs);
    SortBySorted(bs, NameBefore, bs);
    SortByPerm(bs, NameBefore);
    var r := SortBy(bs, NameBefore);
    assert forall b :: b in r ==> b in multiset(bs);
  }

  lemma EarlierDayStrictWeak(bs: seq<Bar>)
    requires forall b :: b in bs ==> DayOfMonth(b).Some?
    ensures StrictWeakOn(bs, EarlierDay)
  {
  }

  /** When every bar's name is a day of the month, a month's bars are in day
      order. */
  lemma MonthChartByDay(s: Summary, host: Host)
    requires ChartData(Monthly, Some(s), host).Some?
    requires forall b :: b in ChartData(Monthly, Some(s), host).value ==> DayOfMonth(b).Some?
    ensures var bars := ChartData(Monthly, Some(s), host).value;
      forall i, j :: 0 <= i < j < |bars| ==> DayOfMonth(bars[i]).value <= DayOfMonth(bars[j]).value
  {
    ChartOfDates(Monthly, s, host);
    var gs := GroupBy(s.rides, DateKeyOf(host));
    var bs := DayBars(Monthly, gs).value;
    var bars := ChartData(Monthly, Some(s), host).value;
    SortByPerm(bs, EarlierDay);
    assert forall b :: b in bs ==> b in multiset(bars);
    EarlierDayStrictWeak(bs);
    SortBySorted(bs, EarlierDay, bs);
  }
}
