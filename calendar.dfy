/** The activity heatmap of the dashboard (`ActivityCalendar` in src/App.jsx): one
    cell per day of the selected year, preceded by blank cells up to the first
    weekday, each day coloured by one of five levels of the distance ridden that
    day, and a label per month placed at the week column where the month begins. */
module Calendar {

  import opened JsValue
  import opened CivilDate
  import opened Collections
  import opened Normalizer
  import opened Rollup

  const MonthNames: seq<string> :=
    ["Jan", "Feb", "Mar", "Apr", "May", "Jun", "Jul", "Aug", "Sep", "Oct", "Nov", "Dec"]

  /** A grid cell: the day (None for the padding before January 1), its colour
      level and its distance in km. */
  datatype DayCell = DayCell(date: Option<int>, level: int, distance: real)

  /** A month name shown above the week column `weekIndex`. */
  datatype MonthLabel = MonthLabel(name: string, weekIndex: int)

  const Padding := DayCell(None, 0, 0.0)

  /** `Date.UTC(year, …)` reads the years 0 to 99 as 1900 to 1999. */
  function FullYear(year: int): (y: int)
    ensures 0 <= year <= 99 ==> y == 1900 + year
    ensures (year < 0 || year > 99) ==> y == year
  {
    if 0 <= year <= 99 then 1900 + year else year
  }

  // ---------------------------------------------------------------------
  // Levels and distances

  /** The colour level of a day: 0 without distance, then 1 up to 5 km, 2 up to
      15 km, 3 up to 30 km and 4 beyond. */
  function Level(distance: real): (l: int)
    ensures 0 <= l <= 4
    ensures l == 0 <==> distance <= 0.0
    ensures l == 4 <==> distance > 30.0
    ensures 1 <= l <= 3 ==> distance > [0.0, 5.0, 15.0][l - 1] && distance <= [5.0, 15.0, 30.0][l - 1]
  {
    if distance > 30.0 then 4
    else if distance > 15.0 then 3
    else if distance > 5.0 then 2
    else if distance > 0.0 then 1
    else 0
  }

  /** A longer ride never gets a lighter colour. */
  lemma LevelMonotone(a: real, b: real)
    requires a <= b
    ensures Level(a) <= Level(b)
  {
  }

  /** `activityData[dateStr] || 0`: a missing day and a NaN bucket both read as 0. */
  function Lookup(activity: map<int, JsNum>, day: int): (d: real)
    ensures day !in activity ==> d == 0.0
    ensures day in activity ==> d == OrZero(activity[day])
  {
    if day in activity then OrZero(activity[day]) else 0.0
  }

  /** The cell of a day of the year. */
  function CellAt(activity: map<int, JsNum>, day: int): DayCell
  {
    DayCell(Some(day), Level(Lookup(activity, day)), Lookup(activity, day))
  }

  // ---------------------------------------------------------------------
  // The grid

  /** The week column where month j (0-based) begins, given the padding. */
  function MonthWeek(pad: int, y: int, j: int): int
    requires 0 <= j < 12
  {
    (pad + DaysBeforeMonth(y, j + 1)) / 7
  }

  /** The labels of the first m months, each at the column of its first day. */
  ghost predicate LabelsUpTo(labels: seq<MonthLabel>, pad: int, y: int, m: int)
    requires 0 <= m <= 12
  {
    |labels| == m && forall j :: 0 <= j < m ==> labels[j] == MonthLabel(MonthNames[j], MonthWeek(pad, y, j))
  }

  /** The last day of a year is December 31. */
  lemma LastDayOfYear(d: Date)
    requires Valid(d) && DayOfYear(d) + 1 == DaysInYear(d.year)
    ensures d.month == 12 && d.day == 31
  {
    if d.month < 12 {
      NextMonthStart(d.year, d.month);
    }
  }

  /** Where the day loop stands after n days of year y: d is the next day to draw
      and `done` the number of months whose first day has been drawn. */
  ghost predicate DayLoop(y: int, first: int, d: Date, n: int, done: int)
  {
    && Valid(d) && 0 <= n <= DaysInYear(y) && DaysFromCivil(d) == first + n
    && (n < DaysInYear(y) ==> d.year == y && DayOfYear(d) == n)
    && (n == 0 ==> done == 0)
    && (0 < n < DaysInYear(y) ==> done == if d.day == 1 then d.month - 1 else d.month)
    && (n == DaysInYear(y) ==> done == 12)
  }

  /** Stepping to the next day keeps the loop's bookkeeping. */
  lemma NextDayLoop(y: int, first: int, d: Date, n: int, done: int)
    requires DayLoop(y, first, d, n, done) && n < DaysInYear(y)
    ensures DayLoop(y, first, NextDay(d), n + 1, d.month)
  {
    NextDayStep(d);
    if n + 1 == DaysInYear(y) {
      LastDayOfYear(d);
    }
  }

  /** A day that starts a new month always gets its label: the previous label is at
      least four weeks back, so the label goes at this day's column. */
  lemma NewMonthLabel(labels: seq<MonthLabel>, pad: int, y: int, first: int, d: Date, n: int, done: int)
    requires 0 <= pad < 7 && DayLoop(y, first, d, n, done) && n < DaysInYear(y)
    requires 0 <= done <= 12 && LabelsUpTo(labels, pad, y, done)
    ensures d.month - 1 != done - 1 ==>
      && done == d.month - 1
      && ((pad + n) % 7 == 0 || |labels| == 0 || (pad + n) / 7 > labels[|labels| - 1].weekIndex)
      && LabelsUpTo(labels + [MonthLabel(MonthNames[d.month - 1], (pad + n) / 7)], pad, y, d.month)
    ensures d.month - 1 == done - 1 ==> LabelsUpTo(labels, pad, y, d.month)
  {
    if d.month - 1 != done - 1 {
      assert d.day == 1;
      if d.month > 1 {
        NextMonthStart(y, d.month - 1);
      }
      var ls := labels + [MonthLabel(MonthNames[d.month - 1], (pad + n) / 7)];
      assert forall j :: 0 <= j < done ==> ls[j] == labels[j];
    }
  }

  /** The grid so far: `pad` blank cells, then the cells of the days from `first` on. */
  ghost predicate Grid(days: seq<DayCell>, pad: int, activity: map<int, JsNum>, first: int)
  {
    && 0 <= pad <= |days|
    && (forall i :: 0 <= i < pad ==> days[i] == Padding)
    && (forall i :: pad <= i < |days| ==> days[i] == CellAt(activity, first + i - pad))
  }

  /** Pushing the cell of the next day extends the grid. */
  lemma GridPush(days: seq<DayCell>, pad: int, activity: map<int, JsNum>, first: int, cell: DayCell)
    requires Grid(days, pad, activity, first)
    requires cell == CellAt(activity, first + |days| - pad)
    ensures Grid(days + [cell], pad, activity, first)
  {
  }

  /** December 31 is the last day number of its year. */
  lemma LastDayNumber(y: int)
    ensures Valid(Date(y, 12, 31))
    ensures DaysFromCivil(Date(y, 12, 31)) == DaysFromCivil(Date(y, 1, 1)) + DaysInYear(y) - 1
  {
  }

  /** The cell the loop pushes for a day: the day's distance and the level the
      chain of `if (distance > …) level = …` assigns. */
  method DayCellOf(activity: map<int, JsNum>, day: int) returns (cell: DayCell)
    ensures cell == CellAt(activity, day)
    ensures cell.date == Some(day) && 0 <= cell.level <= 4
  {
    var distance := Lookup(activity, day);
    var level := 0;
    if distance > 0.0 { level := 1; }
    if distance > 5.0 { level := 2; }
    if distance > 15.0 { level := 3; }
    if distance > 30.0 { level := 4; }
    cell := DayCell(Some(day), level, distance);
  }

  /** Building the grid day by day from January 1 to December 31 of the year. */
  method BuildCalendar(activity: map<int, JsNum>, year: int) returns (days: seq<DayCell>, labels: seq<MonthLabel>)
    ensures var y := FullYear(year);
      var first := DaysFromCivil(Date(y, 1, 1));
      var pad := Weekday(first);
      && |days| == pad + DaysInYear(y)
      && (forall i :: 0 <= i < pad ==> days[i] == Padding)
      && (forall i :: pad <= i < |days| ==> days[i] == CellAt(activity, first + i - pad))
      && LabelsUpTo(labels, pad, y, 12)
  {
    var y := FullYear(year);
    var start := Date(y, 1, 1);
    var first := DaysFromCivil(start);
    var pad := Weekday(first);
    days := [];
    for i := 0 to pad
      invariant days == seq(i, _ => Padding)
    {
      days := days + [Padding];
    }
    days, labels := DrawDays(activity, y, days);
  }

  /** The `while (itr <= endDate)` loop of the grid: after the padding `days`, one
      cell per day of year y, and the month labels. */
  method DrawDays(activity: map<int, JsNum>, y: int, padding: seq<DayCell>)
      returns (days: seq<DayCell>, labels: seq<MonthLabel>)
    requires padding == seq(Weekday(DaysFromCivil(Date(y, 1, 1))), _ => Padding)
    ensures var first := DaysFromCivil(Date(y, 1, 1));
      var pad := Weekday(first);
      |days| == pad + DaysInYear(y) && Grid(days, pad, activity, first) && LabelsUpTo(labels, pad, y, 12)
  {
    var start := Date(y, 1, 1);
    var first := DaysFromCivil(start);
    var pad := |padding|;
    days := padding;
    labels := [];
    var currentMonth := -1;
    var end := DaysFromCivil(Date(y, 12, 31));
    LastDayNumber(y);
    var d := start;
    ghost var done := 0;
    while DaysFromCivil(d) <= end
      invariant end == first + DaysInYear(y) - 1
      invariant pad <= |days| && DayLoop(y, first, d, |days| - pad, done)
      invariant Grid(days, pad, activity, first)
      invariant 0 <= done <= 12 && currentMonth == done - 1 && LabelsUpTo(labels, pad, y, done)
      decreases DaysInYear(y) - (|days| - pad)
    {
      ghost var n := |days| - pad;
      var month := d.month - 1;
      var gridIndex := |days|;
      var weekIndex := gridIndex / 7;

      NewMonthLabel(labels, pad, y, first, d, n, done);
      if month != currentMonth {
        if gridIndex % 7 == 0 || |labels| == 0 || weekIndex > labels[|labels| - 1].weekIndex {
          labels := labels + [MonthLabel(MonthNames[month], weekIndex)];
          currentMonth := month;
        }
      }
      assert currentMonth == d.month - 1 && LabelsUpTo(labels, pad, y, d.month);
      NextDayLoop(y, first, d, n, done);
      done := d.month;

      var cell := DayCellOf(activity, DaysFromCivil(d));
      GridPush(days, pad, activity, first, cell);
      days := days + [cell];

      d := NextDay(d);
    }
  }

  /** The labels the grid builds: January at column 0, the columns strictly
      increasing at least four weeks apart, all inside the grid. */
  lemma CalendarLabels(labels: seq<MonthLabel>, pad: int, y: int)
    requires 0 <= pad < 7 && LabelsUpTo(labels, pad, y, 12)
    ensures labels[0] == MonthLabel("Jan", 0)
    ensures forall j :: 0 < j < 12 ==> labels[j].weekIndex >= labels[j - 1].weekIndex + 4
    ensures forall j :: 0 <= j < 12 ==> 0 <= 7 * labels[j].weekIndex < pad + DaysInYear(y)
  {
    forall j | 0 < j < 12 ensures labels[j].weekIndex >= labels[j - 1].weekIndex + 4 {
      NextMonthStart(y, j);
    }
  }

  // ---------------------------------------------------------------------
  // Labels too close together

  /** A label is shown when it is the first or at least two columns after the
      label before it in the built list. */
  predicate KeepLabel(labels: seq<MonthLabel>, i: nat)
    requires i < |labels|
  {
    i == 0 || labels[i].weekIndex - labels[i - 1].weekIndex >= 2
  }

  /** `monthLabels.filter(…)`. */
  function FilterLabels(labels: seq<MonthLabel>): seq<MonthLabel>
    decreases |labels|
  {
    if |labels| == 0 then []
    else
      var shown := if KeepLabel(labels, |labels| - 1) then [labels[|labels| - 1]] else [];
      FilterLabels(labels[..|labels| - 1]) + shown
  }

  /** Over labels in increasing columns the shown ones are labels of the list, the
      first is always shown, and two shown labels are at least two columns apart. */
  lemma {:induction false} FilterLabelsSpaced(labels: seq<MonthLabel>)
    requires forall i :: 0 < i < |labels| ==> labels[i - 1].weekIndex < labels[i].weekIndex
    ensures var r := FilterLabels(labels);
      && (forall x :: x in r ==> x in labels)
      && (|labels| > 0 ==> |r| > 0 && r[0] == labels[0])
      && (forall x :: x in r ==> x.weekIndex <= labels[|labels| - 1].weekIndex)
      && (forall i :: 0 < i < |r| ==> r[i].weekIndex - r[i - 1].weekIndex >= 2)
    decreases |labels|
  {
    if |labels| > 0 {
      var p := labels[..|labels| - 1];
      FilterLabelsSpaced(p);
      var r := FilterLabels(labels);
      assert forall x :: x in p ==> x in labels;
      if |p| > 0 {
        forall x | x in p ensures x.weekIndex <= p[|p| - 1].weekIndex {
          var k :| 0 <= k < |p| && p[k] == x;
          IncreasingUpTo(p, k);
        }
      }
    }
  }

  lemma {:induction false} IncreasingUpTo(labels: seq<MonthLabel>, k: nat)
    requires forall i :: 0 < i < |labels| ==> labels[i - 1].weekIndex < labels[i].weekIndex
    requires k < |labels|
    ensures labels[k].weekIndex <= labels[|labels| - 1].weekIndex
    decreases |labels| - k
  {
    if k < |labels| - 1 {
      IncreasingUpTo(labels, k + 1);
    }
  }

  /** When every label is at least two columns after the one before, none is
      dropped. */
  lemma {:induction false} FilterLabelsAll(labels: seq<MonthLabel>)
    requires forall i :: 0 < i < |labels| ==> labels[i].weekIndex - labels[i - 1].weekIndex >= 2
    ensures FilterLabels(labels) == labels
    decreases |labels|
  {
    if |labels| > 0 {
      FilterLabelsAll(labels[..|labels| - 1]);
    }
  }

  /** The filter never removes one of the twelve month labels of the grid. */
  lemma CalendarLabelsShown(labels: seq<MonthLabel>, pad: int, y: int)
    requires 0 <= pad < 7 && LabelsUpTo(labels, pad, y, 12)
    ensures FilterLabels(labels) == labels
  {
    CalendarLabels(labels, pad, y);
    FilterLabelsAll(labels);
  }

  // ---------------------------------------------------------------------
  // The activity object the grid reads

  /** The object filled by the activity `reduce`, from its buckets. */
  function ActivityMap(buckets: seq<(int, JsNum)>): map<int, JsNum>
    decreases |buckets|
  {
    if |buckets| == 0 then map[]
    else ActivityMap(buckets[..|buckets| - 1])[buckets[|buckets| - 1].0 := buckets[|buckets| - 1].1]
  }

  /** The object has a key per bucket and, as the bucket days are distinct, the
      value of each bucket under its day. */
  lemma {:induction false} ActivityMapLookup(buckets: seq<(int, JsNum)>)
    requires forall i, j :: 0 <= i < j < |buckets| ==> buckets[i].0 != buckets[j].0
    ensures forall day :: day in ActivityMap(buckets) <==> exists i :: 0 <= i < |buckets| && buckets[i].0 == day
    ensures forall i :: 0 <= i < |buckets| ==> ActivityMap(buckets)[buckets[i].0] == buckets[i].1
    decreases |buckets|
  {
    if |buckets| > 0 {
      var p := buckets[..|buckets| - 1];
      ActivityMapLookup(p);
      forall day | day in ActivityMap(buckets)
        ensures exists i :: 0 <= i < |buckets| && buckets[i].0 == day
      {
        if day != buckets[|buckets| - 1].0 {
          var i :| 0 <= i < |p| && p[i].0 == day;
          assert buckets[i].0 == day;
        }
      }
    }
  }

  /** With no NaN distance, the distance the grid shows for a day is the sum of the
      distances of the rides on that day, and 0 when there are none. */
  lemma CalendarDistance(rides: seq<Ride>, host: Host, day: int)
    requires Activity(rides, host).Some?
    requires forall r :: r in rides ==> Km(r).Fin?
    ensures Lookup(ActivityMap(Activity(rides, host).value), day) ==
      Sum(Matching(rides, DayKeyOf(host), day), KmOrZero)
  {
    var bs := Activity(rides, host).value;
    ActivityDays(rides, host);
    ActivityMapLookup(bs);
    if day in ActivityMap(bs) {
      var i :| 0 <= i < |bs| && bs[i].0 == day;
      ActivityBucket(rides, host, i);
      assert ActivityMap(bs)[day] == bs[i].1;
    } else {
      RidelessDay(rides, host, day);
      assert Matching(rides, DayKeyOf(host), day) == [];
    }
  }

  /** A day with a ride on it has a key in the activity object. */
  lemma RidelessDay(rides: seq<Ride>, host: Host, day: int)
    requires Activity(rides, host).Some?
    ensures |Matching(rides, DayKeyOf(host), day)| > 0 ==> day in ActivityMap(Activity(rides, host).value)
  {
    var bs := Activity(rides, host).value;
    var ms := Matching(rides, DayKeyOf(host), day);
    if |ms| > 0 {
      MatchingMembers(rides, DayKeyOf(host), day);
      assert ms[0] in rides && DayKey(ms[0], host) == day;
      ActivityDays(rides, host);
      ActivityMapLookup(bs);
    }
  }
}
