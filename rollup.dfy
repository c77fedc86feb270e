/** What the dashboard derives from the loaded rides once (`processData` in
    src/App.jsx): the monthly rollup keyed by year and month, the map from ride day
    to distance that feeds the activity calendar, and the list of years with the
    selected year kept valid. */
module Rollup {

  import opened JsValue
  import opened Collections
  import opened Normalizer

  // ---------------------------------------------------------------------
  // Ride keys

  /** `${r.year}-${r.month}`. */
  function MonthKey(r: Ride, host: Host): string
  {
    NumberText(r.year, host) + "-" + r.month
  }

  function MonthKeyOf(host: Host): Ride -> string
  {
    r => MonthKey(r, host)
  }

  /** `parseFloat(r.distance)`: the distance in km as a JavaScript number. */
  function Km(r: Ride): JsNum
  {
    ShownNumber(r.distance)
  }

  /** `parseFloat(r.distance) || 0`. */
  function KmOrZero(r: Ride): real
  {
    OrZero(Km(r))
  }

  function EfficiencyOf(r: Ride): real
  {
    r.efficiency
  }

  function EnergyOf(r: Ride): real
  {
    r.energyUsed
  }

  /** `s.slice(-2)`. */
  function LastTwo(s: string): (r: string)
    ensures |r| == if |s| < 2 then |s| else 2
    ensures r == s[|s| - |r|..]
  {
    if |s| <= 2 then s else s[|s| - 2..]
  }

  // ---------------------------------------------------------------------
  // The monthly rollup

  /** The accumulator object of the rollup `reduce`. */
  datatype MonthAcc = MonthAcc(name: string, key: string, distance: JsNum, efficiency: real,
                               energy: real, count: nat)

  /** One entry of the monthly data: name "MM/YY", the key, the summed distance in km,
      the mean efficiency, the energy in kWh and the number of rides. */
  datatype MonthEntry = MonthEntry(name: string, key: string, distance: JsNum, efficiency: real,
                                   energy: real, count: nat)

  function CountOf(e: MonthEntry): real
  {
    e.count as real
  }

  function EntryKm(e: MonthEntry): real
  {
    OrZero(e.distance)
  }

  /** The fresh accumulator created for the first ride of a month. */
  function StartMonth(r: Ride, host: Host): MonthAcc
  {
    MonthAcc(r.month + "/" + LastTwo(NumberText(r.year, host)), MonthKey(r, host), Fin(0.0), 0.0, 0.0, 0)
  }

  /** The `+=` updates of the accumulator for one ride. */
  function AddToMonth(acc: MonthAcc, r: Ride): MonthAcc
  {
    acc.(distance := Add(acc.distance, Km(r)), efficiency := acc.efficiency + r.efficiency,
         energy := acc.energy + r.energyUsed, count := acc.count + 1)
  }

  /** The `map` over `Object.values(m)`: the distance to one decimal, the mean
      efficiency to one decimal and the energy in kWh to two, each read back from
      its `toFixed` text. */
  function FinishMonth(acc: MonthAcc): MonthEntry
    requires acc.count > 0
  {
    MonthEntry(acc.name, acc.key, RoundNum1(acc.distance), Round1(acc.efficiency / acc.count as real),
               Kilo(acc.energy), acc.count)
  }

  /** The accumulator after adding the rides xs to acc: their sums and their number. */
  function WithRides(acc: MonthAcc, xs: seq<Ride>): MonthAcc
  {
    acc.(distance := Add(acc.distance, JsSum(xs, Km)),
         efficiency := acc.efficiency + Sum(xs, EfficiencyOf),
         energy := acc.energy + Sum(xs, EnergyOf),
         count := acc.count + |xs|)
  }

  /** Folding rides into an accumulator adds their sums and their number. */
  lemma {:induction false} FoldMonth(xs: seq<Ride>, acc: MonthAcc)
    ensures Fold(xs, acc, AddToMonth) ==
      acc.(distance := Add(acc.distance, JsSum(xs, Km)),
           efficiency := acc.efficiency + Sum(xs, EfficiencyOf),
           energy := acc.energy + Sum(xs, EnergyOf),
           count := acc.count + |xs|)
    decreases |xs|
  {
    if |xs| > 0 {
      FoldMonth(xs[..|xs| - 1], acc);
      AddToMonthStep(xs, acc);
    }
  }

  /** One more ride: adding it to the accumulator of the rides before it. */
  lemma AddToMonthStep(xs: seq<Ride>, acc: MonthAcc)
    requires |xs| > 0
    ensures AddToMonth(WithRides(acc, xs[..|xs| - 1]), xs[|xs| - 1]) == WithRides(acc, xs)
  {
    AddAssociative(acc.distance, JsSum(xs[..|xs| - 1], Km), Km(xs[|xs| - 1]));
  }

  /** The entry of the group of rides that share a key. */
  function MonthEntryOf(g: Group<string, Ride>, host: Host): MonthEntry
    requires |g.members| > 0
  {
    var ms := g.members;
    MonthEntry(StartMonth(ms[0], host).name, g.key, RoundNum1(JsSum(ms, Km)),
               Round1(Mean(ms, EfficiencyOf)), Kilo(Sum(ms, EnergyOf)), |ms|)
  }

  lemma EntryOfGroup(g: Group<string, Ride>, host: Host)
    requires |g.members| > 0
    ensures var e, ms := MonthEntryOf(g, host), g.members;
      && e.key == g.key && e.count == |ms|
      && e.distance == RoundNum1(JsSum(ms, Km))
      && e.efficiency == Round1(Mean(ms, EfficiencyOf))
      && e.energy == Kilo(Sum(ms, EnergyOf))
  {
  }

  /** The monthly data: one entry per group of rides with the same key. */
  function MonthlyRollup(rides: seq<Ride>, host: Host): (es: seq<MonthEntry>)
    ensures var gs := GroupBy(rides, MonthKeyOf(host));
      NonEmptyGroups(gs) && |es| == |gs| && forall i :: 0 <= i < |gs| ==> es[i] == MonthEntryOf(gs[i], host)
  {
    var gs := GroupBy(rides, MonthKeyOf(host));
    GroupByNonEmpty(rides, MonthKeyOf(host));
    seq(|gs|, i requires 0 <= i < |gs| => MonthEntryOf(gs[i], host))
  }

  function StartMonthOf(host: Host): Ride -> MonthAcc
  {
    r => StartMonth(r, host)
  }

  /** Finishing the accumulator that the rollup loop built for a group gives the
      group's entry. */
  lemma FinishedEntry(rides: seq<Ride>, host: Host, accs: seq<(string, MonthAcc)>, i: nat)
    requires NonEmptyGroups(GroupBy(rides, MonthKeyOf(host)))
    requires accs == Accumulated(GroupBy(rides, MonthKeyOf(host)), StartMonthOf(host), AddToMonth)
    requires i < |accs|
    ensures accs[i].1.count > 0 && FinishMonth(accs[i].1) == MonthEntryOf(GroupBy(rides, MonthKeyOf(host))[i], host)
  {
    var g := GroupBy(rides, MonthKeyOf(host))[i];
    var ms := g.members;
    var a0 := StartMonth(ms[0], host);
    var acc := Fold(ms, a0, AddToMonth);
    assert accs[i].1 == acc;
    FoldMonth(ms, a0);
    assert acc.count == |ms| > 0;
    GroupMember(rides, MonthKeyOf(host), i, 0);
    assert acc.key == g.key;
    assert acc.distance == JsSum(ms, Km);
    assert acc.efficiency / acc.count as real == Mean(ms, EfficiencyOf);
    assert FinishMonth(acc) == MonthEntryOf(g, host);
  }

  lemma FinishedEntries(rides: seq<Ride>, host: Host, accs: seq<(string, MonthAcc)>)
    requires NonEmptyGroups(GroupBy(rides, MonthKeyOf(host)))
    requires accs == Accumulated(GroupBy(rides, MonthKeyOf(host)), StartMonthOf(host), AddToMonth)
    ensures |accs| == |MonthlyRollup(rides, host)|
    ensures forall i :: 0 <= i < |accs| ==>
      accs[i].1.count > 0 && FinishMonth(accs[i].1) == MonthlyRollup(rides, host)[i]
  {
    forall i | 0 <= i < |accs|
      ensures accs[i].1.count > 0 && FinishMonth(accs[i].1) == MonthlyRollup(rides, host)[i]
    {
      FinishedEntry(rides, host, accs, i);
    }
  }

  /** The rollup `reduce` followed by the `map`: the object filled ride by ride, then
      each accumulated value finished.  The result is the rollup of the rides. */
  method RollUpMonths(rides: seq<Ride>, host: Host) returns (es: seq<MonthEntry>)
    ensures es == MonthlyRollup(rides, host)
  {
    var accs := GroupInto(rides, MonthKeyOf(host), StartMonthOf(host), AddToMonth);
    FinishedEntries(rides, host, accs);
    es := seq(|accs|, j requires 0 <= j < |accs| && accs[j].1.count > 0 => FinishMonth(accs[j].1));
  }

  /** One entry per distinct key, in order of first encounter; each entry holds
      exactly the rides with its key. */
  lemma RollupGroups(rides: seq<Ride>, host: Host)
    ensures var es, key := MonthlyRollup(rides, host), MonthKeyOf(host);
      && (forall i, j :: 0 <= i < j < |es| ==> es[i].key != es[j].key)
      && (forall r :: r in rides ==> exists i :: 0 <= i < |es| && es[i].key == MonthKey(r, host))
      && (forall i :: 0 <= i < |es| ==>
            es[i].count == |Matching(rides, key, es[i].key)| >= 1 &&
            FirstIndex(rides, key, es[i].key) < |rides|)
      && (forall i, j :: 0 <= i < j < |es| ==>
            FirstIndex(rides, key, es[i].key) < FirstIndex(rides, key, es[j].key))
  {
    var key := MonthKeyOf(host);
    var gs := GroupBy(rides, key);
    GroupByPartition(rides, key);
    GroupByFirstEncounter(rides, key);
    var es := MonthlyRollup(rides, host);
    forall i | 0 <= i < |es|
      ensures es[i].key == gs[i].key && es[i].count == |Matching(rides, key, es[i].key)| >= 1
      ensures FirstIndex(rides, key, es[i].key) < |rides|
    {
      FirstIndexFound(rides, key, gs[i].key);
    }
    forall r | r in rides ensures exists i :: 0 <= i < |es| && es[i].key == MonthKey(r, host) {
      assert HasKey(gs, key(r));
    }
  }

  /** The rides of an entry are the rides with its key. */
  lemma EntryRides(rides: seq<Ride>, host: Host, i: nat)
    requires i < |MonthlyRollup(rides, host)|
    ensures var g := GroupBy(rides, MonthKeyOf(host))[i];
      g.key == MonthlyRollup(rides, host)[i].key &&
      g.members == Matching(rides, MonthKeyOf(host), g.key) && |g.members| > 0 &&
      MonthlyRollup(rides, host)[i] == MonthEntryOf(g, host)
  {
    GroupByPartition(rides, MonthKeyOf(host));
  }

  /** Each entry's distance is the sum of its rides' distances rounded to a tenth,
      NaN as soon as one of them is. */
  lemma RollupDistance(rides: seq<Ride>, host: Host, i: nat)
    requires i < |MonthlyRollup(rides, host)|
    ensures var e := MonthlyRollup(rides, host)[i];
      var ms := Matching(rides, MonthKeyOf(host), e.key);
      && (e.distance.NaN? <==> exists j :: 0 <= j < |ms| && Km(ms[j]).NaN?)
      && (e.distance.Fin? ==> e.distance.v == Round1(Sum(ms, KmOrZero)))
  {
    EntryRides(rides, host, i);
    JsSumValue(GroupBy(rides, MonthKeyOf(host))[i].members, Km, KmOrZero);
  }

  /** Each entry counts its rides; its efficiency is their mean to a tenth and its
      energy their sum in kWh to a hundredth. */
  lemma RollupMeans(rides: seq<Ride>, host: Host, i: nat)
    requires i < |MonthlyRollup(rides, host)|
    ensures var e := MonthlyRollup(rides, host)[i];
      var ms := Matching(rides, MonthKeyOf(host), e.key);
      && e.count == |ms| > 0
      && e.efficiency == Round1(Mean(ms, EfficiencyOf))
      && e.energy == Kilo(Sum(ms, EnergyOf))
  {
    EntryRides(rides, host, i);
    var e, g := MonthlyRollup(rides, host)[i], GroupBy(rides, MonthKeyOf(host))[i];
    EntryOfGroup(g, host);
    var ms := Matching(rides, MonthKeyOf(host), e.key);
    assert ms == g.members;
  }

  /** The counts add up to the number of rides. */
  lemma RollupCounts(rides: seq<Ride>, host: Host)
    ensures Sum(MonthlyRollup(rides, host), CountOf) == |rides| as real
  {
    var gs, es := GroupBy(rides, MonthKeyOf(host)), MonthlyRollup(rides, host);
    var one: Ride -> real := r => 1.0;
    forall i | 0 <= i < |gs| ensures es[i].count as real == Sum(gs[i].members, one) {
      SumConstant(gs[i].members, one, 1.0);
    }
    SumOverGroups(gs, es, CountOf, one);
    GroupBySum(rides, MonthKeyOf(host), one);
    SumConstant(rides, one, 1.0);
  }

  /** When no distance is NaN, the month distances add up to the total distance up
      to the rounding of each month: within 0.05 km per month. */
  lemma RollupDistanceTotal(rides: seq<Ride>, host: Host)
    requires forall r :: r in rides ==> Km(r).Fin?
    ensures var es := MonthlyRollup(rides, host);
      -0.05 * |es| as real <= Sum(es, EntryKm) - Sum(rides, KmOrZero) <= 0.05 * |es| as real
  {
    var gs, es := GroupBy(rides, MonthKeyOf(host)), MonthlyRollup(rides, host);
    var slack: MonthEntry -> real := _ => 0.05;
    EntryKmsWithin(rides, host);
    SumOverGroupsWithin(gs, es, EntryKm, KmOrZero, slack);
    GroupBySum(rides, MonthKeyOf(host), KmOrZero);
    SumConstant(es, slack, 0.05);
  }

  lemma EntryKmsWithin(rides: seq<Ride>, host: Host)
    requires forall r :: r in rides ==> Km(r).Fin?
    ensures var gs, es := GroupBy(rides, MonthKeyOf(host)), MonthlyRollup(rides, host);
      |es| == |gs| &&
      forall i :: 0 <= i < |gs| ==> -0.05 <= EntryKm(es[i]) - Sum(gs[i].members, KmOrZero) <= 0.05
  {
    var gs, es := GroupBy(rides, MonthKeyOf(host)), MonthlyRollup(rides, host);
    forall i | 0 <= i < |gs| ensures -0.05 <= EntryKm(es[i]) - Sum(gs[i].members, KmOrZero) <= 0.05 {
      EntryKmOfGroup(rides, host, i);
    }
  }

  /** With no NaN distance, an entry's distance is its group's sum to a tenth. */
  lemma EntryKmOfGroup(rides: seq<Ride>, host: Host, i: nat)
    requires forall r :: r in rides ==> Km(r).Fin?
    requires i < |GroupBy(rides, MonthKeyOf(host))|
    ensures |MonthlyRollup(rides, host)| == |GroupBy(rides, MonthKeyOf(host))|
    ensures EntryKm(MonthlyRollup(rides, host)[i]) == Round1(Sum(GroupBy(rides, MonthKeyOf(host))[i].members, KmOrZero))
  {
    var g := GroupBy(rides, MonthKeyOf(host))[i];
    EntryRides(rides, host, i);
    MatchingMembers(rides, MonthKeyOf(host), g.key);
    assert forall j :: 0 <= j < |g.members| ==> Km(g.members[j]).Fin? by {
      forall j | 0 <= j < |g.members| ensures Km(g.members[j]).Fin? {
        assert g.members[j] in g.members;
      }
    }
    JsSumValue(g.members, Km, KmOrZero);
  }

  // ---------------------------------------------------------------------
  // The activity map

  /** `new Date(c)` as a day number: null is the epoch, day 0, and None is an
      Invalid Date. */
  function DateDay(c: Cell, host: Host): Option<int>
  {
    if c == Null then Some(0) else host.parseDate(c)
  }

  /** `new Date(r.timestamp)` as a day number. */
  function TimestampDay(r: Ride, host: Host): Option<int>
  {
    DateDay(r.timestamp, host)
  }

  /** The day a ride is bucketed under (0 stands in for an invalid date, for which
      the whole map is not built). */
  function DayKey(r: Ride, host: Host): int
  {
    match TimestampDay(r, host)
    case Some(d) => d
    case None => 0
  }

  function DayKeyOf(host: Host): Ride -> int
  {
    r => DayKey(r, host)
  }

  /** `acc[date] = (acc[date] || 0) + parseFloat(r.distance)`: a NaN bucket counts
      as 0 for the next ride of the day. */
  function AddDistance(a: JsNum, r: Ride): JsNum
  {
    Add(Fin(OrZero(a)), Km(r))
  }

  function NoDistance(r: Ride): JsNum
  {
    Fin(0.0)
  }

  function BucketKm(b: (int, JsNum)): real
  {
    OrZero(b.1)
  }

  /** The activity map as (day, distance) buckets, or None when some timestamp is an
      Invalid Date and `toISOString` throws. */
  function Activity(rides: seq<Ride>, host: Host): Option<seq<(int, JsNum)>>
  {
    if exists i :: 0 <= i < |rides| && TimestampDay(rides[i], host).None? then None
    else
      GroupByNonEmpty(rides, DayKeyOf(host));
      Some(Accumulated(GroupBy(rides, DayKeyOf(host)), NoDistance, AddDistance))
  }

  /** The map fails exactly when some ride's timestamp is an Invalid Date. */
  lemma ActivityFails(rides: seq<Ride>, host: Host)
    ensures Activity(rides, host).None? <==> exists r :: r in rides && TimestampDay(r, host).None?
  {
    if exists r :: r in rides && TimestampDay(r, host).None? {
      var r :| r in rides && TimestampDay(r, host).None?;
      var i :| 0 <= i < |rides| && rides[i] == r;
    }
  }

  /** The activity `reduce`: fails on the first invalid timestamp, otherwise fills
      the day buckets ride by ride. */
  method BuildActivity(rides: seq<Ride>, host: Host) returns (a: Option<seq<(int, JsNum)>>)
    ensures a == Activity(rides, host)
  {
    for i := 0 to |rides|
      invariant forall j :: 0 <= j < i ==> TimestampDay(rides[j], host).Some?
    {
      if TimestampDay(rides[i], host).None? {
        return None;
      }
    }
    var buckets := GroupInto(rides, DayKeyOf(host), NoDistance, AddDistance);
    return Some(buckets);
  }

  /** Folding finite distances into a finite bucket adds them. */
  lemma {:induction false} FoldDistances(xs: seq<Ride>, a: real)
    requires forall r :: r in xs ==> Km(r).Fin?
    ensures Fold(xs, Fin(a), AddDistance) == Fin(a + Sum(xs, KmOrZero))
    decreases |xs|
  {
    if |xs| > 0 {
      var p, x := xs[..|xs| - 1], xs[|xs| - 1];
      assert forall r :: r in p ==> r in xs;
      FoldDistances(p, a);
      assert x in xs;
      assert Fold(xs, Fin(a), AddDistance) == AddDistance(Fin(a + Sum(p, KmOrZero)), x);
    }
  }

  /** A bucket is NaN exactly when the last ride of its day has a NaN distance. */
  lemma FoldDistancesNaN(xs: seq<Ride>, a: JsNum)
    requires |xs| > 0
    ensures Fold(xs, a, AddDistance).NaN? <==> Km(xs[|xs| - 1]).NaN?
  {
  }

  /** The buckets are the day groups of the rides. */
  lemma ActivityGroups(rides: seq<Ride>, host: Host)
    requires Activity(rides, host).Some?
    ensures var bs, gs := Activity(rides, host).value, GroupBy(rides, DayKeyOf(host));
      |bs| == |gs| && Partitions(rides, DayKeyOf(host), gs) &&
      forall i :: 0 <= i < |bs| ==>
        bs[i] == (gs[i].key, Fold(gs[i].members, Fin(0.0), AddDistance))
  {
    GroupByPartition(rides, DayKeyOf(host));
  }

  /** One bucket per day that some ride falls on, and every ride's day has one. */
  lemma ActivityDays(rides: seq<Ride>, host: Host)
    requires Activity(rides, host).Some?
    ensures var bs := Activity(rides, host).value;
      && (forall i, j :: 0 <= i < j < |bs| ==> bs[i].0 != bs[j].0)
      && (forall r :: r in rides ==> exists i :: 0 <= i < |bs| && bs[i].0 == DayKey(r, host))
      && (forall i :: 0 <= i < |bs| ==> |Matching(rides, DayKeyOf(host), bs[i].0)| > 0)
  {
    var key := DayKeyOf(host);
    var gs := GroupBy(rides, key);
    var bs := Activity(rides, host).value;
    ActivityGroups(rides, host);
    forall r | r in rides ensures exists i :: 0 <= i < |bs| && bs[i].0 == DayKey(r, host) {
      assert HasKey(gs, key(r));
    }
  }

  /** When no distance is NaN, a bucket is the sum of the distances of the rides on
      its day. */
  lemma ActivityBucket(rides: seq<Ride>, host: Host, i: nat)
    requires Activity(rides, host).Some? && i < |Activity(rides, host).value|
    requires forall r :: r in rides ==> Km(r).Fin?
    ensures var b := Activity(rides, host).value[i];
      b.1 == Fin(Sum(Matching(rides, DayKeyOf(host), b.0), KmOrZero))
  {
    var g := GroupBy(rides, DayKeyOf(host))[i];
    ActivityGroups(rides, host);
    MatchingMembers(rides, DayKeyOf(host), g.key);
    assert forall r :: r in g.members ==> Km(r).Fin?;
    FoldDistances(g.members, 0.0);
  }

  /** When no distance is NaN, the buckets add up to the total distance. */
  lemma ActivityTotal(rides: seq<Ride>, host: Host)
    requires Activity(rides, host).Some?
    requires forall r :: r in rides ==> Km(r).Fin?
    ensures Sum(Activity(rides, host).value, BucketKm) == Sum(rides, KmOrZero)
  {
    var gs := GroupBy(rides, DayKeyOf(host));
    var bs := Activity(rides, host).value;
    ActivityGroups(rides, host);
    forall i | 0 <= i < |gs| ensures BucketKm(bs[i]) == Sum(gs[i].members, KmOrZero) {
      ActivityBucket(rides, host, i);
    }
    SumOverGroups(gs, bs, BucketKm, KmOrZero);
    GroupBySum(rides, DayKeyOf(host), KmOrZero);
  }

  /** A ride without a timestamp is counted on 1970-01-01. */
  lemma NullTimestampOnEpoch(r: Ride, host: Host)
    requires r.timestamp == Null
    ensures TimestampDay(r, host) == Some(0) && DayKey(r, host) == 0
  {
  }

  // ---------------------------------------------------------------------
  // Years

  function YearOf(r: Ride): real
  {
    r.year
  }

  /** `(a, b) => b - a` as "a goes first". */
  function Newer(a: real, b: real): bool
  {
    a > b
  }

  /** `Array.from(new Set(rides.map(r => r.year))).sort((a, b) => b - a)`. */
  function Years(rides: seq<Ride>): seq<real>
  {
    SortBy(Dedup(seq(|rides|, i requires 0 <= i < |rides| => rides[i].year)), Newer)
  }

  /** The years are exactly the rides' years, each once, newest first. */
  lemma YearsDescending(rides: seq<Ride>)
    ensures forall y :: y in Years(rides) <==> exists r :: r in rides && r.year == y
    ensures forall i, j :: 0 <= i < j < |Years(rides)| ==> Years(rides)[i] > Years(rides)[j]
    ensures forall r :: r in rides ==> r.year in Years(rides)
    ensures |Years(rides)| > 0 <==> |rides| > 0
  {
    var ys := seq(|rides|, i requires 0 <= i < |rides| => rides[i].year);
    var d := Dedup(ys);
    var s := Years(rides);
    SortByPerm(d, Newer);
    SortBySorted(d, Newer, d);
    DistinctPerm(s, d);
    assert forall y :: y in s <==> y in d by {
      forall y ensures y in s <==> y in multiset(d) { }
    }
    forall y | y in s ensures exists r :: r in rides && r.year == y {
      var i :| 0 <= i < |d| && d[i] == y;
      var k :| 0 <= k < |ys| && ys[k] == y;
      assert rides[k] in rides;
    }
    forall r | r in rides ensures r.year in s {
      var k :| 0 <= k < |rides| && rides[k] == r;
      assert ys[k] == r.year;
    }
    if |rides| > 0 {
      assert rides[0].year in s;
    }
  }

  /** `setSelectedYear(prev => years.includes(prev) ? prev : years[0])`, run only
      when there is a year. */
  function SelectYear(prev: real, years: seq<real>): (y: real)
    ensures |years| > 0 ==> y in years
    ensures y == prev <==> |years| == 0 || prev in years || years[0] == prev
  {
    if |years| == 0 then prev else if prev in years then prev else years[0]
  }

  /** A selected year that has no rides gives way to the newest year with rides. */
  lemma SelectYearNewest(prev: real, rides: seq<Ride>)
    requires |rides| > 0
    ensures SelectYear(prev, Years(rides)) in Years(rides)
    ensures forall r :: r in rides ==> SelectYear(prev, Years(rides)) == prev || r.year <= SelectYear(prev, Years(rides))
  {
    YearsDescending(rides);
    var ys := Years(rides);
    forall r | r in rides ensures SelectYear(prev, ys) == prev || r.year <= SelectYear(prev, ys) {
      var i :| 0 <= i < |ys| && ys[i] == r.year;
      assert i == 0 || ys[0] > ys[i];
    }
  }
}
