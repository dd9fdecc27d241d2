/**
 * `StatisticsViewModel`: the exercises that have records, the per-day maximum-weight chart of one
 * exercise over a selectable period, the training days of the current month, and the last,
 * heaviest and average weight of an exercise.
 */
module Statistics {
  import opened Collections
  import opened Calendar
  import opened Records
  import opened DataStore

  // ---------------------------------------------------------------------------------------------
  // periods

  /** The selectable chart periods; the raw value is the number of months. */
  datatype StatisticsPeriod = Month | ThreeMonths | SixMonths | Year

  function RawValue(p: StatisticsPeriod): (n: int)
    ensures n > 0
  {
    match p
    case Month => 1
    case ThreeMonths => 3
    case SixMonths => 6
    case Year => 12
  }

  /** `StatisticsPeriod(rawValue:)`. */
  function FromRawValue(n: int): (r: Option<StatisticsPeriod>)
    ensures r.Some? ==> RawValue(r.value) == n
  {
    if n == 1 then Some(Month)
    else if n == 3 then Some(ThreeMonths)
    else if n == 6 then Some(SixMonths)
    else if n == 12 then Some(Year)
    else None
  }

  /** The periods are exactly 1, 3, 6 and 12 months, and the raw value identifies the period. */
  lemma PeriodsAreExactly(p: StatisticsPeriod, n: int)
    ensures FromRawValue(RawValue(p)) == Some(p)
    ensures FromRawValue(n).Some? <==> n in {1, 3, 6, 12}
  {
  }

  // ---------------------------------------------------------------------------------------------
  // exercises with records

  /** The exercise has at least one set (`exercise.workoutSets` is non-empty). */
  predicate HasSets(sets: seq<WorkoutSet>, e: Exercise) {
    exists i :: 0 <= i < |sets| && sets[i].exercise == e.id
  }

  /** `loadExercises`: the exercises with at least one set, in the order of `getAllExercises`. */
  function ExercisesWithSets(exercises: seq<Exercise>, sets: seq<WorkoutSet>): (r: seq<Exercise>)
    ensures forall e :: e in r <==> e in exercises && HasSets(sets, e)
    ensures IsSubsequence(r, GetAllExercises(exercises))
    ensures SortedBy(r, ByName)
  {
    var all := GetAllExercises(exercises);
    var r := Filter(all, (e: Exercise) => HasSets(sets, e));
    SameElements(all, exercises);
    SubsequenceKeepsOrder(r, all);
    r
  }

  lemma {:induction false} SubsequenceKeepsOrder(r: seq<Exercise>, s: seq<Exercise>)
    requires IsSubsequence(r, s) && SortedBy(s, ByName)
    ensures SortedBy(r, ByName)
    decreases |s|
  {
    if r != [] {
      if r[0] == s[0] && IsSubsequence(r[1..], s[1..]) {
        SubsequenceKeepsOrder(r[1..], s[1..]);
        SubsequenceMembers(r[1..], s[1..]);
        forall j | 0 < j < |r| ensures ByName(r[0], r[j]) {
          assert r[j] == r[1..][j - 1];
          assert r[j] in r[1..];
          var k :| 0 <= k < |s[1..]| && s[1..][k] == r[j];
          assert s[k + 1] == r[j];
        }
        forall i, j | 0 <= i < j < |r| ensures ByName(r[i], r[j]) {
          if i > 0 {
            assert r[i] == r[1..][i - 1] && r[j] == r[1..][j - 1];
          }
        }
      } else {
        SubsequenceKeepsOrder(r, s[1..]);
      }
    }
  }

  lemma {:induction false} SubsequenceMembers<T>(r: seq<T>, s: seq<T>)
    requires IsSubsequence(r, s)
    ensures forall x :: x in r ==> x in s
    decreases |s|
  {
    if r != [] {
      if r[0] == s[0] && IsSubsequence(r[1..], s[1..]) {
        SubsequenceMembers(r[1..], s[1..]);
        assert r == [r[0]] + r[1..];
        assert s == [s[0]] + s[1..];
      } else {
        SubsequenceMembers(r, s[1..]);
      }
    }
  }

  // ---------------------------------------------------------------------------------------------
  // the weight chart

  /** One point of the chart: a day (at midnight) and the heaviest weight logged that day. */
  datatype ChartEntry = ChartEntry(date: Date, weight: real)

  /** The set's log is dated on the day that starts at `k`. */
  predicate OnDay(logs: seq<WorkoutLog>, s: WorkoutSet, k: Date) {
    SetDay(logs, s) == Some(k)
  }

  /** `startOfDay` of the set's log date (`set.workoutLog?.date`), when it has a log. */
  function SetDay(logs: seq<WorkoutLog>, s: WorkoutSet): (r: Option<Date>)
    ensures r.Some? <==> LogDate(logs, s.log).Some?
  {
    match LogDate(logs, s.log)
    case None => None
    case Some(d) => Some(StartOfDay(d))
  }

  /**
   * The `weightByDate` loop of `loadChartData`: every day with a set maps to the heaviest weight
   * logged that day; a later set replaces the value only when it is strictly heavier.
   */
  method DailyMaxWeights(ws: seq<WorkoutSet>, logs: seq<WorkoutLog>) returns (weightByDate: map<Date, real>)
    ensures forall k :: k in weightByDate <==> exists i :: 0 <= i < |ws| && OnDay(logs, ws[i], k)
    ensures forall k, i :: k in weightByDate && 0 <= i < |ws| && OnDay(logs, ws[i], k) ==> ws[i].weight <= weightByDate[k]
    ensures forall k :: k in weightByDate ==> exists i :: 0 <= i < |ws| && OnDay(logs, ws[i], k) && ws[i].weight == weightByDate[k]
  {
    ghost var days := seq(|ws|, i requires 0 <= i < |ws| => SetDay(logs, ws[i]));
    weightByDate := map[];
    var n := 0;
    while n < |ws|
      invariant 0 <= n <= |ws|
      invariant DailyMaxUpTo(ws, days, n, weightByDate)
    {
      weightByDate := AddDailyWeight(ws, logs, days, n, weightByDate);
      n := n + 1;
    }
    DailyMaxDone(ws, logs, days, weightByDate);
  }

  /** One turn of the `weightByDate` loop: the set `ws[n]` is folded into the map. */
  method AddDailyWeight(ws: seq<WorkoutSet>, logs: seq<WorkoutLog>, ghost days: seq<Option<Date>>, n: nat, weightByDate: map<Date, real>)
    returns (m: map<Date, real>)
    requires n < |ws| == |days| && days[n] == SetDay(logs, ws[n])
    requires DailyMaxUpTo(ws, days, n, weightByDate)
    ensures DailyMaxUpTo(ws, days, n + 1, m)
  {
    var s := ws[n];
    m := weightByDate;
    match LogDate(logs, s.log) {
      case None =>
        StepWithoutDate(ws, days, n, m);
      case Some(date) =>
        var dateKey := StartOfDay(date);
        if dateKey in m && m[dateKey] >= s.weight {
          StepKeep(ws, days, n, m, dateKey);
        } else {
          StepReplace(ws, days, n, m, dateKey);
          m := m[dateKey := s.weight];
        }
    }
  }

  /**
   * The loop invariant of `DailyMaxWeights` after the first `n` sets, `days[i]` being the day of
   * the set `ws[i]`.
   */
  ghost predicate DailyMaxUpTo(ws: seq<WorkoutSet>, days: seq<Option<Date>>, n: nat, m: map<Date, real>)
    requires n <= |ws| == |days|
  {
    && (forall k :: k in m <==> exists i :: 0 <= i < n && days[i] == Some(k))
    && (forall k, i :: k in m && 0 <= i < n && days[i] == Some(k) ==> ws[i].weight <= m[k])
    && (forall k :: k in m ==> exists i :: 0 <= i < n && days[i] == Some(k) && ws[i].weight == m[k])
  }

  lemma DailyMaxDone(ws: seq<WorkoutSet>, logs: seq<WorkoutLog>, days: seq<Option<Date>>, m: map<Date, real>)
    requires |days| == |ws| && forall i :: 0 <= i < |ws| ==> days[i] == SetDay(logs, ws[i])
    requires DailyMaxUpTo(ws, days, |ws|, m)
    ensures forall k :: k in m <==> exists i :: 0 <= i < |ws| && OnDay(logs, ws[i], k)
    ensures forall k, i :: k in m && 0 <= i < |ws| && OnDay(logs, ws[i], k) ==> ws[i].weight <= m[k]
    ensures forall k :: k in m ==> exists i :: 0 <= i < |ws| && OnDay(logs, ws[i], k) && ws[i].weight == m[k]
  {
  }

  lemma StepWithoutDate(ws: seq<WorkoutSet>, days: seq<Option<Date>>, n: nat, m: map<Date, real>)
    requires n < |ws| == |days| && DailyMaxUpTo(ws, days, n, m) && days[n].None?
    ensures DailyMaxUpTo(ws, days, n + 1, m)
  {
  }

  lemma StepKeep(ws: seq<WorkoutSet>, days: seq<Option<Date>>, n: nat, m: map<Date, real>, key: Date)
    requires n < |ws| == |days| && DailyMaxUpTo(ws, days, n, m)
    requires days[n] == Some(key) && key in m && m[key] >= ws[n].weight
    ensures DailyMaxUpTo(ws, days, n + 1, m)
  {
  }

  lemma StepReplace(ws: seq<WorkoutSet>, days: seq<Option<Date>>, n: nat, m: map<Date, real>, key: Date)
    requires n < |ws| == |days| && DailyMaxUpTo(ws, days, n, m)
    requires days[n] == Some(key) && !(key in m && m[key] >= ws[n].weight)
    ensures DailyMaxUpTo(ws, days, n + 1, m[key := ws[n].weight])
  {
  }

  /** `weightByDate.map { ... }` before sorting: one entry per dictionary pair. */
  method Entries(weightByDate: map<Date, real>) returns (entries: seq<ChartEntry>)
    ensures forall e :: e in entries <==> e.date in weightByDate && weightByDate[e.date] == e.weight
    ensures forall i, j :: 0 <= i < j < |entries| ==> entries[i].date != entries[j].date
  {
    var keys := MapKeys(weightByDate);
    entries := [];
    var n := 0;
    while n < |keys|
      invariant 0 <= n <= |keys|
      invariant |entries| == n
      invariant forall i :: 0 <= i < n ==> entries[i] == ChartEntry(keys[i], weightByDate[keys[i]])
    {
      entries := entries + [ChartEntry(keys[n], weightByDate[keys[n]])];
      n := n + 1;
    }
    forall e ensures e in entries <==> e.date in weightByDate && weightByDate[e.date] == e.weight {
      if e.date in weightByDate && weightByDate[e.date] == e.weight {
        var i :| 0 <= i < |keys| && keys[i] == e.date;
        assert entries[i] == e;
      }
    }
  }

  /** The chart series: the entries sorted by date, strictly ascending since dates are distinct. */
  method ChartSeries(weightByDate: map<Date, real>) returns (chart: seq<ChartEntry>)
    ensures forall e :: e in chart <==> e.date in weightByDate && weightByDate[e.date] == e.weight
    ensures forall i, j :: 0 <= i < j < |chart| ==> Key(chart[i].date) < Key(chart[j].date)
  {
    var entries := Entries(weightByDate);
    var byDate := (e: ChartEntry) => Some(Key(e.date));
    chart := SortByKey(entries, byDate, true);
    SameElements(chart, entries);
    assert Distinct(entries);
    DistinctPreserved(entries, chart);
    forall i, j | 0 <= i < j < |chart| ensures Key(chart[i].date) < Key(chart[j].date) {
      assert OptionLe(byDate(chart[i]), byDate(chart[j]));
      KeyOrder(chart[i].date, chart[j].date);
    }
  }

  /**
   * `chart` is the per-day maximum of `ws`: each entry is the midnight of a day with a set and
   * holds the heaviest weight logged that day, every dated set's day has an entry, and the
   * entries are strictly ascending by date (so there is at most one per day).
   */
  ghost predicate IsDailyMaxChart(chart: seq<ChartEntry>, ws: seq<WorkoutSet>, logs: seq<WorkoutLog>) {
    EntriesAreDailyMaxima(chart, ws, logs) && EveryDayCharted(chart, ws, logs) && StrictlyByDate(chart)
  }

  ghost predicate EntriesAreDailyMaxima(chart: seq<ChartEntry>, ws: seq<WorkoutSet>, logs: seq<WorkoutLog>) {
    && (forall c :: c in chart ==> exists i :: 0 <= i < |ws| && OnDay(logs, ws[i], c.date) && ws[i].weight == c.weight)
    && (forall c, i :: c in chart && 0 <= i < |ws| && OnDay(logs, ws[i], c.date) ==> ws[i].weight <= c.weight)
  }

  ghost predicate EveryDayCharted(chart: seq<ChartEntry>, ws: seq<WorkoutSet>, logs: seq<WorkoutLog>) {
    forall i :: 0 <= i < |ws| && SetDay(logs, ws[i]).Some? ==> exists c :: c in chart && OnDay(logs, ws[i], c.date)
  }

  predicate StrictlyByDate(chart: seq<ChartEntry>) {
    forall i, j :: 0 <= i < j < |chart| ==> Key(chart[i].date) < Key(chart[j].date)
  }

  /** The body of `loadChartData` after the fetch: the dictionary pass, then the sorted series. */
  method BuildChart(ws: seq<WorkoutSet>, logs: seq<WorkoutLog>) returns (chart: seq<ChartEntry>)
    ensures IsDailyMaxChart(chart, ws, logs)
  {
    var weightByDate := DailyMaxWeights(ws, logs);
    chart := ChartSeries(weightByDate);
    forall i | 0 <= i < |ws| && SetDay(logs, ws[i]).Some? ensures exists c :: c in chart && OnDay(logs, ws[i], c.date) {
      var k := SetDay(logs, ws[i]).value;
      assert OnDay(logs, ws[i], k);
      assert ChartEntry(k, weightByDate[k]) in chart;
    }
  }

  /** The sets `loadChartData` reads: the exercise's sets dated in `[now − months, now]`. */
  function ChartWindow(sets: seq<WorkoutSet>, logs: seq<WorkoutLog>, e: Id, now: Date, months: int): (ws: seq<WorkoutSet>)
    ensures forall i :: 0 <= i < |ws| ==> LogDate(logs, ws[i].log).Some?
    ensures forall s :: s in ws <==> s in sets && InClosedRange(logs, s, e, AddMonths(now, -months), now)
  {
    var ws := GetWorkoutSets(sets, logs, e, AddMonths(now, -months), now);
    assert forall i :: 0 <= i < |ws| ==> ws[i] in ws;
    ws
  }

  // ---------------------------------------------------------------------------------------------
  // monthly training days

  /**
   * The dates of the logs in `today`'s month, filtered once more to the same month and year: the
   * number of logs in that month, so two logs on one day count twice.
   */
  function MonthlyTrainingDays(logs: seq<WorkoutLog>, today: Date): (n: nat)
    ensures n == |Filter(logs, InMonthOf(today))|
    ensures n == 0 <==> forall i :: 0 <= i < |logs| ==> !IsSameMonth(logs[i].date, today)
  {
    var first := StartOfMonth(today);
    var dates := GetDatesWithWorkouts(logs, first);
    var filtered := Filter(dates, (d: Date) => IsSameMonth(d, first));
    assert forall i :: 0 <= i < |logs| && IsSameMonth(logs[i].date, today) ==> logs[i].date in dates;
    FilterKeepsAll(dates, (d: Date) => IsSameMonth(d, first));
    DatesWithWorkoutsPerLog(logs, first);
    FilterSame(logs, InMonthOf(first), InMonthOf(today));
    assert filtered == [] || filtered[0] in dates;
    |filtered|
  }

  /** With one log per day, as find-or-create keeps it, the count is the number of distinct training days. */
  lemma MonthlyTrainingDaysAreDistinct(logs: seq<WorkoutLog>, today: Date)
    requires OneLogPerDay(logs)
    ensures var days := Map(Filter(logs, InMonthOf(today)), DateOf);
      MonthlyTrainingDays(logs, today) == |days| && forall i, j :: 0 <= i < j < |days| ==> days[i].day != days[j].day
  {
    DistinctDaysFiltered(logs, InMonthOf(today));
  }

  lemma {:induction false} DistinctDaysFiltered(logs: seq<WorkoutLog>, p: WorkoutLog -> bool)
    requires OneLogPerDay(logs)
    ensures OneLogPerDay(Filter(logs, p))
  {
    if logs != [] {
      DistinctDaysFiltered(logs[1..], p);
      var rest := Filter(logs[1..], p);
      if p(logs[0]) {
        forall j | 0 <= j < |rest| ensures logs[0].date.day != rest[j].date.day {
          var k :| 0 <= k < |logs[1..]| && logs[1..][k] == rest[j];
          assert logs[k + 1] == rest[j];
        }
        assert Filter(logs, p) == [logs[0]] + rest;
      }
    }
  }

  /** The second filter of `calculateMonthlyTrainingFrequency` removes nothing. */
  lemma MonthlyFilterIsRedundant(logs: seq<WorkoutLog>, today: Date)
    ensures MonthlyTrainingDays(logs, today) == |GetDatesWithWorkouts(logs, StartOfMonth(today))|
  {
    var first := StartOfMonth(today);
    FilterKeepsAll(GetDatesWithWorkouts(logs, first), (d: Date) => IsSameMonth(d, first));
  }

  // ---------------------------------------------------------------------------------------------
  // last, heaviest and average weight

  /** The weights of the exercise's sets, in fetch order. */
  function WeightsOf(sets: seq<WorkoutSet>, e: Id): (w: seq<real>)
    ensures |w| == 0 <==> forall i :: 0 <= i < |sets| ==> sets[i].exercise != e
    ensures forall x :: x in w <==> exists i :: 0 <= i < |sets| && sets[i].exercise == e && sets[i].weight == x
  {
    var mine := Filter(sets, (s: WorkoutSet) => s.exercise == e);
    assert forall i :: 0 <= i < |sets| && sets[i].exercise == e ==> sets[i] in mine;
    Map(mine, (s: WorkoutSet) => s.weight)
  }

  /** `getLastWeightForExercise`: the weight of the latest set, or 0 when there is none. */
  function GetLastWeight(sets: seq<WorkoutSet>, logs: seq<WorkoutLog>, e: Id): (r: real)
    ensures (forall i :: 0 <= i < |sets| ==> sets[i].exercise != e) ==> r == 0.0
    ensures (exists i :: 0 <= i < |sets| && sets[i].exercise == e) ==>
      exists s :: s in sets && s.exercise == e && s.weight == r
        && forall i :: 0 <= i < |sets| && sets[i].exercise == e ==> OptionLe(SetTime(logs, sets[i]), SetTime(logs, s))
  {
    match GetLastWorkoutSet(sets, logs, e)
    case None => 0.0
    case Some(s) => s.weight
  }

  /** `getMaxWeightForExercise`: the heaviest set's weight, or 0 when there is none. */
  function GetMaxWeight(sets: seq<WorkoutSet>, e: Id): (r: real)
    ensures (forall i :: 0 <= i < |sets| ==> sets[i].exercise != e) ==> r == 0.0
    ensures (exists i :: 0 <= i < |sets| && sets[i].exercise == e) ==>
      (exists i :: 0 <= i < |sets| && sets[i].exercise == e && sets[i].weight == r)
      && forall i :: 0 <= i < |sets| && sets[i].exercise == e ==> sets[i].weight <= r
  {
    var w := WeightsOf(sets, e);
    if w == [] then 0.0
    else
      var m := MaxReal(w);
      assert forall i :: 0 <= i < |sets| && sets[i].exercise == e ==> sets[i].weight in w;
      m
  }

  /** `getAverageWeightForExercise`: total weight over the number of sets, or 0 when there is none. */
  function GetAverageWeight(sets: seq<WorkoutSet>, e: Id): (r: real)
    ensures (forall i :: 0 <= i < |sets| ==> sets[i].exercise != e) ==> r == 0.0
  {
    var w := WeightsOf(sets, e);
    if w == [] then 0.0 else SumReal(w) / (|w| as real)
  }

  /** The average lies between the lightest and the heaviest set. */
  lemma AverageIsBetweenExtremes(sets: seq<WorkoutSet>, e: Id)
    requires exists i :: 0 <= i < |sets| && sets[i].exercise == e
    ensures MinReal(WeightsOf(sets, e)) <= GetAverageWeight(sets, e) <= GetMaxWeight(sets, e)
  {
    var w := WeightsOf(sets, e);
    MeanBetween(w, MinReal(w), MaxReal(w));
    assert GetAverageWeight(sets, e) == SumReal(w) / (|w| as real);
    assert GetMaxWeight(sets, e) == MaxReal(w);
  }

  // ---------------------------------------------------------------------------------------------
  // the view-model

  class StatisticsViewModel {
    const store: CoreDataManager
    var exercises: seq<Exercise>
    var chartData: seq<ChartEntry>
    var monthlyTrainingDays: nat
    var selectedPeriod: StatisticsPeriod

    constructor(store: CoreDataManager)
      ensures this.store == store
      ensures exercises == [] && chartData == [] && monthlyTrainingDays == 0 && selectedPeriod == Month
    {
      this.store := store;
      exercises := [];
      chartData := [];
      monthlyTrainingDays := 0;
      selectedPeriod := Month;
    }

    /** `loadExercises`. */
    method LoadExercises()
      modifies this
      ensures exercises == ExercisesWithSets(store.exercises, store.sets)
      ensures chartData == old(chartData) && monthlyTrainingDays == old(monthlyTrainingDays)
      ensures selectedPeriod == old(selectedPeriod)
    {
      exercises := ExercisesWithSets(store.exercises, store.sets);
    }

    /**
     * `loadChartData(for: e)` at the instant `now`: one entry per day with a set of `e` in
     * `[now − period, now]`, at that day's midnight, holding the day's heaviest weight, by date.
     */
    method LoadChartData(e: Exercise, now: Date)
      modifies this
      ensures IsDailyMaxChart(chartData, ChartWindow(store.sets, store.logs, e.id, now, RawValue(selectedPeriod)), store.logs)
      ensures exercises == old(exercises) && monthlyTrainingDays == old(monthlyTrainingDays)
      ensures selectedPeriod == old(selectedPeriod)
    {
      var ws := ChartWindow(store.sets, store.logs, e.id, now, RawValue(selectedPeriod));
      chartData := BuildChart(ws, store.logs);
    }

    /** `calculateMonthlyTrainingFrequency` on the day `today`. */
    method CalculateMonthlyTrainingFrequency(today: Date)
      modifies this
      ensures monthlyTrainingDays == MonthlyTrainingDays(store.logs, today)
      ensures monthlyTrainingDays == |Filter(store.logs, InMonthOf(today))|
      ensures exercises == old(exercises) && chartData == old(chartData) && selectedPeriod == old(selectedPeriod)
    {
      monthlyTrainingDays := MonthlyTrainingDays(store.logs, today);
    }

    /** `getChartDataForExercise`: loads the chart only when none is held yet. */
    method GetChartDataForExercise(e: Exercise, now: Date) returns (chart: seq<ChartEntry>)
      modifies this
      ensures chart == chartData
      ensures old(chartData) != [] ==> chartData == old(chartData)
      ensures old(chartData) == [] ==>
        IsDailyMaxChart(chartData, ChartWindow(store.sets, store.logs, e.id, now, RawValue(selectedPeriod)), store.logs)
      ensures exercises == old(exercises) && monthlyTrainingDays == old(monthlyTrainingDays)
      ensures selectedPeriod == old(selectedPeriod)
    {
      if chartData == [] {
        LoadChartData(e, now);
      }
      chart := chartData;
    }
  }
}
