/**
 * `CalendarViewModel`: the displayed month and its day grid, the dates with workouts, and the
 * sets of a chosen day, with adding and deleting sets.
 */
module CalendarScreen {
  import opened Collections
  import opened Calendar
  import opened Records
  import opened DataStore
  import opened DaySets
  import opened MonthGrid

  /** `isDateInCurrentMonth`: compares the month number only, not the year. */
  predicate IsDateInCurrentMonth(date: Date, currentDate: Date) {
    date.day.month == currentDate.day.month
  }

  /** The same month a year later still counts as the current month: the year is ignored. */
  lemma CurrentMonthIgnoresYear(date: Date, currentDate: Date)
    ensures IsDateInCurrentMonth(AddMonths(date, 12), currentDate) == IsDateInCurrentMonth(date, currentDate)
    ensures IsSameMonth(date, currentDate) ==> IsDateInCurrentMonth(date, currentDate)
    ensures AddMonths(currentDate, 12).day.year != currentDate.day.year && IsDateInCurrentMonth(AddMonths(currentDate, 12), currentDate)
  {
    MonthIndexUnique(AddMonths(date, 12).day.year, AddMonths(date, 12).day.month, date.day.year + 1, date.day.month);
    MonthIndexUnique(AddMonths(currentDate, 12).day.year, AddMonths(currentDate, 12).day.month, currentDate.day.year + 1, currentDate.day.month);
  }

  /** A year and a month are determined by the month count `year * 12 + month`. */
  lemma MonthIndexUnique(y1: int, m1: int, y2: int, m2: int)
    requires 1 <= m1 <= 12 && 1 <= m2 <= 12
    requires y1 * 12 + m1 == y2 * 12 + m2
    ensures y1 == y2 && m1 == m2
  {
  }

  /** One turn of the generator: it stops after `offset` exactly when the break condition holds there. */
  lemma CellsFromStep(y: int, m: int, offset: nat)
    requires 1 <= m <= 12 && offset < 42
    ensures StopsAfter(y, m, offset) ==> CellsFrom(y, m, offset) == offset + 1
    ensures !StopsAfter(y, m, offset) ==> CellsFrom(y, m, offset) == CellsFrom(y, m, offset + 1)
  {
  }

  /** Moving `v` months and back returns to the same month, so to the same grid. */
  lemma MoveMonthAndBack(d: Date, v: int)
    ensures IsSameMonth(AddMonths(AddMonths(d, v), -v), d)
    ensures Grid(AddMonths(AddMonths(d, v), -v).day.year, AddMonths(AddMonths(d, v), -v).day.month) == Grid(d.day.year, d.day.month)
  {
    var back := AddMonths(AddMonths(d, v), -v);
    MonthIndexUnique(back.day.year, back.day.month, d.day.year, d.day.month);
  }

  /**
   * The `for dayOffset in 0..<42` loop of `generateDaysInMonth`: appends the day `dayOffset` days
   * after `startDate`, and breaks after a Saturday outside `monthStart`'s month past offset 28.
   */
  method GridFrom(startDate: Day, monthStart: Date) returns (days: seq<Date>)
    requires startDate == GridStart(monthStart.day.year, monthStart.day.month)
    ensures days == Grid(monthStart.day.year, monthStart.day.month)
  {
    var y, m := monthStart.day.year, monthStart.day.month;
    days := [];
    var dayOffset := 0;
    while dayOffset < 42
      invariant 0 <= dayOffset <= 42
      invariant |days| == dayOffset && forall j :: 0 <= j < dayOffset ==> days[j] == Midnight(Cell(y, m, j))
      invariant CellsFrom(y, m, 0) == CellsFrom(y, m, dayOffset)
    {
      var date := Midnight(AddDays(startDate, dayOffset));
      days := days + [date];
      CellsFromStep(y, m, dayOffset);
      if date.day.month != monthStart.day.month && Weekday(date.day) == 7 && dayOffset > 28 {
        break;
      }
      dayOffset := dayOffset + 1;
    }
  }

  class CalendarViewModel {
    const store: CoreDataManager
    var currentDate: Date
    var days: seq<Date>
    var datesWithWorkouts: seq<Date>
    var workoutSets: seq<WorkoutSet>
    var showWorkoutForm: bool

    /** `init`: the month of `now` (the clock reading), with its grid generated. */
    constructor(store: CoreDataManager, now: Date)
      ensures this.store == store && currentDate == now
      ensures days == Grid(now.day.year, now.day.month)
      ensures datesWithWorkouts == [] && workoutSets == [] && !showWorkoutForm
    {
      this.store := store;
      currentDate := now;
      days := [];
      datesWithWorkouts := [];
      workoutSets := [];
      showWorkoutForm := false;
      new;
      GenerateDaysInMonth();
    }

    /**
     * `generateDaysInMonth`: appends a midnight per day from the grid's first Sunday, and breaks
     * after a Saturday outside the month past offset 28.
     */
    method GenerateDaysInMonth()
      modifies this
      ensures days == Grid(currentDate.day.year, currentDate.day.month)
      ensures currentDate == old(currentDate) && datesWithWorkouts == old(datesWithWorkouts)
      ensures workoutSets == old(workoutSets) && showWorkoutForm == old(showWorkoutForm)
    {
      days := [];
      var monthStart := StartOfMonth(currentDate);
      var y, m := monthStart.day.year, monthStart.day.month;
      var startDate := monthStart.day;
      var weekday := Weekday(startDate);
      if weekday > 1 {
        startDate := AddDays(startDate, -(weekday - 1));
      }
      days := GridFrom(startDate, monthStart);
    }

    /** `refreshDatesWithWorkouts`: the log dates of the displayed month. */
    method RefreshDatesWithWorkouts()
      modifies this
      ensures datesWithWorkouts == GetDatesWithWorkouts(store.logs, currentDate)
      ensures currentDate == old(currentDate) && days == old(days)
      ensures workoutSets == old(workoutSets) && showWorkoutForm == old(showWorkoutForm)
    {
      datesWithWorkouts := GetDatesWithWorkouts(store.logs, currentDate);
    }

    /** `moveMonth(by: v)`: `v` months on (the day clamped), then the grid and the dates are redone. */
    method MoveMonth(v: int)
      modifies this
      ensures currentDate == AddMonths(old(currentDate), v)
      ensures currentDate.day.year * 12 + currentDate.day.month == old(currentDate.day.year * 12 + currentDate.day.month) + v
      ensures days == Grid(currentDate.day.year, currentDate.day.month)
      ensures datesWithWorkouts == GetDatesWithWorkouts(store.logs, currentDate)
      ensures workoutSets == old(workoutSets) && showWorkoutForm == old(showWorkoutForm)
    {
      currentDate := AddMonths(currentDate, v);
      GenerateDaysInMonth();
      RefreshDatesWithWorkouts();
    }

    /** `loadWorkouts(for: d)`: `d`'s log's sets, highest id first, or nothing without a log. */
    method LoadWorkouts(d: Date)
      modifies this
      ensures workoutSets == SetsOfDay(store.sets, store.logs, d)
      ensures currentDate == old(currentDate) && days == old(days) && datesWithWorkouts == old(datesWithWorkouts)
      ensures showWorkoutForm == old(showWorkoutForm)
    {
      var workoutLog := GetWorkoutLog(store.logs, d);
      if workoutLog.Some? {
        workoutSets := SetsOfLog(store.sets, workoutLog.value.id);
      } else {
        workoutSets := [];
      }
    }

    /**
     * `addWorkoutSet(for: d, ...)`: `d`'s log is found or created, one set is attached to it, and
     * the day's list, which now shows it, and the month's dates are reloaded.
     */
    method AddWorkoutSet(d: Date, exercise: Id, weight: real, reps: int)
      requires store.Valid() && HasExercise(store.exercises, exercise)
      modifies this, store
      ensures store.Valid()
      ensures GetWorkoutLog(store.logs, d).Some?
      ensures old(GetWorkoutLog(store.logs, d)).Some? ==>
        store.logs == old(store.logs) && GetWorkoutLog(store.logs, d) == old(GetWorkoutLog(store.logs, d))
      ensures old(GetWorkoutLog(store.logs, d)).None? ==> store.logs == old(store.logs) + [WorkoutLog(old(store.nextId), d)]
      ensures store.sets == old(store.sets) + [WorkoutSet(store.nextId - 1, exercise, GetWorkoutLog(store.logs, d).value.id, weight, reps)]
      ensures store.exercises == old(store.exercises)
      ensures workoutSets == SetsOfDay(store.sets, store.logs, d)
      ensures store.sets[|store.sets| - 1] in workoutSets
      ensures datesWithWorkouts == GetDatesWithWorkouts(store.logs, currentDate)
      ensures currentDate == old(currentDate) && days == old(days) && showWorkoutForm == old(showWorkoutForm)
    {
      var s := AddSetOnDay(store, d, exercise, weight, reps);
      LoadWorkouts(d);
      RefreshDatesWithWorkouts();
    }

    /**
     * `deleteWorkoutSet(_:)`: a set whose log has a date is deleted and the lists are reloaded for
     * that date; its log stays, even when it has no set left. A set without a dated log is kept.
     */
    method DeleteWorkoutSet(s: WorkoutSet)
      requires store.Valid()
      modifies this, store
      ensures store.Valid()
      ensures store.logs == old(store.logs) && store.exercises == old(store.exercises)
      ensures LogDate(store.logs, s.log).None? ==>
        store.sets == old(store.sets) && workoutSets == old(workoutSets) && datesWithWorkouts == old(datesWithWorkouts)
      ensures LogDate(store.logs, s.log).Some? ==>
        && store.sets == Filter(old(store.sets), (x: WorkoutSet) => x.id != s.id)
        && workoutSets == SetsOfDay(store.sets, store.logs, LogDate(store.logs, s.log).value)
        && datesWithWorkouts == GetDatesWithWorkouts(store.logs, currentDate)
      ensures currentDate == old(currentDate) && days == old(days) && showWorkoutForm == old(showWorkoutForm)
    {
      var date := LogDate(store.logs, s.log);
      if date.Some? {
        store.DeleteSet(s.id);
        LoadWorkouts(date.value);
        RefreshDatesWithWorkouts();
      }
    }
  }
}
