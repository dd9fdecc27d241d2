/**
 * `CoreDataManager`: the app's single store of exercises, workout logs and sets. The persistent
 * context becomes three sequences in fetch order; queries are functions of them, and the
 * operations that insert or change records are methods of the store.
 */
module DataStore {
  import opened Collections
  import opened Calendar
  import opened Records

  // ---------------------------------------------------------------------------------------------
  // exercise queries

  /** `getAllExercises`: every exercise, sorted by name ascending. */
  function GetAllExercises(exercises: seq<Exercise>): (r: seq<Exercise>)
    ensures multiset(r) == multiset(exercises)
    ensures SortedBy(r, ByName)
  {
    ByNameIsTotalPreorder();
    SortBy(exercises, ByName)
  }

  /** `getFavoriteExercises`: exactly the favourite exercises, sorted by name ascending. */
  function GetFavoriteExercises(exercises: seq<Exercise>): (r: seq<Exercise>)
    ensures multiset(r) == multiset(Filter(exercises, IsFavorite))
    ensures forall e :: e in r <==> e in exercises && e.isFavorite
    ensures SortedBy(r, ByName)
  {
    ByNameIsTotalPreorder();
    var favorites := Filter(exercises, IsFavorite);
    var r := SortBy(favorites, ByName);
    assert forall e :: e in r <==> e in favorites by {
      forall e ensures e in r <==> e in favorites {
        assert e in r <==> e in multiset(r);
        assert e in favorites <==> e in multiset(favorites);
      }
    }
    r
  }

  function ExerciseName(e: Exercise): string {
    e.name
  }

  /**
   * The names of the default exercises, in fetch order: the fetch on `isDefault == true` mapped to
   * the names (`name ?? ""` never applies here).
   */
  function DefaultNames(exercises: seq<Exercise>): (r: seq<string>)
    ensures forall i :: 0 <= i < |exercises| && exercises[i].isDefault ==> exercises[i].name in r
    ensures forall k :: 0 <= k < |r| ==> exists e :: e in exercises && e.isDefault && e.name == r[k]
  {
    var defaults := Filter(exercises, IsDefault);
    var r := Map(defaults, ExerciseName);
    assert forall i :: 0 <= i < |exercises| && exercises[i].isDefault ==> exercises[i].name in r by {
      forall i | 0 <= i < |exercises| && exercises[i].isDefault ensures exercises[i].name in r {
        assert IsDefault(exercises[i]);
        var j :| 0 <= j < |defaults| && defaults[j] == exercises[i];
        assert r[j] == exercises[i].name;
      }
    }
    assert forall k :: 0 <= k < |r| ==> defaults[k] in exercises && IsDefault(defaults[k]) && r[k] == defaults[k].name;
    r
  }

  /** The catalogue names that no default exercise holds yet, in catalogue order. */
  function MissingDefaults(catalogue: seq<string>, existing: seq<string>): (r: seq<string>)
    ensures forall n :: n in r <==> n in catalogue && n !in existing
  {
    if catalogue == [] then []
    else
      var rest := MissingDefaults(catalogue[1..], existing);
      assert forall n :: n in catalogue <==> n == catalogue[0] || n in catalogue[1..];
      if catalogue[0] in existing then rest else [catalogue[0]] + rest
  }

  /** The default exercises seeding inserts, numbered from `firstId`. */
  function Seeded(firstId: Id, names: seq<string>): (r: seq<Exercise>)
    ensures |r| == |names|
    ensures forall k :: 0 <= k < |r| ==> r[k] == Exercise(firstId + k, names[k], true, false)
  {
    seq(|names|, k requires 0 <= k < |names| => Exercise(firstId + k, names[k], true, false))
  }

  lemma DefaultNamesAppend(a: seq<Exercise>, b: seq<Exercise>)
    ensures DefaultNames(a + b) == DefaultNames(a) + DefaultNames(b)
  {
    FilterAppend(a, b, IsDefault);
    var fa, fb := Filter(a, IsDefault), Filter(b, IsDefault);
    assert Map(fa + fb, ExerciseName) == Map(fa, ExerciseName) + Map(fb, ExerciseName);
  }

  lemma DefaultNamesOfSeeded(firstId: Id, names: seq<string>)
    ensures DefaultNames(Seeded(firstId, names)) == names
  {
    var seeded := Seeded(firstId, names);
    FilterKeepsAll(seeded, IsDefault);
    assert Map(seeded, ExerciseName) == names;
  }

  /**
   * Seeding is idempotent: once seeding has inserted the missing names, a second run finds every
   * catalogue name among the default exercises and inserts nothing.
   */
  lemma SeedingIdempotent(exercises: seq<Exercise>, catalogue: seq<string>, firstId: Id)
    ensures var after := exercises + Seeded(firstId, MissingDefaults(catalogue, DefaultNames(exercises)));
      MissingDefaults(catalogue, DefaultNames(after)) == []
  {
    var missing := MissingDefaults(catalogue, DefaultNames(exercises));
    var after := exercises + Seeded(firstId, missing);
    DefaultNamesAppend(exercises, Seeded(firstId, missing));
    DefaultNamesOfSeeded(firstId, missing);
    assert DefaultNames(after) == DefaultNames(exercises) + missing;
    NothingMissing(catalogue, DefaultNames(after));
  }

  lemma {:induction false} NothingMissing(catalogue: seq<string>, existing: seq<string>)
    requires forall n :: n in catalogue ==> n in existing
    ensures MissingDefaults(catalogue, existing) == []
  {
    if catalogue != [] {
      assert catalogue[0] in catalogue;
      NothingMissing(catalogue[1..], existing);
    }
  }

  // ---------------------------------------------------------------------------------------------
  // log queries

  /** The fetch predicate of `getWorkoutLog(for: d)`: `[startOfDay(d), startOfDay(d) + 1 day)`. */
  predicate InDayWindow(date: Date, d: Date) {
    Key(StartOfDay(d)) <= Key(date) < Key(Midnight(NextDay(d.day)))
  }

  /** The position of the first log in `d`'s day window, or `|logs|`. */
  function FirstLogOfDay(logs: seq<WorkoutLog>, d: Date): (k: nat)
    ensures k <= |logs|
    ensures k < |logs| ==> logs[k].date.day == d.day
    ensures forall j :: 0 <= j < k ==> logs[j].date.day != d.day
  {
    if logs == [] then 0
    else
      DayWindow(d, logs[0].date);
      if InDayWindow(logs[0].date, d) then 0 else 1 + FirstLogOfDay(logs[1..], d)
  }

  /** `getWorkoutLog(for: d)`: the first log dated on `d`'s day, or nil when there is none. */
  function GetWorkoutLog(logs: seq<WorkoutLog>, d: Date): (r: Option<WorkoutLog>)
    ensures r.None? <==> forall i :: 0 <= i < |logs| ==> logs[i].date.day != d.day
    ensures r.Some? ==> r.value in logs && r.value.date.day == d.day
  {
    var k := FirstLogOfDay(logs, d);
    if k < |logs| then Some(logs[k]) else None
  }

  /** A log appended on a day with no log becomes that day's log. */
  lemma {:induction false} GetWorkoutLogAfterCreate(logs: seq<WorkoutLog>, log: WorkoutLog, d: Date)
    requires GetWorkoutLog(logs, d).None? && log.date.day == d.day
    ensures GetWorkoutLog(logs + [log], d) == Some(log)
  {
    FirstLogAfterAppend(logs, log, d);
  }

  /** Appending a log never changes the answer for a day that already has one. */
  lemma {:induction false} GetWorkoutLogStable(logs: seq<WorkoutLog>, log: WorkoutLog, d: Date)
    requires GetWorkoutLog(logs, d).Some?
    ensures GetWorkoutLog(logs + [log], d) == GetWorkoutLog(logs, d)
  {
    FirstLogAfterAppend(logs, log, d);
  }

  lemma {:induction false} FirstLogAfterAppend(logs: seq<WorkoutLog>, log: WorkoutLog, d: Date)
    ensures FirstLogOfDay(logs, d) < |logs| ==> FirstLogOfDay(logs + [log], d) == FirstLogOfDay(logs, d)
    ensures FirstLogOfDay(logs, d) == |logs| && log.date.day == d.day ==> FirstLogOfDay(logs + [log], d) == |logs|
  {
    if logs == [] {
      DayWindow(d, log.date);
    } else {
      assert (logs + [log])[1..] == logs[1..] + [log];
      DayWindow(d, logs[0].date);
      FirstLogAfterAppend(logs[1..], log, d);
    }
  }

  /** No two logs share a calendar day: what find-or-create keeps true. */
  predicate OneLogPerDay(logs: seq<WorkoutLog>) {
    forall i, j :: 0 <= i < j < |logs| ==> logs[i].date.day != logs[j].date.day
  }

  /** The fetch predicate of `getDatesWithWorkouts(in: m)`: `[first of m's month, first of the next)`. */
  predicate InMonthWindow(date: Date, m: Date) {
    Key(StartOfMonth(m)) <= Key(date) < Key(AddMonths(StartOfMonth(m), 1))
  }

  /** `getDatesWithWorkouts(in: m)`: the dates of exactly the logs in `m`'s month, in fetch order. */
  /** Whether a log falls in `m`'s month, as a function value. */
  function InMonthOf(m: Date): WorkoutLog -> bool {
    (log: WorkoutLog) => IsSameMonth(log.date, m)
  }

  function GetDatesWithWorkouts(logs: seq<WorkoutLog>, m: Date): (r: seq<Date>)
    ensures |r| <= |logs|
    ensures forall x :: x in r <==> (exists i :: 0 <= i < |logs| && logs[i].date == x) && IsSameMonth(x, m)
  {
    if logs == [] then []
    else
      MonthWindow(m, logs[0].date);
      var rest := GetDatesWithWorkouts(logs[1..], m);
      assert forall i :: 1 <= i < |logs| ==> logs[i] == logs[1..][i - 1];
      if InMonthWindow(logs[0].date, m) then [logs[0].date] + rest else rest
  }

  /** One date per log in `m`'s month, in fetch order: a day with two logs is listed twice. */
  lemma {:induction false} DatesWithWorkoutsPerLog(logs: seq<WorkoutLog>, m: Date)
    ensures GetDatesWithWorkouts(logs, m) == Map(Filter(logs, InMonthOf(m)), DateOf)
  {
    if logs != [] {
      MonthWindow(m, logs[0].date);
      DatesWithWorkoutsPerLog(logs[1..], m);
    }
  }

  // ---------------------------------------------------------------------------------------------
  // set queries

  /** `getLastWorkoutSet(for: e)`: a set of `e` whose log is the latest, or nil when `e` has none. */
  function GetLastWorkoutSet(sets: seq<WorkoutSet>, logs: seq<WorkoutLog>, e: Id): (r: Option<WorkoutSet>)
    ensures r.None? <==> forall i :: 0 <= i < |sets| ==> sets[i].exercise != e
    ensures r.Some? ==> r.value in sets && r.value.exercise == e
    ensures r.Some? ==> forall i :: 0 <= i < |sets| && sets[i].exercise == e ==>
      OptionLe(SetTime(logs, sets[i]), SetTime(logs, r.value))
  {
    var mine := Filter(sets, (s: WorkoutSet) => s.exercise == e);
    var key := (s: WorkoutSet) => SetTime(logs, s);
    var sorted := SortByKey(mine, key, false);
    SameElements(sorted, mine);
    if sorted == [] then None
    else
      FirstIsGreatest(sorted, key);
      Some(sorted[0])
  }

  /** The fetch predicate of `getWorkoutSets`: a set of `e` whose log date lies in `[start, end]`. */
  predicate InClosedRange(logs: seq<WorkoutLog>, s: WorkoutSet, e: Id, start: Date, end: Date) {
    s.exercise == e
    && match LogDate(logs, s.log)
       case None => false
       case Some(d) => Key(start) <= Key(d) <= Key(end)
  }

  /** `getWorkoutSets(for: e, between: start, and: end)`: `e`'s sets dated in `[start, end]`, oldest first. */
  function GetWorkoutSets(sets: seq<WorkoutSet>, logs: seq<WorkoutLog>, e: Id, start: Date, end: Date): (r: seq<WorkoutSet>)
    ensures multiset(r) == multiset(Filter(sets, (s: WorkoutSet) => InClosedRange(logs, s, e, start, end)))
    ensures forall s :: s in r <==> s in sets && InClosedRange(logs, s, e, start, end)
    ensures forall s :: s in r ==> SetTime(logs, s).Some?
    ensures forall i, j :: 0 <= i < j < |r| ==> OptionLe(SetTime(logs, r[i]), SetTime(logs, r[j]))
  {
    var chosen := Filter(sets, (s: WorkoutSet) => InClosedRange(logs, s, e, start, end));
    var r := SortByKey(chosen, (s: WorkoutSet) => SetTime(logs, s), true);
    SameElements(r, chosen);
    r
  }

  // ---------------------------------------------------------------------------------------------
  // the store

  class CoreDataManager {
    var exercises: seq<Exercise>
    var logs: seq<WorkoutLog>
    var sets: seq<WorkoutSet>
    /** The next fresh id; every stored record's id lies below it. */
    var nextId: Id

    /** Ids are unique and issued, and every set's exercise and log exist. */
    ghost predicate Valid()
      reads this
    {
      UniqueExerciseIds(exercises) && UniqueLogIds(logs) && UniqueSetIds(sets)
      && (forall i :: 0 <= i < |exercises| ==> exercises[i].id < nextId)
      && (forall i :: 0 <= i < |logs| ==> logs[i].id < nextId)
      && (forall i :: 0 <= i < |sets| ==> sets[i].id < nextId)
      && (forall i :: 0 <= i < |sets| ==> HasExercise(exercises, sets[i].exercise) && HasLog(logs, sets[i].log))
    }

    constructor()
      ensures Valid()
      ensures exercises == [] && logs == [] && sets == []
    {
      exercises, logs, sets := [], [], [];
      nextId := 0;
    }

    /** `Exercise(context:)` with a fresh id and the given attributes. */
    method InsertExercise(name: string, isDefault: bool, isFavorite: bool) returns (e: Exercise)
      requires Valid()
      modifies this
      ensures Valid()
      ensures e == Exercise(old(nextId), name, isDefault, isFavorite)
      ensures exercises == old(exercises) + [e] && nextId == old(nextId) + 1
      ensures logs == old(logs) && sets == old(sets)
    {
      e := Exercise(nextId, name, isDefault, isFavorite);
      ExerciseAppended(exercises, e);
      exercises := exercises + [e];
      nextId := nextId + 1;
    }

    /**
     * `createDefaultExercises`: inserts, in catalogue order, every catalogue name not already held
     * by a default exercise, as a default, non-favourite exercise.
     */
    method CreateDefaultExercises(catalogue: seq<string>)
      requires Valid()
      modifies this
      ensures Valid()
      ensures exercises == old(exercises) + Seeded(old(nextId), MissingDefaults(catalogue, DefaultNames(old(exercises))))
      ensures forall n :: n in catalogue ==> n in DefaultNames(exercises)
      ensures logs == old(logs) && sets == old(sets)
    {
      var existingNames := DefaultNames(exercises);
      ghost var before, firstId := exercises, nextId;
      assert exercises == before + Seeded(firstId, []);
      InsertMissing(catalogue, existingNames, before, firstId, logs, sets);
      var missing := MissingDefaults(catalogue, existingNames);
      DefaultNamesAppend(before, Seeded(firstId, missing));
      DefaultNamesOfSeeded(firstId, missing);
    }

    /** The loop of `createDefaultExercises`: each catalogue name not in `existingNames`, in order. */
    method InsertMissing(catalogue: seq<string>, existingNames: seq<string>, ghost before: seq<Exercise>, ghost firstId: Id,
                         ghost logs0: seq<WorkoutLog>, ghost sets0: seq<WorkoutSet>)
      requires SeededSoFar(before, firstId, logs0, sets0, [])
      modifies this
      ensures SeededSoFar(before, firstId, logs0, sets0, MissingDefaults(catalogue, existingNames))
    {
      var i := 0;
      while i < |catalogue|
        invariant 0 <= i <= |catalogue|
        invariant SeededSoFar(before, firstId, logs0, sets0, MissingDefaults(catalogue[..i], existingNames))
      {
        MissingDefaultsStep(catalogue, i, existingNames);
        if catalogue[i] !in existingNames {
          SeedOne(before, firstId, logs0, sets0, MissingDefaults(catalogue[..i], existingNames), catalogue[i]);
        }
        i := i + 1;
      }
      assert catalogue[..|catalogue|] == catalogue;
    }

    /** The store after seeding inserted `names` into `before`, from id `firstId` on. */
    ghost predicate SeededSoFar(before: seq<Exercise>, firstId: Id, logs0: seq<WorkoutLog>, sets0: seq<WorkoutSet>, names: seq<string>)
      reads this
    {
      Valid() && logs == logs0 && sets == sets0
      && nextId == firstId + |names| && exercises == before + Seeded(firstId, names)
    }

    /** One insertion of the seeding loop. */
    method SeedOne(ghost before: seq<Exercise>, ghost firstId: Id, ghost logs0: seq<WorkoutLog>, ghost sets0: seq<WorkoutSet>,
                   ghost names: seq<string>, name: string)
      requires SeededSoFar(before, firstId, logs0, sets0, names)
      modifies this
      ensures SeededSoFar(before, firstId, logs0, sets0, names + [name])
    {
      var e := InsertExercise(name, true, false);
      SeededSnoc(firstId, names, name);
    }

    /** `toggleFavorite(exercise:)`: negates that exercise's favourite flag and returns the new value. */
    method ToggleFavorite(id: Id) returns (isFavorite: bool)
      requires Valid() && HasExercise(exercises, id)
      modifies this
      ensures Valid()
      ensures var k := FindExercise(old(exercises), id).value;
        && exercises == old(exercises)[k := old(exercises)[k].(isFavorite := !old(exercises)[k].isFavorite)]
        && isFavorite == exercises[k].isFavorite
      ensures logs == old(logs) && sets == old(sets) && nextId == old(nextId)
    {
      var k := FindExercise(exercises, id).value;
      var e := exercises[k];
      var flipped := e.(isFavorite := !e.isFavorite);
      ExerciseReplaced(exercises, k, flipped);
      exercises := exercises[k := flipped];
      isFavorite := flipped.isFavorite;
    }

    /** `createWorkoutLog(for: d)`: a new log stamped with `d` itself, not the start of its day. */
    method CreateWorkoutLog(d: Date) returns (log: WorkoutLog)
      requires Valid()
      modifies this
      ensures Valid()
      ensures log == WorkoutLog(old(nextId), d)
      ensures logs == old(logs) + [log] && nextId == old(nextId) + 1
      ensures exercises == old(exercises) && sets == old(sets)
    {
      log := WorkoutLog(nextId, d);
      LogAppended(logs, sets, log);
      logs := logs + [log];
      nextId := nextId + 1;
    }

    /**
     * `getOrCreateWorkoutLog(for: d)`: the day's existing log, or a new one when the day has none;
     * afterwards the day's log is the one returned.
     */
    method GetOrCreateWorkoutLog(d: Date) returns (log: WorkoutLog)
      requires Valid()
      modifies this
      ensures Valid()
      ensures GetWorkoutLog(logs, d) == Some(log) && log.date.day == d.day
      ensures old(GetWorkoutLog(logs, d)).Some? ==> log == old(GetWorkoutLog(logs, d)).value && logs == old(logs) && nextId == old(nextId)
      ensures old(GetWorkoutLog(logs, d)).None? ==> log == WorkoutLog(old(nextId), d) && logs == old(logs) + [log]
      ensures OneLogPerDay(old(logs)) ==> OneLogPerDay(logs)
      ensures exercises == old(exercises) && sets == old(sets)
    {
      var existing := GetWorkoutLog(logs, d);
      if existing.Some? {
        log := existing.value;
      } else {
        GetWorkoutLogAfterCreate(logs, WorkoutLog(nextId, d), d);
        log := CreateWorkoutLog(d);
      }
    }

    /** `addWorkoutSet(to:exercise:weight:reps:)`: one new set; the existing sets are untouched. */
    method AddWorkoutSet(log: Id, exercise: Id, weight: real, reps: int) returns (s: WorkoutSet)
      requires Valid() && HasLog(logs, log) && HasExercise(exercises, exercise)
      modifies this
      ensures Valid()
      ensures s == WorkoutSet(old(nextId), exercise, log, weight, reps)
      ensures sets == old(sets) + [s] && nextId == old(nextId) + 1
      ensures exercises == old(exercises) && logs == old(logs)
    {
      s := WorkoutSet(nextId, exercise, log, weight, reps);
      sets := sets + [s];
      nextId := nextId + 1;
    }

    /** `viewContext.delete(set)`: removes the set with this id. */
    method DeleteSet(id: Id)
      requires Valid()
      modifies this
      ensures Valid()
      ensures sets == Filter(old(sets), (s: WorkoutSet) => s.id != id)
      ensures exercises == old(exercises) && logs == old(logs) && nextId == old(nextId)
    {
      sets := Filter(sets, (s: WorkoutSet) => s.id != id);
      FilterKeepsUniqueSets(old(sets), id);
    }

    /** `viewContext.delete(exercise)` for an exercise no set refers to. */
    method DeleteExercise(id: Id)
      requires Valid()
      requires forall i :: 0 <= i < |sets| ==> sets[i].exercise != id
      modifies this
      ensures Valid()
      ensures exercises == Filter(old(exercises), (e: Exercise) => e.id != id)
      ensures logs == old(logs) && sets == old(sets) && nextId == old(nextId)
    {
      var kept := Filter(exercises, (e: Exercise) => e.id != id);
      FilterKeepsUniqueExercises(exercises, id);
      assert forall i :: 0 <= i < |sets| ==> HasExercise(kept, sets[i].exercise) by {
        forall i | 0 <= i < |sets| ensures HasExercise(kept, sets[i].exercise) {
          var j :| 0 <= j < |exercises| && exercises[j].id == sets[i].exercise;
          assert exercises[j] in kept;
        }
      }
      exercises := kept;
    }

    /** The batch delete of every set. */
    method DeleteAllSets()
      requires Valid()
      modifies this
      ensures Valid()
      ensures sets == [] && exercises == old(exercises) && logs == old(logs) && nextId == old(nextId)
    {
      sets := [];
    }

    /** The batch delete of every log, once no set is left. */
    method DeleteAllLogs()
      requires Valid() && sets == []
      modifies this
      ensures Valid()
      ensures logs == [] && sets == [] && exercises == old(exercises) && nextId == old(nextId)
    {
      logs := [];
    }
  }

  // ---------------------------------------------------------------------------------------------
  // helpers for the store invariant

  lemma MissingDefaultsStep(catalogue: seq<string>, i: nat, existing: seq<string>)
    requires i < |catalogue|
    ensures MissingDefaults(catalogue[..i + 1], existing)
         == MissingDefaults(catalogue[..i], existing) + (if catalogue[i] in existing then [] else [catalogue[i]])
  {
    assert catalogue[..i + 1] == catalogue[..i] + [catalogue[i]];
    MissingDefaultsSnoc(catalogue[..i], catalogue[i], existing);
  }

  lemma SeededSnoc(firstId: Id, names: seq<string>, name: string)
    ensures Seeded(firstId, names + [name]) == Seeded(firstId, names) + [Exercise(firstId + |names|, name, true, false)]
  {
  }

  lemma {:induction false} MissingDefaultsSnoc(names: seq<string>, n: string, existing: seq<string>)
    ensures MissingDefaults(names + [n], existing) == MissingDefaults(names, existing) + (if n in existing then [] else [n])
  {
    if names == [] {
      assert names + [n] == [n];
      assert [n][1..] == [];
    } else {
      var longer := names + [n];
      assert longer[0] == names[0] && longer[1..] == names[1..] + [n];
      MissingDefaultsSnoc(names[1..], n, existing);
    }
  }

  lemma ExerciseAppended(exercises: seq<Exercise>, e: Exercise)
    ensures forall id :: HasExercise(exercises, id) ==> HasExercise(exercises + [e], id)
  {
    forall id | HasExercise(exercises, id) ensures HasExercise(exercises + [e], id) {
      var i :| 0 <= i < |exercises| && exercises[i].id == id;
      assert (exercises + [e])[i] == exercises[i];
    }
  }

  lemma LogAppended(logs: seq<WorkoutLog>, sets: seq<WorkoutSet>, log: WorkoutLog)
    ensures forall id :: HasLog(logs, id) ==> HasLog(logs + [log], id)
  {
    forall id | HasLog(logs, id) ensures HasLog(logs + [log], id) {
      var i :| 0 <= i < |logs| && logs[i].id == id;
      assert (logs + [log])[i] == logs[i];
    }
  }

  lemma ExerciseReplaced(exercises: seq<Exercise>, k: nat, e: Exercise)
    requires k < |exercises| && e.id == exercises[k].id
    ensures forall id :: HasExercise(exercises, id) ==> HasExercise(exercises[k := e], id)
  {
    forall id | HasExercise(exercises, id) ensures HasExercise(exercises[k := e], id) {
      var i :| 0 <= i < |exercises| && exercises[i].id == id;
      assert exercises[k := e][i].id == id;
    }
  }

  lemma {:induction false} FilterKeepsUniqueSets(sets: seq<WorkoutSet>, id: Id)
    requires UniqueSetIds(sets)
    ensures UniqueSetIds(Filter(sets, (s: WorkoutSet) => s.id != id))
  {
    if sets != [] {
      FilterKeepsUniqueSets(sets[1..], id);
      var rest := Filter(sets[1..], (s: WorkoutSet) => s.id != id);
      forall x | x in rest ensures x.id != sets[0].id {
        var j :| 0 <= j < |sets| - 1 && sets[1..][j] == x;
        assert sets[j + 1] == x;
      }
    }
  }

  lemma {:induction false} FilterKeepsUniqueExercises(exercises: seq<Exercise>, id: Id)
    requires UniqueExerciseIds(exercises)
    ensures UniqueExerciseIds(Filter(exercises, (e: Exercise) => e.id != id))
  {
    if exercises != [] {
      FilterKeepsUniqueExercises(exercises[1..], id);
      var rest := Filter(exercises[1..], (e: Exercise) => e.id != id);
      forall x | x in rest ensures x.id != exercises[0].id {
        var j :| 0 <= j < |exercises| - 1 && exercises[1..][j] == x;
        assert exercises[j + 1] == x;
      }
    }
  }
}
