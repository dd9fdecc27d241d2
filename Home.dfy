/**
 * `HomeViewModel`: today's sets, the favourite exercises, and logging a set for today. "Today" is
 * a parameter where the source reads the clock.
 */
module Home {
  import opened Collections
  import opened Calendar
  import opened Records
  import opened DataStore
  import opened DaySets

  class HomeViewModel {
    const store: CoreDataManager
    var todaysWorkoutSets: seq<WorkoutSet>
    var favoriteExercises: seq<Exercise>

    /** `init`: the initial load refreshes today's sets and loads the favourites. */
    constructor(store: CoreDataManager, today: Date)
      ensures this.store == store
      ensures todaysWorkoutSets == SetsOfDay(store.sets, store.logs, today)
      ensures favoriteExercises == GetFavoriteExercises(store.exercises)
    {
      this.store := store;
      todaysWorkoutSets := [];
      favoriteExercises := [];
      new;
      RefreshTodaysWorkouts(today);
      LoadFavoriteExercises();
    }

    /** `refreshTodaysWorkouts`: today's log's sets, highest id first, or nothing without a log. */
    method RefreshTodaysWorkouts(today: Date)
      modifies this
      ensures GetWorkoutLog(store.logs, today).None? ==> todaysWorkoutSets == []
      ensures GetWorkoutLog(store.logs, today).Some? ==>
        todaysWorkoutSets == SetsOfLog(store.sets, GetWorkoutLog(store.logs, today).value.id)
      ensures favoriteExercises == old(favoriteExercises)
    {
      var workoutLog := GetWorkoutLog(store.logs, today);
      if workoutLog.Some? {
        todaysWorkoutSets := SetsOfLog(store.sets, workoutLog.value.id);
      } else {
        todaysWorkoutSets := [];
      }
    }

    /** `loadFavoriteExercises`. */
    method LoadFavoriteExercises()
      modifies this
      ensures favoriteExercises == GetFavoriteExercises(store.exercises)
      ensures todaysWorkoutSets == old(todaysWorkoutSets)
    {
      favoriteExercises := GetFavoriteExercises(store.exercises);
    }

    /**
     * `addWorkoutSet(exercise:weight:reps:)`: today's log is found or created, one set with the
     * given values is attached to it, and the list of today's sets is refreshed and shows it.
     */
    method AddWorkoutSet(exercise: Id, weight: real, reps: int, today: Date)
      requires store.Valid() && HasExercise(store.exercises, exercise)
      modifies this, store
      ensures store.Valid()
      ensures GetWorkoutLog(store.logs, today).Some?
      ensures old(GetWorkoutLog(store.logs, today)).Some? ==>
        store.logs == old(store.logs) && GetWorkoutLog(store.logs, today) == old(GetWorkoutLog(store.logs, today))
      ensures old(GetWorkoutLog(store.logs, today)).None? ==>
        store.logs == old(store.logs) + [WorkoutLog(old(store.nextId), today)]
      ensures store.sets == old(store.sets) + [WorkoutSet(store.nextId - 1, exercise, GetWorkoutLog(store.logs, today).value.id, weight, reps)]
      ensures store.exercises == old(store.exercises)
      ensures todaysWorkoutSets == SetsOfDay(store.sets, store.logs, today)
      ensures store.sets[|store.sets| - 1] in todaysWorkoutSets
      ensures favoriteExercises == old(favoriteExercises)
    {
      var s := AddSetOnDay(store, today, exercise, weight, reps);
      RefreshTodaysWorkouts(today);
    }

    /** `getLastWorkoutSet(for:)`, passed through to the store. */
    method GetLastWorkoutSet(exercise: Id) returns (r: Option<WorkoutSet>)
      ensures r.None? <==> forall i :: 0 <= i < |store.sets| ==> store.sets[i].exercise != exercise
      ensures r.Some? ==> r.value in store.sets && r.value.exercise == exercise
      ensures r.Some? ==> forall i :: 0 <= i < |store.sets| && store.sets[i].exercise == exercise ==>
        OptionLe(SetTime(store.logs, store.sets[i]), SetTime(store.logs, r.value))
    {
      r := DataStore.GetLastWorkoutSet(store.sets, store.logs, exercise);
    }

    /** `toggleFavorite(exercise:)`: flips the flag in the store, then reloads the favourites. */
    method ToggleFavorite(id: Id)
      requires store.Valid() && HasExercise(store.exercises, id)
      modifies this, store
      ensures store.Valid()
      ensures var k := FindExercise(old(store.exercises), id).value;
        store.exercises == old(store.exercises)[k := old(store.exercises)[k].(isFavorite := !old(store.exercises)[k].isFavorite)]
      ensures store.logs == old(store.logs) && store.sets == old(store.sets)
      ensures favoriteExercises == GetFavoriteExercises(store.exercises)
      ensures todaysWorkoutSets == old(todaysWorkoutSets)
    {
      var isFavorite := store.ToggleFavorite(id);
      LoadFavoriteExercises();
    }
  }

  /** Two sets logged on the same day land in the same log, and only the first may create it. */
  method TwoSetsOnOneDay(home: HomeViewModel, first: Id, second: Id, weight: real, reps: int, today: Date)
    requires home.store.Valid() && HasExercise(home.store.exercises, first) && HasExercise(home.store.exercises, second)
    modifies home, home.store
    ensures |home.store.sets| == |old(home.store.sets)| + 2
    ensures home.store.sets[|home.store.sets| - 1].log == home.store.sets[|home.store.sets| - 2].log
    ensures |home.store.logs| <= |old(home.store.logs)| + 1
  {
    home.AddWorkoutSet(first, weight, reps, today);
    ghost var logs := home.store.logs;
    home.AddWorkoutSet(second, weight, reps, today);
  }
}
