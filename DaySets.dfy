/**
 * The list of one day's sets that the home and the calendar screens show: the sets of the day's
 * log (`workoutLog.workoutSets`), ordered by id, highest first.
 */
module DaySets {
  import opened Collections
  import opened Calendar
  import opened Records
  import opened DataStore

  /** The id as the sort key of `sorted(by: { $0.id > $1.id })`. */
  function IdKey(s: WorkoutSet): Option<int> {
    Some(s.id)
  }

  predicate InLog(s: WorkoutSet, log: Id) {
    s.log == log
  }

  /** Membership in one log, as a function value. */
  function InLogOf(log: Id): WorkoutSet -> bool {
    (s: WorkoutSet) => InLog(s, log)
  }

  /** The sets of one log, highest id first. */
  function SetsOfLog(sets: seq<WorkoutSet>, log: Id): (r: seq<WorkoutSet>)
    ensures multiset(r) == multiset(Filter(sets, InLogOf(log)))
    ensures forall s :: s in r <==> s in sets && s.log == log
    ensures forall i, j :: 0 <= i < j < |r| ==> r[j].id <= r[i].id
  {
    var mine := Filter(sets, InLogOf(log));
    var r := SortByKey(mine, IdKey, false);
    SameElements(r, mine);
    assert forall i, j :: 0 <= i < j < |r| ==> OptionLe(IdKey(r[j]), IdKey(r[i]));
    r
  }

  /**
   * `refreshTodaysWorkouts` / `loadWorkouts(for: d)`: nothing when `d`'s day has no log,
   * otherwise that log's sets, highest id first.
   */
  function SetsOfDay(sets: seq<WorkoutSet>, logs: seq<WorkoutLog>, d: Date): (r: seq<WorkoutSet>)
    ensures GetWorkoutLog(logs, d).None? ==> r == []
    ensures GetWorkoutLog(logs, d).Some? ==> r == SetsOfLog(sets, GetWorkoutLog(logs, d).value.id)
  {
    match GetWorkoutLog(logs, d)
    case None => []
    case Some(log) => SetsOfLog(sets, log.id)
  }

  /**
   * With one log per day and unique log ids, the shown list holds exactly the sets whose log is
   * dated on `d`'s day.
   */
  lemma SetsOfDayAreTheDaysSets(sets: seq<WorkoutSet>, logs: seq<WorkoutLog>, d: Date, s: WorkoutSet)
    requires OneLogPerDay(logs) && UniqueLogIds(logs)
    ensures s in SetsOfDay(sets, logs, d) <==> s in sets && LogDate(logs, s.log).Some? && LogDate(logs, s.log).value.day == d.day
  {
    if LogDate(logs, s.log).Some? {
      var i :| 0 <= i < |logs| && logs[i].id == s.log && logs[i].date == LogDate(logs, s.log).value;
      if logs[i].date.day == d.day {
        var k := FirstLogOfDay(logs, d);
        assert k < |logs| by {
          assert GetWorkoutLog(logs, d).Some?;
        }
        assert k == i by {
          assert forall a, b :: 0 <= a < |logs| && 0 <= b < |logs| && a != b ==> logs[a].date.day != logs[b].date.day;
        }
      }
    }
    if s in SetsOfDay(sets, logs, d) {
      var log := GetWorkoutLog(logs, d).value;
      var i :| 0 <= i < |logs| && logs[i] == log;
      LogDateUnique(logs, i);
    }
  }

  /** With unique set ids the shown list has no ties: ids strictly decrease. */
  lemma SetsOfDayStrictlyById(sets: seq<WorkoutSet>, logs: seq<WorkoutLog>, d: Date)
    requires UniqueSetIds(sets)
    ensures forall i, j :: 0 <= i < j < |SetsOfDay(sets, logs, d)| ==> SetsOfDay(sets, logs, d)[j].id < SetsOfDay(sets, logs, d)[i].id
  {
    var r := SetsOfDay(sets, logs, d);
    if GetWorkoutLog(logs, d).Some? {
      var p := InLogOf(GetWorkoutLog(logs, d).value.id);
      UniqueIdsDistinct(sets);
      FilterKeepsDistinct(sets, p);
      DistinctPreserved(Filter(sets, p), r);
      forall i, j | 0 <= i < j < |r| ensures r[j].id < r[i].id {
        assert r[i] != r[j];
        assert r[i] in sets && r[j] in sets;
        if r[i].id == r[j].id {
          SameIdSameSet(sets, r[i], r[j]);
        }
      }
    }
  }

  lemma UniqueIdsDistinct(sets: seq<WorkoutSet>)
    requires UniqueSetIds(sets)
    ensures Distinct(sets)
  {
  }

  lemma SameIdSameSet(sets: seq<WorkoutSet>, a: WorkoutSet, b: WorkoutSet)
    requires UniqueSetIds(sets) && a in sets && b in sets && a.id == b.id
    ensures a == b
  {
    var i :| 0 <= i < |sets| && sets[i] == a;
    var j :| 0 <= j < |sets| && sets[j] == b;
    if i < j {
    } else if j < i {
    }
  }

  lemma {:induction false} FilterKeepsDistinct<T>(s: seq<T>, p: T -> bool)
    requires Distinct(s)
    ensures Distinct(Filter(s, p))
  {
    if s != [] {
      FilterKeepsDistinct(s[1..], p);
      var rest := Filter(s[1..], p);
      assert s[0] !in s[1..] by {
        assert forall k :: 0 <= k < |s| - 1 ==> s[1..][k] == s[k + 1] != s[0];
      }
      if p(s[0]) {
        var r := [s[0]] + rest;
        forall i, j | 0 <= i < j < |r| ensures r[i] != r[j] {
          if i == 0 {
            assert r[j] in rest;
          } else {
            assert r[i] == rest[i - 1] && r[j] == rest[j - 1];
          }
        }
      }
    }
  }

  /**
   * The first two steps of `addWorkoutSet` on the home and the calendar screens: find or create
   * the day's log, then attach one new set with the given values to it.
   */
  method AddSetOnDay(store: CoreDataManager, d: Date, exercise: Id, weight: real, reps: int) returns (s: WorkoutSet)
    requires store.Valid() && HasExercise(store.exercises, exercise)
    modifies store
    ensures store.Valid()
    ensures GetWorkoutLog(store.logs, d).Some? && s.log == GetWorkoutLog(store.logs, d).value.id
    ensures s == WorkoutSet(store.nextId - 1, exercise, s.log, weight, reps)
    ensures store.sets == old(store.sets) + [s]
    ensures old(GetWorkoutLog(store.logs, d)).Some? ==>
      store.logs == old(store.logs) && GetWorkoutLog(store.logs, d) == old(GetWorkoutLog(store.logs, d))
    ensures old(GetWorkoutLog(store.logs, d)).None? ==> store.logs == old(store.logs) + [WorkoutLog(old(store.nextId), d)]
    ensures store.exercises == old(store.exercises)
  {
    var workoutLog := store.GetOrCreateWorkoutLog(d);
    assert HasLog(store.logs, workoutLog.id) by {
      var i :| 0 <= i < |store.logs| && store.logs[i] == workoutLog;
    }
    s := store.AddWorkoutSet(workoutLog.id, exercise, weight, reps);
  }
}
