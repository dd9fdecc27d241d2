/**
 * The three stored entities — an exercise, a day's workout log and one logged set — and the
 * lookups and orderings the store's queries use. Relationships are held as ids.
 */
module Records {
  import opened Collections
  import opened Calendar
  import opened Text

  /** Stands in for a `UUID`: fresh ids are handed out in increasing order. */
  type Id = nat

  datatype Exercise = Exercise(id: Id, name: string, isDefault: bool, isFavorite: bool)

  datatype WorkoutLog = WorkoutLog(id: Id, date: Date)

  /** One set: the exercise and the log it belongs to, the weight lifted and the repetitions. */
  datatype WorkoutSet = WorkoutSet(id: Id, exercise: Id, log: Id, weight: real, reps: int)

  /** Field accessors as function values, for `map { $0.date }` and the like. */
  function DateOf(log: WorkoutLog): Date {
    log.date
  }

  function ExerciseId(e: Exercise): Id {
    e.id
  }

  // ---------------------------------------------------------------------------------------------
  // lookups

  predicate HasExercise(exercises: seq<Exercise>, id: Id) {
    exists i :: 0 <= i < |exercises| && exercises[i].id == id
  }

  predicate HasLog(logs: seq<WorkoutLog>, id: Id) {
    exists i :: 0 <= i < |logs| && logs[i].id == id
  }

  /** The position of the exercise with this id. */
  function FindExercise(exercises: seq<Exercise>, id: Id): (r: Option<nat>)
    ensures r.None? <==> !HasExercise(exercises, id)
    ensures r.Some? ==> r.value < |exercises| && exercises[r.value].id == id
  {
    if exercises == [] then None
    else if exercises[0].id == id then Some(0)
    else match FindExercise(exercises[1..], id)
      case None => None
      case Some(k) => Some(k + 1)
  }

  /** The date of the log with this id (`workoutLog?.date`). */
  function LogDate(logs: seq<WorkoutLog>, id: Id): (r: Option<Date>)
    ensures r.None? <==> !HasLog(logs, id)
    ensures r.Some? ==> exists i :: 0 <= i < |logs| && logs[i].id == id && logs[i].date == r.value
  {
    if logs == [] then None
    else if logs[0].id == id then Some(logs[0].date)
    else
      var r := LogDate(logs[1..], id);
      assert r.Some? ==> exists i :: 0 <= i < |logs| - 1 && logs[1..][i].id == id && logs[1..][i].date == r.value;
      r
  }

  lemma LogDateUnique(logs: seq<WorkoutLog>, i: nat)
    requires i < |logs| && UniqueLogIds(logs)
    ensures LogDate(logs, logs[i].id) == Some(logs[i].date)
  {
  }

  /** Chronological sort key of a set: its log's date. */
  function SetTime(logs: seq<WorkoutLog>, s: WorkoutSet): Option<int> {
    match LogDate(logs, s.log)
    case None => None
    case Some(d) => Some(Key(d))
  }

  // ---------------------------------------------------------------------------------------------
  // uniqueness and the name order

  predicate UniqueExerciseIds(exercises: seq<Exercise>) {
    forall i, j :: 0 <= i < j < |exercises| ==> exercises[i].id != exercises[j].id
  }

  predicate UniqueLogIds(logs: seq<WorkoutLog>) {
    forall i, j :: 0 <= i < j < |logs| ==> logs[i].id != logs[j].id
  }

  predicate UniqueSetIds(sets: seq<WorkoutSet>) {
    forall i, j :: 0 <= i < j < |sets| ==> sets[i].id != sets[j].id
  }

  /** The name sort descriptor: names compared character code by character code. */
  predicate ByName(a: Exercise, b: Exercise) {
    LexLe(a.name, b.name)
  }

  lemma ByNameIsTotalPreorder()
    ensures TotalPreorder(ByName)
  {
    forall a: Exercise, b: Exercise ensures ByName(a, b) || ByName(b, a) {
      LexLeTotal(a.name, b.name);
    }
    forall a: Exercise, b: Exercise, c: Exercise | ByName(a, b) && ByName(b, c) ensures ByName(a, c) {
      LexLeTransitive(a.name, b.name, c.name);
    }
  }

  predicate IsFavorite(e: Exercise) {
    e.isFavorite
  }

  predicate IsDefault(e: Exercise) {
    e.isDefault
  }

  predicate IsCustom(e: Exercise) {
    !e.isDefault
  }
}
