/**
 * `ExerciseManagementViewModel`: the exercise list of the settings screen, its search and
 * category filters, and the add, favourite and cascade-delete operations on the store.
 */
module ExerciseManagement {
  import opened Collections
  import opened Text
  import opened Records
  import opened DataStore

  datatype ExerciseCategory = All | Favorites | Custom | Default

  /** `searchExercises(query:)`: the list itself for an empty query, else the names containing it. */
  function SearchExercises(exercises: seq<Exercise>, query: string): (r: seq<Exercise>)
    ensures query == [] ==> r == exercises
    ensures query != [] ==> forall e :: e in r <==> e in exercises && ContainsIgnoringCase(e.name, query)
    ensures IsSubsequence(r, exercises)
  {
    if query == [] then
      SubsequenceOfItself(exercises);
      exercises
    else Filter(exercises, (e: Exercise) => ContainsIgnoringCase(e.name, query))
  }

  lemma {:induction false} SubsequenceOfItself<T>(s: seq<T>)
    ensures IsSubsequence(s, s)
  {
    if s != [] {
      SubsequenceOfItself(s[1..]);
    }
  }

  /** The order-preserving filter behind each category tab. */
  predicate InCategory(e: Exercise, category: ExerciseCategory) {
    match category
    case All => true
    case Favorites => e.isFavorite
    case Custom => !e.isDefault
    case Default => e.isDefault
  }

  /** `getExercisesByCategory(category:)`. */
  function GetExercisesByCategory(exercises: seq<Exercise>, category: ExerciseCategory): (r: seq<Exercise>)
    ensures category == All ==> r == exercises
    ensures forall e :: e in r <==> e in exercises && InCategory(e, category)
    ensures IsSubsequence(r, exercises)
  {
    match category
    case All =>
      SubsequenceOfItself(exercises);
      exercises
    case Favorites => Filter(exercises, (e: Exercise) => e.isFavorite)
    case Custom => Filter(exercises, (e: Exercise) => !e.isDefault)
    case Default => Filter(exercises, (e: Exercise) => e.isDefault)
  }

  /** The custom and the default tab split the list between them. */
  lemma CustomAndDefaultPartition(exercises: seq<Exercise>)
    ensures multiset(GetExercisesByCategory(exercises, Custom)) + multiset(GetExercisesByCategory(exercises, Default))
         == multiset(exercises)
  {
    FilterPartition(exercises, (e: Exercise) => !e.isDefault, (e: Exercise) => e.isDefault);
  }

  class ExerciseManagementViewModel {
    const store: CoreDataManager
    var exercises: seq<Exercise>

    constructor(store: CoreDataManager)
      ensures this.store == store && exercises == []
    {
      this.store := store;
      exercises := [];
    }

    /** `loadExercises`: the list becomes `getAllExercises`. */
    method LoadExercises()
      modifies this
      ensures exercises == GetAllExercises(store.exercises)
    {
      exercises := GetAllExercises(store.exercises);
    }

    /** `addExercise(name:)`: a custom, non-favourite exercise; the name is neither checked nor trimmed. */
    method AddExercise(name: string)
      requires store.Valid()
      modifies this, store
      ensures store.Valid()
      ensures store.exercises == old(store.exercises) + [Exercise(old(store.nextId), name, false, false)]
      ensures store.logs == old(store.logs) && store.sets == old(store.sets)
      ensures exercises == GetAllExercises(store.exercises)
    {
      var e := store.InsertExercise(name, false, false);
      LoadExercises();
    }

    /** `toggleFavorite(exercise:)`: flips the flag in the store, then reloads the list. */
    method ToggleFavorite(id: Id)
      requires store.Valid() && HasExercise(store.exercises, id)
      modifies this, store
      ensures store.Valid()
      ensures var k := FindExercise(old(store.exercises), id).value;
        store.exercises == old(store.exercises)[k := old(store.exercises)[k].(isFavorite := !old(store.exercises)[k].isFavorite)]
      ensures store.logs == old(store.logs) && store.sets == old(store.sets)
      ensures exercises == GetAllExercises(store.exercises)
    {
      var isFavorite := store.ToggleFavorite(id);
      LoadExercises();
    }

    /**
     * `deleteExercise(exercise:)`: a default exercise is kept and nothing changes; a custom one is
     * deleted together with all of its sets. Logs are never touched, even when left empty.
     */
    method DeleteExercise(id: Id)
      requires store.Valid() && HasExercise(store.exercises, id)
      modifies this, store
      ensures store.Valid()
      ensures store.logs == old(store.logs)
      ensures old(store.exercises)[FindExercise(old(store.exercises), id).value].isDefault ==>
        store.exercises == old(store.exercises) && store.sets == old(store.sets) && exercises == old(exercises)
      ensures !old(store.exercises)[FindExercise(old(store.exercises), id).value].isDefault ==>
        && store.sets == Filter(old(store.sets), (s: WorkoutSet) => s.exercise != id)
        && store.exercises == Filter(old(store.exercises), (e: Exercise) => e.id != id)
        && exercises == GetAllExercises(store.exercises)
    {
      var k := FindExercise(store.exercises, id).value;
      if store.exercises[k].isDefault {
        return;
      }
      DeleteSetsOfExercise(store, id);
      store.DeleteExercise(id);
      LoadExercises();
    }
  }

  /** Keeps the sets whose id is not among `ids`. */
  function NotIn(ids: seq<Id>): WorkoutSet -> bool {
    (s: WorkoutSet) => s.id !in ids
  }

  /** Deleting one more id from what is left is deleting the enlarged id set from the original. */
  lemma DeleteOneMore(before: seq<WorkoutSet>, deleted: seq<Id>, victim: Id)
    ensures Filter(Filter(before, NotIn(deleted)), (s: WorkoutSet) => s.id != victim) == Filter(before, NotIn(deleted + [victim]))
  {
    FilterFilter(before, NotIn(deleted), (s: WorkoutSet) => s.id != victim, NotIn(deleted + [victim]));
  }

  /** What the deleting loop keeps: the sets not yet deleted, and the exercises and logs as they were. */
  ghost predicate DeletingSets(store: CoreDataManager, before: seq<WorkoutSet>, deleted: seq<Id>,
                               exercises: seq<Exercise>, logs: seq<WorkoutLog>)
    reads store
  {
    && store.Valid() && store.sets == Filter(before, NotIn(deleted))
    && store.exercises == exercises && store.logs == logs
  }

  /** One turn of that loop: the store forgets one more set id. */
  method DeleteOneMoreSet(store: CoreDataManager, ghost before: seq<WorkoutSet>, ghost deleted: seq<Id>,
                          ghost exercises: seq<Exercise>, ghost logs: seq<WorkoutLog>, victim: Id)
    requires DeletingSets(store, before, deleted, exercises, logs)
    modifies store
    ensures DeletingSets(store, before, deleted + [victim], exercises, logs)
  {
    store.DeleteSet(victim);
    DeleteOneMore(before, deleted, victim);
  }

  /** The loop over `exercise.workoutSets`: deletes each of `victims` in turn. */
  method DeleteEachSet(store: CoreDataManager, ghost before: seq<WorkoutSet>, ghost exercises: seq<Exercise>,
                       ghost logs: seq<WorkoutLog>, victims: seq<WorkoutSet>) returns (ghost deleted: seq<Id>)
    requires DeletingSets(store, before, [], exercises, logs)
    modifies store
    ensures DeletingSets(store, before, deleted, exercises, logs)
    ensures |deleted| == |victims| && forall j :: 0 <= j < |victims| ==> deleted[j] == victims[j].id
  {
    deleted := [];
    var i := 0;
    while i < |victims|
      invariant 0 <= i <= |victims|
      invariant |deleted| == i && forall j :: 0 <= j < i ==> deleted[j] == victims[j].id
      invariant DeletingSets(store, before, deleted, exercises, logs)
    {
      var victim := victims[i].id;
      DeleteOneMoreSet(store, before, deleted, exercises, logs, victim);
      deleted := deleted + [victim];
      i := i + 1;
    }
  }

  /** `deleteExercise`'s loop over the exercise's sets: every set of the exercise goes. */
  method DeleteSetsOfExercise(store: CoreDataManager, id: Id)
    requires store.Valid()
    modifies store
    ensures store.Valid()
    ensures store.sets == Filter(old(store.sets), (s: WorkoutSet) => s.exercise != id)
    ensures store.exercises == old(store.exercises) && store.logs == old(store.logs)
  {
    var mine := Filter(store.sets, (s: WorkoutSet) => s.exercise == id);
    ghost var before := store.sets;
    FilterKeepsAll(before, NotIn([]));
    ghost var deleted := DeleteEachSet(store, before, store.exercises, store.logs, mine);
    DeletedAreTheExercisesSets(before, mine, deleted, id);
    FilterSame(before, NotIn(deleted), (s: WorkoutSet) => s.exercise != id);
  }

  /** With unique set ids, the ids of an exercise's sets pick out exactly that exercise's sets. */
  lemma DeletedAreTheExercisesSets(sets: seq<WorkoutSet>, mine: seq<WorkoutSet>, deleted: seq<Id>, id: Id)
    requires UniqueSetIds(sets)
    requires mine == Filter(sets, (s: WorkoutSet) => s.exercise == id)
    requires |deleted| == |mine| && forall j :: 0 <= j < |mine| ==> deleted[j] == mine[j].id
    ensures forall i :: 0 <= i < |sets| ==> (sets[i].id !in deleted) == (sets[i].exercise != id)
  {
    forall i | 0 <= i < |sets| ensures (sets[i].id !in deleted) == (sets[i].exercise != id) {
      if sets[i].exercise == id {
        assert sets[i] in mine;
        var j :| 0 <= j < |mine| && mine[j] == sets[i];
        assert mine[j].id in deleted;
      }
      if sets[i].id in deleted {
        var j :| 0 <= j < |mine| && deleted[j] == sets[i].id;
        var a :| 0 <= a < |sets| && sets[a] == mine[j];
        assert a == i;
      }
    }
  }
}
