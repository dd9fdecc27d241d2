/** `SettingsViewModel.resetAllData`: every set and log goes, and so does every custom exercise. */
module Settings {
  import opened Collections
  import opened Records
  import opened DataStore

  /** Keeps the exercises whose id is not among `ids`. */
  function NotAmong(ids: seq<Id>): Exercise -> bool {
    (e: Exercise) => e.id !in ids
  }

  lemma DeleteOneMore(before: seq<Exercise>, deleted: seq<Id>, victim: Id)
    ensures Filter(Filter(before, NotAmong(deleted)), (e: Exercise) => e.id != victim) == Filter(before, NotAmong(deleted + [victim]))
  {
    FilterFilter(before, NotAmong(deleted), (e: Exercise) => e.id != victim, NotAmong(deleted + [victim]));
  }

  /** What the deleting loop keeps: no set, the logs as they were, and the exercises not yet deleted. */
  ghost predicate Deleting(store: CoreDataManager, before: seq<Exercise>, deleted: seq<Id>)
    reads store
  {
    store.Valid() && store.sets == [] && store.logs == [] && store.exercises == Filter(before, NotAmong(deleted))
  }

  /** One turn of the deleting loop, once no set is left: the store forgets one more exercise. */
  method DeleteOneMoreExercise(store: CoreDataManager, ghost before: seq<Exercise>, ghost deleted: seq<Id>, victim: Id)
    requires Deleting(store, before, deleted)
    modifies store
    ensures Deleting(store, before, deleted + [victim])
  {
    store.DeleteExercise(victim);
    DeleteOneMore(before, deleted, victim);
  }

  /** With unique ids, the ids of the custom exercises pick out exactly the custom exercises. */
  lemma DeletedAreTheCustomExercises(exercises: seq<Exercise>, custom: seq<Exercise>, deleted: seq<Id>)
    requires UniqueExerciseIds(exercises)
    requires custom == Filter(exercises, IsCustom)
    requires |deleted| == |custom| && forall j :: 0 <= j < |custom| ==> deleted[j] == custom[j].id
    ensures forall i :: 0 <= i < |exercises| ==> (exercises[i].id !in deleted) == IsDefault(exercises[i])
  {
    forall i | 0 <= i < |exercises| ensures (exercises[i].id !in deleted) == IsDefault(exercises[i]) {
      if IsCustom(exercises[i]) {
        assert exercises[i] in custom;
        var j :| 0 <= j < |custom| && custom[j] == exercises[i];
        assert deleted[j] == exercises[i].id;
      }
      if exercises[i].id in deleted {
        var j :| 0 <= j < |custom| && deleted[j] == exercises[i].id;
        var a :| 0 <= a < |exercises| && exercises[a] == custom[j];
        assert a == i;
      }
    }
  }

  lemma DeletingTheCustomLeavesTheDefaults(exercises: seq<Exercise>, custom: seq<Exercise>, deleted: seq<Id>)
    requires UniqueExerciseIds(exercises)
    requires custom == Filter(exercises, IsCustom)
    requires |deleted| == |custom| && forall j :: 0 <= j < |custom| ==> deleted[j] == custom[j].id
    ensures Filter(exercises, NotAmong(deleted)) == Filter(exercises, IsDefault)
  {
    DeletedAreTheCustomExercises(exercises, custom, deleted);
    FilterSame(exercises, NotAmong(deleted), IsDefault);
  }

  /** The loop of `resetAllData`: deletes each of `victims` in turn, once no set and no log is left. */
  method DeleteEach(store: CoreDataManager, ghost before: seq<Exercise>, victims: seq<Exercise>) returns (ghost deleted: seq<Id>)
    requires Deleting(store, before, [])
    modifies store
    ensures Deleting(store, before, deleted)
    ensures |deleted| == |victims| && forall j :: 0 <= j < |victims| ==> deleted[j] == victims[j].id
  {
    deleted := [];
    var i := 0;
    while i < |victims|
      invariant 0 <= i <= |victims|
      invariant |deleted| == i && forall j :: 0 <= j < i ==> deleted[j] == victims[j].id
      invariant Deleting(store, before, deleted)
    {
      var victim := victims[i].id;
      DeleteOneMoreExercise(store, before, deleted, victim);
      deleted := deleted + [victim];
      i := i + 1;
    }
  }

  /** Every custom exercise is deleted, once no set and no log is left; the defaults stay in order. */
  method DeleteCustomExercises(store: CoreDataManager)
    requires store.Valid() && store.sets == [] && store.logs == []
    modifies store
    ensures store.Valid() && store.sets == [] && store.logs == []
    ensures store.exercises == Filter(old(store.exercises), IsDefault)
  {
    var customExercises := Filter(store.exercises, IsCustom);
    ghost var before := store.exercises;
    FilterKeepsAll(before, NotAmong([]));
    ghost var deleted := DeleteEach(store, before, customExercises);
    DeletingTheCustomLeavesTheDefaults(before, customExercises, deleted);
  }

  class SettingsViewModel {
    const store: CoreDataManager

    constructor(store: CoreDataManager)
      ensures this.store == store
    {
      this.store := store;
    }

    /**
     * `resetAllData`: the batch deletes of all sets and all logs, then a loop deleting each custom
     * exercise. The default exercises remain in their order, favourite flags included.
     */
    method ResetAllData()
      requires store.Valid()
      modifies store
      ensures store.Valid()
      ensures store.sets == [] && store.logs == []
      ensures store.exercises == Filter(old(store.exercises), IsDefault)
    {
      store.DeleteAllSets();
      store.DeleteAllLogs();
      DeleteCustomExercises(store);
    }
  }

  /** A second reset changes nothing more: the exercises left are all default ones. */
  lemma ResetIsIdempotent(exercises: seq<Exercise>)
    ensures Filter(Filter(exercises, IsDefault), IsDefault) == Filter(exercises, IsDefault)
    ensures forall i :: 0 <= i < |Filter(exercises, IsDefault)| ==> Filter(exercises, IsDefault)[i].isDefault
  {
    FilterKeepsAll(Filter(exercises, IsDefault), IsDefault);
  }
}
