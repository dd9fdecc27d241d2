/**
 * The two exercise lists shown to the user: the selector of the home screen (`ExerciseSelectorView`,
 * with `AddExerciseView`) and the list of the settings screen (`ExerciseManagementView`).
 */
module ExerciseViews {
  import opened Collections
  import opened Text
  import opened Records
  import opened DataStore
  import opened ExerciseManagement

  /** The search test both lists apply to a name. */
  function NameMatches(searchText: string): Exercise -> bool {
    (e: Exercise) => ContainsIgnoringCase(e.name, searchText)
  }

  /** The category test as a function value. */
  function CategoryTest(category: ExerciseCategory): Exercise -> bool {
    (e: Exercise) => InCategory(e, category)
  }

  lemma SearchIsFilter(exercises: seq<Exercise>, searchText: string)
    requires searchText != []
    ensures SearchExercises(exercises, searchText) == Filter(exercises, NameMatches(searchText))
  {
    FilterSame(exercises, (e: Exercise) => ContainsIgnoringCase(e.name, searchText), NameMatches(searchText));
  }

  lemma CategoryIsFilter(exercises: seq<Exercise>, category: ExerciseCategory)
    ensures GetExercisesByCategory(exercises, category) == Filter(exercises, CategoryTest(category))
  {
    match category {
      case All => FilterKeepsAll(exercises, CategoryTest(category));
      case Favorites => FilterSame(exercises, (e: Exercise) => e.isFavorite, CategoryTest(category));
      case Custom => FilterSame(exercises, (e: Exercise) => !e.isDefault, CategoryTest(category));
      case Default => FilterSame(exercises, (e: Exercise) => e.isDefault, CategoryTest(category));
    }
  }

  // ---------------------------------------------------------------------------------------------
  // the settings list

  /** `ExerciseManagementView.filteredExercises`: the category tab first, then the search text. */
  function ManagementFiltered(exercises: seq<Exercise>, category: ExerciseCategory, searchText: string): (r: seq<Exercise>)
    ensures searchText == [] ==> r == GetExercisesByCategory(exercises, category)
    ensures IsSubsequence(r, GetExercisesByCategory(exercises, category))
    ensures forall e :: e in r <==>
      e in exercises && InCategory(e, category) && (searchText == [] || ContainsIgnoringCase(e.name, searchText))
  {
    SearchExercises(GetExercisesByCategory(exercises, category), searchText)
  }

  /** The order of the two filters does not matter: searching first and then taking the tab is the same. */
  lemma FilterOrderIrrelevant(exercises: seq<Exercise>, category: ExerciseCategory, searchText: string)
    ensures ManagementFiltered(exercises, category, searchText)
         == GetExercisesByCategory(SearchExercises(exercises, searchText), category)
  {
    var tab := GetExercisesByCategory(exercises, category);
    if searchText != [] {
      var both := (e: Exercise) => InCategory(e, category) && ContainsIgnoringCase(e.name, searchText);
      CategoryIsFilter(exercises, category);
      SearchIsFilter(tab, searchText);
      FilterFilter(exercises, CategoryTest(category), NameMatches(searchText), both);
      SearchIsFilter(exercises, searchText);
      CategoryIsFilter(SearchExercises(exercises, searchText), category);
      FilterFilter(exercises, NameMatches(searchText), CategoryTest(category), both);
    }
  }

  /** `swipeActions`: deleting is offered only for an exercise the user added. */
  predicate DeleteOffered(e: Exercise) {
    !e.isDefault
  }

  /**
   * The delete action is offered exactly on the custom tab's exercises, so the view model's guard
   * against deleting a default exercise never fires from this list.
   */
  lemma DeleteOfferedOnCustomOnly(exercises: seq<Exercise>, category: ExerciseCategory, searchText: string)
    ensures forall e :: e in ManagementFiltered(exercises, category, searchText) ==>
      (DeleteOffered(e) <==> e in GetExercisesByCategory(exercises, Custom))
    ensures forall e :: e in ManagementFiltered(exercises, Default, searchText) ==> !DeleteOffered(e)
  {
  }

  // ---------------------------------------------------------------------------------------------
  // the selector

  /** `AddExerciseView`'s save button: any non-empty name is passed on as typed, spaces included. */
  function AcceptedName(exerciseName: string): (r: Option<string>)
    ensures r.None? <==> exerciseName == []
    ensures r.Some? ==> r.value == exerciseName
  {
    if exerciseName == [] then None else Some(exerciseName)
  }

  /** A name of spaces alone is accepted: there is no trimming. */
  lemma BlankNameAccepted()
    ensures AcceptedName(" ") == Some(" ")
  {
  }

  /** `ExerciseSelectorView`: the loaded exercises and the search field over them. */
  class ExerciseSelector {
    const store: CoreDataManager
    var searchText: string
    var exercises: seq<Exercise>

    constructor(store: CoreDataManager)
      ensures this.store == store && searchText == [] && exercises == []
    {
      this.store := store;
      searchText := [];
      exercises := [];
    }

    /** `filteredExercises`: all of them for an empty search, else those whose name contains it. */
    function FilteredExercises(): (r: seq<Exercise>)
      reads this
      ensures searchText == [] ==> r == exercises
      ensures searchText != [] ==> forall e :: e in r <==> e in exercises && ContainsIgnoringCase(e.name, searchText)
      ensures IsSubsequence(r, exercises)
    {
      SearchExercises(exercises, searchText)
    }

    /** `loadExercises`. */
    method LoadExercises()
      modifies this
      ensures exercises == GetAllExercises(store.exercises) && searchText == old(searchText)
    {
      exercises := GetAllExercises(store.exercises);
    }

    /** `toggleFavorite(exercise:)`: the flag flips and is saved; then the list is reloaded. */
    method ToggleFavorite(id: Id)
      requires store.Valid() && HasExercise(store.exercises, id)
      modifies this, store
      ensures store.Valid()
      ensures var k := FindExercise(old(store.exercises), id).value;
        store.exercises == old(store.exercises)[k := old(store.exercises)[k].(isFavorite := !old(store.exercises)[k].isFavorite)]
      ensures store.logs == old(store.logs) && store.sets == old(store.sets)
      ensures exercises == GetAllExercises(store.exercises) && searchText == old(searchText)
    {
      var isFavorite := store.ToggleFavorite(id);
      LoadExercises();
    }

    /** `addExercise(name:)`: one custom, non-favourite exercise; then the list is reloaded. */
    method AddExercise(name: string)
      requires store.Valid()
      modifies this, store
      ensures store.Valid()
      ensures store.exercises == old(store.exercises) + [Exercise(old(store.nextId), name, false, false)]
      ensures store.logs == old(store.logs) && store.sets == old(store.sets)
      ensures exercises == GetAllExercises(store.exercises) && searchText == old(searchText)
    {
      var e := store.InsertExercise(name, false, false);
      LoadExercises();
    }

    /** `AddExerciseView`'s save, handing the name to `addExercise`: an empty name changes nothing. */
    method SaveNewExercise(exerciseName: string)
      requires store.Valid()
      modifies this, store
      ensures store.Valid()
      ensures exerciseName == [] ==> store.exercises == old(store.exercises) && exercises == old(exercises)
      ensures exerciseName != [] ==>
        store.exercises == old(store.exercises) + [Exercise(old(store.nextId), exerciseName, false, false)]
      ensures exerciseName != [] ==> exercises == GetAllExercises(store.exercises)
      ensures store.logs == old(store.logs) && store.sets == old(store.sets) && searchText == old(searchText)
    {
      var accepted := AcceptedName(exerciseName);
      if accepted.Some? {
        AddExercise(accepted.value);
      }
    }
  }
}
