/**
 * `WorkoutManager`: training statistics over a closed period `[start, end]` of log dates.
 * It holds no state of its own, so its operations take the store's collections.
 */
module Workouts {
  import opened Collections
  import opened Calendar
  import opened Records

  /** The set's log is dated within `[start, end]` (`workoutLog.date >= start AND <= end`). */
  predicate SetInPeriod(logs: seq<WorkoutLog>, s: WorkoutSet, start: Date, end: Date) {
    match LogDate(logs, s.log)
    case None => false
    case Some(d) => Key(start) <= Key(d) <= Key(end)
  }

  predicate LogInPeriod(log: WorkoutLog, start: Date, end: Date) {
    Key(start) <= Key(log.date) <= Key(end)
  }

  /** The fetch predicate of `getTrainingDates` as a function value. */
  function LogsInPeriod(start: Date, end: Date): WorkoutLog -> bool {
    (log: WorkoutLog) => LogInPeriod(log, start, end)
  }

  // ---------------------------------------------------------------------------------------------
  // training days

  /**
   * `getTrainingDates`: one date per log dated in `[start, end]`, in fetch order — a day with two
   * logs appears twice.
   */
  function GetTrainingDates(logs: seq<WorkoutLog>, start: Date, end: Date): (r: seq<Date>)
    ensures r == Map(Filter(logs, LogsInPeriod(start, end)), DateOf)
    ensures forall x :: x in r <==> exists i :: 0 <= i < |logs| && logs[i].date == x && LogInPeriod(logs[i], start, end)
  {
    if logs == [] then []
    else
      var rest := GetTrainingDates(logs[1..], start, end);
      assert forall i :: 1 <= i < |logs| ==> logs[i] == logs[1..][i - 1];
      if LogInPeriod(logs[0], start, end) then [logs[0].date] + rest else rest
  }

  /** `getTrainingFrequency`: the number of logs in the period; 0 exactly when none is. */
  function GetTrainingFrequency(logs: seq<WorkoutLog>, start: Date, end: Date): (r: nat)
    ensures r == |Filter(logs, LogsInPeriod(start, end))|
    ensures r == 0 <==> forall i :: 0 <= i < |logs| ==> !LogInPeriod(logs[i], start, end)
  {
    var dates := GetTrainingDates(logs, start, end);
    assert dates == [] || dates[0] in dates;
    assert forall i :: 0 <= i < |logs| && LogInPeriod(logs[i], start, end) ==> logs[i].date in dates;
    |dates|
  }

  // ---------------------------------------------------------------------------------------------
  // totals

  /** The fetch predicate of the set queries as a function value. */
  function SetsInPeriodTest(logs: seq<WorkoutLog>, start: Date, end: Date): WorkoutSet -> bool {
    (s: WorkoutSet) => SetInPeriod(logs, s, start, end)
  }

  /** The fetch of `getTotalWeight`, `getTotalReps` and `getExerciseFrequency`: the period's sets in store order. */
  function SetsInPeriod(sets: seq<WorkoutSet>, logs: seq<WorkoutLog>, start: Date, end: Date): seq<WorkoutSet> {
    Filter(sets, SetsInPeriodTest(logs, start, end))
  }

  function Weight(s: WorkoutSet): real {
    s.weight
  }

  function Reps(s: WorkoutSet): int {
    s.reps
  }

  /** Appending a set to the store appends it to the period's sets exactly when its log is in the period. */
  lemma SetsInPeriodSnoc(init: seq<WorkoutSet>, last: WorkoutSet, logs: seq<WorkoutLog>, start: Date, end: Date)
    ensures SetsInPeriod(init + [last], logs, start, end)
         == SetsInPeriod(init, logs, start, end) + (if SetInPeriod(logs, last, start, end) then [last] else [])
  {
    FilterAppend(init, [last], SetsInPeriodTest(logs, start, end));
  }

  /** One more set in the store adds its weight to the period's sum exactly when its log is in the period. */
  lemma WeightSumSnoc(init: seq<WorkoutSet>, last: WorkoutSet, logs: seq<WorkoutLog>, start: Date, end: Date)
    ensures SumReal(Map(SetsInPeriod(init + [last], logs, start, end), Weight))
         == SumReal(Map(SetsInPeriod(init, logs, start, end), Weight)) + (if SetInPeriod(logs, last, start, end) then last.weight else 0.0)
  {
    var tail: seq<WorkoutSet> := if SetInPeriod(logs, last, start, end) then [last] else [];
    SetsInPeriodSnoc(init, last, logs, start, end);
    MapAppend(SetsInPeriod(init, logs, start, end), tail, Weight);
    SumRealAppend(Map(SetsInPeriod(init, logs, start, end), Weight), Map(tail, Weight));
    assert SumReal(Map(tail, Weight)) == if SetInPeriod(logs, last, start, end) then last.weight else 0.0;
  }

  /** The same for the repetitions. */
  lemma RepsSumSnoc(init: seq<WorkoutSet>, last: WorkoutSet, logs: seq<WorkoutLog>, start: Date, end: Date)
    ensures SumInt(Map(SetsInPeriod(init + [last], logs, start, end), Reps))
         == SumInt(Map(SetsInPeriod(init, logs, start, end), Reps)) + (if SetInPeriod(logs, last, start, end) then last.reps else 0)
  {
    var tail: seq<WorkoutSet> := if SetInPeriod(logs, last, start, end) then [last] else [];
    SetsInPeriodSnoc(init, last, logs, start, end);
    MapAppend(SetsInPeriod(init, logs, start, end), tail, Reps);
    SumIntAppend(Map(SetsInPeriod(init, logs, start, end), Reps), Map(tail, Reps));
    assert SumInt(Map(tail, Reps)) == if SetInPeriod(logs, last, start, end) then last.reps else 0;
  }

  /**
   * `getTotalWeight`: `reduce(0) { $0 + $1.weight }` over the period's sets — the weights add up,
   * not `weight × reps`.
   */
  function GetTotalWeight(sets: seq<WorkoutSet>, logs: seq<WorkoutLog>, start: Date, end: Date): (r: real)
    ensures r == SumReal(Map(SetsInPeriod(sets, logs, start, end), Weight))
    ensures (forall i :: 0 <= i < |sets| ==> !SetInPeriod(logs, sets[i], start, end)) ==> r == 0.0
    ensures (forall i :: 0 <= i < |sets| ==> sets[i].weight >= 0.0) ==> r >= 0.0
  {
    if sets == [] then 0.0
    else
      var init, last := sets[..|sets| - 1], sets[|sets| - 1];
      assert sets == init + [last];
      WeightSumSnoc(init, last, logs, start, end);
      GetTotalWeight(init, logs, start, end) + (if SetInPeriod(logs, last, start, end) then last.weight else 0.0)
  }

  /** `getTotalReps`: `reduce(0) { $0 + Int($1.reps) }` over the period's sets. */
  function GetTotalReps(sets: seq<WorkoutSet>, logs: seq<WorkoutLog>, start: Date, end: Date): (r: int)
    ensures r == SumInt(Map(SetsInPeriod(sets, logs, start, end), Reps))
    ensures (forall i :: 0 <= i < |sets| ==> !SetInPeriod(logs, sets[i], start, end)) ==> r == 0
    ensures (forall i :: 0 <= i < |sets| ==> sets[i].reps >= 0) ==> r >= 0
  {
    if sets == [] then 0
    else
      var init, last := sets[..|sets| - 1], sets[|sets| - 1];
      assert sets == init + [last];
      RepsSumSnoc(init, last, logs, start, end);
      GetTotalReps(init, logs, start, end) + (if SetInPeriod(logs, last, start, end) then last.reps else 0)
  }

  // ---------------------------------------------------------------------------------------------
  // per-exercise frequency

  /** How many of `sets` belong to exercise `e`. */
  function CountOf(sets: seq<WorkoutSet>, e: Id): (n: nat)
    ensures n <= |sets|
    ensures n > 0 <==> exists i :: 0 <= i < |sets| && sets[i].exercise == e
  {
    if sets == [] then 0
    else
      var init := sets[..|sets| - 1];
      assert forall i :: 0 <= i < |init| ==> init[i] == sets[i];
      CountOf(init, e) + (if sets[|sets| - 1].exercise == e then 1 else 0)
  }

  lemma CountOfSnoc(init: seq<WorkoutSet>, last: WorkoutSet, e: Id)
    ensures CountOf(init + [last], e) == CountOf(init, e) + (if last.exercise == e then 1 else 0)
  {
    assert (init + [last])[..|init|] == init;
  }

  /** `frequency` maps exactly the exercises counted in `chosen` to their counts. */
  ghost predicate CountsOf(frequency: map<Id, nat>, chosen: seq<WorkoutSet>) {
    forall e :: (e in frequency <==> CountOf(chosen, e) > 0) && (e in frequency ==> frequency[e] == CountOf(chosen, e))
  }

  /** Counting the set at `i`: its exercise's count goes up by one, or starts at one. */
  lemma CountStep(chosen: seq<WorkoutSet>, i: nat, frequency: map<Id, nat>)
    requires i < |chosen| && CountsOf(frequency, chosen[..i])
    ensures var id := chosen[i].exercise;
      CountsOf(frequency[id := (if id in frequency then frequency[id] else 0) + 1], chosen[..i + 1])
  {
    assert chosen[..i + 1] == chosen[..i] + [chosen[i]];
    forall e ensures CountOf(chosen[..i + 1], e) == CountOf(chosen[..i], e) + (if chosen[i].exercise == e then 1 else 0) {
      CountOfSnoc(chosen[..i], chosen[i], e);
    }
  }

  /**
   * `getExerciseFrequency`: maps each exercise with at least one set in the period to the number
   * of its sets there.
   */
  method GetExerciseFrequency(sets: seq<WorkoutSet>, logs: seq<WorkoutLog>, start: Date, end: Date)
    returns (frequency: map<Id, nat>)
    ensures var chosen := SetsInPeriod(sets, logs, start, end);
      forall e :: (e in frequency <==> CountOf(chosen, e) > 0) && (e in frequency ==> frequency[e] == CountOf(chosen, e))
  {
    var chosen := SetsInPeriod(sets, logs, start, end);
    frequency := map[];
    var i := 0;
    while i < |chosen|
      invariant 0 <= i <= |chosen|
      invariant CountsOf(frequency, chosen[..i])
    {
      var id := chosen[i].exercise;
      CountStep(chosen, i, frequency);
      var current := if id in frequency then frequency[id] else 0;
      frequency := frequency[id := current + 1];
      i := i + 1;
    }
    assert chosen[..|chosen|] == chosen;
  }

  /** Sum of the counts of the listed exercises. */
  function SumOfCounts(chosen: seq<WorkoutSet>, ids: seq<Id>): int {
    if ids == [] then 0 else CountOf(chosen, ids[0]) + SumOfCounts(chosen, ids[1..])
  }

  /** How often `e` appears in `ids`. */
  function Occurrences(ids: seq<Id>, e: Id): nat {
    if ids == [] then 0 else (if ids[0] == e then 1 else 0) + Occurrences(ids[1..], e)
  }

  /**
   * The frequency counts add up to the number of sets in the period: summing them over any list of
   * distinct ids that covers every counted exercise gives `|chosen|`.
   */
  lemma {:induction false} CountsSumToTotal(chosen: seq<WorkoutSet>, ids: seq<Id>)
    requires forall i, j :: 0 <= i < j < |ids| ==> ids[i] != ids[j]
    requires forall i :: 0 <= i < |chosen| ==> chosen[i].exercise in ids
    ensures SumOfCounts(chosen, ids) == |chosen|
    decreases |chosen|
  {
    if chosen == [] {
      ZeroCounts(ids);
    } else {
      var init, last := chosen[..|chosen| - 1], chosen[|chosen| - 1];
      assert forall i :: 0 <= i < |init| ==> init[i] == chosen[i];
      CountsSumToTotal(init, ids);
      SumOfCountsSnoc(init, last, ids);
      OccursOnce(ids, last.exercise);
      assert init + [last] == chosen;
    }
  }

  lemma {:induction false} ZeroCounts(ids: seq<Id>)
    ensures SumOfCounts([], ids) == 0
  {
    if ids != [] {
      ZeroCounts(ids[1..]);
    }
  }

  lemma {:induction false} SumOfCountsSnoc(init: seq<WorkoutSet>, last: WorkoutSet, ids: seq<Id>)
    ensures SumOfCounts(init + [last], ids) == SumOfCounts(init, ids) + Occurrences(ids, last.exercise)
  {
    if ids != [] {
      assert (init + [last])[..|init|] == init;
      SumOfCountsSnoc(init, last, ids[1..]);
    }
  }

  lemma {:induction false} OccursOnce(ids: seq<Id>, e: Id)
    requires forall i, j :: 0 <= i < j < |ids| ==> ids[i] != ids[j]
    requires e in ids
    ensures Occurrences(ids, e) == 1
  {
    if ids[0] == e {
      NotOccurring(ids[1..], e);
    } else {
      OccursOnce(ids[1..], e);
    }
  }

  lemma {:induction false} NotOccurring(ids: seq<Id>, e: Id)
    requires e !in ids
    ensures Occurrences(ids, e) == 0
  {
    if ids != [] {
      NotOccurring(ids[1..], e);
    }
  }

  // ---------------------------------------------------------------------------------------------
  // most frequent exercises

  /** Whether an id names a stored exercise, as a function value. */
  function Resolvable(exercises: seq<Exercise>): Id -> bool {
    (id: Id) => HasExercise(exercises, id)
  }

  /** Whether some exercise of `result` has the id. */
  predicate Returned(result: seq<Exercise>, id: Id) {
    exists i :: 0 <= i < |result| && result[i].id == id
  }

  /**
   * The exercises the ids resolve to, in order; an id no exercise has is skipped, so the ids of
   * the result are exactly the resolvable ids.
   */
  function Resolve(exercises: seq<Exercise>, ids: seq<Id>): (r: seq<Exercise>)
    ensures Map(r, ExerciseId) == Filter(ids, Resolvable(exercises))
    ensures forall i :: 0 <= i < |r| ==> r[i] in exercises && r[i].id in ids
  {
    if ids == [] then []
    else
      var init, last := ids[..|ids| - 1], ids[|ids| - 1];
      var rest := Resolve(exercises, init);
      assert ids == init + [last];
      FilterAppend(init, [last], Resolvable(exercises));
      match FindExercise(exercises, last)
      case None => rest
      case Some(k) =>
        MapAppend(rest, [exercises[k]], ExerciseId);
        WithinAfterSnoc(rest, exercises[k], exercises, ids);
        rest + [exercises[k]]
  }

  /** Appending a stored exercise whose id is listed keeps every exercise stored and listed. */
  lemma WithinAfterSnoc(rest: seq<Exercise>, x: Exercise, exercises: seq<Exercise>, ids: seq<Id>)
    requires forall i :: 0 <= i < |rest| ==> rest[i] in exercises && rest[i].id in ids
    requires x in exercises && x.id in ids
    ensures forall i :: 0 <= i < |rest + [x]| ==> (rest + [x])[i] in exercises && (rest + [x])[i].id in ids
  {
  }

  /** Resolving one more id adds at most its own exercise at the end. */
  lemma ResolveLast(exercises: seq<Exercise>, ids: seq<Id>)
    requires ids != []
    ensures var r, rest := Resolve(exercises, ids), Resolve(exercises, ids[..|ids| - 1]);
      r == rest || (r == rest + [r[|rest|]] && r[|rest|].id == ids[|ids| - 1])
  {
  }

  /** Resolving keeps the order of the ids: ids listed by non-increasing `f` resolve likewise. */
  lemma {:induction false} ResolveKeepsOrder(exercises: seq<Exercise>, ids: seq<Id>, f: Id -> int)
    requires forall i, j :: 0 <= i < j < |ids| ==> f(ids[i]) >= f(ids[j])
    ensures forall a, b :: 0 <= a < b < |Resolve(exercises, ids)| ==>
      f(Resolve(exercises, ids)[a].id) >= f(Resolve(exercises, ids)[b].id)
  {
    if ids != [] {
      var init, last := ids[..|ids| - 1], ids[|ids| - 1];
      assert forall i :: 0 <= i < |init| ==> init[i] == ids[i];
      ResolveKeepsOrder(exercises, init, f);
      var rest, r := Resolve(exercises, init), Resolve(exercises, ids);
      forall a | 0 <= a < |rest| ensures f(rest[a].id) >= f(last) {
        var k :| 0 <= k < |init| && init[k] == rest[a].id;
      }
      ResolveLast(exercises, ids);
      OrderedAfterSnoc(rest, r, last, f);
    }
  }

  /** An ordered list stays ordered when an element that no earlier one trails may be appended. */
  lemma OrderedAfterSnoc(rest: seq<Exercise>, r: seq<Exercise>, last: Id, f: Id -> int)
    requires forall a, b :: 0 <= a < b < |rest| ==> f(rest[a].id) >= f(rest[b].id)
    requires forall a :: 0 <= a < |rest| ==> f(rest[a].id) >= f(last)
    requires r == rest || (|r| == |rest| + 1 && r == rest + [r[|rest|]] && r[|rest|].id == last)
    ensures forall a, b :: 0 <= a < b < |r| ==> f(r[a].id) >= f(r[b].id)
  {
    if r != rest {
      forall a, b | 0 <= a < b < |r| ensures f(r[a].id) >= f(r[b].id) {
        assert r[a] == rest[a];
      }
    }
  }

  /**
   * `getMostFrequentExercises`: at most `limit` distinct exercises of the period, by non-increasing
   * frequency; no resolvable exercise left out outranks one kept. Ids are cut to `limit` before they
   * are resolved, so the result is full (or holds every counted exercise) when every counted id
   * resolves. A negative `limit` traps in `prefix`.
   */
  method GetMostFrequentExercises(sets: seq<WorkoutSet>, logs: seq<WorkoutLog>, exercises: seq<Exercise>,
                                  start: Date, end: Date, limit: int)
    returns (result: seq<Exercise>)
    requires limit >= 0
    ensures var chosen := SetsInPeriod(sets, logs, start, end);
      && |result| <= limit
      && (forall i :: 0 <= i < |result| ==> result[i] in exercises && CountOf(chosen, result[i].id) > 0)
      && (forall i, j :: 0 <= i < j < |result| ==> CountOf(chosen, result[i].id) >= CountOf(chosen, result[j].id))
      && (forall i, j :: 0 <= i < j < |result| ==> result[i].id != result[j].id)
    ensures var chosen := SetsInPeriod(sets, logs, start, end);
      forall id :: HasExercise(exercises, id) && CountOf(chosen, id) > 0 && !Returned(result, id) ==>
        forall i :: 0 <= i < |result| ==> CountOf(chosen, id) <= CountOf(chosen, result[i].id)
    ensures var chosen := SetsInPeriod(sets, logs, start, end);
      (forall i :: 0 <= i < |chosen| ==> HasExercise(exercises, chosen[i].exercise)) ==>
        |result| == limit || forall id :: CountOf(chosen, id) > 0 ==> Returned(result, id)
  {
    var frequency := GetExerciseFrequency(sets, logs, start, end);
    var keys := MapKeys<Id, nat>(frequency);
    var count := (k: Id) => if k in frequency then Some(frequency[k] as int) else None;
    var sortedIds := SortByKey(keys, count, false);
    var top := Prefix(sortedIds, limit);
    ghost var chosen := SetsInPeriod(sets, logs, start, end);
    TopIsRanked(frequency, chosen, keys, sortedIds, top, count);
    result := ResolveAll(exercises, top);
    ResolveKeepsOrder(exercises, top, (k: Id) => CountOf(chosen, k) as int);
    RankedResult(exercises, chosen, top, result, limit, |top| == |sortedIds|);
  }

  /** What resolving the ranked ids keeps of the ranking: distinct ids, no outranking, and completeness. */
  lemma RankedResult(exercises: seq<Exercise>, chosen: seq<WorkoutSet>, top: seq<Id>, result: seq<Exercise>,
                     limit: nat, whole: bool)
    requires result == Resolve(exercises, top)
    requires Distinct(top)
    requires forall e :: CountOf(chosen, e) > 0 && e !in top ==>
      forall i :: 0 <= i < |top| ==> CountOf(chosen, e) <= CountOf(chosen, top[i])
    requires forall i :: 0 <= i < |top| ==> CountOf(chosen, top[i]) > 0
    requires whole || |top| == limit
    requires whole ==> forall e :: CountOf(chosen, e) > 0 ==> e in top
    ensures forall i, j :: 0 <= i < j < |result| ==> result[i].id != result[j].id
    ensures forall id :: HasExercise(exercises, id) && CountOf(chosen, id) > 0 && !Returned(result, id) ==>
      forall i :: 0 <= i < |result| ==> CountOf(chosen, id) <= CountOf(chosen, result[i].id)
    ensures (forall i :: 0 <= i < |chosen| ==> HasExercise(exercises, chosen[i].exercise)) ==>
      |result| == limit || forall id :: CountOf(chosen, id) > 0 ==> Returned(result, id)
  {
    ResolvedDistinct(exercises, top);
    ResolvedAll(exercises, top);
    ResolvedWhole(exercises, chosen, top);
  }

  /** Resolving ids without repeats gives exercises without repeated ids. */
  lemma ResolvedDistinct(exercises: seq<Exercise>, top: seq<Id>)
    requires Distinct(top)
    ensures var result := Resolve(exercises, top);
      forall i, j :: 0 <= i < j < |result| ==> result[i].id != result[j].id
  {
    var result := Resolve(exercises, top);
    var ids := Map(result, ExerciseId);
    FilterDistinct(top, Resolvable(exercises));
    forall i, j | 0 <= i < j < |result| ensures result[i].id != result[j].id {
      assert ids[i] == result[i].id && ids[j] == result[j].id;
    }
  }

  /** Every listed id that names an exercise is among the resolved ones. */
  lemma ResolvedAll(exercises: seq<Exercise>, top: seq<Id>)
    ensures forall k :: 0 <= k < |top| && HasExercise(exercises, top[k]) ==> Returned(Resolve(exercises, top), top[k])
  {
    var result := Resolve(exercises, top);
    var ids := Map(result, ExerciseId);
    forall k | 0 <= k < |top| && HasExercise(exercises, top[k]) ensures Returned(result, top[k]) {
      assert Resolvable(exercises)(top[k]);
      var m :| 0 <= m < |ids| && ids[m] == top[k];
      assert result[m].id == top[k];
    }
  }

  /** When every set's exercise is stored, no counted id is skipped. */
  lemma ResolvedWhole(exercises: seq<Exercise>, chosen: seq<WorkoutSet>, top: seq<Id>)
    requires forall k :: 0 <= k < |top| ==> CountOf(chosen, top[k]) > 0
    ensures (forall i :: 0 <= i < |chosen| ==> HasExercise(exercises, chosen[i].exercise)) ==>
      |Resolve(exercises, top)| == |top|
  {
    if forall i :: 0 <= i < |chosen| ==> HasExercise(exercises, chosen[i].exercise) {
      assert forall k :: 0 <= k < |top| ==> Resolvable(exercises)(top[k]);
      FilterKeepsAll(top, Resolvable(exercises));
      assert |Map(Resolve(exercises, top), ExerciseId)| == |top|;
    }
  }

  /** The fetch loop of `getMostFrequentExercises`: each id's exercise, when there is one. */
  method ResolveAll(exercises: seq<Exercise>, ids: seq<Id>) returns (result: seq<Exercise>)
    ensures result == Resolve(exercises, ids)
  {
    result := [];
    var i := 0;
    while i < |ids|
      invariant 0 <= i <= |ids|
      invariant result == Resolve(exercises, ids[..i])
    {
      assert ids[..i + 1][..i] == ids[..i];
      var found := FindExercise(exercises, ids[i]);
      if found.Some? {
        result := result + [exercises[found.value]];
      }
      i := i + 1;
    }
    assert ids[..|ids|] == ids;
  }

  /**
   * The ids kept after sorting and cutting are distinct counted ids, by non-increasing count; a
   * counted id cut off counts no more than any kept one, and when nothing was cut every counted id
   * was kept.
   */
  lemma TopIsRanked(frequency: map<Id, nat>, chosen: seq<WorkoutSet>, keys: seq<Id>, sortedIds: seq<Id>, top: seq<Id>,
                    count: Id -> Option<int>)
    requires forall e :: (e in frequency <==> CountOf(chosen, e) > 0) && (e in frequency ==> frequency[e] == CountOf(chosen, e))
    requires forall k :: k in keys <==> k in frequency
    requires Distinct(keys)
    requires forall k :: count(k) == if k in frequency then Some(frequency[k] as int) else None
    requires multiset(sortedIds) == multiset(keys)
    requires forall i, j :: 0 <= i < j < |sortedIds| ==> OptionLe(count(sortedIds[j]), count(sortedIds[i]))
    requires |top| <= |sortedIds| && forall i :: 0 <= i < |top| ==> top[i] == sortedIds[i]
    ensures forall i :: 0 <= i < |top| ==> CountOf(chosen, top[i]) > 0
    ensures forall i, j :: 0 <= i < j < |top| ==> CountOf(chosen, top[i]) >= CountOf(chosen, top[j])
    ensures Distinct(top)
    ensures forall e :: CountOf(chosen, e) > 0 && e !in top ==>
      forall i :: 0 <= i < |top| ==> CountOf(chosen, e) <= CountOf(chosen, top[i])
    ensures |top| == |sortedIds| ==> forall e :: CountOf(chosen, e) > 0 ==> e in top
  {
    SameElements(sortedIds, keys);
    DistinctPreserved(keys, sortedIds);
    forall i | 0 <= i < |top| ensures top[i] in frequency {
      assert sortedIds[i] in keys;
    }
    forall i, j | 0 <= i < j < |top| ensures CountOf(chosen, top[i]) >= CountOf(chosen, top[j]) {
      assert OptionLe(count(sortedIds[j]), count(sortedIds[i]));
    }
    forall e | CountOf(chosen, e) > 0 && e !in top
      ensures forall i :: 0 <= i < |top| ==> CountOf(chosen, e) <= CountOf(chosen, top[i])
    {
      assert e in keys;
      var p :| 0 <= p < |sortedIds| && sortedIds[p] == e;
      assert p >= |top| by {
        assert forall q :: 0 <= q < |top| ==> top[q] != e;
      }
      forall i | 0 <= i < |top| ensures CountOf(chosen, e) <= CountOf(chosen, top[i]) {
        assert OptionLe(count(sortedIds[p]), count(sortedIds[i]));
      }
    }
    if |top| == |sortedIds| {
      forall e | CountOf(chosen, e) > 0 ensures e in top {
        assert e in keys;
        var p :| 0 <= p < |sortedIds| && sortedIds[p] == e;
        assert top[p] == e;
      }
    }
  }
}
