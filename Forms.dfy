/**
 * The three set forms: `WorkoutFormView` (home screen), `CalendarWorkoutFormView` (a chosen day)
 * and `EditWorkoutFormView` (an existing set). Each keeps a weight and a rep count in view state,
 * changed by stepper buttons and, in the edit form, by text fields; saving hands the pair on.
 */
module Forms {
  import opened Collections
  import opened Numbers
  import opened Calendar
  import opened Records
  import opened DataStore
  import opened CalendarScreen

  /** `isFormValid` of all three forms. */
  predicate FormValid(weight: real, reps: int) {
    weight > 0.0 && reps > 0
  }

  // ---------------------------------------------------------------------------------------------
  // the stepper buttons of the two new-set forms

  /** The weight minus button: only acts on a positive weight, and stops at 0. */
  function WeightMinus(weight: real): (w: real)
    ensures weight <= 0.0 ==> w == weight
    ensures weight > 0.0 ==> 0.0 <= w < weight && weight - w <= 2.5
    ensures w > 0.0 ==> w == weight - 2.5
  {
    if weight > 0.0 then MaxOfReals(0.0, weight - 2.5) else weight
  }

  /** The weight plus button. */
  function WeightPlus(weight: real): (w: real)
    ensures w > weight && w - weight == 2.5
  {
    weight + 2.5
  }

  /** The reps minus button: only acts above 1. */
  function RepsMinus(reps: int): (r: int)
    ensures reps > 1 ==> r == reps - 1
    ensures reps <= 1 ==> r == reps
  {
    if reps > 1 then reps - 1 else reps
  }

  /** The reps plus button. */
  function RepsPlus(reps: int): (r: int)
    ensures r > reps && r - reps == 1
  {
    reps + 1
  }

  /** The buttons keep a non-negative weight non-negative and at least one rep at least one. */
  lemma SteppersKeepBounds(weight: real, reps: int)
    requires weight >= 0.0 && reps >= 1
    ensures WeightMinus(weight) >= 0.0 && WeightPlus(weight) >= 0.0
    ensures RepsMinus(reps) >= 1 && RepsPlus(reps) >= 1
  {
  }

  /** Minus undoes plus; plus undoes minus whenever minus did not stop at its bound. */
  lemma SteppersUndoEachOther(weight: real, reps: int)
    ensures weight >= 0.0 ==> WeightMinus(WeightPlus(weight)) == weight
    ensures weight >= 2.5 ==> WeightPlus(WeightMinus(weight)) == weight
    ensures reps >= 1 ==> RepsMinus(RepsPlus(reps)) == reps
    ensures reps > 1 ==> RepsPlus(RepsMinus(reps)) == reps
  {
  }

  /** A fresh form (0 kg, 1 rep) cannot be saved; one press of weight plus makes it savable. */
  lemma FreshFormNeedsWeight()
    ensures !FormValid(0.0, 1)
    ensures FormValid(WeightPlus(0.0), 1)
    ensures !FormValid(WeightMinus(0.0), RepsMinus(1))
  {
  }

  // ---------------------------------------------------------------------------------------------
  // the edit form's text fields and steppers

  /** `replacingOccurrences(of: ",", with: ".")`. */
  function ReplaceCommas(s: string): (r: string)
    ensures |r| == |s| && ',' !in r
    ensures forall i :: 0 <= i < |s| && s[i] != ',' ==> r[i] == s[i]
    ensures forall i :: 0 <= i < |s| && s[i] == ',' ==> r[i] == '.'
  {
    seq(|s|, i requires 0 <= i < |s| => if s[i] == ',' then '.' else s[i])
  }

  /** The weight after the weight text changes to `text`: its value, or `current` when it does not parse. */
  function ParsedWeight(text: string, current: real): (w: real)
    ensures w == current || ParseDecimal(ReplaceCommas(text)) == Some(w)
    ensures ParseDecimal(ReplaceCommas(text)).Some? ==> w == ParseDecimal(ReplaceCommas(text)).value
  {
    match ParseDecimal(ReplaceCommas(text))
    case Some(v) => v
    case None => current
  }

  /** The reps after the reps text changes to `text`: `Int(text)`, or `current` when it does not parse. */
  function ParsedReps(text: string, current: int): (r: int)
    ensures r == current || ParseInt(text) == Some(r)
    ensures ParseInt(text).Some? ==> r == ParseInt(text).value
  {
    match ParseInt(text)
    case Some(v) => v
    case None => current
  }

  /** `adjustWeight(delta)`: the weight moved by `delta`, at least 0, rounded to a tenth. */
  function AdjustedWeight(weight: real, delta: real): (w: real)
    ensures w >= 0.0
    ensures w - 0.05 <= MaxOfReals(0.0, weight + delta) <= w + 0.05
    ensures Tenths(w) as real / 10.0 == w
  {
    var newWeight := MaxOfReals(0.0, weight + delta);
    var k := RoundHalfAway(newWeight * 10.0);
    TenthsOfTenths(k);
    k as real / 10.0
  }

  /** `adjustReps(delta)`: the count moved by `delta`, at least 1. */
  function AdjustedReps(reps: int, delta: int): (r: int)
    ensures r >= 1
    ensures reps + delta >= 1 ==> r == reps + delta
    ensures reps + delta < 1 ==> r == 1
  {
    if reps + delta >= 1 then reps + delta else 1
  }

  /** A comma and a point are read alike: the text parses as if every comma were a point. */
  lemma {:induction false} CommaReadsAsPoint(text: string, current: real)
    ensures ParsedWeight(text, current) == ParsedWeight(ReplaceCommas(text), current)
  {
    assert ReplaceCommas(ReplaceCommas(text)) == ReplaceCommas(text);
  }

  /** A decimal comma reads as a point: `"62,5"` is 62.5 kg, and so for every `whole,d`. */
  lemma CommaTenths(whole: string, d: nat, current: real)
    requires whole != [] && AllDigits(whole) && d < 10
    ensures ParsedWeight(whole + "," + [DigitChar(d)], current) == DigitsValue(whole) as real + d as real / 10.0
  {
    var text := whole + "," + [DigitChar(d)];
    var pointed := whole + "." + [DigitChar(d)];
    assert forall i :: 0 <= i < |whole| ==> text[i] == whole[i] && whole[i] != ',';
    assert ReplaceCommas(text) == pointed;
    ParseTenthsText(whole, d, DigitsValue(whole) as real + d as real / 10.0);
  }

  /** Text without a single digit never parses, so it leaves the value as it was. */
  lemma NoDigitKeepsValues(text: string, weight: real, reps: int)
    requires forall i :: 0 <= i < |text| ==> !IsDigit(text[i])
    ensures ParsedWeight(text, weight) == weight
    ensures ParsedReps(text, reps) == reps
  {
    var t := ReplaceCommas(text);
    assert !IsDigit('.');
    NoDigitNoNumber(t);
    if |t| > 0 {
      NoDigitNoNumber(t[1..]);
    }
    if |text| > 1 {
      assert !IsDigit(text[1..][0]);
    }
  }

  lemma NoDigitNoNumber(body: string)
    requires forall i :: 0 <= i < |body| ==> !IsDigit(body[i])
    ensures ParseUnsignedDecimal(body).None?
  {
    var k := IndexOf(body, '.');
    assert |body[..k]| > 0 ==> !IsDigit(body[..k][0]);
    assert k < |body| && |body[k + 1..]| > 0 ==> !IsDigit(body[k + 1..][0]);
  }

  /** `%.1f` writes no comma: the digits, a point and at most a minus sign. */
  lemma TenthsHaveNoComma(x: real)
    ensures ReplaceCommas(FormatTenths(x)) == FormatTenths(x)
  {
    var t := Tenths(x);
    var a := if t < 0 then -t else t;
    var whole := NatToString(a / 10);
    assert !IsDigit(',');
    assert ',' !in whole;
    assert FormatTenths(x) == (if x < 0.0 then "-" else "") + whole + "." + [DigitChar(a % 10)];
  }

  /** The weight text written by the form reads back as the weight rounded to a tenth. */
  lemma WeightTextReadsBack(x: real, current: real)
    ensures ParsedWeight(FormatTenths(x), current) == Tenths(x) as real / 10.0
  {
    TenthsHaveNoComma(x);
    FormatTenthsRoundTrip(x);
  }

  /** The text `adjustWeight` writes reparses to exactly the weight it set. */
  lemma AdjustedWeightTextIsStable(weight: real, delta: real, current: real)
    ensures ParsedWeight(FormatTenths(AdjustedWeight(weight, delta)), current) == AdjustedWeight(weight, delta)
  {
    WeightTextReadsBack(AdjustedWeight(weight, delta), current);
  }

  /** The reps text written by the form reads back as the count, whenever it fits in an `Int`. */
  lemma RepsTextReadsBack(n: int, current: int)
    requires InInt64(n)
    ensures ParsedReps(IntToString(n), current) == n
  {
    ParseIntRoundTrip(n);
  }

  // ---------------------------------------------------------------------------------------------
  // the forms

  /** `WorkoutFormView`: a new set for today, prefilled from the previous set of the exercise. */
  class WorkoutForm {
    const exercise: Id
    const lastWorkoutSet: Option<WorkoutSet>
    var weight: real
    var reps: int

    constructor(exercise: Id, lastWorkoutSet: Option<WorkoutSet>)
      ensures this.exercise == exercise && this.lastWorkoutSet == lastWorkoutSet
      ensures weight == 0.0 && reps == 1 && !FormValid(weight, reps)
    {
      this.exercise := exercise;
      this.lastWorkoutSet := lastWorkoutSet;
      weight := 0.0;
      reps := 1;
    }

    /** `onAppear`: the previous set's weight and reps, when there is one. */
    method OnAppear()
      modifies this
      ensures lastWorkoutSet.Some? ==> weight == lastWorkoutSet.value.weight && reps == lastWorkoutSet.value.reps
      ensures lastWorkoutSet.None? ==> weight == old(weight) && reps == old(reps)
    {
      if lastWorkoutSet.Some? {
        weight := lastWorkoutSet.value.weight;
        reps := lastWorkoutSet.value.reps;
      }
    }

    method DecreaseWeight()
      modifies this
      ensures weight == WeightMinus(old(weight)) && reps == old(reps)
    {
      if weight > 0.0 {
        weight := MaxOfReals(0.0, weight - 2.5);
      }
    }

    method IncreaseWeight()
      modifies this
      ensures weight == WeightPlus(old(weight)) && reps == old(reps)
    {
      weight := weight + 2.5;
    }

    method DecreaseReps()
      modifies this
      ensures reps == RepsMinus(old(reps)) && weight == old(weight)
    {
      if reps > 1 {
        reps := reps - 1;
      }
    }

    method IncreaseReps()
      modifies this
      ensures reps == RepsPlus(old(reps)) && weight == old(weight)
    {
      reps := reps + 1;
    }

    /** `saveWorkout`: the values handed to `onSave`. */
    method SaveWorkout() returns (savedWeight: real, savedReps: int)
      ensures savedWeight == weight && savedReps == reps
    {
      savedWeight, savedReps := weight, reps;
    }
  }

  /**
   * `CalendarWorkoutFormView`: a new set for a chosen day, through a calendar view-model of its
   * own over the shared store.
   */
  class CalendarWorkoutForm {
    const viewModel: CalendarViewModel
    const exercise: Id
    const date: Date
    var weight: real
    var reps: int

    /** `now` is the clock reading the form's own view-model starts from. */
    constructor(store: CoreDataManager, now: Date, exercise: Id, date: Date)
      ensures fresh(viewModel) && viewModel.store == store
      ensures this.exercise == exercise && this.date == date
      ensures weight == 0.0 && reps == 1
    {
      viewModel := new CalendarViewModel(store, now);
      this.exercise := exercise;
      this.date := date;
      weight := 0.0;
      reps := 1;
    }

    /** `onAppear`: prefilled from the exercise's latest set in the store, when there is one. */
    method OnAppear()
      modifies this
      ensures var last := GetLastWorkoutSet(viewModel.store.sets, viewModel.store.logs, exercise);
        && (last.Some? ==> weight == last.value.weight && reps == last.value.reps)
        && (last.None? ==> weight == old(weight) && reps == old(reps))
    {
      var lastSet := GetLastWorkoutSet(viewModel.store.sets, viewModel.store.logs, exercise);
      if lastSet.Some? {
        weight := lastSet.value.weight;
        reps := lastSet.value.reps;
      }
    }

    method DecreaseWeight()
      modifies this
      ensures weight == WeightMinus(old(weight)) && reps == old(reps)
    {
      if weight > 0.0 {
        weight := MaxOfReals(0.0, weight - 2.5);
      }
    }

    method IncreaseWeight()
      modifies this
      ensures weight == WeightPlus(old(weight)) && reps == old(reps)
    {
      weight := weight + 2.5;
    }

    method DecreaseReps()
      modifies this
      ensures reps == RepsMinus(old(reps)) && weight == old(weight)
    {
      if reps > 1 {
        reps := reps - 1;
      }
    }

    method IncreaseReps()
      modifies this
      ensures reps == RepsPlus(old(reps)) && weight == old(weight)
    {
      reps := reps + 1;
    }

    /**
     * `saveWorkout`: one set with the form's values is added on the form's day, in that day's
     * log, found or created; then the same values go to `onSave`.
     */
    method SaveWorkout() returns (savedWeight: real, savedReps: int)
      requires viewModel.store.Valid() && HasExercise(viewModel.store.exercises, exercise)
      modifies viewModel, viewModel.store
      ensures viewModel.store.Valid()
      ensures GetWorkoutLog(viewModel.store.logs, date).Some?
      ensures old(GetWorkoutLog(viewModel.store.logs, date)).Some? ==>
        viewModel.store.logs == old(viewModel.store.logs)
        && GetWorkoutLog(viewModel.store.logs, date) == old(GetWorkoutLog(viewModel.store.logs, date))
      ensures old(GetWorkoutLog(viewModel.store.logs, date)).None? ==>
        viewModel.store.logs == old(viewModel.store.logs) + [WorkoutLog(old(viewModel.store.nextId), date)]
      ensures viewModel.store.exercises == old(viewModel.store.exercises)
      ensures savedWeight == weight && savedReps == reps
      ensures |viewModel.store.sets| == |old(viewModel.store.sets)| + 1
      ensures viewModel.store.sets[..|old(viewModel.store.sets)|] == old(viewModel.store.sets)
      ensures viewModel.store.sets[|old(viewModel.store.sets)|] ==
        WorkoutSet(viewModel.store.nextId - 1, exercise, GetWorkoutLog(viewModel.store.logs, date).value.id, weight, reps)
    {
      var store := viewModel.store;
      viewModel.AddWorkoutSet(date, exercise, weight, reps);
      assert store.Valid();
      savedWeight, savedReps := weight, reps;
    }
  }

  /** `EditWorkoutFormView`: an existing set's weight and reps, as numbers and as field texts. */
  class EditWorkoutForm {
    const workoutSet: WorkoutSet
    var weight: real
    var reps: int
    var weightString: string
    var repsString: string

    /** `init`: the set's own values, the weight written with one decimal. */
    constructor(workoutSet: WorkoutSet)
      ensures this.workoutSet == workoutSet
      ensures weight == workoutSet.weight && reps == workoutSet.reps
      ensures weightString == FormatTenths(workoutSet.weight) && repsString == IntToString(workoutSet.reps)
    {
      this.workoutSet := workoutSet;
      weight := workoutSet.weight;
      reps := workoutSet.reps;
      weightString := FormatTenths(workoutSet.weight);
      repsString := IntToString(workoutSet.reps);
    }

    /** The weight field now holds `newValue`, and its `onChange` handler ran. */
    method WeightTextChanged(newValue: string)
      modifies this
      ensures weightString == newValue && weight == ParsedWeight(newValue, old(weight))
      ensures reps == old(reps) && repsString == old(repsString)
    {
      weightString := newValue;
      var newWeight := ParseDecimal(ReplaceCommas(newValue));
      if newWeight.Some? {
        weight := newWeight.value;
      }
    }

    /** The reps field now holds `newValue`, and its `onChange` handler ran. */
    method RepsTextChanged(newValue: string)
      modifies this
      ensures repsString == newValue && reps == ParsedReps(newValue, old(reps))
      ensures weight == old(weight) && weightString == old(weightString)
    {
      repsString := newValue;
      var newReps := ParseInt(newValue);
      if newReps.Some? {
        reps := newReps.value;
      }
    }

    /**
     * `adjustWeight(delta)`: the weight is moved, clamped and rounded, and its text rewritten; the
     * text field's handler then reparses that text, which leaves the weight as set.
     */
    method AdjustWeight(delta: real)
      modifies this
      ensures weight == AdjustedWeight(old(weight), delta) && weight >= 0.0
      ensures weightString == FormatTenths(weight)
      ensures reps == old(reps) && repsString == old(repsString)
    {
      weight := AdjustedWeight(weight, delta);
      WeightTextReadsBack(weight, weight);
      WeightTextChanged(FormatTenths(weight));
    }

    /**
     * `adjustReps(delta)`: the count is moved and kept at least 1, and its text rewritten; the
     * text field's handler then reparses that text, which leaves the count as set.
     */
    method AdjustReps(delta: int)
      modifies this
      ensures reps == AdjustedReps(old(reps), delta) && reps >= 1
      ensures repsString == IntToString(reps)
      ensures weight == old(weight) && weightString == old(weightString)
    {
      var newReps := if reps + delta >= 1 then reps + delta else 1;
      reps := newReps;
      if InInt64(newReps) {
        RepsTextReadsBack(newReps, reps);
      }
      RepsTextChanged(IntToString(newReps));
    }

    /** `saveWorkout`: the values handed to `onSave`. */
    method SaveWorkout() returns (savedWeight: real, savedReps: int)
      ensures savedWeight == weight && savedReps == reps
    {
      savedWeight, savedReps := weight, reps;
    }
  }
}
