# MuscleMemo, modelled in Dafny

MuscleMemo is an iOS workout logger. The user keeps a catalogue of exercises, some seeded as
defaults and some added by hand, and marks favourites. Every training day gets one workout log,
and each log holds the sets done that day: an exercise, a weight and a number of repetitions.
The app shows today's sets, a month calendar with the days trained, a weight-progress chart per
exercise with monthly statistics, and a rest timer.

This project models the logic behind those screens.

- **The store** (`CoreDataManager`) is a class holding three sequences: exercises, logs and sets,
  in fetch order. A `nextId` counter stands in for `UUID()`. Its queries are functions of the
  sequences. Its insertions and updates are methods, and each keeps the store invariant `Valid`:
  ids are unique and issued, and every set's exercise and log exist.
- **The view-models** are classes whose fields the source updates in place: home, calendar,
  statistics, exercise management and settings.
- **The forms and the rest timer** are classes too: the three set forms and `RestTimerManager`.
- **The pure helpers** are functions with lemmas: `WorkoutManager`'s statistics, the weight
  chart's computed properties, the month helpers on `Date` and the hex colour decoder.

Modules, one per file:

| module | covers |
|---|---|
| `Calendar` | civil days, instants, day and month arithmetic, `Date+Extension` |
| `Records` | the three entities and their lookups |
| `DataStore` | `CoreDataManager` |
| `Workouts` | `WorkoutManager` |
| `Statistics` | `StatisticsViewModel` |
| `Chart` | `WeightProgressChart` |
| `MonthGrid` | the calendar grid |
| `CalendarScreen` | `CalendarViewModel` |
| `DaySets` | a day's set list |
| `Home` | `HomeViewModel` |
| `ExerciseManagement` | `ExerciseManagementViewModel` |
| `ExerciseViews` | `ExerciseSelectorView`, `ExerciseManagementView` |
| `Settings` | `SettingsViewModel` |
| `RestTimer` | `RestTimerManager` |
| `Forms` | the three set forms |
| `HexColor` | `Color(hex:)` |
| `Numbers` | Swift's integer and decimal text |
| `Text` | string search and order |
| `Collections` | generic sequence helpers |

**Dates.** A date is a valid civil day plus a second within it. Days have a fixed 86 400 seconds.
`Key` orders dates chronologically. Weekdays count from 1970-01-01, a Thursday, with 1 for Sunday
as Foundation numbers them. Adding months clamps the day to the target month, as
`Calendar.date(byAdding:)` does.

**Quirks kept as the source has them.**

- Deleting a set keeps its log, even when the log is left empty.
- Deleting an exercise leaves logs alone.
- Adding an exercise checks for neither duplicates nor blanks.
- Seeding compares only against the names of default exercises.
- `createWorkoutLog` stores the date as given, not the start of its day.
- `isDateInCurrentMonth` compares the month and ignores the year.
- "Total weight" sums `weight`, not `weight × reps`.

## Model

| member | source | states |
|---|---|---|
| DataStore.GetAllExercises | MuscleMemo/Models/Managers/CoreDataManager.swift:69-83 | the result is a permutation of all exercises, sorted by name ascending |
| DataStore.GetFavoriteExercises | MuscleMemo/Models/Managers/CoreDataManager.swift:85-98 | the result holds exactly the favourite exercises, each as often as stored, sorted by name ascending |
| DataStore.DefaultNames | MuscleMemo/Models/Managers/CoreDataManager.swift:45-50 | every default exercise's name is listed, and every listed name belongs to some default exercise |
| DataStore.MissingDefaults | MuscleMemo/Models/Managers/CoreDataManager.swift:53-54 | a name is missing exactly when it is in the catalogue and not among the existing default names |
| DataStore.Seeded | MuscleMemo/Models/Managers/CoreDataManager.swift:55-59 | each seeded exercise carries its catalogue name, is default and not a favourite, with consecutive fresh ids |
| DataStore.CoreDataManager.CreateDefaultExercises | MuscleMemo/Models/Managers/CoreDataManager.swift:41-67 | seeding appends exactly the missing catalogue names, in catalogue order, as default non-favourite exercises; afterwards every catalogue name is a default exercise's name; logs and sets are unchanged |
| DataStore.SeedingIdempotent | MuscleMemo/Models/Managers/CoreDataManager.swift:41-67 | after one seeding run, a second run finds nothing missing and adds nothing |
| DataStore.CoreDataManager.ToggleFavorite | MuscleMemo/Models/Managers/CoreDataManager.swift:100-104 | only that exercise's favourite flag is negated, the new flag is returned, and everything else is unchanged |
| DataStore.FirstLogOfDay | MuscleMemo/Models/Managers/CoreDataManager.swift:114-118 | the position found is the first log dated on d's day, or the end when there is none |
| DataStore.GetWorkoutLog | MuscleMemo/Models/Managers/CoreDataManager.swift:108-123 | nil exactly when no log is dated on d's day; otherwise a stored log dated on that day |
| DataStore.CoreDataManager.CreateWorkoutLog | MuscleMemo/Models/Managers/CoreDataManager.swift:125-131 | one new log with a fresh id, stamped with the given date itself; nothing else changes |
| DataStore.CoreDataManager.GetOrCreateWorkoutLog | MuscleMemo/Models/Managers/CoreDataManager.swift:133-139 | an existing log of the day is returned and the store is unchanged; otherwise exactly one log for d is created; afterwards the day's log is the one returned, and one log per day is preserved |
| DataStore.GetWorkoutLogAfterCreate | MuscleMemo/Models/Managers/CoreDataManager.swift:133-139 | a log created on a day without one becomes that day's log |
| DataStore.GetWorkoutLogStable | MuscleMemo/Models/Managers/CoreDataManager.swift:133-139 | creating a log never changes the answer for a day that already has a log, so a second find-or-create returns the first one's log |
| DataStore.GetDatesWithWorkouts | MuscleMemo/Models/Managers/CoreDataManager.swift:141-168 | a date is listed exactly when some log has it and it lies in m's year and month |
| DataStore.DatesWithWorkoutsPerLog | MuscleMemo/Models/Managers/CoreDataManager.swift:141-168 | the list holds the date of every log in m's month, one per log in store order, so a day with two logs appears twice |
| DataStore.CoreDataManager.AddWorkoutSet | MuscleMemo/Models/Managers/CoreDataManager.swift:172-181 | exactly one new set, linked to the given log and exercise, with the given weight and reps, is appended; existing sets, logs and exercises are untouched |
| DataStore.GetLastWorkoutSet | MuscleMemo/Models/Managers/CoreDataManager.swift:183-196 | nil exactly when the exercise has no set; otherwise one of its sets whose log date is no earlier than any other of its sets' |
| DataStore.GetWorkoutSets | MuscleMemo/Models/Managers/CoreDataManager.swift:198-215 | exactly the exercise's sets whose log date lies in the closed range, each once, sorted ascending by log date |
| DataStore.CoreDataManager.InsertExercise | MuscleMemo/ViewModels/ExerciseManagementViewModel.swift:28-35 | one new exercise with a fresh id and the given attributes is appended; logs and sets are unchanged |
| DataStore.CoreDataManager.DeleteSet | MuscleMemo/ViewModels/CalendarViewModel.swift:107-108 | exactly the set with that id is removed; logs and exercises are unchanged, and the store stays valid |
| DataStore.CoreDataManager.DeleteExercise | MuscleMemo/ViewModels/ExerciseManagementViewModel.swift:69-70 | exactly the exercise with that id is removed once no set refers to it; logs and sets are unchanged |
| DataStore.CoreDataManager.DeleteAllSets | MuscleMemo/ViewModels/SettingsViewModel.swift:18-20 | the batch delete leaves no set, and exercises and logs as they were |
| DataStore.CoreDataManager.DeleteAllLogs | MuscleMemo/ViewModels/SettingsViewModel.swift:22-24 | the batch delete leaves no log once no set is left; exercises are unchanged |
| Records.ByNameIsTotalPreorder | MuscleMemo/Models/Managers/CoreDataManager.swift:71 | the name order is total and transitive, so sorting by name is well defined |
| Text.LexLeAntisymmetric | MuscleMemo/Models/Managers/CoreDataManager.swift:71 | two names that sort no later than each other are equal |
| Text.ContainsIffOccurs | MuscleMemo/ViewModels/ExerciseManagementViewModel.swift:79 | the substring search succeeds exactly when the query occurs at some position of the name |
| Text.QueryCaseIgnored | MuscleMemo/ViewModels/ExerciseManagementViewModel.swift:79 | lower-casing the query never changes whether a name matches |
| Text.ContainsItself | MuscleMemo/Views/Home/Components/ExerciseSelectorView.swift:22 | every name matches a search for itself |
| Text.LowerIdempotent | MuscleMemo/ViewModels/ExerciseManagementViewModel.swift:79 | case folding twice is case folding once |
| Calendar.StartOfMonth | MuscleMemo/Models/Extensions/Date+Extension.swift:6-10 | the result keeps year and month, is day 1 at midnight, and is not after d |
| Calendar.StartOfMonthIdempotent | MuscleMemo/Models/Extensions/Date+Extension.swift:6-10 | the start of a month's start is that start |
| Calendar.EndOfMonthIsLastDay | MuscleMemo/Models/Extensions/Date+Extension.swift:12-18 | start of month plus one month minus one day is the month's last day at midnight, and the next day is the first of the following month |
| Calendar.SameDayAndMonthAreEquivalences | MuscleMemo/Models/Extensions/Date+Extension.swift:41-51 | the same-day and same-month tests are reflexive and symmetric; same-day is transitive and implies same-month |
| Calendar.DayWindow | MuscleMemo/Models/Managers/CoreDataManager.swift:111-114 | the half-open window from start of day to start of next day holds exactly the instants of d's day |
| Calendar.MonthWindow | MuscleMemo/Models/Managers/CoreDataManager.swift:155-159 | the half-open window from the first of the month to the first of the next holds exactly the instants of m's month |
| Calendar.StartOfDay | MuscleMemo/ViewModels/StatisticsViewModel.swift:85 | the start of day is on the same day and not after d |
| Calendar.AddMonths | MuscleMemo/ViewModels/CalendarViewModel.swift:28 | the year-month count moves by exactly v, the time of day is kept, and the day is clamped to the target month's length |
| Calendar.WeekdayAfter | MuscleMemo/ViewModels/CalendarViewModel.swift:48-49 | moving n days moves the weekday by n modulo 7 |
| MonthGrid.CellsFrom | MuscleMemo/ViewModels/CalendarViewModel.swift:53-62 | the number of cells the loop reaches from an offset lies between that offset and 42 |
| MonthGrid.GridStartIsLead | MuscleMemo/ViewModels/CalendarViewModel.swift:46-50 | the first cell is the first of the month moved back weekday − 1 days, and it is a Sunday |
| MonthGrid.GridStartsOnSunday | MuscleMemo/ViewModels/CalendarViewModel.swift:43-50 | days[0] is the Sunday on or before the first of the month, at most six days before it |
| MonthGrid.GridIsConsecutive | MuscleMemo/ViewModels/CalendarViewModel.swift:53-56 | each cell is the day after the previous one, at midnight |
| MonthGrid.GridIsWholeWeeks | MuscleMemo/ViewModels/CalendarViewModel.swift:53-62 | the grid has 35 days when the leading days and the month fit in 34 cells, else 42 |
| MonthGrid.GridCoversMonth | MuscleMemo/ViewModels/CalendarViewModel.swift:53-62 | every day of the displayed month is in the grid |
| MonthGrid.GridEndsOnSaturday | MuscleMemo/ViewModels/CalendarViewModel.swift:58-62 | the last cell is a Saturday outside the displayed month |
| MonthGrid.GridStopsAtItsEnd | MuscleMemo/ViewModels/CalendarViewModel.swift:58-62 | the grid has at least 35 days, and the break condition holds at its last cell |
| MonthGrid.MonthOnlyTestSufficesOnGrid | MuscleMemo/ViewModels/CalendarViewModel.swift:58 | on the grid, comparing the month alone agrees with comparing year and month |
| CalendarScreen.GridFrom | MuscleMemo/ViewModels/CalendarViewModel.swift:53-64 | the appending loop with its break produces exactly the grid of the month |
| CalendarScreen.CellsFromStep | MuscleMemo/ViewModels/CalendarViewModel.swift:58-62 | one turn of the loop stops after this offset exactly when the break condition holds there |
| CalendarScreen.CurrentMonthIgnoresYear | MuscleMemo/ViewModels/CalendarViewModel.swift:35-37 | the test ignores the year: a date twelve months on gets the same answer, any same-month date counts, and the current month a year on counts although its year differs |
| CalendarScreen.MoveMonthAndBack | MuscleMemo/ViewModels/CalendarViewModel.swift:27-33 | moving v months and back returns to the same month and so to the same grid |
| CalendarScreen.CalendarViewModel.constructor | MuscleMemo/ViewModels/CalendarViewModel.swift:10-25 | the view-model starts on the clock's month with that month's grid and empty lists |
| CalendarScreen.CalendarViewModel.GenerateDaysInMonth | MuscleMemo/ViewModels/CalendarViewModel.swift:39-65 | days becomes the grid of the current month; the other fields are unchanged |
| CalendarScreen.CalendarViewModel.RefreshDatesWithWorkouts | MuscleMemo/ViewModels/CalendarViewModel.swift:67-70 | the dates are the displayed month's log dates |
| CalendarScreen.CalendarViewModel.MoveMonth | MuscleMemo/ViewModels/CalendarViewModel.swift:27-33 | the current date moves v months, and the grid and the dates are regenerated for the new month |
| CalendarScreen.CalendarViewModel.LoadWorkouts | MuscleMemo/ViewModels/CalendarViewModel.swift:72-85 | the list is empty without a log on d's day; otherwise it is that log's sets, highest id first |
| CalendarScreen.CalendarViewModel.AddWorkoutSet | MuscleMemo/ViewModels/CalendarViewModel.swift:87-98 | the day's log is reused, or created when absent, and exactly one set is added to it; the reloaded list shows it, and the month's dates are refreshed; the month, its grid and the form flag stay as they were |
| CalendarScreen.CalendarViewModel.DeleteWorkoutSet | MuscleMemo/ViewModels/CalendarViewModel.swift:104-114 | a set with a dated log is removed and the lists are reloaded for that date, while its log stays even if now empty; a set without a dated log changes nothing; the month, its grid and the form flag stay as they were |
| DaySets.SetsOfLog | MuscleMemo/ViewModels/CalendarViewModel.swift:75-78 | the list is a permutation of the log's sets, sorted by id descending |
| DaySets.SetsOfDay | MuscleMemo/ViewModels/HomeViewModel.swift:40-52 | the list is empty when no log exists for the day; otherwise it is that log's sorted sets |
| DaySets.SetsOfDayAreTheDaysSets | MuscleMemo/ViewModels/HomeViewModel.swift:40-46 | with one log per day, a set is shown exactly when its log is dated on that day |
| DaySets.SetsOfDayStrictlyById | MuscleMemo/ViewModels/CalendarViewModel.swift:76-78 | with unique ids, the shown ids strictly decrease |
| DaySets.AddSetOnDay | MuscleMemo/ViewModels/HomeViewModel.swift:76-84 | the day's log is found or created, and one set with the given values is attached to it; existing logs and sets are kept |
| Home.HomeViewModel.constructor | MuscleMemo/ViewModels/HomeViewModel.swift:16-33 | the initial load runs: today's list is today's sets and the favourites are the store's favourites |
| Home.HomeViewModel.RefreshTodaysWorkouts | MuscleMemo/ViewModels/HomeViewModel.swift:35-59 | today's list is empty without a log for today; otherwise it is today's log's sets, highest id first |
| Home.HomeViewModel.LoadFavoriteExercises | MuscleMemo/ViewModels/HomeViewModel.swift:61-73 | the favourites become the store's favourite query |
| Home.HomeViewModel.AddWorkoutSet | MuscleMemo/ViewModels/HomeViewModel.swift:75-90 | one new set with the given weight and reps goes into today's log, which is created only if absent; today's list shows it; the favourites stay |
| Home.HomeViewModel.GetLastWorkoutSet | MuscleMemo/ViewModels/HomeViewModel.swift:92-94 | the result is nil exactly when the exercise has no set; otherwise its latest set |
| Home.HomeViewModel.ToggleFavorite | MuscleMemo/ViewModels/HomeViewModel.swift:97-104 | only that exercise's flag flips, then the favourites are reloaded; today's list stays |
| Home.TwoSetsOnOneDay | MuscleMemo/ViewModels/HomeViewModel.swift:75-84 | two sets logged on the same day land in the same log, which at most one of them created |
| ExerciseManagement.SearchExercises | MuscleMemo/ViewModels/ExerciseManagementViewModel.swift:75-81 | an empty query returns the list unchanged; otherwise the result is exactly the names containing the query ignoring case, in list order |
| ExerciseManagement.GetExercisesByCategory | MuscleMemo/ViewModels/ExerciseManagementViewModel.swift:84-95 | All returns the list; each other tab keeps, in order, exactly the exercises passing its flag test |
| ExerciseManagement.CustomAndDefaultPartition | MuscleMemo/ViewModels/ExerciseManagementViewModel.swift:90-93 | the custom and default tabs split the list between them |
| ExerciseManagement.ExerciseManagementViewModel.constructor | MuscleMemo/ViewModels/ExerciseManagementViewModel.swift:11-20 | the list starts empty |
| ExerciseManagement.ExerciseManagementViewModel.LoadExercises | MuscleMemo/ViewModels/ExerciseManagementViewModel.swift:22-25 | the list becomes the store's name-sorted exercises |
| ExerciseManagement.ExerciseManagementViewModel.AddExercise | MuscleMemo/ViewModels/ExerciseManagementViewModel.swift:27-37 | one custom, non-favourite exercise with the name as given is added, with no duplicate or emptiness check; the list is reloaded |
| ExerciseManagement.ExerciseManagementViewModel.ToggleFavorite | MuscleMemo/ViewModels/ExerciseManagementViewModel.swift:39-52 | only that exercise's flag flips, then the list is reloaded |
| ExerciseManagement.ExerciseManagementViewModel.DeleteExercise | MuscleMemo/ViewModels/ExerciseManagementViewModel.swift:54-72 | a default exercise changes nothing; a custom one is removed with all of its sets, while other exercises, other sets and all logs are untouched |
| ExerciseManagement.DeleteSetsOfExercise | MuscleMemo/ViewModels/ExerciseManagementViewModel.swift:62-67 | the loop deletes exactly the exercise's sets, and nothing else |
| ExerciseViews.ManagementFiltered | MuscleMemo/Views/Settings/Components/ExerciseManagementView.swift:11-20 | category first, then search: an empty search gives the category result, otherwise an order-preserving subsequence of it matching the text |
| ExerciseViews.FilterOrderIrrelevant | MuscleMemo/Views/Settings/Components/ExerciseManagementView.swift:11-20 | filtering by search first and category second gives the same list |
| ExerciseViews.DeleteOfferedOnCustomOnly | MuscleMemo/Views/Settings/Components/ExerciseManagementView.swift:71-79 | the delete action is offered exactly on custom exercises, never on the default tab |
| ExerciseViews.AcceptedName | MuscleMemo/Views/Home/Components/ExerciseSelectorView.swift:167-172 | saving is refused exactly for an empty name; any other name is passed on untrimmed |
| ExerciseViews.BlankNameAccepted | MuscleMemo/Views/Home/Components/ExerciseSelectorView.swift:167-172 | a name of spaces alone is accepted |
| ExerciseViews.ExerciseSelector.constructor | MuscleMemo/Views/Home/Components/ExerciseSelectorView.swift:10-12 | the search text and the list start empty |
| ExerciseViews.ExerciseSelector.FilteredExercises | MuscleMemo/Views/Home/Components/ExerciseSelectorView.swift:17-25 | an empty search returns the loaded list; otherwise, in order, exactly the names containing the text ignoring case |
| ExerciseViews.ExerciseSelector.LoadExercises | MuscleMemo/Views/Home/Components/ExerciseSelectorView.swift:89-91 | the list becomes the store's name-sorted exercises |
| ExerciseViews.ExerciseSelector.ToggleFavorite | MuscleMemo/Views/Home/Components/ExerciseSelectorView.swift:93-112 | only that exercise's flag flips and is saved; the list is reloaded; the search text stays |
| ExerciseViews.ExerciseSelector.AddExercise | MuscleMemo/Views/Home/Components/ExerciseSelectorView.swift:114-123 | one non-default, non-favourite exercise with the given name is added; the list is reloaded; the search text stays |
| ExerciseViews.ExerciseSelector.SaveNewExercise | MuscleMemo/Views/Home/Components/ExerciseSelectorView.swift:167-172 | an empty name changes nothing; any other adds one exercise with it and reloads the list; the search text stays |
| Settings.DeleteEach | MuscleMemo/ViewModels/SettingsViewModel.swift:35-37 | the loop deletes each fetched custom exercise in turn |
| Settings.DeletingTheCustomLeavesTheDefaults | MuscleMemo/ViewModels/SettingsViewModel.swift:27-37 | deleting the ids of the custom exercises leaves exactly the default ones |
| Settings.DeleteCustomExercises | MuscleMemo/ViewModels/SettingsViewModel.swift:27-37 | every custom exercise is deleted; the defaults stay in order |
| Settings.SettingsViewModel.ResetAllData | MuscleMemo/ViewModels/SettingsViewModel.swift:15-43 | afterwards no set and no log remains, and exactly the default exercises remain, favourite flags unchanged |
| Settings.ResetIsIdempotent | MuscleMemo/ViewModels/SettingsViewModel.swift:15-43 | a second reset removes nothing more, since every exercise left is a default |
| Statistics.RawValue | MuscleMemo/ViewModels/StatisticsViewModel.swift:7-11 | every period is a positive number of months |
| Statistics.FromRawValue | MuscleMemo/ViewModels/StatisticsViewModel.swift:7-11 | a raw value maps back only to the period carrying it |
| Statistics.PeriodsAreExactly | MuscleMemo/ViewModels/StatisticsViewModel.swift:7-11 | the periods are exactly 1, 3, 6 and 12 months, and the raw value identifies the period |
| Statistics.ExercisesWithSets | MuscleMemo/ViewModels/StatisticsViewModel.swift:55-64 | exactly the exercises with at least one set, as an order-preserving subsequence of the name-sorted list |
| Statistics.StatisticsViewModel.constructor | MuscleMemo/ViewModels/StatisticsViewModel.swift:34-37 | empty lists, no training days, the one-month period |
| Statistics.StatisticsViewModel.LoadExercises | MuscleMemo/ViewModels/StatisticsViewModel.swift:55-64 | the list becomes the exercises with sets |
| Statistics.ChartWindow | MuscleMemo/ViewModels/StatisticsViewModel.swift:67-76 | exactly the exercise's sets dated in the chosen number of months before now, up to now |
| Statistics.SetDay | MuscleMemo/ViewModels/StatisticsViewModel.swift:82-85 | a set has a day exactly when its log has a date |
| Statistics.DailyMaxWeights | MuscleMemo/ViewModels/StatisticsViewModel.swift:79-94 | the dictionary has a key for exactly the days with a set, and each value is the heaviest weight that day, taken from one of its sets |
| Statistics.AddDailyWeight | MuscleMemo/ViewModels/StatisticsViewModel.swift:81-94 | one turn of the loop keeps that invariant for one more set |
| Statistics.Entries | MuscleMemo/ViewModels/StatisticsViewModel.swift:97-98 | one entry for each dictionary pair, with distinct dates |
| Statistics.ChartSeries | MuscleMemo/ViewModels/StatisticsViewModel.swift:97-99 | the same entries, sorted strictly ascending by date |
| Statistics.BuildChart | MuscleMemo/ViewModels/StatisticsViewModel.swift:79-99 | the chart has one entry for each day with a dated set, at that day's start, holding the day's maximum weight, in strictly ascending date order |
| Statistics.StatisticsViewModel.LoadChartData | MuscleMemo/ViewModels/StatisticsViewModel.swift:66-103 | the chart data becomes the daily-maximum chart of the exercise's sets in the selected period before now |
| Statistics.StatisticsViewModel.GetChartDataForExercise | MuscleMemo/ViewModels/StatisticsViewModel.swift:164-169 | with no chart held, the daily-maximum chart of the selected period's window is loaded; a held chart is kept; the held chart is returned; exercises, training days and period are unchanged |
| Statistics.MonthlyTrainingDays | MuscleMemo/ViewModels/StatisticsViewModel.swift:105-133 | the number of logs dated in today's month, so two logs on one day count twice; zero exactly when there is none |
| Statistics.MonthlyTrainingDaysAreDistinct | MuscleMemo/ViewModels/StatisticsViewModel.swift:105-133 | while the store holds one log per calendar day, the count is the number of distinct training days of the month |
| Statistics.MonthlyFilterIsRedundant | MuscleMemo/ViewModels/StatisticsViewModel.swift:126-129 | the second same-month filter removes nothing from the month-window dates |
| Statistics.StatisticsViewModel.CalculateMonthlyTrainingFrequency | MuscleMemo/ViewModels/StatisticsViewModel.swift:105-138 | the field becomes the number of logs dated in today's month; the other fields are unchanged |
| Statistics.GetLastWeight | MuscleMemo/ViewModels/StatisticsViewModel.swift:140-145 | 0 when the exercise has no set; otherwise the weight of one of its latest sets |
| Statistics.GetMaxWeight | MuscleMemo/ViewModels/StatisticsViewModel.swift:147-153 | 0 when the exercise has no set; otherwise the largest weight among its sets, attained by one of them |
| Statistics.GetAverageWeight | MuscleMemo/ViewModels/StatisticsViewModel.swift:155-162 | 0 when the exercise has no set |
| Statistics.AverageIsBetweenExtremes | MuscleMemo/ViewModels/StatisticsViewModel.swift:155-162 | the average, sum over count, lies between the lightest and the heaviest set |
| Chart.MaxEntry | MuscleMemo/Views/Statistics/Components/WeightProgressChart.swift:17-19 | nil exactly without data; otherwise the first entry of greatest weight |
| Chart.MaxEntryIsHeaviest | MuscleMemo/Views/Statistics/Components/WeightProgressChart.swift:12-19 | hasData holds exactly when there is a max entry, and its weight is the largest weight |
| Chart.Padding | MuscleMemo/Views/Statistics/Components/WeightProgressChart.swift:126 | the padding is the larger of 5 and a tenth of the spread between lightest and heaviest |
| Chart.YAxisDomain | MuscleMemo/Views/Statistics/Components/WeightProgressChart.swift:117-128 | without data the domain is 0 to 100; otherwise it runs from the lightest weight less the padding, raised to 0 if negative, to the heaviest weight plus the padding |
| Chart.DomainHoldsTheData | MuscleMemo/Views/Statistics/Components/WeightProgressChart.swift:117-128 | with no negative weight, the domain is a well-formed range holding every point |
| Workouts.GetTrainingDates | MuscleMemo/Models/Managers/WorkoutManager.swift:16-27 | the date of every log dated in the closed range, one per log in store order |
| Workouts.GetTrainingFrequency | MuscleMemo/Models/Managers/WorkoutManager.swift:10-13 | the number of logs dated in the closed range, so two logs on one day count twice; zero exactly when there is none |
| Workouts.GetTotalWeight | MuscleMemo/Models/Managers/WorkoutManager.swift:30-41 | the sum of the weights, not weight × reps, of the sets whose log is dated in the range; 0 when there is none; never negative for non-negative weights |
| Workouts.GetTotalReps | MuscleMemo/Models/Managers/WorkoutManager.swift:44-55 | the sum of the reps of the sets whose log is dated in the range; 0 when there is none; never negative for non-negative reps |
| Workouts.CountOf | MuscleMemo/Models/Managers/WorkoutManager.swift:66-70 | the count is positive exactly when the exercise has a set among those given |
| Workouts.GetExerciseFrequency | MuscleMemo/Models/Managers/WorkoutManager.swift:58-77 | exactly the exercises with a set in the range are keys, each mapped to its number of sets there |
| Workouts.CountsSumToTotal | MuscleMemo/Models/Managers/WorkoutManager.swift:66-70 | the counts over distinct ids covering every exercise add up to the number of sets in the range |
| Workouts.Resolve | MuscleMemo/Models/Managers/WorkoutManager.swift:85-100 | the ids of the resolved exercises are exactly the ids that name a stored exercise, in their order; each result is a stored exercise |
| Workouts.ResolveAll | MuscleMemo/Models/Managers/WorkoutManager.swift:85-100 | the fetch loop resolves the ids in order, skipping those without an exercise |
| Workouts.ResolveKeepsOrder | MuscleMemo/Models/Managers/WorkoutManager.swift:85-100 | resolving keeps the ids' non-increasing order |
| Workouts.TopIsRanked | MuscleMemo/Models/Managers/WorkoutManager.swift:80-83 | the kept ids are distinct counted ids by non-increasing count; a counted id cut off counts no more than any kept id; when nothing is cut every counted id is kept |
| Workouts.GetMostFrequentExercises | MuscleMemo/Models/Managers/WorkoutManager.swift:80-103 | at most limit distinct exercises, each with a set in the range, by non-increasing frequency; no resolvable exercise left out has more sets than one returned; when every counted exercise resolves, the result has limit entries or holds every counted exercise |
| Workouts.RankedResult | MuscleMemo/Models/Managers/WorkoutManager.swift:83-100 | resolving the ranked ids keeps distinct ids and the ranking against left-out ids, and loses none when every counted id resolves |
| RestTimer.RestTimerManager.constructor | MuscleMemo/Views/Common/Components/RestTimerView.swift:120-122 | a fresh timer has 90 seconds left of 90 and is stopped |
| RestTimer.RestTimerManager.SetDuration | MuscleMemo/Views/Common/Components/RestTimerView.swift:137-142 | both the remaining and the total seconds become s, and the timer stops |
| RestTimer.RestTimerManager.Start | MuscleMemo/Views/Common/Components/RestTimerView.swift:144-162 | with time left it runs; at zero or below it only refills the remaining seconds from the total |
| RestTimer.RestTimerManager.Tick | MuscleMemo/Views/Common/Components/RestTimerView.swift:153-161 | a running tick takes exactly one second off, or at zero completes the countdown |
| RestTimer.RestTimerManager.Pause | MuscleMemo/Views/Common/Components/RestTimerView.swift:164-167 | it stops without changing the remaining or the total seconds |
| RestTimer.RestTimerManager.Reset | MuscleMemo/Views/Common/Components/RestTimerView.swift:169-173 | it stops and refills the remaining seconds from the total |
| RestTimer.RestTimerManager.AddTime | MuscleMemo/Views/Common/Components/RestTimerView.swift:175-178 | n is added to both the remaining and the total seconds |
| RestTimer.RestTimerManager.TimerCompleted | MuscleMemo/Views/Common/Components/RestTimerView.swift:180-190 | completion stops the timer and refills it to the total |
| RestTimer.RestTimerManager.TimeText | MuscleMemo/Views/Common/Components/RestTimerView.swift:126-130 | for a non-negative count: minutes, a colon and two digits of seconds under 60, read back as 60 × minutes + seconds = the count |
| RestTimer.EveryOperationKeepsInv | MuscleMemo/Views/Common/Components/RestTimerView.swift:120-190 | every operation keeps the remaining seconds no greater than the total |
| RestTimer.StartRunsOnlyWithTimeLeft | MuscleMemo/Views/Common/Components/RestTimerView.swift:144-150 | starting never changes the total, and leaves the timer running exactly when time was left or it already ran |
| RestTimer.CountdownCompletes | MuscleMemo/Views/Common/Components/RestTimerView.swift:153-161 | a countdown from r seconds shows 0 after r ticks and has completed, stopped and refilled, after one more |
| RestTimer.StoppedTimerStays | MuscleMemo/Views/Common/Components/RestTimerView.swift:164-167 | a stopped timer is unaffected by ticks |
| RestTimer.TimeStringReadsBack | MuscleMemo/Views/Common/Components/RestTimerView.swift:126-130 | for a non-negative count the text is minutes, a colon and two-digit seconds below 60, and 60 × minutes + seconds is the count |
| Forms.WeightMinus | MuscleMemo/Views/Home/Components/WorkoutFormView.swift:46-49 | it acts only on a positive weight, never goes below 0, and takes off 2.5 unless it stops at 0 |
| Forms.WeightPlus | MuscleMemo/Views/Home/Components/WorkoutFormView.swift:67-69 | the weight grows by exactly 2.5 |
| Forms.RepsMinus | MuscleMemo/Views/Home/Components/WorkoutFormView.swift:83-86 | it takes one off only above 1 |
| Forms.RepsPlus | MuscleMemo/Views/Home/Components/WorkoutFormView.swift:104-106 | the count grows by exactly one |
| Forms.SteppersKeepBounds | MuscleMemo/Views/Home/Components/WorkoutFormView.swift:46-106 | the buttons keep the weight at least 0 and the reps at least 1 |
| Forms.SteppersUndoEachOther | MuscleMemo/Views/Home/Components/WorkoutFormView.swift:46-106 | minus undoes plus, and plus undoes minus whenever minus did not stop at its bound |
| Forms.FreshFormNeedsWeight | MuscleMemo/Views/Home/Components/WorkoutFormView.swift:144-146 | a fresh form of 0 kg and 1 rep cannot be saved, one press of weight plus makes it savable, and the minus buttons cannot |
| Forms.WorkoutForm.constructor | MuscleMemo/Views/Home/Components/WorkoutFormView.swift:11-12 | the form starts at 0 kg and 1 rep, which is not savable |
| Forms.WorkoutForm.OnAppear | MuscleMemo/Views/Home/Components/WorkoutFormView.swift:134-140 | the weight and reps are copied from the previous set when there is one; otherwise they are unchanged |
| Forms.WorkoutForm.DecreaseWeight | MuscleMemo/Views/Home/Components/WorkoutFormView.swift:46-49 | the weight minus button |
| Forms.WorkoutForm.IncreaseWeight | MuscleMemo/Views/Home/Components/WorkoutFormView.swift:67-69 | the weight plus button |
| Forms.WorkoutForm.DecreaseReps | MuscleMemo/Views/Home/Components/WorkoutFormView.swift:83-86 | the reps minus button |
| Forms.WorkoutForm.IncreaseReps | MuscleMemo/Views/Home/Components/WorkoutFormView.swift:104-106 | the reps plus button |
| Forms.WorkoutForm.SaveWorkout | MuscleMemo/Views/Home/Components/WorkoutFormView.swift:148-151 | exactly the current weight and reps are handed on |
| Forms.CalendarWorkoutForm.constructor | MuscleMemo/Views/Calendar/Components/CalendarWorkoutFormView.swift:7-14 | the form starts at 0 kg and 1 rep, with a view-model of its own over the shared store |
| Forms.CalendarWorkoutForm.OnAppear | MuscleMemo/Views/Calendar/Components/CalendarWorkoutFormView.swift:121-126 | the weight and reps are prefilled from the exercise's latest set when one exists |
| Forms.CalendarWorkoutForm.DecreaseWeight | MuscleMemo/Views/Calendar/Components/CalendarWorkoutFormView.swift:33-36 | the weight minus button |
| Forms.CalendarWorkoutForm.IncreaseWeight | MuscleMemo/Views/Calendar/Components/CalendarWorkoutFormView.swift:54-56 | the weight plus button |
| Forms.CalendarWorkoutForm.DecreaseReps | MuscleMemo/Views/Calendar/Components/CalendarWorkoutFormView.swift:70-73 | the reps minus button |
| Forms.CalendarWorkoutForm.IncreaseReps | MuscleMemo/Views/Calendar/Components/CalendarWorkoutFormView.swift:91-93 | the reps plus button |
| Forms.CalendarWorkoutForm.SaveWorkout | MuscleMemo/Views/Calendar/Components/CalendarWorkoutFormView.swift:142-149 | the sets gain exactly one set, at the end, with the form's exercise, weight and reps and the next id, in the day's log: the existing log when the day has one, otherwise a new log appended with the next id; earlier sets are unchanged; the same values are handed on |
| Forms.ReplaceCommas | MuscleMemo/Views/Common/Components/EditWorkoutFormView.swift:69 | every comma becomes a point, and every other character is kept |
| Forms.ParsedWeight | MuscleMemo/Views/Common/Components/EditWorkoutFormView.swift:68-72 | the weight becomes the parsed value of the text with commas as points; unparsable text leaves it unchanged |
| Forms.ParsedReps | MuscleMemo/Views/Common/Components/EditWorkoutFormView.swift:109-113 | the reps become the text's integer value; unparsable text leaves them unchanged |
| Forms.CommaReadsAsPoint | MuscleMemo/Views/Common/Components/EditWorkoutFormView.swift:68-72 | a comma and a point are read alike |
| Forms.CommaTenths | MuscleMemo/Views/Common/Components/EditWorkoutFormView.swift:68-72 | a decimal comma reads as a point: digits, a comma and one digit give that decimal value |
| Forms.NoDigitKeepsValues | MuscleMemo/Views/Common/Components/EditWorkoutFormView.swift:68-113 | text without a digit leaves both the weight and the reps as they were |
| Forms.AdjustedWeight | MuscleMemo/Views/Common/Components/EditWorkoutFormView.swift:192-196 | the result is never negative, lies within 0.05 of max(0, weight + δ), and is a whole number of tenths |
| Forms.AdjustedReps | MuscleMemo/Views/Common/Components/EditWorkoutFormView.swift:198-202 | the result is reps + δ, or 1 when that would be below 1 |
| Forms.TenthsHaveNoComma | MuscleMemo/Views/Common/Components/EditWorkoutFormView.swift:195 | one-decimal text contains no comma |
| Forms.WeightTextReadsBack | MuscleMemo/Views/Common/Components/EditWorkoutFormView.swift:195 | the written weight text reads back as the weight rounded to a tenth |
| Forms.AdjustedWeightTextIsStable | MuscleMemo/Views/Common/Components/EditWorkoutFormView.swift:192-196 | the text a weight adjustment writes reparses to exactly the weight it set |
| Forms.RepsTextReadsBack | MuscleMemo/Views/Common/Components/EditWorkoutFormView.swift:198-202 | the written reps text reads back as the count whenever it fits in an Int |
| Forms.EditWorkoutForm.constructor | MuscleMemo/Views/Common/Components/EditWorkoutFormView.swift:22-32 | the form starts from the set's own weight and reps, written as one-decimal and integer text |
| Forms.EditWorkoutForm.WeightTextChanged | MuscleMemo/Views/Common/Components/EditWorkoutFormView.swift:68-72 | the field holds the new text, and the weight follows it when it parses |
| Forms.EditWorkoutForm.RepsTextChanged | MuscleMemo/Views/Common/Components/EditWorkoutFormView.swift:109-113 | the field holds the new text, and the reps follow it when it parses |
| Forms.EditWorkoutForm.AdjustWeight | MuscleMemo/Views/Common/Components/EditWorkoutFormView.swift:192-196 | the weight is moved, clamped at 0 and rounded to a tenth; its text is rewritten, and reparsing that text keeps the weight |
| Forms.EditWorkoutForm.AdjustReps | MuscleMemo/Views/Common/Components/EditWorkoutFormView.swift:198-202 | the count is moved and kept at least 1, and its text is rewritten |
| Forms.EditWorkoutForm.SaveWorkout | MuscleMemo/Views/Common/Components/EditWorkoutFormView.swift:204-207 | exactly the current weight and reps are handed on |
| Numbers.SwiftDiv | MuscleMemo/Views/Common/Components/RestTimerView.swift:127 | the quotient truncates toward zero: never negative for a non-negative dividend, never positive for a non-positive one |
| Numbers.SwiftRem | MuscleMemo/Views/Common/Components/RestTimerView.swift:127-128 | the quotient and remainder recompose the dividend, with the remainder taking the dividend's sign |
| Numbers.RoundHalfAway | MuscleMemo/Views/Common/Components/EditWorkoutFormView.swift:194 | the result is the nearest integer, with halves away from zero |
| Numbers.RoundHalfEven | MuscleMemo/Views/Common/Components/EditWorkoutFormView.swift:195 | the result is the nearest integer, with halves to the even one |
| Numbers.NatToString | MuscleMemo/Views/Common/Components/EditWorkoutFormView.swift:31 | the text is digits without a leading zero and spells n |
| Numbers.IntToString | MuscleMemo/Views/Common/Components/EditWorkoutFormView.swift:31 | the text is digits, after a minus sign for a negative n, and the digits spell the magnitude of n in both cases |
| Numbers.Pad2 | MuscleMemo/Views/Common/Components/RestTimerView.swift:129 | the text has at least two characters, and for 0 to 99 exactly two digits spelling n |
| Numbers.ParseInt | MuscleMemo/Views/Common/Components/EditWorkoutFormView.swift:110 | a parsed value fits in 64 bits and comes from text starting with a sign or a digit |
| Numbers.ParseIntRoundTrip | MuscleMemo/Views/Common/Components/EditWorkoutFormView.swift:109-113 | integer text written for any 64-bit value parses back to it |
| Numbers.ParseDecimalOfDigits | MuscleMemo/Views/Common/Components/EditWorkoutFormView.swift:69 | a string of digits parses to the number it spells |
| Numbers.FormatTenthsRoundTrip | MuscleMemo/Views/Common/Components/EditWorkoutFormView.swift:195 | one-decimal text parses back to the value rounded to tenths |
| HexColor.Trim | MuscleMemo/Common/Extensions/Color+Extension.swift:8 | the trimmed text is the infix of the input that starts at its first alphanumeric, with nothing alphanumeric before or after it, and starts and ends with an alphanumeric; it is empty exactly when there was none |
| HexColor.TrimKeepsClean | MuscleMemo/Common/Extensions/Color+Extension.swift:8 | text with alphanumeric ends is kept as it is |
| HexColor.TrimIdempotent | MuscleMemo/Common/Extensions/Color+Extension.swift:8 | trimming twice is trimming once |
| HexColor.TrimDropsHash | MuscleMemo/Common/Extensions/Color+Extension.swift:8 | a leading # is stripped |
| HexColor.ScanHex | MuscleMemo/Common/Extensions/Color+Extension.swift:9-10 | the scanned value fits in as many hex digits as the text has |
| HexColor.ScanAllHex | MuscleMemo/Common/Extensions/Color+Extension.swift:10 | on all-hex text the scan reads the whole text's value |
| HexColor.Decode | MuscleMemo/Common/Extensions/Color+Extension.swift:7-21 | a trimmed length other than 3, 6 or 8 gives (1, 1, 1, 0); otherwise every component lies in 0 to 255, with alpha 255 for 3 and 6 digits |
| HexColor.ThreeDigitsDoubled | MuscleMemo/Common/Extensions/Color+Extension.swift:13-14 | each of the three digits d gives the component 17 × d |
| HexColor.DecodeArgbRoundTrip | MuscleMemo/Common/Extensions/Color+Extension.swift:17-18 | encoding any colour as eight hex digits, with or without #, decodes back to it |
| HexColor.DecodeRgbRoundTrip | MuscleMemo/Common/Extensions/Color+Extension.swift:15-16 | encoding any colour as six hex digits decodes back to it, opaque |
| HexColor.PrimaryRed | MuscleMemo/Common/Extensions/Color+Extension.swift:33 | "E53935" decodes to alpha 255 and red, green and blue 0xE5, 0x39, 0x35 |

## Left out

- Fetch failures are not modelled: every fetch succeeds. The `[]`, nil and no-op error paths are
  unreachable in the model, and so is `saveContext`'s `fatalError`.
- The CoreData machinery is not modelled: the persistent container, fetch requests, predicates
  and batch-delete requests. The store is three in-memory sequences in fetch order.
- `NotificationCenter` posts and subscriptions are not modelled. Neither are the
  `DispatchQueue.main.async` and `asyncAfter` deferrals: their effects are made as direct,
  synchronous calls. `isLoading` is not modelled.
- `Timer.publish` and the haptic feedback are not modelled. The timer's `progress` is not modelled,
  since it is floating-point display.
- RestTimer.RestTimerManager.Tick: requires `isActive`. The tick is a method the environment calls
  while the timer runs, standing in for the cancelled `Timer.publish` subscription.
- `Color(hex:)` building a colour from `Double` components is not modelled; the decoder returns
  the integer ARGB tuple.
- HexColor.Trim: the alphanumerics are ASCII letters and digits, not Unicode's alphanumeric set.
- HexColor.ScanHex: reads the leading run of hex digits with an optional `0x`. Other `Scanner`
  behaviour on non-hex input is not modelled.
- Time zones, daylight-saving changes and locales are not modelled. Days are a fixed 86 400
  seconds, and `Calendar.current` is the Gregorian calendar.
- `calendar.date(byAdding:)` and `calendar.date(from:)` are treated as never nil. The guard
  branches that handle nil are unreachable.
- `DateFormatter` output is not modelled: `formatAs*`, `currentMonthString` and `dateFormatted`.
- Text.ContainsIgnoringCase: folds ASCII letters only. The locale-aware case folding of
  `localizedCaseInsensitiveContains` is not modelled.
- Records.ByName: names sort by character code. CoreData's string collation is not modelled.
- DataStore.CoreDataManager.AddWorkoutSet: keeps reps as an unbounded integer. The trap when
  `Int16(reps)` overflows is not modelled.
- UUIDs are not modelled: ids are naturals issued in increasing order from `nextId`. The
  string-descending sort by `uuidString` becomes a sort by id, highest first.
- Optional attributes and relationships are not modelled. Names, dates, and a set's exercise and
  log are always present, and a valid store holds every set's exercise and log. The nil branch of
  `deleteWorkoutSet` applies only to a set value whose log the store does not hold. Records are
  values held by id, not shared managed objects.
- Numbers.ParseDecimal: reads plain decimal notation only: a sign, digits and at most one point.
  The exponents, hexadecimal floats, `inf` and `nan` that `Double(String)` also accepts are not
  modelled. Values are exact reals, not binary doubles.
- Numbers.FormatTenths: rounds an exact decimal half-to-even. The binary rounding of `%.1f` on a
  `Double` is not modelled.
- The new-set forms' `NumberFormatter` text fields are not modelled. Only the stepper buttons
  change the values.
- The disabled state of the save buttons (`isFormValid`) is not modelled. `saveWorkout` does not
  require a valid form; `Forms.FormValid` states the test itself.
- `MuscleMemo/Common/Constants/AppConstants.swift` is not part of this model: the default exercise
  names are a parameter of `CreateDefaultExercises`. `PreviewHelper` sample data is left out too.
- `SettingsViewModel.exportData` is not modelled: it is a placeholder with no behaviour.
- Labels, titles, pickers and layout are not modelled, and neither are the purely presentational
  views.
- DataStore.CoreDataManager.DeleteExercise: requires that no set refers to the exercise. Every
  caller deletes the exercise's sets first; the relationship's delete rule is not modelled.
- DataStore.CoreDataManager.DeleteAllLogs: requires that no set is left. The reset runs it after
  deleting every set; the relationship's delete rule is not modelled.
- Statistics.GetAverageWeight: its own contract states only the zero case;
  `Statistics.AverageIsBetweenExtremes` bounds the average by the lightest and heaviest sets.
- Workouts.GetMostFrequentExercises: requires `limit >= 0`, because `prefix` traps on a negative
  count. The contract does not fix the order among exercises of equal frequency, since the source
  sorts the keys of a dictionary whose order is unspecified.
- Workouts.GetMostFrequentExercises: states that the result is full or complete only when every
  counted exercise resolves. The source cuts the ranked ids to `limit` before it looks the
  exercises up, so an id without an exercise leaves its slot empty.
