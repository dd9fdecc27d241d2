/**
 * The day grid of the calendar screen (`generateDaysInMonth`): from the Sunday on or before the
 * first of the month, one midnight per day, stopping after the first Saturday past offset 28 that
 * lies outside the month, and after 42 days at most.
 */
module MonthGrid {
  import opened Calendar

  /** The first of the month as `calendar.date(from: [.year, .month])` gives it. */
  function FirstOfMonth(y: int, m: int): (f: Day)
    requires 1 <= m <= 12
    ensures f.year == y && f.month == m && f.day == 1
  {
    CivilDay(y, m, 1)
  }

  /** The first cell: the first of the month moved back `weekday - 1` days when that is not a Sunday. */
  function GridStart(y: int, m: int): Day
    requires 1 <= m <= 12
  {
    var first := FirstOfMonth(y, m);
    var weekday := Weekday(first);
    if weekday > 1 then AddDays(first, -(weekday - 1)) else first
  }

  /** The cell at `offset`. */
  function Cell(y: int, m: int, offset: int): Day
    requires 1 <= m <= 12
  {
    AddDays(GridStart(y, m), offset)
  }

  /** The `break` condition, checked after the cell at `offset` was appended. */
  predicate StopsAfter(y: int, m: int, offset: int)
    requires 1 <= m <= 12
  {
    Cell(y, m, offset).month != m && Weekday(Cell(y, m, offset)) == 7 && offset > 28
  }

  /** The number of cells generated from `offset` on: up to and including the first stop, at most 42. */
  function CellsFrom(y: int, m: int, offset: nat): (n: nat)
    requires 1 <= m <= 12
    requires offset <= 42
    ensures offset <= n <= 42
    decreases 42 - offset
  {
    if offset == 42 then 42
    else if StopsAfter(y, m, offset) then offset + 1
    else CellsFrom(y, m, offset + 1)
  }

  /** The grid `days` for the month `m` of year `y`. */
  function Grid(y: int, m: int): (days: seq<Date>)
    requires 1 <= m <= 12
  {
    seq(CellsFrom(y, m, 0), j => Midnight(Cell(y, m, j)))
  }

  // ---------------------------------------------------------------------------------------------
  // what the grid looks like

  /** How far back the first cell lies from the first of the month. */
  function Lead(y: int, m: int): (k: int)
    requires 1 <= m <= 12
    ensures 0 <= k <= 6
  {
    Weekday(FirstOfMonth(y, m)) - 1
  }

  lemma GridStartIsLead(y: int, m: int)
    requires 1 <= m <= 12
    ensures GridStart(y, m) == AddDays(FirstOfMonth(y, m), -Lead(y, m))
    ensures Weekday(GridStart(y, m)) == 1
  {
    var first := FirstOfMonth(y, m);
    WeekdayAfter(first, -Lead(y, m));
  }

  /** Cells are numbered from the first of the month, shifted by the lead. */
  lemma CellFromFirst(y: int, m: int, offset: int)
    requires 1 <= m <= 12
    ensures Cell(y, m, offset) == AddDays(FirstOfMonth(y, m), offset - Lead(y, m))
    ensures Weekday(Cell(y, m, offset)) == offset % 7 + 1
  {
    GridStartIsLead(y, m);
    AddDaysCompose(FirstOfMonth(y, m), -Lead(y, m), offset);
    WeekdayAfter(GridStart(y, m), offset);
  }

  /** The cells from the first of the month to its last day lie in the month, at day `1 + j`. */
  lemma CellInMonth(y: int, m: int, offset: int)
    requires 1 <= m <= 12
    requires Lead(y, m) <= offset < Lead(y, m) + DaysInMonth(y, m)
    ensures Cell(y, m, offset) == CivilDay(y, m, 1 + offset - Lead(y, m))
  {
    CellFromFirst(y, m, offset);
    AddDaysFromFirst(y, m, offset - Lead(y, m));
  }

  /** The cells after the month's last day, up to the 42nd, lie outside the month. */
  lemma CellAfterMonth(y: int, m: int, offset: int)
    requires 1 <= m <= 12
    requires Lead(y, m) + DaysInMonth(y, m) <= offset < 42
    ensures Cell(y, m, offset).month != m
  {
    CellFromFirst(y, m, offset);
    AddDaysFromFirst(y, m, offset - Lead(y, m));
  }

  /** The cells before the first of the month lie in the previous month. */
  lemma CellBeforeMonth(y: int, m: int, offset: int)
    requires 1 <= m <= 12
    requires 0 <= offset < Lead(y, m)
    ensures Cell(y, m, offset).month != m
  {
    CellFromFirst(y, m, offset);
    var first := FirstOfMonth(y, m);
    var back := Lead(y, m) - offset;
    var last := PrevDay(first);
    assert last.month != m;
    var target: Day := CivilDay(last.year, last.month, last.day - (back - 1));
    AddDaysWithinMonth(target, back - 1);
    AddDaysCompose(target, back - 1, -(back - 1));
    NextPrevInverse(first);
    AddDaysShiftPrev(first, -(back - 1));
    assert AddDays(first, -back) == AddDays(last, -(back - 1));
  }

  /** No stop happens before `upTo` when the generator already passed it without stopping. */
  lemma {:induction false} CellsFromSkips(y: int, m: int, offset: nat, upTo: nat)
    requires 1 <= m <= 12
    requires offset <= upTo < 42
    requires forall o :: offset <= o <= upTo ==> !StopsAfter(y, m, o)
    ensures CellsFrom(y, m, offset) == CellsFrom(y, m, upTo + 1)
    decreases upTo - offset
  {
    if offset < upTo {
      CellsFromSkips(y, m, offset + 1, upTo);
    }
  }

  /** Offset 41 is always a Saturday outside the month, so the loop never runs off its 42 cells. */
  lemma LastOffsetStops(y: int, m: int)
    requires 1 <= m <= 12
    ensures StopsAfter(y, m, 41)
  {
    CellFromFirst(y, m, 41);
    CellAfterMonth(y, m, 41);
  }

  /** Only a Saturday cell can end the grid. */
  lemma NotSaturday(y: int, m: int, offset: int)
    requires 1 <= m <= 12 && offset % 7 != 6
    ensures !StopsAfter(y, m, offset)
  {
    CellFromFirst(y, m, offset);
  }

  /** Before offset 34 the generator never stops: up to 28 by the offset test, then by the weekday. */
  lemma NoStopBefore34(y: int, m: int)
    requires 1 <= m <= 12
    ensures CellsFrom(y, m, 0) == CellsFrom(y, m, 34)
  {
    forall o | 0 <= o <= 33 ensures !StopsAfter(y, m, o) {
      if o > 28 {
        NotSaturday(y, m, o);
      }
    }
    CellsFromSkips(y, m, 0, 33);
  }

  /** Offset 34 is a Saturday; it ends the grid exactly when it lies past the month. */
  lemma StopsAt34(y: int, m: int)
    requires 1 <= m <= 12
    ensures StopsAfter(y, m, 34) <==> Lead(y, m) + DaysInMonth(y, m) <= 34
  {
    CellFromFirst(y, m, 34);
    if Lead(y, m) + DaysInMonth(y, m) <= 34 {
      CellAfterMonth(y, m, 34);
    } else {
      CellInMonth(y, m, 34);
    }
  }

  /** From offset 35 the next Saturday is offset 41, which always stops. */
  lemma LastWeek(y: int, m: int)
    requires 1 <= m <= 12
    ensures CellsFrom(y, m, 35) == 42
  {
    forall o | 35 <= o <= 40 ensures !StopsAfter(y, m, o) {
      NotSaturday(y, m, o);
    }
    CellsFromSkips(y, m, 35, 40);
    LastOffsetStops(y, m);
  }

  /** The grid is five or six whole weeks: it stops at offset 34 when that is past the month, else at 41. */
  lemma GridIsWholeWeeks(y: int, m: int)
    requires 1 <= m <= 12
    ensures |Grid(y, m)| == (if Lead(y, m) + DaysInMonth(y, m) <= 34 then 35 else 42)
  {
    NoStopBefore34(y, m);
    StopsAt34(y, m);
    if !StopsAfter(y, m, 34) {
      LastWeek(y, m);
    }
  }

  /** The first cell is the Sunday on or before the first of the month, less than a week before it. */
  lemma GridStartsOnSunday(y: int, m: int)
    requires 1 <= m <= 12
    ensures Grid(y, m) != []
    ensures Weekday(Grid(y, m)[0].day) == 1
    ensures exists k :: 0 <= k <= 6 && AddDays(Grid(y, m)[0].day, k) == FirstOfMonth(y, m)
  {
    GridIsWholeWeeks(y, m);
    GridStartIsLead(y, m);
    var lead := Lead(y, m);
    AddDaysCompose(FirstOfMonth(y, m), -lead, lead);
    assert AddDays(Grid(y, m)[0].day, lead) == FirstOfMonth(y, m);
  }

  /** The cells are midnights of consecutive days. */
  lemma GridIsConsecutive(y: int, m: int)
    requires 1 <= m <= 12
    ensures forall j :: 0 < j < |Grid(y, m)| ==> Grid(y, m)[j].day == NextDay(Grid(y, m)[j - 1].day)
    ensures forall j :: 0 <= j < |Grid(y, m)| ==> Grid(y, m)[j].second == 0
  {
    var grid := Grid(y, m);
    forall j | 0 < j < |grid| ensures grid[j].day == NextDay(grid[j - 1].day) {
      AddDaysCompose(GridStart(y, m), j - 1, 1);
    }
  }

  /** Every day of the month has its cell, at offset `lead + day - 1`. */
  lemma GridCoversMonth(y: int, m: int)
    requires 1 <= m <= 12
    ensures forall d :: 1 <= d <= DaysInMonth(y, m) ==> Midnight(CivilDay(y, m, d)) in Grid(y, m)
  {
    var grid := Grid(y, m);
    var lead := Lead(y, m);
    GridIsWholeWeeks(y, m);
    forall d | 1 <= d <= DaysInMonth(y, m) ensures Midnight(CivilDay(y, m, d)) in grid {
      var k := lead + d - 1;
      assert k < |grid|;
      CellInMonth(y, m, k);
      assert grid[k] == Midnight(Cell(y, m, k));
    }
  }

  /** The last cell is a Saturday after the month: the grid ends with the month's last week. */
  lemma GridEndsOnSaturday(y: int, m: int)
    requires 1 <= m <= 12
    ensures Grid(y, m) != []
    ensures Grid(y, m)[|Grid(y, m)| - 1].day.month != m && Weekday(Grid(y, m)[|Grid(y, m)| - 1].day) == 7
  {
    var grid := Grid(y, m);
    GridStopsAtItsEnd(y, m);
    var last := |grid| - 1;
    assert grid[last] == Midnight(Cell(y, m, last));
  }

  /** The generator's last cell is one where the break condition holds. */
  lemma GridStopsAtItsEnd(y: int, m: int)
    requires 1 <= m <= 12
    ensures CellsFrom(y, m, 0) >= 35 && StopsAfter(y, m, CellsFrom(y, m, 0) - 1)
  {
    NoStopBefore34(y, m);
    if !StopsAfter(y, m, 34) {
      LastWeek(y, m);
      LastOffsetStops(y, m);
    }
  }

  /**
   * On the grid the month-only test of `isDateInCurrentMonth` agrees with the real one: the grid
   * spans less than three months, so the year never has to be compared.
   */
  lemma MonthOnlyTestSufficesOnGrid(y: int, m: int, j: int)
    requires 1 <= m <= 12
    requires 0 <= j < |Grid(y, m)|
    ensures Grid(y, m)[j].day.month == m <==> Grid(y, m)[j].day.year == y && Grid(y, m)[j].day.month == m
  {
    var lead, dim := Lead(y, m), DaysInMonth(y, m);
    if j < lead {
      CellBeforeMonth(y, m, j);
    } else if j < lead + dim {
      CellInMonth(y, m, j);
    } else {
      CellAfterMonth(y, m, j);
    }
  }
}
