/** The completion heatmap (`HabitCalendar`): a 365-day window ending today,
    laid out column by column in a seven-row grid after a run of blank
    leading cells, each cell coloured when its day key is among the habit's
    completions.

    Days are whole numbers counting from 1970-01-01 in the local calendar, and
    the `yyyy-MM-dd` formatter is a parameter `formatKey`. */
module Heatmap {
  import opened Base

  /** Number of days the heatmap shows. */
  const WindowDays := 365

  /** The `days` array: from 364 days before today up to today. */
  function Window(today: int): (days: seq<int>)
    ensures |days| == WindowDays
    ensures days[0] == today - 364 && days[WindowDays - 1] == today
    ensures forall i :: 0 <= i < |days| - 1 ==> days[i + 1] == days[i] + 1
  {
    seq(WindowDays, i requires 0 <= i < WindowDays => today - (364 - i))
  }

  /** The window holds exactly the days from `today - 364` to `today`. */
  lemma WindowIsInterval(today: int, d: int)
    ensures d in Window(today) <==> today - 364 <= d <= today
  {
    if today - 364 <= d <= today {
      assert Window(today)[d - (today - 364)] == d;
    }
  }

  /** `getDay`: 0 for Sunday through 6 for Saturday. Day 0 (1970-01-01) was a
      Thursday. */
  function GetDay(day: int): (weekday: int)
    ensures 0 <= weekday < 7
  {
    (day + 4) % 7
  }

  /** The `dayOffset` expression: the position of a weekday in a week that
      starts on Monday. */
  function MondayIndex(weekday: int): (offset: nat)
    requires 0 <= weekday < 7
    ensures offset < 7
    ensures offset == (weekday + 6) % 7
    ensures weekday == 0 ==> offset == 6
    ensures weekday == 1 ==> offset == 0
  {
    if weekday == 0 then 6 else weekday - 1
  }

  /** One cell of the grid: its day, its key, and whether it is coloured. */
  datatype Cell = Cell(day: int, key: string, completed: bool)

  /** The grid: `leading` blank cells, then one cell per day of the window. */
  datatype Grid = Grid(leading: nat, cells: seq<Cell>)

  /** The row (0 = top) of the `i`-th day cell: the grid fills seven rows per
      column, blanks first. */
  function Row(g: Grid, i: nat): nat
  {
    (g.leading + i) % 7
  }

  /** The day cells: a cell is coloured exactly when its key is in the set of
      completions. */
  function Cells(today: int, formatKey: int -> string, completions: seq<string>): (cells: seq<Cell>)
    ensures |cells| == WindowDays
    ensures forall i :: 0 <= i < |cells| ==> cells[i].day == today - 364 + i && cells[i].key == formatKey(cells[i].day)
    ensures forall i :: 0 <= i < |cells| ==> (cells[i].completed <==> formatKey(today - 364 + i) in completions)
  {
    var completionSet := Elements(completions);
    var days := Window(today);
    seq(WindowDays, i requires 0 <= i < WindowDays =>
      var key := formatKey(days[i]);
      Cell(days[i], key, key in completionSet))
  }

  /** Only the set of completions matters: duplicates and order do not. */
  lemma CellsIgnoreDuplicatesAndOrder(today: int, formatKey: int -> string, a: seq<string>, b: seq<string>)
    requires Elements(a) == Elements(b)
    ensures Cells(today, formatKey, a) == Cells(today, formatKey, b)
  {
  }

  /** The formatter never gives two days the same key. */
  ghost predicate Injective(formatKey: int -> string)
  {
    forall d, e :: formatKey(d) == formatKey(e) ==> d == e
  }

  /** With an injective formatter the cells' keys are distinct. */
  lemma CellKeysDistinct(today: int, formatKey: int -> string, completions: seq<string>)
    requires Injective(formatKey)
    ensures forall i, j :: 0 <= i < j < WindowDays ==>
      Cells(today, formatKey, completions)[i].key != Cells(today, formatKey, completions)[j].key
  {
  }

  /** The leading blanks as the source computes them: from the weekday of the
      first day of the current year. */
  function DayOffsetAsWritten(yearStart: int): (offset: nat)
    ensures offset < 7
  {
    MondayIndex(GetDay(yearStart))
  }

  /** The grid as the source lays it out: the blanks count the Monday-first
      weekday of the year start, so the first day cell is drawn in that
      weekday's row whatever day it is. */
  function RenderAsWritten(today: int, yearStart: int, formatKey: int -> string, completions: seq<string>): (g: Grid)
    ensures g.cells == Cells(today, formatKey, completions)
    ensures Row(g, 0) == MondayWeekday(yearStart)
    ensures forall i :: 0 <= i < |g.cells| ==> Row(g, i) == (MondayWeekday(yearStart) + i) % 7
  {
    Grid(DayOffsetAsWritten(yearStart), Cells(today, formatKey, completions))
  }

  /** Monday-based weekday of a day number. */
  function MondayWeekday(day: int): (offset: nat)
    ensures offset < 7
    ensures offset == (day + 3) % 7
  {
    MondayIndex(GetDay(day))
  }

  /** The leading blanks taken from the weekday of the first day shown. */
  function DayOffset(today: int): (offset: nat)
    ensures offset < 7
  {
    MondayWeekday(Window(today)[0])
  }

  lemma {:induction false} ModShift(a: int, i: nat)
    ensures (a % 7 + i) % 7 == (a + i) % 7
  {
    var q := a / 7;
    assert a == 7 * q + a % 7;
    assert a + i == 7 * q + (a % 7 + i);
  }

  lemma {:induction false} ModWeeksBack(x: int, weeks: nat)
    ensures (x - 7 * weeks) % 7 == x % 7
  {
    var q := x / 7;
    assert x == 7 * q + x % 7;
    assert x - 7 * weeks == 7 * (q - weeks) + x % 7;
  }

  /** The grid with its rows aligned to weekdays: row 0 is Monday. */
  function Render(today: int, formatKey: int -> string, completions: seq<string>): (g: Grid)
    ensures g.leading < 7 && g.cells == Cells(today, formatKey, completions)
    ensures forall i :: 0 <= i < |g.cells| ==> Row(g, i) == MondayWeekday(g.cells[i].day)
  {
    var g := Grid(DayOffset(today), Cells(today, formatKey, completions));
    assert forall i: nat :: i < |g.cells| ==> Row(g, i) == MondayWeekday(g.cells[i].day) by {
      forall i: nat | i < |g.cells|
        ensures Row(g, i) == MondayWeekday(g.cells[i].day)
      {
        ModShift(today - 364 + 3, i);
      }
    }
    g
  }

  /** The source's grid is aligned to weekdays exactly when the year started
      on the same weekday as today. */
  lemma AsWrittenAlignedIff(today: int, yearStart: int, formatKey: int -> string, completions: seq<string>)
    ensures
      var g := RenderAsWritten(today, yearStart, formatKey, completions);
      (forall i :: 0 <= i < |g.cells| ==> Row(g, i) == MondayWeekday(g.cells[i].day))
        <==> GetDay(yearStart) == GetDay(today)
  {
    var g := RenderAsWritten(today, yearStart, formatKey, completions);
    var aligned := Render(today, formatKey, completions);
    assert GetDay(today - 364) == GetDay(today) by {
      ModWeeksBack(today + 4, 52);
    }
    if GetDay(yearStart) == GetDay(today) {
      assert g.leading == aligned.leading;
      forall i | 0 <= i < |g.cells|
        ensures Row(g, i) == MondayWeekday(g.cells[i].day)
      {
        assert Row(g, i) == Row(aligned, i);
      }
    } else {
      assert g.leading != aligned.leading;
      assert Row(g, 0) != MondayWeekday(g.cells[0].day);
    }
  }

  /** A concrete misalignment: on Saturday 2024-06-15 (day 19889) the year
      started on Monday 2024-01-01 (day 19723), so no blanks are drawn and the
      first cell, a Saturday, lands in the Monday row. */
  lemma AsWrittenMisaligned(formatKey: int -> string, completions: seq<string>)
    ensures
      var g := RenderAsWritten(19889, 19723, formatKey, completions);
      && GetDay(19723) == 1 && GetDay(19889) == 6
      && g.cells[0].day == 19525 && GetDay(19525) == 6
      && Row(g, 0) == 0 && MondayWeekday(g.cells[0].day) == 5
  {
  }
}
