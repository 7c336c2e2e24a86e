/**
 * The month calendar of the dashboard: moving between months, laying out
 * the grid of day cells, and marking each cell with the scheduled
 * interviews that fall on it.
 *
 * Months are numbered 0 to 11 and days from 1, as the browser's `Date`
 * does; dates are in the proleptic Gregorian calendar.
 */
module Calendar {
  import opened Lists
  import opened Text

  // ------------------------------------------------------------------ dates

  datatype Date = Date(year: int, month: int, day: int)

  predicate IsLeap(year: int)
  {
    year % 4 == 0 && (year % 100 != 0 || year % 400 == 0)
  }

  function DaysInMonth(year: int, month: int): (n: int)
    requires 0 <= month < 12
    ensures 28 <= n <= 31
    ensures month == 1 ==> (n == 29 <==> IsLeap(year))
  {
    if month == 1 then (if IsLeap(year) then 29 else 28)
    else if month == 3 || month == 5 || month == 8 || month == 10 then 30
    else 31
  }

  /** A date that exists in the calendar. */
  predicate Valid(d: Date)
  {
    0 <= d.month < 12 && 1 <= d.day <= DaysInMonth(d.year, d.month)
  }

  /** The month before and the month after, crossing year boundaries. */
  function MonthBefore(year: int, month: int): (r: (int, int))
    requires 0 <= month < 12
    ensures 0 <= r.1 < 12 && r.0 * 12 + r.1 == year * 12 + month - 1
  {
    if month == 0 then (year - 1, 11) else (year, month - 1)
  }

  function MonthAfter(year: int, month: int): (r: (int, int))
    requires 0 <= month < 12
    ensures 0 <= r.1 < 12 && r.0 * 12 + r.1 == year * 12 + month + 1
  {
    if month == 11 then (year + 1, 0) else (year, month + 1)
  }

  /** The day after a date. */
  function NextDay(d: Date): (r: Date)
    requires Valid(d)
    ensures Valid(r)
    ensures d.day < DaysInMonth(d.year, d.month) ==> r == d.(day := d.day + 1)
    ensures d.day == DaysInMonth(d.year, d.month) ==>
      r == Date(MonthAfter(d.year, d.month).0, MonthAfter(d.year, d.month).1, 1)
  {
    if d.day < DaysInMonth(d.year, d.month) then d.(day := d.day + 1)
    else
      var (y, m) := MonthAfter(d.year, d.month);
      Date(y, m, 1)
  }

  /** The day of the week, 0 for Sunday, by Sakamoto's method. */
  function Weekday(d: Date): (w: int)
    requires Valid(d)
    ensures 0 <= w < 7
  {
    var offsets := [0, 3, 2, 5, 0, 3, 5, 1, 4, 6, 2, 4];
    var y := if d.month < 2 then d.year - 1 else d.year;
    (y + y / 4 - y / 100 + y / 400 + offsets[d.month] + d.day) % 7
  }

  /** Months counted from year 0, so that month steps are additions. */
  function MonthNumber(year: int, month: int): int
  {
    year * 12 + month
  }

  // ------------------------------------------------------- changing months

  /**
   * `changeMonth` as written: `setMonth(getMonth() + delta)` keeps the day
   * of the month, and a day the target month lacks rolls over into the
   * month after it.
   */
  function ChangeMonthAsWritten(d: Date, delta: int): (r: Date)
    requires Valid(d)
    ensures Valid(r)
    ensures var target := MonthNumber(d.year, d.month) + delta;
      var fits := d.day <= DaysInMonth(target / 12, target % 12);
      && (fits ==> MonthNumber(r.year, r.month) == target && r.day == d.day)
      && (!fits ==> MonthNumber(r.year, r.month) == target + 1)
  {
    var target := MonthNumber(d.year, d.month) + delta;
    var y := target / 12;
    var m := target % 12;
    var dim := DaysInMonth(y, m);
    if d.day <= dim then Date(y, m, d.day)
    else
      var (ny, nm) := MonthAfter(y, m);
      Date(ny, nm, d.day - dim)
  }

  /** From the 31st of January, "next month" shows March. */
  lemma NextFromJanuary31SkipsFebruary()
    ensures ChangeMonthAsWritten(Date(2025, 0, 31), 1) == Date(2025, 2, 3)
  {
  }

  /**
   * Moving by `delta` months, keeping the day where the target month has
   * it and otherwise using the target month's last day.
   */
  function ChangeMonth(d: Date, delta: int): (r: Date)
    requires Valid(d)
    ensures Valid(r)
    ensures MonthNumber(r.year, r.month) == MonthNumber(d.year, d.month) + delta
    ensures r.day == Min(d.day, DaysInMonth(r.year, r.month))
  {
    var target := MonthNumber(d.year, d.month) + delta;
    var y := target / 12;
    var m := target % 12;
    Date(y, m, Min(d.day, DaysInMonth(y, m)))
  }

  /** Going forward and back returns to the same month. */
  lemma ChangeMonthBack(d: Date, delta: int)
    requires Valid(d)
    ensures var r := ChangeMonth(ChangeMonth(d, delta), -delta);
      r.year == d.year && r.month == d.month
  {
    var r := ChangeMonth(ChangeMonth(d, delta), -delta);
    MonthNumberUnique(r.year, r.month, d.year, d.month);
  }

  lemma MonthNumberUnique(y1: int, m1: int, y2: int, m2: int)
    requires 0 <= m1 < 12 && 0 <= m2 < 12
    requires MonthNumber(y1, m1) == MonthNumber(y2, m2)
    ensures y1 == y2 && m1 == m2
  {
    assert (y1 - y2) * 12 == m2 - m1;
  }

  // ---------------------------------------------------------------- title

  const MonthNames: seq<string> := ["Jan", "Feb", "Mar", "Apr", "May", "Jun", "Jul", "Aug", "Sep", "Oct", "Nov", "Dec"]

  /** A year as JavaScript prints an integer. */
  function YearText(year: int): (r: string)
    ensures ' ' !in r && |r| >= 1
  {
    if year < 0 then "-" + NatToString(-year) else NatToString(year)
  }

  /** The heading above the grid, as in "Jan 2025". */
  function MonthTitle(year: int, month: int): string
    requires 0 <= month < 12
  {
    MonthNames[month] + " " + YearText(year)
  }

  /** The heading reads back as the month's name and the year, and the name
      designates the month. */
  lemma MonthTitleReadsBack(year: int, month: int)
    requires 0 <= month < 12
    ensures Split(MonthTitle(year, month), ' ') == [MonthNames[month], YearText(year)]
    ensures forall other :: 0 <= other < 12 && MonthNames[other] == MonthNames[month] ==> other == month
  {
    assert ' ' !in MonthNames[month];
    SplitCons(MonthNames[month], ' ', YearText(year));
    SplitFree(YearText(year), ' ');
  }

  // ---------------------------------------------------------------- cells

  /** A calendar entry; only its start date matters for the grid. */
  datatype Interview = Interview(start: Date, title: string)

  /** The interviews starting on a day. */
  function DayInterviews(interviews: seq<Interview>, d: Date): (r: seq<Interview>)
    ensures forall k :: 0 <= k < |r| ==> r[k] in interviews && r[k].start == d
    ensures forall iv :: iv in interviews && iv.start == d ==> iv in r
    ensures forall k :: 0 <= k < |interviews| && interviews[k].start == d ==>
      multiset(r)[interviews[k]] == multiset(interviews)[interviews[k]]
    ensures IsSubseq(r, interviews)
  {
    FilterCounts((iv: Interview) => iv.start == d, interviews);
    Filter((iv: Interview) => iv.start == d, interviews)
  }

  /** Interviews have real start dates, so a month outside 0 to 11 has none. */
  lemma NoInterviewsOutsideCalendar(interviews: seq<Interview>, d: Date)
    requires forall k :: 0 <= k < |interviews| ==> Valid(interviews[k].start)
    requires !(0 <= d.month < 12)
    ensures DayInterviews(interviews, d) == []
  {
    assert forall iv :: iv in interviews ==> iv.start != d;
  }

  /** How a cell is drawn. */
  datatype Kind = OtherMonth | Today | InMonth

  /** The moment of rendering: today's date and the milliseconds since
      midnight. */
  datatype Now = Now(today: Date, msOfDay: nat)

  /** A cell's midnight lies before the moment of rendering. */
  predicate IsPast(d: Date, now: Now)
  {
    || d.year < now.today.year
    || (d.year == now.today.year && d.month < now.today.month)
    || (d.year == now.today.year && d.month == now.today.month && d.day < now.today.day)
    || (d == now.today && now.msOfDay > 0)
  }

  datatype Cell = Cell(date: Date, kind: Kind, count: nat, past: bool)

  /** `createDayElement` for a cell that shows `d`. */
  function DayCell(d: Date, kind: Kind, interviews: seq<Interview>, now: Now): (c: Cell)
    ensures c.date == d && c.kind == kind
    ensures c.count == |DayInterviews(interviews, d)|
    ensures c.past <==> c.count > 0 && IsPast(d, now)
  {
    var n := |DayInterviews(interviews, d)|;
    Cell(d, kind, n, n > 0 && IsPast(d, now))
  }

  /** The tooltip of a cell with interviews, as in "2 interviews". */
  function CountTitle(n: nat): string
    requires n > 0
  {
    NatToString(n) + " " + InterviewNoun(n)
  }

  function InterviewNoun(n: nat): string
  {
    if n > 1 then "interviews" else "interview"
  }

  /** The tooltip reads back as the count and a noun that is plural exactly
      when the count is above one. */
  lemma CountTitleReadsBack(n: nat)
    requires n > 0
    ensures var parts := Split(CountTitle(n), ' ');
      && |parts| == 2
      && parts[0] == NatToString(n)
      && ParseDecimal(parts[0]) == n
      && (parts[1] == "interviews" <==> n > 1)
      && (parts[1] == "interview" <==> n == 1)
  {
    var noun := InterviewNoun(n);
    assert ' ' !in noun;
    CountAndWord(n, noun);
    assert "interviews" != "interview";
  }

  // -------------------------------------------------------------- the grid

  /**
   * The arguments `renderCalendar` gives a cell of the neighbouring
   * months: the grid's own year with the month number one below or above,
   * even in January and December.
   */
  function OtherMonthArgsAsWritten(year: int, month: int, day: int, following: bool): (d: Date)
    requires 0 <= month < 12
    ensures d.year == year && d.day == day
    ensures !following && month == 0 ==> !Valid(d)
    ensures following && month == 11 ==> !Valid(d)
    ensures !following && month > 0 ==> d.month == MonthBefore(year, month).1
    ensures following && month < 11 ==> d.month == MonthAfter(year, month).1
  {
    Date(year, if following then month + 1 else month - 1, day)
  }

  /**
   * In the January 2025 grid the three leading cells show 29, 30 and 31
   * December 2024, yet the cell for the 31st looks up month -1 of 2025 and
   * so never shows an interview held on that day.
   */
  lemma JanuaryGridMissesDecember()
    ensures Weekday(Date(2025, 0, 1)) == 3
    ensures var iv := [Interview(Date(2024, 11, 31), "Onsite")];
      && OtherMonthArgsAsWritten(2025, 0, 31, false) == Date(2025, -1, 31)
      && |DayInterviews(iv, OtherMonthArgsAsWritten(2025, 0, 31, false))| == 0
      && |DayInterviews(iv, Date(MonthBefore(2025, 0).0, MonthBefore(2025, 0).1, 31))| == 1
  {
    var iv := [Interview(Date(2024, 11, 31), "Onsite")];
    var missed := DayInterviews(iv, Date(2025, -1, 31));
    if |missed| > 0 {
      assert missed[0] in iv;
    }
    assert iv[0] in DayInterviews(iv, Date(2024, 11, 31));
  }

  /** The date shown at position `k` of the grid of a month. */
  function GridDate(year: int, month: int, k: int): Date
    requires 0 <= month < 12
  {
    var first := Weekday(Date(year, month, 1));
    var dim := DaysInMonth(year, month);
    if k < first then
      var (py, pm) := MonthBefore(year, month);
      Date(py, pm, DaysInMonth(py, pm) - first + 1 + k)
    else if k < first + dim then Date(year, month, k - first + 1)
    else
      var (ny, nm) := MonthAfter(year, month);
      Date(ny, nm, k - first - dim + 1)
  }

  /** How the cell showing `d` is drawn in the grid of a month. */
  function GridKind(year: int, month: int, d: Date, now: Now): Kind
  {
    if (d.year, d.month) != (year, month) then OtherMonth
    else if d == now.today then Today
    else InMonth
  }

  /** Every position of the grid holds a real date, in the month exactly
      between the leading and the trailing days. */
  lemma GridDateFacts(year: int, month: int, k: int)
    requires 0 <= month < 12
    requires 0 <= k < Weekday(Date(year, month, 1)) + DaysInMonth(year, month) + 7
    ensures Valid(GridDate(year, month, k))
    ensures var d := GridDate(year, month, k); var first := Weekday(Date(year, month, 1));
      (d.year, d.month) == (year, month) <==> first <= k < first + DaysInMonth(year, month)
  {
    var first := Weekday(Date(year, month, 1));
    var d := GridDate(year, month, k);
    if k < first {
      MonthNumberSplit(year, month, d.year, d.month);
    } else if k >= first + DaysInMonth(year, month) {
      MonthNumberSplit(year, month, d.year, d.month);
    }
  }

  lemma MonthNumberSplit(y1: int, m1: int, y2: int, m2: int)
    requires 0 <= m1 < 12 && 0 <= m2 < 12
    requires MonthNumber(y1, m1) != MonthNumber(y2, m2)
    ensures (y1, m1) != (y2, m2)
  {
  }

  /** Consecutive positions of the grid hold consecutive days. */
  lemma GridConsecutive(year: int, month: int, k: int)
    requires 0 <= month < 12
    requires 0 <= k && k + 1 < Weekday(Date(year, month, 1)) + DaysInMonth(year, month) + 7
    ensures Valid(GridDate(year, month, k))
    ensures GridDate(year, month, k + 1) == NextDay(GridDate(year, month, k))
  {
    GridDateFacts(year, month, k);
    var first := Weekday(Date(year, month, 1));
    var (py, pm) := MonthBefore(year, month);
    if k == first - 1 {
      assert MonthAfter(py, pm) == (year, month) by {
        MonthNumberUnique(MonthAfter(py, pm).0, MonthAfter(py, pm).1, year, month);
      }
    }
  }

  /** The cell at position `k` of the grid of a month. */
  function GridCell(year: int, month: int, k: int, interviews: seq<Interview>, now: Now): Cell
    requires 0 <= month < 12
  {
    var d := GridDate(year, month, k);
    DayCell(d, GridKind(year, month, d, now), interviews, now)
  }

  /** What `renderCalendar` promises of each cell it lays out. */
  predicate RenderedCell(year: int, month: int, c: Cell, interviews: seq<Interview>, now: Now)
  {
    && Valid(c.date)
    && (c.kind == OtherMonth <==> (c.date.year, c.date.month) != (year, month))
    && (c.kind == Today <==> c.date == now.today && now.today.year == year && now.today.month == month)
    && c == DayCell(c.date, c.kind, interviews, now)
  }

  lemma GridCellRendered(year: int, month: int, k: int, interviews: seq<Interview>, now: Now)
    requires 0 <= month < 12
    requires 0 <= k < Weekday(Date(year, month, 1)) + DaysInMonth(year, month) + 7
    ensures RenderedCell(year, month, GridCell(year, month, k, interviews, now), interviews, now)
  {
    GridDateFacts(year, month, k);
  }

  /** The grid's cells at positions 0 up to `|cells|`. */
  predicate GridPrefix(year: int, month: int, cells: seq<Cell>, interviews: seq<Interview>, now: Now)
    requires 0 <= month < 12
  {
    forall k :: 0 <= k < |cells| ==> cells[k] == GridCell(year, month, k, interviews, now)
  }

  /** The first loop of `renderCalendar`: the previous month's last days,
      up to the weekday the month starts on. */
  method LeadingDays(year: int, month: int, interviews: seq<Interview>, now: Now) returns (cells: seq<Cell>)
    requires 0 <= month < 12
    ensures |cells| == Weekday(Date(year, month, 1))
    ensures GridPrefix(year, month, cells, interviews, now)
  {
    var first := Weekday(Date(year, month, 1));
    var (py, pm) := MonthBefore(year, month);
    var prevLast := DaysInMonth(py, pm);
    cells := [];
    var i := first - 1;
    while i >= 0
      invariant -1 <= i < first
      invariant |cells| == first - 1 - i
      invariant GridPrefix(year, month, cells, interviews, now)
    {
      GridDateFacts(year, month, |cells|);
      assert DayCell(Date(py, pm, prevLast - i), OtherMonth, interviews, now) == GridCell(year, month, |cells|, interviews, now);
      cells := cells + [DayCell(Date(py, pm, prevLast - i), OtherMonth, interviews, now)];
      i := i - 1;
    }
  }

  /** The second loop: the days of the month, the current date marked. */
  method MonthDays(year: int, month: int, interviews: seq<Interview>, now: Now, leading: seq<Cell>) returns (cells: seq<Cell>)
    requires 0 <= month < 12
    requires |leading| == Weekday(Date(year, month, 1))
    requires GridPrefix(year, month, leading, interviews, now)
    ensures |cells| == Weekday(Date(year, month, 1)) + DaysInMonth(year, month)
    ensures GridPrefix(year, month, cells, interviews, now)
  {
    var dim := DaysInMonth(year, month);
    var first := |leading|;
    cells := leading;
    var day := 1;
    while day <= dim
      invariant 1 <= day <= dim + 1
      invariant |cells| == first + day - 1
      invariant GridPrefix(year, month, cells, interviews, now)
    {
      var d := Date(year, month, day);
      var isToday := d == now.today;
      assert DayCell(d, if isToday then Today else InMonth, interviews, now) == GridCell(year, month, |cells|, interviews, now);
      cells := cells + [DayCell(d, if isToday then Today else InMonth, interviews, now)];
      day := day + 1;
    }
  }

  /** The third loop: the next month's first days, up to a full week. */
  method TrailingDays(year: int, month: int, interviews: seq<Interview>, now: Now, upToMonth: seq<Cell>) returns (cells: seq<Cell>)
    requires 0 <= month < 12
    requires |upToMonth| == Weekday(Date(year, month, 1)) + DaysInMonth(year, month)
    requires GridPrefix(year, month, upToMonth, interviews, now)
    ensures |cells| % 7 == 0 && |upToMonth| <= |cells| < |upToMonth| + 7
    ensures GridPrefix(year, month, cells, interviews, now)
  {
    var (ny, nm) := MonthAfter(year, month);
    var total := |upToMonth|;
    var remaining := if total % 7 == 0 then 0 else 7 - total % 7;
    cells := upToMonth;
    var day := 1;
    while day <= remaining
      invariant 1 <= day <= remaining + 1
      invariant |cells| == total + day - 1
      invariant GridPrefix(year, month, cells, interviews, now)
    {
      GridDateFacts(year, month, |cells|);
      assert DayCell(Date(ny, nm, day), OtherMonth, interviews, now) == GridCell(year, month, |cells|, interviews, now);
      cells := cells + [DayCell(Date(ny, nm, day), OtherMonth, interviews, now)];
      day := day + 1;
    }
  }

  /**
   * `renderCalendar`: the days of the previous month that fill the first
   * week, the days of the month (the current date marked), and the days
   * of the next month that fill the last week; each cell shows the
   * interviews of the date it displays, the neighbouring months' cells
   * included.
   */
  method RenderCalendar(year: int, month: int, interviews: seq<Interview>, now: Now)
    returns (cells: seq<Cell>)
    requires 0 <= month < 12
    ensures var first := Weekday(Date(year, month, 1));
      var last := first + DaysInMonth(year, month);
      && |cells| % 7 == 0 && last <= |cells| < last + 7
      && cells[first].date == Date(year, month, 1)
      && cells[last - 1].date == Date(year, month, DaysInMonth(year, month))
    ensures forall k :: 0 <= k < |cells| ==> RenderedCell(year, month, cells[k], interviews, now)
    ensures forall k :: 0 <= k < |cells| - 1 ==> Valid(cells[k].date) && cells[k + 1].date == NextDay(cells[k].date)
  {
    var leading := LeadingDays(year, month, interviews, now);
    var upToMonth := MonthDays(year, month, interviews, now, leading);
    cells := TrailingDays(year, month, interviews, now, upToMonth);
    forall k | 0 <= k < |cells|
      ensures RenderedCell(year, month, cells[k], interviews, now)
    {
      GridCellRendered(year, month, k, interviews, now);
    }
    forall k | 0 <= k < |cells| - 1
      ensures Valid(cells[k].date) && cells[k + 1].date == NextDay(cells[k].date)
    {
      GridConsecutive(year, month, k);
    }
  }
}
