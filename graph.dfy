/**
 * The productivity trend graph: eight weekly or six monthly windows, each
 * scored by the share of possible habit-days that were completed, and the
 * insights drawn from the last two windows and the best one.
 */
module ProductivityGraph {

  import opened Wrappers
  import opened Calendar
  import opened Habits
  import opened Counting
  import opened Tally
  import opened Extremes

  /** A window's label: `W1`..`W8`, or the month's index into the short month names. */
  datatype Label = Week(number: int) | Month(index: int)

  datatype Point = Point(caption: Label, productivity: int, completed: nat, possible: nat, start: Day, end: Day)

  /** The habit loop of one day: each habit counts from its creation day on, weekly ones only on Sundays. */
  method TallyDay(habits: seq<Habit>, d: Day) returns (completed: nat, possible: nat)
    ensures possible == HabitsOn(Window, Possible, habits, d)
    ensures completed == HabitsOn(Window, Done, habits, d)
  {
    completed, possible := 0, 0;
    var i := 0;
    while i < |habits|
      invariant 0 <= i <= |habits|
      invariant possible == HabitsOn(Window, Possible, habits[..i], d)
      invariant completed == HabitsOn(Window, Done, habits[..i], d)
    {
      assert habits[..i + 1][..i] == habits[..i];
      var h := habits[i];
      if d >= h.createdAt {
        if h.frequency == Daily {
          possible := possible + 1;
          if Completed(Entry(h.completions, d), TargetOf(h)) {
            completed := completed + 1;
          }
        } else if h.frequency == Weekly && DayOfWeek(d) == 0 {
          possible := possible + 1;
          if Completed(Entry(h.completions, d), TargetOf(h)) {
            completed := completed + 1;
          }
        }
      }
      i := i + 1;
    }
    assert habits[..|habits|] == habits;
  }

  /**
   * The day loop of one window: every day from `start` while it is neither
   * past `end` nor past today.
   */
  method TallyWindow(habits: seq<Habit>, start: Day, end: Day, today: Day) returns (completed: nat, possible: nat)
    ensures possible == DaysIn(Window, Possible, habits, start, Min(end, today))
    ensures completed == DaysIn(Window, Done, habits, start, Min(end, today))
    ensures completed <= possible
  {
    completed, possible := 0, 0;
    var d := start;
    while d <= end && d <= today
      invariant start <= d <= Min(end, today) + 1 || d == start
      invariant possible == DaysIn(Window, Possible, habits, start, d - 1)
      invariant completed == DaysIn(Window, Done, habits, start, d - 1)
      decreases Min(end, today) - d
    {
      var c, p := TallyDay(habits, d);
      completed, possible := completed + c, possible + p;
      d := d + 1;
    }
    DoneInAtMostPossible(Window, habits, start, Min(end, today));
  }

  /** The point of one window: its figures counted up to the earlier of its end and today. */
  function WindowPoint(habits: seq<Habit>, today: Day, caption: Label, start: Day, end: Day): Point
  {
    var completed := DaysIn(Window, Done, habits, start, Min(end, today));
    var possible := DaysIn(Window, Possible, habits, start, Min(end, today));
    Point(caption, ClampedPercent(completed, possible), completed, possible, start, end)
  }

  /** Every window completes at most what was possible and scores the rounded percentage, within 0..100. */
  lemma WindowPointScores(habits: seq<Habit>, today: Day, caption: Label, start: Day, end: Day)
    ensures var p := WindowPoint(habits, today, caption, start, end);
      && p.completed <= p.possible
      && 0 <= p.productivity <= 100
      && (p.possible == 0 ==> p.productivity == 0)
      && (p.possible > 0 ==> p.productivity == RoundPercent(p.completed, p.possible))
  {
    DoneInAtMostPossible(Window, habits, start, Min(end, today));
  }

  /** The weekly point `weekOffset` weeks back: the seven days ending that many weeks before today. */
  function WeekPoint(habits: seq<Habit>, today: Day, weekOffset: int): Point
  {
    var end := today - weekOffset * 7;
    WindowPoint(habits, today, Week(8 - weekOffset), end - 6, end)
  }

  /** The weekly view: nothing without habits, otherwise the weeks 7 down to 0 weeks back. */
  method WeeklyPoints(habits: seq<Habit>, today: Day) returns (points: seq<Point>)
    ensures |habits| == 0 ==> points == []
    ensures |habits| > 0 ==> |points| == 8
    ensures forall k :: 0 <= k < |points| ==> points[k] == WeekPoint(habits, today, 7 - k)
  {
    if |habits| == 0 {
      return [];
    }
    points := [];
    var weekOffset := 7;
    while weekOffset >= 0
      invariant -1 <= weekOffset <= 7
      invariant |points| == 7 - weekOffset
      invariant forall k :: 0 <= k < |points| ==> points[k] == WeekPoint(habits, today, 7 - k)
    {
      var weekEnd := today - weekOffset * 7;
      var weekStart := weekEnd - 6;
      var completed, possible := TallyWindow(habits, weekStart, weekEnd, today);
      var point := Point(Week(8 - weekOffset), ClampedPercent(completed, possible), completed, possible, weekStart, weekEnd);
      assert point == WeekPoint(habits, today, weekOffset);
      points := points + [point];
      weekOffset := weekOffset - 1;
    }
  }

  /** The weekly windows tile the 56 days ending today, labelled W1..W8 from the oldest. */
  lemma WeekWindowsTile(habits: seq<Habit>, today: Day, weekOffset: int)
    requires 0 <= weekOffset < 8
    ensures var p := WeekPoint(habits, today, weekOffset);
      && p.caption == Week(8 - weekOffset)
      && p.end - p.start == 6
      && p.start == today - 7 * weekOffset - 6
      && (weekOffset > 0 ==> WeekPoint(habits, today, weekOffset - 1).start == p.end + 1)
      && (weekOffset == 0 ==> p.end == today)
  {
  }

  /** The first day of the month `m` months after month 0 of year `y` (a negative `m` counts back). */
  function MonthWindowStart(y: int, m: int): Day
  {
    MakeDay(y, m, 1)
  }

  /** The last day of the month that starts on `start`. */
  function MonthWindowEnd(start: Day): Day
  {
    MakeDay(Year(start), MonthIndex(start) + 1, 0)
  }

  /** The monthly point `monthOffset` months before today's month. */
  function MonthPoint(habits: seq<Habit>, today: Day, monthOffset: int): Point
  {
    var start := MonthWindowStart(Year(today), MonthIndex(today) - monthOffset);
    WindowPoint(habits, today, Month(MonthIndex(start)), start, MonthWindowEnd(start))
  }

  /** The monthly view: nothing without habits, otherwise the months 5 down to 0 months back. */
  method MonthlyPoints(habits: seq<Habit>, today: Day) returns (points: seq<Point>)
    ensures |habits| == 0 ==> points == []
    ensures |habits| > 0 ==> |points| == 6
    ensures |habits| > 0 ==> forall off :: 0 <= off < 6 ==> points[5 - off] == MonthPoint(habits, today, off)
  {
    if |habits| == 0 {
      return [];
    }
    points := [];
    var monthOffset := 5;
    while monthOffset >= 0
      invariant -1 <= monthOffset <= 5
      invariant |points| == 5 - monthOffset
      invariant forall off :: monthOffset < off < 6 ==> points[5 - off] == MonthPoint(habits, today, off)
    {
      var point := MonthPointAt(habits, today, monthOffset);
      ghost var before := points;
      points := points + [point];
      forall off | monthOffset <= off < 6
        ensures points[5 - off] == MonthPoint(habits, today, off)
      {
        if off > monthOffset {
          assert points[5 - off] == before[5 - off];
        }
      }
      monthOffset := monthOffset - 1;
    }
  }

  /** One month window's point: from the 1st of the month `monthOffset` months back to its last day. */
  method MonthPointAt(habits: seq<Habit>, today: Day, monthOffset: nat) returns (point: Point)
    ensures point == MonthPoint(habits, today, monthOffset)
  {
    var monthDate := MakeDay(Year(today), MonthIndex(today) - monthOffset, 1);
    var monthEnd := MakeDay(Year(monthDate), MonthIndex(monthDate) + 1, 0);
    var completed, possible := TallyWindow(habits, monthDate, monthEnd, today);
    point := Point(Month(MonthIndex(monthDate)), ClampedPercent(completed, possible), completed, possible, monthDate, monthEnd);
  }

  /** The calendar month a month window falls in: `m` months after month 0 of year `y`. */
  function ShiftedMonth(y: int, m: int): (r: (int, int))
    requires -12 <= m < 12
    ensures 0 <= r.1 < 12
  {
    if m < 0 then (y - 1, m + 12) else (y, m)
  }

  /** A month window starts on the 1st of a calendar month. */
  lemma MonthWindowStartIs(y: int, m: int)
    requires y >= 101 && -12 <= m < 12
    ensures var (yr, mi) := ShiftedMonth(y, m);
      && MonthWindowStart(y, m) == MonthStart(yr, mi)
      && ToCivil(MonthWindowStart(y, m)) == Civil(yr, mi, 1)
  {
    var (yr, mi) := ShiftedMonth(y, m);
    if m < 0 {
      assert m / 12 == -1 && m % 12 == m + 12;
    } else {
      assert m / 12 == 0 && m % 12 == m;
    }
    CivilOf(yr, mi, 0);
  }

  /** The window starting on the 1st of a month ends on that month's last day. */
  lemma MonthWindowEndIs(yr: int, mi: int)
    requires yr >= 100 && 0 <= mi < 12
    requires ToCivil(MonthStart(yr, mi)) == Civil(yr, mi, 1)
    ensures MonthWindowEnd(MonthStart(yr, mi)) == MonthStart(yr, mi) + MonthLength(yr, mi) - 1
  {
    MakeDayMonthBounds(yr, mi);
  }

  /** A month window starts on the 1st of a calendar month and ends on that month's last day. */
  lemma MonthWindowIsMonth(y: int, m: int)
    requires y >= 101 && -12 <= m < 12
    ensures var (yr, mi) := ShiftedMonth(y, m);
      var s := MonthWindowStart(y, m);
      && s == MonthStart(yr, mi)
      && ToCivil(s) == Civil(yr, mi, 1)
      && MonthWindowEnd(s) == s + MonthLength(yr, mi) - 1
  {
    var (yr, mi) := ShiftedMonth(y, m);
    MonthWindowStartIs(y, m);
    MonthWindowEndIs(yr, mi);
  }

  /** Each month window starts the day after the previous one ends. */
  lemma MonthWindowsConsecutive(y: int, m: int)
    requires y >= 101 && -12 <= m < 11
    ensures MonthWindowStart(y, m + 1) == MonthWindowEnd(MonthWindowStart(y, m)) + 1
  {
    var s, s' := MonthWindowStart(y, m), MonthWindowStart(y, m + 1);
    var e := MonthWindowEnd(s);
    var yr, mi := ShiftedMonth(y, m).0, ShiftedMonth(y, m).1;
    var yr', mi' := ShiftedMonth(y, m + 1).0, ShiftedMonth(y, m + 1).1;
    MonthWindowIsMonth(y, m);
    assert s == MonthStart(yr, mi) && e == s + MonthLength(yr, mi) - 1;
    MonthWindowStartIs(y, m + 1);
    assert s' == MonthStart(yr', mi');
    NextMonthStart(yr, mi);
    if mi < 11 {
      assert yr' == yr && mi' == mi + 1;
    } else {
      assert yr' == yr + 1 && mi' == 0;
    }
  }

  /** The window of today's own month holds today. */
  lemma CurrentMonthHoldsToday(today: Day)
    requires Year(today) >= 101
    ensures var s := MonthWindowStart(Year(today), MonthIndex(today));
      s <= today <= MonthWindowEnd(s)
  {
    CivilFacts(today);
    MonthWindowIsMonth(Year(today), MonthIndex(today));
  }

  /**
   * The monthly windows cover six consecutive calendar months, each from its
   * 1st to its last day and labelled by its month, the last one holding today.
   */
  lemma MonthWindowsTile(today: Day, monthOffset: int)
    requires Year(today) >= 101 && 0 <= monthOffset < 6
    ensures var m := MonthIndex(today) - monthOffset;
      var (yr, mi) := ShiftedMonth(Year(today), m);
      var s := MonthWindowStart(Year(today), m);
      && s == MonthStart(yr, mi)
      && MonthIndex(s) == mi
      && MonthWindowEnd(s) == s + MonthLength(yr, mi) - 1
      && (monthOffset > 0 ==> MonthWindowStart(Year(today), m + 1) == MonthWindowEnd(s) + 1)
      && (monthOffset == 0 ==> s <= today <= MonthWindowEnd(s))
  {
    CivilFacts(today);
    var y, m := Year(today), MonthIndex(today) - monthOffset;
    MonthWindowIsMonth(y, m);
    if monthOffset > 0 {
      MonthWindowsConsecutive(y, m);
    } else {
      CurrentMonthHoldsToday(today);
    }
  }

  datatype Trend = Up | Down | Stable

  datatype Insights = Insights(trend: Trend, change: int, current: int, best: Point, bestIndex: nat)

  /** The scores of a list of points, in order. */
  function Scores(points: seq<Point>): (s: seq<int>)
    ensures |s| == |points|
    ensures forall j :: 0 <= j < |points| ==> s[j] == points[j].productivity
  {
    seq(|points|, j requires 0 <= j < |points| => points[j].productivity)
  }

  /**
   * Insights: none below two points; the trend of the last score against the
   * one before (a move of more than 2 either way), the change clamped to
   * -100..100, and the first best-scoring point with its 1-based position.
   */
  function GetInsights(points: seq<Point>): (r: Option<Insights>)
    ensures r.None? <==> |points| < 2
    ensures r.Some? ==>
      var change := points[|points| - 1].productivity - points[|points| - 2].productivity;
      && (r.value.trend == Up <==> change > 2)
      && (r.value.trend == Down <==> change < -2)
      && r.value.change == Clamp(-100, 100, change)
      && r.value.current == points[|points| - 1].productivity
      && 1 <= r.value.bestIndex <= |points|
      && r.value.best == points[r.value.bestIndex - 1]
      && (forall j :: 0 <= j < |points| ==> points[j].productivity <= r.value.best.productivity)
      && (forall j :: 0 <= j < r.value.bestIndex - 1 ==> points[j].productivity < r.value.best.productivity)
  {
    if |points| < 2 then None
    else
      var current, previous := points[|points| - 1], points[|points| - 2];
      var change := current.productivity - previous.productivity;
      var trend := if change > 2 then Up else if change < -2 then Down else Stable;
      var i := FirstMax(Scores(points));
      Some(Insights(trend, Clamp(-100, 100, change), current.productivity, points[i], i + 1))
  }

  /** For scores within 0..100, as the graph produces, the clamp on the change never bites. */
  lemma InsightsChangeUnclamped(points: seq<Point>)
    requires |points| >= 2
    requires forall j :: 0 <= j < |points| ==> 0 <= points[j].productivity <= 100
    ensures GetInsights(points).value.change
            == points[|points| - 1].productivity - points[|points| - 2].productivity
  {
  }
}
