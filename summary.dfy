/**
 * The month-to-date summary: per-habit completed and possible days of the
 * current month, the overall completion rate, the number of days on which
 * something was completed, and the best and worst habit by rate.
 */
module MonthlySummary {

  import opened Wrappers
  import opened Calendar
  import opened Habits
  import opened Counting
  import opened Tally
  import opened Extremes
  import opened Seqs
  import ProductivityGraph

  datatype HabitStat = HabitStat(name: string, completed: nat, possible: nat, rate: int)

  datatype NamedRate = NamedRate(name: string, rate: int)

  /** What the summary card shows; `month` indexes the month names. */
  datatype Summary = Summary(
    month: int,
    completionRate: int,
    daysShowedUp: nat,
    totalDaysInMonth: int,
    best: Option<NamedRate>,
    worst: Option<NamedRate>)

  /** A habit's figures for the days `first` to `last`, under the graph's counting rule. */
  function StatOf(h: Habit, first: Day, last: Day): HabitStat
  {
    var completed := DaysFor(Window, Done, h, first, last);
    var possible := DaysFor(Window, Possible, h, first, last);
    HabitStat(h.name, completed, possible, ClampedPercent(completed, possible))
  }

  function StatsOf(hs: seq<Habit>, first: Day, last: Day): (stats: seq<HabitStat>)
    ensures |stats| == |hs|
  {
    seq(|hs|, i requires 0 <= i < |hs| => StatOf(hs[i], first, last))
  }

  /** One more habit adds its statistics at the end. */
  lemma StatsOfAppend(hs: seq<Habit>, h: Habit, first: Day, last: Day)
    ensures StatsOf(hs + [h], first, last) == StatsOf(hs, first, last) + [StatOf(h, first, last)]
  {
    var l, r := StatsOf(hs + [h], first, last), StatsOf(hs, first, last) + [StatOf(h, first, last)];
    forall k | 0 <= k < |l|
      ensures l[k] == r[k]
    {
      if k < |hs| {
        assert (hs + [h])[k] == hs[k];
      }
    }
  }

  /** The habits' rates, in order. */
  function Rates(stats: seq<HabitStat>): seq<int>
  {
    MapSeq((h: HabitStat) => h.rate, stats)
  }

  /** The days from `first` to `last` on which habit `h` was completed and counted. */
  function ShowedFor(h: Habit, first: Day, last: Day): set<Day>
    decreases last - first + 1
  {
    if last < first then {}
    else ShowedFor(h, first, last - 1) + (if Counts(Window, Done, h, last) then {last} else {})
  }

  /** The days from `first` to `last` on which any habit of `hs` was completed and counted. */
  function ShowedUp(hs: seq<Habit>, first: Day, last: Day): set<Day>
  {
    if hs == [] then {} else ShowedUp(hs[..|hs| - 1], first, last) + ShowedFor(hs[|hs| - 1], first, last)
  }

  lemma {:induction false} ShowedForMeaning(h: Habit, first: Day, last: Day, d: Day)
    ensures d in ShowedFor(h, first, last) <==> first <= d <= last && Counts(Window, Done, h, d)
    decreases last - first + 1
  {
    if first <= last {
      ShowedForMeaning(h, first, last - 1, d);
    }
  }

  /** A day showed up exactly when it lies in the range and some habit was completed on it. */
  lemma {:induction false} ShowedUpMeaning(hs: seq<Habit>, first: Day, last: Day, d: Day)
    ensures d in ShowedUp(hs, first, last)
            <==> first <= d <= last && exists i :: 0 <= i < |hs| && Counts(Window, Done, hs[i], d)
  {
    if hs != [] {
      var init := hs[..|hs| - 1];
      ShowedUpMeaning(init, first, last, d);
      ShowedForMeaning(hs[|hs| - 1], first, last, d);
      if exists i :: 0 <= i < |hs| && Counts(Window, Done, hs[i], d) {
        var i :| 0 <= i < |hs| && Counts(Window, Done, hs[i], d);
        if i < |hs| - 1 {
          assert init[i] == hs[i];
        }
      }
      if exists i :: 0 <= i < |init| && Counts(Window, Done, init[i], d) {
        var i :| 0 <= i < |init| && Counts(Window, Done, init[i], d);
        assert hs[i] == init[i];
      }
    }
  }

  /** The day loop of one habit over the month so far; days before its creation are skipped. */
  method TallyHabit(h: Habit, monthStart: Day, monthEnd: Day, today: Day)
    returns (completed: nat, possible: nat, showed: set<Day>)
    ensures possible == DaysFor(Window, Possible, h, monthStart, Min(monthEnd, today))
    ensures completed == DaysFor(Window, Done, h, monthStart, Min(monthEnd, today))
    ensures showed == ShowedFor(h, monthStart, Min(monthEnd, today))
  {
    completed, possible, showed := 0, 0, {};
    var d := monthStart;
    while d <= monthEnd && d <= today
      invariant monthStart <= d <= Min(monthEnd, today) + 1 || d == monthStart
      invariant possible == DaysFor(Window, Possible, h, monthStart, d - 1)
      invariant completed == DaysFor(Window, Done, h, monthStart, d - 1)
      invariant showed == ShowedFor(h, monthStart, d - 1)
      decreases Min(monthEnd, today) - d
    {
      if d >= h.createdAt {
        if h.frequency == Daily {
          possible := possible + 1;
          if Completed(Entry(h.completions, d), TargetOf(h)) {
            completed := completed + 1;
            showed := showed + {d};
          }
        } else if h.frequency == Weekly {
          if DayOfWeek(d) == 0 {
            possible := possible + 1;
            if Completed(Entry(h.completions, d), TargetOf(h)) {
              completed := completed + 1;
              showed := showed + {d};
            }
          }
        }
      }
      d := d + 1;
    }
  }

  /**
   * The summary of the current month up to today: none without habits;
   * otherwise the overall rate over all habit-days, the days showed up, the
   * days of the month so far, the first habit with the highest rate, and,
   * with two habits or more, the last habit with the lowest rate (the ends
   * of a stable sort by descending rate).
   */
  method MonthSummary(habits: seq<Habit>, today: Day) returns (summary: Option<Summary>)
    ensures summary.None? <==> |habits| == 0
    ensures summary.Some? ==>
      var monthEnd := MakeDay(Year(today), MonthIndex(today) + 1, 0);
      var first, last := MakeDay(Year(today), MonthIndex(today), 1), Min(monthEnd, today);
      var s, stats := summary.value, StatsOf(habits, first, last);
      var rates := Rates(stats);
      && s.month == MonthIndex(today)
      && s.completionRate == ClampedPercent(HabitsFor(Window, Done, habits, first, last),
                                            HabitsFor(Window, Possible, habits, first, last))
      && s.daysShowedUp == |ShowedUp(habits, first, last)|
      && s.totalDaysInMonth == Min(DayOfMonth(today), DayOfMonth(monthEnd))
      && s.best == Some(NamedRate(stats[FirstMax(rates)].name, stats[FirstMax(rates)].rate))
      && s.worst == (if |habits| > 1
                     then Some(NamedRate(stats[LastMin(rates)].name, stats[LastMin(rates)].rate))
                     else None)
  {
    if |habits| == 0 {
      return None;
    }
    var monthStart := MakeDay(Year(today), MonthIndex(today), 1);
    var monthEnd := MakeDay(Year(today), MonthIndex(today) + 1, 0);
    ghost var last := Min(monthEnd, today);
    var totalCompleted, totalPossible := 0, 0;
    var daysWithCompletions: set<Day> := {};
    var habitStats: seq<HabitStat> := [];
    var i := 0;
    while i < |habits|
      invariant 0 <= i <= |habits|
      invariant totalCompleted == HabitsFor(Window, Done, habits[..i], monthStart, last)
      invariant totalPossible == HabitsFor(Window, Possible, habits[..i], monthStart, last)
      invariant daysWithCompletions == ShowedUp(habits[..i], monthStart, last)
      invariant habitStats == StatsOf(habits[..i], monthStart, last)
    {
      assert habits[..i + 1][..i] == habits[..i];
      var h := habits[i];
      assert habits[..i + 1] == habits[..i] + [h];
      StatsOfAppend(habits[..i], h, monthStart, last);
      var habitCompleted, habitPossible, showed := TallyHabit(h, monthStart, monthEnd, today);
      daysWithCompletions := daysWithCompletions + showed;
      totalCompleted := totalCompleted + habitCompleted;
      totalPossible := totalPossible + habitPossible;
      var rate := ClampedPercent(habitCompleted, habitPossible);
      habitStats := habitStats + [HabitStat(h.name, habitCompleted, habitPossible, rate)];
      i := i + 1;
    }
    assert habits[..|habits|] == habits;
    var completionRate := ClampedPercent(totalCompleted, totalPossible);
    var rates := Rates(habitStats);
    var best := habitStats[FirstMax(rates)];
    var worst := habitStats[LastMin(rates)];
    summary := Some(Summary(
      MonthIndex(today),
      completionRate,
      |daysWithCompletions|,
      Min(DayOfMonth(today), DayOfMonth(monthEnd)),
      Some(NamedRate(best.name, best.rate)),
      if |habitStats| > 1 then Some(NamedRate(worst.name, worst.rate)) else None));
  }

  /** Every habit completes at most what was possible, and every rate lies within 0..100. */
  lemma StatBounds(h: Habit, first: Day, last: Day)
    ensures var s := StatOf(h, first, last);
      && s.completed <= s.possible
      && 0 <= s.rate <= 100
      && (s.possible == 0 ==> s.rate == 0)
      && (s.possible > 0 ==> s.rate == RoundPercent(s.completed, s.possible))
  {
    DoneForAtMostPossible(Window, h, first, last);
  }

  /** The overall totals are the sums of the per-habit figures. */
  lemma {:induction false} TotalsAreSums(side: Side, hs: seq<Habit>, first: Day, last: Day)
    ensures var stats := StatsOf(hs, first, last);
      HabitsFor(Window, side, hs, first, last)
      == SumOf(seq(|stats|, i requires 0 <= i < |stats| =>
                 if side == Done then stats[i].completed else stats[i].possible))
  {
    if hs != [] {
      var init := hs[..|hs| - 1];
      TotalsAreSums(side, init, first, last);
      var stats, stats' := StatsOf(hs, first, last), StatsOf(init, first, last);
      var xs := seq(|stats|, i requires 0 <= i < |stats| =>
                    if side == Done then stats[i].completed else stats[i].possible);
      var ys := seq(|stats'|, i requires 0 <= i < |stats'| =>
                    if side == Done then stats'[i].completed else stats'[i].possible);
      assert xs[..|xs| - 1] == ys;
    }
  }

  function SumOf(xs: seq<nat>): nat
  {
    if xs == [] then 0 else SumOf(xs[..|xs| - 1]) + xs[|xs| - 1]
  }

  /** The days showed up never exceed the days of the month so far. */
  lemma DaysShowedUpBound(habits: seq<Habit>, today: Day)
    requires Year(today) >= 100
    ensures var monthEnd := MakeDay(Year(today), MonthIndex(today) + 1, 0);
      var first := MakeDay(Year(today), MonthIndex(today), 1);
      |ShowedUp(habits, first, Min(monthEnd, today))| <= Min(DayOfMonth(today), DayOfMonth(monthEnd)) == DayOfMonth(today)
  {
    var y, mi := Year(today), MonthIndex(today);
    CivilFacts(today);
    MakeDayMonthBounds(y, mi);
    var len := MonthLength(y, mi);
    CivilOf(y, mi, len - 1);
    var first, last := MonthStart(y, mi), Min(MonthStart(y, mi) + len - 1, today);
    assert last == today;
    forall d | d in ShowedUp(habits, first, last)
      ensures first <= d <= last
    {
      ShowedUpMeaning(habits, first, last, d);
    }
    SizeWithinRange(ShowedUp(habits, first, last), first, last);
  }

  /** The summary's overall rate is the productivity of the trend graph's current-month point. */
  lemma SummaryRateIsGraphPoint(habits: seq<Habit>, today: Day)
    requires Year(today) >= 101
    ensures var monthEnd := MakeDay(Year(today), MonthIndex(today) + 1, 0);
      var first, last := MakeDay(Year(today), MonthIndex(today), 1), Min(monthEnd, today);
      ClampedPercent(HabitsFor(Window, Done, habits, first, last), HabitsFor(Window, Possible, habits, first, last))
      == ProductivityGraph.MonthPoint(habits, today, 0).productivity
  {
    var y, mi := Year(today), MonthIndex(today);
    CivilFacts(today);
    ProductivityGraph.MonthWindowIsMonth(y, mi);
    MakeDayMonthBounds(y, mi);
    var first, last := MakeDay(y, mi, 1), Min(MakeDay(y, mi + 1, 0), today);
    HabitsForIsDaysIn(Window, Done, habits, first, last);
    HabitsForIsDaysIn(Window, Possible, habits, first, last);
  }
}
