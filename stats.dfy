/**
 * The statistics page's headline figures: the number of distinct days with
 * a truthy entry, the number of truthy entries, the longest best streak and
 * the average consistency over all habits.
 */
module StatsPage {

  import opened Wrappers
  import opened Calendar
  import opened Habits
  import opened Counting
  import opened Extremes

  /** The figures of `calculateStats`. */
  datatype Stats = Stats(
    totalDaysTracked: nat,
    totalCompletions: nat,
    averageConsistency: int,
    longestStreak: int)

  /** The days with a truthy entry in some habit of `hs`. */
  function AllTruthyDays(hs: seq<Habit>): set<Day>
  {
    if hs == [] then {} else AllTruthyDays(hs[..|hs| - 1]) + TruthyDays(hs[|hs| - 1].completions)
  }

  /** The truthy entries of all habits of `hs`, each habit's counted apart. */
  function TruthyEntries(hs: seq<Habit>): nat
  {
    if hs == [] then 0 else TruthyEntries(hs[..|hs| - 1]) + |TruthyDays(hs[|hs| - 1].completions)|
  }

  /** There are never more distinct days than entries. */
  lemma {:induction false} DaysTrackedAtMostEntries(hs: seq<Habit>)
    ensures |AllTruthyDays(hs)| <= TruthyEntries(hs)
  {
    if hs != [] {
      var init, last := hs[..|hs| - 1], TruthyDays(hs[|hs| - 1].completions);
      DaysTrackedAtMostEntries(init);
      assert |AllTruthyDays(init) + last| <= |AllTruthyDays(init)| + |last|;
    }
  }

  /**
   * A habit's consistency on this page: its truthy entries per day since
   * creation (the creation day included), as a percentage, and 0 for a habit
   * created after today.
   */
  function HabitConsistency(h: Habit, today: Day): (c: real)
    ensures c >= 0.0
  {
    var days := today - h.createdAt + 1;
    if days > 0 then |TruthyDays(h.completions)| as real / days as real * 100.0 else 0.0
  }

  /** The consistencies of the habits of `hs`, summed. */
  function ConsistencySum(hs: seq<Habit>, today: Day): (s: real)
    ensures s >= 0.0
  {
    if hs == [] then 0.0 else ConsistencySum(hs[..|hs| - 1], today) + HabitConsistency(hs[|hs| - 1], today)
  }

  /**
   * When every truthy entry of a habit lies between its creation day and
   * today, its consistency is at most 100.
   */
  lemma HabitConsistencyAtMost100(h: Habit, today: Day)
    requires forall d :: d in TruthyDays(h.completions) ==> h.createdAt <= d <= today
    ensures HabitConsistency(h, today) <= 100.0
  {
    var days := today - h.createdAt + 1;
    SizeWithinRange(TruthyDays(h.completions), h.createdAt, today);
    if days > 0 {
      var n := |TruthyDays(h.completions)|;
      assert n as real <= days as real;
      assert n as real / days as real <= 1.0;
    }
  }

  /** Entries outside that span are counted all the same: two entries on a habit created today make 200. */
  lemma HabitConsistencyCanPass100(h: Habit, today: Day)
    requires h.createdAt == today
    requires h.completions == map[today := Bool(true), today - 1 := Bool(true)]
    ensures HabitConsistency(h, today) == 200.0
  {
    assert TruthyDays(h.completions) == {today, today - 1};
  }

  /** Bounded consistencies have a bounded sum. */
  lemma {:induction false} ConsistencySumAtMost(hs: seq<Habit>, today: Day)
    requires forall i :: 0 <= i < |hs| ==> HabitConsistency(hs[i], today) <= 100.0
    ensures ConsistencySum(hs, today) <= 100.0 * |hs| as real
  {
    if hs != [] {
      ConsistencySumAtMost(hs[..|hs| - 1], today);
    }
  }

  /** The average consistency lies within 0..100 when every habit's does. */
  lemma AverageConsistencyBounds(hs: seq<Habit>, today: Day)
    requires |hs| > 0
    requires forall i :: 0 <= i < |hs| ==> HabitConsistency(hs[i], today) <= 100.0
    ensures 0 <= RoundReal(ConsistencySum(hs, today) / |hs| as real) <= 100
  {
    ConsistencySumAtMost(hs, today);
    var n := |hs| as real;
    assert ConsistencySum(hs, today) / n <= 100.0;
  }

  /**
   * One habit's pass over its entries: each truthy entry adds its date to
   * the set of dates and bumps the total. `truthy` names the truthy days.
   */
  method AddTruthyEntries(h: Habit, ghost truthy: set<Day>, dates: set<Day>, total: nat)
    returns (dates': set<Day>, total': nat)
    requires truthy <= h.completions.Keys
    requires forall d :: d in h.completions ==> (d in truthy <==> Truthy(Some(h.completions[d])))
    ensures dates' == dates + truthy
    ensures total' == total + |truthy|
  {
    dates', total' := dates, total;
    var rest := h.completions.Keys;
    assert truthy - rest == {};
    while rest != {}
      invariant rest <= h.completions.Keys
      invariant dates' == dates + (truthy - rest)
      invariant total' == total + |truthy - rest|
      decreases rest
    {
      var date := PickOne(rest);
      var completed := Truthy(Some(h.completions[date]));
      DrawStep(truthy, rest, date, completed);
      if completed {
        dates' := dates' + {date};
        total' := total' + 1;
      }
      rest := rest - {date};
    }
    assert truthy - rest == truthy;
  }

  /**
   * The first pass over the habits: the truthy dates and entries of every
   * habit, and the running maximum of the best streaks started at 0.
   */
  method CollectEntries(habits: seq<Habit>) returns (allDates: set<Day>, totalCompletions: nat, longestStreak: int)
    ensures allDates == AllTruthyDays(habits)
    ensures totalCompletions == TruthyEntries(habits)
    ensures longestStreak == MaxOrZero(BestStreaks(habits))
  {
    allDates, totalCompletions, longestStreak := {}, 0, 0;
    var streaks := BestStreaks(habits);
    var i := 0;
    while i < |habits|
      invariant 0 <= i <= |habits|
      invariant allDates == AllTruthyDays(habits[..i])
      invariant totalCompletions == TruthyEntries(habits[..i])
      invariant longestStreak == MaxOrZero(streaks[..i])
    {
      assert habits[..i + 1][..i] == habits[..i];
      assert streaks[..i + 1][..i] == streaks[..i];
      allDates, totalCompletions := AddTruthyEntries(habits[i], TruthyDays(habits[i].completions), allDates, totalCompletions);
      if habits[i].bestStreak > longestStreak {
        longestStreak := habits[i].bestStreak;
      }
      i := i + 1;
    }
    assert habits[..i] == habits && streaks[..i] == streaks;
  }

  /** The second pass: the consistencies of all habits, summed. */
  method TotalConsistency(habits: seq<Habit>, today: Day) returns (total: real)
    ensures total == ConsistencySum(habits, today)
  {
    total := 0.0;
    var i := 0;
    while i < |habits|
      invariant 0 <= i <= |habits|
      invariant total == ConsistencySum(habits[..i], today)
    {
      assert habits[..i + 1][..i] == habits[..i];
      var h := habits[i];
      var daysSinceCreation := today - h.createdAt + 1;
      var completedDays := |TruthyDays(h.completions)|;
      var consistency := if daysSinceCreation > 0 then completedDays as real / daysSinceCreation as real * 100.0 else 0.0;
      total := total + consistency;
      i := i + 1;
    }
    assert habits[..i] == habits;
  }

  /** `calculateStats`: all zero without habits, otherwise the figures over all habits. */
  method CalculateStats(habits: seq<Habit>, today: Day) returns (stats: Stats)
    ensures habits == [] ==> stats == Stats(0, 0, 0, 0)
    ensures habits != [] ==>
      && stats.totalDaysTracked == |AllTruthyDays(habits)|
      && stats.totalCompletions == TruthyEntries(habits)
      && stats.longestStreak == MaxOrZero(BestStreaks(habits))
      && stats.averageConsistency == RoundReal(ConsistencySum(habits, today) / |habits| as real)
    ensures stats.totalDaysTracked <= stats.totalCompletions
    ensures stats.longestStreak >= 0 && stats.averageConsistency >= 0
  {
    if habits == [] {
      return Stats(0, 0, 0, 0);
    }
    var allDates, totalCompletions, longestStreak := CollectEntries(habits);
    var totalConsistency := TotalConsistency(habits, today);
    DaysTrackedAtMostEntries(habits);
    stats := Stats(|allDates|, totalCompletions, RoundReal(totalConsistency / |habits| as real), longestStreak);
  }
}
