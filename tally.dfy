/**
 * Day-by-day counting of possible and completed habit-days, as the trend
 * graph, the monthly summary and the year review do it.
 */
module Tally {

  import opened Calendar
  import opened Habits

  /** Which page's rule decides whether a habit counts on a day. */
  datatype Rule =
    /** Trend graph and monthly summary: from creation on, daily habits every day and weekly habits on Sundays; the value must be completed against the target. */
    | Window
    /** Year review: from creation on and inside the reviewed year, daily habits only; the value must be truthy. */
    | YearRule(year: int)

  /** Whether a day is counted as possible, or as possible and completed. */
  datatype Side = Possible | Done

  /** Whether habit `h` is expected on day `d` under `rule`. */
  predicate Eligible(rule: Rule, h: Habit, d: Day)
  {
    d >= h.createdAt &&
    match rule
    case Window => h.frequency == Daily || (h.frequency == Weekly && DayOfWeek(d) == 0)
    case YearRule(y) => Year(d) == y && h.frequency == Daily
  }

  /** Whether habit `h` counts on day `d` for `side`. */
  predicate Counts(rule: Rule, side: Side, h: Habit, d: Day)
  {
    Eligible(rule, h, d) &&
    match side
    case Possible => true
    case Done =>
      match rule
      case Window => Completed(Entry(h.completions, d), TargetOf(h))
      case YearRule(_) => Truthy(Entry(h.completions, d))
  }

  /** How many habits of `hs` count on day `d`. */
  function HabitsOn(rule: Rule, side: Side, hs: seq<Habit>, d: Day): (n: nat)
    ensures n <= |hs|
  {
    if hs == [] then 0
    else HabitsOn(rule, side, hs[..|hs| - 1], d) + (if Counts(rule, side, hs[|hs| - 1], d) then 1 else 0)
  }

  /** How many habit-days count over the days `first` to `last`. */
  function DaysIn(rule: Rule, side: Side, hs: seq<Habit>, first: Day, last: Day): nat
    decreases last - first + 1
  {
    if last < first then 0 else DaysIn(rule, side, hs, first, last - 1) + HabitsOn(rule, side, hs, last)
  }

  /** How many days from `first` to `last` count for the single habit `h`. */
  function DaysFor(rule: Rule, side: Side, h: Habit, first: Day, last: Day): (n: nat)
    ensures n <= (if last < first then 0 else last - first + 1)
    decreases last - first + 1
  {
    if last < first then 0 else DaysFor(rule, side, h, first, last - 1) + (if Counts(rule, side, h, last) then 1 else 0)
  }

  /** The per-habit counts of `DaysFor`, summed over the habits. */
  function HabitsFor(rule: Rule, side: Side, hs: seq<Habit>, first: Day, last: Day): nat
  {
    if hs == [] then 0
    else HabitsFor(rule, side, hs[..|hs| - 1], first, last) + DaysFor(rule, side, hs[|hs| - 1], first, last)
  }

  /** On any day, no more habits are done than possible. */
  lemma {:induction false} DoneOnAtMostPossible(rule: Rule, hs: seq<Habit>, d: Day)
    ensures HabitsOn(rule, Done, hs, d) <= HabitsOn(rule, Possible, hs, d)
  {
    if hs != [] {
      DoneOnAtMostPossible(rule, hs[..|hs| - 1], d);
    }
  }

  /** Over any days, no more habit-days are done than possible. */
  lemma {:induction false} DoneInAtMostPossible(rule: Rule, hs: seq<Habit>, first: Day, last: Day)
    ensures DaysIn(rule, Done, hs, first, last) <= DaysIn(rule, Possible, hs, first, last)
    decreases last - first + 1
  {
    if first <= last {
      DoneInAtMostPossible(rule, hs, first, last - 1);
      DoneOnAtMostPossible(rule, hs, last);
    }
  }

  /** For one habit, no more days are done than possible. */
  lemma {:induction false} DoneForAtMostPossible(rule: Rule, h: Habit, first: Day, last: Day)
    ensures DaysFor(rule, Done, h, first, last) <= DaysFor(rule, Possible, h, first, last)
    decreases last - first + 1
  {
    if first <= last {
      DoneForAtMostPossible(rule, h, first, last - 1);
    }
  }

  /** Summed per habit, no more habit-days are done than possible. */
  lemma {:induction false} DoneForAllAtMostPossible(rule: Rule, hs: seq<Habit>, first: Day, last: Day)
    ensures HabitsFor(rule, Done, hs, first, last) <= HabitsFor(rule, Possible, hs, first, last)
  {
    if hs != [] {
      DoneForAllAtMostPossible(rule, hs[..|hs| - 1], first, last);
      DoneForAtMostPossible(rule, hs[|hs| - 1], first, last);
    }
  }

  /** Counting habit by habit or day by day gives the same total. */
  lemma {:induction false} HabitsForIsDaysIn(rule: Rule, side: Side, hs: seq<Habit>, first: Day, last: Day)
    ensures HabitsFor(rule, side, hs, first, last) == DaysIn(rule, side, hs, first, last)
    decreases last - first + 1
  {
    if first <= last {
      HabitsForIsDaysIn(rule, side, hs, first, last - 1);
      HabitsForLastDay(rule, side, hs, first, last);
    } else {
      HabitsForNoDays(rule, side, hs, first, last);
    }
  }

  lemma {:induction false} HabitsForNoDays(rule: Rule, side: Side, hs: seq<Habit>, first: Day, last: Day)
    requires last < first
    ensures HabitsFor(rule, side, hs, first, last) == 0
  {
    if hs != [] {
      HabitsForNoDays(rule, side, hs[..|hs| - 1], first, last);
    }
  }

  /** Peeling the last day off every habit's count peels that day's habit count off the sum. */
  lemma {:induction false} HabitsForLastDay(rule: Rule, side: Side, hs: seq<Habit>, first: Day, last: Day)
    requires first <= last
    ensures HabitsFor(rule, side, hs, first, last) == HabitsFor(rule, side, hs, first, last - 1) + HabitsOn(rule, side, hs, last)
  {
    if hs != [] {
      HabitsForLastDay(rule, side, hs[..|hs| - 1], first, last);
    }
  }
}
