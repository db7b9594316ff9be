/**
 * The year review of 2026: completions in the year, the monthly breakdown
 * up to today, best and worst months, per-habit year rates, the longest
 * streak, the average showing-up rate and the weighted discipline score
 * with its label and conclusion bands.
 */
module YearReview {

  import opened Wrappers
  import opened Calendar
  import opened Habits
  import opened Counting
  import opened Tally
  import opened Extremes
  import opened Seqs

  /** The year under review. */
  const ReviewYear := 2026

  // ----- Completions in the year -----

  /** The days on which habit `h` holds a truthy entry keyed in the review year. */
  function TruthyInYear(h: Habit): (s: set<Day>)
    ensures s <= TruthyDays(h.completions)
  {
    set d | d in TruthyDays(h.completions) && Year(d) == ReviewYear
  }

  /** Membership in `TruthyInYear` is the test on the stored entry and its key text. */
  lemma TruthyInYearByKey(h: Habit, d: Day)
    ensures d in TruthyInYear(h)
            <==> d in h.completions && Truthy(Some(h.completions[d])) && IsInYear(DateKey(d), ReviewYear)
  {
    EntryInDays(h.completions, 1, d);
    IsInYearIffYear(d, ReviewYear);
  }

  /** All truthy entries in the year, over all habits. */
  function EntriesInYear(hs: seq<Habit>): nat
  {
    if hs == [] then 0 else EntriesInYear(hs[..|hs| - 1]) + |TruthyInYear(hs[|hs| - 1])|
  }

  /** The distinct days with a truthy entry in the year, over all habits. */
  function TrackedDays(hs: seq<Habit>): set<Day>
  {
    if hs == [] then {} else TrackedDays(hs[..|hs| - 1]) + TruthyInYear(hs[|hs| - 1])
  }

  /** How many habits hold a truthy entry on `d`. */
  function HabitsWith(hs: seq<Habit>, d: Day): nat
  {
    if hs == [] then 0 else HabitsWith(hs[..|hs| - 1], d) + (if d in TruthyInYear(hs[|hs| - 1]) then 1 else 0)
  }

  /** `isInYear(key, 2026)` on the key of day `d`: exactly the days of the review year. */
  method KeyInYear(d: Day) returns (b: bool)
    ensures b <==> Year(d) == ReviewYear
  {
    IsInYearIffYear(d, ReviewYear);
    b := IsInYear(DateKey(d), ReviewYear);
  }

  /** The counts `m` with one more for every day of `s`. */
  function AddOnce(m: map<Day, nat>, s: set<Day>): map<Day, nat>
  {
    map d | d in m.Keys + s :: (if d in m then m[d] else 0) + (if d in s then 1 else 0)
  }

  /** The counted days are the old ones and the added ones, so there are at most that many. */
  lemma AddOnceKeys(m: map<Day, nat>, s: set<Day>)
    ensures AddOnce(m, s).Keys == m.Keys + s
    ensures |AddOnce(m, s)| <= |m| + |s|
  {
    assert AddOnce(m, s).Keys == m.Keys + s;
    assert |m.Keys + s| <= |m.Keys| + |s|;
  }

  /** `counts[d] = (counts[d] || 0) + 1`. */
  function Bump(m: map<Day, nat>, d: Day): map<Day, nat>
  {
    m[d := (if d in m then m[d] else 0) + 1]
  }

  /** Adding one more new day is one more bump. */
  lemma AddOnceStep(m: map<Day, nat>, s: set<Day>, x: Day)
    requires x !in s
    ensures AddOnce(m, s + {x}) == Bump(AddOnce(m, s), x)
  {
    var l, r := AddOnce(m, s + {x}), Bump(AddOnce(m, s), x);
    assert l.Keys == r.Keys;
    forall d | d in l
      ensures l[d] == r[d]
    {
    }
  }

  /**
   * Visiting one more entry date of a pass: a wanted date is bumped and
   * counted once more, any other date leaves the counts as they were.
   */
  lemma VisitStep(m: map<Day, nat>, wanted: set<Day>, rest: set<Day>, date: Day, hit: bool)
    requires date in rest
    requires hit <==> date in wanted
    ensures hit ==> AddOnce(m, wanted - (rest - {date})) == Bump(AddOnce(m, wanted - rest), date)
    ensures hit ==> |wanted - (rest - {date})| == |wanted - rest| + 1
    ensures !hit ==> wanted - (rest - {date}) == wanted - rest
  {
    DrawStep(wanted, rest, date, hit);
    if hit {
      AddOnceStep(m, wanted - rest, date);
    }
  }

  /** Adding no days changes nothing. */
  lemma AddOnceNothing(m: map<Day, nat>)
    ensures AddOnce(m, {}) == m
  {
    assert AddOnce(m, {}).Keys == m.Keys;
  }

  /**
   * One habit's pass over its entries: each truthy entry keyed in the year
   * bumps its date's count and the total. `inYear` names the days that pass
   * the test, so the counts come out as `counts` plus one on each of them.
   */
  method AddYearEntries(h: Habit, ghost inYear: set<Day>, counts: map<Day, nat>, total: nat)
    returns (counts': map<Day, nat>, total': nat)
    requires inYear <= h.completions.Keys
    requires forall d :: d in h.completions ==> (d in inYear <==> IsYearHit(h, d))
    ensures counts' == AddOnce(counts, inYear)
    ensures total' == total + |inYear|
  {
    counts', total' := counts, total;
    var rest := h.completions.Keys;
    AddOnceNothing(counts);
    assert inYear - rest == {};
    while rest != {}
      invariant rest <= h.completions.Keys
      invariant counts' == AddOnce(counts, inYear - rest)
      invariant total' == total + |inYear - rest|
      decreases rest
    {
      var date := PickOne(rest);
      var hit := YearHit(h, date);
      VisitStep(counts, inYear, rest, date, hit);
      if hit {
        counts' := Bump(counts', date);
        total' := total' + 1;
      }
      rest := rest - {date};
    }
    assert inYear - rest == inYear;
  }

  /** Whether the stored entry of habit `h` on day `d` is truthy and keyed in the review year. */
  predicate IsYearHit(h: Habit, d: Day)
    requires d in h.completions
  {
    Truthy(Some(h.completions[d])) && Year(d) == ReviewYear
  }

  /** The year's truthy days of a habit are exactly its stored entries that pass the test. */
  lemma YearHitsAreTruthyInYear(h: Habit)
    ensures TruthyInYear(h) <= h.completions.Keys
    ensures forall d :: d in h.completions ==> (d in TruthyInYear(h) <==> IsYearHit(h, d))
  {
  }

  /** The test on one stored entry: a truthy value under a key of the review year. */
  method YearHit(h: Habit, date: Day) returns (hit: bool)
    requires date in h.completions
    ensures hit <==> IsYearHit(h, date)
  {
    var completed := h.completions[date];
    var keyInYear := KeyInYear(date);
    hit := Truthy(Some(completed)) && keyInYear;
  }

  /** The per-date counts after the passes of all habits of `hs`, in order. */
  function YearCounts(hs: seq<Habit>): map<Day, nat>
  {
    if hs == [] then map[] else AddOnce(YearCounts(hs[..|hs| - 1]), TruthyInYear(hs[|hs| - 1]))
  }

  /**
   * What the per-date counts mean: the dates counted are the tracked days,
   * each counted once per habit holding it, and there are never more dates
   * than entries.
   */
  lemma {:induction false} YearCountsMeaning(hs: seq<Habit>)
    ensures YearCounts(hs).Keys == TrackedDays(hs)
    ensures forall d :: d in YearCounts(hs) ==> YearCounts(hs)[d] == HabitsWith(hs, d)
    ensures |YearCounts(hs)| <= EntriesInYear(hs)
  {
    if hs != [] {
      var init, last := hs[..|hs| - 1], hs[|hs| - 1];
      YearCountsMeaning(init);
      AddOnceKeys(YearCounts(init), TruthyInYear(last));
      forall d | d in YearCounts(hs)
        ensures YearCounts(hs)[d] == HabitsWith(hs, d)
      {
        if d !in YearCounts(init) {
          HabitsWithoutDay(init, d);
        }
      }
    }
  }

  /**
   * The per-date counts of truthy entries in the year and their total, one
   * habit's pass after the other.
   */
  method YearCompletions(habits: seq<Habit>) returns (counts: map<Day, nat>, totalCompletions: nat)
    ensures counts == YearCounts(habits)
    ensures counts.Keys == TrackedDays(habits)
    ensures forall d :: d in counts ==> counts[d] == HabitsWith(habits, d)
    ensures totalCompletions == EntriesInYear(habits)
    ensures |counts| <= totalCompletions
  {
    counts, totalCompletions := map[], 0;
    var i := 0;
    while i < |habits|
      invariant 0 <= i <= |habits|
      invariant counts == YearCounts(habits[..i])
      invariant totalCompletions == EntriesInYear(habits[..i])
    {
      assert habits[..i + 1][..i] == habits[..i];
      YearHitsAreTruthyInYear(habits[i]);
      counts, totalCompletions := AddYearEntries(habits[i], TruthyInYear(habits[i]), counts, totalCompletions);
      i := i + 1;
    }
    assert habits[..|habits|] == habits;
    YearCountsMeaning(habits);
  }

  /** A day no habit tracked is counted by none of them. */
  lemma {:induction false} HabitsWithoutDay(hs: seq<Habit>, d: Day)
    requires d !in TrackedDays(hs)
    ensures HabitsWith(hs, d) == 0
  {
    if hs != [] {
      HabitsWithoutDay(hs[..|hs| - 1], d);
    }
  }

  // ----- Monthly breakdown -----

  datatype MonthData = MonthData(month: int, productivity: int, completed: nat, possible: nat)

  /** `Math.round` of the percentage without a clamp, or 0 when nothing was possible. */
  function ShowingUp(completed: nat, possible: nat): (p: int)
    ensures possible == 0 ==> p == 0
    ensures 0 < possible && completed <= possible ==> 0 <= p <= 100
  {
    if possible > 0 then
      (if completed <= possible then RoundPercentAtMost100(completed, possible); RoundPercent(completed, possible)
       else RoundPercent(completed, possible))
    else 0
  }

  /** Month `m` of the review year, counted up to the earlier of its last day and today. */
  function MonthDataOf(habits: seq<Habit>, today: Day, m: int): MonthData
  {
    var first, last := MakeDay(ReviewYear, m, 1), Min(MakeDay(ReviewYear, m + 1, 0), today);
    var completed := DaysIn(YearRule(ReviewYear), Done, habits, first, last);
    var possible := DaysIn(YearRule(ReviewYear), Possible, habits, first, last);
    MonthData(m, ShowingUp(completed, possible), completed, possible)
  }

  /** The habit loop of one day: daily habits from their creation day on, on days keyed in the year. */
  method TallyYearDay(habits: seq<Habit>, d: Day) returns (completed: nat, possible: nat)
    ensures possible == HabitsOn(YearRule(ReviewYear), Possible, habits, d)
    ensures completed == HabitsOn(YearRule(ReviewYear), Done, habits, d)
  {
    completed, possible := 0, 0;
    var inYear := KeyInYear(d);
    var i := 0;
    while i < |habits|
      invariant 0 <= i <= |habits|
      invariant possible == HabitsOn(YearRule(ReviewYear), Possible, habits[..i], d)
      invariant completed == HabitsOn(YearRule(ReviewYear), Done, habits[..i], d)
    {
      assert habits[..i + 1][..i] == habits[..i];
      var h := habits[i];
      if d >= h.createdAt && inYear {
        if h.frequency == Daily {
          possible := possible + 1;
          if Truthy(Entry(h.completions, d)) {
            completed := completed + 1;
          }
        }
      }
      i := i + 1;
    }
    assert habits[..|habits|] == habits;
  }

  /** The day loop of one month: every day from its 1st while neither past its end nor past today. */
  method TallyYearMonth(habits: seq<Habit>, monthStart: Day, monthEnd: Day, today: Day)
    returns (completed: nat, possible: nat)
    ensures possible == DaysIn(YearRule(ReviewYear), Possible, habits, monthStart, Min(monthEnd, today))
    ensures completed == DaysIn(YearRule(ReviewYear), Done, habits, monthStart, Min(monthEnd, today))
  {
    completed, possible := 0, 0;
    var d := monthStart;
    while d <= monthEnd && d <= today
      invariant monthStart <= d <= Min(monthEnd, today) + 1 || d == monthStart
      invariant possible == DaysIn(YearRule(ReviewYear), Possible, habits, monthStart, d - 1)
      invariant completed == DaysIn(YearRule(ReviewYear), Done, habits, monthStart, d - 1)
      decreases Min(monthEnd, today) - d
    {
      var c, p := TallyYearDay(habits, d);
      completed, possible := completed + c, possible + p;
      d := d + 1;
    }
  }

  /**
   * The monthly breakdown: the months of the review year in order, stopping
   * before the first month that starts after today.
   */
  method MonthlyBreakdown(habits: seq<Habit>, today: Day) returns (months: seq<MonthData>)
    ensures |months| <= 12
    ensures forall k :: 0 <= k < |months| ==> months[k] == MonthDataOf(habits, today, k)
    ensures forall k :: 0 <= k < |months| ==> MakeDay(ReviewYear, k, 1) <= today
    ensures |months| < 12 ==> MakeDay(ReviewYear, |months|, 1) > today
  {
    months := [];
    var m := 0;
    while m < 12
      invariant 0 <= m <= 12 && |months| == m
      invariant forall k :: 0 <= k < m ==> months[k] == MonthDataOf(habits, today, k)
      invariant forall k :: 0 <= k < m ==> MakeDay(ReviewYear, k, 1) <= today
    {
      var monthStart := MakeDay(ReviewYear, m, 1);
      var monthEnd := MakeDay(ReviewYear, m + 1, 0);
      if monthStart > today {
        break;
      }
      var completed, possible := TallyYearMonth(habits, monthStart, monthEnd, today);
      var data := MonthData(m, ShowingUp(completed, possible), completed, possible);
      assert data == MonthDataOf(habits, today, m);
      ghost var before := months;
      months := months + [data];
      forall k | 0 <= k <= m
        ensures months[k] == MonthDataOf(habits, today, k) && MakeDay(ReviewYear, k, 1) <= today
      {
        if k < m {
          assert months[k] == before[k];
        }
      }
      m := m + 1;
    }
  }

  /** Every day of a month window lies in the review year, so the key test in the day loop always passes. */
  lemma MonthDaysInReviewYear(m: int, d: Day)
    requires 0 <= m < 12 && MakeDay(ReviewYear, m, 1) <= d <= MakeDay(ReviewYear, m + 1, 0)
    ensures Year(d) == ReviewYear
  {
    MakeDayMonthBounds(ReviewYear, m);
    YearStartStep(ReviewYear);
    DaysBeforeMonthMonotone(ReviewYear, m + 1, 12);
    YearOfDay(ReviewYear, d);
  }

  /** Each month completes at most what was possible, so its productivity lies within 0..100. */
  lemma MonthDataBounds(habits: seq<Habit>, today: Day, m: int)
    ensures var md := MonthDataOf(habits, today, m);
      && md.completed <= md.possible
      && 0 <= md.productivity <= 100
      && (md.possible == 0 ==> md.productivity == 0)
  {
    var first, last := MakeDay(ReviewYear, m, 1), Min(MakeDay(ReviewYear, m + 1, 0), today);
    DoneInAtMostPossible(YearRule(ReviewYear), habits, first, last);
  }

  /** The months with something possible, in order. */
  function WithData(months: seq<MonthData>): (w: seq<MonthData>)
    ensures |w| <= |months|
    ensures forall k :: 0 <= k < |w| ==> w[k].possible > 0 && w[k] in months
    ensures forall k :: 0 <= k < |months| && months[k].possible > 0 ==> months[k] in w
  {
    if months == [] then []
    else
      var init := WithData(months[..|months| - 1]);
      assert forall k :: 0 <= k < |months| - 1 ==> months[..|months| - 1][k] == months[k];
      if months[|months| - 1].possible > 0 then init + [months[|months| - 1]] else init
  }

  /** The first month with the highest productivity among those with data; none ("N/A", 0) without data. */
  function BestMonth(months: seq<MonthData>): (r: Option<MonthData>)
    ensures r.None? <==> WithData(months) == []
    ensures r.Some? ==> r.value.possible > 0 && r.value in months
    ensures r.Some? ==> forall k :: 0 <= k < |months| && months[k].possible > 0 ==> months[k].productivity <= r.value.productivity
    ensures r.Some? ==> exists i :: 0 <= i < |WithData(months)| && WithData(months)[i] == r.value &&
                                    forall j :: 0 <= j < i ==> WithData(months)[j].productivity < r.value.productivity
  {
    var w := WithData(months);
    if w == [] then None
    else
      var productivity := (md: MonthData) => md.productivity;
      MapSeqAt(productivity, w);
      var i := FirstMax(MapSeq(productivity, w));
      assert forall k :: 0 <= k < |months| && months[k].possible > 0 ==> exists j :: 0 <= j < |w| && w[j] == months[k];
      Some(w[i])
  }

  /** The first month with the lowest productivity among those with data; none ("N/A", 0) without data. */
  function WorstMonth(months: seq<MonthData>): (r: Option<MonthData>)
    ensures r.None? <==> WithData(months) == []
    ensures r.Some? ==> r.value.possible > 0 && r.value in months
    ensures r.Some? ==> forall k :: 0 <= k < |months| && months[k].possible > 0 ==> r.value.productivity <= months[k].productivity
    ensures r.Some? ==> exists i :: 0 <= i < |WithData(months)| && WithData(months)[i] == r.value &&
                                    forall j :: 0 <= j < i ==> r.value.productivity < WithData(months)[j].productivity
  {
    var w := WithData(months);
    if w == [] then None
    else
      var productivity := (md: MonthData) => md.productivity;
      MapSeqAt(productivity, w);
      var i := FirstMin(MapSeq(productivity, w));
      assert forall k :: 0 <= k < |months| && months[k].possible > 0 ==> exists j :: 0 <= j < |w| && w[j] == months[k];
      Some(w[i])
  }

  /** The productivity shown for a best or worst month: 0 for "N/A". */
  function ShownProductivity(r: Option<MonthData>): int
  {
    if r.Some? then r.value.productivity else 0
  }

  /** Month totals: completed and possible habit-days over the breakdown. */
  function TotalCompleted(months: seq<MonthData>): nat
  {
    if months == [] then 0 else TotalCompleted(months[..|months| - 1]) + months[|months| - 1].completed
  }

  function TotalPossible(months: seq<MonthData>): nat
  {
    if months == [] then 0 else TotalPossible(months[..|months| - 1]) + months[|months| - 1].possible
  }

  /** The average showing-up rate: the rounded share of all possible habit-days that were completed. */
  function AvgShowingUp(months: seq<MonthData>): int
  {
    ShowingUp(TotalCompleted(months), TotalPossible(months))
  }

  lemma {:induction false} TotalCompletedAtMostPossible(months: seq<MonthData>)
    requires forall k :: 0 <= k < |months| ==> months[k].completed <= months[k].possible
    ensures TotalCompleted(months) <= TotalPossible(months)
  {
    if months != [] {
      TotalCompletedAtMostPossible(months[..|months| - 1]);
    }
  }

  /** When every month completes at most what was possible, the average lies within 0..100. */
  lemma AvgShowingUpBounds(months: seq<MonthData>)
    requires forall k :: 0 <= k < |months| ==> months[k].completed <= months[k].possible
    ensures 0 <= AvgShowingUp(months) <= 100
  {
    TotalCompletedAtMostPossible(months);
  }

  // ----- Habit analysis -----

  datatype HabitYear = HabitYear(name: string, completions: nat, rate: int, bestStreak: int)

  datatype NamedRate = NamedRate(name: string, rate: int)

  /** A habit counts from January 1 when it was created in an earlier year, else from its creation day. */
  function HabitStart(h: Habit): Day
  {
    if Year(h.createdAt) < ReviewYear then MakeDay(ReviewYear, 0, 1) else h.createdAt
  }

  /** Counting ends on December 31 once today is past it, else today. */
  function HabitEnd(today: Day): Day
  {
    if today > MakeDay(ReviewYear, 11, 31) then MakeDay(ReviewYear, 11, 31) else today
  }

  /** Daily habits can be done on every day of their window; weekly habits have no possible days. */
  function PossibleDaysOf(h: Habit, today: Day): nat
  {
    if h.frequency == Daily && HabitStart(h) <= HabitEnd(today) then HabitEnd(today) - HabitStart(h) + 1 else 0
  }

  function HabitYearOf(h: Habit, today: Day): HabitYear
  {
    var completions, possible := |TruthyInYear(h)|, PossibleDaysOf(h, today);
    HabitYear(h.name, completions, if possible > 0 then RoundPercent(completions, possible) else 0, h.bestStreak)
  }

  /** The habit's window is the overlap of "from creation on" with the year and "up to today". */
  lemma HabitWindowIsOverlap(h: Habit, today: Day)
    ensures HabitStart(h) == Max(h.createdAt, YearStart(ReviewYear))
    ensures HabitEnd(today) == Min(today, YearStart(ReviewYear + 1) - 1)
  {
    YearBefore(h.createdAt, ReviewYear);
    YearBounds(ReviewYear);
  }

  /** The year rate is not capped: entries from before a habit's creation day still count. */
  lemma HabitYearRateCanPass100(today: Day)
    requires Year(today - 1) == ReviewYear && Year(today) == ReviewYear
    ensures var h := Habit("h", "h", YesNo, Daily, map[today - 1 := Bool(true), today := Bool(true)], today, 0, None);
      HabitYearOf(h, today).rate == 200
  {
    var h := Habit("h", "h", YesNo, Daily, map[today - 1 := Bool(true), today := Bool(true)], today, 0, None);
    assert TruthyInYear(h) == {today - 1, today};
    CivilFacts(today);
    YearBounds(ReviewYear);
    assert HabitEnd(today) == today;
    assert PossibleDaysOf(h, today) == 1;
  }

  /** The day loop of one habit's window, counting only for daily habits. */
  method CountPossibleDays(h: Habit, startDate: Day, endDate: Day) returns (possibleDays: nat)
    ensures possibleDays == (if h.frequency == Daily && startDate <= endDate then endDate - startDate + 1 else 0)
  {
    possibleDays := 0;
    var d := startDate;
    while d <= endDate
      invariant startDate <= d <= endDate + 1 || d == startDate
      invariant possibleDays == (if h.frequency == Daily then d - startDate else 0)
      decreases endDate - d
    {
      if h.frequency == Daily {
        possibleDays := possibleDays + 1;
      }
      d := d + 1;
    }
  }

  method HabitYears(habits: seq<Habit>, today: Day) returns (stats: seq<HabitYear>)
    ensures |stats| == |habits|
    ensures forall i :: 0 <= i < |habits| ==> stats[i] == HabitYearOf(habits[i], today)
    ensures stats == HabitYearsOf(habits, today)
  {
    stats := [];
    var i := 0;
    while i < |habits|
      invariant 0 <= i <= |habits| && |stats| == i
      invariant forall j :: 0 <= j < i ==> stats[j] == HabitYearOf(habits[j], today)
    {
      var stat := HabitYearStat(habits[i], today);
      stats := stats + [stat];
      i := i + 1;
    }
    assert stats == HabitYearsOf(habits, today);
  }

  /** One habit's year statistics: its truthy entries in the year against its possible days. */
  method HabitYearStat(h: Habit, today: Day) returns (stat: HabitYear)
    ensures stat == HabitYearOf(h, today)
  {
    var completions := |TruthyInYear(h)|;
    var startDate := if Year(h.createdAt) < ReviewYear then MakeDay(ReviewYear, 0, 1) else h.createdAt;
    var endDate := if today > MakeDay(ReviewYear, 11, 31) then MakeDay(ReviewYear, 11, 31) else today;
    var possibleDays := CountPossibleDays(h, startDate, endDate);
    var rate := if possibleDays > 0 then RoundPercent(completions, possibleDays) else 0;
    stat := HabitYear(h.name, completions, rate, h.bestStreak);
  }

  /** The year statistics of every habit, in order. */
  function HabitYearsOf(habits: seq<Habit>, today: Day): seq<HabitYear>
  {
    seq(|habits|, i requires 0 <= i < |habits| => HabitYearOf(habits[i], today))
  }

  /** The first habit with the highest year rate; none ("N/A", 0) without habits. */
  function MostConsistent(stats: seq<HabitYear>): (r: Option<NamedRate>)
    ensures r.None? <==> stats == []
    ensures r.Some? ==> exists i :: (0 <= i < |stats| && r.value == NamedRate(stats[i].name, stats[i].rate)
        && (forall j :: 0 <= j < |stats| ==> stats[j].rate <= stats[i].rate)
        && (forall j :: 0 <= j < i ==> stats[j].rate < stats[i].rate))
  {
    if stats == [] then None
    else
      var rate := (h: HabitYear) => h.rate;
      MapSeqAt(rate, stats);
      var i := FirstMax(MapSeq(rate, stats));
      Some(NamedRate(stats[i].name, stats[i].rate))
  }

  /** The first habit with the lowest year rate; none ("N/A", 0) without habits. */
  function MostStruggled(stats: seq<HabitYear>): (r: Option<NamedRate>)
    ensures r.None? <==> stats == []
    ensures r.Some? ==> exists i :: (0 <= i < |stats| && r.value == NamedRate(stats[i].name, stats[i].rate)
        && (forall j :: 0 <= j < |stats| ==> stats[i].rate <= stats[j].rate)
        && (forall j :: 0 <= j < i ==> stats[i].rate < stats[j].rate))
  {
    if stats == [] then None
    else
      var rate := (h: HabitYear) => h.rate;
      MapSeqAt(rate, stats);
      var i := FirstMin(MapSeq(rate, stats));
      Some(NamedRate(stats[i].name, stats[i].rate))
  }

  /** The longest streak: a running maximum of the habits' best streaks, started at 0. */
  method LongestStreak(habits: seq<Habit>) returns (longest: int)
    ensures longest == MaxOrZero(BestStreaks(habits))
  {
    longest := 0;
    var streaks := BestStreaks(habits);
    var i := 0;
    while i < |habits|
      invariant 0 <= i <= |habits|
      invariant longest == MaxOrZero(streaks[..i])
    {
      assert streaks[..i + 1][..i] == streaks[..i];
      if habits[i].bestStreak > longest {
        longest := habits[i].bestStreak;
      }
      i := i + 1;
    }
    assert streaks[..|habits|] == streaks;
  }

  // ----- Discipline score -----

  /** Recoveries among the first `n` scores: a score below 50 followed by a higher one. */
  function Recoveries(ps: seq<int>, n: nat): nat
    requires n <= |ps|
  {
    if n < 2 then 0 else Recoveries(ps, n - 1) + (if ps[n - 2] < 50 && ps[n - 1] > ps[n - 2] then 1 else 0)
  }

  /** Slumps among the first `n` scores: a score below 40 with another score after it. */
  function Slumps(ps: seq<int>, n: nat): nat
    requires n <= |ps|
  {
    if n < 2 then 0 else Slumps(ps, n - 1) + (if ps[n - 2] < 40 then 1 else 0)
  }

  lemma {:induction false} RecoveriesBound(ps: seq<int>, n: nat)
    requires n <= |ps|
    ensures Recoveries(ps, n) <= (if n < 2 then 0 else n - 1)
    ensures Slumps(ps, n) <= (if n < 2 then 0 else n - 1)
  {
    if n >= 2 {
      RecoveriesBound(ps, n - 1);
    }
  }

  /** The loop over consecutive pairs of month scores counting recoveries and slumps. */
  method RecoveryCounts(ps: seq<int>) returns (recoveries: nat, slumps: nat)
    ensures recoveries == Recoveries(ps, |ps|) && slumps == Slumps(ps, |ps|)
  {
    recoveries, slumps := 0, 0;
    if |ps| < 2 {
      return;
    }
    var i := 1;
    while i < |ps|
      invariant 1 <= i <= |ps|
      invariant recoveries == Recoveries(ps, i) && slumps == Slumps(ps, i)
    {
      if ps[i - 1] < 50 && ps[i] > ps[i - 1] {
        recoveries := recoveries + 1;
      }
      if ps[i - 1] < 40 {
        slumps := slumps + 1;
      }
      i := i + 1;
    }
  }

  /**
   * The recovery sub-score before weighting: 50 with fewer than two months of
   * data; with slumps, the share of slumps recovered from, capped at 100;
   * without slumps, 80 for an average above 60 and 50 otherwise.
   */
  function RecoveryScore(avg: int, ps: seq<int>): (r: real)
    ensures 0.0 <= r <= 100.0
    ensures |ps| < 2 ==> r == 50.0
    ensures |ps| >= 2 && Slumps(ps, |ps|) > 0 ==>
      r == MinReal(100.0, Recoveries(ps, |ps|) as real / Slumps(ps, |ps|) as real * 100.0)
    ensures |ps| >= 2 && Slumps(ps, |ps|) == 0 ==> r == (if avg > 60 then 80.0 else 50.0)
  {
    if |ps| < 2 then 50.0
    else
      var recoveries, slumps := Recoveries(ps, |ps|), Slumps(ps, |ps|);
      if slumps > 0 then MinReal(100.0, recoveries as real / slumps as real * 100.0)
      else if avg > 60 then 80.0
      else 50.0
  }

  /** The streak sub-score, weighted: the longest streak against the days tracked (at most 30), capped at 100, times 0.3. */
  function StreakScore(longest: int, daysTracked: nat): (r: real)
    ensures longest >= 0 ==> 0.0 <= r <= 30.0
    ensures daysTracked == 0 ==> r == 0.0
  {
    if daysTracked > 0 then MinReal(100.0, longest as real / Min(daysTracked, 30) as real * 100.0) * 0.3 else 0.0
  }

  /** 40% showing up, 30% streak, 30% recovery, rounded. */
  function DisciplineScore(avg: int, longest: int, daysTracked: nat, ps: seq<int>): int
  {
    RoundReal(avg as real * 0.4 + StreakScore(longest, daysTracked) + RecoveryScore(avg, ps) * 0.3)
  }

  /** With an average in 0..100 and a non-negative longest streak, the score lies within 0..100. */
  lemma DisciplineScoreBounds(avg: int, longest: int, daysTracked: nat, ps: seq<int>)
    requires 0 <= avg <= 100 && longest >= 0
    ensures 0 <= DisciplineScore(avg, longest, daysTracked, ps) <= 100
  {
    var x := avg as real * 0.4 + StreakScore(longest, daysTracked) + RecoveryScore(avg, ps) * 0.3;
    assert 0.0 <= x <= 100.0;
  }

  /** A perfect year with a month-long streak scores 94, not 100: without slumps the recovery part is capped at 80. */
  lemma DisciplineScorePerfect(ps: seq<int>)
    requires |ps| >= 2 && forall k :: 0 <= k < |ps| ==> ps[k] == 100
    ensures DisciplineScore(100, 30, 30, ps) == 94
  {
    SlumpsNone(ps, |ps|);
  }

  lemma {:induction false} SlumpsNone(ps: seq<int>, n: nat)
    requires n <= |ps| && forall k :: 0 <= k < |ps| ==> ps[k] >= 40
    ensures Slumps(ps, n) == 0
  {
    if n >= 2 {
      SlumpsNone(ps, n - 1);
    }
  }

  datatype Label = Elite | Solid | MidLabel | Struggling | Reset

  /** The discipline label bands: 80, 60, 40 and 20. */
  function DisciplineLabel(score: int): (l: Label)
    ensures l == Elite <==> score >= 80
    ensures l == Solid <==> 60 <= score < 80
    ensures l == MidLabel <==> 40 <= score < 60
    ensures l == Struggling <==> 20 <= score < 40
    ensures l == Reset <==> score < 20
  {
    if score >= 80 then Elite
    else if score >= 60 then Solid
    else if score >= 40 then MidLabel
    else if score >= 20 then Struggling
    else Reset
  }

  function LabelRank(l: Label): nat
  {
    match l
    case Reset => 0
    case Struggling => 1
    case MidLabel => 2
    case Solid => 3
    case Elite => 4
  }

  /** A higher score never earns a lower label. */
  lemma DisciplineLabelMonotone(a: int, b: int)
    requires a <= b
    ensures LabelRank(DisciplineLabel(a)) <= LabelRank(DisciplineLabel(b))
  {
  }

  datatype Conclusion = Respect | RoomToGrow | KeepBuilding | RoughYear

  /** The conclusion bands of the average showing-up rate: 70, 50 and 30. */
  function ConclusionOf(avg: int): (c: Conclusion)
    ensures c == Respect <==> avg >= 70
    ensures c == RoomToGrow <==> 50 <= avg < 70
    ensures c == KeepBuilding <==> 30 <= avg < 50
    ensures c == RoughYear <==> avg < 30
  {
    if avg >= 70 then Respect
    else if avg >= 50 then RoomToGrow
    else if avg >= 30 then KeepBuilding
    else RoughYear
  }

  // ----- The whole review -----

  datatype YearData = YearData(
    daysTracked: nat,
    totalCompletions: nat,
    avgShowingUp: int,
    longestStreak: int,
    monthly: seq<MonthData>,
    bestMonth: Option<MonthData>,
    worstMonth: Option<MonthData>,
    mostConsistent: Option<NamedRate>,
    mostStruggled: Option<NamedRate>,
    disciplineScore: int,
    hasData: bool)

  /** The weighted discipline score of the review, from the months with data. */
  method ScoreDiscipline(avgShowingUp: int, longestStreak: int, daysTracked: nat, monthly: seq<MonthData>)
    returns (score: int)
    ensures score == DisciplineScore(avgShowingUp, longestStreak, daysTracked, MapSeq((md: MonthData) => md.productivity, WithData(monthly)))
  {
    var scores := MapSeq((md: MonthData) => md.productivity, WithData(monthly));
    var recoveries, slumps := RecoveryCounts(scores);
    var recoveryScore := if |scores| < 2 then 50.0
      else if slumps > 0 then MinReal(100.0, recoveries as real / slumps as real * 100.0)
      else if avgShowingUp > 60 then 80.0
      else 50.0;
    var streakScore := if daysTracked > 0
      then MinReal(100.0, longestStreak as real / Min(daysTracked, 30) as real * 100.0) * 0.3
      else 0.0;
    score := RoundReal(avgShowingUp as real * 0.4 + streakScore + recoveryScore * 0.3);
  }

  /** The year review as shown on the page. */
  method YearDataOf(habits: seq<Habit>, today: Day) returns (data: YearData)
    ensures data.totalCompletions == EntriesInYear(habits)
    ensures data.daysTracked == |TrackedDays(habits)| <= data.totalCompletions
    ensures |data.monthly| <= 12
    ensures forall k :: 0 <= k < |data.monthly| ==> data.monthly[k] == MonthDataOf(habits, today, k)
    ensures |data.monthly| < 12 ==> MakeDay(ReviewYear, |data.monthly|, 1) > today
    ensures data.bestMonth == BestMonth(data.monthly) && data.worstMonth == WorstMonth(data.monthly)
    ensures data.avgShowingUp == AvgShowingUp(data.monthly)
    ensures 0 <= data.avgShowingUp <= 100
    ensures data.longestStreak == MaxOrZero(BestStreaks(habits))
    ensures data.mostConsistent == MostConsistent(HabitYearsOf(habits, today))
    ensures data.mostStruggled == MostStruggled(HabitYearsOf(habits, today))
    ensures data.disciplineScore
            == DisciplineScore(data.avgShowingUp, data.longestStreak, data.daysTracked,
                               MapSeq((md: MonthData) => md.productivity, WithData(data.monthly)))
    ensures 0 <= data.disciplineScore <= 100
    ensures data.hasData <==> |habits| > 0 && data.totalCompletions > 0
  {
    var counts, totalCompletions := YearCompletions(habits);
    var daysTracked := |counts|;
    var monthly := MonthlyBreakdown(habits, today);
    forall k | 0 <= k < |monthly|
      ensures monthly[k].completed <= monthly[k].possible
    {
      MonthDataBounds(habits, today, k);
    }
    var stats := HabitYears(habits, today);
    var longestStreak := LongestStreak(habits);
    AvgShowingUpBounds(monthly);
    var avgShowingUp := AvgShowingUp(monthly);
    var disciplineScore := ScoreDiscipline(avgShowingUp, longestStreak, daysTracked, monthly);
    DisciplineScoreBounds(avgShowingUp, longestStreak, daysTracked, MapSeq((md: MonthData) => md.productivity, WithData(monthly)));
    data := YearData(daysTracked, totalCompletions, avgShowingUp, longestStreak, monthly,
                     BestMonth(monthly), WorstMonth(monthly), MostConsistent(stats), MostStruggled(stats),
                     disciplineScore, |habits| > 0 && totalCompletions > 0);
  }

  /** The conclusion sentence: none without data, otherwise the band of the average showing-up rate. */
  function SummaryConclusion(data: YearData): (c: Option<Conclusion>)
    ensures c.None? <==> !data.hasData
    ensures c.Some? ==> c.value == ConclusionOf(data.avgShowingUp)
  {
    if !data.hasData then None else Some(ConclusionOf(data.avgShowingUp))
  }
}
