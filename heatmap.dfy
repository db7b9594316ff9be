/**
 * The 90-day calendar heatmap: the days shown, how many habits hold a
 * truthy entry on each, the colour band of each count against the busiest
 * day, the tooltip band, and the grouping of the days into week columns of
 * seven slots from Sunday to Saturday.
 */
module Heatmap {

  import opened Wrappers
  import opened Calendar
  import opened Habits
  import opened Counting
  import opened Extremes

  /** The number of days the heatmap shows. */
  const Shown := 90

  /** `getLast90Days`: the keys of the 90 days ending today, oldest first. */
  method Last90Days(today: Day) returns (keys: seq<string>)
    ensures keys == KeysOf(DayRange(today - (Shown - 1), Shown))
    ensures |keys| == Shown && keys[Shown - 1] == DateKey(today)
  {
    keys := GetLastNDays(Shown, today);
    LastNDaysEndsToday(Shown, today);
  }

  /** Each shown day is the day after the one before it. */
  predicate Consecutive(days: seq<Day>)
  {
    forall k :: 0 < k < |days| ==> days[k] == days[k - 1] + 1
  }

  /** A run of days built from a first day is consecutive. */
  lemma DayRangeConsecutive(first: Day, count: nat)
    ensures Consecutive(DayRange(first, count))
  {
    var days := DayRange(first, count);
    forall k | 0 < k < |days|
      ensures days[k] == days[k - 1] + 1
    {
      assert days[k] == first + k && days[k - 1] == first + (k - 1);
    }
  }

  // ----- Completions per day -----

  /** How many habits of `hs` hold a truthy entry on day `d`. */
  function TruthyOn(hs: seq<Habit>, d: Day): (n: nat)
    ensures n <= |hs|
  {
    if hs == [] then 0 else TruthyOn(hs[..|hs| - 1], d) + (if Truthy(Entry(hs[|hs| - 1].completions, d)) then 1 else 0)
  }

  /** The per-day counts of a list of days, in order. */
  function DayCounts(hs: seq<Habit>, days: seq<Day>): (counts: seq<int>)
    ensures |counts| == |days|
    ensures forall k :: 0 <= k < |days| ==> counts[k] == TruthyOn(hs, days[k])
  {
    if days == [] then [] else DayCounts(hs, days[..|days| - 1]) + [TruthyOn(hs, days[|days| - 1])]
  }

  /** One day's count: the habits whose entry for that day is truthy. */
  method CountDay(habits: seq<Habit>, day: Day) returns (count: nat)
    ensures count == TruthyOn(habits, day)
  {
    count := 0;
    var i := 0;
    while i < |habits|
      invariant 0 <= i <= |habits|
      invariant count == TruthyOn(habits[..i], day)
    {
      assert habits[..i + 1][..i] == habits[..i];
      if Truthy(Entry(habits[i].completions, day)) {
        count := count + 1;
      }
      i := i + 1;
    }
    assert habits[..i] == habits;
  }

  /**
   * `completionsPerDay` and `maxCompletions`: every shown day mapped to its
   * count, and the running maximum of the counts started at 0.
   */
  method CountPerDay(habits: seq<Habit>, days: seq<Day>) returns (perDay: map<Day, nat>, maxCompletions: nat)
    ensures forall d :: d in perDay <==> d in days
    ensures forall d :: d in perDay ==> perDay[d] == TruthyOn(habits, d)
    ensures maxCompletions == MaxOrZero(DayCounts(habits, days))
    ensures maxCompletions <= |habits|
  {
    perDay, maxCompletions := map[], 0;
    ghost var counts := DayCounts(habits, days);
    var i := 0;
    while i < |days|
      invariant 0 <= i <= |days|
      invariant forall d :: d in perDay <==> d in days[..i]
      invariant forall d :: d in perDay ==> perDay[d] == TruthyOn(habits, d)
      invariant maxCompletions == MaxOrZero(counts[..i])
      invariant maxCompletions <= |habits|
    {
      MaxOrZeroPush(counts, i);
      var count := CountDay(habits, days[i]);
      perDay := PerDayStep(habits, days, i, perDay, count);
      if count > maxCompletions {
        maxCompletions := count;
      }
      i := i + 1;
    }
    assert days[..i] == days && counts[..i] == counts;
  }

  /** `completionsPerDay[day] = count`: the map now covers day `i` too. */
  method PerDayStep(habits: seq<Habit>, days: seq<Day>, i: nat, perDay: map<Day, nat>, count: nat)
    returns (perDay': map<Day, nat>)
    requires i < |days|
    requires forall d :: d in perDay <==> d in days[..i]
    requires forall d :: d in perDay ==> perDay[d] == TruthyOn(habits, d)
    requires count == TruthyOn(habits, days[i])
    ensures forall d :: d in perDay' <==> d in days[..i + 1]
    ensures forall d :: d in perDay' ==> perDay'[d] == TruthyOn(habits, d)
  {
    perDay' := perDay[days[i] := count];
    assert days[..i + 1] == days[..i] + [days[i]];
  }

  // ----- Colour and tooltip bands -----

  /** The heatmap colours, from an empty day to the busiest band. */
  datatype Intensity = Empty | Faint | Low | Medium | Full

  function IntensityRank(c: Intensity): nat
  {
    match c
    case Empty => 0
    case Faint => 1
    case Low => 2
    case Medium => 3
    case Full => 4
  }

  /** `getIntensityClass`: none for 0, otherwise the quarter of `count / max(maxCount, 1)` it falls in. */
  function IntensityOf(count: nat, maxCount: nat): Intensity
  {
    if count == 0 then Empty
    else
      var ratio := count as real / Max(maxCount, 1) as real;
      if ratio <= 0.25 then Faint
      else if ratio <= 0.5 then Low
      else if ratio <= 0.75 then Medium
      else Full
  }

  /** The same bands in whole numbers: a count is compared with quarters of the busiest day's count. */
  lemma IntensityByQuarters(count: nat, maxCount: nat)
    ensures var m := Max(maxCount, 1);
      IntensityOf(count, maxCount)
      == if count == 0 then Empty
         else if 4 * count <= m then Faint
         else if 2 * count <= m then Low
         else if 4 * count <= 3 * m then Medium
         else Full
  {
    var m := Max(maxCount, 1);
    var c, r := count as real, m as real;
    RatioAtMost(c, r, 0.25);
    RatioAtMost(c, r, 0.5);
    RatioAtMost(c, r, 0.75);
    assert 4 * count <= m <==> 4.0 * c <= r;
    assert 2 * count <= m <==> 2.0 * c <= r;
    assert 4 * count <= 3 * m <==> 4.0 * c <= 3.0 * r;
  }

  lemma RatioAtMost(c: real, r: real, q: real)
    requires r > 0.0
    ensures c / r <= q <==> c <= q * r
  {
    var ratio := c / r;
    assert ratio * r == c;
    RealScale(ratio, q, r);
  }

  lemma RealScale(x: real, y: real, m: real)
    requires m > 0.0
    ensures x <= y <==> x * m <= y * m
  {
    if x <= y {
      assert (y - x) * m >= 0.0;
    } else {
      assert (x - y) * m > 0.0;
    }
  }

  /** A busier day never gets a lighter colour. */
  lemma IntensityMonotone(c1: nat, c2: nat, maxCount: nat)
    requires c1 <= c2
    ensures IntensityRank(IntensityOf(c1, maxCount)) <= IntensityRank(IntensityOf(c2, maxCount))
  {
    IntensityByQuarters(c1, maxCount);
    IntensityByQuarters(c2, maxCount);
  }

  /** The busiest day, when anything was done, gets the strongest colour. */
  lemma BusiestDayIsFull(maxCount: nat)
    requires maxCount > 0
    ensures IntensityOf(maxCount, maxCount) == Full
  {
    IntensityByQuarters(maxCount, maxCount);
  }

  /** The tooltip sentence, by how many habits were done that day. */
  datatype Tooltip = NothingDone | AStart | Respectable(count: nat) | LockedIn(count: nat)

  function TooltipRank(t: Tooltip): nat
  {
    match t
    case NothingDone => 0
    case AStart => 1
    case Respectable(_) => 2
    case LockedIn(_) => 3
  }

  /** `getTooltipText`: nothing for 0, a start for 1, respectable up to 3, locked in above. */
  function TooltipOf(count: nat): (t: Tooltip)
    ensures t.Respectable? || t.LockedIn? ==> t.count == count
  {
    if count == 0 then NothingDone
    else if count == 1 then AStart
    else if count <= 3 then Respectable(count)
    else LockedIn(count)
  }

  /** More habits done never lowers the tooltip band. */
  lemma TooltipMonotone(c1: nat, c2: nat)
    requires c1 <= c2
    ensures TooltipRank(TooltipOf(c1)) <= TooltipRank(TooltipOf(c2))
  {
  }

  /** The colour and the tooltip agree on which days are empty. */
  lemma EmptyDayAgrees(count: nat, maxCount: nat)
    ensures IntensityOf(count, maxCount) == Empty <==> TooltipOf(count) == NothingDone
  {
  }

  // ----- Week columns -----

  /** A slot of a week column: padding, or a shown day. */
  datatype Slot = Blank | Cell(day: Day)

  /** `n` padding slots. */
  function Blanks(n: nat): (s: seq<Slot>)
    ensures |s| == n
    ensures forall k :: 0 <= k < n ==> s[k] == Blank
  {
    seq(n, _ => Blank)
  }

  /** The days of a run of slots, in order, padding dropped. */
  function Cells(slots: seq<Slot>): seq<Day>
  {
    if slots == [] then []
    else Cells(slots[..|slots| - 1]) + (if slots[|slots| - 1].Cell? then [slots[|slots| - 1].day] else [])
  }

  /** The columns laid end to end. */
  function Flatten(weeks: seq<seq<Slot>>): seq<Slot>
  {
    if weeks == [] then [] else Flatten(weeks[..|weeks| - 1]) + weeks[|weeks| - 1]
  }

  lemma {:induction false} CellsAppend(a: seq<Slot>, b: seq<Slot>)
    ensures Cells(a + b) == Cells(a) + Cells(b)
  {
    if b != [] {
      assert (a + b)[..|a + b| - 1] == a + b[..|b| - 1];
      CellsAppend(a, b[..|b| - 1]);
    } else {
      assert a + b == a;
    }
  }

  lemma {:induction false} CellsBlanks(n: nat)
    ensures Cells(Blanks(n)) == []
  {
    if n > 0 {
      assert Blanks(n)[..n - 1] == Blanks(n - 1);
      CellsBlanks(n - 1);
    }
  }

  /** The first column: `k` padding slots, then the first day. */
  predicate OpensWith(col: seq<Slot>, k: nat, d: Day)
  {
    |col| > k && (forall j :: 0 <= j < k ==> col[j] == Blank) && col[k] == Cell(d)
  }

  /** A column whose first slot is a Sunday. */
  predicate StartsSunday(col: seq<Slot>)
  {
    |col| > 0 && col[0].Cell? && DayOfWeek(col[0].day) == 0
  }

  /** A full column whose last slot is a Saturday. */
  predicate EndsSaturday(col: seq<Slot>)
  {
    |col| == 7 && col[6].Cell? && DayOfWeek(col[6].day) == 6
  }

  /** `while (currentWeek.length < n) currentWeek.push("")`. */
  method PadTo(col: seq<Slot>, n: nat) returns (col': seq<Slot>)
    ensures col' == col + Blanks(if |col| < n then n - |col| else 0)
  {
    col' := col;
    while |col'| < n
      invariant col' == col + Blanks(|col'| - |col|)
      invariant |col| <= |col'| <= (if |col| < n then n else |col|)
      decreases n - |col'|
    {
      assert Blanks(|col'| - |col| + 1) == Blanks(|col'| - |col|) + [Blank];
      col' := col' + [Blank];
    }
  }

  /**
   * The week grouping: the first column is padded up to the first day's
   * weekday, a column closes after a Saturday or after the last day and is
   * padded to seven slots. Dropping the padding gives back the days; for
   * consecutive days every column holds exactly seven slots, every column
   * after the first starts on a Sunday, and every column before the last
   * ends on a Saturday.
   */
  method GroupWeeks(days: seq<Day>) returns (weeks: seq<seq<Slot>>)
    ensures Cells(Flatten(weeks)) == days
    ensures weeks == [] <==> days == []
    ensures forall w :: 0 <= w < |weeks| ==> |weeks[w]| >= 7
    ensures days != [] ==> OpensWith(weeks[0], DayOfWeek(days[0]), days[0])
    ensures Consecutive(days) ==> forall w :: 0 <= w < |weeks| ==> |weeks[w]| == 7
    ensures Consecutive(days) ==> forall w :: 0 < w < |weeks| ==> StartsSunday(weeks[w])
    ensures Consecutive(days) ==> forall w :: 0 <= w < |weeks| - 1 ==> EndsSaturday(weeks[w])
  {
    weeks := [];
    var current: seq<Slot> := [];
    var i := 0;
    while i < |days|
      invariant 0 <= i <= |days|
      invariant LoopState(days, i, weeks, current)
    {
      weeks, current := PlaceDay(days, i, weeks, current);
      i := i + 1;
    }
    assert days[..i] == days;
    if days != [] {
      assert days[..1] == [days[0]];
    }
  }

  /**
   * One turn of the grouping loop: day `i` joins the open column (after the
   * first column's padding), and the column closes, padded to seven slots,
   * after a Saturday or the last day.
   */
  method PlaceDay(days: seq<Day>, i: nat, weeks: seq<seq<Slot>>, current: seq<Slot>)
    returns (weeks': seq<seq<Slot>>, current': seq<Slot>)
    requires i < |days|
    requires LoopState(days, i, weeks, current)
    ensures LoopState(days, i + 1, weeks', current')
  {
    var day := days[i];
    var dayOfWeek := DayOfWeek(day);
    var column := current;
    if i == 0 {
      column := PadTo(column, dayOfWeek);
    }
    column := column + [Cell(day)];
    OpenStep(days, i, weeks, current, column);
    OpenConsecutive(days, i, weeks, current, column);
    if dayOfWeek == 6 || i == |days| - 1 {
      var full := PadTo(column, 7);
      CloseStep(days, i, weeks, column, full);
      CloseConsecutive(days, i, weeks, column, full);
      weeks', current' := weeks + [full], [];
    } else {
      KeepStep(days, i, weeks, column);
      KeepConsecutive(days, i, weeks, column);
      weeks', current' := weeks, column;
    }
  }

  /** What the loop of `GroupWeeks` keeps after `i` days. */
  predicate LoopState(days: seq<Day>, i: nat, weeks: seq<seq<Slot>>, current: seq<Slot>)
    requires i <= |days|
  {
    && Grouped(days, i, weeks, current)
    && (i == |days| ==> current == [])
    && (Consecutive(days) ==> GroupedConsecutive(days, i, weeks, current))
  }

  /** What the loop of `GroupWeeks` keeps for any days, after `i` of them. */
  predicate Grouped(days: seq<Day>, i: nat, weeks: seq<seq<Slot>>, current: seq<Slot>)
    requires i <= |days|
  {
    && Cells(Flatten(weeks)) + Cells(current) == days[..i]
    && (forall w :: 0 <= w < |weeks| ==> |weeks[w]| >= 7)
    && (i == 0 ==> weeks == [] && current == [])
    && (i > 0 ==> weeks != [] || current != [])
    && (i > 0 ==> OpensWith(if weeks == [] then current else weeks[0], DayOfWeek(days[0]), days[0]))
  }

  /** What the loop of `GroupWeeks` keeps for consecutive days. */
  predicate GroupedConsecutive(days: seq<Day>, i: nat, weeks: seq<seq<Slot>>, current: seq<Slot>)
    requires i <= |days|
  {
    ClosedColumns(days, i, weeks) && OpenColumn(days, i, weeks, current)
  }

  /** The closed columns of consecutive days: seven slots, Sunday first after the first, Saturday last before the open end. */
  predicate ClosedColumns(days: seq<Day>, i: nat, weeks: seq<seq<Slot>>)
    requires i <= |days|
  {
    && (forall w :: 0 <= w < |weeks| ==> |weeks[w]| == 7)
    && (forall w :: 0 < w < |weeks| ==> StartsSunday(weeks[w]))
    && (forall w :: 0 <= w < |weeks| - 1 ==> EndsSaturday(weeks[w]))
    && (weeks != [] && i < |days| ==> EndsSaturday(weeks[|weeks| - 1]))
  }

  /** The open column of consecutive days: one slot per weekday up to the last day placed. */
  predicate OpenColumn(days: seq<Day>, i: nat, weeks: seq<seq<Slot>>, current: seq<Slot>)
    requires i <= |days|
  {
    && (current != [] ==> 0 < i && |current| == DayOfWeek(days[i - 1]) + 1 && DayOfWeek(days[i - 1]) < 6)
    && (current == [] && 0 < i < |days| ==> DayOfWeek(days[i - 1]) == 6)
    && (current != [] && weeks != [] ==> StartsSunday(current))
  }

  /** The column after day `i` is placed in it: padding first when it is the first day. */
  predicate Opened(days: seq<Day>, i: nat, current: seq<Slot>, column: seq<Slot>)
    requires i < |days|
  {
    column == (if i == 0 then Blanks(DayOfWeek(days[0])) else current) + [Cell(days[i])]
  }

  /** Placing day `i` in the open column keeps the days in order and the first column's shape. */
  lemma OpenStep(days: seq<Day>, i: nat, weeks: seq<seq<Slot>>, current: seq<Slot>, column: seq<Slot>)
    requires i < |days|
    requires Grouped(days, i, weeks, current)
    requires Opened(days, i, current, column)
    ensures Cells(Flatten(weeks)) + Cells(column) == days[..i + 1]
    ensures OpensWith(if weeks == [] then column else weeks[0], DayOfWeek(days[0]), days[0])
    ensures column[|column| - 1] == Cell(days[i])
  {
    var front := if i == 0 then Blanks(DayOfWeek(days[0])) else current;
    PushCell(front, days[i]);
    if i == 0 {
      CellsBlanks(DayOfWeek(days[0]));
    }
    ExtendPrefix(Cells(Flatten(weeks)), Cells(front), days, i);
  }

  /** Closing the column of day `i`: padded to seven, it keeps the days in order and the first column's shape. */
  lemma CloseStep(days: seq<Day>, i: nat, weeks: seq<seq<Slot>>, column: seq<Slot>, full: seq<Slot>)
    requires i < |days|
    requires Cells(Flatten(weeks)) + Cells(column) == days[..i + 1]
    requires forall w :: 0 <= w < |weeks| ==> |weeks[w]| >= 7
    requires OpensWith(if weeks == [] then column else weeks[0], DayOfWeek(days[0]), days[0])
    requires full == column + Blanks(if |column| < 7 then 7 - |column| else 0)
    ensures Grouped(days, i + 1, weeks + [full], [])
  {
    CloseCells(days[..i + 1], weeks, column, full);
    CloseShape(DayOfWeek(days[0]), days[0], weeks, column, full);
  }

  lemma CloseCells(placed: seq<Day>, weeks: seq<seq<Slot>>, column: seq<Slot>, full: seq<Slot>)
    requires Cells(Flatten(weeks)) + Cells(column) == placed
    requires full == column + Blanks(if |column| < 7 then 7 - |column| else 0)
    ensures Cells(Flatten(weeks + [full])) + Cells([]) == placed
  {
    var pad := if |column| < 7 then 7 - |column| else 0;
    CellsAppend(column, Blanks(pad));
    CellsBlanks(pad);
    FlattenPush(weeks, full);
    CellsAppend(Flatten(weeks), full);
    assert Cells(Flatten(weeks + [full])) + Cells([]) == Cells(Flatten(weeks + [full]));
  }

  lemma CloseShape(k: nat, d: Day, weeks: seq<seq<Slot>>, column: seq<Slot>, full: seq<Slot>)
    requires forall w :: 0 <= w < |weeks| ==> |weeks[w]| >= 7
    requires OpensWith(if weeks == [] then column else weeks[0], k, d)
    requires full == column + Blanks(if |column| < 7 then 7 - |column| else 0)
    ensures forall w :: 0 <= w < |weeks + [full]| ==> |(weeks + [full])[w]| >= 7
    ensures OpensWith((weeks + [full])[0], k, d)
  {
    assert forall w :: 0 <= w < |weeks| ==> (weeks + [full])[w] == weeks[w];
    if weeks == [] {
      assert (weeks + [full])[0] == full;
      assert forall j :: 0 <= j < |column| ==> full[j] == column[j];
    }
  }

  /** Leaving the column of day `i` open before the last day. */
  lemma KeepStep(days: seq<Day>, i: nat, weeks: seq<seq<Slot>>, column: seq<Slot>)
    requires i < |days| - 1
    requires Cells(Flatten(weeks)) + Cells(column) == days[..i + 1]
    requires forall w :: 0 <= w < |weeks| ==> |weeks[w]| >= 7
    requires OpensWith(if weeks == [] then column else weeks[0], DayOfWeek(days[0]), days[0])
    requires column != []
    ensures Grouped(days, i + 1, weeks, column)
  {
  }

  /** Leaving a column of consecutive days open after a day other than Saturday. */
  lemma KeepConsecutive(days: seq<Day>, i: nat, weeks: seq<seq<Slot>>, column: seq<Slot>)
    requires i < |days| - 1 && DayOfWeek(days[i]) != 6
    requires Consecutive(days) ==> ClosedColumns(days, i, weeks)
    requires Consecutive(days) ==> |column| == DayOfWeek(days[i]) + 1
    requires Consecutive(days) && weeks != [] ==> StartsSunday(column)
    ensures Consecutive(days) ==> GroupedConsecutive(days, i + 1, weeks, column)
  {
  }

  lemma PushCell(front: seq<Slot>, d: Day)
    ensures Cells(front + [Cell(d)]) == Cells(front) + [d]
  {
    assert (front + [Cell(d)])[..|front|] == front;
  }

  lemma FlattenPush(weeks: seq<seq<Slot>>, column: seq<Slot>)
    ensures Flatten(weeks + [column]) == Flatten(weeks) + column
  {
    assert (weeks + [column])[..|weeks|] == weeks;
  }

  lemma ExtendPrefix<T>(a: seq<T>, b: seq<T>, s: seq<T>, i: nat)
    requires i < |s| && a + b == s[..i]
    ensures a + (b + [s[i]]) == s[..i + 1]
  {
    assert s[..i + 1] == s[..i] + [s[i]];
  }

  /** For consecutive days the open column holds one slot per weekday up to day `i`. */
  lemma OpenConsecutive(days: seq<Day>, i: nat, weeks: seq<seq<Slot>>, current: seq<Slot>, column: seq<Slot>)
    requires i < |days|
    requires i == 0 ==> weeks == [] && current == []
    requires Consecutive(days) ==> GroupedConsecutive(days, i, weeks, current)
    requires Opened(days, i, current, column)
    ensures Consecutive(days) ==> ClosedColumns(days, i, weeks)
    ensures Consecutive(days) ==> |column| == DayOfWeek(days[i]) + 1
    ensures Consecutive(days) && weeks != [] ==> StartsSunday(column)
  {
    if Consecutive(days) && i > 0 {
      assert days[i] == days[i - 1] + 1;
      DayOfWeekNext(days[i - 1]);
    }
  }

  /** Closing a column of consecutive days: seven slots, ending on a Saturday unless it is the last. */
  lemma CloseConsecutive(days: seq<Day>, i: nat, weeks: seq<seq<Slot>>, column: seq<Slot>, full: seq<Slot>)
    requires i < |days|
    requires Consecutive(days) ==> ClosedColumns(days, i, weeks)
    requires Consecutive(days) ==> |column| == DayOfWeek(days[i]) + 1
    requires Consecutive(days) && weeks != [] ==> StartsSunday(column)
    requires column != [] && column[|column| - 1] == Cell(days[i])
    requires DayOfWeek(days[i]) == 6 || i == |days| - 1
    requires full == column + Blanks(if |column| < 7 then 7 - |column| else 0)
    ensures Consecutive(days) ==> GroupedConsecutive(days, i + 1, weeks + [full], [])
  {
    assert full[..|column|] == column;
    if Consecutive(days) && DayOfWeek(days[i]) == 6 {
      assert full[6] == Cell(days[i]);
    }
  }
}
