/**
 * The timer habit's card: the `h:mm:ss` / `m:ss` display of the seconds
 * counted so far, and the running/elapsed state that the interval's ticks,
 * the play, pause and reset buttons and the stored value change.
 */
module Timer {

  import opened Wrappers
  import opened Text
  import opened Habits
  import opened HabitList

  /** A number of seconds split into hours, minutes and seconds. */
  datatype Clock = Clock(hours: nat, minutes: nat, seconds: nat)

  /** The split `formatTime` makes: whole hours, then whole minutes of the rest, then seconds. */
  function ClockOf(total: nat): (c: Clock)
    ensures 3600 * c.hours + 60 * c.minutes + c.seconds == total
    ensures c.minutes < 60 && c.seconds < 60
  {
    var rest := total % 3600;
    assert total == 3600 * (total / 3600) + rest;
    assert rest == 60 * (rest / 60) + rest % 60;
    assert rest % 60 == total % 60 by {
      assert total == 60 * (60 * (total / 3600) + rest / 60) + rest % 60;
    }
    Clock(total / 3600, rest / 60, total % 60)
  }

  /** `formatTime`: `h:mm:ss` when there is a whole hour, otherwise `m:ss`. */
  function FormatTime(total: nat): string
  {
    var c := ClockOf(total);
    if c.hours > 0 then NatToString(c.hours) + ":" + Pad2(c.minutes) + ":" + Pad2(c.seconds)
    else NatToString(c.minutes) + ":" + Pad2(c.seconds)
  }

  /** Reads a display back into seconds: `h:mm:ss` or `m:ss` of decimal fields, anything else None. */
  function ReadClock(s: string): Option<nat>
  {
    var parts := Split(s, ':');
    if |parts| == 3 then
      match (DecimalNumber(parts[0]), DecimalNumber(parts[1]), DecimalNumber(parts[2]))
      case (Some(h), Some(m), Some(sec)) => Some(3600 * h + 60 * m + sec)
      case _ => None
    else if |parts| == 2 then
      match (DecimalNumber(parts[0]), DecimalNumber(parts[1]))
      case (Some(m), Some(sec)) => Some(60 * m + sec)
      case _ => None
    else None
  }

  lemma NoColonInDigits(s: string)
    requires AllDigits(s)
    ensures ':' !in s
  {
  }

  /**
   * The display's fields: three with a whole hour (the hours unpadded, then
   * two digits each for minutes and seconds), two without.
   */
  lemma FormatTimeFields(total: nat)
    ensures var c := ClockOf(total);
      Split(FormatTime(total), ':')
      == if c.hours > 0 then [NatToString(c.hours), Pad2(c.minutes), Pad2(c.seconds)]
         else [NatToString(c.minutes), Pad2(c.seconds)]
    ensures |Pad2(ClockOf(total).minutes)| == 2 && |Pad2(ClockOf(total).seconds)| == 2
  {
    var c := ClockOf(total);
    var h, m, s := NatToString(c.hours), Pad2(c.minutes), Pad2(c.seconds);
    Pad2Shape(c.minutes);
    Pad2Shape(c.seconds);
    NoColonInDigits(h);
    NoColonInDigits(m);
    NoColonInDigits(s);
    SplitNoSeparator(s, ':');
    if c.hours > 0 {
      assert FormatTime(total) == h + [':'] + (m + [':'] + s);
      SplitAt(h, ':', m + [':'] + s);
      SplitAt(m, ':', s);
    } else {
      assert FormatTime(total) == NatToString(c.minutes) + [':'] + s;
      NoColonInDigits(NatToString(c.minutes));
      SplitAt(NatToString(c.minutes), ':', s);
    }
  }

  /** The display shows hours exactly from one hour on. */
  lemma FormatTimeHasHours(total: nat)
    ensures |Split(FormatTime(total), ':')| == 3 <==> total >= 3600
    ensures |Split(FormatTime(total), ':')| == 2 <==> total < 3600
  {
    FormatTimeFields(total);
  }

  /** Reading the display back gives the seconds it was made from. */
  lemma FormatTimeRoundTrip(total: nat)
    ensures ReadClock(FormatTime(total)) == Some(total)
  {
    var c := ClockOf(total);
    FormatTimeFields(total);
    DecimalOfPad2(c.minutes);
    DecimalOfPad2(c.seconds);
    if c.hours > 0 {
      DecimalOfNat(c.hours);
    } else {
      DecimalOfNat(c.minutes);
    }
  }

  lemma DecimalOfNat(n: nat)
    ensures DecimalNumber(NatToString(n)) == Some(n)
  {
    NatToStringValue(n);
  }

  lemma DecimalOfPad2(n: nat)
    ensures DecimalNumber(Pad2(n)) == Some(n)
  {
    Pad2Shape(n);
    Pad2Value(n);
  }

  /**
   * The timer card. `localElapsed` counts seconds; the target comes in
   * minutes. What the card reports to the list is an `Update` of the value to
   * store and its completed flag.
   */
  class TimerCard {
    var isRunning: bool
    var localElapsed: int
    const targetMinutes: int

    /** A fresh card: stopped, showing the stored value. */
    constructor (elapsedSeconds: int, targetMinutes: int)
      ensures !isRunning && localElapsed == elapsedSeconds && this.targetMinutes == targetMinutes
    {
      isRunning := false;
      localElapsed := elapsedSeconds;
      this.targetMinutes := targetMinutes;
    }

    function TargetSeconds(): int
    {
      targetMinutes * 60
    }

    /** The card's own completion test: seconds against the target in minutes times 60. */
    predicate IsCompleted()
      reads this
    {
      localElapsed >= TargetSeconds()
    }

    /** A card that has reached its target is stopped. */
    predicate Settled()
      reads this
    {
      IsCompleted() ==> !isRunning
    }

    /** The stored value changed: the card shows it, running or not. */
    method Sync(elapsedSeconds: int)
      modifies this
      ensures localElapsed == elapsedSeconds && isRunning == old(isRunning)
    {
      localElapsed := elapsedSeconds;
    }

    /**
     * One firing of the interval, which only runs while the card runs and
     * is not complete: one second more, and on reaching the target the card
     * stops and reports the new value as completed.
     */
    method Tick() returns (report: Option<Update>)
      requires isRunning && !IsCompleted()
      modifies this
      ensures localElapsed == old(localElapsed) + 1
      ensures isRunning == !IsCompleted()
      ensures report == if IsCompleted() then Some(Update(localElapsed, true)) else None
      ensures Settled()
    {
      var newValue := localElapsed + 1;
      var nowCompleted := newValue >= TargetSeconds();
      report := None;
      if nowCompleted {
        isRunning := false;
        report := Some(Update(newValue, true));
      }
      localElapsed := newValue;
    }

    /**
     * The interval firing again and again from a running card: it stops at
     * exactly the target, having reported that value as completed once.
     */
    method RunToTarget() returns (report: Option<Update>)
      requires isRunning && !IsCompleted()
      modifies this
      ensures !isRunning && localElapsed == TargetSeconds()
      ensures report == Some(Update(TargetSeconds(), true))
    {
      report := Tick();
      while isRunning
        invariant isRunning == !IsCompleted()
        invariant localElapsed <= TargetSeconds()
        invariant isRunning ==> report == None
        invariant !isRunning ==> report == Some(Update(localElapsed, true))
        decreases TargetSeconds() - localElapsed
      {
        report := Tick();
      }
    }

    /** The play button, shown while the card is stopped and not complete. */
    method Play()
      requires !isRunning && !IsCompleted()
      modifies this
      ensures isRunning && localElapsed == old(localElapsed)
    {
      isRunning := true;
    }

    /**
     * The pause button, shown while the card runs and is not complete: it
     * stops and reports the seconds so far with the card's completed flag,
     * which there is always false.
     */
    method Pause() returns (report: Update)
      requires isRunning && !IsCompleted()
      modifies this
      ensures !isRunning && localElapsed == old(localElapsed)
      ensures report == Update(localElapsed, IsCompleted())
      ensures !report.completed
    {
      isRunning := false;
      report := Update(localElapsed, IsCompleted());
    }

    /**
     * The reset button, shown while the card is not complete and enabled once
     * some seconds have passed: stopped, back to zero, reported as not
     * completed.
     */
    method Reset() returns (report: Update)
      requires !IsCompleted() && localElapsed != 0
      modifies this
      ensures !isRunning && localElapsed == 0
      ensures report == Update(0, false)
      ensures Settled()
    {
      isRunning := false;
      localElapsed := 0;
      report := Update(0, false);
    }
  }

  /**
   * The list tests a timer's stored seconds against the target as if both
   * were the same unit: whatever the card calls done, the list does too.
   */
  lemma CardDoneIsListDone(elapsed: int, target: int)
    requires target >= 1 && elapsed >= target * 60
    ensures Completed(Some(Num(elapsed)), target)
  {
  }

  /** ... but not the other way round: `target` seconds are done for the list and not for the card. */
  lemma ListDoneIsNotCardDone(target: int)
    requires target >= 1
    ensures Completed(Some(Num(target)), target)
    ensures !(target >= target * 60)
  {
  }
}
