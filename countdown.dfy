/**
 * The countdown of the alarm clock's main routine: the check that the alarm
 * time has not passed, and the loop that shows the remaining time as
 * hours, minutes and seconds once per second until it reaches zero.
 *
 * Remaining time is a whole number of seconds. Sleeping and writing the
 * line to the terminal are effects and are not modelled; the lines the loop
 * would show are returned as a sequence instead.
 */
module Countdown {

  /** The remaining time as shown: hours, minutes and seconds. */
  datatype Clock = Clock(hours: int, minutes: int, seconds: int)

  function TotalSeconds(c: Clock): int {
    c.hours * 3600 + c.minutes * 60 + c.seconds
  }

  /** Minutes and seconds are both below 60. */
  predicate Normal(c: Clock) {
    0 <= c.minutes < 60 && 0 <= c.seconds < 60
  }

  /**
   * `t // 3600`, `(t % 3600) // 60` and `t % 60`. With a positive divisor
   * Python's floor division and modulo agree with Dafny's, for every `t`.
   */
  function Split(t: int): (c: Clock)
    ensures TotalSeconds(c) == t && Normal(c)
    ensures t >= 0 ==> c.hours >= 0
  {
    Clock(t / 3600, (t % 3600) / 60, t % 60)
  }

  /** The split is the only normal clock showing `t` seconds. */
  lemma SplitUnique(t: int, c: Clock)
    requires Normal(c) && TotalSeconds(c) == t
    ensures c == Split(t)
  {
    var r := c.minutes * 60 + c.seconds;
    DivModHour(t, c.hours, r);
    DivModMinute(r, c.minutes, c.seconds);
    DivModMinute(t, c.hours * 60 + c.minutes, c.seconds);
  }

  /** Whole hours and the seconds left over are the only such pair. */
  lemma DivModHour(t: int, q: int, r: int)
    requires t == q * 3600 + r && 0 <= r < 3600
    ensures t / 3600 == q && t % 3600 == r
  {
  }

  /** Whole minutes and the seconds left over are the only such pair. */
  lemma DivModMinute(t: int, q: int, r: int)
    requires t == q * 60 + r && 0 <= r < 60
    ensures t / 60 == q && t % 60 == r
  {
  }

  /** How the countdown ended. */
  datatype Outcome = AlreadyPassed | Rang

  /**
   * The remaining time is the alarm time less now. A negative remaining time
   * aborts at once. Otherwise the loop shows the remaining time and takes one
   * second off it until it is no longer positive, and the alarm rings.
   * `left` is the remaining time when the routine gives up or rings.
   */
  method Run(alarmTime: int, now: int) returns (outcome: Outcome, shown: seq<Clock>, left: int)
    ensures outcome == AlreadyPassed <==> alarmTime < now
    ensures outcome == AlreadyPassed ==> shown == [] && left == alarmTime - now
    ensures outcome == Rang ==> left == 0 && |shown| == alarmTime - now
    ensures forall i :: 0 <= i < |shown| ==> shown[i] == Split(alarmTime - now - i)
    ensures forall i :: 0 <= i < |shown| ==> Normal(shown[i]) && TotalSeconds(shown[i]) == |shown| - i
  {
    var timeUntilAlarm := alarmTime - now;
    shown := [];
    if timeUntilAlarm < 0 {
      return AlreadyPassed, shown, timeUntilAlarm;
    }
    while timeUntilAlarm > 0
      invariant 0 <= timeUntilAlarm <= alarmTime - now
      invariant |shown| == alarmTime - now - timeUntilAlarm
      invariant forall i :: 0 <= i < |shown| ==> shown[i] == Split(alarmTime - now - i)
      decreases timeUntilAlarm
    {
      shown := shown + [Split(timeUntilAlarm)];
      timeUntilAlarm := timeUntilAlarm - 1;
    }
    return Rang, shown, timeUntilAlarm;
  }
}
