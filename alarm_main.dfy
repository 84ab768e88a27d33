/**
 * The main routine of the alarm clock, from the datetime argument to the
 * moment the alarm rings: the argument is resolved to an instant, the
 * remaining time is measured against a second reading of the clock, and the
 * countdown runs.
 */
module Alarm {
  import opened Wrappers
  import opened TimeResolver
  import Countdown

  /** How a run ends: an argument error, the "already passed" message, or the alarm. */
  datatype Ending = InvalidDatetime | PastTime | WakeUp

  /**
   * `parseNow` is the clock as read while the argument is parsed and
   * `mainNow` the clock as read afterwards by the main routine; `absolute`
   * is the absolute date parser. `shown` is the countdown as displayed.
   */
  method SetAlarm(arg: string, parseNow: int, mainNow: int, absolute: string -> Option<int>)
    returns (ending: Ending, shown: seq<Countdown.Clock>)
    ensures ending == InvalidDatetime <==> ParseDatetime(arg, parseNow, absolute).None?
    ensures ending == PastTime <==>
      ParseDatetime(arg, parseNow, absolute).Some? && ParseDatetime(arg, parseNow, absolute).value < mainNow
    ensures ending == WakeUp ==>
      var remaining := ParseDatetime(arg, parseNow, absolute).value - mainNow;
      |shown| == remaining && forall i :: 0 <= i < |shown| ==> shown[i] == Countdown.Split(remaining - i)
    ensures ending != WakeUp ==> shown == []
    ensures RelativeOffset(arg).Some? && parseNow <= mainNow <= parseNow + RelativeOffset(arg).value ==>
      ending == WakeUp && |shown| == parseNow + RelativeOffset(arg).value - mainNow
  {
    var alarmTime := ParseDatetime(arg, parseNow, absolute);
    if alarmTime.None? {
      return InvalidDatetime, [];
    }
    var outcome, left;
    outcome, shown, left := Countdown.Run(alarmTime.value, mainNow);
    ending := if outcome == Countdown.AlreadyPassed then PastTime else WakeUp;
  }
}
