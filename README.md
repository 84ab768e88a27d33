# alarm-cli: the time resolver and the countdown

A model, in Dafny, of the command-line alarm clock `alarm.py`. The alarm is
given a wake time, either absolute ("2024-03-20 07:30") or relative
("now + 10 seconds"), counts down to it once per second, and then plays a
sound. Two parts of it are modelled and proved.

- **The time resolver.** `parse_relative_time` recognises the relative form
  `now\s*\+\s*(\d+)\s*(second|minute|hour)s?` at the start of the
  lower-cased argument, and turns it into an offset from "now". The unit is
  seconds, minutes (×60) or hours (×3600). `parse_datetime` tries this form
  before the absolute date parser. Module `TimeResolver` (`time_resolver.dfy`)
  holds a hand-written recognizer, staged as the regular expression is, and
  works on the lower-cased input. Module `RelativeGrammar`
  (`relative_grammar.dfy`) states the form declaratively: the input cut into
  `now`, spaces, `+`, spaces, digits, spaces, a unit word and any rest. It
  proves that the recognizer accepts exactly these strings and yields the
  amount times the unit's length in seconds. It also proves that letter
  case never changes the result, that text after an accepted input never
  changes it, and that the optional plural `s` never matters.
  `RelativeExamples` checks three concrete arguments.
- **The countdown.** `main` computes the time left until the alarm. It stops
  with a message when that time is negative. Otherwise it loops while the
  time is positive: it shows the time as `HH:MM:SS`, sleeps one second and
  takes one second off. Module `Countdown` (`countdown.dfy`) has the
  hours/minutes/seconds split as a function, proved to be the unique normal
  split. The loop is a method with invariants. Module `Alarm`
  (`alarm_main.dfy`) runs the whole sequence, from the argument to the ring.

Instants and durations are whole seconds. The wall clock is never read:
"now" is a parameter. It is read twice in the source, once while the
argument is parsed and once by `main`, so `Alarm.SetAlarm` takes both
readings. The absolute date parser, together with attaching the local time
zone, is a function parameter. Its `None` stands for the `ValueError` that
`parse_datetime` turns into an argument error. The lines the countdown
prints are returned as a sequence of `Clock` values instead of being
written to the terminal.

A wake time equal to the current instant is accepted: the code rejects only
a negative remaining time (alarm.py:90), so a remaining time of exactly zero
rings at once.

Because the pattern is matched only at the start, trailing text is
ignored: "now + 1 hour and 30 minutes" means one hour.

## Model

| member | source | states |
|---|---|---|
| `TimeResolver.LeadingRun` | alarm.py:13 | A greedy `\s*` or `\d+` consumes the longest prefix of class characters: everything before it is in the class and the character after it is not |
| `TimeResolver.MatchRelative` | alarm.py:13-14 | The start-anchored match of the pattern: a match exists only when the text starts with `now`; exactly which strings match, and with which groups, is stated by `RelativeGrammar.MatchComplete` and `RelativeGrammar.MatchSound` |
| `TimeResolver.Seconds` | alarm.py:20-25 | The unit branch: the timedelta's length is the amount times the unit's length (1 second, 60 seconds a minute, 60 minutes an hour), never less than the amount |
| `TimeResolver.ParseDatetime` | alarm.py:28-45 | When the relative form matches, the result exists and is never earlier than now; otherwise it is exactly the absolute parser's result, its error included |
| `TimeResolver.RelativeOffset` | alarm.py:11-26 | The offset produced by the relative form is never negative (the digits carry no sign) |
| `TimeResolver.ParseRelativeTime` | alarm.py:11-26 | A result exists exactly when the relative form matches, and it is never earlier than "now" |
| `TimeResolver.RelativeFirst` | alarm.py:30-34 | When the relative form matches, `parse_datetime` returns now plus its offset whatever the absolute parser would say: the absolute parser is not consulted |
| `TimeResolver.AbsoluteFallback` | alarm.py:36-43 | When the relative form does not match, `parse_datetime` returns exactly the absolute parser's result, an error included |
| `RelativeGrammar.MatchComplete` | alarm.py:13-17 | Every lower-cased string of the form `now`, spaces, `+`, spaces, digits, spaces, unit word, any rest is matched, with the digits' value and the unit as the two groups |
| `RelativeGrammar.Complete` | alarm.py:13-25 | Every input whose lower-cased form has that shape yields the amount times 1, 60 or 3600 seconds |
| `RelativeGrammar.MatchSound` | alarm.py:13-15 | Every matched string can be cut into the pieces of the form |
| `RelativeGrammar.Sound` | alarm.py:13-25 | Every accepted input has a derivation of the form, and its offset is the one that derivation denotes |
| `RelativeGrammar.NoneIffUnderivable` | alarm.py:13-26 | The result is `None` exactly when the lower-cased input has no derivation of the form |
| `RelativeGrammar.DerivationsAgree` | alarm.py:13-16 | All ways of cutting one input into the form denote the same offset |
| `RelativeGrammar.CaseInsensitive` | alarm.py:14 | An input and its lower-cased form give the same result |
| `RelativeGrammar.TrailingTextIgnored` | alarm.py:13-14 | Appending any text to an accepted input leaves its offset unchanged |
| `RelativeGrammar.OptionalS` | alarm.py:13 | For every input, appending `s` gives the same result, accepted or not: since no unit word ends in `s`, the optional `s?` never decides a match |
| `RelativeGrammar.PluralUnit` | alarm.py:13 | After any prefix, `second`/`seconds`, `minute`/`minutes` and `hour`/`hours` give the same result, in both directions |
| `RelativeExamples.FiveSeconds` | alarm.py:13-21 | "now + 5 seconds" is an offset of 5 seconds |
| `RelativeExamples.TwoHoursUpperCase` | alarm.py:13-25 | "NOW+2HOURS" is accepted, with an offset of 7200 seconds |
| `RelativeExamples.MinusRejected` | alarm.py:13-15 | "now - 5 seconds" is not the relative form |
| `Countdown.Split` | alarm.py:102-104 | hours·3600 + minutes·60 + seconds equals the remaining time, minutes and seconds lie in 0..59, and hours are non-negative for a non-negative time |
| `Countdown.SplitUnique` | alarm.py:102-104 | The split is the only triple with those bounds that adds up to the remaining time |
| `Countdown.Run` | alarm.py:87-111 | A negative remaining time aborts before the loop and shows nothing. Otherwise the loop runs exactly t times and ends at 0. Step i shows Split(t - i), a normal clock totalling t - i seconds |
| `Alarm.SetAlarm` | alarm.py:83-111 | An invalid argument ends in an argument error, and an instant before the clock's second reading ends in the "already passed" message. Otherwise the countdown runs from the remaining time. A relative argument whose offset has not elapsed between the two readings always rings, after exactly the offset less the elapsed time |

## Left out

- `play_alarm` (alarm.py:47-71): a file-existence check, `pygame` mixer calls and playback loop bounded by the wall clock; nothing in it is modelled.
- Absolute date parsing (`dateutil.parser.parse`, alarm.py:37) and attaching the local time zone (alarm.py:40-41, 95) are foreign library behaviour; they are the `absolute` parameter.
- Reading the clock (alarm.py:18, 87), `time.sleep` (alarm.py:110) and every `print`/`strftime` output, including the `HH:MM:SS` formatting (alarm.py:97-98, 107, 114): time and I/O effects. "Now" is a parameter and the shown values are returned.
- Command-line parsing with `argparse` (alarm.py:74-83) and its conversion of the error into an exit.
- Fractional seconds: `total_seconds()` (alarm.py:88) is a float and so are `//` and `%` on it; remaining time is a whole number of seconds here.
- TimeResolver.ParseRelativeTime and Alarm.SetAlarm: the offset is added on a single time line of seconds, while the source adds the timedelta to an aware local datetime in wall-clock time (alarm.py:18-25) and measures the remaining time in real time (alarm.py:88). Across a daylight-saving change inside the offset the source counts down the offset plus or minus the shift; the model's "rings after exactly the offset less the elapsed time" does not capture that.
- Overflow: `timedelta` or the datetime addition raising `OverflowError` for very large amounts, and `int()` raising `ValueError` for a digit string beyond Python's default limit of 4300 digits. Amounts are unbounded integers here.
- Unicode: Python's `\d` also accepts non-ASCII decimal digits and `str.lower` folds non-ASCII letters. The recognizer accepts ASCII digits only and lower-cases ASCII letters only. Whitespace follows `str.isspace`, non-ASCII spaces included.
