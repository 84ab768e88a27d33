/**
 * The time resolver of the alarm clock: the recognizer of the relative form
 * "now + N unit" (alarm.py, parse_relative_time) and the order in which the
 * datetime argument is tried (alarm.py, parse_datetime).
 *
 * Instants are whole seconds on a single time line; the wall clock is not
 * read here: the instant "now" is a parameter.
 */
module TimeResolver {
  import opened Wrappers

  /** The three alternatives of the unit group of the pattern. */
  datatype Unit = Second | Minute | Hour

  /** What a successful match captures: group 1 as a number and group 2. */
  datatype Capture = Capture(amount: nat, unit: Unit)

  /**
   * Python's `\s` restricted to what `str.isspace` accepts: the ASCII
   * controls 9-13 and 28-31, the space, and the Unicode space separators.
   */
  predicate IsSpace(c: char) {
    var n := c as int;
    9 <= n <= 13 || 28 <= n <= 32 || n == 0x85 || n == 0xA0 || n == 0x1680
    || 0x2000 <= n <= 0x200A || n == 0x2028 || n == 0x2029 || n == 0x202F
    || n == 0x205F || n == 0x3000
  }

  /** `\d`, restricted to the ASCII digits. */
  predicate IsDigit(c: char) {
    '0' <= c <= '9'
  }

  /** `str.lower` on one character, for the ASCII letters. */
  function LowerChar(c: char): char {
    if 'A' <= c <= 'Z' then (c as int - 'A' as int + 'a' as int) as char else c
  }

  function Lower(s: string): string {
    seq(|s|, i requires 0 <= i < |s| => LowerChar(s[i]))
  }

  /** The length of the longest prefix of `s` whose characters are all in the class. */
  function LeadingRun(s: string, inClass: char -> bool): (n: nat)
    ensures n <= |s|
    ensures forall i :: 0 <= i < n ==> inClass(s[i])
    ensures n < |s| ==> !inClass(s[n])
  {
    if |s| > 0 && inClass(s[0]) then 1 + LeadingRun(s[1..], inClass) else 0
  }

  /** What is left of `s` once a greedy `[class]*` has consumed its prefix. */
  function Skip(s: string, inClass: char -> bool): string {
    s[LeadingRun(s, inClass)..]
  }

  /** Python's `int` on a non-empty string of ASCII digits. */
  function DecimalValue(d: string): nat {
    if |d| == 0 then 0 else 10 * DecimalValue(d[..|d| - 1]) + DigitValue(d[|d| - 1])
  }

  function DigitValue(c: char): nat {
    if IsDigit(c) then c as int - '0' as int else 0
  }

  /** The literal text of each alternative of the unit group. */
  function UnitWord(u: Unit): string {
    match u
    case Second => "second"
    case Minute => "minute"
    case Hour => "hour"
  }

  /** The unit group `(second|minute|hour)`, tried left to right at the start of `s`. */
  function UnitAt(s: string): Option<Unit> {
    if UnitWord(Second) <= s then Some(Second)
    else if UnitWord(Minute) <= s then Some(Minute)
    else if UnitWord(Hour) <= s then Some(Hour)
    else None
  }

  /**
   * `re.match(r'now\s*\+\s*(\d+)\s*(second|minute|hour)s?', t)`: the pattern
   * is anchored at the start of `t` only. The classes of `\s`, `\d` and the
   * first letters of the units are disjoint, so the greedy runs never need
   * to give back a character. The trailing `s?` can always match the empty
   * string, so it never decides whether the pattern matches.
   */
  function MatchRelative(t: string): (m: Option<Capture>)
    ensures m.Some? ==> "now" <= t
  {
    if "now" <= t then MatchPlus(Skip(t[3..], IsSpace)) else None
  }

  /** The rest of the pattern after `now\s*`: `\+\s*(\d+)\s*(second|minute|hour)`. */
  function MatchPlus(a: string): Option<Capture> {
    if |a| > 0 && a[0] == '+' then MatchAmount(Skip(a[1..], IsSpace)) else None
  }

  /** The rest of the pattern after `\+\s*`: `(\d+)\s*(second|minute|hour)`. */
  function MatchAmount(b: string): Option<Capture> {
    var n := LeadingRun(b, IsDigit);
    if n == 0 then None
    else
      match UnitAt(Skip(b[n..], IsSpace))
      case None => None
      case Some(u) => Some(Capture(DecimalValue(b[..n]), u))
  }

  /**
   * The offset from "now", in seconds, that parse_relative_time adds to the
   * current instant: the amount as seconds, minutes or hours, or `None` when
   * the lower-cased input does not match.
   */
  function RelativeOffset(s: string): (r: Option<int>)
    ensures r.Some? ==> r.value >= 0
  {
    match MatchRelative(Lower(s))
    case None => None
    case Some(c) => Some(Seconds(c))
  }

  const SecondsPerMinute := 60
  const MinutesPerHour := 60

  /** The length of each unit in seconds. */
  function SecondsPer(u: Unit): nat {
    match u
    case Second => 1
    case Minute => SecondsPerMinute
    case Hour => MinutesPerHour * SecondsPerMinute
  }

  /** The timedelta built from a capture, in seconds. */
  function Seconds(c: Capture): (r: nat)
    ensures r == c.amount * SecondsPer(c.unit)
    ensures r >= c.amount
  {
    match c.unit
    case Second => c.amount
    case Minute => c.amount * 60
    case Hour => c.amount * 3600
  }

  /** parse_relative_time with the current instant passed in. */
  function ParseRelativeTime(s: string, now: int): (r: Option<int>)
    ensures r.Some? <==> RelativeOffset(s).Some?
    ensures r.Some? ==> r.value >= now
  {
    match RelativeOffset(s)
    case None => None
    case Some(n) => Some(now + n)
  }

  /**
   * parse_datetime: the relative form first, the absolute parser only when
   * it does not match. `absolute` stands for the date parser together with
   * the attachment of the local time zone; its `None` is the ValueError that
   * becomes an argument error.
   */
  function ParseDatetime(s: string, now: int, absolute: string -> Option<int>): (r: Option<int>)
    ensures RelativeOffset(s).Some? ==> r.Some? && r.value >= now
    ensures RelativeOffset(s).None? ==> r == absolute(s)
  {
    var relative := ParseRelativeTime(s, now);
    if relative.Some? then relative else absolute(s)
  }

  /** When the relative form matches, the absolute parser is never consulted. */
  lemma RelativeFirst(s: string, now: int, absolute1: string -> Option<int>, absolute2: string -> Option<int>)
    ensures RelativeOffset(s).Some? ==>
      ParseDatetime(s, now, absolute1) == ParseDatetime(s, now, absolute2) == Some(now + RelativeOffset(s).value)
  {
  }

  /** When it does not match, the result is exactly the absolute parser's. */
  lemma AbsoluteFallback(s: string, now: int, absolute: string -> Option<int>)
    requires RelativeOffset(s).None?
    ensures ParseDatetime(s, now, absolute) == absolute(s)
  {
  }
}
