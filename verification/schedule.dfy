/**
 One rule's schedule: the saved configuration, the interval validation done when
 the rule is armed, and `checkTimeAndOpenLink`, the day-and-time-window test that
 decides whether the rule's link is opened now.
 */
module Schedule {
  import opened Wrappers
  import opened Text
  import opened Links

  /** A saved rule as the options page stores it: `days` are the weekday codes
      `"0"` (Sunday) to `"6"` (Saturday) as strings, the times are `HH:MM`, and
      `intervalUnit` is `"minutes"` or `"hours"`. */
  datatype Config = Config(
    days: seq<string>,
    startTime: string,
    endTime: string,
    interval: int,
    intervalUnit: string,
    link: string,
    active: bool)

  type Weekday = d: int | 0 <= d < 7
  type Hour = h: int | 0 <= h < 24
  type Minute = m: int | 0 <= m < 60

  /** The local wall-clock reading `new Date()` gives: weekday, hours, minutes, seconds. */
  datatype Clock = Clock(day: Weekday, hour: Hour, minute: Minute, second: Minute)

  const SecondsPerDay := 86400

  /** The interval the user asked for, in minutes. */
  function RequestedMinutes(interval: int, unit: string): int
  {
    if unit == "hours" then interval * 60 else interval
  }

  /** The validated period in whole minutes: the request, raised to one minute
      when it is smaller. */
  function NormalizeInterval(interval: int, unit: string): (minutes: int)
    ensures minutes >= 1
    ensures minutes >= RequestedMinutes(interval, unit)
    ensures minutes == 1 || minutes == RequestedMinutes(interval, unit)
  {
    var requested := RequestedMinutes(interval, unit);
    if requested < 1 then 1 else requested
  }

  function ValidatedInterval(c: Config): int
  {
    NormalizeInterval(c.interval, c.intervalUnit)
  }

  /** Validating an already validated period, read as minutes, changes nothing. */
  lemma NormalizeIdempotent(interval: int, unit: string)
    ensures NormalizeInterval(NormalizeInterval(interval, unit), "minutes") == NormalizeInterval(interval, unit)
  {
  }

  /** Hours count sixty times as much as minutes, up to the one-minute floor. */
  lemma HoursAreSixtyMinutes(interval: int)
    ensures NormalizeInterval(interval, "hours") == NormalizeInterval(interval * 60, "minutes")
    ensures interval >= 1 ==> NormalizeInterval(interval, "hours") == 60 * NormalizeInterval(interval, "minutes")
  {
  }

  /** `now.getDay().toString()`. */
  function DayString(d: Weekday): (s: string)
    ensures |s| == 1 && IsDigit(s[0])
  {
    [DigitChar(d)]
  }

  /** Reading the day string back gives the weekday: distinct days never match the
      same entry of `days`. */
  lemma DayStringRoundTrip(d: Weekday)
    ensures DecimalValue(DayString(d)) == Some(d)
    ensures forall e: Weekday :: DayString(e) == DayString(d) ==> e == d
  {
    assert DayString(d)[..0] == [];
  }

  /** `HH:MM` as a time input renders it. */
  function FormatTime(h: Hour, m: Minute): string
  {
    TwoDigits(h) + ":" + TwoDigits(m)
  }

  /** `time.split(':').map(Number)` followed by `hour * 60 + minute`: minutes since
      midnight, or `None` when either part is missing or not a number. */
  function ParseTime(s: string): (minutes: Option<int>)
    ensures ':' !in s ==> minutes == None
    ensures minutes.Some? ==> minutes.value >= 0
  {
    assert ':' !in s ==> Split(s, ':') == [s] by {
      if ':' !in s {
        SplitPiece(s, ':');
      }
    }
    var parts := Split(s, ':');
    if |parts| < 2 then None
    else match (DecimalValue(parts[0]), DecimalValue(parts[1]))
      case (Some(h), Some(m)) => Some(h * 60 + m)
      case _ => None
  }

  /** Parsing what a time input produces gives the minutes since midnight it shows. */
  lemma ParseFormattedTime(h: Hour, m: Minute)
    ensures ParseTime(FormatTime(h, m)) == Some(h * 60 + m)
  {
    var parts := [TwoDigits(h), TwoDigits(m)];
    assert Join(parts, ':') == FormatTime(h, m) by {
      assert parts[1..] == [TwoDigits(m)];
    }
    forall p | p in parts ensures ':' !in p {
      assert p == TwoDigits(h) || p == TwoDigits(m);
    }
    SplitJoin(parts, ':');
    TwoDigitsRoundTrip(h);
    TwoDigitsRoundTrip(m);
  }

  /** Seconds since midnight of a clock reading. */
  function SecondsOfDay(c: Clock): (t: int)
    ensures 0 <= t < SecondsPerDay
  {
    c.hour * 3600 + c.minute * 60 + c.second
  }

  /** The time-window test, all three in the same unit. When `end < start` the
      window runs past midnight. Both bounds are included. */
  function InWindow(cur: int, start: int, end: int): (b: bool)
    ensures end < start ==> (b <==> !(end < cur < start))
    ensures start == end ==> (b <==> cur == start)
    ensures start <= end ==> (b <==> start <= cur <= end)
  {
    if end < start then cur >= start || cur <= end
    else cur >= start && cur <= end
  }

  /** An independent reading of a window: walking forward around the clock from
      `start`, one reaches `cur` no later than `end`. */
  predicate OnArc(cur: int, start: int, end: int)
  {
    (cur - start) % SecondsPerDay <= (end - start) % SecondsPerDay
  }

  /** For times within one day, the window test is exactly the clockwise arc from
      start to end, whether or not it crosses midnight. */
  lemma WindowIsArc(cur: int, start: int, end: int)
    requires 0 <= cur < SecondsPerDay && 0 <= start < SecondsPerDay && 0 <= end < SecondsPerDay
    ensures InWindow(cur, start, end) <==> OnArc(cur, start, end)
  {
    var d := SecondsPerDay;
    assert (end - start) % d == if end < start then end - start + d else end - start;
    assert (cur - start) % d == if cur < start then cur - start + d else cur - start;
  }

  /** A window that crosses midnight holds at both of its bounds and fails strictly
      between its end and its start. */
  lemma WrappedWindowEdges(start: int, end: int, cur: int)
    requires end < start
    ensures InWindow(start, start, end) && InWindow(end, start, end)
    ensures end < cur < start ==> !InWindow(cur, start, end)
  {
  }

  /** The source's own unit: fractional minutes since midnight. */
  function CurrentMinutes(c: Clock): real
  {
    (c.hour * 60 + c.minute) as real + c.second as real / 60.0
  }

  predicate InWindowMinutes(cur: real, start: int, end: int)
  {
    if end < start then cur >= start as real || cur <= end as real
    else cur >= start as real && cur <= end as real
  }

  /** Comparing whole seconds against bounds scaled by sixty decides every
      comparison exactly as fractional minutes against whole-minute bounds do. */
  lemma SecondsDecideAsMinutes(c: Clock, start: int, end: int)
    ensures InWindowMinutes(CurrentMinutes(c), start, end) <==> InWindow(SecondsOfDay(c), start * 60, end * 60)
  {
    var cur := CurrentMinutes(c);
    assert cur * 60.0 == SecondsOfDay(c) as real;
    assert cur >= start as real <==> SecondsOfDay(c) >= start * 60;
    assert cur <= end as real <==> SecondsOfDay(c) <= end * 60;
  }

  /** The time half of the check: both times parse and the clock lies in the window. */
  function MatchesWindow(c: Config, clock: Clock): (b: bool)
    ensures b ==> ParseTime(c.startTime).Some? && ParseTime(c.endTime).Some?
    ensures var start, end := ParseTime(c.startTime), ParseTime(c.endTime);
      start.Some? && end.Some? && start.value < 1440 && end.value < 1440 ==>
        (b <==> OnArc(SecondsOfDay(clock), start.value * 60, end.value * 60))
  {
    var start, end := ParseTime(c.startTime), ParseTime(c.endTime);
    assert start.Some? && end.Some? && start.value < 1440 && end.value < 1440 ==>
      (InWindow(SecondsOfDay(clock), start.value * 60, end.value * 60) <==>
       OnArc(SecondsOfDay(clock), start.value * 60, end.value * 60))
    by {
      if start.Some? && end.Some? && start.value < 1440 && end.value < 1440 {
        WindowIsArc(SecondsOfDay(clock), start.value * 60, end.value * 60);
      }
    }
    match (ParseTime(c.startTime), ParseTime(c.endTime))
    case (Some(start), Some(end)) => InWindow(SecondsOfDay(clock), start * 60, end * 60)
    case _ => false
  }

  /** `checkTimeAndOpenLink`: the URLs opened for rule `c` at `clock`. Only today's
      weekday is consulted, also for a window that started yesterday evening. */
  function CheckTimeAndOpenLink(c: Config, clock: Clock): (urls: seq<string>)
    ensures urls != [] <==> DayString(clock.day) in c.days && MatchesWindow(c, clock) && c.link != ""
    ensures urls == [] || urls == [NormalizeUrl(c.link)]
  {
    if DayString(clock.day) in c.days && MatchesWindow(c, clock) then OpenLink(c.link) else []
  }

  /** A window crossing midnight does not carry over into the next day: after
      midnight the rule opens only if the new day is itself listed. */
  lemma NoPreviousDayAllowance(c: Config, clock: Clock)
    requires DayString(clock.day) !in c.days
    ensures CheckTimeAndOpenLink(c, clock) == []
  {
  }
}
