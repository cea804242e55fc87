/**
 * Wall-clock times of one day, as the splitter reads and writes them:
 * `pd.to_datetime(s, format='%H:%M')` puts every parsed time on the same
 * calendar day (1900-01-01), so a time is its number of minutes since
 * midnight, and `strftime('%H:%M')` writes the hour of the day and the
 * minute, each as two zero-padded digits.
 */
module Clock {
  import opened Wrappers
  import opened Cells

  const MinutesPerDay := 1440

  predicate IsDigit(c: char) { '0' <= c <= '9' }

  function DigitValue(c: char): (d: nat)
    requires IsDigit(c)
    ensures d < 10
  {
    c as int - '0' as int
  }

  /** A `%H` field of one or two characters: `\d`, `[0-1]\d` or `2[0-3]`. */
  function ParseHour(h: string): (r: Option<nat>)
    ensures r.Some? ==> r.value < 24
  {
    if |h| == 1 && IsDigit(h[0]) then Some(DigitValue(h[0]))
    else if |h| == 2 && ('0' <= h[0] <= '1') && IsDigit(h[1]) then Some(10 * DigitValue(h[0]) + DigitValue(h[1]))
    else if |h| == 2 && h[0] == '2' && ('0' <= h[1] <= '3') then Some(20 + DigitValue(h[1]))
    else None
  }

  /** A `%M` field of one or two characters: `\d` or `[0-5]\d`. */
  function ParseMinute(m: string): (r: Option<nat>)
    ensures r.Some? ==> r.value < 60
  {
    if |m| == 1 && IsDigit(m[0]) then Some(DigitValue(m[0]))
    else if |m| == 2 && ('0' <= m[0] <= '5') && IsDigit(m[1]) then Some(10 * DigitValue(m[0]) + DigitValue(m[1]))
    else None
  }

  /**
   * Parses the whole of `s` against `%H:%M`; the result is minutes since
   * midnight. The hour field ends at the first colon, which must be the
   * second or third character; the minute field is the rest.
   */
  function ParseClock(s: string): (r: Option<int>)
    ensures r.Some? ==> 0 <= r.value < MinutesPerDay
  {
    var colon := if |s| >= 2 && s[1] == ':' then 1 else if |s| >= 3 && s[2] == ':' then 2 else 0;
    if colon == 0 then None
    else
      match (ParseHour(s[..colon]), ParseMinute(s[colon + 1..]))
      case (Some(h), Some(m)) => Some(60 * h + m)
      case _ => None
  }

  /** Two zero-padded decimal digits, as `%H` and `%M` print them. */
  function Pad2(n: nat): (s: string)
    requires n < 100
    ensures |s| == 2 && IsDigit(s[0]) && IsDigit(s[1])
    ensures 10 * DigitValue(s[0]) + DigitValue(s[1]) == n
  {
    [('0' as int + n / 10) as char, ('0' as int + n % 10) as char]
  }

  /** `strftime('%H:%M')` of the instant `minutes` after midnight of the parse day. */
  function FormatClock(minutes: int): (s: string)
    ensures |s| == 5 && s[2] == ':'
  {
    Pad2((minutes / 60) % 24) + ":" + Pad2(minutes % 60)
  }

  /** What the splitter reads a time cell as: text parsed as `%H:%M`, anything else unparseable. */
  function ClockOf(v: Value): (r: Option<int>)
    ensures r.Some? ==> v.Text? && r == ParseClock(v.s)
  {
    if v.Text? then ParseClock(v.s) else None
  }

  /**
   * `parse_time_duration`: minutes from `startTime` to `endTime`, or 0 when
   * either fails to parse. Both lie on one day, so the value is in
   * (-1440, 1440) and is negative when the end precedes the start.
   */
  function ParseTimeDuration(startTime: Value, endTime: Value): (d: int)
    ensures -MinutesPerDay < d < MinutesPerDay
    ensures d != 0 ==> ClockOf(startTime).Some? && ClockOf(endTime).Some?
  {
    match (ClockOf(startTime), ClockOf(endTime))
    case (Some(s), Some(e)) => e - s
    case _ => 0
  }

  /** Printing a time of day and parsing it back gives the same minute. */
  lemma ParseFormatClock(minutes: int)
    requires 0 <= minutes < MinutesPerDay
    ensures ParseClock(FormatClock(minutes)) == Some(minutes)
  {
    var s := FormatClock(minutes);
    var h, m := minutes / 60, minutes % 60;
    assert s[..2] == Pad2(h);
    assert s[3..] == Pad2(m);
    assert ParseHour(s[..2]) == Some(h);
    assert ParseMinute(s[3..]) == Some(m);
  }

  /** A time cell holding a printed time of day reads back as that time. */
  lemma ClockOfFormat(minutes: int)
    requires 0 <= minutes < MinutesPerDay
    ensures ClockOf(Text(FormatClock(minutes))) == Some(minutes)
  {
    ParseFormatClock(minutes);
  }

  /** A zero-padded `HH:MM` string is exactly what `strftime` prints for its own parse. */
  lemma FormatParseClock(s: string)
    requires |s| == 5 && ParseClock(s).Some?
    ensures FormatClock(ParseClock(s).value) == s
  {
    var v := ParseClock(s).value;
    assert s[2] == ':';
    var h, m := ParseHour(s[..2]).value, ParseMinute(s[3..]).value;
    assert v == 60 * h + m;
    assert v / 60 == h && v % 60 == m;
    var f := FormatClock(v);
    assert f[0] == s[0] && f[1] == s[1] && f[3] == s[3] && f[4] == s[4];
  }

  /** `parse_time_duration` on two printed times of day is their difference. */
  lemma DurationOfClocks(start: int, end: int)
    requires 0 <= start < MinutesPerDay && 0 <= end < MinutesPerDay
    ensures ParseTimeDuration(Text(FormatClock(start)), Text(FormatClock(end))) == end - start
  {
    ParseFormatClock(start);
    ParseFormatClock(end);
  }

  /** The fail-soft rule: the duration is 0 exactly when a time fails to parse or the two times are equal. */
  lemma DurationOfUnparseable(startTime: Value, endTime: Value)
    ensures ParseTimeDuration(startTime, endTime) == 0 <==>
      ClockOf(startTime).None? || ClockOf(endTime).None? || ClockOf(startTime) == ClockOf(endTime)
  {
  }
}
