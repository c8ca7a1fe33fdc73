/** The relative-time label of a notification card. */
module NotificationCard {
  import opened Wrappers
  import Decimal

  const MinuteMs := 60000
  const HourMs := 3600000
  const DayMs := 86400000

  /** formatTimestamp. `date` is the notification's time in milliseconds,
      or `None` when its timestamp does not parse as a date; `now` is the
      clock. Minutes, hours and days are successive floor divisions (for a
      positive divisor Dafny's `/` is `Math.floor` of the quotient). An
      unparseable date makes every count NaN, so no comparison holds.
      By elapsed time: under an hour a minutes label (negative for a time
      in the future), under a day an hours label, under two days
      "Yesterday", and a days label from then on. */
  function FormatTimestamp(date: Option<int>, now: int): (r: string)
    ensures date.None? ==> r == "NaN days ago"
    ensures date.Some? && now - date.value < HourMs ==> EndsWith(r, " min ago")
    ensures date.Some? && HourMs <= now - date.value < DayMs ==> EndsWith(r, " hours ago")
    ensures date.Some? && DayMs <= now - date.value < 2 * DayMs ==> r == "Yesterday"
    ensures date.Some? && 2 * DayMs <= now - date.value ==> EndsWith(r, " days ago")
  {
    match date
    case None => "NaN days ago"
    case Some(d) =>
      var diff := now - d;
      var minutes := diff / 60000;
      var hours := minutes / 60;
      var days := hours / 24;
      FloorChain(diff);
      if minutes < 60 then Decimal.IntToString(minutes) + " min ago"
      else if hours < 24 then Decimal.IntToString(hours) + " hours ago"
      else if days == 1 then "Yesterday"
      else Decimal.IntToString(days) + " days ago"
  }

  predicate EndsWith(s: string, suffix: string)
  {
    |suffix| <= |s| && s[|s| - |suffix|..] == suffix
  }

  /** The nested floors equal single floors by the hour and by the day. */
  lemma FloorChain(diff: int)
    ensures diff / 60000 / 60 == diff / HourMs
    ensures diff / 60000 / 60 / 24 == diff / DayMs
  {
    var m := diff / 60000;
    var h := m / 60;
    var d := h / 24;
    assert m * 60000 <= diff < m * 60000 + 60000;
    assert h * 60 <= m < h * 60 + 60;
    assert d * 24 <= h < d * 24 + 24;
    assert h * HourMs <= diff < h * HourMs + HourMs;
    assert d * DayMs <= diff < d * DayMs + DayMs;
    FloorUnique(diff, HourMs, h);
    FloorUnique(diff, DayMs, d);
  }

  lemma FloorUnique(x: int, k: int, q: int)
    requires k > 0 && q * k <= x < q * k + k
    ensures x / k == q
  {
    var r := x / k;
    assert r * k <= x < r * k + k;
    MulOrder(r, q, k);
    MulOrder(q, r, k);
  }

  lemma MulOrder(a: int, b: int, k: int)
    requires k > 0
    ensures a < b ==> a * k + k <= b * k
  {
    if a < b {
      MulMonotone(a + 1, b, k);
    }
  }

  lemma MulMonotone(a: int, b: int, k: int)
    requires a <= b && k > 0
    ensures a * k <= b * k
  {
  }

  /** Under an hour ago: "m min ago" for the m whole minutes elapsed. */
  lemma MinutesLabel(date: int, now: int, m: nat)
    requires m < 60 && m * MinuteMs <= now - date < (m + 1) * MinuteMs
    ensures FormatTimestamp(Some(date), now) == Decimal.NatToString(m) + " min ago"
  {
    FloorUnique(now - date, 60000, m);
  }

  /** A date in the future: the minutes branch with a negative, floored
      count. */
  lemma FutureLabel(date: int, now: int, m: int)
    requires m < 0 && m * MinuteMs <= now - date < (m + 1) * MinuteMs
    ensures FormatTimestamp(Some(date), now) == "-" + Decimal.NatToString(-m) + " min ago"
  {
    FloorUnique(now - date, 60000, m);
  }

  /** One to twenty-three hours ago: "h hours ago". */
  lemma HoursLabel(date: int, now: int, h: nat)
    requires 1 <= h < 24 && h * HourMs <= now - date < (h + 1) * HourMs
    ensures FormatTimestamp(Some(date), now) == Decimal.NatToString(h) + " hours ago"
  {
    FloorChain(now - date);
    FloorUnique(now - date, HourMs, h);
    assert (now - date) / 60000 >= 60;
  }

  /** Between one and two days ago: "Yesterday". */
  lemma YesterdayLabel(date: int, now: int)
    requires DayMs <= now - date < 2 * DayMs
    ensures FormatTimestamp(Some(date), now) == "Yesterday"
  {
    FloorChain(now - date);
    FloorUnique(now - date, DayMs, 1);
    var h := (now - date) / HourMs;
    assert h * HourMs <= now - date < h * HourMs + HourMs;
  }

  /** Two days or more: "d days ago" for the d whole days elapsed. */
  lemma DaysLabel(date: int, now: int, d: nat)
    requires 2 <= d && d * DayMs <= now - date < (d + 1) * DayMs
    ensures FormatTimestamp(Some(date), now) == Decimal.NatToString(d) + " days ago"
  {
    FloorChain(now - date);
    FloorUnique(now - date, DayMs, d);
    var h := (now - date) / HourMs;
    assert h / 24 == d;
  }

  /** A timestamp that is not a date, such as the "Just now" label, gives
      NaN counts and falls through every test. */
  lemma UnparseableDateLabel(now: int)
    ensures FormatTimestamp(None, now) == "NaN days ago"
  {
  }
}
