/**
  The purchase timestamp of an ingested row and its rendering as a store
  `event_time` with the pattern `%Y-%m-%dT%H:%M:%SZ`. The row's wall-clock
  fields are declared UTC as they are (the timezone is replaced, not
  converted), so rendering depends on the fields alone.
 */
module EventTime {
  import Text

  datatype Timestamp = Timestamp(
    year: int, month: int, day: int,
    hour: int, minute: int, second: int,
    nanosecond: int)

  predicate IsLeapYear(y: int) {
    y % 4 == 0 && (y % 100 != 0 || y % 400 == 0)
  }

  function DaysInMonth(y: int, m: int): int
    requires 1 <= m <= 12
  {
    if m == 2 then (if IsLeapYear(y) then 29 else 28)
    else if m == 4 || m == 6 || m == 9 || m == 11 then 30
    else 31
  }

  /** A calendar date and time of day as a timestamp can carry it. */
  predicate Valid(t: Timestamp) {
    && 1 <= t.year <= 9999
    && 1 <= t.month <= 12
    && 1 <= t.day <= DaysInMonth(t.year, t.month)
    && 0 <= t.hour < 24
    && 0 <= t.minute < 60
    && 0 <= t.second < 60
    && 0 <= t.nanosecond < 1_000_000_000
  }

  /** Chronological order: `a` is not later than `b`. */
  predicate NotAfter(a: Timestamp, b: Timestamp) {
    if a.year != b.year then a.year < b.year
    else if a.month != b.month then a.month < b.month
    else if a.day != b.day then a.day < b.day
    else if a.hour != b.hour then a.hour < b.hour
    else if a.minute != b.minute then a.minute < b.minute
    else if a.second != b.second then a.second < b.second
    else a.nanosecond <= b.nanosecond
  }

  /** The tens and units digits of a two-digit field. */
  function Tens(n: nat): char requires n < 100 { Text.DigitChar(n / 10) }
  function Units(n: nat): char requires n < 100 { Text.DigitChar(n % 10) }

  /** `%m`, `%d`, `%H`, `%M` and `%S` render a field as its tens and units digits, zero-padded. */
  lemma TwoDigitsInjective(a: nat, b: nat)
    requires a < 100 && b < 100 && Tens(a) == Tens(b) && Units(a) == Units(b)
    ensures a == b
  {
    assert Text.DigitValue(Tens(a)) == a / 10 && Text.DigitValue(Units(a)) == a % 10;
    assert Text.DigitValue(Tens(b)) == b / 10 && Text.DigitValue(Units(b)) == b % 10;
  }

  /**
    `strftime("%Y-%m-%dT%H:%M:%SZ")`. `%Y` is the year's decimal digits, not
    padded (the C library's rendering); sub-second digits are dropped.
   */
  function Format(t: Timestamp): (s: string)
    requires Valid(t)
    ensures |s| == |Text.NatToString(t.year)| + 16
    ensures s[..|Text.NatToString(t.year)|] == Text.NatToString(t.year)
  {
    Text.NatToString(t.year) + [
      '-', Tens(t.month), Units(t.month),
      '-', Tens(t.day), Units(t.day),
      'T', Tens(t.hour), Units(t.hour),
      ':', Tens(t.minute), Units(t.minute),
      ':', Tens(t.second), Units(t.second),
      'Z']
  }

  /** The fields of a rendering with a four-digit year, by position. */
  lemma FormatPieces(t: Timestamp)
    requires Valid(t) && 1000 <= t.year
    ensures var s := Format(t);
      && |s| == 20
      && s[..4] == Text.NatToString(t.year)
      && s[4] == '-' && s[5] == Tens(t.month) && s[6] == Units(t.month)
      && s[7] == '-' && s[8] == Tens(t.day) && s[9] == Units(t.day)
      && s[10] == 'T' && s[11] == Tens(t.hour) && s[12] == Units(t.hour)
      && s[13] == ':' && s[14] == Tens(t.minute) && s[15] == Units(t.minute)
      && s[16] == ':' && s[17] == Tens(t.second) && s[18] == Units(t.second)
      && s[19] == 'Z'
  {
    Text.NatToStringFourDigits(t.year);
  }

  /**
    The `event_time` of a four-digit year is 20 characters, `YYYY-MM-DDTHH:MM:SSZ`:
    the separators at 4, 7, 10, 13, 16 and 19 and a decimal digit everywhere else.
   */
  lemma FormatShape(t: Timestamp)
    requires Valid(t) && 1000 <= t.year
    ensures var s := Format(t);
      && |s| == 20
      && s[4] == '-' && s[7] == '-' && s[10] == 'T' && s[13] == ':' && s[16] == ':' && s[19] == 'Z'
      && forall i :: 0 <= i < 20 && i !in {4, 7, 10, 13, 16, 19} ==> Text.IsDigit(s[i])
  {
    FormatPieces(t);
    var s := Format(t);
    forall i | 0 <= i < 4
      ensures Text.IsDigit(s[i])
    {
      assert s[i] == s[..4][i];
    }
  }

  /**
    Rendering keeps second precision: two timestamps with four-digit years
    render alike exactly when they agree on every field down to the second.
   */
  lemma FormatInjectiveToTheSecond(a: Timestamp, b: Timestamp)
    requires Valid(a) && Valid(b) && 1000 <= a.year && 1000 <= b.year
    ensures Format(a) == Format(b) <==>
      (a.year, a.month, a.day, a.hour, a.minute, a.second) == (b.year, b.month, b.day, b.hour, b.minute, b.second)
  {
    if Format(a) == Format(b) {
      FormatPieces(a);
      FormatPieces(b);
      Text.NatToStringInjective(a.year, b.year);
      TwoDigitsInjective(a.month, b.month);
      TwoDigitsInjective(a.day, b.day);
      TwoDigitsInjective(a.hour, b.hour);
      TwoDigitsInjective(a.minute, b.minute);
      TwoDigitsInjective(a.second, b.second);
    }
  }
}
