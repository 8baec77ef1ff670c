/**
 * The relative-time label of a sensor reading (server/main.go): how long ago
 * the latest sample was taken, in whole minutes, hours or days.
 */
module Freshness {
  import opened Wrappers
  import Decimal

  /** `plural`: the suffix is dropped exactly when the count is one. */
  function Plural(number: int, part: string): (r: string)
    ensures number == 1 ==> r == ""
    ensures number != 1 ==> r == part
  {
    if number == 1 then "" else part
  }

  /** Go's integer division by a positive divisor: truncates toward zero. */
  function GoQuot(a: int, b: int): int
    requires b > 0
  {
    if a >= 0 then a / b else -((-a) / b)
  }

  /** The quotient is truncated toward zero: what it leaves out is less than one divisor. */
  lemma GoQuotTruncates(a: int, b: int)
    requires b > 0
    ensures 0 <= a ==> 0 <= GoQuot(a, b) * b <= a < GoQuot(a, b) * b + b
    ensures a < 0 ==> a <= GoQuot(a, b) * b <= 0 && GoQuot(a, b) * b - b < a
  {
    var n := if a < 0 then -a else a;
    var k, r := n / b, n % b;
    assert n == b * k + r && 0 <= r < b;
    DivNonNegative(n, b);
    MulNonNegative(b, k);
    assert GoQuot(a, b) * b == if a < 0 then -(b * k) else b * k;
  }

  lemma DivNonNegative(n: nat, b: int)
    requires b > 0
    ensures n / b >= 0
  {
  }

  lemma MulNonNegative(x: nat, y: nat)
    ensures x * y >= 0
  {
  }

  /** The band an elapsed time falls in, with the count shown for it. */
  datatype Age = UpToDate | MinutesAgo(n: nat) | HoursAgo(n: nat) | DaysOld(n: nat)

  /**
   * The banding of elapsed seconds. Minutes, hours and days are derived from
   * one another by truncating division, as the source does.
   */
  function AgeOf(elapsed: int): (a: Age)
    ensures a.UpToDate? <==> elapsed < 60
    ensures a.MinutesAgo? <==> 60 <= elapsed < 3600
    ensures a.HoursAgo? <==> 3600 <= elapsed < 86400
    ensures a.DaysOld? <==> 86400 <= elapsed
    ensures a.MinutesAgo? ==> a.n == elapsed / 60 && 1 <= a.n <= 59
    ensures a.HoursAgo? ==> a.n == elapsed / 3600 && 1 <= a.n <= 23
    ensures a.DaysOld? ==> a.n == elapsed / 86400 && a.n >= 1
  {
    var minutes := GoQuot(elapsed, 60);
    var hours := GoQuot(minutes, 60);
    var days := GoQuot(hours, 24);
    if elapsed < 60 then UpToDate
    else if minutes < 60 then MinutesAgo(minutes)
    else if hours < 24 then HoursAgo(hours)
    else DaysOld(days)
  }

  /** What follows the count in each band's text. The day band has no "ago". */
  function Unit(a: Age): (u: string)
    requires !a.UpToDate?
    ensures u != [] && u[0] == ' '
    ensures 's' in u <==> a.n != 1
  {
    match a
    case MinutesAgo(n) => " Minute" + Plural(n, "s") + " ago"
    case HoursAgo(n) => " Hour" + Plural(n, "s") + " ago"
    case DaysOld(n) => " Day" + Plural(n, "s")
  }

  /** The text the source formats for each band: `%d Minute%s ago` and so on. */
  function AgeText(a: Age): (text: string)
    ensures a.UpToDate? <==> text == "Up to date"
    ensures !a.UpToDate? ==>
      Decimal.LeadingDigits(text) == Decimal.Format(a.n) && Decimal.Value(Decimal.LeadingDigits(text)) == a.n
  {
    if a.UpToDate? then "Up to date"
    else
      Decimal.LeadingDigitsOfPrefix(Decimal.Format(a.n), Unit(a));
      Decimal.ValueOfFormat(a.n);
      Decimal.Format(a.n) + Unit(a)
  }

  /** Reads a label back into the band and count it shows. */
  function ReadAge(s: string): Option<Age> {
    if s == "Up to date" then Some(UpToDate)
    else
      var d := Decimal.LeadingDigits(s);
      if d == [] then None
      else
        var n := Decimal.Value(d);
        var unit := s[|d|..];
        if unit == Unit(MinutesAgo(n)) then Some(MinutesAgo(n))
        else if unit == Unit(HoursAgo(n)) then Some(HoursAgo(n))
        else if unit == Unit(DaysOld(n)) then Some(DaysOld(n))
        else None
  }

  /** A count followed by its unit reads back as that count and unit. */
  lemma ReadCountThenUnit(a: Age)
    requires !a.UpToDate?
    ensures var s := AgeText(a);
      && s != "Up to date"
      && Decimal.LeadingDigits(s) == Decimal.Format(a.n)
      && Decimal.Value(Decimal.Format(a.n)) == a.n
      && s[|Decimal.Format(a.n)|..] == Unit(a)
  {
    var d, unit := Decimal.Format(a.n), Unit(a);
    assert unit[0] == ' ';
    Decimal.LeadingDigitsOfPrefix(d, unit);
    Decimal.ValueOfFormat(a.n);
    assert (d + unit)[0] == d[0];
    assert (d + unit)[|d|..] == unit;
  }

  /** Every label reads back to the band and count it was made from. */
  lemma ReadAgeText(a: Age)
    ensures ReadAge(AgeText(a)) == Some(a)
  {
    if !a.UpToDate? {
      ReadCountThenUnit(a);
      var n := a.n;
      assert Unit(MinutesAgo(n))[1] == 'M';
      assert Unit(HoursAgo(n))[1] == 'H';
      assert Unit(DaysOld(n))[1] == 'D';
    }
  }

  /** Different bands or counts never share a label. */
  lemma AgeTextInjective(a: Age, b: Age)
    requires AgeText(a) == AgeText(b)
    ensures a == b
  {
    ReadAgeText(a);
    ReadAgeText(b);
  }

  /**
   * `TimeRelative`: the raw timestamp verbatim when it did not parse,
   * otherwise the label of the time elapsed between it and `now`.
   */
  function RelativeTime(parsed: Option<int>, raw: string, now: int): (text: string)
    ensures parsed.None? ==> text == raw
    ensures parsed.Some? ==> text == AgeText(AgeOf(now - parsed.value))
    ensures parsed.Some? ==> ReadAge(text) == Some(AgeOf(now - parsed.value))
  {
    match parsed
    case None => raw
    case Some(at) => ReadAgeText(AgeOf(now - at)); AgeText(AgeOf(now - at))
  }

  /** "Up to date" exactly when less than a minute has elapsed, clock skew included. */
  lemma UpToDateIff(at: int, raw: string, now: int)
    ensures RelativeTime(Some(at), raw, now) == "Up to date" <==> now - at < 60
  {
    ReadAgeText(UpToDate);
  }

  predicate EndsInAgo(s: string) {
    |s| >= 4 && s[|s| - 4..] == " ago"
  }

  lemma AgoInText(a: Age)
    ensures EndsInAgo(AgeText(a)) <==> a.MinutesAgo? || a.HoursAgo?
  {
    var text := AgeText(a);
    if a.DaysOld? {
      var unit := Unit(a);
      assert text[|text| - 1] == unit[|unit| - 1];
      assert text[|text| - 1] != 'o';
    } else if !a.UpToDate? {
      var d := Decimal.Format(a.n);
      var unit := (if a.MinutesAgo? then " Minute" else " Hour") + Plural(a.n, "s");
      assert text == (d + unit) + " ago";
    } else {
      assert text[|text| - 1] == 'e';
    }
  }

  /** The day band's label never ends in " ago"; the minute and hour bands' always do. */
  lemma AgoOnlyBelowOneDay(at: int, raw: string, now: int)
    ensures EndsInAgo(RelativeTime(Some(at), raw, now)) <==> 60 <= now - at < 86400
  {
    AgoInText(AgeOf(now - at));
  }

  /** The label depends only on the time elapsed since the timestamp. */
  lemma ElapsedLabel(at: int, raw: string, elapsed: int)
    ensures RelativeTime(Some(at), raw, at + elapsed) == AgeText(AgeOf(elapsed))
  {
    assert (at + elapsed) - at == elapsed;
  }

  /** Labels below a minute, including a timestamp from the future. */
  lemma UpToDateExamples(at: int, raw: string)
    ensures RelativeTime(Some(at), raw, at - 5) == "Up to date"
    ensures RelativeTime(Some(at), raw, at + 59) == "Up to date"
  {
  }

  /** Labels at the edges of the first minute. */
  lemma OneMinuteExamples(at: int, raw: string)
    ensures RelativeTime(Some(at), raw, at + 60) == "1 Minute ago"
    ensures RelativeTime(Some(at), raw, at + 119) == "1 Minute ago"
  {
    ElapsedLabel(at, raw, 60);
    ElapsedLabel(at, raw, 119);
    assert AgeOf(60) == AgeOf(119) == MinutesAgo(1);
    assert Decimal.Format(1) == "1";
    assert Unit(MinutesAgo(1)) == " Minute ago";
    assert AgeText(MinutesAgo(1)) == "1" + " Minute ago";
  }

  /** A count above one in the minute band takes the plural. */
  lemma TwoMinutesExample(at: int, raw: string)
    ensures RelativeTime(Some(at), raw, at + 120) == "2 Minutes ago"
  {
    ElapsedLabel(at, raw, 120);
    assert AgeOf(120) == MinutesAgo(2);
    assert Decimal.Format(2) == "2";
    assert Unit(MinutesAgo(2)) == " Minutes ago";
    assert AgeText(MinutesAgo(2)) == "2" + " Minutes ago";
  }

  /** The label at the start of the hour band. */
  lemma OneHourExample(at: int, raw: string)
    ensures RelativeTime(Some(at), raw, at + 3600) == "1 Hour ago"
  {
    ElapsedLabel(at, raw, 3600);
    assert AgeOf(3600) == HoursAgo(1);
    assert Decimal.Format(1) == "1";
    assert Unit(HoursAgo(1)) == " Hour ago";
    assert AgeText(HoursAgo(1)) == "1" + " Hour ago";
  }

  /** A count above one in the hour band takes the plural. */
  lemma TwoHoursExample(at: int, raw: string)
    ensures RelativeTime(Some(at), raw, at + 7200) == "2 Hours ago"
  {
    ElapsedLabel(at, raw, 7200);
    assert AgeOf(7200) == HoursAgo(2);
    assert Decimal.Format(2) == "2";
    assert Unit(HoursAgo(2)) == " Hours ago";
    assert AgeText(HoursAgo(2)) == "2" + " Hours ago";
  }

  /** The label at the start of the day band: no "ago". */
  lemma OneDayExample(at: int, raw: string)
    ensures RelativeTime(Some(at), raw, at + 86400) == "1 Day"
  {
    ElapsedLabel(at, raw, 86400);
    assert AgeOf(86400) == DaysOld(1);
    assert Decimal.Format(1) == "1";
    assert Unit(DaysOld(1)) == " Day";
    assert AgeText(DaysOld(1)) == "1" + " Day";
  }

  /** A count above one in the day band takes the plural. */
  lemma TwoDaysExample(at: int, raw: string)
    ensures RelativeTime(Some(at), raw, at + 172800) == "2 Days"
  {
    ElapsedLabel(at, raw, 172800);
    assert AgeOf(172800) == DaysOld(2);
    assert Decimal.Format(2) == "2";
    assert Unit(DaysOld(2)) == " Days";
    assert AgeText(DaysOld(2)) == "2" + " Days";
  }

  /** An unparsable timestamp, the empty one included, is shown as it is. */
  lemma UnparsedExamples(now: int)
    ensures RelativeTime(None, "", now) == ""
    ensures RelativeTime(None, "yesterday", now) == "yesterday"
  {
  }
}
