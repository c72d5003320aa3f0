/** The formatting half of the timestamp utility, `format_timestamp`. */
module Display {
  import opened Text
  import opened Timestamps

  /** `%B` in the C locale. */
  const MonthNames: seq<string> := ["January", "February", "March", "April", "May", "June",
    "July", "August", "September", "October", "November", "December"]

  function MonthName(month: int): (name: string)
    requires 1 <= month <= 12
    ensures 3 <= |name| <= 9 && ' ' !in name
  {
    MonthNames[month - 1]
  }

  /**
   * The English ordinal rule: 11 to 20 take "th"; otherwise
   * the last digit decides (1 "st", 2 "nd", 3 "rd", anything else "th").
   */
  function OrdinalRule(day: int): string {
    if 11 <= day <= 20 then "th"
    else if day % 10 == 1 then "st"
    else if day % 10 == 2 then "nd"
    else if day % 10 == 3 then "rd"
    else "th"
  }

  /** The suffix as the source computes it, with its two ranges and the table index. */
  function Suffix(day: int): (suffix: string)
    requires 1 <= day <= 31
    ensures suffix == OrdinalRule(day)
  {
    if 4 <= day <= 20 || 24 <= day <= 30 then "th"
    else if day % 10 <= 3 then ["st", "nd", "rd"][day % 10 - 1]
    else "th"
  }

  /** Every day outside the two "th" ranges ends in 1, 2 or 3, so the table index is 0, 1 or 2. */
  lemma SuffixIndexInRange(day: int)
    requires 1 <= day <= 31 && !(4 <= day <= 20 || 24 <= day <= 30)
    ensures 1 <= day % 10 <= 3
    ensures day == 1 || day == 2 || day == 3 || day == 21 || day == 22 || day == 23 || day == 31
  {
  }

  /** The suffix of each day of the month, spelled out. */
  lemma SuffixTable(day: int)
    requires 1 <= day <= 31
    ensures Suffix(day) == "st" <==> day == 1 || day == 21 || day == 31
    ensures Suffix(day) == "nd" <==> day == 2 || day == 22
    ensures Suffix(day) == "rd" <==> day == 3 || day == 23
    ensures Suffix(day) == "th" <==> !(day in {1, 2, 3, 21, 22, 23, 31})
  {
  }

  /** `dt.hour % 12 or 12`: the hour on a 12-hour clock. */
  function DisplayHour(hour: int): (h: int)
    requires 0 <= hour < 24
    ensures 1 <= h <= 12
    ensures h % 12 == hour % 12
  {
    if hour % 12 == 0 then 12 else hour % 12
  }

  function Meridiem(hour: int): (m: string)
    ensures m == "AM" <==> hour < 12
    ensures m == "PM" <==> hour >= 12
  {
    if hour < 12 then "AM" else "PM"
  }

  /** The 12-hour hour and the meridiem together determine the 24-hour hour. */
  lemma TwelveHourClockInverse(hour: int)
    requires 0 <= hour < 24
    ensures (if Meridiem(hour) == "AM" then 0 else 12) + DisplayHour(hour) % 12 == hour
    ensures hour == 0 ==> DisplayHour(hour) == 12
    ensures hour == 12 ==> DisplayHour(hour) == 12
    ensures hour == 13 ==> DisplayHour(hour) == 1
  {
  }

  /** `%d<suffix> `: the zero-padded day, its suffix and a space. */
  function DayPart(dt: Instant): (p: string)
    ensures |p| == 5 && p[..2] == Padded(dt.day, 2) && p[2..4] == Suffix(dt.day) && p[4] == ' '
  {
    Padded(dt.day, 2) + Suffix(dt.day) + " "
  }

  /** `%B %Y - <h>`: month name, year, separator and the unpadded 12-hour hour. */
  function MiddlePart(dt: Instant): (p: string)
    ensures var m := |MonthName(dt.month)|;
      && |p| >= m + 9
      && p[..m] == MonthName(dt.month) && p[m] == ' '
      && p[m + 1..m + 5] == Padded(dt.year, 4) && p[m + 5..m + 8] == " - "
      && p[m + 8..] == Decimal(DisplayHour(dt.hour))
  {
    var name := MonthName(dt.month);
    var p := name + " " + Padded(dt.year, 4) + " - " + Decimal(DisplayHour(dt.hour));
    var m := |name|;
    assert p[..m] == name;
    assert p[m + 1..m + 5] == Padded(dt.year, 4);
    assert p[m + 5..m + 8] == " - ";
    assert p[m + 8..] == Decimal(DisplayHour(dt.hour));
    p
  }

  /** `:<mm> <AM|PM> UTC`. */
  function TailPart(dt: Instant): (p: string)
    ensures |p| == 10 && p[0] == ':' && p[1..3] == Padded(dt.minute, 2) && p[3] == ' '
    ensures p[4..6] == Meridiem(dt.hour) && p[6..] == " UTC"
  {
    ":" + Padded(dt.minute, 2) + " " + Meridiem(dt.hour) + " UTC"
  }

  /**
   * `"<DD><suffix> <Month> <YYYY> - <h>:<mm> <AM|PM> UTC"`. The day is the
   * zero-padded `%d`, so the first of the month reads "01st".
   */
  function FormatTimestamp(dt: Instant): (s: string)
    ensures |s| >= |MonthName(dt.month)| + 24
    ensures s[..2] == Padded(dt.day, 2) && s[2..4] == Suffix(dt.day) && s[4] == ' '
    ensures var m := |MonthName(dt.month)|;
      && s[5..5 + m] == MonthName(dt.month) && s[5 + m] == ' '
      && s[6 + m..10 + m] == Padded(dt.year, 4) && s[10 + m..13 + m] == " - "
      && s[13 + m..|s| - 10] == Decimal(DisplayHour(dt.hour))
    ensures s[|s| - 10] == ':' && s[|s| - 9..|s| - 7] == Padded(dt.minute, 2) && s[|s| - 7] == ' '
    ensures s[|s| - 6..|s| - 4] == (if dt.hour < 12 then "AM" else "PM")
    ensures s[|s| - 4..] == " UTC"
  {
    var lead, middle, tail := DayPart(dt), MiddlePart(dt), TailPart(dt);
    Layout(lead, middle, tail, |MonthName(dt.month)|);
    lead + middle + tail
  }

  /** `%d` pads: the rendering starts with '0' exactly on days 1 to 9. */
  lemma DayZeroPadded(dt: Instant)
    ensures FormatTimestamp(dt)[0] == '0' <==> dt.day < 10
  {
    var s := FormatTimestamp(dt);
    assert s[0] == Padded(dt.day, 2)[0];
    assert Padded(dt.day, 2)[..1] == Padded(dt.day / 10, 1);
  }

  /** The first of a month is rendered "01st", not "1st". */
  lemma FirstOfMonthReads01st(dt: Instant)
    requires dt.day == 1
    ensures FormatTimestamp(dt)[..4] == "01st"
  {
    var s := FormatTimestamp(dt);
    assert Padded(1, 2) == "01";
    assert s[..4] == s[..2] + s[2..4];
  }

  /** Distinct months have distinct names. */
  lemma MonthNamesDistinct(a: int, b: int)
    requires 1 <= a <= 12 && 1 <= b <= 12 && MonthName(a) == MonthName(b)
    ensures a == b
  {
  }

  /** The index of the first space in `s` at or after `i`, or `|s|` when there is none. */
  function SpaceFrom(s: string, i: nat): (k: nat)
    ensures i <= k || |s| < i
    decreases |s| - i
  {
    if i >= |s| then |s| else if s[i] == ' ' then i else SpaceFrom(s, i + 1)
  }

  /** A space-free word followed by a space ends at the first space. */
  lemma {:induction false} WordEndsAtSpace(s: string, i: nat, word: string)
    requires i + |word| < |s| && s[i..i + |word|] == word && ' ' !in word && s[i + |word|] == ' '
    ensures SpaceFrom(s, i) == i + |word|
    decreases |word|
  {
    if word != [] {
      assert s[i] == word[0];
      assert s[i + 1..i + 1 + |word[1..]|] == word[1..];
      WordEndsAtSpace(s, i + 1, word[1..]);
    }
  }

  /** Equal renderings are made of equal day parts, middle parts and tails. */
  lemma FormatDeterminesParts(a: Instant, b: Instant)
    requires FormatTimestamp(a) == FormatTimestamp(b)
    ensures DayPart(a) == DayPart(b) && MiddlePart(a) == MiddlePart(b) && TailPart(a) == TailPart(b)
  {
    SplitEqual(DayPart(a), MiddlePart(a), TailPart(a), DayPart(b), MiddlePart(b), TailPart(b));
  }

  /** Two three-piece concatenations with equal outer lengths split into equal pieces. */
  lemma SplitEqual(a1: string, b1: string, c1: string, a2: string, b2: string, c2: string)
    requires |a1| == |a2| && |c1| == |c2| && a1 + b1 + c1 == a2 + b2 + c2
    ensures a1 == a2 && b1 == b2 && c1 == c2
  {
    var s := a1 + b1 + c1;
    assert a1 == s[..|a1|] == a2;
    assert c1 == s[|s| - |c1|..] == c2;
    assert b1 == s[|a1|..|s| - |c1|] == b2;
  }

  /** Equal day parts share the day. */
  lemma DayPartDeterminesDay(a: Instant, b: Instant)
    requires DayPart(a) == DayPart(b)
    ensures a.day == b.day
  {
    PaddedInjective(a.day, b.day, 2);
  }

  /** Equal tails share the minute and the half of the day. */
  lemma TailPartDeterminesMinute(a: Instant, b: Instant)
    requires TailPart(a) == TailPart(b)
    ensures a.minute == b.minute && (a.hour < 12 <==> b.hour < 12)
  {
    PaddedInjective(a.minute, b.minute, 2);
  }

  /** Equal middle parts name the same month. */
  lemma MiddlePartDeterminesMonth(a: Instant, b: Instant)
    requires MiddlePart(a) == MiddlePart(b)
    ensures a.month == b.month
  {
    var p := MiddlePart(a);
    WordEndsAtSpace(p, 0, MonthName(a.month));
    WordEndsAtSpace(p, 0, MonthName(b.month));
    assert MonthName(a.month) == p[..SpaceFrom(p, 0)] == MonthName(b.month);
    MonthNamesDistinct(a.month, b.month);
  }

  /** Equal middle parts of the same month share the year and the shown 12-hour hour. */
  lemma MiddlePartDeterminesYearAndShownHour(a: Instant, b: Instant)
    requires MiddlePart(a) == MiddlePart(b) && a.month == b.month
    ensures a.year == b.year && DisplayHour(a.hour) == DisplayHour(b.hour)
  {
    var m := |MonthName(a.month)|;
    PaddedInjective(a.year, b.year, 4);
    DecimalInjective(DisplayHour(a.hour), DisplayHour(b.hour));
  }

  /** The 12-hour hour and the meridiem recover the hour. */
  lemma SameShownHour(a: int, b: int)
    requires 0 <= a < 24 && 0 <= b < 24
    requires DisplayHour(a) == DisplayHour(b) && (a < 12 <==> b < 12)
    ensures a == b
  {
    TwelveHourClockInverse(a);
    TwelveHourClockInverse(b);
  }

  lemma DecimalInjective(x: nat, y: nat)
    requires Decimal(x) == Decimal(y)
    ensures x == y
  {
  }

  /** A zero-padded number of fixed width spells different numbers differently. */
  lemma PaddedInjective(x: nat, y: nat, width: nat)
    requires x < Pow10(width) && y < Pow10(width) && Padded(x, width) == Padded(y, width)
    ensures x == y
  {
  }

  /** The rendering determines every field but the second: formatting is injective up to seconds. */
  lemma FormatDeterminesAllButSeconds(a: Instant, b: Instant)
    requires FormatTimestamp(a) == FormatTimestamp(b)
    ensures a.year == b.year && a.month == b.month && a.day == b.day
    ensures a.hour == b.hour && a.minute == b.minute
  {
    FormatDeterminesParts(a, b);
    DayPartDeterminesDay(a, b);
    TailPartDeterminesMinute(a, b);
    MiddlePartDeterminesMonth(a, b);
    MiddlePartDeterminesYearAndShownHour(a, b);
    SameShownHour(a.hour, b.hour);
  }

  /** Where the day part, the middle part and the tail sit in the rendering. */
  lemma Layout(a: string, b: string, c: string, m: nat)
    requires |a| == 5 && |b| >= m + 9 && |c| == 10
    ensures var s := a + b + c;
      && |s| == |b| + 15
      && s[..2] == a[..2] && s[2..4] == a[2..4] && s[4] == a[4]
      && s[5..5 + m] == b[..m] && s[5 + m] == b[m] && s[6 + m..10 + m] == b[m + 1..m + 5]
      && s[10 + m..13 + m] == b[m + 5..m + 8] && s[13 + m..|s| - 10] == b[m + 8..]
      && s[|s| - 10] == c[0] && s[|s| - 9..|s| - 7] == c[1..3] && s[|s| - 7] == c[3]
      && s[|s| - 6..|s| - 4] == c[4..6] && s[|s| - 4..] == c[6..]
  {
    var s := a + b + c;
    assert s[..2] == a[..2] && s[2..4] == a[2..4];
    assert s[5..5 + m] == b[..m] && s[6 + m..10 + m] == b[m + 1..m + 5];
    assert s[10 + m..13 + m] == b[m + 5..m + 8] && s[13 + m..|s| - 10] == b[m + 8..];
    assert s[|s| - 9..|s| - 7] == c[1..3] && s[|s| - 6..|s| - 4] == c[4..6] && s[|s| - 4..] == c[6..];
  }
}
