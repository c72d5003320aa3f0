/**
 * Instants and the parsing half of the timestamp utility,
 * `parse_github_timestamp`.
 */
module Timestamps {
  import opened Optional
  import opened Text

  /** A calendar date and a time of day, in UTC, to the second. */
  datatype DateTime = DateTime(year: int, month: int, day: int, hour: int, minute: int, second: int) {

    /** The ranges a Python `datetime` enforces. */
    predicate Valid() {
      && 1 <= year <= 9999
      && 1 <= month <= 12
      && 1 <= day <= DaysInMonth(year, month)
      && 0 <= hour < 24
      && 0 <= minute < 60
      && 0 <= second < 60
    }

    /** Every field fits the width it is written in. */
    predicate Representable() {
      && 0 <= year < 10000
      && 0 <= month < 100
      && 0 <= day < 100
      && 0 <= hour < 100
      && 0 <= minute < 100
      && 0 <= second < 100
    }
  }

  /** The instants a Python `datetime` can hold (microseconds are not modelled). */
  type Instant = dt: DateTime | dt.Valid() witness DateTime(1970, 1, 1, 0, 0, 0)

  /** Gregorian leap years. */
  predicate IsLeap(year: int) {
    year % 4 == 0 && (year % 100 != 0 || year % 400 == 0)
  }

  function DaysInMonth(year: int, month: int): (days: int)
    requires 1 <= month <= 12
    ensures 28 <= days <= 31
    ensures days == 29 <==> month == 2 && IsLeap(year)
    ensures days == 28 <==> month == 2 && !IsLeap(year)
    ensures days == 30 <==> month == 4 || month == 6 || month == 9 || month == 11
  {
    if month == 2 then (if IsLeap(year) then 29 else 28)
    else if month == 4 || month == 6 || month == 9 || month == 11 then 30
    else 31
  }

  /** The UTC offset the parser accepts once `Z` has been rewritten. */
  const UtcOffset: string := "+00:00"

  /** `YYYY-MM-DDTHH:MM:SS`, the part of the timestamp before the zone designator. */
  function Stem(dt: DateTime): (s: string)
    requires dt.Representable()
    ensures |s| == 19 && 'Z' !in s
  {
    var s := Padded(dt.year, 4) + "-" + Padded(dt.month, 2) + "-" + Padded(dt.day, 2) + "T"
      + Padded(dt.hour, 2) + ":" + Padded(dt.minute, 2) + ":" + Padded(dt.second, 2);
    assert forall i :: 0 <= i < |s| ==> IsDigit(s[i]) || s[i] in "-T:";
    s
  }

  /** The form GitHub sends, e.g. `2021-04-01T21:30:00Z`. */
  function GitHubString(dt: DateTime): string
    requires dt.Representable()
  {
    Stem(dt) + "Z"
  }

  /** The form `datetime.fromisoformat` is handed after `Z` is rewritten. */
  function IsoString(dt: DateTime): string
    requires dt.Representable()
  {
    Stem(dt) + UtcOffset
  }

  /** `t` has the layout `DDDD-DD-DDTDD:DD:DD+00:00`, D a decimal digit. */
  predicate Shaped(t: string) {
    && |t| == 25
    && AllDigits(t[..4]) && t[4] == '-'
    && AllDigits(t[5..7]) && t[7] == '-'
    && AllDigits(t[8..10]) && t[10] == 'T'
    && AllDigits(t[11..13]) && t[13] == ':'
    && AllDigits(t[14..16]) && t[16] == ':'
    && AllDigits(t[17..19]) && t[19..] == UtcOffset
  }

  /** The fields a shaped string spells out, whether or not they form a valid date. */
  function FieldsOf(t: string): (dt: DateTime)
    requires Shaped(t)
    ensures dt.Representable()
  {
    PaddedOfDigits(t[..4]);
    PaddedOfDigits(t[5..7]);
    PaddedOfDigits(t[8..10]);
    PaddedOfDigits(t[11..13]);
    PaddedOfDigits(t[14..16]);
    PaddedOfDigits(t[17..19]);
    DateTime(DigitsValue(t[..4]), DigitsValue(t[5..7]), DigitsValue(t[8..10]),
             DigitsValue(t[11..13]), DigitsValue(t[14..16]), DigitsValue(t[17..19]))
  }

  /** Rendering a representable date-time gives a shaped string that spells it out. */
  lemma IsoStringShaped(dt: DateTime)
    requires dt.Representable()
    ensures Shaped(IsoString(dt)) && FieldsOf(IsoString(dt)) == dt
  {
    var t := IsoString(dt);
    assert t[..4] == Padded(dt.year, 4);
    assert t[5..7] == Padded(dt.month, 2);
    assert t[8..10] == Padded(dt.day, 2);
    assert t[11..13] == Padded(dt.hour, 2);
    assert t[14..16] == Padded(dt.minute, 2);
    assert t[17..19] == Padded(dt.second, 2);
    assert t[19..] == UtcOffset;
  }

  /** A shaped string is the rendering of the fields it spells out. */
  lemma ShapedIsIsoString(t: string)
    requires Shaped(t)
    ensures IsoString(FieldsOf(t)) == t
  {
    var dt := FieldsOf(t);
    PaddedOfDigits(t[..4]);
    PaddedOfDigits(t[5..7]);
    PaddedOfDigits(t[8..10]);
    PaddedOfDigits(t[11..13]);
    PaddedOfDigits(t[14..16]);
    PaddedOfDigits(t[17..19]);
    assert t == t[..4] + [t[4]] + t[5..7] + [t[7]] + t[8..10] + [t[10]] + t[11..13] + [t[13]]
      + t[14..16] + [t[16]] + t[17..19] + t[19..];
  }

  /**
   * `datetime.fromisoformat` restricted to the one layout GitHub produces:
   * a shaped string whose fields form a valid calendar date and time.
   */
  function ParseIso(t: string): (r: Option<Instant>)
    ensures r.Some? ==> t == IsoString(r.value)
    ensures r.None? ==> !Shaped(t) || !FieldsOf(t).Valid()
  {
    if Shaped(t) && FieldsOf(t).Valid() then
      ShapedIsIsoString(t);
      Some(FieldsOf(t))
    else None
  }

  /** The parser reads back exactly the date-time a representable rendering spells out. */
  lemma ParseIsoRoundTrip(dt: DateTime)
    requires dt.Representable()
    ensures ParseIso(IsoString(dt)) == if dt.Valid() then Some(dt) else None
  {
    IsoStringShaped(dt);
  }

  /**
   * `parse_github_timestamp`: an absent or empty string, or one that does not
   * parse once every `Z` is rewritten to `+00:00`, falls back to `now`.
   */
  function ParseGitHubTimestamp(ts: Option<string>, now: Instant): (r: Instant)
    ensures ts.None? || ts == Some("") ==> r == now
    ensures r == now || (ts.Some? && ReplaceAll(ts.value, "Z", UtcOffset) == IsoString(r))
  {
    if ts.None? || ts.value == "" then now
    else match ParseIso(ReplaceAll(ts.value, "Z", UtcOffset))
      case Some(dt) => dt
      case None => now
  }

  /** Rewriting the zone designator turns the GitHub form into the ISO form. */
  lemma RewriteZone(dt: DateTime)
    requires dt.Representable()
    ensures ReplaceAll(GitHubString(dt), "Z", UtcOffset) == IsoString(dt)
  {
    ReplaceCharAppend(Stem(dt), "Z", "Z", UtcOffset);
    CharAbsent(Stem(dt), 'Z');
    ReplaceAllAbsent(Stem(dt), "Z", UtcOffset);
    assert "Z"[..1] == "Z" && "Z"[1..] == "";
  }

  /**
   * A timestamp in GitHub's form yields exactly the UTC date and time it
   * spells out when that is a valid calendar date and time, and `now` otherwise
   * (a 30th of February, a 24th hour, a 61st second).
   */
  lemma ParseGitHubRoundTrip(dt: DateTime, now: Instant)
    requires dt.Representable()
    ensures ParseGitHubTimestamp(Some(GitHubString(dt)), now) == if dt.Valid() then dt else now
  {
    RewriteZone(dt);
    ParseIsoRoundTrip(dt);
  }

  /** The `+00:00` form is accepted as well, since it passes the rewrite unchanged. */
  lemma ParseIsoFormAccepted(dt: Instant, now: Instant)
    ensures ParseGitHubTimestamp(Some(IsoString(dt)), now) == dt
  {
    CharAbsent(IsoString(dt), 'Z');
    ReplaceAllAbsent(IsoString(dt), "Z", UtcOffset);
    ParseIsoRoundTrip(dt);
  }

  /** Text that is not a timestamp falls back to `now`. */
  lemma UnparseableFallsBack(now: Instant)
    ensures ParseGitHubTimestamp(Some("not a date"), now) == now
  {
    CharAbsent("not a date", 'Z');
    ReplaceAllAbsent("not a date", "Z", UtcOffset);
  }

  /** The calendar is checked: 29 February parses exactly in leap years. */
  lemma LeapDay(year: int, now: Instant)
    requires 1 <= year <= 9999
    ensures ParseGitHubTimestamp(Some(GitHubString(DateTime(year, 2, 29, 0, 0, 0))), now)
      == if IsLeap(year) then DateTime(year, 2, 29, 0, 0, 0) else now
  {
    var dt := DateTime(year, 2, 29, 0, 0, 0);
    assert dt.Representable();
    assert dt.Valid() <==> IsLeap(year);
    ParseGitHubRoundTrip(dt, now);
  }
}
