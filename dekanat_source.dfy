/**
  Reading a snapshot from the secondary database (dekanat.go): the liveness
  probe, the two single-row queries, the rewriting of the raw datetime text
  and its parse against the fixed Firebird layout, and the derivation of the
  education year.
 */
module DekanatSource {
  import opened Wrappers
  import opened Calendar
  import opened World
  import opened DbState
  import opened Numerals

  /** The layout the database's datetime text is parsed against. */
  const FirebirdTimeFormat := "2006-01-02T15:04:05"

  /** Education years before this one are rejected. */
  const EducationYearFloor := 2022

  /** A registration date before this month belongs to the previous education year. */
  const RegistrationCutoverMonth := 8

  /** A datetime before this month belongs to the previous education year. */
  const DatetimeCutoverMonth := 9

  // ---------------------------------------------------------------- layout

  /** `time.ParseInLocation("2006-01-02", s, loc)`: midnight of a calendar date. */
  function ParseDate(s: string): (r: Option<DateTime>)
    ensures r.Some? ==> Valid(r.value) && r.value.hour == 0 && r.value.minute == 0 && r.value.second == 0
    ensures r.Some? ==> |s| == 10
    ensures r.Some? ==> 0 <= r.value.year < 10000 && FormatDate(r.value) == s
  {
    if |s| == 10 && AllDigits(s[..4]) && s[4] == '-' && AllDigits(s[5..7]) && s[7] == '-' && AllDigits(s[8..]) then
      var t := DateTime(Number(s[..4]), Number(s[5..7]), Number(s[8..]), 0, 0, 0);
      Pad4Of(s[..4]);
      Pad2Of(s[5..7]);
      Pad2Of(s[8..]);
      assert s == s[..4] + "-" + s[5..7] + "-" + s[8..];
      if Valid(t) then Some(t) else None
    else
      None
  }

  /**
    The `T15:04:05` part of the layout. The `15` element takes one or two
    digits; minutes and seconds take exactly two; nothing may follow.
   */
  function ParseClock(c: string): (r: Option<(int, int, int)>)
    ensures r.Some? ==> 0 <= r.value.0 < 24 && 0 <= r.value.1 < 60 && 0 <= r.value.2 < 60
    ensures r.Some? ==> (c == ClockText(r.value.0, r.value.1, r.value.2, 2)
                         || (r.value.0 < 10 && c == ClockText(r.value.0, r.value.1, r.value.2, 1)))
  {
    if |c| < 2 || c[0] != 'T' || !IsDigit(c[1]) then
      None
    else
      var h := if |c| >= 3 && IsDigit(c[2]) then 2 else 1;
      if |c| == h + 7 && AllDigits(c[1..h + 1]) && c[h + 1] == ':' && AllDigits(c[h + 2..h + 4])
         && c[h + 4] == ':' && AllDigits(c[h + 5..])
      then
        var hour, minute, second := Number(c[1..h + 1]), Number(c[h + 2..h + 4]), Number(c[h + 5..]);
        ClockDigits(c, h);
        if hour < 24 && minute < 60 && second < 60 then Some((hour, minute, second)) else None
      else
        None
  }

  /** The clock text with the hour written in `width` digits (one only for hours below ten). */
  function ClockText(hour: int, minute: int, second: int, width: int): (c: string)
    requires 0 <= hour < 24 && 0 <= minute < 60 && 0 <= second < 60
    requires width == 2 || (width == 1 && hour < 10)
    ensures |c| == width + 7
  {
    "T" + (if width == 2 then Pad2(hour) else [Digit(hour)]) + ":" + Pad2(minute) + ":" + Pad2(second)
  }

  /** Clock text of the accepted shape is the clock text of its own numbers. */
  lemma ClockDigits(c: string, h: int)
    requires h == 1 || h == 2
    requires |c| == h + 7 && c[0] == 'T' && AllDigits(c[1..h + 1]) && c[h + 1] == ':' && AllDigits(c[h + 2..h + 4])
             && c[h + 4] == ':' && AllDigits(c[h + 5..])
    ensures var hour, minute, second := Number(c[1..h + 1]), Number(c[h + 2..h + 4]), Number(c[h + 5..]);
      hour < 24 && minute < 60 && second < 60 ==> (h == 2 || hour < 10) && c == ClockText(hour, minute, second, h)
  {
    if h == 2 { Pad2Of(c[1..3]); } else { Digit1Of(c[1..2]); }
    Pad2Of(c[h + 2..h + 4]);
    Pad2Of(c[h + 5..]);
    assert c == "T" + c[1..h + 1] + ":" + c[h + 2..h + 4] + ":" + c[h + 5..];
  }

  /** `time.ParseInLocation(FirebirdTimeFormat, s, loc)`. */
  function ParseFirebird(s: string): (r: Option<DateTime>)
    ensures r.Some? ==> Valid(r.value)
    ensures r.Some? ==> (0 <= r.value.year < 10000
                         && (s == FormatFirebird(r.value)
                             || (r.value.hour < 10 && s == FormatDate(r.value) + ClockText(r.value.hour, r.value.minute, r.value.second, 1))))
  {
    if |s| < 10 then None
    else match (ParseDate(s[..10]), ParseClock(s[10..]))
      case (Some(d), Some((h, mi, se))) => Some(DateTime(d.year, d.month, d.day, h, mi, se))
      case _ => None
  }

  /** The date of a reading written in the `2006-01-02` layout. */
  function FormatDate(t: DateTime): (s: string)
    requires Valid(t) && 0 <= t.year < 10000
    ensures |s| == 10
  {
    Pad4(t.year) + "-" + Pad2(t.month) + "-" + Pad2(t.day)
  }

  /** A reading written in `FirebirdTimeFormat`, as the database stores it. */
  function FormatFirebird(t: DateTime): (s: string)
    requires Valid(t) && 0 <= t.year < 10000
    ensures |s| == 19
  {
    FormatDate(t) + "T" + Pad2(t.hour) + ":" + Pad2(t.minute) + ":" + Pad2(t.second)
  }

  /** Parsing a formatted date gives the date back, at midnight. */
  lemma {:induction false} ParseDateFormatted(t: DateTime)
    requires Valid(t) && 0 <= t.year < 10000
    ensures ParseDate(FormatDate(t)) == Some(DateTime(t.year, t.month, t.day, 0, 0, 0))
  {
    var d := FormatDate(t);
    assert d[..4] == Pad4(t.year);
    assert d[5..7] == Pad2(t.month);
    assert d[8..] == Pad2(t.day);
    Pad4RoundTrip(t.year);
    Pad2RoundTrip(t.month);
    Pad2RoundTrip(t.day);
  }

  /** Parsing a formatted reading gives the reading back. */
  lemma {:induction false} ParseFormatted(t: DateTime)
    requires Valid(t) && 0 <= t.year < 10000
    ensures ParseFirebird(FormatFirebird(t)) == Some(t)
  {
    var s := FormatFirebird(t);
    var d := s[..10];
    var c := s[10..];
    assert d == FormatDate(t);
    assert c == "T" + Pad2(t.hour) + ":" + Pad2(t.minute) + ":" + Pad2(t.second);
    ParseDateFormatted(t);
    assert c[1..3] == Pad2(t.hour);
    assert c[4..6] == Pad2(t.minute);
    assert c[7..] == Pad2(t.second);
    Pad2RoundTrip(t.hour);
    Pad2RoundTrip(t.minute);
    Pad2RoundTrip(t.second);
    assert ParseClock(c) == Some((t.hour, t.minute, t.second));
  }

  /** A date the layout rejects: a day the month lacks, and a month written in one digit. */
  lemma ParseDateRejects()
    ensures ParseDate("2023-02-30") == None
    ensures ParseDate("2023-1-05") == None
  {
    var d := "2023-02-30";
    Number2(d[5..7]);
    Number2(d[8..]);
  }

  /** A reading the layout rejects: hour 24, and a character after the seconds. */
  lemma ParseFirebirdRejects()
    ensures ParseFirebird("2023-02-01T24:00:00") == None
    ensures ParseFirebird("2023-02-01T04:00:00x") == None
  {
    var s := "2023-02-01T24:00:00";
    var c := s[10..];
    assert c == "T24:00:00";
    Number2(c[1..3]);
    assert ParseClock(c) == None;
    var s' := "2023-02-01T04:00:00x";
    assert s'[10..] == "T04:00:00x";
    assert ParseClock(s'[10..]) == None;
  }

  // ---------------------------------------------------------------- rewriting

  /** No character of `s` is `c`. */
  predicate Lacks(s: string, c: char) {
    forall i :: 0 <= i < |s| ==> s[i] != c
  }

  /** `strings.Replace(s, "Z", "", 1)`: drops the first `Z`, wherever it stands. */
  function RemoveFirstZ(s: string): (r: string)
    ensures Lacks(s, 'Z') ==> r == s
    ensures !Lacks(s, 'Z') ==> |r| == |s| - 1
    decreases |s|
  {
    if s == [] then []
    else if s[0] == 'Z' then s[1..]
    else [s[0]] + RemoveFirstZ(s[1..])
  }

  /** Only the first `Z` goes: the text before it is kept and the text after it is kept whole. */
  lemma {:induction false} RemoveFirstZAt(p: string, q: string)
    requires Lacks(p, 'Z')
    ensures RemoveFirstZ(p + "Z" + q) == p + q
    decreases |p|
  {
    var s := p + "Z" + q;
    if p == [] {
      assert s[0] == 'Z' && s[1..] == q;
    } else {
      assert s[0] == p[0] && s[1..] == p[1..] + "Z" + q;
      LacksTail(p, 'Z');
      RemoveFirstZAt(p[1..], q);
      assert [p[0]] + (p[1..] + q) == p + q;
    }
  }

  /** A `+HH:MM` zone offset. */
  predicate IsOffset(o: string) {
    |o| == 6 && o[0] == '+' && IsDigit(o[1]) && IsDigit(o[2]) && o[3] == ':' && IsDigit(o[4]) && IsDigit(o[5])
  }

  predicate EndsWithOffset(s: string) {
    |s| >= 6 && IsOffset(s[|s| - 6..])
  }

  /** The regular expression `\+[0-9]{2}:[0-9]{2}$`, replaced by nothing: a trailing offset only. */
  function RemoveTrailingOffset(s: string): (r: string)
    ensures !EndsWithOffset(s) ==> r == s
    ensures EndsWithOffset(s) ==> r + s[|s| - 6..] == s
  {
    if EndsWithOffset(s) then s[..|s| - 6] else s
  }

  lemma TrailingOffsetRemoved(p: string, o: string)
    requires IsOffset(o)
    ensures RemoveTrailingOffset(p + o) == p
  {
    assert (p + o)[|p + o| - 6..] == o;
  }

  /** A `.` followed by three digits. */
  predicate IsMilliseconds(m: string) {
    |m| == 4 && m[0] == '.' && IsDigit(m[1]) && IsDigit(m[2]) && IsDigit(m[3])
  }

  /**
    The regular expression `\.[0-9]{3}`, every match replaced by nothing.
    Matches are found left to right and do not overlap; the search resumes
    after each removed match.
   */
  function RemoveMilliseconds(s: string): (r: string)
    ensures |r| <= |s|
    decreases |s|
  {
    if |s| >= 4 && IsMilliseconds(s[..4]) then RemoveMilliseconds(s[4..])
    else if s == [] then []
    else [s[0]] + RemoveMilliseconds(s[1..])
  }

  /** A character other than `.` starts no match and is kept. */
  lemma MillisecondsKeepsHead(s: string)
    requires s != [] && s[0] != '.'
    ensures RemoveMilliseconds(s) == [s[0]] + RemoveMilliseconds(s[1..])
  {
  }

  /** A `.` that does not start a `.ddd` (as in `.5` or `a.b`) is kept, and the search goes on after it. */
  lemma MillisecondsKeepsStrayDot(s: string)
    requires s != [] && s[0] == '.'
    requires !(|s| >= 4 && IsMilliseconds(s[..4]))
    ensures RemoveMilliseconds(s) == [s[0]] + RemoveMilliseconds(s[1..])
  {
  }

  /** The fraction of `05.5` is not three digits long, so the text is left as it is. */
  lemma MillisecondsShortFraction()
    ensures RemoveMilliseconds("05.5") == "05.5"
  {
    assert !IsMilliseconds("05.5"[..4]);
    assert RemoveMilliseconds("5") == "5";
    MillisecondsKeepsStrayDot(".5");
    assert RemoveMilliseconds(".5") == ".5";
    assert RemoveMilliseconds("5.5") == "5.5";
  }

  /** A `.ddd` at the front is dropped. */
  lemma MillisecondsDropsMatch(m: string, q: string)
    requires IsMilliseconds(m)
    ensures RemoveMilliseconds(m + q) == RemoveMilliseconds(q)
  {
    assert (m + q)[..4] == m && (m + q)[4..] == q;
  }

  lemma LacksTail(p: string, c: char)
    requires p != [] && Lacks(p, c)
    ensures Lacks(p[1..], c)
  {
    forall i | 0 <= i < |p[1..]| ensures p[1..][i] != c {
      assert p[1..][i] == p[i + 1];
    }
  }

  /** Text without a `.` has no match and is left as it is. */
  lemma {:induction false} MillisecondsAbsent(s: string)
    requires Lacks(s, '.')
    ensures RemoveMilliseconds(s) == s
    decreases |s|
  {
    if s != [] {
      MillisecondsKeepsHead(s);
      LacksTail(s, '.');
      MillisecondsAbsent(s[1..]);
      assert [s[0]] + s[1..] == s;
    }
  }

  /** Text before the first `.` is kept; a `.ddd` there is dropped; the rest is rewritten the same way. */
  lemma {:induction false} MillisecondsRemovedAt(p: string, m: string, q: string)
    requires Lacks(p, '.') && IsMilliseconds(m)
    ensures RemoveMilliseconds(p + m + q) == p + RemoveMilliseconds(q)
    decreases |p|
  {
    if p == [] {
      assert p + m + q == m + q;
      MillisecondsDropsMatch(m, q);
    } else {
      var s := p + m + q;
      assert s[0] == p[0] && s[1..] == p[1..] + m + q;
      LacksTail(p, '.');
      MillisecondsKeepsHead(s);
      MillisecondsRemovedAt(p[1..], m, q);
      assert [p[0]] + (p[1..] + RemoveMilliseconds(q)) == p + RemoveMilliseconds(q);
    }
  }

  /** The whole rewrite applied to the database text before parsing. */
  function Normalise(s: string): string {
    RemoveMilliseconds(RemoveTrailingOffset(RemoveFirstZ(s)))
  }

  lemma FormattedHasNoMarks(t: DateTime)
    requires Valid(t) && 0 <= t.year < 10000
    ensures Lacks(FormatFirebird(t), 'Z') && Lacks(FormatFirebird(t), '.') && Lacks(FormatFirebird(t), '+')
  {
    var s := FormatFirebird(t);
    forall i | 0 <= i < |s| ensures s[i] != 'Z' && s[i] != '.' && s[i] != '+' {
      assert IsDigit(s[i]) || s[i] in "-T:";
    }
  }

  /**
    A datetime stored in the Firebird layout, optionally followed by
    milliseconds and then by a `Z` or a `+HH:MM` offset, reads back as that
    datetime.
   */
  lemma {:induction false} NormaliseFormatted(t: DateTime, ms: string, zone: string)
    requires Valid(t) && 0 <= t.year < 10000
    requires ms == "" || IsMilliseconds(ms)
    requires zone == "" || zone == "Z" || IsOffset(zone)
    ensures ParseFirebird(Normalise(FormatFirebird(t) + ms + zone)) == Some(t)
  {
    var f := FormatFirebird(t);
    FormattedHasNoMarks(t);
    var noZ := f + ms;
    assert Lacks(noZ, 'Z') by {
      forall i | 0 <= i < |noZ| ensures noZ[i] != 'Z' {
        if i >= |f| { assert noZ[i] == ms[i - |f|]; }
      }
    }
    if zone == "Z" {
      RemoveFirstZAt(noZ, "");
      assert noZ + "Z" + "" == f + ms + zone;
    } else {
      assert f + ms + zone == noZ + zone;
      assert Lacks(noZ + zone, 'Z') by {
        forall i | 0 <= i < |noZ + zone| ensures (noZ + zone)[i] != 'Z' {
          if i >= |noZ| { assert (noZ + zone)[i] == zone[i - |noZ|]; }
        }
      }
    }
    assert RemoveFirstZ(f + ms + zone) == noZ + (if zone == "Z" then "" else zone);
    if IsOffset(zone) {
      TrailingOffsetRemoved(noZ, zone);
    } else {
      assert noZ[|noZ| - 6] != '+';
    }
    assert RemoveTrailingOffset(RemoveFirstZ(f + ms + zone)) == noZ;
    if ms == "" {
      assert noZ == f;
      MillisecondsAbsent(f);
    } else {
      MillisecondsRemovedAt(f, ms, "");
      assert noZ == f + ms + "";
    }
    assert Normalise(f + ms + zone) == f;
    ParseFormatted(t);
  }

  /** The example the repository's tests use: milliseconds and a `Z` are stripped. */
  lemma NormaliseExample()
    ensures ParseFirebird(Normalise("2022-11-02T04:00:00.123Z")) == Some(DateTime(2022, 11, 2, 4, 0, 0))
  {
    var t := DateTime(2022, 11, 2, 4, 0, 0);
    assert FormatFirebird(t) + ".123" + "Z" == "2022-11-02T04:00:00.123Z";
    NormaliseFormatted(t, ".123", "Z");
  }

  // ---------------------------------------------------------------- reading

  /** The text of the error `time.ParseInLocation` reports for an unparsable value. */
  function ParseErrorMessage(value: string, layout: string): string {
    "parsing time \"" + value + "\" as \"" + layout + "\": cannot parse"
  }

  /** `getDbStateDatetime`: probe, query the latest activity, rewrite and parse it. */
  function GetDbStateDatetime(db: SecondaryDb): (r: Result<DateTime, string>)
    ensures r.Success? ==> Valid(r.value)
    ensures r.Success? <==>
      && db.ping.None?
      && db.lastDatetime.Value?
      && db.lastDatetime.text != ""
      && ParseFirebird(Normalise(db.lastDatetime.text)).Some?
    ensures r.Success? ==> r.value == ParseFirebird(Normalise(db.lastDatetime.text)).value
    ensures db.ping.Some? ==> r == Failure(db.ping.value)
  {
    if db.ping.Some? then Failure(db.ping.value)
    else match db.lastDatetime
      case QueryFailed(e) => Failure(e)
      case ScanFailed(e) => Failure("empty last date from DB: " + e)
      case Value(s) =>
        if s == "" then Failure("empty last date from DB: %!s(<nil>)")
        else match ParseFirebird(Normalise(s))
          case Some(t) => Success(t)
          case None => Failure(ParseErrorMessage(Normalise(s), FirebirdTimeFormat))
  }

  /** A live database whose latest activity is written in the Firebird layout yields that reading. */
  lemma DatetimeOfFormatted(t: DateTime, firstRegDate: Row)
    requires Valid(t) && 0 <= t.year < 10000
    ensures GetDbStateDatetime(SecondaryDb(None, Value(FormatFirebird(t)), firstRegDate)) == Success(t)
  {
    var s := FormatFirebird(t);
    NormaliseFormatted(t, "", "");
    assert s + "" + "" == s;
    assert s != "" && ParseFirebird(Normalise(s)) == Some(t);
  }

  /** The education year a calendar year and month fall in, for a given cutover month. */
  function EducationYear(year: int, month: int, cutover: int): (y: int)
    ensures y == year || y == year - 1
    ensures y == year <==> month >= cutover
  {
    if month < cutover then year - 1 else year
  }

  /** The registration date is long enough to take its first ten characters (Go slices bytes, which agree with characters on ASCII text). */
  predicate Sliceable(row: Row) {
    row.Value? ==> |row.text| >= 10
  }

  /** `getCurrentYear`: the education year of the first registration date. */
  function GetCurrentYear(row: Row): (r: Result<int, string>)
    requires Sliceable(row)
    ensures r.Success? ==> r.value >= EducationYearFloor
    ensures r.Success? <==>
      && row.Value?
      && ParseDate(row.text[..10]).Some?
      && EducationYear(ParseDate(row.text[..10]).value.year, ParseDate(row.text[..10]).value.month, RegistrationCutoverMonth) >= EducationYearFloor
    ensures r.Success? ==>
      var d := ParseDate(row.text[..10]).value;
      (r.value == d.year <==> d.month >= RegistrationCutoverMonth) && (r.value == d.year || r.value == d.year - 1)
  {
    match row
    case QueryFailed(e) => Failure(e)
    case ScanFailed(e) => Failure("empty last date from DB: " + e)
    case Value(s) =>
      match ParseDate(s[..10])
      case None => Failure("failed to parse first lesson registration date: " + ParseErrorMessage(s[..10], "2006-01-02"))
      case Some(d) =>
        var year := EducationYear(d.year, d.month, RegistrationCutoverMonth);
        if year < EducationYearFloor then Failure("wrong education (should be 2022 or later): " + IntToString(year))
        else Success(year)
  }

  /** `extractEducationYear`: the education year of a datetime, with a September cutover. */
  function ExtractEducationYear(t: DateTime): (r: Result<int, string>)
    ensures IsZero(t) ==> r.Failure?
    ensures r.Success? ==> r.value >= EducationYearFloor
    ensures r.Success? <==> !IsZero(t) && EducationYear(t.year, t.month, DatetimeCutoverMonth) >= EducationYearFloor
    ensures r.Success? ==> (r.value == t.year <==> t.month >= DatetimeCutoverMonth) && (r.value == t.year || r.value == t.year - 1)
  {
    if IsZero(t) then Failure("zero datetime for parse education year")
    else
      var year := EducationYear(t.year, t.month, DatetimeCutoverMonth);
      if year < EducationYearFloor then Failure("wrong education (should be 2022 or later): " + IntToString(year))
      else Success(year)
  }

  /** A registration date written as `YYYY-MM-DD` yields its education year, or the floor error. */
  lemma {:induction false} CurrentYearOfFormattedDate(t: DateTime)
    requires Valid(t) && 0 <= t.year < 10000
    ensures var y := EducationYear(t.year, t.month, RegistrationCutoverMonth);
      GetCurrentYear(Value(FormatDate(t))) == if y >= EducationYearFloor then Success(y) else
        Failure("wrong education (should be 2022 or later): " + IntToString(y))
  {
    var s := FormatDate(t);
    assert s[..10] == s;
    ParseDateFormatted(t);
  }

  /** Both sides of the August cutover of `getCurrentYear`: July 31 is the previous year, August 1 the new one. */
  lemma RegistrationCutoverBoundary(year: int)
    requires EducationYearFloor < year < 10000
    ensures GetCurrentYear(Value(FormatDate(DateTime(year, 7, 31, 0, 0, 0)))) == Success(year - 1)
    ensures GetCurrentYear(Value(FormatDate(DateTime(year, 8, 1, 0, 0, 0)))) == Success(year)
  {
    CurrentYearOfFormattedDate(DateTime(year, 7, 31, 0, 0, 0));
    CurrentYearOfFormattedDate(DateTime(year, 8, 1, 0, 0, 0));
  }

  /** A registration date in a year before the floor is rejected. */
  lemma RegistrationBeforeFloor(t: DateTime)
    requires Valid(t) && 0 <= t.year < EducationYearFloor
    ensures GetCurrentYear(Value(FormatDate(t))).Failure?
  {
    CurrentYearOfFormattedDate(t);
  }

  /** Both sides of the September cutover of `extractEducationYear`. */
  lemma DatetimeCutoverBoundary()
    ensures ExtractEducationYear(DateTime(2023, 8, 31, 4, 0, 0)) == Success(2022)
    ensures ExtractEducationYear(DateTime(2023, 9, 1, 4, 0, 0)) == Success(2023)
    ensures ExtractEducationYear(DateTime(1990, 1, 1, 4, 0, 0)).Failure?
  {
  }

  /** What reading the database produced, and which calls it made. */
  datatype Reading = Reading(state: Result<DbState, string>, calls: seq<DbCall>)

  /** `makeDbState`: the datetime first, then the year; the year query only after a good datetime. */
  function MakeDbState(db: SecondaryDb): (r: Reading)
    requires GetDbStateDatetime(db).Success? ==> Sliceable(db.firstRegDate)
    ensures r.state.Success? ==> WellFormed(r.state.value) && r.state.value.educationYear >= EducationYearFloor
    ensures r.state.Success? <==> GetDbStateDatetime(db).Success? && GetCurrentYear(db.firstRegDate).Success?
    ensures r.state.Success? ==>
      r.state.value == DbState(GetDbStateDatetime(db).value, GetCurrentYear(db.firstRegDate).value)
    ensures r.calls == (if db.ping.Some? then [Ping] else [Ping, QueryLastDatetime])
                       + (if GetDbStateDatetime(db).Success? then [QueryFirstRegDate] else [])
    ensures GetDbStateDatetime(db).Failure? ==>
      r.state == Failure("Failed to get last datetime from DB: " + GetDbStateDatetime(db).error)
    ensures GetDbStateDatetime(db).Success? && GetCurrentYear(db.firstRegDate).Failure? ==>
      r.state == Failure("failed to detect current education year: " + GetCurrentYear(db.firstRegDate).error)
  {
    var probed := if db.ping.Some? then [Ping] else [Ping, QueryLastDatetime];
    match GetDbStateDatetime(db)
    case Failure(e) => Reading(Failure("Failed to get last datetime from DB: " + e), probed)
    case Success(t) =>
      match GetCurrentYear(db.firstRegDate)
      case Failure(e) => Reading(Failure("failed to detect current education year: " + e), probed + [QueryFirstRegDate])
      case Success(y) => Reading(Success(DbState(t, y)), probed + [QueryFirstRegDate])
  }

  /** A live database whose two readings succeed gives their snapshot after three calls. */
  lemma MakeDbStateOf(db: SecondaryDb, t: DateTime, y: int)
    requires db.ping.None? && GetDbStateDatetime(db) == Success(t)
    requires Sliceable(db.firstRegDate) && GetCurrentYear(db.firstRegDate) == Success(y)
    ensures MakeDbState(db) == Reading(Success(DbState(t, y)), [Ping, QueryLastDatetime, QueryFirstRegDate])
  {
  }
}
