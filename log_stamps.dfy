/** The time stamps in the names of the batch's log files, and their age.

    `clean_logs` expects log names in the format `%y%m%d%H%M%S.log`, as
    `strftime` writes them (`LogName` below), and reads the stamp back with
    `datetime.strptime`, which (in Python 2.7) turns the format into a
    regular expression with one group per directive, tries the group's
    alternatives in order with backtracking, insists that the match reach
    the end of the name and that the fields form a real date and time, and
    maps two-digit years to 1969-2068. */
module LogStamps {
  import opened Results
  import opened Text

  /** A calendar date and a time of day with whole seconds, as
      `datetime.datetime` holds them without the microseconds. */
  datatype Stamp = Stamp(year: int, month: int, day: int, hour: int, minute: int, second: int)

  /** `datetime.datetime.utcnow()`: a stamp and its microseconds. */
  datatype DateTime = DateTime(stamp: Stamp, microsecond: int)

  // ---------------------------------------------------------------------
  // The calendar of `datetime`: the proleptic Gregorian calendar
  // ---------------------------------------------------------------------

  predicate IsLeapYear(y: int)
  {
    y % 4 == 0 && (y % 100 != 0 || y % 400 == 0)
  }

  function DaysInYear(y: int): int
  {
    if IsLeapYear(y) then 366 else 365
  }

  function DaysInMonth(y: int, m: int): int
    requires 1 <= m <= 12
  {
    if m == 2 && IsLeapYear(y) then 29
    else [31, 28, 31, 30, 31, 30, 31, 31, 30, 31, 30, 31][m - 1]
  }

  /** Days in the months of year `y` before month `m`, as `datetime`
      tabulates them. */
  function DaysBeforeMonth(y: int, m: int): int
    requires 1 <= m <= 12
  {
    [0, 31, 59, 90, 120, 151, 181, 212, 243, 273, 304, 334][m - 1]
      + (if m > 2 && IsLeapYear(y) then 1 else 0)
  }

  /** Days in the years before year `y`, counted from year 1. */
  function DaysBeforeYear(y: int): int
    requires y >= 1
  {
    var p := y - 1;
    p * 365 + p / 4 - p / 100 + p / 400
  }

  /** `datetime.MINYEAR` .. `datetime.MAXYEAR`, a real month, a day the
      month has, and the ranges `datetime` allows for the time of day
      (a leap second 60 is refused). */
  predicate ValidStamp(st: Stamp)
  {
    && 1 <= st.year <= 9999
    && 1 <= st.month <= 12
    && 1 <= st.day <= DaysInMonth(st.year, st.month)
    && 0 <= st.hour <= 23
    && 0 <= st.minute <= 59
    && 0 <= st.second <= 59
  }

  predicate ValidDateTime(t: DateTime)
  {
    ValidStamp(t.stamp) && 0 <= t.microsecond <= 999999
  }

  /** `date.toordinal()`: 1 January of year 1 is day 1. */
  function Ordinal(st: Stamp): int
    requires ValidStamp(st)
  {
    DaysBeforeYear(st.year) + DaysBeforeMonth(st.year, st.month) + st.day
  }

  function Seconds(st: Stamp): int
    requires ValidStamp(st)
  {
    Ordinal(st) * 86400 + st.hour * 3600 + st.minute * 60 + st.second
  }

  function Microseconds(t: DateTime): int
    requires ValidDateTime(t)
  {
    Seconds(t.stamp) * 1000000 + t.microsecond
  }

  /** `datetime.timedelta(7)` in microseconds, the unit in which
      `timedelta` values compare. */
  const WEEK_MICROSECONDS: int := 7 * 86400 * 1000000

  /** `now - stamp > timedelta(7)`: strictly more than a week has passed
      since the stamp. */
  predicate Expired(st: Stamp, now: DateTime)
    requires ValidStamp(st) && ValidDateTime(now)
  {
    Microseconds(now) - Seconds(st) * 1000000 > WEEK_MICROSECONDS
  }

  /** The window is strict and counts microseconds: a stamp more than
      seven days of whole seconds back has expired, one less than seven
      days back has not, and one exactly seven days back only once `now`
      is past the whole second. */
  lemma ExpiryBoundary(st: Stamp, now: DateTime)
    requires ValidStamp(st) && ValidDateTime(now)
    ensures Seconds(now.stamp) - Seconds(st) > 7 * 86400 ==> Expired(st, now)
    ensures Seconds(now.stamp) - Seconds(st) < 7 * 86400 ==> !Expired(st, now)
    ensures Seconds(now.stamp) - Seconds(st) == 7 * 86400 ==> (Expired(st, now) <==> now.microsecond > 0)
  {
  }

  /** Chronological order of stamps: year, then month, day, hour, minute
      and second. */
  predicate StrictlyBefore(a: Stamp, b: Stamp)
  {
    || a.year < b.year
    || (a.year == b.year && a.month < b.month)
    || (a.year == b.year && a.month == b.month && a.day < b.day)
    || (a.year == b.year && a.month == b.month && a.day == b.day && a.hour < b.hour)
    || (a.year == b.year && a.month == b.month && a.day == b.day && a.hour == b.hour
        && a.minute < b.minute)
    || (a.year == b.year && a.month == b.month && a.day == b.day && a.hour == b.hour
        && a.minute == b.minute && a.second < b.second)
  }

  /** Consecutive years: the year before `y + 1` adds the days of `y`. */
  lemma DaysBeforeYearStep(y: int)
    requires y >= 1
    ensures DaysBeforeYear(y + 1) == DaysBeforeYear(y) + DaysInYear(y)
  {
    var p := y - 1;
    StepBy4(p);
    StepBy100(p);
    StepBy400(p);
    CenturiesAreLeapCandidates(y);
    if y % 400 == 0 {
      assert IsLeapYear(y);
    } else if y % 100 == 0 {
      assert !IsLeapYear(y);
    } else if y % 4 == 0 {
      assert IsLeapYear(y);
    } else {
      assert !IsLeapYear(y);
    }
  }

  /** A multiple of 400 is a multiple of 100, and a multiple of 100 is a
      multiple of 4. */
  lemma CenturiesAreLeapCandidates(y: int)
    ensures y % 400 == 0 ==> y % 100 == 0
    ensures y % 100 == 0 ==> y % 4 == 0
  {
    if y % 400 == 0 {
      var k := y / 400;
      assert y == 100 * (4 * k);
    }
    if y % 100 == 0 {
      var k := y / 100;
      assert y == 4 * (25 * k);
    }
  }

  // The quotients by 4, 100 and 400 grow by one exactly at the multiples.

  lemma StepBy4(p: int)
    ensures (p + 1) / 4 == p / 4 + (if (p + 1) % 4 == 0 then 1 else 0)
  {
  }

  lemma StepBy100(p: int)
    ensures (p + 1) / 100 == p / 100 + (if (p + 1) % 100 == 0 then 1 else 0)
  {
  }

  lemma StepBy400(p: int)
    ensures (p + 1) / 400 == p / 400 + (if (p + 1) % 400 == 0 then 1 else 0)
  {
  }

  lemma {:induction false} DaysBeforeYearIncreasing(y: int, z: int)
    requires 1 <= y < z
    ensures DaysBeforeYear(y) + DaysInYear(y) <= DaysBeforeYear(z)
    decreases z - y
  {
    DaysBeforeYearStep(y);
    if y + 1 < z {
      DaysBeforeYearIncreasing(y + 1, z);
    }
  }

  /** The months tile the year: each month starts where the one before it
      ends, and December ends with the year. */
  lemma MonthsTileYear(y: int, m: int)
    requires 1 <= m <= 12
    ensures m < 12 ==> DaysBeforeMonth(y, m) + DaysInMonth(y, m) == DaysBeforeMonth(y, m + 1)
    ensures m == 12 ==> DaysBeforeMonth(y, m) + DaysInMonth(y, m) == DaysInYear(y)
  {
  }

  lemma {:induction false} DaysBeforeMonthIncreasing(y: int, m: int, n: int)
    requires 1 <= m < n <= 12
    ensures DaysBeforeMonth(y, m) + DaysInMonth(y, m) <= DaysBeforeMonth(y, n)
    decreases n - m
  {
    MonthsTileYear(y, m);
    if m + 1 < n {
      DaysBeforeMonthIncreasing(y, m + 1, n);
      MonthsTileYear(y, m + 1);
    }
  }

  /** Every valid date falls inside its own year. */
  lemma OrdinalWithinYear(st: Stamp)
    requires ValidStamp(st)
    ensures DaysBeforeYear(st.year) < Ordinal(st) <= DaysBeforeYear(st.year) + DaysInYear(st.year)
  {
    MonthsTileYear(st.year, st.month);
    if st.month < 12 {
      DaysBeforeMonthIncreasing(st.year, st.month, 12);
      MonthsTileYear(st.year, 12);
    }
  }

  /** The day count agrees with the calendar: a strictly later valid
      stamp is a strictly larger number of seconds. */
  lemma SecondsIncreasing(a: Stamp, b: Stamp)
    requires ValidStamp(a) && ValidStamp(b)
    requires StrictlyBefore(a, b)
    ensures Seconds(a) < Seconds(b)
  {
    if a.year < b.year {
      OrdinalWithinYear(a);
      OrdinalWithinYear(b);
      DaysBeforeYearIncreasing(a.year, b.year);
    } else if a.month < b.month {
      DaysBeforeMonthIncreasing(a.year, a.month, b.month);
    }
    if Ordinal(a) < Ordinal(b) {
      assert Seconds(a) < Ordinal(a) * 86400 + 86400;
    }
  }

  /** Expiry follows the calendar: when a stamp is more than a week old,
      so is every earlier one. */
  lemma ExpiredEarlier(a: Stamp, b: Stamp, now: DateTime)
    requires ValidStamp(a) && ValidStamp(b) && ValidDateTime(now)
    requires StrictlyBefore(a, b) && Expired(b, now)
    ensures Expired(a, now)
  {
    SecondsIncreasing(a, b);
  }

  // ---------------------------------------------------------------------
  // Reading the stamp back: `strptime(name, "%y%m%d%H%M%S.log")`
  // ---------------------------------------------------------------------

  /** The directives of the format, in order. */
  datatype Directive = Year | Month | Day | Hour | Minute | Second

  const FORMAT: seq<Directive> := [Year, Month, Day, Hour, Minute, Second]

  /** The largest value each directive's expression admits. */
  function FieldMax(d: Directive): nat
  {
    match d
    case Year => 99
    case Month => 12
    case Day => 31
    case Hour => 23
    case Minute => 59
    case Second => 61
  }

  /** One way a directive's expression can match: the field's value and
      the number of characters taken. */
  datatype Candidate = Candidate(value: nat, width: nat)

  predicate IsDigit(c: char)
  {
    '0' <= c <= '9'
  }

  function DigitValue(c: char): nat
    requires IsDigit(c)
  {
    c as int - '0' as int
  }

  function DigitChar(v: nat): char
    requires v <= 9
  {
    (v + '0' as int) as char
  }

  /** The alternative `[lo1-hi1][lo2-hi2]` at position `i`. */
  function TwoDigits(s: string, i: nat, lo1: char, hi1: char, lo2: char, hi2: char): seq<Candidate>
    requires '0' <= lo1 && hi1 <= '9' && '0' <= lo2 && hi2 <= '9'
  {
    if i + 2 <= |s| && lo1 <= s[i] <= hi1 && lo2 <= s[i + 1] <= hi2
    then [Candidate(10 * DigitValue(s[i]) + DigitValue(s[i + 1]), 2)]
    else []
  }

  /** The alternative `[lo-hi]` at position `i`. */
  function OneDigit(s: string, i: nat, lo: char, hi: char): seq<Candidate>
    requires '0' <= lo && hi <= '9'
  {
    if i + 1 <= |s| && lo <= s[i] <= hi then [Candidate(DigitValue(s[i]), 1)] else []
  }

  /** The alternative ` [1-9]` of the day, whose value `int()` reads
      without the space. */
  function SpaceDigit(s: string, i: nat): seq<Candidate>
  {
    if i + 2 <= |s| && s[i] == ' ' && '1' <= s[i + 1] <= '9'
    then [Candidate(DigitValue(s[i + 1]), 2)]
    else []
  }

  /** The matches of a directive's expression at position `i`, in the
      order the regular-expression engine tries its alternatives:
      `\d\d` for the year, `1[0-2]|0[1-9]|[1-9]` for the month,
      `3[01]|[12]\d|0[1-9]|[1-9]| [1-9]` for the day, `2[0-3]|[0-1]\d|\d`
      for the hour, `[0-5]\d|\d` for the minute and `6[0-1]|[0-5]\d|\d`
      for the second. */
  function Alternatives(d: Directive, s: string, i: nat): seq<Candidate>
  {
    match d
    case Year => TwoDigits(s, i, '0', '9', '0', '9')
    case Month =>
      TwoDigits(s, i, '1', '1', '0', '2') + TwoDigits(s, i, '0', '0', '1', '9')
        + OneDigit(s, i, '1', '9')
    case Day =>
      TwoDigits(s, i, '3', '3', '0', '1') + TwoDigits(s, i, '1', '2', '0', '9')
        + TwoDigits(s, i, '0', '0', '1', '9') + OneDigit(s, i, '1', '9') + SpaceDigit(s, i)
    case Hour =>
      TwoDigits(s, i, '2', '2', '0', '3') + TwoDigits(s, i, '0', '1', '0', '9')
        + OneDigit(s, i, '0', '9')
    case Minute => TwoDigits(s, i, '0', '5', '0', '9') + OneDigit(s, i, '0', '9')
    case Second =>
      TwoDigits(s, i, '6', '6', '0', '1') + TwoDigits(s, i, '0', '5', '0', '9')
        + OneDigit(s, i, '0', '9')
  }

  /** The literal `.log` at position `i`, matched ignoring case. */
  predicate SuffixAt(s: string, i: nat)
  {
    i + 4 <= |s|
    && s[i] == '.' && LowerChar(s[i + 1]) == 'l' && LowerChar(s[i + 2]) == 'o'
    && LowerChar(s[i + 3]) == 'g'
  }

  /** Position `end` closes a `.log` suffix. */
  predicate EndsInSuffix(s: string, end: nat)
  {
    4 <= end <= |s| && SuffixAt(s, end - 4)
  }

  /** What the engine's match yields: the field values and where it ended. */
  datatype FieldsMatch = FieldsMatch(values: seq<nat>, end: nat)

  /** `re.match` of the directives `ds` followed by `.log`, from position
      `i`: the first match in backtracking order. */
  function Match(ds: seq<Directive>, s: string, i: nat): (r: Option<FieldsMatch>)
    ensures r.Some? ==> |r.value.values| == |ds| && EndsInSuffix(s, r.value.end)
    decreases |ds|, 1
  {
    if ds == [] then
      if SuffixAt(s, i) then Some(FieldsMatch([], i + 4)) else None
    else
      TryAlternatives(ds, s, i, Alternatives(ds[0], s, i))
  }

  /** Tries the remaining alternatives `cs` of the first directive, each
      followed by the rest of the format, and keeps the first that lets the
      whole expression match. */
  function TryAlternatives(ds: seq<Directive>, s: string, i: nat, cs: seq<Candidate>): (r: Option<FieldsMatch>)
    requires ds != []
    ensures r.Some? ==> |r.value.values| == |ds| && EndsInSuffix(s, r.value.end)
    decreases |ds|, 0, |cs|
  {
    if cs == [] then None
    else
      match Match(ds[1..], s, i + cs[0].width)
      case Some(m) => Some(FieldsMatch([cs[0].value] + m.values, m.end))
      case None => TryAlternatives(ds, s, i, cs[1..])
  }

  /** Every alternative of a directive stays within the values its
      expression admits. */
  lemma AlternativesBounded(d: Directive, s: string, i: nat)
    ensures forall c :: c in Alternatives(d, s, i) ==> c.value <= FieldMax(d)
  {
  }

  /** The value the engine keeps for the first directive is one of the
      alternatives it tried. */
  lemma {:induction false} TryAlternativesBounded(ds: seq<Directive>, s: string, i: nat, cs: seq<Candidate>, bound: nat)
    requires ds != []
    requires forall c :: c in cs ==> c.value <= bound
    ensures TryAlternatives(ds, s, i, cs).Some? ==> TryAlternatives(ds, s, i, cs).value.values[0] <= bound
    decreases |cs|
  {
    if cs != [] && Match(ds[1..], s, i + cs[0].width).None? {
      TryAlternativesBounded(ds, s, i, cs[1..], bound);
    }
  }

  /** A match reads each field within the range its directive admits;
      for the year, at most 99. */
  lemma MatchFieldBounded(ds: seq<Directive>, s: string, i: nat)
    requires ds != []
    ensures Match(ds, s, i).Some? ==> Match(ds, s, i).value.values[0] <= FieldMax(ds[0])
  {
    AlternativesBounded(ds[0], s, i);
    TryAlternativesBounded(ds, s, i, Alternatives(ds[0], s, i), FieldMax(ds[0]));
  }

  /** `%y`: 69-99 are the years 1969-1999, 00-68 the years 2000-2068. */
  function CenturyYear(v: nat): (year: int)
    requires v <= 99
    ensures 1969 <= year <= 2068 && year % 100 == v
  {
    if v <= 68 then 2000 + v else 1900 + v
  }

  /** `%y` tells apart exactly the years 1969-2068. */
  lemma CenturyYearOfLastDigits(year: int)
    requires 1969 <= year <= 2068
    ensures CenturyYear(year % 100) == year
  {
    if year >= 2000 {
      assert year % 100 == year - 2000;
    } else {
      assert year % 100 == year - 1900;
    }
  }

  /** `datetime.strptime(name, "%y%m%d%H%M%S.log")`, with `None` for the
      `ValueError` it raises: the expression does not match, it leaves
      characters unconsumed, or the fields are not a valid date and time. */
  function ParseLogName(name: string): (r: Option<Stamp>)
    ensures r.Some? ==> ValidStamp(r.value) && 1969 <= r.value.year <= 2068
    ensures r.Some? ==> |name| >= 4 && SuffixAt(name, |name| - 4)
  {
    match Match(FORMAT, name, 0)
    case None => None
    case Some(m) =>
      if m.end != |name| then None
      else
        MatchFieldBounded(FORMAT, name, 0);
        var st := Stamp(CenturyYear(m.values[0]), m.values[1], m.values[2],
                        m.values[3], m.values[4], m.values[5]);
        if ValidStamp(st) then Some(st) else None
  }

  // ---------------------------------------------------------------------
  // Writing the stamp: a name in the format `clean_logs` expects, as
  // `strftime("%y%m%d%H%M%S.log")` writes it
  // ---------------------------------------------------------------------

  /** The last two decimal digits, zero-padded: what `%02d` writes for a
      value below 100. */
  function Digits2(v: nat): string
  {
    [DigitChar(v / 10 % 10), DigitChar(v % 10)]
  }

  function Render(vs: seq<nat>): (s: string)
    ensures |s| == 2 * |vs|
  {
    if vs == [] then [] else Digits2(vs[0]) + Render(vs[1..])
  }

  /** The fields `%y%m%d%H%M%S` writes, in order. */
  function Fields(st: Stamp): (vs: seq<nat>)
    requires ValidStamp(st)
    ensures |vs| == 6
  {
    [st.year % 100, st.month, st.day, st.hour, st.minute, st.second]
  }

  /** `stamp.strftime("%y%m%d%H%M%S.log")`. */
  function LogName(st: Stamp): string
    requires ValidStamp(st)
  {
    Render(Fields(st)) + ".log"
  }

  /** A value in the range a directive admits with two digits. */
  predicate FitsTwoDigits(d: Directive, v: nat)
  {
    match d
    case Year => v <= 99
    case Month => 1 <= v <= 12
    case Day => 1 <= v <= 31
    case Hour => v <= 23
    case Minute => v <= 59
    case Second => v <= 61
  }

  /** Each value fits its directive, two digits wide. */
  predicate AllFit(ds: seq<Directive>, vs: seq<nat>)
  {
    |ds| == |vs| && (ds == [] || (FitsTwoDigits(ds[0], vs[0]) && AllFit(ds[1..], vs[1..])))
  }

  /** The first alternative the engine tries that matches a zero-padded
      two-digit field reads that field's value back whole. */
  lemma FirstAlternativeTwoDigits(d: Directive, s: string, i: nat, v: nat)
    requires FitsTwoDigits(d, v)
    requires i + 2 <= |s| && s[i] == Digits2(v)[0] && s[i + 1] == Digits2(v)[1]
    ensures Alternatives(d, s, i) != [] && Alternatives(d, s, i)[0] == Candidate(v, 2)
  {
    Digits2Values(v);
    match d
    case Year =>
    case Month =>
    case Day =>
    case Hour =>
    case Minute =>
    case Second =>
  }

  /** `%02d` writes the tens and then the units of a value below 100. */
  lemma Digits2Values(v: nat)
    requires v <= 99
    ensures IsDigit(Digits2(v)[0]) && DigitValue(Digits2(v)[0]) == v / 10
    ensures IsDigit(Digits2(v)[1]) && DigitValue(Digits2(v)[1]) == v % 10
  {
  }

  /** The engine keeps the first alternative that lets the rest of the
      format match. */
  lemma TryFirst(ds: seq<Directive>, s: string, i: nat, cs: seq<Candidate>, m: FieldsMatch)
    requires ds != [] && cs != []
    requires Match(ds[1..], s, i + cs[0].width) == Some(m)
    ensures TryAlternatives(ds, s, i, cs) == Some(FieldsMatch([cs[0].value] + m.values, m.end))
  {
  }

  /** An alternative that leaves the rest of the format unmatched is
      backtracked from. */
  lemma TryNext(ds: seq<Directive>, s: string, i: nat, cs: seq<Candidate>)
    requires ds != [] && cs != []
    requires Match(ds[1..], s, i + cs[0].width) == None
    ensures TryAlternatives(ds, s, i, cs) == TryAlternatives(ds, s, i, cs[1..])
  {
  }

  /** The characters after the first rendered field. */
  lemma RenderedTail(vs: seq<nat>, s: string, i: nat)
    requires vs != []
    requires i + 2 * |vs| + 4 <= |s| && s[i..i + 2 * |vs| + 4] == Render(vs) + ".log"
    ensures s[i] == Digits2(vs[0])[0] && s[i + 1] == Digits2(vs[0])[1]
    ensures s[i + 2..i + 2 + 2 * |vs[1..]| + 4] == Render(vs[1..]) + ".log"
  {
    var w := s[i..i + 2 * |vs| + 4];
    var rest := Render(vs[1..]) + ".log";
    assert w == Digits2(vs[0]) + rest;
    assert s[i] == w[0] && s[i + 1] == w[1];
    assert s[i + 2..i + 2 + 2 * |vs[1..]| + 4] == w[2..] == rest;
  }

  /** One field more: a zero-padded field in front of a matching rest is
      read whole. */
  lemma MatchRenderedStep(ds: seq<Directive>, vs: seq<nat>, s: string, i: nat, end: nat)
    requires ds != [] && vs != [] && FitsTwoDigits(ds[0], vs[0])
    requires i + 2 <= |s| && s[i] == Digits2(vs[0])[0] && s[i + 1] == Digits2(vs[0])[1]
    requires Match(ds[1..], s, i + 2) == Some(FieldsMatch(vs[1..], end))
    ensures Match(ds, s, i) == Some(FieldsMatch(vs, end))
  {
    FirstAlternativeTwoDigits(ds[0], s, i, vs[0]);
    TryFirst(ds, s, i, Alternatives(ds[0], s, i), FieldsMatch(vs[1..], end));
    assert [vs[0]] + vs[1..] == vs;
  }

  /** The fields `vs`, zero-padded, then `.log` in any case, written in
      `s` from position `i` on. */
  predicate PaddedAt(vs: seq<nat>, s: string, i: nat)
    decreases |vs|
  {
    && i + 2 * |vs| + 4 <= |s|
    && if vs == [] then SuffixAt(s, i)
       else s[i] == Digits2(vs[0])[0] && s[i + 1] == Digits2(vs[0])[1] && PaddedAt(vs[1..], s, i + 2)
  }

  /** A rendered name followed by `.log` is written character by character
      as `PaddedAt` describes. */
  lemma {:induction false} RenderedPadded(vs: seq<nat>, s: string, i: nat)
    requires i + 2 * |vs| + 4 <= |s| && s[i..i + 2 * |vs| + 4] == Render(vs) + ".log"
    ensures PaddedAt(vs, s, i)
    decreases |vs|
  {
    if vs == [] {
      var w := s[i..i + 4];
      assert s[i] == w[0] && s[i + 1] == w[1] && s[i + 2] == w[2] && s[i + 3] == w[3];
    } else {
      RenderedTail(vs, s, i);
      RenderedPadded(vs[1..], s, i + 2);
    }
  }

  /** Zero-padded fields followed by `.log` match the directives from the
      first alternatives on, with the written values, whatever follows. */
  lemma {:induction false} MatchPadded(ds: seq<Directive>, vs: seq<nat>, s: string, i: nat)
    requires AllFit(ds, vs) && PaddedAt(vs, s, i)
    ensures Match(ds, s, i) == Some(FieldsMatch(vs, i + 2 * |vs| + 4))
    decreases |ds|, 1
  {
    if ds == [] {
      assert vs == [] && SuffixAt(s, i);
    } else {
      MatchPaddedField(ds, vs, s, i);
    }
  }

  /** `MatchPadded` for at least one field. */
  lemma {:induction false} MatchPaddedField(ds: seq<Directive>, vs: seq<nat>, s: string, i: nat)
    requires ds != [] && AllFit(ds, vs) && PaddedAt(vs, s, i)
    ensures Match(ds, s, i) == Some(FieldsMatch(vs, i + 2 * |vs| + 4))
    decreases |ds|, 0
  {
    assert AllFit(ds[1..], vs[1..]) && PaddedAt(vs[1..], s, i + 2);
    MatchPadded(ds[1..], vs[1..], s, i + 2);
    MatchRenderedStep(ds, vs, s, i, i + 2 * |vs| + 4);
  }

  /** `MatchPadded` for a rendered name. */
  lemma MatchRendered(ds: seq<Directive>, vs: seq<nat>, s: string, i: nat)
    requires AllFit(ds, vs)
    requires i + 2 * |vs| + 4 <= |s| && s[i..i + 2 * |vs| + 4] == Render(vs) + ".log"
    ensures Match(ds, s, i) == Some(FieldsMatch(vs, i + 2 * |vs| + 4))
  {
    RenderedPadded(vs, s, i);
    MatchPadded(ds, vs, s, i);
  }

  /** A name of six zero-padded two-digit fields and `.log` is read as
      those fields, and accepted exactly when they form a valid stamp. */
  lemma ParseZeroPadded(vs: seq<nat>)
    requires AllFit(FORMAT, vs)
    ensures var st := Stamp(CenturyYear(vs[0]), vs[1], vs[2], vs[3], vs[4], vs[5]);
      ParseLogName(Render(vs) + ".log") == if ValidStamp(st) then Some(st) else None
  {
    var name := Render(vs) + ".log";
    assert name[0..16] == name;
    MatchRendered(FORMAT, vs, name, 0);
  }

  /** Reading a log's name back gives the stamp it was written from, for
      every valid stamp in the years `%y` can tell apart. */
  lemma ParseLogNameRoundTrip(st: Stamp)
    requires ValidStamp(st) && 1969 <= st.year <= 2068
    ensures ParseLogName(LogName(st)) == Some(st)
  {
    var vs := Fields(st);
    assert AllFit(FORMAT[5..], vs[5..]);
    assert AllFit(FORMAT[4..], vs[4..]);
    assert AllFit(FORMAT[3..], vs[3..]);
    assert AllFit(FORMAT[2..], vs[2..]);
    assert AllFit(FORMAT[1..], vs[1..]);
    assert AllFit(FORMAT, vs);
    ParseZeroPadded(vs);
    CenturyYearOfLastDigits(st.year);
    assert Stamp(CenturyYear(vs[0]), vs[1], vs[2], vs[3], vs[4], vs[5]) == st;
    assert LogName(st) == Render(vs) + ".log";
  }

  /** A name need not be zero-padded to be read: in `1611151234.log` the
      minute and the second take one digit each, after the engine has
      backtracked from a two-digit minute. */
  lemma VariableWidthName()
    ensures ParseLogName("1611151234.log") == Some(Stamp(2016, 11, 15, 12, 3, 4))
  {
    var s := "1611151234.log";
    assert SuffixAt(s, 10);
    VariableWidthMatch(s);
    assert ValidStamp(Stamp(2016, 11, 15, 12, 3, 4));
  }

  /** The engine's path through `1611151234.log`: each field takes its
      first alternative except the minute, whose two-digit reading `34`
      leaves nothing for the second. */
  lemma VariableWidthMatch(s: string)
    requires |s| == 14 && s[0] == '1' && s[1] == '6' && s[2] == '1' && s[3] == '1'
    requires s[4] == '1' && s[5] == '5' && s[6] == '1' && s[7] == '2' && s[8] == '3' && s[9] == '4'
    requires SuffixAt(s, 10)
    ensures Match(FORMAT, s, 0) == Some(FieldsMatch([16, 11, 15, 12, 3, 4], 14))
  {
    VariableWidthDate(s);
    var years := [Candidate(16, 2)];
    assert Alternatives(Year, s, 0) == years;
    assert FORMAT[1..] == [Month, Day, Hour, Minute, Second];
    TryFirst(FORMAT, s, 0, years, FieldsMatch([11, 15, 12, 3, 4], 14));
    assert [16] + [11, 15, 12, 3, 4] == [16, 11, 15, 12, 3, 4];
  }

  /** The month of `1611151234.log`, read two digits wide. */
  lemma VariableWidthDate(s: string)
    requires |s| == 14 && s[2] == '1' && s[3] == '1'
    requires s[4] == '1' && s[5] == '5' && s[6] == '1' && s[7] == '2' && s[8] == '3' && s[9] == '4'
    requires SuffixAt(s, 10)
    ensures Match([Month, Day, Hour, Minute, Second], s, 2) == Some(FieldsMatch([11, 15, 12, 3, 4], 14))
  {
    VariableWidthDay(s);
    var months := [Candidate(11, 2), Candidate(1, 1)];
    assert Alternatives(Month, s, 2) == months;
    assert [Month, Day, Hour, Minute, Second][1..] == [Day, Hour, Minute, Second];
    TryFirst([Month, Day, Hour, Minute, Second], s, 2, months, FieldsMatch([15, 12, 3, 4], 14));
    assert [11] + [15, 12, 3, 4] == [11, 15, 12, 3, 4];
  }

  /** The day of `1611151234.log`, read two digits wide. */
  lemma VariableWidthDay(s: string)
    requires |s| == 14
    requires s[4] == '1' && s[5] == '5' && s[6] == '1' && s[7] == '2' && s[8] == '3' && s[9] == '4'
    requires SuffixAt(s, 10)
    ensures Match([Day, Hour, Minute, Second], s, 4) == Some(FieldsMatch([15, 12, 3, 4], 14))
  {
    VariableWidthTime(s);
    var days := [Candidate(15, 2), Candidate(1, 1)];
    assert Alternatives(Day, s, 4) == days;
    assert [Day, Hour, Minute, Second][1..] == [Hour, Minute, Second];
    TryFirst([Day, Hour, Minute, Second], s, 4, days, FieldsMatch([12, 3, 4], 14));
    assert [15] + [12, 3, 4] == [15, 12, 3, 4];
  }

  /** The time fields of a name ending in `1234.log`: the hour `12`,
      then the minute and the second as `VariableWidthMinute` reads them. */
  lemma VariableWidthTime(s: string)
    requires |s| == 14 && s[6] == '1' && s[7] == '2' && s[8] == '3' && s[9] == '4'
    requires SuffixAt(s, 10)
    ensures Match([Hour, Minute, Second], s, 6) == Some(FieldsMatch([12, 3, 4], 14))
  {
    VariableWidthMinute(s);
    var hours := [Candidate(12, 2), Candidate(1, 1)];
    assert Alternatives(Hour, s, 6) == hours;
    assert [Hour, Minute, Second][1..] == [Minute, Second];
    TryFirst([Hour, Minute, Second], s, 6, hours, FieldsMatch([3, 4], 14));
    assert [12] + [3, 4] == [12, 3, 4];
  }

  /** The minute and second of a name ending in `34.log`: the two-digit
      minute `34` leaves nothing for the second, so the engine backtracks
      to the one-digit minute `3` and the second `4`. */
  lemma VariableWidthMinute(s: string)
    requires |s| == 14 && s[8] == '3' && s[9] == '4' && SuffixAt(s, 10)
    ensures Match([Minute, Second], s, 8) == Some(FieldsMatch([3, 4], 14))
  {
    VariableWidthSecond(s);
    var minutes := [Candidate(34, 2), Candidate(3, 1)];
    assert Alternatives(Minute, s, 8) == minutes;
    assert [Minute, Second][1..] == [Second];
    TryNext([Minute, Second], s, 8, minutes);
    TryFirst([Minute, Second], s, 8, minutes[1..], FieldsMatch([4], 14));
    assert [3] + [4] == [3, 4];
  }

  /** The second of a name ending in `4.log`: `4` is read, and nothing
      is left at the `.` for a second field to take. */
  lemma VariableWidthSecond(s: string)
    requires |s| == 14 && s[9] == '4' && SuffixAt(s, 10)
    ensures Match([Second], s, 10) == None
    ensures Match([Second], s, 9) == Some(FieldsMatch([4], 14))
  {
    assert [Second][1..] == [];
    assert Alternatives(Second, s, 10) == [];
    var seconds := [Candidate(4, 1)];
    assert Alternatives(Second, s, 9) == seconds;
    TryFirst([Second], s, 9, seconds, FieldsMatch([], 14));
    assert [4] + [] == [4];
  }

  /** A 31 November (`161131120000.log`) is refused, as `datetime`
      refuses it. */
  lemma RefusedDayOfMonth()
    ensures ParseLogName(Render([16, 11, 31, 12, 0, 0]) + ".log") == None
  {
    var vs := [16, 11, 31, 12, 0, 0];
    assert AllFit(FORMAT, vs);
    ParseZeroPadded(vs);
  }

  /** A leap second (`161115120060.log`) matches the expression but is
      refused by `datetime`. */
  lemma RefusedLeapSecond()
    ensures ParseLogName(Render([16, 11, 15, 12, 0, 60]) + ".log") == None
  {
    var vs := [16, 11, 15, 12, 0, 60];
    assert AllFit(FORMAT, vs);
    ParseZeroPadded(vs);
  }

  /** Anything after `.log` is unconverted data: a zero-padded name with
      a longer suffix, such as `161115120000.logs`, is refused. */
  lemma UnconvertedDataRefused(vs: seq<nat>, extra: string)
    requires AllFit(FORMAT, vs) && extra != []
    ensures ParseLogName(Render(vs) + ".log" + extra) == None
  {
    var name := Render(vs) + ".log" + extra;
    assert name[0..16] == Render(vs) + ".log";
    MatchRendered(FORMAT, vs, name, 0);
  }

  /** A name that does not end in `.log` is never read as a stamp. */
  lemma RefusedSuffix()
    ensures ParseLogName("161115120000.txt") == None
  {
    assert !SuffixAt("161115120000.txt", 12);
  }
}
