/** Calendar days as integer triples and the text forms the appointment controller builds:
    the local `YYYY-MM-DD` day, the `±HH:MM` UTC offset, the reading of a `Y-M-D` booking
    date, and the front end's age in whole years. */
module Calendar {
  import opened Wrappers
  import opened Text

  /** A calendar day; `month` counts from 1. */
  datatype Date = Date(year: int, month: int, day: int)

  predicate IsLeapYear(y: int)
  {
    y % 4 == 0 && (y % 100 != 0 || y % 400 == 0)
  }

  function DaysInMonth(year: int, month: int): int
    requires 1 <= month <= 12
  {
    if month == 2 then (if IsLeapYear(year) then 29 else 28)
    else if month == 4 || month == 6 || month == 9 || month == 11 then 30
    else 31
  }

  /** A day that exists in the proleptic Gregorian calendar. */
  predicate ValidDate(d: Date)
  {
    1 <= d.month <= 12 && 1 <= d.day <= DaysInMonth(d.year, d.month)
  }

  /** `a` is a strictly earlier day than `b`. */
  predicate Before(a: Date, b: Date)
  {
    a.year < b.year || (a.year == b.year && (a.month < b.month || (a.month == b.month && a.day < b.day)))
  }

  // ---------------------------------------------------------------- YYYY-MM-DD

  /** `${a}-${b}-${c}`. */
  function Dashed(a: string, b: string, c: string): string
  {
    a + "-" + b + "-" + c
  }

  /** Where the three fields of `a-b-c` sit. */
  lemma DashedSlices(a: string, b: string, c: string)
    ensures var s := Dashed(a, b, c);
      |s| == |a| + |b| + |c| + 2 && s[..|a|] == a && s[|a|] == '-' &&
      s[|a| + 1..|a| + 1 + |b|] == b && s[|a| + 1 + |b|] == '-' && s[|a| + 2 + |b|..] == c
  {
  }

  /** Splitting `a-b-c` on hyphens gives the three fields back when none holds a hyphen. */
  lemma SplitDashed(a: string, b: string, c: string)
    requires '-' !in a && '-' !in b && '-' !in c
    ensures Split(Dashed(a, b, c), '-') == [a, b, c]
  {
    JoinThree(a, b, c, "-");
    SplitJoin([a, b, c], '-');
  }

  /** `${year}-${String(month).padStart(2, '0')}-${String(day).padStart(2, '0')}`. */
  function FormatDay(d: Date): string
  {
    Dashed(IntToString(d.year), PadStart(IntToString(d.month), 2, '0'), PadStart(IntToString(d.day), 2, '0'))
  }

  /** The `todayStr` of getTodayCount, from the local clock's `getFullYear()`, zero-based
      `getMonth()` and `getDate()`. */
  function TodayString(fullYear: int, monthIndex: int, date: int): string
  {
    FormatDay(Date(fullYear, monthIndex + 1, date))
  }

  /** For a real day of a non-negative year the fields are the year's digits and the month
      and day padded to two digits. */
  lemma FormatDayFields(d: Date)
    requires ValidDate(d) && d.year >= 0
    ensures FormatDay(d) == Dashed(NatToString(d.year), ZeroPad(d.month, 2), ZeroPad(d.day, 2))
  {
  }

  /** The full-date production of section 5.6 of RFC 3339: four digits of year, two of
      month (01-12) and two of day (01-31), separated by hyphens. */
  predicate IsFullDate(s: string)
  {
    |s| == 10 && s[4] == '-' && s[7] == '-' &&
    AllDigits(s[..4]) && AllDigits(s[5..7]) && AllDigits(s[8..]) &&
    1 <= DigitsValue(s[5..7]) <= 12 && 1 <= DigitsValue(s[8..]) <= 31
  }

  lemma FullDateOfSlices(s: string, y: string, m: string, dd: string)
    requires |s| == 10 && s[4] == '-' && s[7] == '-'
    requires s[..4] == y && s[5..7] == m && s[8..] == dd
    requires AllDigits(y) && AllDigits(m) && AllDigits(dd)
    requires 1 <= DigitsValue(m) <= 12 && 1 <= DigitsValue(dd) <= 31
    ensures IsFullDate(s)
  {
  }

  /** Years 1000 to 9999 are written with exactly four digits. */
  lemma FourDigitYear(n: nat)
    requires 1000 <= n <= 9999
    ensures |NatToString(n)| == 4
  {
    var k := |NatToString(n)|;
    DigitCount(n);
    assert Pow10(3) == 1000 && Pow10(4) == 10000;
    if k > 4 {
      Pow10Monotone(4, k - 1);
    }
    if k < 4 {
      Pow10Monotone(k, 3);
    }
  }

  /** For a real day of a four-digit year, today's string is an RFC 3339 full-date whose
      fields read back as the day. */
  lemma TodayStringIsFullDate(d: Date)
    requires ValidDate(d) && 1000 <= d.year <= 9999
    ensures IsFullDate(FormatDay(d))
    ensures DigitsValue(FormatDay(d)[..4]) == d.year
    ensures DigitsValue(FormatDay(d)[5..7]) == d.month
    ensures DigitsValue(FormatDay(d)[8..]) == d.day
  {
    FormatDayFields(d);
    FullDateOfFields(d.year, d.month, d.day);
  }

  /** A four-digit year with a month and a day in range, written with padded month and day,
      is a full-date whose fields read back as the three numbers. */
  lemma FullDateOfFields(year: nat, month: nat, day: nat)
    requires 1000 <= year <= 9999 && 1 <= month <= 12 && 1 <= day <= 31
    ensures var s := Dashed(NatToString(year), ZeroPad(month, 2), ZeroPad(day, 2));
      IsFullDate(s) && DigitsValue(s[..4]) == year && DigitsValue(s[5..7]) == month && DigitsValue(s[8..]) == day
  {
    var y, m, dd := NatToString(year), ZeroPad(month, 2), ZeroPad(day, 2);
    assert |y| == 4 && DigitsValue(y) == year by {
      FourDigitYear(year);
      ValueOfNatToString(year);
    }
    assert |m| == 2 && |dd| == 2 by {
      assert Pow10(2) == 100;
      ZeroPadWidth(month, 2);
      ZeroPadWidth(day, 2);
    }
    ZeroPadDigits(month, 2);
    ZeroPadDigits(day, 2);
    FullDateOfDashed(Dashed(y, m, dd), y, m, dd);
  }

  /** Four, two and two digits joined by hyphens form a full-date, given a month and a day
      in range, and its fields are the three parts. */
  lemma FullDateOfDashed(s: string, y: string, m: string, dd: string)
    requires s == Dashed(y, m, dd) && |y| == 4 && |m| == 2 && |dd| == 2
    requires AllDigits(y) && AllDigits(m) && AllDigits(dd)
    requires 1 <= DigitsValue(m) <= 12 && 1 <= DigitsValue(dd) <= 31
    ensures IsFullDate(s) && s[..4] == y && s[5..7] == m && s[8..] == dd
  {
    DashedSlices(y, m, dd);
    FullDateOfSlices(s, y, m, dd);
  }

  // ---------------------------------------------------------------- ±HH:MM

  /** A sign (`+` when `nonNegative`), the hours, a colon and the minutes. */
  function SignedClock(nonNegative: bool, hours: string, minutes: string): string
  {
    (if nonNegative then "+" else "-") + hours + ":" + minutes
  }

  lemma ClockSlices(nonNegative: bool, hours: string, minutes: string)
    ensures var s := SignedClock(nonNegative, hours, minutes);
      |s| == |hours| + |minutes| + 2 && s[0] == (if nonNegative then '+' else '-') &&
      s[1..] == hours + [':'] + minutes &&
      s[1..1 + |hours|] == hours && s[1 + |hours|] == ':' && s[2 + |hours|..] == minutes
  {
  }

  /** A sign, then hours and minutes each padded to two digits. */
  function Clock(nonNegative: bool, hours: nat, minutes: nat): string
  {
    SignedClock(nonNegative, ZeroPad(hours, 2), ZeroPad(minutes, 2))
  }

  /** The `tz` string of getTodayCount, from JavaScript's `getTimezoneOffset()` (minutes by
      which UTC is ahead of local time): the sign of local time's lead on UTC (`+` for zero),
      then whole hours and remaining minutes of its magnitude, each padded to two digits. */
  function OffsetString(timezoneOffset: int): string
  {
    Clock(timezoneOffset <= 0, Magnitude(timezoneOffset) / 60, Magnitude(timezoneOffset) % 60)
  }

  /** `Math.abs`. */
  function Magnitude(x: int): nat
  {
    if x < 0 then -x else x
  }

  /** Reads `±H:M` (any number of digits in each field) as signed minutes. */
  function ParseOffset(s: string): Option<int>
  {
    if |s| == 0 || (s[0] != '+' && s[0] != '-') then None
    else
      var fields := Split(s[1..], ':');
      if |fields| != 2 || !AllDigits(fields[0]) || !AllDigits(fields[1]) then None
      else
        var minutes := DigitsValue(fields[0]) * 60 + DigitsValue(fields[1]);
        Some(if s[0] == '-' then -minutes else minutes)
  }

  /** A non-digit never occurs in a string of digits. */
  lemma NoSeparatorInDigits(s: string, c: char)
    requires AllDigits(s) && !IsDigit(c)
    ensures c !in s
  {
    forall i | 0 <= i < |s| ensures s[i] != c {
      assert IsDigit(s[i]);
    }
  }

  /** Two digit fields joined by a colon split back into the two fields. */
  lemma SplitAtColon(hours: string, minutes: string)
    requires AllDigits(hours) && AllDigits(minutes)
    ensures Split(hours + [':'] + minutes, ':') == [hours, minutes]
  {
    assert hours + [':'] + minutes == Join([hours, minutes], [':']) by {
      JoinFirst([hours, minutes], [':']);
      assert [hours, minutes][1..] == [minutes];
    }
    NoSeparatorInDigits(hours, ':');
    NoSeparatorInDigits(minutes, ':');
    SplitJoin([hours, minutes], ':');
  }

  /** `±H:M` with digit fields reads as the signed minutes it denotes. */
  lemma ParseSignedClock(nonNegative: bool, hours: string, minutes: string)
    requires AllDigits(hours) && AllDigits(minutes)
    ensures var value := DigitsValue(hours) * 60 + DigitsValue(minutes);
      ParseOffset(SignedClock(nonNegative, hours, minutes)) == Some(if nonNegative then value else -value)
  {
    ClockSlices(nonNegative, hours, minutes);
    SplitAtColon(hours, minutes);
  }

  /** A padded clock reads back as its hours times sixty plus its minutes, with its sign. */
  lemma ClockReadsBack(nonNegative: bool, hours: nat, minutes: nat)
    ensures ParseOffset(Clock(nonNegative, hours, minutes))
      == Some(if nonNegative then hours * 60 + minutes else -(hours * 60 + minutes))
    ensures Clock(nonNegative, hours, minutes)[0] == (if nonNegative then '+' else '-')
  {
    ZeroPadDigits(hours, 2);
    ZeroPadDigits(minutes, 2);
    ParseSignedClock(nonNegative, ZeroPad(hours, 2), ZeroPad(minutes, 2));
    ClockSlices(nonNegative, ZeroPad(hours, 2), ZeroPad(minutes, 2));
  }

  /** The offset string reads back as the local lead on UTC: its hours times sixty plus its
      minutes is the magnitude, and its sign is `+` exactly when the lead is not negative. */
  lemma OffsetStringReadsBack(timezoneOffset: int)
    ensures ParseOffset(OffsetString(timezoneOffset)) == Some(-timezoneOffset)
    ensures OffsetString(timezoneOffset)[0] == (if timezoneOffset <= 0 then '+' else '-')
  {
    ClockReadsBack(timezoneOffset <= 0, Magnitude(timezoneOffset) / 60, Magnitude(timezoneOffset) % 60);
  }

  /** The time-numoffset production of section 5.6 of RFC 3339: a sign, two digits of hour
      (00-23), a colon and two digits of minute (00-59). */
  predicate IsTimeNumOffset(s: string)
  {
    |s| == 6 && (s[0] == '+' || s[0] == '-') && s[3] == ':' &&
    AllDigits(s[1..3]) && AllDigits(s[4..]) &&
    DigitsValue(s[1..3]) <= 23 && DigitsValue(s[4..]) <= 59
  }

  lemma NumOffsetOfSlices(s: string, hh: string, mm: string)
    requires |s| == 6 && (s[0] == '+' || s[0] == '-') && s[3] == ':'
    requires s[1..3] == hh && s[4..] == mm
    requires AllDigits(hh) && AllDigits(mm) && DigitsValue(hh) <= 23 && DigitsValue(mm) <= 59
    ensures IsTimeNumOffset(s)
  {
  }

  /** A sign, two digits of hour up to 23, a colon and two digits of minute up to 59 form a
      time-numoffset. */
  lemma NumOffsetOfClock(s: string, nonNegative: bool, hh: string, mm: string)
    requires s == SignedClock(nonNegative, hh, mm) && |hh| == 2 && |mm| == 2
    requires AllDigits(hh) && AllDigits(mm) && DigitsValue(hh) <= 23 && DigitsValue(mm) <= 59
    ensures IsTimeNumOffset(s)
  {
    ClockSlices(nonNegative, hh, mm);
    NumOffsetOfSlices(s, hh, mm);
  }

  /** Hours up to 23 and minutes up to 59 give a time-numoffset. */
  lemma ClockIsNumOffset(nonNegative: bool, hours: nat, minutes: nat)
    requires hours <= 23 && minutes <= 59
    ensures IsTimeNumOffset(Clock(nonNegative, hours, minutes))
  {
    var hh, mm := ZeroPad(hours, 2), ZeroPad(minutes, 2);
    assert |hh| == 2 && |mm| == 2 by {
      assert Pow10(2) == 100;
      ZeroPadWidth(hours, 2);
      ZeroPadWidth(minutes, 2);
    }
    ZeroPadDigits(hours, 2);
    ZeroPadDigits(minutes, 2);
    NumOffsetOfClock(Clock(nonNegative, hours, minutes), nonNegative, hh, mm);
  }

  /** Every offset of less than a day in magnitude gives an RFC 3339 time-numoffset. */
  lemma OffsetStringIsNumOffset(timezoneOffset: int)
    requires -1440 < timezoneOffset < 1440
    ensures IsTimeNumOffset(OffsetString(timezoneOffset))
  {
    ClockIsNumOffset(timezoneOffset <= 0, Magnitude(timezoneOffset) / 60, Magnitude(timezoneOffset) % 60);
  }

  // ---------------------------------------------------------------- booking date

  /** What createAppointment turns the `appointmentDate` text into before saving. */
  datatype DateReading =
    | LocalMidnight(year: int, monthIndex: int, day: int)  // new Date(y, m - 1, d), local 00:00
    | NotANumber                                            // a part parseInt cannot read: Invalid Date
    | Generic(text: string)                                 // new Date(text), the fallback parse

  /** Splits on `-`; exactly three parts are read as year, month and day, anything else
      falls back to the generic parse. */
  function ReadBookingDate(text: string): (r: DateReading)
    ensures r.Generic? <==> |Split(text, '-')| != 3
    ensures r.Generic? ==> r.text == text
  {
    var parts := Split(text, '-');
    if |parts| != 3 then Generic(text) else ReadParts(parts[0], parts[1], parts[2])
  }

  /** The three parts read with `parseInt`, the month made zero-based; a part with no
      leading digits makes the date invalid. */
  function ReadParts(y: string, m: string, d: string): (r: DateReading)
    ensures r.LocalMidnight? <==> ParseInt(y).Some? && ParseInt(m).Some? && ParseInt(d).Some?
    ensures !r.Generic?
  {
    MidnightOf(ParseInt(y), ParseInt(m), ParseInt(d))
  }

  /** `new Date(year, month - 1, day)` on the three `parseInt` results, `NaN` being `None`. */
  function MidnightOf(year: Option<int>, month: Option<int>, day: Option<int>): DateReading
  {
    if year.Some? && month.Some? && day.Some? then LocalMidnight(year.value, month.value - 1, day.value)
    else NotANumber
  }

  /** The local day of a reading (`getFullYear()`, `getMonth() + 1`, `getDate()`), for the
      readings whose day is the constructor's arguments. */
  function LocalDayOf(r: DateReading): Date
    requires r.LocalMidnight?
  {
    Date(r.year, r.monthIndex + 1, r.day)
  }

  /** Text of three hyphen-free fields is read field by field. */
  lemma ReadDashed(a: string, b: string, c: string)
    requires '-' !in a && '-' !in b && '-' !in c
    ensures ReadBookingDate(Dashed(a, b, c)) == ReadParts(a, b, c)
  {
    SplitDashed(a, b, c);
  }

  /** Three parts that `parseInt` reads as numbers give the local midnight of those
      numbers, the month made zero-based. */
  lemma ReadParsedParts(y: string, m: string, d: string, year: int, month: int, day: int)
    requires ParseInt(y) == Some(year) && ParseInt(m) == Some(month) && ParseInt(d) == Some(day)
    ensures ReadParts(y, m, d) == LocalMidnight(year, month - 1, day)
  {
  }

  /** The year's digits, the month padded to two digits and the day padded to two digits
      followed by text that holds no hyphen and does not start with a digit, read as the
      local midnight of the three numbers. With an empty `rest` this is `FormatDay`'s text,
      with `T` and a clock time the date-and-time form of `toISOString` without an offset. */
  lemma ReadFormattedFields(year: nat, month: nat, day: nat, rest: string)
    requires (rest == [] || !IsDigit(rest[0])) && '-' !in rest
    ensures ReadBookingDate(Dashed(NatToString(year), ZeroPad(month, 2), ZeroPad(day, 2) + rest))
      == LocalMidnight(year, month - 1, day)
  {
    var y, m, dd := NatToString(year), ZeroPad(month, 2), ZeroPad(day, 2);
    NoSeparatorInDigits(y, '-');
    NoSeparatorInDigits(m, '-');
    NoSeparatorInDigits(dd, '-');
    assert '-' !in dd + rest;
    ReadDashed(y, m, dd + rest);
    ParseIntOfNatToString(year);
    ParseIntOfZeroPadThen(month, 2, []);
    assert m + [] == m;
    ParseIntOfZeroPadThen(day, 2, rest);
    ReadParsedParts(y, m, dd + rest, year, month, day);
  }

  /** A real day of a non-negative year, written `YYYY-MM-DD` as today's string is, is read
      as that local day, so formatting the stored day gives the submitted text back. */
  lemma BookingDateRoundTrip(d: Date)
    requires ValidDate(d) && d.year >= 0
    ensures ReadBookingDate(FormatDay(d)) == LocalMidnight(d.year, d.month - 1, d.day)
    ensures FormatDay(LocalDayOf(ReadBookingDate(FormatDay(d)))) == FormatDay(d)
  {
    FormatDayFields(d);
    assert ZeroPad(d.day, 2) + [] == ZeroPad(d.day, 2);
    ReadFormattedFields(d.year, d.month, d.day, []);
    assert LocalDayOf(LocalMidnight(d.year, d.month - 1, d.day)) == d;
  }

  /** An ISO timestamp of a day (`YYYY-MM-DDTclock`) whose clock part holds no hyphen, as
      with a `Z` suffix, still has three hyphen-separated parts: its day is kept and its
      clock time is dropped. */
  lemma IsoTimestampKeepsDay(d: Date, clock: string)
    requires ValidDate(d) && d.year >= 0 && '-' !in clock
    ensures ReadBookingDate(FormatDay(d) + "T" + clock) == LocalMidnight(d.year, d.month - 1, d.day)
  {
    FormatDayFields(d);
    AppendToDashed(FormatDay(d), NatToString(d.year), ZeroPad(d.month, 2), ZeroPad(d.day, 2), "T", clock);
    ReadFormattedFields(d.year, d.month, d.day, "T" + clock);
  }

  /** Text appended to `a-b-c` extends its last field. */
  lemma AppendToDashed(s: string, a: string, b: string, c: string, t: string, u: string)
    requires s == Dashed(a, b, c)
    ensures s + t + u == Dashed(a, b, c + (t + u))
  {
  }

  /** A timestamp with a negative UTC offset (`Y-M-DTclock-HH:MM`) has a fourth hyphen-free
      part and takes the generic parse. */
  lemma OffsetTimestampIsGeneric(y: string, m: string, dayAndClock: string, offset: string)
    requires '-' !in y && '-' !in m && '-' !in dayAndClock && '-' !in offset
    ensures ReadBookingDate(Dashed(y, m, dayAndClock) + "-" + offset).Generic?
  {
    var parts := [y, m, dayAndClock, offset];
    assert Join(parts, "-") == y + "-" + Join(parts[1..], "-") by {
      JoinFirst(parts, "-");
    }
    assert parts[1..] == [m, dayAndClock, offset];
    JoinThree(m, dayAndClock, offset, "-");
    assert Dashed(y, m, dayAndClock) + "-" + offset == Join(parts, "-");
    SplitJoin(parts, '-');
  }

  // ---------------------------------------------------------------- age

  /** calculateAge: the year difference, less one while this year's birthday (same month
      and day) is still ahead. It is the number of whole years lived: the birthday of that
      many years is not after today, and the next one is. */
  function Age(today: Date, birth: Date): (age: int)
    ensures !Before(today, Date(birth.year + age, birth.month, birth.day))
    ensures Before(today, Date(birth.year + age + 1, birth.month, birth.day))
  {
    var years := today.year - birth.year;
    var monthDiff := today.month - birth.month;
    if monthDiff < 0 || (monthDiff == 0 && today.day < birth.day) then years - 1 else years
  }

  /** On the birthday itself the age is the plain year difference. */
  lemma AgeOnBirthday(today: Date, birth: Date)
    requires today.month == birth.month && today.day == birth.day
    ensures Age(today, birth) == today.year - birth.year
  {
  }

  /** The day before the birthday (same month) the age is one less than the year difference. */
  lemma AgeOnEveOfBirthday(today: Date, birth: Date)
    requires today.month == birth.month && today.day + 1 == birth.day
    ensures Age(today, birth) == today.year - birth.year - 1
  {
  }

  /** The age is fixed by its two bounds: any number of years whose anniversary is not after
      today while the next one is, is the age. */
  lemma AgeIsUnique(today: Date, birth: Date, k: int)
    requires !Before(today, Date(birth.year + k, birth.month, birth.day))
    requires Before(today, Date(birth.year + k + 1, birth.month, birth.day))
    ensures k == Age(today, birth)
  {
  }
}
