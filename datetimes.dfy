/**
 * Calendar date-times in the `Y-m-d H:i:s` layout used for the
 * `appointment_date` column, the acceptance test both appointment endpoints
 * apply to a date string (parse it, format the result, compare with the
 * input), the admin-side normalisation of minute-precision strings and the
 * public booking form's composition of a date and a time.
 */
module DateTimes {
  import opened Wrappers
  import opened Digits
  import opened Text

  datatype DateTime = DateTime(year: int, month: int, day: int, hour: int, minute: int, second: int)

  predicate IsLeapYear(year: int)
  {
    year % 4 == 0 && (year % 100 != 0 || year % 400 == 0)
  }

  function DaysInMonth(year: int, month: int): int
    requires 1 <= month <= 12
  {
    if month == 2 then (if IsLeapYear(year) then 29 else 28)
    else if month == 4 || month == 6 || month == 9 || month == 11 then 30
    else 31
  }

  /** A day of the proleptic Gregorian calendar whose year has four digits. */
  predicate ValidDate(year: int, month: int, day: int)
  {
    0 <= year <= 9999 && 1 <= month <= 12 && 1 <= day <= DaysInMonth(year, month)
  }

  predicate ValidClock(hour: int, minute: int, second: int)
  {
    0 <= hour < 24 && 0 <= minute < 60 && 0 <= second < 60
  }

  predicate Valid(dt: DateTime)
  {
    ValidDate(dt.year, dt.month, dt.day) && ValidClock(dt.hour, dt.minute, dt.second)
  }

  /** Chronological order, as the database orders a DATETIME column. */
  predicate NotLater(a: DateTime, b: DateTime)
  {
    || a.year < b.year
    || (a.year == b.year && a.month < b.month)
    || (a.year == b.year && a.month == b.month && a.day < b.day)
    || (a.year == b.year && a.month == b.month && a.day == b.day && a.hour < b.hour)
    || (a.year == b.year && a.month == b.month && a.day == b.day && a.hour == b.hour && a.minute < b.minute)
    || (a.year == b.year && a.month == b.month && a.day == b.day && a.hour == b.hour && a.minute == b.minute && a.second <= b.second)
  }

  /** Layouts: 'd' stands for one decimal digit, any other character for itself. */
  const DateTimeLayout: string := "dddd-dd-dd dd:dd:dd"
  const DateLayout: string := "dddd-dd-dd"
  const ClockLayout: string := "dd:dd"

  /** One character against one layout character. */
  predicate CharFits(c: char, l: char)
  {
    if l == 'd' then IsDigit(c) else c == l
  }

  predicate Fits(s: string, layout: string)
  {
    |s| == |layout| && forall i :: 0 <= i < |s| ==> if layout[i] == 'd' then IsDigit(s[i]) else s[i] == layout[i]
  }

  /** `$dt->format('Y-m-d H:i:s')`. */
  function Format(dt: DateTime): (s: string)
    requires Valid(dt)
    ensures |s| == 19
  {
    Pad(dt.year, 4) + "-" + Pad(dt.month, 2) + "-" + Pad(dt.day, 2) + " "
      + Pad(dt.hour, 2) + ":" + Pad(dt.minute, 2) + ":" + Pad(dt.second, 2)
  }

  /** The six numeric fields of a string in the `Y-m-d H:i:s` layout. */
  function FieldsOf(s: string): DateTime
    requires Fits(s, DateTimeLayout)
  {
    DateTime(Number(s[0..4]), Number(s[5..7]), Number(s[8..10]),
             Number(s[11..13]), Number(s[14..16]), Number(s[17..19]))
  }

  /**
   * `DateTime::createFromFormat('Y-m-d H:i:s', $s)` as far as the callers can
   * observe it: a string in the layout whose fields name a real date-time is
   * read as that date-time; anything else is no date-time. (PHP reads some
   * other strings too, rolling impossible days over into the next month; the
   * callers reject every such reading, see RoundTripsIffFormatted.)
   */
  function Parse(s: string): Option<DateTime>
  {
    if Fits(s, DateTimeLayout) && Valid(FieldsOf(s)) then Some(FieldsOf(s)) else None
  }

  /** The acceptance test: parsing succeeds and formatting the result reproduces `s` exactly. */
  predicate RoundTrips(s: string)
  {
    Parse(s).Some? && Valid(Parse(s).value) && Format(Parse(s).value) == s
  }

  lemma FitsConcat(a: string, b: string, la: string, lb: string)
    requires |a| == |la|
    ensures Fits(a + b, la + lb) <==> Fits(a, la) && Fits(b, lb)
  {
    var s, l := a + b, la + lb;
    if Fits(s, l) {
      forall i | 0 <= i < |a| ensures CharFits(a[i], la[i]) {
        assert s[i] == a[i] && l[i] == la[i];
      }
      forall i | 0 <= i < |b| ensures CharFits(b[i], lb[i]) {
        assert s[|a| + i] == b[i] && l[|a| + i] == lb[i];
      }
    }
    if Fits(a, la) && Fits(b, lb) {
      forall i | 0 <= i < |s| ensures CharFits(s[i], l[i]) {
        if i < |a| {
          assert s[i] == a[i] && l[i] == la[i];
        } else {
          assert s[i] == b[i - |a|] && l[i] == lb[i - |a|];
        }
      }
    }
  }

  lemma FitsPad(n: nat, width: nat, layout: string)
    requires n < Pow10(width) && |layout| == width
    requires forall i :: 0 <= i < width ==> layout[i] == 'd'
    ensures Fits(Pad(n, width), layout)
  {
  }

  /** A formatted date-time has the layout and reads back as itself. */
  lemma {:induction false} FormatFits(dt: DateTime)
    requires Valid(dt)
    ensures Fits(Format(dt), DateTimeLayout) && FieldsOf(Format(dt)) == dt
  {
    FormatHasLayout(dt);
    var s := Format(dt);
    FormatSlices(dt);
    NumberOfPad(dt.year, 4);
    NumberOfPad(dt.month, 2);
    NumberOfPad(dt.day, 2);
    NumberOfPad(dt.hour, 2);
    NumberOfPad(dt.minute, 2);
    NumberOfPad(dt.second, 2);
  }

  lemma FormatSlices(dt: DateTime)
    requires Valid(dt)
    ensures Format(dt)[0..4] == Pad(dt.year, 4) && Format(dt)[5..7] == Pad(dt.month, 2)
    ensures Format(dt)[8..10] == Pad(dt.day, 2) && Format(dt)[11..13] == Pad(dt.hour, 2)
    ensures Format(dt)[14..16] == Pad(dt.minute, 2) && Format(dt)[17..19] == Pad(dt.second, 2)
  {
  }

  lemma FormatHasLayout(dt: DateTime)
    requires Valid(dt)
    ensures Fits(Format(dt), DateTimeLayout)
  {
    var y, mo, d := Pad(dt.year, 4), Pad(dt.month, 2), Pad(dt.day, 2);
    var h, mi, se := Pad(dt.hour, 2), Pad(dt.minute, 2), Pad(dt.second, 2);
    var datePart, clockPart := y + "-" + mo + "-" + d, " " + h + ":" + mi + ":" + se;
    assert Format(dt) == datePart + clockPart;
    DatePartFits(dt);
    ClockPartFits(dt);
    FitsConcat(datePart, clockPart, "dddd-dd-dd", " dd:dd:dd");
    assert DateTimeLayout == "dddd-dd-dd" + " dd:dd:dd";
  }

  lemma DatePartFits(dt: DateTime)
    requires Valid(dt)
    ensures Fits(Pad(dt.year, 4) + "-" + Pad(dt.month, 2) + "-" + Pad(dt.day, 2), "dddd-dd-dd")
  {
    var y, mo, d := Pad(dt.year, 4), Pad(dt.month, 2), Pad(dt.day, 2);
    FitsPad(dt.year, 4, "dddd");
    FitsPad(dt.month, 2, "dd");
    FitsPad(dt.day, 2, "dd");
    FitsConcat(y, "-", "dddd", "-");
    FitsConcat(y + "-", mo, "dddd-", "dd");
    FitsConcat(y + "-" + mo, "-", "dddd-dd", "-");
    FitsConcat(y + "-" + mo + "-", d, "dddd-dd-", "dd");
  }

  lemma ClockPartFits(dt: DateTime)
    requires Valid(dt)
    ensures Fits(" " + Pad(dt.hour, 2) + ":" + Pad(dt.minute, 2) + ":" + Pad(dt.second, 2), " dd:dd:dd")
  {
    var h, mi, se := Pad(dt.hour, 2), Pad(dt.minute, 2), Pad(dt.second, 2);
    FitsPad(dt.hour, 2, "dd");
    FitsPad(dt.minute, 2, "dd");
    FitsPad(dt.second, 2, "dd");
    FitsConcat(" ", h, " ", "dd");
    FitsConcat(" " + h, ":", " dd", ":");
    FitsConcat(" " + h + ":", mi, " dd:", "dd");
    FitsConcat(" " + h + ":" + mi, ":", " dd:dd", ":");
    FitsConcat(" " + h + ":" + mi + ":", se, " dd:dd:", "dd");
  }

  lemma Pieces(s: string)
    requires |s| == 19
    ensures s == s[0..4] + [s[4]] + s[5..7] + [s[7]] + s[8..10] + [s[10]]
               + s[11..13] + [s[13]] + s[14..16] + [s[16]] + s[17..19]
  {
  }

  /** A string in the layout is the formatting of its own fields. */
  lemma {:induction false} FieldsFormat(s: string)
    requires Fits(s, DateTimeLayout) && Valid(FieldsOf(s))
    ensures Format(FieldsOf(s)) == s
  {
    LayoutParts(s);
    var f := FieldsOf(s);
    PadOfNumber(s[0..4]);
    PadOfNumber(s[5..7]);
    PadOfNumber(s[8..10]);
    PadOfNumber(s[11..13]);
    PadOfNumber(s[14..16]);
    PadOfNumber(s[17..19]);
    assert Pad(f.year, 4) == s[0..4] && Pad(f.month, 2) == s[5..7] && Pad(f.day, 2) == s[8..10];
    assert Pad(f.hour, 2) == s[11..13] && Pad(f.minute, 2) == s[14..16] && Pad(f.second, 2) == s[17..19];
    Pieces(s);
  }

  /** The separators of a string in the layout. */
  lemma LayoutParts(s: string)
    requires Fits(s, DateTimeLayout)
    ensures s[4] == '-' && s[7] == '-' && s[10] == ' ' && s[13] == ':' && s[16] == ':'
  {
    assert DateTimeLayout[4] == '-' && DateTimeLayout[7] == '-' && DateTimeLayout[10] == ' ';
    assert DateTimeLayout[13] == ':' && DateTimeLayout[16] == ':';
  }

  /** Formatting then parsing gives the date-time back. */
  lemma ParseFormat(dt: DateTime)
    requires Valid(dt)
    ensures Parse(Format(dt)) == Some(dt) && RoundTrips(Format(dt))
  {
    FormatFits(dt);
  }

  /** The acceptance test holds exactly of the strings in the layout whose fields name a real date-time. */
  lemma RoundTripsIff(s: string)
    ensures RoundTrips(s) <==> Fits(s, DateTimeLayout) && Valid(FieldsOf(s))
  {
    if Fits(s, DateTimeLayout) && Valid(FieldsOf(s)) {
      FieldsFormat(s);
    }
  }

  /**
   * The acceptance test accepts exactly the formatted images of real
   * date-times, so it does not depend on how leniently the parser reads
   * other strings: whatever it makes of them, formatting cannot give them
   * back.
   */
  lemma RoundTripsIffFormatted(s: string)
    ensures RoundTrips(s) <==> exists dt :: Valid(dt) && Format(dt) == s
  {
    if exists dt :: Valid(dt) && Format(dt) == s {
      var dt :| Valid(dt) && Format(dt) == s;
      ParseFormat(dt);
    }
  }

  /**
   * Admin-side normalisation (applied to the already `trim`med field): strip
   * PCRE white space at both ends, then append ":00" when the result is
   * exactly 16 bytes long (minute precision).
   */
  function NormalizeAdminDate(date: string): string
  {
    var t := PcreStrip(date);
    if Utf8Length(t) == 16 then t + ":00" else t
  }

  /**
   * The dashboard edits a stored date-time by showing its first 16
   * characters; when its seconds are zero, sending that text back unchanged
   * (trimmed, then normalised) gives the stored text again, and it passes the
   * acceptance test.
   */
  lemma {:induction false} DashboardRoundTrip(dt: DateTime)
    requires Valid(dt) && dt.second == 0
    ensures NormalizeAdminDate(PhpTrim(Format(dt)[..16])) == Format(dt)
    ensures RoundTrips(NormalizeAdminDate(PhpTrim(Format(dt)[..16])))
  {
    var s := Format(dt);
    var p := s[..16];
    MinutePrefix(dt);
    assert s[17..19] == Pad(0, 2) == "00";
    assert s == p + ":00";
    ParseFormat(dt);
  }

  /** The first 16 characters of a formatted date-time are ASCII and have no white space at either end. */
  lemma MinutePrefix(dt: DateTime)
    requires Valid(dt)
    ensures PhpTrim(Format(dt)[..16]) == Format(dt)[..16]
    ensures PcreStrip(Format(dt)[..16]) == Format(dt)[..16]
    ensures Utf8Length(Format(dt)[..16]) == 16
  {
    var p := Format(dt)[..16];
    MinuteText(dt);
    TrimOfTrimmed(p, PhpTrimSpace);
    TrimOfTrimmed(p, PcreSpace);
    AsciiLengths(p);
  }

  /** The first 16 characters of a formatted date-time start and end with a digit and are all ASCII. */
  lemma MinuteText(dt: DateTime)
    requires Valid(dt)
    ensures var p := Format(dt)[..16]; |p| == 16 && IsDigit(p[0]) && IsDigit(p[15]) && IsAscii(p)
  {
    var p := Format(dt)[..16];
    FormatFits(dt);
    assert DateTimeLayout[0] == 'd' && DateTimeLayout[15] == 'd';
    forall k | 0 <= k < 16 ensures p[k] as int < 0x80 {
      assert DateTimeLayout[k] == 'd' || p[k] == DateTimeLayout[k];
    }
  }

  /** Public booking: the date field and the optional time field, with 09:00 as the default time. */
  function ComposeDateTime(date: string, time: string): string
  {
    if time != "" then date + " " + time + ":00" else date + " 09:00:00"
  }

  /** A `Y-m-d` date text naming a real day. */
  predicate IsDateText(d: string)
  {
    Fits(d, DateLayout) && ValidDate(Number(d[0..4]), Number(d[5..7]), Number(d[8..10]))
  }

  /** An `H:i` time text naming a real minute of the day. */
  predicate IsClockText(t: string)
  {
    Fits(t, ClockLayout) && Number(t[0..2]) < 24 && Number(t[3..5]) < 60
  }

  /** Where the layout has a space: only between the date and the time. */
  lemma SpaceOnlyAtTen(s: string, k: int)
    requires Fits(s, DateTimeLayout) && 0 <= k < |s| && s[k] == ' '
    ensures k == 10
  {
    assert !IsDigit(s[k]);
  }

  /** With no time field, the composed text passes exactly when the date field is a real day. */
  lemma {:induction false} ComposeDefaultTime(date: string)
    ensures RoundTrips(ComposeDateTime(date, "")) <==> IsDateText(date)
  {
    var s := ComposeDateTime(date, "");
    RoundTripsIff(s);
    DefaultLayout(date);
    if Fits(date, DateLayout) {
      DefaultFields(date);
    }
  }

  /** With no time field, the composed text has the layout exactly when the date field has its own. */
  lemma DefaultLayout(date: string)
    ensures Fits(ComposeDateTime(date, ""), DateTimeLayout) <==> Fits(date, DateLayout)
  {
    var s := ComposeDateTime(date, "");
    assert s == date + " 09:00:00";
    if |date| == 10 {
      FitsConcat(date, " 09:00:00", DateLayout, " dd:dd:dd");
      assert DateTimeLayout == DateLayout + " dd:dd:dd";
    }
  }

  /** The fields of a composed text without a time: the date's, at 09:00:00. */
  lemma DefaultFields(date: string)
    requires Fits(date, DateLayout) && Fits(ComposeDateTime(date, ""), DateTimeLayout)
    ensures FieldsOf(ComposeDateTime(date, ""))
         == DateTime(Number(date[0..4]), Number(date[5..7]), Number(date[8..10]), 9, 0, 0)
  {
    var s := ComposeDateTime(date, "");
    assert s == date + " 09:00:00";
    assert s[0..4] == date[0..4] && s[5..7] == date[5..7] && s[8..10] == date[8..10];
    assert s[11..13] == "09" && s[14..16] == "00" && s[17..19] == "00";
    NumberTwo("09");
    NumberTwo("00");
  }

  /** The tail " H:i:00" of a composed text, for a five-character time field. */
  lemma {:induction false} ClockTailFits(time: string)
    requires |time| == 5
    ensures Fits(" " + time + ":00", " dd:dd:dd") <==> Fits(time, ClockLayout)
  {
    assert " " + time + ":00" == " " + (time + ":00");
    assert " dd:dd:dd" == " " + (ClockLayout + ":dd");
    FitsConcat(" ", time + ":00", " ", ClockLayout + ":dd");
    FitsConcat(time, ":00", ClockLayout, ":dd");
  }

  /** With a time field, the composed text has the layout exactly when both fields have theirs. */
  lemma {:induction false} ComposedLayout(date: string, time: string)
    requires time != ""
    ensures Fits(ComposeDateTime(date, time), DateTimeLayout) <==> Fits(date, DateLayout) && Fits(time, ClockLayout)
  {
    var s := ComposeDateTime(date, time);
    assert s == date + " " + time + ":00";
    if Fits(s, DateTimeLayout) {
      assert s[|date|] == ' ';
      SpaceOnlyAtTen(s, |date|);
    }
    if |date| == 10 && |time| == 5 {
      assert s == date + (" " + time + ":00");
      assert DateTimeLayout == DateLayout + " dd:dd:dd";
      FitsConcat(date, " " + time + ":00", DateLayout, " dd:dd:dd");
      ClockTailFits(time);
    }
  }

  /** The fields of a composed text in the layout: the date's, the time's, and zero seconds. */
  lemma ComposedFields(date: string, time: string)
    requires time != "" && Fits(ComposeDateTime(date, time), DateTimeLayout)
    requires Fits(date, DateLayout) && Fits(time, ClockLayout)
    ensures FieldsOf(ComposeDateTime(date, time))
         == DateTime(Number(date[0..4]), Number(date[5..7]), Number(date[8..10]),
                     Number(time[0..2]), Number(time[3..5]), 0)
  {
    var s := ComposeDateTime(date, time);
    assert s == date + " " + time + ":00";
    assert s[0..4] == date[0..4] && s[5..7] == date[5..7] && s[8..10] == date[8..10];
    assert s[11..13] == time[0..2] && s[14..16] == time[3..5];
    assert s[17..19] == "00";
    NumberTwo("00");
  }

  /** With a time field, the composed text passes exactly when both fields are real. */
  lemma {:induction false} ComposeWithTime(date: string, time: string)
    requires time != ""
    ensures RoundTrips(ComposeDateTime(date, time)) <==> IsDateText(date) && IsClockText(time)
  {
    var s := ComposeDateTime(date, time);
    RoundTripsIff(s);
    ComposedLayout(date, time);
    if Fits(s, DateTimeLayout) {
      ComposedFields(date, time);
    }
  }

  /**
   * A composed booking date passes the acceptance test exactly when the date
   * field is a real `Y-m-d` day and the time field is empty or a real `H:i`
   * minute.
   */
  lemma ComposeAcceptedIff(date: string, time: string)
    ensures RoundTrips(ComposeDateTime(date, time))
        <==> IsDateText(date) && (time == "" || IsClockText(time))
  {
    if time == "" {
      ComposeDefaultTime(date);
    } else {
      ComposeWithTime(date, time);
    }
  }

  lemma NumberTwo(s: string)
    requires |s| == 2 && AllDigits(s)
    ensures Number(s) == 10 * DigitValue(s[0]) + DigitValue(s[1])
  {
    assert s[..1][..0] == [];
  }

  lemma PadTwo(n: nat)
    requires n < 100
    ensures Pad(n, 2) == [DigitChar(n / 10), DigitChar(n % 10)]
  {
    assert n / 10 < 10;
    assert n / 10 / 10 == 0 && n / 10 % 10 == n / 10;
    assert Pad(n / 10, 1) == Pad(n / 10 / 10, 0) + [DigitChar(n / 10 % 10)];
  }

  /** An impossible day is refused whatever the time field holds. */
  lemma February30Refused(time: string)
    ensures !RoundTrips(ComposeDateTime("2025-02-30", time))
  {
    ComposeAcceptedIff("2025-02-30", time);
    NotADay();
  }

  lemma NotADay()
    ensures !IsDateText("2025-02-30")
  {
    var d := "2025-02-30";
    if Fits(d, DateLayout) {
      assert d[5..7] == "02" && d[8..10] == "30";
      NumberTwo("02");
      NumberTwo("30");
      assert DaysInMonth(Number(d[0..4]), 2) <= 29;
    }
  }

  lemma Pad2030()
    ensures Pad(2030, 4) == "2030"
  {
    assert Pad(2030, 4) == Pad(203, 3) + [DigitChar(0)];
    assert Pad(203, 3) == Pad(20, 2) + [DigitChar(3)];
    PadTwo(20);
  }

  lemma FormatAtTen()
    ensures Valid(DateTime(2030, 1, 1, 10, 0, 0))
    ensures Format(DateTime(2030, 1, 1, 10, 0, 0)) == "2030-01-01 10:00:00"
  {
    var dt := DateTime(2030, 1, 1, 10, 0, 0);
    Pad2030();
    PadTwo(1);
    PadTwo(0);
    PadTwo(10);
    assert Format(dt) == "2030" + "-" + "01" + "-" + "01" + " " + "10" + ":" + "00" + ":" + "00";
  }

  lemma FormatAtNine()
    ensures Valid(DateTime(2030, 1, 1, 9, 0, 0))
    ensures Format(DateTime(2030, 1, 1, 9, 0, 0)) == "2030-01-01 09:00:00"
  {
    var dt := DateTime(2030, 1, 1, 9, 0, 0);
    Pad2030();
    PadTwo(1);
    PadTwo(0);
    PadTwo(9);
    assert Format(dt) == "2030" + "-" + "01" + "-" + "01" + " " + "09" + ":" + "00" + ":" + "00";
  }

  /** A booking for 1 January 2030 at 10:00 is stored as 10:00:00. */
  lemma BookingWithTime()
    ensures ComposeDateTime("2030-01-01", "10:00") == "2030-01-01 10:00:00"
    ensures RoundTrips(ComposeDateTime("2030-01-01", "10:00"))
  {
    assert ComposeDateTime("2030-01-01", "10:00") == "2030-01-01 10:00:00";
    FormatAtTen();
    ParseFormat(DateTime(2030, 1, 1, 10, 0, 0));
  }

  /** A booking for 1 January 2030 without a time is stored as 09:00:00. */
  lemma BookingWithoutTime()
    ensures ComposeDateTime("2030-01-01", "") == "2030-01-01 09:00:00"
    ensures RoundTrips(ComposeDateTime("2030-01-01", ""))
  {
    assert ComposeDateTime("2030-01-01", "") == "2030-01-01 09:00:00";
    FormatAtNine();
    ParseFormat(DateTime(2030, 1, 1, 9, 0, 0));
  }

  /** Zero-padded numbers of one width compare as text exactly as they compare as numbers. */
  lemma {:induction false} PadOrder(n: nat, m: nat, width: nat)
    requires n < Pow10(width) && m < Pow10(width)
    decreases width
    ensures LexLess(Pad(n, width), Pad(m, width)) <==> n < m
    ensures Pad(n, width) == Pad(m, width) <==> n == m
  {
    PadInjective(n, m, width);
    if width > 0 {
      var s, t := Pad(n, width), Pad(m, width);
      PadOrder(n / 10, m / 10, width - 1);
      LexSplit(s, t, width - 1);
      assert s[..width - 1] == Pad(n / 10, width - 1) && t[..width - 1] == Pad(m / 10, width - 1);
      assert s[width - 1..] == [DigitChar(n % 10)] && t[width - 1..] == [DigitChar(m % 10)];
      DigitOrder(n % 10, m % 10);
      DecimalOrder(n, m);
    }
  }

  lemma PadInjective(n: nat, m: nat, width: nat)
    requires n < Pow10(width) && m < Pow10(width)
    ensures Pad(n, width) == Pad(m, width) <==> n == m
  {
    NumberOfPad(n, width);
    NumberOfPad(m, width);
  }

  lemma DigitOrder(x: nat, y: nat)
    requires x < 10 && y < 10
    ensures LexLess([DigitChar(x)], [DigitChar(y)]) <==> x < y
  {
    assert [DigitChar(x)][1..] == [] && [DigitChar(y)][1..] == [];
  }

  /** Numbers compare by their leading digits first, then by their last digit. */
  lemma DecimalOrder(n: nat, m: nat)
    ensures n < m <==> n / 10 < m / 10 || (n / 10 == m / 10 && n % 10 < m % 10)
  {
  }

  /** Comparing from position `k`: the `w` characters there first, then what follows. */
  lemma LexField(s: string, t: string, k: nat, w: nat)
    requires k + w <= |s| && k + w <= |t|
    ensures LexLess(s[k..], t[k..])
        <==> LexLess(s[k..k + w], t[k..k + w]) || (s[k..k + w] == t[k..k + w] && LexLess(s[k + w..], t[k + w..]))
  {
    LexSplit(s[k..], t[k..], w);
    assert s[k..][..w] == s[k..k + w] && t[k..][..w] == t[k..k + w];
    assert s[k..][w..] == s[k + w..] && t[k..][w..] == t[k + w..];
  }

  /** Comparing from position `k` where both hold the same separator: compare from `k + 1`. */
  lemma LexSeparator(s: string, t: string, k: nat)
    requires k < |s| && k < |t| && s[k] == t[k]
    ensures LexLess(s[k..], t[k..]) <==> LexLess(s[k + 1..], t[k + 1..])
  {
    assert s[k..][1..] == s[k + 1..] && t[k..][1..] == t[k + 1..];
  }

  /** The `H:i:s` part of two formatted date-times compares as the clock times do. */
  lemma {:induction false} ClockOrder(a: DateTime, b: DateTime)
    requires Valid(a) && Valid(b)
    ensures LexLess(Format(a)[11..], Format(b)[11..])
        <==> a.hour < b.hour || (a.hour == b.hour && (a.minute < b.minute || (a.minute == b.minute && a.second < b.second)))
  {
    var s, t := Format(a), Format(b);
    FormatSlices(a);
    FormatSlices(b);
    FormatFits(a);
    FormatFits(b);
    assert s[13] == DateTimeLayout[13] == t[13] && s[16] == DateTimeLayout[16] == t[16];
    PadOrder(a.hour, b.hour, 2);
    PadOrder(a.minute, b.minute, 2);
    PadOrder(a.second, b.second, 2);
    LexClockFields(s, t);
  }

  /** Two 19-character texts sharing the separators at 13 and 16 compare from 11 field by field: `dd`, `dd`, `dd`. */
  lemma {:induction false} LexClockFields(s: string, t: string)
    requires |s| == 19 && |t| == 19
    requires s[13] == t[13] && s[16] == t[16]
    ensures LexLess(s[11..], t[11..])
        <==> || LexLess(s[11..13], t[11..13])
             || (s[11..13] == t[11..13] && LexLess(s[14..16], t[14..16]))
             || (s[11..13] == t[11..13] && s[14..16] == t[14..16] && LexLess(s[17..19], t[17..19]))
  {
    LexField(s, t, 11, 2);
    LexSeparator(s, t, 13);
    LexField(s, t, 14, 2);
    LexSeparator(s, t, 16);
    LexField(s, t, 17, 2);
    assert s[19..] == [] && t[19..] == [];
  }

  /** Two texts sharing the separators at 4, 7 and 10 compare field by field: `dddd`, then `dd`, then `dd`, then the rest. */
  lemma {:induction false} LexDateFields(s: string, t: string)
    requires |s| >= 11 && |t| >= 11
    requires s[4] == t[4] && s[7] == t[7] && s[10] == t[10]
    ensures LexLess(s, t)
        <==> || LexLess(s[0..4], t[0..4])
             || (s[0..4] == t[0..4] && LexLess(s[5..7], t[5..7]))
             || (s[0..4] == t[0..4] && s[5..7] == t[5..7] && LexLess(s[8..10], t[8..10]))
             || (s[0..4] == t[0..4] && s[5..7] == t[5..7] && s[8..10] == t[8..10] && LexLess(s[11..], t[11..]))
  {
    assert s[0..] == s && t[0..] == t;
    LexField(s, t, 0, 4);
    LexSeparator(s, t, 4);
    LexField(s, t, 5, 2);
    LexSeparator(s, t, 7);
    LexField(s, t, 8, 2);
    LexSeparator(s, t, 10);
  }

  /** Formatted date-times compare by year, month and day first, then by their `H:i:s` parts. */
  lemma {:induction false} DateOrder(a: DateTime, b: DateTime)
    requires Valid(a) && Valid(b)
    ensures LexLess(Format(a), Format(b))
        <==> || a.year < b.year
             || (a.year == b.year && a.month < b.month)
             || (a.year == b.year && a.month == b.month && a.day < b.day)
             || (a.year == b.year && a.month == b.month && a.day == b.day && LexLess(Format(a)[11..], Format(b)[11..]))
  {
    var s, t := Format(a), Format(b);
    FormatSlices(a);
    FormatSlices(b);
    FormatFits(a);
    FormatFits(b);
    assert s[4] == DateTimeLayout[4] == t[4] && s[7] == DateTimeLayout[7] == t[7];
    assert s[10] == DateTimeLayout[10] == t[10];
    PadOrder(a.year, b.year, 4);
    PadOrder(a.month, b.month, 2);
    PadOrder(a.day, b.day, 2);
    LexDateFields(s, t);
  }

  /** Formatted date-times compare as text exactly as they compare in time. */
  lemma {:induction false} FormatLess(a: DateTime, b: DateTime)
    requires Valid(a) && Valid(b)
    ensures LexLess(Format(a), Format(b)) <==> NotLater(a, b) && a != b
  {
    DateOrder(a, b);
    ClockOrder(a, b);
  }

  /**
   * On stored date-times, ordering the text is ordering in time: what
   * `ORDER BY appointment_date` does on the DATETIME column.
   */
  lemma {:induction false} TextOrderIsChronological(s: string, t: string)
    requires RoundTrips(s) && RoundTrips(t)
    ensures LexLeq(s, t) <==> NotLater(Parse(s).value, Parse(t).value)
  {
    var a, b := Parse(s).value, Parse(t).value;
    FormatLess(a, b);
  }
}
