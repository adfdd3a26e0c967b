/** The other two forms a date may have, and what is made of numbers out of range: RFC 850 with its two-digit year,
    asctime with its blank-padded day, and the leap second. */
module HttpDateForms {
  import opened CivilDate
  import opened HttpDate
  import opened Seqs

  /** `Sunday, 06-Nov-94 08:49:37 GMT`. */
  function Rfc850(weekday: string, date: Date, rem: int): string
    requires Valid(date) && 0 <= date.year
  {
    weekday + ", " + Printed(date.day, 2) + "-" + MONTHS[date.month - 1] + "-" + Printed(date.year % 100, 2)
      + " " + Clock(rem) + (" " + "GMT")
  }

  /** `Sun Nov  6 08:49:37 1994`. */
  function Asctime(weekday: string, date: Date, rem: int): string
    requires Valid(date)
  {
    weekday + " " + MONTHS[date.month - 1] + " " + (if date.day < 10 then " " + Decimal(date.day) else Decimal(date.day))
      + " " + Clock(rem) + (" " + Printed(date.year, 4))
  }

  // ----- Numbers in range and out of it -----

  /** A time of day, each number padded to two digits or longer: in range it is counted in milliseconds, a leap second
      as the second before it; anything else is refused. */
  lemma TimeParsesExactly(h: nat, m: nat, s: nat)
    requires h <= 0x100_0000_0000 && m <= 0x100_0000_0000 && s <= 0x100_0000_0000
    ensures ParseTime(Printed(h, 2) + [':'] + Printed(m, 2) + [':'] + Printed(s, 2))
      == if h <= 23 && m <= 59 && s <= 60 then 3600000 * h + 60000 * m + 1000 * (if s == 60 then 59 else s) else -1
  {
    PrintedReadsBack(h, 2);
    PrintedReadsBack(m, 2);
    PrintedReadsBack(s, 2);
    hide Printed, ParseUInt, Find;
    TimeReadsBack(Printed(h, 2), Printed(m, 2), Printed(s, 2));
  }

  /** A day, a month's name and a year of three digits or more, which is taken as it stands. */
  lemma DateParsesExactly(day: nat, month: nat, year: nat, width: nat, time: string)
    requires day <= 0x100_0000_0000 && year <= 0x100_0000_0000 && 1 <= month <= 12 && width >= 3
    ensures ParseFields(Fields(Printed(day, 2), MONTHS[month - 1], Printed(year, width), time))
      == if 1 <= day <= 31 && 1601 <= year <= 9999 && ParseTime(time) >= 0
         then DaysFromCivil(year, month, day) * 86400000 + ParseTime(time) else -1
  {
    PrintedReadsBack(day, 2);
    PrintedReadsBack(year, width);
    MonthReadsBack(month);
    hide Printed, ParseUInt, ParseTime, MonthFromName, DaysFromCivil, AllDigits;
  }

  /** With two digits the year is one of 1970 to 2069. */
  lemma ShortYearParsesExactly(day: nat, month: nat, year: nat, time: string)
    requires day <= 0x100_0000_0000 && year < 100 && 1 <= month <= 12
    ensures ParseFields(Fields(Printed(day, 2), MONTHS[month - 1], Printed(year, 2), time))
      == if 1 <= day <= 31 && ParseTime(time) >= 0
         then DaysFromCivil(if year < 70 then 2000 + year else 1900 + year, month, day) * 86400000 + ParseTime(time) else -1
  {
    PrintedReadsBack(day, 2);
    PrintedReadsBack(year, 2);
    TwoDigits(year);
    MonthReadsBack(month);
    hide Printed, ParseUInt, ParseTime, MonthFromName, DaysFromCivil, AllDigits;
  }

  // ----- RFC 850 -----

  lemma DashIsSpace(a: string, b: string)
    ensures Norm(a + ("-" + b)) == Norm(a + (" " + b))
  {
    NormAppend(a, "-" + b);
    NormAppend("-", b);
    NormAppend(a, " " + b);
    NormAppend(" ", b);
    assert Norm("-") == " " == Norm(" ");
  }

  /** Dashes separate words as blanks do. */
  lemma DashedTokens(a: string, b: string, c: string, d: string, e: string, f: string)
    requires Plain(a) && Plain(b) && Plain(c) && Plain(d) && Plain(e) && Plain(f)
    ensures Tokens(Norm(a + ", " + b + "-" + c + "-" + d + " " + e + (" " + f))) == [a, b, c, d, e, f]
  {
    SixTokens(a, b, c, d, e, f);
    var rest := d + " " + e + (" " + f);
    DashIsSpace(a + ", " + b, c + "-" + rest);
    assert a + ", " + b + "-" + c + "-" + d + " " + e + (" " + f) == (a + ", " + b) + ("-" + (c + "-" + rest));
    DashIsSpace(a + ", " + b + " " + c, rest);
    assert (a + ", " + b) + (" " + (c + "-" + rest)) == (a + ", " + b + " " + c) + ("-" + rest);
    assert (a + ", " + b + " " + c) + (" " + rest) == a + ", " + b + " " + c + " " + d + " " + e + (" " + f);
    hide Tokens, Norm, Plain;
  }

  lemma Rfc850Words(weekday: string, date: Date, rem: int)
    requires Plain(weekday) && Valid(date) && 0 <= date.year && 0 <= rem < 86400
    ensures Tokens(Norm(Rfc850(weekday, date, rem)))
      == [weekday, Printed(date.day, 2), MONTHS[date.month - 1], Printed(date.year % 100, 2), Clock(rem), "GMT"]
  {
    var d, m, y, t := Printed(date.day, 2), MONTHS[date.month - 1], Printed(date.year % 100, 2), Clock(rem);
    PrintedReadsBack(date.day, 2);
    PrintedReadsBack(date.year % 100, 2);
    DigitsArePlain(d);
    DigitsArePlain(y);
    MonthReadsBack(date.month);
    ClockReadsBack(rem);
    GmtIsPlain();
    DashedTokens(weekday, d, m, y, t, "GMT");
    hide Printed, Clock, ParseUInt, ParseTime, Tokens, Norm, Plain, MonthFromName, AllDigits, DaysFromCivil;
  }

  /** Two digits of a year stand for the year of 1970 to 2069 that they end. */
  lemma Rfc850ReadsBack(weekday: string, date: Date, rem: int)
    requires Plain(weekday) && Valid(date) && 1970 <= date.year <= 2069 && 0 <= rem < 86400
    ensures ParseHttpDate(Rfc850(weekday, date, rem))
      == DaysFromCivil(date.year, date.month, date.day) * 86400000 + rem * 1000
  {
    assert 1 <= date.day <= 31 && 1 <= date.month <= 12;
    hide *;
    var d, m, y, t := Printed(date.day, 2), MONTHS[date.month - 1], Printed(date.year % 100, 2), Clock(rem);
    TwoDigits(date.day);
    ClockReadsBack(rem);
    Rfc850Words(weekday, date, rem);
    ShortYearParsesExactly(date.day, date.month, date.year % 100, t);
    Window(date.year);
    DayComesFirst(weekday, d, m, y, t);
    ParsedFromWords(Rfc850(weekday, date, rem), [weekday, d, m, y, t, "GMT"]);
  }

  lemma DayComesFirst(weekday: string, d: string, m: string, y: string, t: string)
    requires |d| == 2
    ensures FieldsOf([weekday, d, m, y, t, "GMT"]) == Fields(d, m, y, t)
  {
  }

  lemma ParsedFromWords(value: string, words: seq<string>)
    requires Tokens(Norm(value)) == words && |words| >= 5
    ensures ParseHttpDate(value) == ParseFields(FieldsOf(words))
  {
    hide Tokens, Norm, ParseFields, FieldsOf;
  }

  lemma Window(year: int)
    requires 1970 <= year <= 2069
    ensures year == if year % 100 <= 69 then 2000 + year % 100 else 1900 + year % 100
  {
  }

  // ----- asctime -----

  lemma FiveTokens(a: string, b: string, c: string, d: string, e: string)
    requires Plain(a) && Plain(b) && Plain(c) && Plain(d) && Plain(e)
    ensures Tokens(Norm(a + " " + b + " " + c + " " + d + (" " + e))) == [a, b, c, d, e]
  {
    LastToken(e);
    TokenThen(d, e);
    TokenThen(c, d + (" " + e));
    TokenThen(b, c + (" " + (d + (" " + e))));
    TokenThen(a, b + (" " + (c + (" " + (d + (" " + e))))));
    hide Tokens, Norm, Plain;
    assert a + " " + b + " " + c + " " + d + (" " + e) == a + (" " + (b + (" " + (c + (" " + (d + (" " + e)))))));
  }

  lemma FiveSpacedTokens(a: string, b: string, c: string, d: string, e: string)
    requires Plain(a) && Plain(b) && Plain(c) && Plain(d) && Plain(e)
    ensures Tokens(Norm(a + " " + b + " " + (" " + c) + " " + d + (" " + e))) == [a, b, c, d, e]
  {
    var rest := c + (" " + (d + (" " + e)));
    LastToken(e);
    TokenThen(d, e);
    TokenThen(c, d + (" " + e));
    SepIsSkipped(rest);
    TokenThen(b, " " + rest);
    TokenThen(a, b + (" " + (" " + rest)));
    hide Tokens, Norm, Plain;
    assert a + " " + b + " " + (" " + c) + " " + d + (" " + e) == a + (" " + (b + (" " + (" " + rest))));
  }

  lemma AsctimeWords(weekday: string, date: Date, rem: int)
    requires Plain(weekday) && Valid(date) && 1601 <= date.year <= 9999 && 0 <= rem < 86400
    ensures Tokens(Norm(Asctime(weekday, date, rem)))
      == [weekday, MONTHS[date.month - 1], Decimal(date.day), Clock(rem), Printed(date.year, 4)]
  {
    var d, m, y, t := Decimal(date.day), MONTHS[date.month - 1], Printed(date.year, 4), Clock(rem);
    DecimalReadsBack(date.day);
    PrintedReadsBack(date.year, 4);
    DigitsArePlain(d);
    DigitsArePlain(y);
    MonthReadsBack(date.month);
    ClockReadsBack(rem);
    FiveTokens(weekday, m, d, t, y);
    FiveSpacedTokens(weekday, m, d, t, y);
    hide Decimal, Printed, Clock, ParseTime, Tokens, Norm, Plain, MonthFromName, AllDigits, DaysFromCivil;
  }

  /** The day may stand alone behind two blanks, the month comes before it and the year last. */
  lemma AsctimeReadsBack(weekday: string, date: Date, rem: int)
    requires Plain(weekday) && Valid(date) && 1601 <= date.year <= 9999 && 0 <= rem < 86400
    ensures ParseHttpDate(Asctime(weekday, date, rem))
      == DaysFromCivil(date.year, date.month, date.day) * 86400000 + rem * 1000
  {
    var d, m, y, t := Decimal(date.day), MONTHS[date.month - 1], Printed(date.year, 4), Clock(rem);
    DecimalReadsBack(date.day);
    PrintedReadsBack(date.year, 4);
    MonthReadsBack(date.month);
    ClockReadsBack(rem);
    AsctimeWords(weekday, date, rem);
    hide Decimal, Printed, Clock, Digits, ParseTime, Tokens, Norm, Plain, MonthFrom, AllDigits, DaysFromCivil, Asctime;
    assert FieldsOf([weekday, m, d, t, y]) == Fields(d, m, y, t);
  }

  // ----- Months, refusals, negative numbers -----

  /** The same three letters, but for their case. */
  predicate SameName(a: string, b: string) {
    |a| == |b| && forall i | 0 <= i < |a| ::
      a[i] == b[i] || ('A' <= a[i] <= 'Z' && b[i] as int == a[i] as int + 32) || ('A' <= b[i] <= 'Z' && a[i] as int == b[i] as int + 32)
  }

  lemma LowerMeans(a: string, b: string)
    ensures AsciiLower(a) == AsciiLower(b) <==> SameName(a, b)
  {
    if AsciiLower(a) == AsciiLower(b) {
      forall i | 0 <= i < |a|
        ensures a[i] == b[i] || ('A' <= a[i] <= 'Z' && b[i] as int == a[i] as int + 32) || ('A' <= b[i] <= 'Z' && a[i] as int == b[i] as int + 32)
      {
        assert AsciiLower(a)[i] == AsciiLower(b)[i];
      }
    }
    if SameName(a, b) {
      assert forall i | 0 <= i < |a| :: AsciiLower(a)[i] == AsciiLower(b)[i];
    }
  }

  lemma {:induction false} MonthFoundOnly(head: string, i: nat)
    requires i <= 12
    ensures var m := MonthFrom(head, i); m == -1 || (i < m <= 12 && head == AsciiLower(MONTHS[m - 1]))
    decreases 12 - i
  {
    hide AsciiLower;
    if i < 12 {
      MonthFoundOnly(head, i + 1);
    }
  }

  /** A word names a month if and only if it begins with the month's three letters, in any case. */
  lemma MonthNamedExactly(token: string, month: nat)
    requires 1 <= month <= 12
    ensures MonthFromName(token) == month <==> |token| >= 3 && SameName(token[..3], MONTHS[month - 1])
  {
    if |token| >= 3 {
      LowerMeans(token[..3], MONTHS[month - 1]);
      MonthFound(month - 1, 0);
      MonthFoundOnly(AsciiLower(token[..3]), 0);
    }
    hide AsciiLower, SameName, MonthFrom;
  }

  /** What is refused gives -1, which no date gives: dates are whole seconds. */
  lemma RefusalIsNoDate(value: string)
    ensures ParseHttpDate(value) == -1 || ParseHttpDate(value) % 1000 == 0
  {
    hide Tokens, Norm, MonthFromName, ParseUInt, Find, DaysFromCivil;
    if |Tokens(Norm(value))| >= 5 {
      WholeSeconds(FieldsOf(Tokens(Norm(value))).time);
    }
  }

  lemma WholeSeconds(time: string)
    ensures ParseTime(time) < 0 || ParseTime(time) % 1000 == 0
  {
    hide ParseUInt, Find;
  }

  /** A negative number is a sign and its digits, as wide as asked for. */
  lemma NegativePrinted(n: int, width: nat)
    requires 0 < n <= 0x100_0000_0000
    ensures var p := Printed(-n, width);
      && |p| == (if |Decimal(n)| + 1 >= width then |Decimal(n)| + 1 else width) && p[0] == '-' && ParseUInt(p[1..]) == Some(n)
  {
    DecimalReadsBack(n);
    PaddingIsFree(Decimal(n), if width > 0 then width - 1 else 0);
    hide Decimal, ZeroPad, Digits;
  }

  /** Written out, a number is read back unless a digit follows one that is already above 2^40: those are refused. */
  lemma {:induction false} NumbersReadExactly(n: nat)
    ensures ParseUInt(Decimal(n)) == if n / 10 <= 0x100_0000_0000 then Some(n) else None
    ensures |Decimal(n)| > 0
  {
    if n < 10 {
      DecimalReadsBack(n);
    } else {
      NumbersReadExactly(n / 10);
      DigitsSnoc(Decimal(n / 10), ('0' as int + n % 10) as char, 0);
    }
  }
}
