/** HTTP dates: the printer writes IMF-fixdate (section 5.6.7 of RFC 9110), the parser reads that, RFC 850
    and asctime, and what is printed is read back to the second. */
module HttpDate {
  import opened CivilDate
  import opened Seqs

  const WEEKDAYS: seq<string> := ["Sun", "Mon", "Tue", "Wed", "Thu", "Fri", "Sat"]
  const MONTHS: seq<string> := ["Jan", "Feb", "Mar", "Apr", "May", "Jun", "Jul", "Aug", "Sep", "Oct", "Nov", "Dec"]
  const DAY_MS := 86400000

  // ----- Printing -----

  function Decimal(n: nat): string {
    if n < 10 then [('0' as int + n) as char] else Decimal(n / 10) + [('0' as int + n % 10) as char]
  }

  function ZeroPad(s: string, width: nat): string
    decreases width - |s|
  {
    if |s| >= width then s else ZeroPad(['0'] + s, width)
  }

  /** `%0<width>d`. */
  function Printed(n: int, width: nat): string {
    if n >= 0 then ZeroPad(Decimal(n), width)
    else ['-'] + ZeroPad(Decimal(-n), if width > 0 then width - 1 else 0)
  }

  function Remainder(a: int, b: int): int
    requires b > 0
  {
    a - Quotient(a, b) * b
  }

  /** Whole seconds, rounded down. */
  function SecondsOf(epochMs: int): int {
    Quotient(epochMs, 1000) - (if epochMs < 0 && Remainder(epochMs, 1000) != 0 then 1 else 0)
  }

  function DayOf(seconds: int): int {
    Quotient(seconds, 86400) - (if Remainder(seconds, 86400) < 0 then 1 else 0)
  }

  function TimeOf(seconds: int): int {
    var rem := Remainder(seconds, 86400);
    if rem < 0 then rem + 86400 else rem
  }

  /** 1970-01-01 was a Thursday. */
  function WeekdayOf(days: int): (w: int)
    ensures 0 <= w < 7
  {
    var w := Remainder(days + 4, 7);
    if w < 0 then w + 7 else w
  }

  function Clock(rem: int): string {
    Printed(rem / 3600, 2) + [':'] + Printed(rem % 3600 / 60, 2) + [':'] + Printed(rem % 60, 2)
  }

  /** An IMF-fixdate from its parts. */
  function FixDate(date: Date, w: nat, rem: int): string
    requires Valid(date) && w < 7
  {
    WEEKDAYS[w] + ", " + Printed(date.day, 2) + " " + MONTHS[date.month - 1] + " " + Printed(date.year, 4)
      + " " + Clock(rem) + (" " + "GMT")
  }

  function FormatHttpDate(epochMs: int): string {
    var seconds := SecondsOf(epochMs);
    var days := DayOf(seconds);
    DaysOfCivil(days);
    FixDate(CivilFromDays(days), WeekdayOf(days), TimeOf(seconds))
  }

  /** The weekday named is the right one: day zero was a Thursday, and the names go round every seven days. */
  lemma WeekdaysGoRound(days: int)
    ensures WEEKDAYS[WeekdayOf(days)] == ["Thu", "Fri", "Sat", "Sun", "Mon", "Tue", "Wed"][days % 7]
  {
    WeekdayFloors(days);
    hide WeekdayOf;
    assert (days + 4) % 7 == if days % 7 < 3 then days % 7 + 4 else days % 7 - 3;
  }

  lemma WeekdayFloors(days: int)
    ensures WeekdayOf(days) == (days + 4) % 7
  {
  }

  // ----- Parsing -----

  datatype Number = None | Some(value: nat)

  const ABSURD := 0x100_0000_0000

  function Digits(s: string, v: nat): Number {
    if |s| == 0 then Some(v)
    else if !('0' <= s[0] <= '9') || v > ABSURD then None
    else Digits(s[1..], v * 10 + (s[0] as int - '0' as int))
  }

  function ParseUInt(s: string): Number {
    if |s| == 0 then None else Digits(s, 0)
  }

  function Lower(c: char): char {
    if 'A' <= c <= 'Z' then (c as int + 32) as char else c
  }

  function AsciiLower(s: string): (t: string)
    ensures |t| == |s|
  {
    seq(|s|, i requires 0 <= i < |s| => Lower(s[i]))
  }

  function MonthFrom(head: string, i: nat): int
    requires i <= 12
    decreases 12 - i
  {
    if i == 12 then -1 else if head == AsciiLower(MONTHS[i]) then i + 1 else MonthFrom(head, i + 1)
  }

  /** 1 to 12, or -1. */
  function MonthFromName(token: string): (m: int)
    ensures m == -1 || 1 <= m <= 12
  {
    if |token| < 3 then -1 else
    MonthInRange(AsciiLower(token[..3]), 0);
    MonthFrom(AsciiLower(token[..3]), 0)
  }

  lemma {:induction false} MonthInRange(head: string, i: nat)
    requires i <= 12
    ensures MonthFrom(head, i) == -1 || 1 <= MonthFrom(head, i) <= 12
    decreases 12 - i
  {
    if i < 12 {
      MonthInRange(head, i + 1);
    }
  }

  function Norm(value: string): (s: string)
    ensures |s| == |value|
  {
    seq(|value|, i requires 0 <= i < |value| => if value[i] == ',' || value[i] == '-' then ' ' else value[i])
  }

  predicate IsSep(c: char) {
    c == ' ' || c == '\t'
  }

  /** The length of the word at the front. */
  function WordLength(s: string): (n: nat)
    ensures n <= |s|
  {
    if |s| == 0 || IsSep(s[0]) then 0 else 1 + WordLength(s[1..])
  }

  function Tokens(s: string): seq<string>
    decreases |s|
  {
    if |s| == 0 then []
    else if IsSep(s[0]) then Tokens(s[1..])
    else [s[..WordLength(s)]] + Tokens(s[WordLength(s)..])
  }

  /** The position of `c` at or after `from`, or the length. */
  function Find(s: string, c: char, from: nat): (i: nat)
    ensures i <= |s|
    decreases |s| - from
  {
    if from >= |s| then |s| else if s[from] == c then from else Find(s, c, from + 1)
  }

  datatype Fields = Fields(day: string, month: string, year: string, time: string)

  /** asctime puts the month second; the other two put the day there. */
  function FieldsOf(tok: seq<string>): Fields
    requires |tok| >= 5
  {
    if MonthFromName(tok[1]) > 0 then Fields(tok[2], tok[1], tok[4], tok[3])
    else Fields(tok[1], tok[2], tok[3], tok[4])
  }

  /** Milliseconds into the day, or -1. */
  function ParseTime(time: string): int {
    var c1 := Find(time, ':', 0);
    if c1 == |time| then -1 else
    var c2 := Find(time, ':', c1 + 1);
    if c2 == |time| || c2 <= c1 then -1 else
    var hour, minute, second := ParseUInt(time[..c1]), ParseUInt(time[c1 + 1..c2]), ParseUInt(time[c2 + 1..]);
    if hour.None? || minute.None? || second.None? || hour.value > 23 || minute.value > 59 || second.value > 60 then -1
    else hour.value * 3600000 + minute.value * 60000 + (if second.value == 60 then 59 else second.value) * 1000
  }

  function ParseFields(f: Fields): int {
    var month := MonthFromName(f.month);
    var day, year := ParseUInt(f.day), ParseUInt(f.year);
    if month < 0 || day.None? || year.None? || day.value < 1 || day.value > 31 then -1 else
    var fullYear := if |f.year| <= 2 then year.value + (if year.value <= 69 then 2000 else 1900) else year.value;
    if fullYear < 1601 || fullYear > 9999 || ParseTime(f.time) < 0 then -1
    else DaysFromCivil(fullYear, month, day.value) * DAY_MS + ParseTime(f.time)
  }

  function ParseHttpDate(value: string): int {
    var tok := Tokens(Norm(value));
    if |tok| < 5 then -1 else ParseFields(FieldsOf(tok))
  }

  // ----- The clock -----

  lemma FloorsTime(epochMs: int)
    ensures var s := SecondsOf(epochMs);
      && s == epochMs / 1000
      && DayOf(s) == s / 86400 && TimeOf(s) == s % 86400
  {
    Thousands(epochMs);
    Days(SecondsOf(epochMs));
    hide Quotient, Remainder;
  }

  lemma Thousands(a: int)
    ensures Quotient(a, 1000) == a / 1000 + (if a < 0 && a % 1000 != 0 then 1 else 0)
    ensures Remainder(a, 1000) == a % 1000 - (if a < 0 && a % 1000 != 0 then 1000 else 0)
  {
    if a < 0 {
      var q, r := -a / 1000, -a % 1000;
      assert a == 1000 * (-q) - r;
      assert r > 0 ==> a == 1000 * (-q - 1) + (1000 - r);
    }
  }

  lemma Days(a: int)
    ensures Quotient(a, 86400) == a / 86400 + (if a < 0 && a % 86400 != 0 then 1 else 0)
    ensures Remainder(a, 86400) == a % 86400 - (if a < 0 && a % 86400 != 0 then 86400 else 0)
  {
    if a < 0 {
      var q, r := -a / 86400, -a % 86400;
      assert a == 86400 * (-q) - r;
      assert r > 0 ==> a == 86400 * (-q - 1) + (86400 - r);
    }
  }

  // ----- Numbers -----

  predicate IsDigit(c: char) {
    '0' <= c <= '9'
  }

  predicate AllDigits(s: string) {
    forall i | 0 <= i < |s| :: IsDigit(s[i])
  }

  lemma {:induction false} DigitsSnoc(s: string, c: char, v: nat)
    requires IsDigit(c)
    ensures var w := Digits(s, v);
      Digits(s + [c], v) == if w.Some? && w.value <= ABSURD then Some(w.value * 10 + (c as int - '0' as int)) else None
  {
    if |s| == 0 {
      assert ([] + [c])[1..] == [];
    } else {
      assert (s + [c])[1..] == s[1..] + [c];
      if IsDigit(s[0]) && v <= ABSURD {
        DigitsSnoc(s[1..], c, v * 10 + (s[0] as int - '0' as int));
      }
    }
  }

  lemma {:induction false} DecimalReadsBack(n: nat)
    requires n <= 0x100_0000_0000
    ensures Digits(Decimal(n), 0) == Some(n) && AllDigits(Decimal(n)) && |Decimal(n)| > 0
  {
    if n < 10 {
      assert Decimal(n)[1..] == [];
    } else {
      DecimalReadsBack(n / 10);
      DigitsSnoc(Decimal(n / 10), ('0' as int + n % 10) as char, 0);
    }
  }

  lemma {:induction false} PaddingIsFree(s: string, width: nat)
    requires AllDigits(s)
    ensures Digits(ZeroPad(s, width), 0) == Digits(s, 0) && AllDigits(ZeroPad(s, width))
    ensures |ZeroPad(s, width)| == if |s| >= width then |s| else width
    decreases width - |s|
  {
    if |s| < width {
      assert (['0'] + s)[1..] == s;
      PaddingIsFree(['0'] + s, width);
    }
  }

  /** A printed number is read back, however it is padded. */
  lemma PrintedReadsBack(n: nat, width: nat)
    requires n <= 0x100_0000_0000
    ensures ParseUInt(Printed(n, width)) == Some(n) && AllDigits(Printed(n, width)) && |Printed(n, width)| >= width
    ensures |Printed(n, width)| > 0
  {
    DecimalReadsBack(n);
    PaddingIsFree(Decimal(n), width);
  }

  lemma TwoDigits(n: nat)
    requires n < 100
    ensures |Printed(n, 2)| == 2
  {
    DecimalReadsBack(n);
    PaddingIsFree(Decimal(n), 2);
    assert |Decimal(n / 10)| == 1;
  }

  // ----- Words -----

  /** A word the parser takes as it stands. */
  predicate Plain(w: string) {
    |w| > 0 && forall i | 0 <= i < |w| :: !IsSep(w[i]) && w[i] != ',' && w[i] != '-'
  }

  lemma NormAppend(a: string, b: string)
    ensures Norm(a + b) == Norm(a) + Norm(b)
  {
  }

  lemma NormPlain(w: string)
    requires Plain(w)
    ensures Norm(w) == w
  {
  }

  lemma {:induction false} WordThenSep(w: string, rest: string)
    requires forall i | 0 <= i < |w| :: !IsSep(w[i])
    requires |rest| > 0 ==> IsSep(rest[0])
    ensures WordLength(w + rest) == |w|
  {
    if |w| == 0 {
      assert w + rest == rest;
    } else {
      assert (w + rest)[1..] == w[1..] + rest;
      WordThenSep(w[1..], rest);
    }
  }

  /** A word, a space, and the rest. */
  lemma TokenThen(w: string, rest: string)
    requires Plain(w)
    ensures Tokens(Norm(w + (" " + rest))) == [w] + Tokens(Norm(rest))
  {
    NormAppend(w, " " + rest);
    NormAppend(" ", rest);
    NormPlain(w);
    assert Norm(" ") == " ";
    WordThenSep(w, " " + Norm(rest));
    var s := w + (" " + Norm(rest));
    assert s[0] == w[0] && s[..|w|] == w && s[|w|..] == " " + Norm(rest);
    assert (" " + Norm(rest))[1..] == Norm(rest);
  }

  lemma LastToken(w: string)
    requires Plain(w)
    ensures Tokens(Norm(w)) == [w]
  {
    NormPlain(w);
    WordThenSep(w, "");
    assert w + "" == w && w[..|w|] == w && w[|w|..] == [];
  }

  lemma SepIsSkipped(rest: string)
    ensures Tokens(Norm(" " + rest)) == Tokens(Norm(rest)) && Norm(", " + rest) == Norm(" " + (" " + rest))
  {
    NormAppend(" ", rest);
    assert Norm(" ") == " " && (" " + Norm(rest))[1..] == Norm(rest);
  }

  /** The comma after the weekday is a separator too. */
  lemma CommaThen(w: string, rest: string)
    requires Plain(w)
    ensures Tokens(Norm(w + (", " + rest))) == [w] + Tokens(Norm(rest))
  {
    NormAppend(w, ", " + rest);
    NormAppend(w, " " + (" " + rest));
    SepIsSkipped(rest);
    TokenThen(w, " " + rest);
  }

  lemma DigitsArePlain(s: string)
    requires AllDigits(s) && |s| > 0
    ensures Plain(s) && forall i | 0 <= i < |s| :: s[i] != ':'
  {
  }

  lemma {:induction false} FindSkips(w: string, c: char, rest: string, from: nat, k: nat)
    requires from <= k <= |w| && forall i | from <= i < k :: w[i] != c
    requires if k < |w| then w[k] == c else |rest| > 0 && rest[0] == c
    ensures Find(w + rest, c, from) == k
    decreases k - from
  {
    if from < k {
      FindSkips(w, c, rest, from + 1, k);
    }
  }

  // ----- Months -----

  lemma LowerAt(s: string, i: nat)
    requires i < |s|
    ensures AsciiLower(s)[i] == Lower(s[i])
  {
  }

  /** The second and third letters tell the months apart. */
  function Ending(i: nat): int
    requires i < 12
  {
    Lower(MONTHS[i][1]) as int * 128 + Lower(MONTHS[i][2]) as int
  }

  function Endings(): seq<int> {
    [12526, 13026, 12530, 14450, 12537, 15086, 15084, 15079, 13040, 12788, 14326, 13027]
  }

  lemma EndingsAre(i: nat)
    requires i < 12
    ensures |MONTHS[i]| == 3 && Ending(i) == Endings()[i]
  {
  }

  lemma MonthsDiffer(i: nat, j: nat)
    requires i < j < 12
    ensures AsciiLower(MONTHS[i]) != AsciiLower(MONTHS[j])
  {
    EndingsAre(i);
    EndingsAre(j);
    LowerAt(MONTHS[i], 1);
    LowerAt(MONTHS[j], 1);
    LowerAt(MONTHS[i], 2);
    LowerAt(MONTHS[j], 2);
  }

  lemma {:induction false} MonthFound(m: nat, i: nat)
    requires i <= m < 12
    ensures MonthFrom(AsciiLower(MONTHS[m]), i) == m + 1
    decreases m - i
  {
    if i < m {
      MonthsDiffer(i, m);
      MonthFound(m, i + 1);
    }
  }

  lemma MonthReadsBack(month: nat)
    requires 1 <= month <= 12
    ensures MonthFromName(MONTHS[month - 1]) == month && Plain(MONTHS[month - 1])
  {
    EndingsAre(month - 1);
    var name := MONTHS[month - 1];
    assert name[..3] == name;
    MonthFound(month - 1, 0);
    NamesArePlain(month - 1, 0);
  }

  lemma NamesArePlain(month: nat, weekday: nat)
    requires month < 12 && weekday < 7
    ensures Plain(MONTHS[month]) && Plain(WEEKDAYS[weekday])
  {
  }

  // ----- The main result -----

  lemma TimeReadsBack(h: string, m: string, s: string)
    requires AllDigits(h) && AllDigits(m) && AllDigits(s) && |h| > 0 && |m| > 0 && |s| > 0
    ensures var time := h + [':'] + m + [':'] + s;
      var c1 := Find(time, ':', 0);
      var c2 := Find(time, ':', c1 + 1);
      && c1 == |h| && c2 == |h| + 1 + |m| && c2 < |time|
      && time[..c1] == h && time[c1 + 1..c2] == m && time[c2 + 1..] == s
  {
    var time := h + [':'] + m + [':'] + s;
    DigitsArePlain(h);
    DigitsArePlain(m);
    assert time == h + ([':'] + m + [':'] + s);
    FindSkips(h, ':', [':'] + m + [':'] + s, 0, |h|);
    assert time == (h + [':'] + m) + ([':'] + s);
    FindSkips(h + [':'] + m, ':', [':'] + s, |h| + 1, |h| + 1 + |m|);
  }

  lemma ClockParses(h: nat, m: nat, s: nat)
    requires h <= 23 && m <= 59 && s <= 59
    ensures var time := Printed(h, 2) + [':'] + Printed(m, 2) + [':'] + Printed(s, 2);
      ParseTime(time) == h * 3600000 + m * 60000 + s * 1000 && Plain(time)
  {
    PrintedReadsBack(h, 2);
    PrintedReadsBack(m, 2);
    PrintedReadsBack(s, 2);
    hide Printed, ParseUInt, Find;
    TimeReadsBack(Printed(h, 2), Printed(m, 2), Printed(s, 2));
    DigitsArePlain(Printed(h, 2));
    DigitsArePlain(Printed(m, 2));
    DigitsArePlain(Printed(s, 2));
    TimeIsPlain(Printed(h, 2), Printed(m, 2), Printed(s, 2));
    hide Plain;
  }

  lemma TimeIsPlain(h: string, m: string, s: string)
    requires Plain(h) && Plain(m) && Plain(s)
    ensures Plain(h + [':'] + m + [':'] + s)
  {
  }

  lemma ClockReadsBack(rem: int)
    requires 0 <= rem < 86400
    ensures ParseTime(Clock(rem)) == rem * 1000 && Plain(Clock(rem))
  {
    hide Printed, ParseTime, Plain;
    ClockParses(rem / 3600, rem % 3600 / 60, rem % 60);
    assert rem == rem / 3600 * 3600 + rem % 3600 / 60 * 60 + rem % 60;
  }

  lemma SixTokens(a: string, b: string, c: string, d: string, e: string, f: string)
    requires Plain(a) && Plain(b) && Plain(c) && Plain(d) && Plain(e) && Plain(f)
    ensures Tokens(Norm(a + ", " + b + " " + c + " " + d + " " + e + (" " + f))) == [a, b, c, d, e, f]
  {
    LastToken(f);
    TokenThen(e, f);
    TokenThen(d, e + (" " + f));
    TokenThen(c, d + (" " + (e + (" " + f))));
    TokenThen(b, c + (" " + (d + (" " + (e + (" " + f))))));
    CommaThen(a, b + (" " + (c + (" " + (d + (" " + (e + (" " + f))))))));
    hide Tokens, Norm, Plain;
    Nested(a, b, c, d, e, f);
  }

  lemma Nested(a: string, b: string, c: string, d: string, e: string, f: string)
    ensures a + ", " + b + " " + c + " " + d + " " + e + (" " + f)
      == a + (", " + (b + (" " + (c + (" " + (d + (" " + (e + (" " + f)))))))))
  {
  }

  lemma FieldsReadBack(date: Date, w: nat, rem: int)
    requires Valid(date) && 1601 <= date.year <= 9999 && w < 7 && 0 <= rem < 86400
    ensures ParseHttpDate(FixDate(date, w, rem))
      == DaysFromCivil(date.year, date.month, date.day) * DAY_MS + rem * 1000
  {
    var d, m, y, t := Printed(date.day, 2), MONTHS[date.month - 1], Printed(date.year, 4), Clock(rem);
    NamesArePlain(date.month - 1, w);
    PrintedReadsBack(date.day, 2);
    PrintedReadsBack(date.year, 4);
    TwoDigits(date.day);
    DigitsArePlain(d);
    DigitsArePlain(y);
    MonthReadsBack(date.month);
    ClockReadsBack(rem);
    GmtIsPlain();
    SixTokens(WEEKDAYS[w], d, m, y, t, "GMT");
    hide Printed, Clock, ParseUInt, ParseTime, Tokens, Norm, Plain, MonthFrom, AllDigits, DaysFromCivil;
    assert FieldsOf([WEEKDAYS[w], d, m, y, t, "GMT"]) == Fields(d, m, y, t);
  }

  /** What `formatHttpDate` writes, `parseHttpDate` reads back to the whole second, for every year the
      parser accepts. */
  lemma ReadsBack(epochMs: int)
    requires 1601 <= CivilFromDays(epochMs / 1000 / 86400).year <= 9999
    ensures ParseHttpDate(FormatHttpDate(epochMs)) == epochMs / 1000 * 1000
  {
    var seconds := epochMs / 1000;
    var days, rem := seconds / 86400, seconds % 86400;
    FloorsTime(epochMs);
    DaysOfCivil(days);
    hide CivilFromDays, DaysFromCivil, ParseHttpDate, FixDate, SecondsOf, DayOf, TimeOf, WeekdayOf;
    FieldsReadBack(CivilFromDays(days), WeekdayOf(days), rem);
    assert seconds == days * 86400 + rem;
  }

  lemma GmtIsPlain()
    ensures Plain("GMT") && " " + "GMT" == " GMT"
  {
  }

  // ----- The loops of the parser -----

  method ParseUnsigned(s: string) returns (n: Number)
    ensures n == ParseUInt(s)
  {
    if |s| == 0 {
      return None;
    }
    var v: nat, i := 0, 0;
    assert s[0..] == s;
    while i < |s|
      invariant i <= |s| && ParseUInt(s) == Digits(s[i..], v)
    {
      assert s[i..][1..] == s[i + 1..];
      if !('0' <= s[i] <= '9') || v > ABSURD {
        return None;
      }
      v := v * 10 + (s[i] as int - '0' as int);
      i := i + 1;
    }
    return Some(v);
  }

  lemma WordEnds(s: string, start: nat, end: nat)
    requires start <= end <= |s| && forall k | start <= k < end :: !IsSep(s[k])
    requires end == |s| || IsSep(s[end])
    ensures WordLength(s[start..]) == end - start
  {
    assert s[start..] == s[start..end] + s[end..];
    WordThenSep(s[start..end], s[end..]);
  }

  /** The tokenising loop. */
  method Tokenise(norm: string) returns (tok: seq<string>)
    ensures tok == Tokens(norm)
  {
    tok := [];
    var i := 0;
    assert norm[0..] == norm;
    while i < |norm|
      invariant i <= |norm| && Tokens(norm) == tok + Tokens(norm[i..])
    {
      ghost var before := i;
      while i < |norm| && IsSep(norm[i])
        invariant before <= i <= |norm| && Tokens(norm[before..]) == Tokens(norm[i..])
      {
        assert norm[i..][1..] == norm[i + 1..];
        i := i + 1;
      }
      var start := i;
      while i < |norm| && !IsSep(norm[i])
        invariant start <= i <= |norm| && forall k | start <= k < i :: !IsSep(norm[k])
      {
        i := i + 1;
      }
      if i > start {
        WordEnds(norm, start, i);
        assert norm[start..][..i - start] == norm[start..i] && norm[start..][i - start..] == norm[i..];
        Assoc(tok, [norm[start..i]], Tokens(norm[i..]));
        tok := tok + [norm[start..i]];
      } else {
        assert i == |norm|;
      }
    }
    assert norm[i..] == [];
    NilRight(tok);
  }
}
