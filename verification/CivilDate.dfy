/** Days and civil dates of the proleptic Gregorian calendar, by the source's arithmetic, against the
    calendar itself: how long months are, and what day comes next. */
module CivilDate {

  datatype Date = Date(year: int, month: int, day: int)

  /** Division that truncates toward zero, as the source's integers do. */
  function Quotient(a: int, b: int): int
    requires b > 0
  {
    if a >= 0 then a / b else -(-a / b)
  }

  /** `daysFromCivil`: days since 1970-01-01. */
  function DaysFromCivil(year: int, m: int, d: int): int {
    var y := if m <= 2 then year - 1 else year;
    var era := Quotient(if y >= 0 then y else y - 399, 400);
    var yoe := y - era * 400;
    var doy := (153 * (m + (if m > 2 then -3 else 9)) + 2) / 5 + d - 1;
    var doe := yoe * 365 + yoe / 4 - yoe / 100 + doy;
    era * 146097 + doe - 719468
  }

  function EraOfDays(z: int): int {
    Quotient(if z >= 0 then z else z - 146096, 146097)
  }

  function YearInEra(doe: int): int {
    (doe - doe / 1460 + doe / 36524 - doe / 146096) / 365
  }

  function DayInYear(doe: int, yoe: int): int {
    doe - (365 * yoe + yoe / 4 - yoe / 100)
  }

  function MonthInYear(doy: int): int {
    (5 * doy + 2) / 153
  }

  /** The first day of the month that is `mp` months after March. */
  function MonthStart(mp: int): int {
    (153 * mp + 2) / 5
  }

  /** `civilFromDays`. */
  function CivilFromDays(days: int): Date {
    var z := days + 719468;
    var era := EraOfDays(z);
    var doe := z - era * 146097;
    var yoe := YearInEra(doe);
    var doy := DayInYear(doe, yoe);
    var mp := MonthInYear(doy);
    var m := mp + (if mp < 10 then 3 else -9);
    Date(yoe + era * 400 + (if m <= 2 then 1 else 0), m, doy - MonthStart(mp) + 1)
  }

  // ----- The calendar -----

  predicate Leap(year: int) {
    year % 4 == 0 && (year % 100 != 0 || year % 400 == 0)
  }

  function MonthLength(year: int, month: int): int {
    if month == 2 then (if Leap(year) then 29 else 28)
    else if month == 4 || month == 6 || month == 9 || month == 11 then 30
    else 31
  }

  predicate Valid(date: Date) {
    1 <= date.month <= 12 && 1 <= date.day <= MonthLength(date.year, date.month)
  }

  function NextDay(date: Date): Date {
    if date.day < MonthLength(date.year, date.month) then date.(day := date.day + 1)
    else if date.month < 12 then Date(date.year, date.month + 1, 1)
    else Date(date.year + 1, 1, 1)
  }

  // ----- Years that begin in March -----

  /** A day of the 400-year era, as century, four-year cycle, year and day of a year that begins in March. */
  predicate Split(c: int, q: int, t: int, doy: int) {
    && 0 <= c <= 3 && 0 <= q <= 24 && 0 <= t <= 3
    && 0 <= doy <= (if t == 3 && (q < 24 || c == 3) then 365 else 364)
  }

  function DayOfEra(c: int, q: int, t: int, doy: int): int {
    36524 * c + 1461 * q + 365 * t + doy
  }

  lemma SplitYear(c: int, q: int, t: int, doy: int)
    requires Split(c, q, t, doy)
    ensures var yoe := 100 * c + 4 * q + t;
      0 <= yoe <= 399 && yoe / 4 == 25 * c + q && yoe / 100 == c
  {
  }

  /** The formula that finds the year of the era from the day of the era. */
  lemma YearOfEra(c: int, q: int, t: int, doy: int)
    requires Split(c, q, t, doy)
    ensures var doe := DayOfEra(c, q, t, doy);
      && 0 <= doe <= 146096
      && YearInEra(doe) == 100 * c + 4 * q + t
  {
    var doe := DayOfEra(c, q, t, doy);
    assert doe / 146096 == if doe == 146096 then 1 else 0;
    assert doe / 36524 == if doe == 146096 then 4 else c;
    var late := 24 * c + q + 365 * t + doy;
    var e := if late >= 1460 then 1 else 0;
    assert doe / 1460 == 25 * c + q + e;
    var yoe := 100 * c + 4 * q + t;
    assert doe - doe / 1460 + doe / 36524 - doe / 146096 == 365 * yoe + doy - e;
  }

  /** Every day of the era can be split so. */
  lemma SplitExists(doe: int) returns (c: int, q: int, t: int, doy: int)
    requires 0 <= doe <= 146096
    ensures Split(c, q, t, doy) && DayOfEra(c, q, t, doy) == doe
  {
    c := if doe == 146096 then 3 else doe / 36524;
    var r := doe - 36524 * c;
    q := if r == 36524 then 24 else r / 1461;
    var s := r - 1461 * q;
    t := if s == 1460 then 3 else s / 365;
    doy := s - 365 * t;
  }

  lemma MonthOfDay(mp: int, doy: int)
    requires 0 <= mp <= 11 && MonthStart(mp) <= doy && (if mp == 11 then doy <= 365 else doy < MonthStart(mp + 1))
    ensures MonthInYear(doy) == mp
  {
    MonthStarts();
  }

  lemma MonthStarts()
    ensures MonthStart(0) == 0 && MonthStart(1) == 31 && MonthStart(2) == 61 && MonthStart(3) == 92
    ensures MonthStart(4) == 122 && MonthStart(5) == 153 && MonthStart(6) == 184 && MonthStart(7) == 214
    ensures MonthStart(8) == 245 && MonthStart(9) == 275 && MonthStart(10) == 306 && MonthStart(11) == 337
  {
  }

  lemma MonthExists(doy: int) returns (mp: int)
    requires 0 <= doy <= 365
    ensures 0 <= mp <= 11 && MonthStart(mp) <= doy && (if mp == 11 then doy <= 365 else doy < MonthStart(mp + 1))
  {
    mp := MonthInYear(doy);
    MonthStarts();
  }

  /** A date as an era, a day of it, and the two halves of the formula. */
  function DateOf(era: int, c: int, q: int, t: int, mp: int, d: int): Date {
    var m := if mp < 10 then mp + 3 else mp - 9;
    Date(400 * era + 100 * c + 4 * q + t + (if m <= 2 then 1 else 0), m, d)
  }

  lemma QuotientFloors(a: int, b: int)
    requires b == 400 || b == 146097
    ensures Quotient(if a >= 0 then a else a - (b - 1), b) == a / b
  {
  }

  /** Days since the first day of era zero. */
  function DayNumber(era: int, c: int, q: int, t: int, doy: int): int {
    era * 146097 + DayOfEra(c, q, t, doy)
  }

  lemma EraOfYear(era: int, yoe: int)
    requires 0 <= yoe <= 399
    ensures var y := 400 * era + yoe; Quotient(if y >= 0 then y else y - 399, 400) == era
  {
    QuotientFloors(400 * era + yoe, 400);
    hide Quotient;
    assert (400 * era + yoe) / 400 == era;
  }

  lemma EraOfDay(era: int, doe: int)
    requires 0 <= doe <= 146096
    ensures EraOfDays(146097 * era + doe) == era
  {
    QuotientFloors(146097 * era + doe, 146097);
    hide Quotient;
    assert (146097 * era + doe) / 146097 == era;
  }

  lemma DaysOfSplit(era: int, c: int, q: int, t: int, mp: int, d: int)
    requires 0 <= mp <= 11 && Split(c, q, t, MonthStart(mp) + d - 1)
    ensures var date := DateOf(era, c, q, t, mp, d);
      DaysFromCivil(date.year, date.month, date.day) == DayNumber(era, c, q, t, MonthStart(mp) + d - 1) - 719468
  {
    var yoe := 100 * c + 4 * q + t;
    SplitYear(c, q, t, MonthStart(mp) + d - 1);
    EraOfYear(era, yoe);
    MarchMonth(era, c, q, t, mp, d);
    var date := DateOf(era, c, q, t, mp, d);
    assert DayNumber(era, c, q, t, MonthStart(mp) + d - 1)
        == era * 146097 + (yoe * 365 + (25 * c + q) - c + (MonthStart(mp) + d - 1));
    hide Quotient, Split, DateOf, DayNumber, DayOfEra;
    DaysOfParts(date, era, yoe, mp, d);
  }

  lemma MarchMonth(era: int, c: int, q: int, t: int, mp: int, d: int)
    requires 0 <= mp <= 11
    ensures var date := DateOf(era, c, q, t, mp, d);
      && (if date.month <= 2 then date.year - 1 else date.year) == 400 * era + (100 * c + 4 * q + t)
      && date.month + (if date.month > 2 then -3 else 9) == mp && date.day == d
  {
  }

  lemma DaysOfParts(date: Date, era: int, yoe: int, mp: int, d: int)
    requires (if date.month <= 2 then date.year - 1 else date.year) == 400 * era + yoe && 0 <= yoe <= 399
    requires date.month + (if date.month > 2 then -3 else 9) == mp && date.day == d
    requires var y := 400 * era + yoe; Quotient(if y >= 0 then y else y - 399, 400) == era
    ensures DaysFromCivil(date.year, date.month, date.day)
      == era * 146097 + (yoe * 365 + yoe / 4 - yoe / 100 + (MonthStart(mp) + d - 1)) - 719468
  {
    hide Quotient;
  }

  lemma DayOfYear(c: int, q: int, t: int, doy: int)
    requires Split(c, q, t, doy)
    ensures DayInYear(DayOfEra(c, q, t, doy), 100 * c + 4 * q + t) == doy
  {
    SplitYear(c, q, t, doy);
    hide Split;
  }

  lemma CivilOfSplit(era: int, c: int, q: int, t: int, mp: int, d: int)
    requires 0 <= mp <= 11 && d >= 1 && Split(c, q, t, MonthStart(mp) + d - 1)
    requires mp < 11 ==> MonthStart(mp) + d - 1 < MonthStart(mp + 1)
    ensures CivilFromDays(DayNumber(era, c, q, t, MonthStart(mp) + d - 1) - 719468) == DateOf(era, c, q, t, mp, d)
  {
    var doy := MonthStart(mp) + d - 1;
    MonthOfDay(mp, doy);
    var doe := DayOfEra(c, q, t, doy);
    YearOfEra(c, q, t, doy);
    DayOfYear(c, q, t, doy);
    EraOfDay(era, doe);
    assert DayNumber(era, c, q, t, doy) == era * 146097 + doe;
    hide *;
    CivilOfParts(era * 146097 + doe, era, doe, 100 * c + 4 * q + t, doy, mp);
    DateIs(era, c, q, t, mp, d);
  }

  lemma CivilOfParts(z: int, era: int, doe: int, yoe: int, doy: int, mp: int)
    requires EraOfDays(z) == era && z == era * 146097 + doe
    requires YearInEra(doe) == yoe && DayInYear(doe, yoe) == doy && MonthInYear(doy) == mp
    ensures CivilFromDays(z - 719468) ==
      var m := mp + (if mp < 10 then 3 else -9);
      Date(yoe + era * 400 + (if m <= 2 then 1 else 0), m, doy - MonthStart(mp) + 1)
  {
    hide EraOfDays, YearInEra, DayInYear, MonthInYear, MonthStart;
  }

  lemma DateIs(era: int, c: int, q: int, t: int, mp: int, d: int)
    ensures DateOf(era, c, q, t, mp, d) ==
      var m := mp + (if mp < 10 then 3 else -9);
      Date(100 * c + 4 * q + t + era * 400 + (if m <= 2 then 1 else 0), m, d)
  {
  }

  /** The March-based year, month by month, is the calendar's. */
  lemma SplitOfDate(date: Date) returns (era: int, c: int, q: int, t: int, mp: int)
    requires Valid(date)
    ensures 0 <= mp <= 11 && Split(c, q, t, MonthStart(mp) + date.day - 1) && DateOf(era, c, q, t, mp, date.day) == date
    ensures date.day >= 1 && (mp < 11 ==> MonthStart(mp) + date.day - 1 < MonthStart(mp + 1))
  {
    var y := if date.month <= 2 then date.year - 1 else date.year;
    era := y / 400;
    var yoe := y - 400 * era;
    c := yoe / 100;
    q := (yoe - 100 * c) / 4;
    t := yoe - 100 * c - 4 * q;
    mp := if date.month > 2 then date.month - 3 else date.month + 9;
    MonthStarts();
    if date.month == 2 {
      LeapBySplit(era, c, q, t);
    }
  }

  lemma LeapBySplit(era: int, c: int, q: int, t: int)
    requires 0 <= c <= 3 && 0 <= q <= 24 && 0 <= t <= 3
    ensures Leap(400 * era + 100 * c + 4 * q + t + 1) <==> t == 3 && (q < 24 || c == 3)
  {
    var year := 400 * era + 100 * c + 4 * q + t + 1;
    if t < 3 {
      Remainder(year, 4, 100 * era + 25 * c + q, t + 1);
    } else if q < 24 {
      Remainder(year, 4, 100 * era + 25 * c + q + 1, 0);
      Remainder(year, 100, 4 * era + c, 4 * q + 4);
    } else {
      Remainder(year, 4, 100 * era + 25 * c + 25, 0);
      Remainder(year, 100, 4 * era + c + 1, 0);
      if c < 3 {
        Remainder(year, 400, era, 100 * c + 100);
      } else {
        Remainder(year, 400, era + 1, 0);
      }
    }
  }

  lemma Remainder(a: int, b: int, k: int, r: int)
    requires (b == 4 || b == 100 || b == 400) && a == b * k + r && 0 <= r < b
    ensures a % b == r
  {
    if b == 4 {
      RemainderOf4(k, r);
    } else if b == 100 {
      RemainderOf100(k, r);
    } else {
      RemainderOf400(k, r);
    }
  }

  lemma RemainderOf4(k: int, r: int)
    requires 0 <= r < 4
    ensures (4 * k + r) % 4 == r
  {
  }

  lemma RemainderOf100(k: int, r: int)
    requires 0 <= r < 100
    ensures (100 * k + r) % 100 == r
  {
  }

  lemma RemainderOf400(k: int, r: int)
    requires 0 <= r < 400
    ensures (400 * k + r) % 400 == r
  {
  }

  lemma DateOfIsValid(era: int, c: int, q: int, t: int, mp: int, d: int)
    requires 0 <= mp <= 11 && d >= 1 && Split(c, q, t, MonthStart(mp) + d - 1)
    requires mp < 11 ==> MonthStart(mp) + d - 1 < MonthStart(mp + 1)
    ensures Valid(DateOf(era, c, q, t, mp, d))
  {
    MonthStarts();
    LeapBySplit(era, c, q, t);
  }

  // ----- The main results -----

  /** Every valid date is found again from its number, for every year, before and after year zero. */
  lemma CivilOfDays(date: Date)
    requires Valid(date)
    ensures CivilFromDays(DaysFromCivil(date.year, date.month, date.day)) == date
  {
    hide *;
    var era, c, q, t, mp := SplitOfDate(date);
    DaysOfSplit(era, c, q, t, mp, date.day);
    CivilOfSplit(era, c, q, t, mp, date.day);
  }

  /** Every day number belongs to a valid date, and is found again from it. */
  lemma DaysOfCivil(days: int)
    ensures var date := CivilFromDays(days);
      Valid(date) && DaysFromCivil(date.year, date.month, date.day) == days
  {
    hide *;
    var era, c, q, t, mp, d := SplitOfDay(days);
    CivilOfSplit(era, c, q, t, mp, d);
    DaysOfSplit(era, c, q, t, mp, d);
    DateOfIsValid(era, c, q, t, mp, d);
  }

  lemma SplitOfDay(days: int) returns (era: int, c: int, q: int, t: int, mp: int, d: int)
    ensures 0 <= mp <= 11 && d >= 1 && Split(c, q, t, MonthStart(mp) + d - 1)
    ensures mp < 11 ==> MonthStart(mp) + d - 1 < MonthStart(mp + 1)
    ensures days == DayNumber(era, c, q, t, MonthStart(mp) + d - 1) - 719468
  {
    var z := days + 719468;
    era := z / 146097;
    var doe := z - era * 146097;
    var doy;
    c, q, t, doy := SplitExists(doe);
    mp := MonthExists(doy);
    d := doy - MonthStart(mp) + 1;
    assert days == DayNumber(era, c, q, t, doy) - 719468;
  }

  /** One March-based year after another: within an era, or the first after the last. */
  predicate FollowsYear(era: int, c: int, q: int, t: int, era': int, c': int, q': int, t': int) {
    var last := DayOfEra(c, q, t, LastOfYear(c, q, t));
    if era' == era then
      100 * c' + 4 * q' + t' == 100 * c + 4 * q + t + 1 && DayOfEra(c', q', t', 0) == last + 1
    else
      era' == era + 1 && c' == q' == t' == 0 && 100 * c + 4 * q + t == 399 && last == 146096
  }

  lemma CarryYear(era: int, c: int, q: int, t: int)
    requires 0 <= t < 3
    ensures FollowsYear(era, c, q, t, era, c, q, t + 1)
  {
  }

  lemma CarryCycle(era: int, c: int, q: int)
    requires q < 24
    ensures FollowsYear(era, c, q, 3, era, c, q + 1, 0)
  {
  }

  lemma CarryCentury(era: int, c: int)
    requires c < 3
    ensures FollowsYear(era, c, 24, 3, era, c + 1, 0, 0)
  {
  }

  lemma CarryEra(era: int)
    ensures FollowsYear(era, 3, 24, 3, era + 1, 0, 0, 0)
  {
  }

  /** The first day of a March-based year follows the last day of the one before. */
  lemma NextYear(era: int, c: int, q: int, t: int) returns (era': int, c': int, q': int, t': int)
    requires 0 <= c <= 3 && 0 <= q <= 24 && 0 <= t <= 3
    ensures Split(c', q', t', 0) && FollowsYear(era, c, q, t, era', c', q', t')
  {
    hide FollowsYear;
    if t < 3 {
      CarryYear(era, c, q, t);
      return era, c, q, t + 1;
    } else if q < 24 {
      CarryCycle(era, c, q);
      return era, c, q + 1, 0;
    } else if c < 3 {
      CarryCentury(era, c);
      return era, c + 1, 0, 0;
    } else {
      CarryEra(era);
      return era + 1, 0, 0, 0;
    }
  }

  function LastOfYear(c: int, q: int, t: int): int {
    if t == 3 && (q < 24 || c == 3) then 365 else 364
  }

  lemma NextInYear(era: int, c: int, q: int, t: int, mp: int, d: int)
    requires 0 <= mp <= 11 && d >= 1 && Split(c, q, t, MonthStart(mp) + d - 1)
    requires mp < 11 ==> MonthStart(mp) + d - 1 < MonthStart(mp + 1)
    ensures var date := DateOf(era, c, q, t, mp, d);
      if d < MonthLength(date.year, date.month) then
        NextDay(date) == DateOf(era, c, q, t, mp, d + 1) && Split(c, q, t, MonthStart(mp) + d)
      else if mp < 11 then
        NextDay(date) == DateOf(era, c, q, t, mp + 1, 1) && MonthStart(mp + 1) == MonthStart(mp) + d && Split(c, q, t, MonthStart(mp) + d)
      else
        MonthStart(11) + d - 1 == LastOfYear(c, q, t)
  {
    MonthStarts();
    LeapBySplit(era, c, q, t);
    hide Leap;
  }

  lemma DayZero()
    ensures DayOfEra(0, 0, 0, 0) == 0
  {
  }

  lemma NextEra(era: int, last: int)
    requires last == 146096
    ensures (era + 1) * 146097 == era * 146097 + last + 1
  {
  }

  lemma TurnCounts(era: int, c: int, q: int, t: int, era': int, c': int, q': int, t': int)
    requires FollowsYear(era, c, q, t, era', c', q', t')
    ensures DayNumber(era', c', q', t', 0) == DayNumber(era, c, q, t, LastOfYear(c, q, t)) + 1
    ensures 400 * era' + 100 * c' + 4 * q' + t' == 400 * era + 100 * c + 4 * q + t + 1
  {
    hide LastOfYear, DayOfEra;
    DayZero();
    if era' != era {
      NextEra(era, DayOfEra(c, q, t, LastOfYear(c, q, t)));
    }
  }

  lemma DayZeroIsEpoch()
    ensures DaysFromCivil(1970, 1, 1) == 0
  {
  }

  lemma DayCounts(era: int, c: int, q: int, t: int, doy: int)
    ensures DayNumber(era, c, q, t, doy + 1) == DayNumber(era, c, q, t, doy) + 1
  {
  }

  function DaysOf(date: Date): int {
    DaysFromCivil(date.year, date.month, date.day)
  }

  lemma NextDayInYear(date: Date, era: int, c: int, q: int, t: int, mp: int)
    requires 0 <= mp <= 11 && date.day >= 1 && Split(c, q, t, MonthStart(mp) + date.day - 1)
    requires mp < 11 ==> MonthStart(mp) + date.day - 1 < MonthStart(mp + 1)
    requires DateOf(era, c, q, t, mp, date.day) == date && (mp < 11 || date.day < MonthLength(date.year, date.month))
    ensures DaysOf(NextDay(date)) == DaysOf(date) + 1
  {
    NextInYear(era, c, q, t, mp, date.day);
    var doy := MonthStart(mp) + date.day - 1;
    MonthStarts();
    hide DaysFromCivil, Leap, DayNumber, DayOfEra, Split, MonthStart, LastOfYear, FollowsYear;
    DaysOfSplit(era, c, q, t, mp, date.day);
    DayCounts(era, c, q, t, doy);
    if date.day < MonthLength(date.year, date.month) {
      DaysOfSplit(era, c, q, t, mp, date.day + 1);
    } else {
      DaysOfSplit(era, c, q, t, mp + 1, 1);
    }
  }

  lemma NextDayTurnsYear(date: Date, era: int, c: int, q: int, t: int)
    requires date.day >= 1 && Split(c, q, t, MonthStart(11) + date.day - 1) && DateOf(era, c, q, t, 11, date.day) == date
    requires date.day >= MonthLength(date.year, date.month)
    ensures DaysOf(NextDay(date)) == DaysOf(date) + 1
  {
    NextInYear(era, c, q, t, 11, date.day);
    MonthStarts();
    hide DaysFromCivil, Leap, DayNumber, DayOfEra, Split, MonthStart, LastOfYear, FollowsYear;
    DaysOfSplit(era, c, q, t, 11, date.day);
    var era', c', q', t' := NextYear(era, c, q, t);
    TurnCounts(era, c, q, t, era', c', q', t');
    DaysOfSplit(era', c', q', t', 0, 1);
  }

  /** The numbers count days: the next day's number is one more, and day zero is 1970-01-01. */
  lemma NextDayCountsOne(date: Date)
    requires Valid(date)
    ensures DaysOf(NextDay(date)) == DaysOf(date) + 1
    ensures DaysFromCivil(1970, 1, 1) == 0
  {
    DayZeroIsEpoch();
    var era, c, q, t, mp := SplitOfDate(date);
    hide *;
    if mp < 11 || date.day < MonthLength(date.year, date.month) {
      NextDayInYear(date, era, c, q, t, mp);
    } else {
      NextDayTurnsYear(date, era, c, q, t);
    }
  }
}
