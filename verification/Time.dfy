/** Civil calendar arithmetic and RFC 3339 stamps with nanoseconds. */
module Time {
  import opened Numbers

  // ----- machine arithmetic

  /** Signed division as C++ does it: toward zero. */
  function Quotient(a: int, b: int): int
    requires b > 0
  {
    if a >= 0 then a / b else -((-a) / b)
  }

  function Modulus(a: int, b: int): int
    requires b > 0
  {
    a - Quotient(a, b) * b
  }

  const UNSIGNED: int := 0x1_0000_0000

  function U(x: int): (r: int)
    ensures 0 <= r < UNSIGNED
  {
    x % UNSIGNED
  }

  /** Unsigned 32-bit operations. */
  function Plus(a: int, b: int): int { U(a + b) }
  function Minus(a: int, b: int): int { U(a - b) }
  function Times(a: int, b: int): int { U(a * b) }

  lemma Fits(a: int, b: int)
    ensures 0 <= a + b < UNSIGNED ==> Plus(a, b) == a + b
    ensures 0 <= a - b < UNSIGNED ==> Minus(a, b) == a - b
    ensures 0 <= a * b < UNSIGNED ==> Times(a, b) == a * b
  {}

  // ----- the calendar as computed

  function AdjustedMonth(month: nat): int { if month > 2 then Minus(month, 3) else Plus(month, 9) }

  function DayOfYearFrom(adjusted: int, day: nat): int { Minus(Plus(Plus(Times(153, adjusted), 2) / 5, day), 1) }

  function DayOfEraFrom(yearOfEra: int, dayOfYear: int): int {
    Plus(Minus(Plus(Times(yearOfEra, 365), yearOfEra / 4), yearOfEra / 100), dayOfYear)
  }

  function DaysFromCivil(civilYear: int, month: nat, day: nat): int {
    var year := if month <= 2 then civilYear - 1 else civilYear;
    var era := Quotient(if year >= 0 then year else year - 399, 400);
    era * 146097 + DayOfEraFrom(U(year - era * 400), DayOfYearFrom(AdjustedMonth(month), day)) - 719468
  }

  function YearOfEra(dayOfEra: int): int {
    Minus(Plus(Minus(dayOfEra, dayOfEra / 1460), dayOfEra / 36524), dayOfEra / 146096) / 365
  }

  function DayOfYear(dayOfEra: int, yearOfEra: int): int {
    Minus(dayOfEra, Minus(Plus(Times(365, yearOfEra), yearOfEra / 4), yearOfEra / 100))
  }

  function MonthIndex(dayOfYear: int): int { Plus(Times(5, dayOfYear), 2) / 153 }

  function DayOfMonth(dayOfYear: int, mp: int): (d: nat) { Plus(Minus(dayOfYear, Plus(Times(153, mp), 2) / 5), 1) }

  function MonthOf(mp: int): (m: nat) { if mp < 10 then Plus(mp, 3) else Minus(mp, 9) }

  function CivilFromDays(unixDays: int): (int, nat, nat) {
    var days := unixDays + 719468;
    var era := Quotient(if days >= 0 then days else days - 146096, 146097);
    var dayOfEra := U(days - era * 146097);
    var yearOfEra := YearOfEra(dayOfEra);
    var dayOfYear := DayOfYear(dayOfEra, yearOfEra);
    var mp := MonthIndex(dayOfYear);
    var month := MonthOf(mp);
    (yearOfEra + era * 400 + (if month <= 2 then 1 else 0), month, DayOfMonth(dayOfYear, mp))
  }

  // ----- the calendar as it is

  predicate Leap(year: int) { year % 4 == 0 && (year % 100 != 0 || year % 400 == 0) }

  function DaysIn(year: int, month: nat): nat {
    if month == 2 then (if Leap(year) then 29 else 28)
    else if month == 4 || month == 6 || month == 9 || month == 11 then 30
    else 31
  }

  predicate Civil(year: int, month: nat, day: nat) {
    1 <= month <= 12 && 1 <= day <= DaysIn(year, month)
  }

  /** Years counted from March, in eras of 400: the leap day comes last. */
  function EraDay(q: nat, f: nat, y: nat, doy: nat): nat { 36524 * q + 1461 * f + 365 * y + doy }

  predicate EraPlace(q: nat, f: nat, y: nat, doy: nat) {
    q <= 3 && f <= 24 && y <= 3 && doy <= 365 && (doy == 365 ==> y == 3 && (f < 24 || q == 3))
  }

  /** Centuries, four-year cycles and years of an era add up to its days. */
  lemma EraForward(q: nat, f: nat, y: nat, doy: nat)
    requires EraPlace(q, f, y, doy)
    ensures
      var year := 100 * q + 4 * f + y;
      365 * year + year / 4 - year / 100 + doy == EraDay(q, f, y, doy) && EraDay(q, f, y, doy) <= 146096
  {
    var year := 100 * q + 4 * f + y;
    assert year / 4 == 25 * q + f;
    assert year / 100 == q;
  }

  /** The closed formula recovers the year of the era. */
  lemma EraBackward(q: nat, f: nat, y: nat, doy: nat)
    requires EraPlace(q, f, y, doy)
    ensures
      var d := EraDay(q, f, y, doy);
      (d - d / 1460 + d / 36524 - d / 146096) / 365 == 100 * q + 4 * f + y
  {
    var d := EraDay(q, f, y, doy);
    var over := if 24 * q + f + 365 * y + doy >= 1460 then 1 else 0;
    assert d == 1460 * (25 * q + f) + (24 * q + f + 365 * y + doy);
    assert d / 1460 == 25 * q + f + over;
    var last := if doy == 365 && f == 24 then 1 else 0;
    assert d / 36524 == q + last;
    assert d / 146096 == last;
    assert d - d / 1460 + d / 36524 - d / 146096 == 365 * (100 * q + 4 * f + y) + (doy - over);
  }

  lemma EraDecompose(d: nat) returns (q: nat, f: nat, y: nat, doy: nat)
    requires d <= 146096
    ensures EraPlace(q, f, y, doy) && d == EraDay(q, f, y, doy)
  {
    q := if d / 36524 < 3 then d / 36524 else 3;
    var r := d - 36524 * q;
    f := r / 1461;
    var s := r - 1461 * f;
    y := if s / 365 < 3 then s / 365 else 3;
    doy := s - 365 * y;
  }

  lemma YearDecompose(year: nat) returns (q: nat, f: nat, y: nat)
    requires year < 400
    ensures q <= 3 && f <= 24 && y <= 3 && year == 100 * q + 4 * f + y
  {
    q := year / 100;
    f := year % 100 / 4;
    y := year % 4;
  }

  /** The month table: March is month zero, and the lengths repeat with period five. */
  function MonthStart(mp: nat): nat { (153 * mp + 2) / 5 }

  lemma MonthTable(mp: nat, d: nat)
    requires mp <= 11 && 1 <= d
    requires d <= (if mp == 11 then 29 else if mp == 1 || mp == 3 || mp == 6 || mp == 8 then 30 else 31)
    ensures
      var doy := MonthStart(mp) + d - 1;
      (5 * doy + 2) / 153 == mp && doy <= 365 && (doy == 365 <==> mp == 11 && d == 29)
  {}

  lemma MonthOfDay(doy: nat) returns (mp: nat, d: nat)
    requires doy <= 365
    ensures mp <= 11 && mp == (5 * doy + 2) / 153 && 1 <= d && doy == MonthStart(mp) + d - 1
    ensures d <= (if mp == 11 then 29 else if mp == 1 || mp == 3 || mp == 6 || mp == 8 then 30 else 31)
  {
    mp := (5 * doy + 2) / 153;
    d := doy - MonthStart(mp) + 1;
  }

  // ----- no unsigned step wraps

  lemma EraOf(x: int, size: int)
    requires size > 0
    ensures Quotient(if x >= 0 then x else x - (size - 1), size) == x / size
  {
    if x < 0 {
      var n := -(x - (size - 1));
      Division(x, size, -(n / size), size - 1 - n % size);
    }
  }

  lemma EraParts(x: int, size: int) returns (era: int, rest: nat)
    requires 0 < size < UNSIGNED
    ensures era == Quotient(if x >= 0 then x else x - (size - 1), size)
    ensures x == era * size + rest && rest < size && U(x - era * size) == rest
  {
    hide Quotient;
    EraOf(x, size);
    era, rest := x / size, x % size;
  }

  lemma DayOfYearPlain(month: nat, day: nat)
    requires 1 <= month <= 12 && 1 <= day <= 31
    ensures
      var mp := if month > 2 then month - 3 else month + 9;
      DayOfYearFrom(AdjustedMonth(month), day) == MonthStart(mp) + day - 1 && MonthStart(mp) + day - 1 <= 367
  {
    hide Plus, Minus, Times;
    var mp := if month > 2 then month - 3 else month + 9;
    Fits(month, 3);
    Fits(month, 9);
    Fits(153, mp);
    Fits(153 * mp, 2);
    Fits(MonthStart(mp), day);
    Fits(MonthStart(mp) + day, 1);
  }

  lemma DayOfEraPlain(yearOfEra: nat, dayOfYear: nat)
    requires yearOfEra < 400 && dayOfYear <= 367
    ensures DayOfEraFrom(yearOfEra, dayOfYear) == 365 * yearOfEra + yearOfEra / 4 - yearOfEra / 100 + dayOfYear
  {
    hide Plus, Minus, Times;
    Fits(yearOfEra, 365);
    Fits(yearOfEra * 365, yearOfEra / 4);
    Fits(yearOfEra * 365 + yearOfEra / 4, yearOfEra / 100);
    Fits(yearOfEra * 365 + yearOfEra / 4 - yearOfEra / 100, dayOfYear);
  }

  lemma YearOfEraPlain(d: nat)
    requires d <= 146096
    ensures YearOfEra(d) == (d - d / 1460 + d / 36524 - d / 146096) / 365
  {
    hide Plus, Minus, Times;
    Fits(d, d / 1460);
    Fits(d - d / 1460, d / 36524);
    Fits(d - d / 1460 + d / 36524, d / 146096);
  }

  lemma DayOfYearBack(yearOfEra: nat, doy: nat)
    requires yearOfEra < 400 && doy <= 365
    ensures DayOfYear(365 * yearOfEra + yearOfEra / 4 - yearOfEra / 100 + doy, yearOfEra) == doy
  {
    hide Plus, Minus, Times;
    Fits(365, yearOfEra);
    Fits(365 * yearOfEra, yearOfEra / 4);
    Fits(365 * yearOfEra + yearOfEra / 4, yearOfEra / 100);
    Fits(365 * yearOfEra + yearOfEra / 4 - yearOfEra / 100 + doy, 365 * yearOfEra + yearOfEra / 4 - yearOfEra / 100);
  }

  lemma MonthPlain(mp: nat, d: nat)
    requires mp <= 11 && 1 <= d
    requires d <= (if mp == 11 then 29 else if mp == 1 || mp == 3 || mp == 6 || mp == 8 then 30 else 31)
    ensures
      var doy := MonthStart(mp) + d - 1;
      MonthIndex(doy) == mp && DayOfMonth(doy, mp) == d && MonthOf(mp) == if mp < 10 then mp + 3 else mp - 9
  {
    hide Plus, Minus, Times;
    var doy := MonthStart(mp) + d - 1;
    MonthTable(mp, d);
    Fits(5, doy);
    Fits(5 * doy, 2);
    Fits(153, mp);
    Fits(153 * mp, 2);
    Fits(doy, MonthStart(mp));
    Fits(d - 1, 1);
    Fits(mp, 3);
    Fits(mp, 9);
  }

  /** A place in the era as the day and as the year and day of year. */
  lemma EraPlain(q: nat, f: nat, y: nat, doy: nat)
    requires EraPlace(q, f, y, doy)
    ensures
      var year, d := 100 * q + 4 * f + y, EraDay(q, f, y, doy);
      && year < 400 && d <= 146096
      && DayOfEraFrom(year, doy) == d && YearOfEra(d) == year && DayOfYear(d, year) == doy
  {
    hide *;
    var year := 100 * q + 4 * f + y;
    PlaceBound(q, f, y, doy);
    EraForward(q, f, y, doy);
    EraBackward(q, f, y, doy);
    DayOfEraPlain(year, doy);
    YearOfEraPlain(EraDay(q, f, y, doy));
    DayOfYearBack(year, doy);
  }

  // ----- mutual inverses

  /** From any civil date to its day and back, with no unsigned operation wrapping. */
  lemma CivilRoundTrip(year: int, month: nat, day: nat)
    requires Civil(year, month, day)
    ensures CivilFromDays(DaysFromCivil(year, month, day)) == (year, month, day)
  {
    hide DayOfEraFrom, YearOfEra, DayOfYear, DayOfYearFrom, AdjustedMonth, MonthIndex, DayOfMonth, MonthOf, Quotient, U,
         EraDay, MonthStart, Leap, EraPlace;
    var shifted := if month <= 2 then year - 1 else year;
    var mp := if month > 2 then month - 3 else month + 9;
    var doy := MonthStart(mp) + day - 1;
    var era, yearOfEra := EraParts(shifted, 400);
    DayOfYearPlain(month, day);
    MonthLength(year, month, day);
    MonthTable(mp, day);
    MonthPlain(mp, day);
    var q, f, y := YearDecompose(yearOfEra);
    LeapPlace(shifted, era, q, f, y, doy, mp, day);
    EraPlain(q, f, y, doy);
    var d := EraDay(q, f, y, doy);
    assert DaysFromCivil(year, month, day) == era * 146097 + d - 719468;
    var again, rest := EraParts(DaysFromCivil(year, month, day) + 719468, 146097);
    EraSplit(era, d, again, rest);
  }

  lemma MonthLength(year: int, month: nat, day: nat)
    requires Civil(year, month, day)
    ensures
      var mp := if month > 2 then month - 3 else month + 9;
      day <= (if mp == 11 then 29 else if mp == 1 || mp == 3 || mp == 6 || mp == 8 then 30 else 31)
    ensures month == 2 && day == 29 ==> Leap(year)
  {
    hide Leap;
  }

  lemma EraSplit(era: int, d: nat, again: int, rest: nat)
    requires era * 146097 + d == again * 146097 + rest && d < 146097 && rest < 146097
    ensures again == era && rest == d
  {}

  /** The 29th of February, day 365 from March, exists exactly in the last year of its cycle. */
  lemma LeapPlace(shifted: int, era: int, q: nat, f: nat, y: nat, doy: nat, mp: nat, day: nat)
    requires q <= 3 && f <= 24 && y <= 3 && shifted == era * 400 + 100 * q + 4 * f + y && doy <= 365
    requires mp == 11 && day == 29 ==> Leap(shifted + 1)
    requires doy == 365 ==> mp == 11 && day == 29
    ensures EraPlace(q, f, y, doy)
  {
    var z := shifted + 1;
    if doy == 365 {
      if y < 3 {
        Division(z, 4, 100 * era + 25 * q + f, y + 1);
      } else if f == 24 && q < 3 {
        Division(z, 100, 4 * era + q + 1, 0);
        Division(z, 400, era, 100 * (q + 1));
      }
    }
  }

  lemma LastDay(shifted: int, era: int, q: nat, f: nat, y: nat, doy: nat)
    requires EraPlace(q, f, y, doy) && shifted == era * 400 + 100 * q + 4 * f + y
    ensures doy == 365 ==> Leap(shifted + 1)
  {
    var z := shifted + 1;
    if doy == 365 {
      Division(z, 4, 100 * era + 25 * q + f + 1, 0);
      if f < 24 {
        Division(z, 100, 4 * era + q, 4 * (f + 1));
      } else {
        Division(z, 400, era + 1, 0);
      }
    }
  }

  /** From any day to a civil date, which exists, and back. */
  lemma DayRoundTrip(days: int)
    ensures
      var (year, month, day) := CivilFromDays(days);
      Civil(year, month, day) && DaysFromCivil(year, month, day) == days
  {
    hide DayOfEraFrom, YearOfEra, DayOfYear, DayOfYearFrom, AdjustedMonth, MonthIndex, DayOfMonth, MonthOf, Quotient, U,
         EraDay, MonthStart, Leap, EraPlace;
    var era, rest := EraParts(days + 719468, 146097);
    var q, f, y, doy := EraDecompose(rest);
    EraPlain(q, f, y, doy);
    PlaceBound(q, f, y, doy);
    var mp, d := MonthOfDay(doy);
    MonthTable(mp, d);
    MonthPlain(mp, d);
    var yearOfEra := 100 * q + 4 * f + y;
    var shifted := yearOfEra + era * 400;
    LastDay(shifted, era, q, f, y, doy);
    var month := if mp < 10 then mp + 3 else mp - 9;
    var year := if month <= 2 then shifted + 1 else shifted;
    assert CivilFromDays(days) == (year, month, d);
    DayExists(year, month, d, mp, doy);
    DayOfYearPlain(month, d);
    var again, part := EraParts(shifted, 400);
    YearSplit(era, yearOfEra, again, part);
  }

  lemma PlaceBound(q: nat, f: nat, y: nat, doy: nat)
    requires EraPlace(q, f, y, doy)
    ensures doy <= 365 && 100 * q + 4 * f + y < 400 && EraDay(q, f, y, doy) <= 146096
  {}

  lemma DayExists(year: int, month: nat, day: nat, mp: nat, doy: nat)
    requires mp <= 11 && month == (if mp < 10 then mp + 3 else mp - 9) && 1 <= day
    requires day <= (if mp == 11 then 29 else if mp == 1 || mp == 3 || mp == 6 || mp == 8 then 30 else 31)
    requires mp == 11 && day == 29 ==> Leap(year)
    ensures Civil(year, month, day) && mp == if month > 2 then month - 3 else month + 9
  {
    hide Leap;
  }

  lemma YearSplit(era: int, y: nat, again: int, part: nat)
    requires era * 400 + y == again * 400 + part && y < 400 && part < 400
    ensures again == era && part == y
  {}

  // ----- the number of a day counts days

  /** Days before the March of a year, counted from year zero. */
  function YearStart(year: int): int { 365 * year + year / 4 - year / 100 + year / 400 }

  lemma DaysPlain(year: int, month: nat, day: nat)
    requires 1 <= month <= 12 && 1 <= day <= 31
    ensures
      var shifted, mp := if month <= 2 then year - 1 else year, if month > 2 then month - 3 else month + 9;
      DaysFromCivil(year, month, day) == YearStart(shifted) + MonthStart(mp) + day - 1 - 719468
  {
    hide DayOfEraFrom, DayOfYearFrom, AdjustedMonth, Quotient, U, MonthStart;
    var shifted, mp := if month <= 2 then year - 1 else year, if month > 2 then month - 3 else month + 9;
    var era, rest := EraParts(shifted, 400);
    DayOfYearPlain(month, day);
    DayOfEraPlain(rest, MonthStart(mp) + day - 1);
    Division(shifted, 4, 100 * era + rest / 4, rest % 4);
    Division(shifted, 100, 4 * era + rest / 100, rest % 100);
    Division(shifted, 400, era, rest);
  }

  /** The first of January 1970 is day zero. */
  lemma Epoch()
    ensures DaysFromCivil(1970, 1, 1) == 0
  {
    hide DaysFromCivil;
    DaysPlain(1970, 1, 1);
  }

  function NextDate(date: (int, nat, nat)): (int, nat, nat)
    requires Civil(date.0, date.1, date.2)
  {
    if date.2 < DaysIn(date.0, date.1) then (date.0, date.1, date.2 + 1)
    else if date.1 < 12 then (date.0, date.1 + 1, 1)
    else (date.0 + 1, 1, 1)
  }

  lemma LeapYearLonger(year: int)
    ensures YearStart(year) == YearStart(year - 1) + if Leap(year) then 366 else 365
  {
    hide YearStart;
    StepDivision(year, 4);
    StepDivision(year, 100);
    StepDivision(year, 400);
    StartsApart(year);
    DivisorsOf400(year);
  }

  lemma StartsApart(year: int)
    ensures YearStart(year) - YearStart(year - 1)
         == 365 + (year / 4 - (year - 1) / 4) - (year / 100 - (year - 1) / 100) + (year / 400 - (year - 1) / 400)
  {}

  lemma DivisorsOf400(year: int)
    ensures year % 400 == 0 ==> year % 100 == 0
    ensures year % 100 == 0 ==> year % 4 == 0
  {
    if year % 400 == 0 { Division(year, 100, 4 * (year / 400), 0); }
    if year % 100 == 0 { Division(year, 4, 25 * (year / 100), 0); }
  }

  lemma StepDivision(x: int, d: int)
    requires d > 1
    ensures x / d == (x - 1) / d + if x % d == 0 then 1 else 0
  {
    var q, r := x / d, x % d;
    if r == 0 { Division(x - 1, d, q - 1, d - 1); } else { Division(x - 1, d, q, r - 1); }
  }

  /** The date after any date, across the ends of months and years, has the next number. */
  lemma NextDay(year: int, month: nat, day: nat)
    requires Civil(year, month, day)
    ensures
      var (y, m, d) := NextDate((year, month, day));
      Civil(y, m, d) && DaysFromCivil(y, m, d) == DaysFromCivil(year, month, day) + 1
  {
    hide DaysFromCivil, YearStart, Leap;
    var (y, m, d) := NextDate((year, month, day));
    CivilBounds(year, month, day);
    CivilBounds(y, m, d);
    DaysPlain(year, month, day);
    DaysPlain(y, m, d);
    LeapYearLonger(year);
  }

  lemma CivilBounds(year: int, month: nat, day: nat)
    requires 1 <= month <= 12 && 1 <= day <= DaysIn(year, month)
    ensures 1 <= day <= 31
  {
    hide Leap;
  }

  /** The date so many days after the first of January 1970. */
  function DateAfter(n: nat): (date: (int, nat, nat))
    ensures Civil(date.0, date.1, date.2)
  {
    if n == 0 then (1970, 1, 1)
    else
      var date := DateAfter(n - 1);
      NextDay(date.0, date.1, date.2);
      NextDate(date)
  }

  /** From 1970 on the number of a day is the count of days since then. */
  lemma {:induction false} NumberCountsDays(n: nat)
    ensures CivilFromDays(n) == DateAfter(n)
    ensures var date := DateAfter(n); DaysFromCivil(date.0, date.1, date.2) == n
  {
    hide DaysFromCivil, CivilFromDays;
    var date := DateAfter(n);
    if n == 0 {
      Epoch();
    } else {
      NumberCountsDays(n - 1);
      var before := DateAfter(n - 1);
      NextDay(before.0, before.1, before.2);
    }
    CivilRoundTrip(date.0, date.1, date.2);
  }

  /** Before 1970 it counts the days until then: each day's date leads to the next one's. */
  lemma DatesInTurn(days: int)
    ensures
      var date := CivilFromDays(days);
      Civil(date.0, date.1, date.2) && CivilFromDays(days + 1) == NextDate(date)
  {
    hide DaysFromCivil, CivilFromDays;
    var date := CivilFromDays(days);
    DayRoundTrip(days);
    NextDay(date.0, date.1, date.2);
    var next := NextDate(date);
    CivilRoundTrip(next.0, next.1, next.2);
  }

  /** A day past the end of its month is counted on from the month's first. */
  lemma DaysPastTheEnd(year: int, month: nat, day: nat)
    requires 1 <= month <= 12 && 1 <= day <= 31
    ensures DaysFromCivil(year, month, day) == DaysFromCivil(year, month, 1) + day - 1
  {
    hide DaysFromCivil, YearStart;
    DaysPlain(year, month, day);
    DaysPlain(year, month, 1);
  }
}
