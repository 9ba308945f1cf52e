/** RFC 3339 stamps with nanoseconds: how instants are written and read. */
module Stamps {
  import opened Core
  import opened Values
  import opened Decimals
  import opened Numbers
  import opened Time

  const NANOS: int := 1_000_000_000
  const DAY: int := 86400

  // ----- numerals of fixed width

  function Pad(n: nat, width: nat): (s: Text)
    decreases width
  {
    if width == 0 then [] else Pad(n / 10, width - 1) + [Digit(n % 10)]
  }

  lemma {:induction false} PadReads(n: nat, width: nat)
    requires n < Power10(width)
    ensures |Pad(n, width)| == width && AllDigits(Pad(n, width)) && ReadDigits(Pad(n, width)) == n
    decreases width
  {
    if width > 0 {
      PadReads(n / 10, width - 1);
      DigitBack(n % 10);
      var s := Pad(n, width);
      assert s[..|s| - 1] == Pad(n / 10, width - 1);
    }
  }

  lemma {:induction false} PadUnique(s: Text)
    requires AllDigits(s)
    ensures Pad(ReadDigits(s), |s|) == s && ReadDigits(s) < Power10(|s|)
  {
    if s != [] {
      var k := |s| - 1;
      PadUnique(s[..k]);
      assert s == s[..k] + [s[k]];
      assert ReadDigits(s) / 10 == ReadDigits(s[..k]);
    }
  }

  lemma SmallPowers()
    ensures Power10(0) == 1 && Power10(1) == 10 && Power10(2) == 100 && Power10(4) == 10_000 && Power10(9) == NANOS
  {
    assert Power10(3) == 1000;
    assert Power10(6) == 1_000_000;
    assert Power10(8) == 100_000_000;
  }

  // ----- the fields of a stamp

  datatype Stamp =
    Stamp(year: nat, month: nat, day: nat, hour: nat, minute: nat, second: nat, fraction: nat)

  /** What the reader admits field by field: any day up to 31, and second 60. */
  predicate Admitted(x: Stamp) {
    && x.year <= 9999 && 1 <= x.month <= 12 && 1 <= x.day <= 31
    && x.hour <= 23 && x.minute <= 59 && x.second <= 60 && x.fraction < NANOS
  }

  /** A moment that exists: a date of the calendar and no leap second. */
  predicate Exists(x: Stamp) {
    Admitted(x) && Civil(x.year, x.month, x.day) && x.second <= 59
  }

  function Seconds(x: Stamp): int
    requires Admitted(x)
  {
    DaysFromCivil(x.year, x.month, x.day) * DAY + x.hour * 3600 + x.minute * 60 + x.second
  }

  function Head(x: Stamp): Text {
    Pad(x.year, 4) + ['-'] + Pad(x.month, 2) + ['-'] + Pad(x.day, 2) + ['T']
    + Pad(x.hour, 2) + [':'] + Pad(x.minute, 2) + [':'] + Pad(x.second, 2)
  }

  function Spelled(x: Stamp): Text {
    Head(x) + ['.'] + Pad(x.fraction, 9) + ['Z']
  }

  predicate Marks(text: Text)
    requires |text| >= 20
  {
    && text[4] == '-' && text[7] == '-' && text[10] == 'T' && text[13] == ':' && text[16] == ':'
    && text[|text| - 1] == 'Z'
  }

  predicate Numerals(text: Text)
    requires |text| >= 20
  {
    && AllDigits(text[0..4]) && AllDigits(text[5..7]) && AllDigits(text[8..10])
    && AllDigits(text[11..13]) && AllDigits(text[14..16]) && AllDigits(text[17..19])
  }

  /** Between the seconds and the final Z: nothing, or a point and one to nine digits. */
  predicate Tail(text: Text)
    requires |text| >= 20
  {
    if text[19] == '.' then 22 <= |text| <= 30 && AllDigits(text[20..|text| - 1]) else |text| == 20
  }

  function FractionOf(text: Text): nat
    requires |text| >= 20 && Tail(text)
  {
    if text[19] == '.' then ReadDigits(text[20..|text| - 1]) * Power10(30 - |text|) else 0
  }

  function HeadOf(text: Text, fraction: nat): Stamp
    requires |text| >= 20 && Numerals(text)
  {
    Stamp(ReadDigits(text[0..4]), ReadDigits(text[5..7]), ReadDigits(text[8..10]), ReadDigits(text[11..13]),
          ReadDigits(text[14..16]), ReadDigits(text[17..19]), fraction)
  }

  function Fields(text: Text): Option<Stamp> {
    if |text| >= 20 && Marks(text) && Numerals(text) && Tail(text) && Admitted(HeadOf(text, FractionOf(text)))
    then Some(HeadOf(text, FractionOf(text)))
    else None
  }

  /** The reader refuses rather than overflows; its lower test adds the fraction where it should subtract it. */
  function InstantOf(x: Stamp): Option<int64>
    requires Admitted(x)
  {
    var seconds := Seconds(x);
    if seconds > Quotient(INT64_MAX - x.fraction, NANOS) || seconds < Quotient(INT64_MIN + x.fraction, NANOS) then None
    else InstantFits(seconds, x.fraction); Some(seconds * NANOS + x.fraction)
  }

  function Parsed(text: Text): Option<int64> {
    if Fields(text).Some? then InstantOf(Fields(text).value) else None
  }

  /** Seconds and nanoseconds with the fraction made non-negative. */
  function WholeSeconds(nanos: int64): int {
    if Modulus(nanos, NANOS) < 0 then Quotient(nanos, NANOS) - 1 else Quotient(nanos, NANOS)
  }

  function Fraction(nanos: int64): int {
    if Modulus(nanos, NANOS) < 0 then Modulus(nanos, NANOS) + NANOS else Modulus(nanos, NANOS)
  }

  /** The second of the day is made non-negative, but the day is not borrowed. */
  function SecondOfDay(seconds: int): int {
    if Modulus(seconds, DAY) < 0 then Modulus(seconds, DAY) + DAY else Modulus(seconds, DAY)
  }

  function FieldsOf(nanos: int64): Stamp {
    var seconds := WholeSeconds(nanos);
    var (year, month, day) := CivilFromDays(Quotient(seconds, DAY));
    var rest := SecondOfDay(seconds);
    SplitExact(nanos);
    YearBound(Quotient(seconds, DAY));
    Stamp(year, month, day, rest / 3600, rest % 3600 / 60, rest % 60, Fraction(nanos))
  }

  function FormatTime(nanos: int64): Text {
    Spelled(FieldsOf(nanos))
  }

  // ----- the guard

  lemma TruncatedBound(a: int, s: int)
    ensures a >= 0 ==> (s <= Quotient(a, NANOS) <==> s * NANOS <= a)
    ensures a <= 0 ==> (s >= Quotient(a, NANOS) <==> s * NANOS >= a)
  {}

  /** No overflow in the final multiplication or in the addition. */
  lemma InstantFits(seconds: int, fraction: nat)
    requires fraction < NANOS
    requires seconds <= Quotient(INT64_MAX - fraction, NANOS) && seconds >= Quotient(INT64_MIN + fraction, NANOS)
    ensures INT64_MIN <= seconds * NANOS <= INT64_MAX && INT64_MIN <= seconds * NANOS + fraction <= INT64_MAX
  {
    TruncatedBound(INT64_MAX - fraction, seconds);
    TruncatedBound(INT64_MIN + fraction, seconds);
  }

  /** Exactly when a well-formed stamp is refused for its size: above the
      range, or so low that even subtracting the fraction leaves the range. */
  lemma GuardExact(x: Stamp)
    requires Admitted(x)
    ensures InstantOf(x).Some? <==>
            Seconds(x) * NANOS + x.fraction <= INT64_MAX && INT64_MIN <= Seconds(x) * NANOS - x.fraction
    ensures InstantOf(x).Some? ==> InstantOf(x).value == Seconds(x) * NANOS + x.fraction
  {
    hide DaysFromCivil, Quotient;
    TruncatedBound(INT64_MAX - x.fraction, Seconds(x));
    TruncatedBound(INT64_MIN + x.fraction, Seconds(x));
  }
  // ----- the fields of an instant

  lemma SplitExact(nanos: int64)
    ensures WholeSeconds(nanos) == nanos / NANOS && Fraction(nanos) == nanos % NANOS
    ensures -9_223_372_037 <= WholeSeconds(nanos) <= 9_223_372_036
    ensures SecondOfDay(WholeSeconds(nanos)) == WholeSeconds(nanos) % DAY
    ensures -106_752 <= Quotient(WholeSeconds(nanos), DAY) <= 106_752
  {
    var q, r := Quotient(nanos, NANOS), Modulus(nanos, NANOS);
    if r < 0 {
      Division(nanos, NANOS, q - 1, r + NANOS);
    } else {
      Division(nanos, NANOS, q, r);
    }
  }

  lemma YearBound(days: int)
    requires -106_752 <= days <= 106_752
    ensures 0 <= CivilFromDays(days).0 <= 9999
  {
    hide YearOfEra, DayOfYear, MonthIndex, DayOfMonth, MonthOf;
    var era, rest := EraParts(days + 719468, 146097);
    YearOfEraPlain(rest);
  }

  /** The day written is the day: from 1970 on, and before it on midnight seconds. */
  predicate Settled(nanos: int64) { nanos >= 0 || nanos / NANOS % DAY == 0 }

  lemma SecondsSplit(s: int)
    ensures
      var rest := s % DAY;
      && rest / 3600 * 3600 + rest % 3600 / 60 * 60 + rest % 60 == rest
      && rest / 3600 <= 23 && rest % 3600 / 60 <= 59 && rest % 60 <= 59
    ensures Quotient(s, DAY) * DAY + s % DAY == if s >= 0 || s % DAY == 0 then s else s + DAY
  {
    var rest := s % DAY;
    var minutes := rest / 60;
    assert rest / 3600 == minutes / 60;
    assert rest % 3600 / 60 == minutes % 60;
    if s < 0 {
      var n := -s;
      if n % DAY != 0 {
        Division(s, DAY, -(n / DAY) - 1, DAY - n % DAY);
      } else {
        Division(s, DAY, -(n / DAY), 0);
      }
    }
  }

  lemma FieldsExact(nanos: int64)
    ensures
      var x := FieldsOf(nanos);
      && Exists(x) && x.fraction == nanos % NANOS
      && Seconds(x) == nanos / NANOS + if Settled(nanos) then 0 else DAY
  {
    hide CivilFromDays, DaysFromCivil, Civil, WholeSeconds, Fraction, SecondOfDay, Quotient;
    var s := nanos / NANOS;
    SplitExact(nanos);
    YearBound(Quotient(s, DAY));
    DayRoundTrip(Quotient(s, DAY));
    SecondsSplit(s);
    CivilDay(FieldsOf(nanos));
  }

  lemma CivilDay(x: Stamp)
    requires Civil(x.year, x.month, x.day)
    ensures 1 <= x.month <= 12 && 1 <= x.day <= 31
  {}

  // ----- spelling

  /** A piece of a concatenation is found at its place. */
  lemma Piece(a: Text, b: Text, c: Text)
    ensures (a + b + c)[|a|..|a| + |b|] == b
  {}

  lemma SpelledParts(x: Stamp)
    requires Admitted(x)
    ensures
      var text := Spelled(x);
      && |text| == 30 && Marks(text) && text[19] == '.'
      && text[0..4] == Pad(x.year, 4) && text[5..7] == Pad(x.month, 2) && text[8..10] == Pad(x.day, 2)
      && text[11..13] == Pad(x.hour, 2) && text[14..16] == Pad(x.minute, 2) && text[17..19] == Pad(x.second, 2)
      && text[20..29] == Pad(x.fraction, 9)
  {
    hide Pad;
    SmallPowers();
    PadReads(x.year, 4);
    PadReads(x.month, 2);
    PadReads(x.day, 2);
    PadReads(x.hour, 2);
    PadReads(x.minute, 2);
    PadReads(x.second, 2);
    PadReads(x.fraction, 9);
  }

  lemma SpelledReads(x: Stamp)
    requires Admitted(x)
    ensures Fields(Spelled(x)) == Some(x)
  {
    hide Pad, Spelled, Marks;
    SmallPowers();
    PadReads(x.year, 4);
    PadReads(x.month, 2);
    PadReads(x.day, 2);
    PadReads(x.hour, 2);
    PadReads(x.minute, 2);
    PadReads(x.second, 2);
    PadReads(x.fraction, 9);
    SpelledParts(x);
  }

  lemma {:induction false} ReadsSpelled(text: Text)
    requires Fields(text).Some? && |text| == 30
    ensures Spelled(Fields(text).value) == text
  {
    hide Pad, Admitted;
    PadUnique(text[0..4]);
    PadUnique(text[5..7]);
    PadUnique(text[8..10]);
    PadUnique(text[11..13]);
    PadUnique(text[14..16]);
    PadUnique(text[17..19]);
    PadUnique(text[20..29]);
    SmallPowers();
    Layout(text);
  }

  lemma Layout(text: Text)
    requires |text| == 30 && Marks(text) && text[19] == '.'
    ensures text == text[0..4] + ['-'] + text[5..7] + ['-'] + text[8..10] + ['T'] + text[11..13] + [':'] + text[14..16]
                    + [':'] + text[17..19] + ['.'] + text[20..29] + ['Z']
  {}

  // ----- the round trips

  /** What comes back from writing and reading an instant: the instant from
      1970 on and on any earlier midnight second, otherwise a day later. */
  lemma FormatParses(nanos: int64)
    ensures nanos >= 0 || nanos / NANOS % DAY == 0 ==> Parsed(FormatTime(nanos)) == Some(nanos)
    ensures nanos < 0 && nanos / NANOS % DAY != 0 ==> Parsed(FormatTime(nanos)) == Some(nanos + DAY * NANOS)
  {
    hide Fields, FieldsOf, Spelled, Seconds, InstantOf;
    var x := FieldsOf(nanos);
    FieldsExact(nanos);
    SpelledReads(x);
    GuardExact(x);
    SplitExact(nanos);
  }

  /** The instant that comes back from writing and reading one. */
  function ReadBack(nanos: int64): int64 {
    if Settled(nanos) then nanos else nanos + DAY * NANOS
  }

  /** From the last day before 1970 on the text is right although the instant moves. */
  predicate Lasting(nanos: int64) { nanos + DAY * NANOS >= 0 || nanos / NANOS % DAY == 0 }

  lemma StampBack(nanos: int64)
    ensures FormatTime(nanos) != [] && Parsed(FormatTime(nanos)) == Some(ReadBack(nanos))
    ensures ReadBack(nanos) == nanos <==> Settled(nanos)
  {
    hide FieldsOf, Spelled, Parsed;
    FormatParses(nanos);
    FieldsExact(nanos);
    SpelledParts(FieldsOf(nanos));
  }

  /** Writing what was read back gives the same text exactly for lasting instants. */
  lemma SpellingLasts(nanos: int64)
    ensures FormatTime(ReadBack(nanos)) == FormatTime(nanos) <==> Lasting(nanos)
  {
    hide FieldsOf, Spelled, Parsed, Seconds, Exists;
    var back := ReadBack(nanos);
    StampBack(nanos);
    StampBack(back);
    if !Settled(nanos) {
      assert back / NANOS == nanos / NANOS + DAY;
      assert back / NANOS % DAY == nanos / NANOS % DAY && back % NANOS == nanos % NANOS;
      if back >= 0 {
        FieldsExact(nanos);
        FieldsExact(back);
        SameMoment(FieldsOf(nanos), FieldsOf(back), back);
      }
    }
  }

  /** One second before the last day before 1970: the instant moves with every pass and so does its text. */
  lemma StampDrifts()
    ensures
      var t: int64 := -86_401_000_000_000;
      Parsed(FormatTime(t)) == Some(t + DAY * NANOS) && FormatTime(t + DAY * NANOS) != FormatTime(t)
  {
    hide FormatTime, Parsed;
    StampBack(-86_401_000_000_000);
    SpellingLasts(-86_401_000_000_000);
  }

  /** A stamp is the one written for the instant it reads as exactly when it spells nine
      digits of fraction and a moment that exists, and its instant is settled. */
  lemma ParseFormats(text: Text)
    requires Parsed(text).Some?
    ensures FormatTime(Parsed(text).value) == text
       <==> |text| == 30 && Exists(Fields(text).value) && Settled(Parsed(text).value)
  {
    hide Fields, FieldsOf, Spelled, InstantOf, Seconds, Admitted, Civil, Settled;
    var x, t := Fields(text).value, Parsed(text).value;
    AdmittedFields(text);
    GuardExact(x);
    FieldsExact(t);
    var y := FieldsOf(t);
    SpelledParts(y);
    SpelledReads(y);
    Division(t, NANOS, Seconds(x), x.fraction);
    if |text| == 30 && Exists(x) && Settled(t) {
      ReadsSpelled(text);
      Division(t, NANOS, t / NANOS, t % NANOS);
      SameMoment(x, y, t);
    }
  }

  lemma AdmittedFields(text: Text)
    requires Fields(text).Some?
    ensures Admitted(Fields(text).value)
  {}

  /** Two moments that exist and lie at the same instant are the same. */
  lemma SameMoment(x: Stamp, y: Stamp, t: int)
    requires Exists(x) && Exists(y)
    requires Seconds(x) * NANOS + x.fraction == t && Seconds(y) * NANOS + y.fraction == t
    ensures x == y
  {
    hide DaysFromCivil, CivilFromDays, Civil;
    Division(t, NANOS, Seconds(x), x.fraction);
    Division(t, NANOS, Seconds(y), y.fraction);
    var p, q := x.hour * 3600 + x.minute * 60 + x.second, y.hour * 3600 + y.minute * 60 + y.second;
    Division(Seconds(x), DAY, DaysFromCivil(x.year, x.month, x.day), p);
    Division(Seconds(y), DAY, DaysFromCivil(y.year, y.month, y.day), q);
    CivilRoundTrip(x.year, x.month, x.day);
    CivilRoundTrip(y.year, y.month, y.day);
  }

  /** The reader takes the 30th of February for the 2nd of March. */
  lemma FebruaryThirtieth()
    ensures Admitted(Stamp(2023, 2, 30, 0, 0, 0, 0)) && !Civil(2023, 2, 30)
    ensures DaysFromCivil(2023, 2, 30) == DaysFromCivil(2023, 3, 2)
  {
    hide DayOfEraFrom, DayOfYearFrom, AdjustedMonth, Quotient, U;
    DayOfYearPlain(2, 30);
    DayOfYearPlain(3, 2);
    var era, y := EraParts(2022, 400);
    var era2, y2 := EraParts(2023, 400);
    DayOfEraPlain(22, 366);
    DayOfEraPlain(23, 1);
  }

  // ----- the reader

  method ParseDigits(text: Text, offset: nat, count: nat) returns (r: Option<nat>)
    ensures r == if offset + count <= |text| && AllDigits(text[offset..offset + count])
                 then Some(ReadDigits(text[offset..offset + count])) else None
  {
    hide ReadDigits;
    assert ReadDigits([]) == 0 by { NoDigits(); }
    if offset + count > |text| {
      return None;
    }
    var value := 0;
    var index := 0;
    while index < count
      invariant index <= count
      invariant AllDigits(text[offset..offset + index]) && value == ReadDigits(text[offset..offset + index])
    {
      var c := text[offset + index];
      if !IsDigit(c) {
        assert text[offset..offset + count][index] == c;
        return None;
      }
      ghost var now := text[offset..offset + index + 1];
      DigitsGrow(text[offset..offset + index], c);
      assert now == text[offset..offset + index] + [c];
      value := value * 10 + DigitValue(c);
      index := index + 1;
    }
    return Some(value);
  }

  lemma NoDigits()
    ensures ReadDigits([]) == 0
  {}

  lemma DigitsGrow(digits: Text, c: byte)
    requires AllDigits(digits) && IsDigit(c)
    ensures AllDigits(digits + [c]) && ReadDigits(digits + [c]) == ReadDigits(digits) * 10 + DigitValue(c)
  {
    assert (digits + [c])[..|digits|] == digits;
  }

  lemma LastMark(text: Text)
    requires |text| >= 20 && Marks(text)
    ensures text[|text| - 1] == 'Z'
  {}

  method ParseFraction(text: Text) returns (r: Option<nat>)
    requires |text| >= 20 && Marks(text)
    ensures r == if Tail(text) then Some(FractionOf(text)) else None
  {
    hide ReadDigits, Marks, Digit;
    var position := 19;
    var fraction := 0;
    assert text[|text| - 1] == 'Z' by { LastMark(text); }
    if text[position] == '.' {
      position := position + 1;
      while position < |text| && IsDigit(text[position])
        invariant 20 <= position <= |text|
        invariant forall k :: 20 <= k < position ==> IsDigit(text[k])
      {
        position := position + 1;
      }
      var digits := position - 20;
      if digits == 0 || digits > 9 {
        return None;
      }
      var parsed := ParseDigits(text, 20, digits);
      if parsed.None? {
        return None;
      }
      var raw := parsed.value;
      var index := digits;
      while index < 9
        invariant digits <= index <= 9
        invariant raw == parsed.value * Power10(index - digits)
      {
        raw := raw * 10;
        index := index + 1;
      }
      fraction := raw;
    }
    if position != |text| - 1 {
      assert text[19] == '.' ==> text[20..|text| - 1][position - 20] == text[position];
      return None;
    }
    return Some(fraction);
  }

  method TryParseTime(text: Text) returns (r: Option<int64>)
    ensures r == Parsed(text)
  {
    hide InstantOf, FractionOf, AllDigits, ReadDigits, Marks, Tail;
    if |text| < 20 {
      return None;
    }
    if !Marks(text) {
      return None;
    }
    var year := ParseDigits(text, 0, 4);
    var month := ParseDigits(text, 5, 2);
    var day := ParseDigits(text, 8, 2);
    var hour := ParseDigits(text, 11, 2);
    var minute := ParseDigits(text, 14, 2);
    var second := ParseDigits(text, 17, 2);
    if year.None? || month.None? || day.None? || hour.None? || minute.None? || second.None? {
      return None;
    }
    if month.value < 1 || month.value > 12 || day.value < 1 || day.value > 31 || hour.value > 23 || minute.value > 59
       || second.value > 60 {
      return None;
    }
    var fraction := ParseFraction(text);
    if fraction.None? {
      return None;
    }
    ReadBound(text);
    return InstantOf(Stamp(year.value, month.value, day.value, hour.value, minute.value, second.value, fraction.value));
  }

  /** Four digits stay below ten thousand, a fraction below one second. */
  lemma ReadBound(text: Text)
    requires |text| >= 20 && Numerals(text) && Tail(text)
    ensures ReadDigits(text[0..4]) <= 9999 && FractionOf(text) < NANOS
  {
    SmallPowers();
    PadUnique(text[0..4]);
    if text[19] == '.' {
      var digits := text[20..|text| - 1];
      PadUnique(digits);
      Shifted(ReadDigits(digits), |digits|, 9 - |digits|);
    }
  }

  lemma {:induction false} Shifted(n: nat, a: nat, b: nat)
    requires n < Power10(a)
    ensures n * Power10(b) < Power10(a + b)
  {
    if b > 0 {
      Shifted(n, a, b - 1);
      assert n * Power10(b) == 10 * (n * Power10(b - 1));
    }
  }
}
