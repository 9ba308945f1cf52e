/** Which texts are stamps, and what they mean, said without the reader or the writer. */
module StampTexts {
  import opened Core
  import opened Values
  import opened Decimals
  import opened Numbers
  import opened Time
  import opened Stamps

  /** What a stamp is written from: its fields and up to nine digits of fraction. */
  datatype Writing = Writing(
    year: nat, month: nat, day: nat, hour: nat, minute: nat, second: nat, digits: seq<nat>)

  predicate Admissible(w: Writing) {
    && w.year <= 9999 && 1 <= w.month <= 12 && 1 <= w.day <= 31 && w.hour <= 23 && w.minute <= 59 && w.second <= 60
    && |w.digits| <= 9 && forall i :: 0 <= i < |w.digits| ==> w.digits[i] <= 9
  }

  function Numeral(n: nat, width: nat): Text
    decreases width
  {
    if width == 0 then "" else Numeral(n / 10, width - 1) + [(48 + n % 10) as char]
  }

  function DigitsText(digits: seq<nat>): (t: Text)
    requires forall i :: 0 <= i < |digits| ==> digits[i] <= 9
    ensures |t| == |digits|
  {
    seq(|digits|, i requires 0 <= i < |digits| => (48 + digits[i]) as char)
  }

  function ShownDate(w: Writing): Text {
    Numeral(w.year, 4) + ['-'] + Numeral(w.month, 2) + ['-'] + Numeral(w.day, 2)
  }

  function ShownTime(w: Writing): Text {
    Numeral(w.hour, 2) + [':'] + Numeral(w.minute, 2) + [':'] + Numeral(w.second, 2)
  }

  function ShownTail(digits: seq<nat>): Text
    requires forall i :: 0 <= i < |digits| ==> digits[i] <= 9
  {
    (if digits == [] then [] else ['.'] + DigitsText(digits)) + ['Z']
  }

  function Shown(w: Writing): Text
    requires Admissible(w)
  {
    ShownDate(w) + ['T'] + ShownTime(w) + ShownTail(w.digits)
  }

  function Base10(digits: seq<nat>): nat {
    if digits == [] then 0 else Base10(digits[..|digits| - 1]) * 10 + digits[|digits| - 1]
  }

  function Zeros(n: nat): seq<nat> { seq(n, _ => 0) }

  /** A fraction is read as if zeros filled it up to nine digits. */
  function Nanos(digits: seq<nat>): nat
    requires |digits| <= 9
  {
    Base10(digits + Zeros(9 - |digits|))
  }

  /** Nanoseconds since the first of January 1970, days past a month's end counted on. */
  function Moment(w: Writing): int
    requires |w.digits| <= 9
  {
    (((DaysFromCivil(w.year, w.month, w.day) * 24 + w.hour) * 60 + w.minute) * 60 + w.second) * 1_000_000_000
    + Nanos(w.digits)
  }

  // ----- numerals

  lemma {:induction false} NumeralIsPad(n: nat, width: nat)
    ensures Numeral(n, width) == Pad(n, width)
    decreases width
  {
    if width > 0 { NumeralIsPad(n / 10, width - 1); }
  }

  lemma {:induction false} DigitsRead(digits: seq<nat>)
    requires forall i :: 0 <= i < |digits| ==> digits[i] <= 9
    ensures AllDigits(DigitsText(digits)) && ReadDigits(DigitsText(digits)) == Base10(digits)
  {
    if digits != [] {
      var k := |digits| - 1;
      DigitsRead(digits[..k]);
      assert DigitsText(digits)[..k] == DigitsText(digits[..k]);
      DigitBack(digits[k]);
    }
  }

  function DigitsOf(t: Text): (digits: seq<nat>)
    requires AllDigits(t)
    ensures |digits| == |t| && (forall i :: 0 <= i < |t| ==> digits[i] <= 9) && DigitsText(digits) == t
  {
    seq(|t|, i requires 0 <= i < |t| => t[i] as int - 48)
  }

  lemma {:induction false} FilledUp(digits: seq<nat>, n: nat)
    ensures Base10(digits + Zeros(n)) == Base10(digits) * Power10(n)
  {
    if n == 0 {
      assert digits + Zeros(0) == digits;
    } else {
      FilledUp(digits, n - 1);
      var all := digits + Zeros(n);
      assert all[..|all| - 1] == digits + Zeros(n - 1);
    }
  }

  lemma {:induction false} Base10Bound(digits: seq<nat>)
    requires forall i :: 0 <= i < |digits| ==> digits[i] <= 9
    ensures Base10(digits) < Power10(|digits|)
  {
    if digits != [] { Base10Bound(digits[..|digits| - 1]); }
  }

  lemma NanosFit(digits: seq<nat>)
    requires |digits| <= 9 && forall i :: 0 <= i < |digits| ==> digits[i] <= 9
    ensures Nanos(digits) == Base10(digits) * Power10(9 - |digits|) && Nanos(digits) < NANOS
  {
    hide Base10, Power10;
    FilledUp(digits, 9 - |digits|);
    SmallPowers();
    Base10Bound(digits + Zeros(9 - |digits|));
  }

  // ----- every written stamp is read

  function StampOf(w: Writing): Stamp
    requires |w.digits| <= 9
  {
    Stamp(w.year, w.month, w.day, w.hour, w.minute, w.second, Nanos(w.digits))
  }

  lemma ShownHead(w: Writing)
    requires Admissible(w)
    ensures
      Shown(w) == Head(StampOf(w)) + ShownTail(w.digits) && |Head(StampOf(w))| == 19
  {
    hide Numeral, Pad, Nanos, ShownTail;
    NumeralIsPad(w.year, 4);
    NumeralIsPad(w.month, 2);
    NumeralIsPad(w.day, 2);
    NumeralIsPad(w.hour, 2);
    NumeralIsPad(w.minute, 2);
    NumeralIsPad(w.second, 2);
    PadLengths(StampOf(w));
  }

  lemma PadLengths(x: Stamp)
    requires x.year <= 9999 && x.month <= 99 && x.day <= 99 && x.hour <= 99 && x.minute <= 99 && x.second <= 99
    ensures |Pad(x.year, 4)| == 4 && |Pad(x.month, 2)| == 2 && |Pad(x.day, 2)| == 2
    ensures |Pad(x.hour, 2)| == 2 && |Pad(x.minute, 2)| == 2 && |Pad(x.second, 2)| == 2
    ensures AllDigits(Pad(x.year, 4)) && AllDigits(Pad(x.month, 2)) && AllDigits(Pad(x.day, 2))
    ensures AllDigits(Pad(x.hour, 2)) && AllDigits(Pad(x.minute, 2)) && AllDigits(Pad(x.second, 2))
    ensures ReadDigits(Pad(x.year, 4)) == x.year && ReadDigits(Pad(x.month, 2)) == x.month
    ensures ReadDigits(Pad(x.day, 2)) == x.day && ReadDigits(Pad(x.hour, 2)) == x.hour
    ensures ReadDigits(Pad(x.minute, 2)) == x.minute && ReadDigits(Pad(x.second, 2)) == x.second
  {
    hide Pad, ReadDigits;
    SmallPowers();
    PadReads(x.year, 4);
    PadReads(x.month, 2);
    PadReads(x.day, 2);
    PadReads(x.hour, 2);
    PadReads(x.minute, 2);
    PadReads(x.second, 2);
  }

  lemma HeadPieces(x: Stamp, tail: Text)
    requires x.year <= 9999 && x.month <= 99 && x.day <= 99 && x.hour <= 99 && x.minute <= 99 && x.second <= 99
    requires tail != [] && tail[|tail| - 1] == 'Z'
    ensures
      var text := Head(x) + tail;
      && |text| == 19 + |tail| && Marks(text) && text[19..] == tail
      && text[0..4] == Pad(x.year, 4) && text[5..7] == Pad(x.month, 2) && text[8..10] == Pad(x.day, 2)
      && text[11..13] == Pad(x.hour, 2) && text[14..16] == Pad(x.minute, 2) && text[17..19] == Pad(x.second, 2)
  {
    hide Pad, ReadDigits, AllDigits;
    PadLengths(x);
  }

  lemma TailReads(text: Text, digits: seq<nat>)
    requires |digits| <= 9 && forall i :: 0 <= i < |digits| ==> digits[i] <= 9
    requires |text| >= 20 && text[19..] == ShownTail(digits)
    ensures Tail(text) && FractionOf(text) == Nanos(digits)
  {
    hide ReadDigits, DigitsText, Base10, Power10;
    NanosFit(digits);
    DigitsRead(digits);
    if digits == [] {
      assert |text| == 20 && text[19] == text[19..][0] == 'Z';
      NoDigitsNoNanos();
    } else {
      assert text[19] == text[19..][0];
      assert |text| == 21 + |digits|;
      assert text[20..|text| - 1] == text[19..][1..|text[19..]| - 1] == DigitsText(digits);
    }
  }

  lemma NoDigitsNoNanos()
    ensures Base10([]) == 0 && Nanos([]) == 0
  {
    FilledUp([], 9);
  }

  lemma TailEnds(digits: seq<nat>)
    requires forall i :: 0 <= i < |digits| ==> digits[i] <= 9
    ensures ShownTail(digits) != [] && ShownTail(digits)[|ShownTail(digits)| - 1] == 'Z'
  {}

  lemma ShownFields(w: Writing)
    requires Admissible(w)
    ensures Fields(Shown(w)) == Some(StampOf(w)) && Admitted(StampOf(w))
  {
    hide Pad, Head, Nanos, ReadDigits, AllDigits, ShownTail, Marks, Tail, FractionOf, Shown;
    var x := StampOf(w);
    ShownHead(w);
    TailEnds(w.digits);
    HeadPieces(x, ShownTail(w.digits));
    PadLengths(x);
    TailReads(Shown(w), w.digits);
    NanosFit(w.digits);
  }

  /** Whatever is written from admissible fields is read as its moment, unless the moment,
      or the moment less twice its fraction, is out of range. */
  lemma WrittenReads(w: Writing)
    requires Admissible(w)
    ensures Parsed(Shown(w))
         == if Moment(w) <= INT64_MAX && INT64_MIN <= Moment(w) - 2 * Nanos(w.digits) then Some(Moment(w)) else None
  {
    hide Shown, Fields, InstantOf, DaysFromCivil, Nanos;
    ShownFields(w);
    GuardExact(StampOf(w));
  }

  /** And nothing else is read. */
  lemma ReadIsWritten(text: Text) returns (w: Writing)
    requires Parsed(text).Some?
    ensures Admissible(w) && Shown(w) == text && Parsed(text) == Some(Moment(w))
  {
    hide Pad, ReadDigits, InstantOf, Power10, Moment, Shown, ShownTail, Head, DigitsText;
    var x := Fields(text).value;
    var digits := if text[19] == '.' then DigitsOf(text[20..|text| - 1]) else [];
    w := Writing(x.year, x.month, x.day, x.hour, x.minute, x.second, digits);
    TailBack(text, digits);
    HeadBack(text, x);
    ShownHead(w);
    SameHead(x, StampOf(w));
    assert text == text[..19] + text[19..];
    WrittenReads(w);
  }

  lemma TailBack(text: Text, digits: seq<nat>)
    requires |text| >= 20 && Marks(text) && Tail(text)
    requires forall i :: 0 <= i < |digits| ==> digits[i] <= 9
    requires if text[19] == '.' then DigitsText(digits) == text[20..|text| - 1] else digits == []
    ensures text[19..] == ShownTail(digits)
  {
    hide ReadDigits;
    if text[19] == '.' {
      assert digits != [];
      assert text[19..] == [text[19]] + text[20..|text| - 1] + [text[|text| - 1]];
    }
  }

  lemma HeadBack(text: Text, x: Stamp)
    requires |text| >= 20 && Marks(text) && Numerals(text) && x == HeadOf(text, x.fraction)
    ensures text[..19] == Head(x)
  {
    hide Pad, ReadDigits;
    PadUnique(text[0..4]);
    PadUnique(text[5..7]);
    PadUnique(text[8..10]);
    PadUnique(text[11..13]);
    PadUnique(text[14..16]);
    PadUnique(text[17..19]);
    assert text[..19] == text[0..4] + ['-'] + text[5..7] + ['-'] + text[8..10] + ['T'] + text[11..13] + [':']
                         + text[14..16] + [':'] + text[17..19];
  }

  lemma SameHead(x: Stamp, y: Stamp)
    requires x == y.(fraction := x.fraction)
    ensures Head(x) == Head(y)
  {}

  // ----- what the writer writes

  /** From 1970 on an instant is written as the civil moment that it is, with nine digits. */
  lemma FormatShows(nanos: int64) returns (w: Writing)
    requires nanos >= 0
    ensures Admissible(w) && |w.digits| == 9 && w.second <= 59 && Civil(w.year, w.month, w.day)
    ensures FormatTime(nanos) == Shown(w) && Moment(w) == nanos
  {
    hide FormatTime, Shown, Moment, Parsed;
    FormatParses(nanos);
    w := ReadIsWritten(FormatTime(nanos));
    NineDigits(nanos, w);
    ShownFields(w);
    FieldsExact(nanos);
    SpelledReads(FieldsOf(nanos));
  }

  lemma NineDigits(nanos: int64, w: Writing)
    requires Admissible(w) && FormatTime(nanos) == Shown(w)
    ensures |w.digits| == 9 && FormatTime(nanos) == Spelled(FieldsOf(nanos))
  {
    hide Pad, FieldsOf, Spelled, Head, DigitsText;
    FieldsExact(nanos);
    SpelledParts(FieldsOf(nanos));
    ShownHead(w);
  }

  /** The instant zero is written as the first moment of 1970. */
  lemma EpochText(zero: int64)
    requires zero == 0
    ensures FormatTime(zero) == "1970-01-01T00:00:00.000000000Z"
  {
    hide *;
    EpochFields(zero);
    EpochSpelled(FieldsOf(zero));
    FormatIsSpelled(zero);
  }

  /** And the short stamp of that moment is read as zero. */
  lemma EpochRead(text: Text)
    requires text == "1970-01-01T00:00:00Z"
    ensures Parsed(text) == Some(0)
  {
    hide Parsed, Shown, Moment, Nanos, Admissible;
    var w := Writing(1970, 1, 1, 0, 0, 0, []);
    EpochShort(w, text);
    WrittenReads(w);
    EpochMoment(w);
  }

  lemma EpochMoment(w: Writing)
    requires w == Writing(1970, 1, 1, 0, 0, 0, [])
    ensures Moment(w) == 0 && Nanos(w.digits) == 0
  {
    hide DaysFromCivil, Nanos;
    NoDigitsNoNanos();
    Epoch();
  }

  lemma FormatIsSpelled(nanos: int64)
    ensures FormatTime(nanos) == Spelled(FieldsOf(nanos))
  {
    hide FieldsOf;
  }

  lemma EpochFields(zero: int64)
    requires zero == 0
    ensures FieldsOf(zero) == Stamp(1970, 1, 1, 0, 0, 0, 0)
  {
    hide FieldsOf, DaysFromCivil;
    FieldsExact(zero);
    Epoch();
    SameMoment(FieldsOf(zero), Stamp(1970, 1, 1, 0, 0, 0, 0), zero);
  }

  lemma {:induction false} NumeralStep(n: nat, width: nat)
    ensures Numeral(n, width + 1) == Numeral(n / 10, width) + [Digit(n % 10)]
  {}

  lemma TwoDigits(n: nat)
    requires n < 100
    ensures Numeral(n, 2) == Pad(n, 2) == [Digit(n / 10), Digit(n % 10)]
  {
    hide Digit;
    NumeralIsPad(n, 2);
    NumeralStep(n, 1);
    NumeralStep(n / 10, 0);
    assert Numeral(n / 10 / 10, 0) == [];
    assert n / 10 % 10 == n / 10;
  }

  lemma FourDigits(n: nat)
    requires n < 10_000
    ensures Numeral(n, 4) == Pad(n, 4) == [Digit(n / 1000), Digit(n / 100 % 10), Digit(n / 10 % 10), Digit(n % 10)]
  {
    hide Digit, Numeral, Pad;
    NumeralIsPad(n, 4);
    DivideTwice(n, 10, 10);
    DivideTwice(n, 100, 10);
    TwoDigits(n / 100);
    NumeralStep(n, 3);
    NumeralStep(n / 10, 2);
  }

  lemma EpochShort(w: Writing, text: Text)
    requires w == Writing(1970, 1, 1, 0, 0, 0, []) && text == "1970-01-01T00:00:00Z"
    ensures Admissible(w) && Shown(w) == text
  {
    hide Numeral, Pad;
    FourDigits(w.year);
    TwoDigits(w.month);
    TwoDigits(w.hour);
  }

  lemma {:induction false} NineZeros(n: nat, width: nat)
    requires n == 0
    ensures |Pad(n, width)| == width && forall i :: 0 <= i < width ==> Pad(n, width)[i] == '0'
    decreases width
  {
    if width > 0 { NineZeros(n / 10, width - 1); }
  }

  lemma EpochSpelled(x: Stamp)
    requires x == Stamp(1970, 1, 1, 0, 0, 0, 0)
    ensures Spelled(x) == "1970-01-01T00:00:00.000000000Z"
  {
    hide Pad, Numeral;
    assert Pad(x.year, 4) == "1970" by { FourDigits(x.year); }
    assert Pad(x.month, 2) == "01" by { TwoDigits(x.month); }
    assert Pad(x.hour, 2) == "00" by { TwoDigits(x.hour); }
    assert Pad(x.fraction, 9) == "000000000" by { NineZeros(x.fraction, 9); }
  }
}
