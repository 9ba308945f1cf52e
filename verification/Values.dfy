/** Observed and intended values, and how two of them relate. */
module Values {
  import opened Core

  type int64 = x: int | INT64_MIN <= x <= INT64_MAX
  type uint32 = x: int | 0 <= x < 0x1_0000_0000
  type uint64 = x: int | 0 <= x <= UINT64_MAX

  const FRACTION: int := 0x10_0000_0000_0000

  /** The bit pattern of a finite double; NaN and the infinities are never stored. */
  type float64 = bits: int | 0 <= bits <= UINT64_MAX && bits / FRACTION % 2048 != 2047

  datatype Value =
    | Null
    | Bool(truth: bool)
    | Int(signed: int64)
    | Uint(unsigned: uint64)
    | Double(bits: float64)
    | String(text: Text)
    | Bytes(octets: Text)
    | List(items: seq<Value>)
    | Map(members: seq<Member>)

  datatype Member = Member(name: Text, value: Value)

  datatype NumericEquivalence = Exact | Numeric

  datatype Relation = Equal | Different | Incomparable

  const HARD_RECURSION_LIMIT: nat := 64

  // ----- numbers

  predicate IsNumber(v: Value) { v.Int? || v.Uint? || v.Double? }

  function PowerOfTwo(n: int): (p: real)
    ensures p > 0.0
    decreases if n < 0 then -n else n
  {
    if n == 0 then 1.0 else if n > 0 then 2.0 * PowerOfTwo(n - 1) else PowerOfTwo(n + 1) / 2.0
  }

  /** The real number a finite double stands for (IEEE 754 binary64). */
  function Real(bits: float64): real {
    var exponent := bits / FRACTION % 2048;
    var fraction := bits % FRACTION;
    var magnitude := if exponent == 0 then fraction as real * PowerOfTwo(-1074)
                     else (FRACTION + fraction) as real * PowerOfTwo(exponent - 1075);
    if bits > INT64_MAX then -magnitude else magnitude
  }

  /** The mathematical value of a number of any kind. */
  function Number(v: Value): real
    requires IsNumber(v)
  {
    match v
    case Int(i) => i as real
    case Uint(n) => n as real
    case Double(b) => Real(b)
  }

  predicate Integral(x: real) { x.Floor as real == x }

  /** A double against a signed integer: only an integral double inside the signed range is converted. */
  predicate DoubleIsInt(x: real, i: int64) {
    Integral(x) && -9223372036854775808.0 <= x < 9223372036854775808.0 && x.Floor == i
  }

  predicate DoubleIsUint(x: real, n: uint64) {
    Integral(x) && 0.0 <= x < 18446744073709551616.0 && x.Floor == n
  }

  predicate RelateNumerics(l: Value, r: Value)
    requires IsNumber(l) && IsNumber(r)
  {
    match (l, r)
    case (Int(a), Int(b)) => a == b
    case (Uint(a), Uint(b)) => a == b
    case (Int(a), Uint(b)) => a >= 0 && a == b
    case (Uint(a), Int(b)) => b >= 0 && b == a
    case (Double(a), Double(b)) => Real(a) == Real(b)
    case (Int(a), Double(b)) => DoubleIsInt(Real(b), a)
    case (Double(a), Int(b)) => DoubleIsInt(Real(a), b)
    case (Uint(a), Double(b)) => DoubleIsUint(Real(b), a)
    case (Double(a), Uint(b)) => DoubleIsUint(Real(a), b)
  }

  /** No conversion loses or invents equality: two numbers of any kinds agree exactly
      when they are the same real number. */
  lemma NumericsExact(l: Value, r: Value)
    requires IsNumber(l) && IsNumber(r)
    ensures RelateNumerics(l, r) <==> Number(l) == Number(r)
  {
    hide Real;
    if l.Int? && r.Double? { ConversionExact(Real(r.bits), l.signed); }
    if l.Double? && r.Int? { ConversionExact(Real(l.bits), r.signed); }
    if l.Uint? && r.Double? { ConversionExact(Real(r.bits), l.unsigned); }
    if l.Double? && r.Uint? { ConversionExact(Real(l.bits), r.unsigned); }
  }

  lemma ConversionExact(x: real, i: int)
    ensures x == i as real <==> Integral(x) && x.Floor == i
  {}

  // ----- whole values

  function Worst(a: Relation, b: Relation): Relation {
    if a.Different? || b.Different? then Different
    else if a.Incomparable? || b.Incomparable? then Incomparable
    else Equal
  }

  function Verdict(same: bool): Relation { if same then Equal else Different }

  predicate SameKind(l: Value, r: Value) {
    match l
    case Null => r.Null?
    case Bool(_) => r.Bool?
    case Int(_) => r.Int?
    case Uint(_) => r.Uint?
    case Double(_) => r.Double?
    case String(_) => r.String?
    case Bytes(_) => r.Bytes?
    case List(_) => r.List?
    case Map(_) => r.Map?
  }

  function Relate(l: Value, r: Value, equivalence: NumericEquivalence, depth: nat): Relation
    decreases l
  {
    if depth > HARD_RECURSION_LIMIT then Incomparable
    else if IsNumber(l) && IsNumber(r) then
      if equivalence.Exact? && !SameKind(l, r) then Different else Verdict(RelateNumerics(l, r))
    else if !SameKind(l, r) then Incomparable
    else
      match l
      case Null => Equal
      case Bool(b) => Verdict(b == r.truth)
      case String(s) => Verdict(s == r.text)
      case Bytes(s) => Verdict(s == r.octets)
      case List(items) =>
        if |items| != |r.items| then Different else RelateItems(items, r.items, equivalence, depth + 1)
      case Map(members) =>
        if |members| != |r.members| then Different
        else RelateMembers(members, r.members, equivalence, depth + 1)
  }

  function RelateItems(l: seq<Value>, r: seq<Value>, equivalence: NumericEquivalence, depth: nat): Relation
    requires |l| == |r|
    decreases l
  {
    if l == [] then Equal
    else Worst(RelateItems(l[..|l| - 1], r[..|l| - 1], equivalence, depth),
               Relate(l[|l| - 1], r[|l| - 1], equivalence, depth))
  }

  function RelateMembers(l: seq<Member>, r: seq<Member>, equivalence: NumericEquivalence, depth: nat): Relation
    requires |l| == |r|
    decreases l
  {
    if l == [] then Equal
    else
      var a, b := l[|l| - 1], r[|l| - 1];
      Worst(RelateMembers(l[..|l| - 1], r[..|l| - 1], equivalence, depth),
            if a.name != b.name then Different else Relate(a.value, b.value, equivalence, depth))
  }

  /** The recursive comparison, leaving its loops at the first difference. */
  method RelateValues(l: Value, r: Value, equivalence: NumericEquivalence, depth: nat) returns (relation: Relation)
    ensures relation == Relate(l, r, equivalence, depth)
    decreases l
  {
    hide Real, RelateItems, RelateMembers;
    if depth > HARD_RECURSION_LIMIT { return Incomparable; }
    if IsNumber(l) && IsNumber(r) {
      if equivalence.Exact? && !SameKind(l, r) { return Different; }
      return Verdict(RelateNumerics(l, r));
    }
    if !SameKind(l, r) { return Incomparable; }
    match l {
      case Null => return Equal;
      case Bool(b) => return Verdict(b == r.truth);
      case String(s) => return Verdict(s == r.text);
      case Bytes(s) => return Verdict(s == r.octets);
      case List(items) =>
        if |items| != |r.items| { return Different; }
        relation := RelateLists(items, r.items, equivalence, depth + 1);
      case Map(members) =>
        if |members| != |r.members| { return Different; }
        relation := RelateMaps(members, r.members, equivalence, depth + 1);
      case _ => assert false;
    }
  }

  method RelateLists(l: seq<Value>, r: seq<Value>, equivalence: NumericEquivalence, depth: nat)
    returns (relation: Relation)
    requires |l| == |r|
    ensures relation == RelateItems(l, r, equivalence, depth)
    decreases l
  {
    hide Relate;
    var incomparable := false;
    for index := 0 to |l|
      invariant RelateItems(l[..index], r[..index], equivalence, depth)
             == if incomparable then Incomparable else Equal
    {
      var each := RelateValues(l[index], r[index], equivalence, depth);
      assert l[..index + 1][..index] == l[..index] && r[..index + 1][..index] == r[..index];
      if each.Different? {
        DifferenceStays(l, r, equivalence, depth, index + 1);
        return Different;
      }
      incomparable := incomparable || each.Incomparable?;
    }
    assert l[..|l|] == l && r[..|l|] == r;
    relation := if incomparable then Incomparable else Equal;
  }

  lemma {:induction false} DifferenceStays(l: seq<Value>, r: seq<Value>, equivalence: NumericEquivalence, depth: nat,
                                           n: nat)
    requires |l| == |r| && n <= |l|
    requires RelateItems(l[..n], r[..n], equivalence, depth).Different?
    ensures RelateItems(l, r, equivalence, depth).Different?
    decreases |l|
  {
    hide Relate;
    var k := |l|;
    if n == k {
      assert l[..n] == l && r[..n] == r;
    } else {
      assert l[..k - 1][..n] == l[..n] && r[..k - 1][..n] == r[..n];
      DifferenceStays(l[..k - 1], r[..k - 1], equivalence, depth, n);
    }
  }

  method RelateMaps(l: seq<Member>, r: seq<Member>, equivalence: NumericEquivalence, depth: nat)
    returns (relation: Relation)
    requires |l| == |r|
    ensures relation == RelateMembers(l, r, equivalence, depth)
    decreases l
  {
    hide Relate;
    var incomparable := false;
    for index := 0 to |l|
      invariant RelateMembers(l[..index], r[..index], equivalence, depth)
             == if incomparable then Incomparable else Equal
    {
      assert l[..index + 1][..index] == l[..index] && r[..index + 1][..index] == r[..index];
      if l[index].name != r[index].name {
        MemberDifferenceStays(l, r, equivalence, depth, index + 1);
        return Different;
      }
      var each := RelateValues(l[index].value, r[index].value, equivalence, depth);
      if each.Different? {
        MemberDifferenceStays(l, r, equivalence, depth, index + 1);
        return Different;
      }
      incomparable := incomparable || each.Incomparable?;
    }
    assert l[..|l|] == l && r[..|l|] == r;
    relation := if incomparable then Incomparable else Equal;
  }

  lemma {:induction false} MemberDifferenceStays(l: seq<Member>, r: seq<Member>, equivalence: NumericEquivalence,
                                                 depth: nat, n: nat)
    requires |l| == |r| && n <= |l|
    requires RelateMembers(l[..n], r[..n], equivalence, depth).Different?
    ensures RelateMembers(l, r, equivalence, depth).Different?
    decreases |l|
  {
    hide Relate;
    var k := |l|;
    if n == k {
      assert l[..n] == l && r[..n] == r;
    } else {
      assert l[..k - 1][..n] == l[..n] && r[..k - 1][..n] == r[..n];
      MemberDifferenceStays(l[..k - 1], r[..k - 1], equivalence, depth, n);
    }
  }

  // ----- what equality means

  /** A value up to numeric equivalence: numbers are real numbers, tagged by kind only
      when kinds must match. */
  datatype Meaning =
    | Nothing
    | Truth(truth: bool)
    | Quantity(kind: nat, number: real)
    | Characters(text: Text)
    | Raw(octets: Text)
    | Sequence(items: seq<Meaning>)
    | Record(names: seq<Text>, values: seq<Meaning>)

  function MeaningOf(v: Value, equivalence: NumericEquivalence): Meaning
    decreases v
  {
    match v
    case Null => Nothing
    case Bool(b) => Truth(b)
    case Int(i) => Quantity(if equivalence.Exact? then 1 else 0, i as real)
    case Uint(n) => Quantity(if equivalence.Exact? then 2 else 0, n as real)
    case Double(b) => Quantity(if equivalence.Exact? then 3 else 0, Real(b))
    case String(s) => Characters(s)
    case Bytes(s) => Raw(s)
    case List(items) => Sequence(MeaningsOf(items, equivalence))
    case Map(members) => Record(NamesOf(members), MemberMeanings(members, equivalence))
  }

  function MeaningsOf(vs: seq<Value>, equivalence: NumericEquivalence): (m: seq<Meaning>)
    ensures |m| == |vs|
    decreases vs
  {
    if vs == [] then []
    else MeaningsOf(vs[..|vs| - 1], equivalence) + [MeaningOf(vs[|vs| - 1], equivalence)]
  }

  function NamesOf(ms: seq<Member>): (names: seq<Text>)
    ensures |names| == |ms|
  {
    if ms == [] then [] else NamesOf(ms[..|ms| - 1]) + [ms[|ms| - 1].name]
  }

  function MemberMeanings(ms: seq<Member>, equivalence: NumericEquivalence): (m: seq<Meaning>)
    ensures |m| == |ms|
    decreases ms
  {
    if ms == [] then []
    else MemberMeanings(ms[..|ms| - 1], equivalence) + [MeaningOf(ms[|ms| - 1].value, equivalence)]
  }

  /** No node lies deeper than the recursion guard. */
  predicate Shallow(v: Value, depth: nat)
    decreases v
  {
    && depth <= HARD_RECURSION_LIMIT
    && (v.List? ==> forall i :: 0 <= i < |v.items| ==> Shallow(v.items[i], depth + 1))
    && (v.Map? ==> forall i :: 0 <= i < |v.members| ==> Shallow(v.members[i].value, depth + 1))
  }

  /** The comparison says Equal exactly for values that mean the same and are not nested
      beyond the guard. */
  lemma {:induction false} EqualMeans(l: Value, r: Value, equivalence: NumericEquivalence, depth: nat)
    ensures Relate(l, r, equivalence, depth).Equal?
       <==> Shallow(l, depth) && MeaningOf(l, equivalence) == MeaningOf(r, equivalence)
    decreases l
  {
    hide Real, RelateNumerics, Number;
    if IsNumber(l) && IsNumber(r) {
      NumberMeans(l, r, equivalence, depth);
    } else if l.List? && r.List? && |l.items| == |r.items| {
      ItemsEqualMeans(l.items, r.items, equivalence, depth + 1);
    } else if l.Map? && r.Map? && |l.members| == |r.members| {
      MembersEqualMeans(l.members, r.members, equivalence, depth + 1);
    }
  }

  lemma NumberMeans(l: Value, r: Value, equivalence: NumericEquivalence, depth: nat)
    requires IsNumber(l) && IsNumber(r)
    ensures Relate(l, r, equivalence, depth).Equal?
       <==> Shallow(l, depth) && MeaningOf(l, equivalence) == MeaningOf(r, equivalence)
  {
    hide Real, RelateNumerics;
    NumericsExact(l, r);
  }

  lemma {:induction false} ItemsEqualMeans(l: seq<Value>, r: seq<Value>, equivalence: NumericEquivalence, depth: nat)
    requires |l| == |r|
    ensures RelateItems(l, r, equivalence, depth).Equal?
       <==> (forall i :: 0 <= i < |l| ==> Shallow(l[i], depth)) && MeaningsOf(l, equivalence) == MeaningsOf(r, equivalence)
    decreases l
  {
    hide Relate, MeaningOf, Shallow;
    if l != [] {
      var k := |l| - 1;
      ItemsEqualMeans(l[..k], r[..k], equivalence, depth);
      EqualMeans(l[k], r[k], equivalence, depth);
      assert forall i :: 0 <= i < k ==> l[..k][i] == l[i];
      SnocEqual(MeaningsOf(l[..k], equivalence), MeaningsOf(r[..k], equivalence),
                MeaningOf(l[k], equivalence), MeaningOf(r[k], equivalence));
    }
  }

  lemma {:induction false} MembersEqualMeans(l: seq<Member>, r: seq<Member>, equivalence: NumericEquivalence,
                                             depth: nat)
    requires |l| == |r|
    ensures RelateMembers(l, r, equivalence, depth).Equal?
       <==> && (forall i :: 0 <= i < |l| ==> Shallow(l[i].value, depth)) && NamesOf(l) == NamesOf(r)
            && MemberMeanings(l, equivalence) == MemberMeanings(r, equivalence)
    decreases l
  {
    hide Relate, MeaningOf, Shallow, RelateMembers, MemberMeanings, NamesOf;
    if l == [] {
      NoMembersEqual(l, r, equivalence, depth);
    } else {
      var k := |l| - 1;
      MembersEqualMeans(l[..k], r[..k], equivalence, depth);
      EqualMeans(l[k].value, r[k].value, equivalence, depth);
      assert forall i :: 0 <= i < k ==> l[..k][i] == l[i];
      LastMember(l, r, equivalence, depth);
      SnocEqual(MemberMeanings(l[..k], equivalence), MemberMeanings(r[..k], equivalence),
                MeaningOf(l[k].value, equivalence), MeaningOf(r[k].value, equivalence));
      SnocEqual(NamesOf(l[..k]), NamesOf(r[..k]), l[k].name, r[k].name);
    }
  }

  lemma NoMembersEqual(l: seq<Member>, r: seq<Member>, equivalence: NumericEquivalence, depth: nat)
    requires l == [] && r == []
    ensures RelateMembers(l, r, equivalence, depth).Equal? && NamesOf(l) == NamesOf(r)
    ensures MemberMeanings(l, equivalence) == MemberMeanings(r, equivalence)
  {}

  lemma LastMember(l: seq<Member>, r: seq<Member>, equivalence: NumericEquivalence, depth: nat)
    requires |l| == |r| > 0
    ensures
      var k := |l| - 1;
      && (RelateMembers(l, r, equivalence, depth).Equal?
          <==> && RelateMembers(l[..k], r[..k], equivalence, depth).Equal? && l[k].name == r[k].name
               && Relate(l[k].value, r[k].value, equivalence, depth).Equal?)
      && NamesOf(l) == NamesOf(l[..k]) + [l[k].name] && NamesOf(r) == NamesOf(r[..k]) + [r[k].name]
      && MemberMeanings(l, equivalence) == MemberMeanings(l[..k], equivalence) + [MeaningOf(l[k].value, equivalence)]
      && MemberMeanings(r, equivalence) == MemberMeanings(r[..k], equivalence) + [MeaningOf(r[k].value, equivalence)]
  {
    hide Relate, MeaningOf;
  }

  lemma SnocEqual<T>(a: seq<T>, b: seq<T>, x: T, y: T)
    requires |a| == |b|
    ensures a + [x] == b + [y] <==> a == b && x == y
  {
    if a + [x] == b + [y] {
      assert a == (a + [x])[..|a|] == (b + [y])[..|b|] == b;
      assert x == (a + [x])[|a|] == (b + [y])[|b|] == y;
    }
  }
}
