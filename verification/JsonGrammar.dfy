/** Documents by the grammar of RFC 8259, with any blanks, any spelling of strings and numbers and
    members in any order, and what the reader makes of each. */
module JsonGrammar {
  import opened Core
  import opened Values
  import opened Decimals
  import opened Json
  import opened JsonStrings
  import opened JsonReading
  import Utf8

  // ----- the grammar

  /** A number as it is written: sign, whole part, fraction, mark of the exponent, exponent. */
  datatype Numeral = Numeral(negative: bool, whole: Text, fraction: Text, mark: Text, exponent: Text)

  datatype Tree =
    | Word(v: Value)
    | Number(n: Numeral)
    | Chars(ps: seq<Spelled>)
    | Array(items: seq<Item>, gap: Text)
    | Object(entries: seq<Entry>, gap: Text)

  /** An element between its blanks. */
  datatype Item = Item(before: Text, tree: Tree, after: Text)

  datatype Entry = Entry(before: Text, name: seq<Spelled>, between: Text, pause: Text, tree: Tree, after: Text)

  predicate Blank(t: Text) {
    forall i :: 0 <= i < |t| ==> t[i] as int == 0x20 || t[i] as int == 0x09 || t[i] as int == 0x0A || t[i] as int == 0x0D
  }

  predicate ProperNumeral(n: Numeral) {
    && AllDigits(n.whole) && n.whole != [] && (n.whole[0] == '0' ==> |n.whole| == 1)
    && AllDigits(n.fraction) && AllDigits(n.exponent) && (n.exponent == [] <==> n.mark == [])
    && (n.mark == [] || n.mark == "e" || n.mark == "E" || n.mark == "e+" || n.mark == "E+" || n.mark == "e-"
        || n.mark == "E-")
  }

  predicate ProperTree(tree: Tree)
    decreases tree
  {
    match tree
    case Word(v) => v.Null? || v.Bool?
    case Number(n) => ProperNumeral(n)
    case Chars(ps) => Proper(ps)
    case Array(items, gap) =>
      && Blank(gap) && (items != [] ==> gap == [])
      && (forall i :: 0 <= i < |items| ==> Blank(items[i].before) && ProperTree(items[i].tree) && Blank(items[i].after))
    case Object(entries, gap) =>
      && Blank(gap) && (entries != [] ==> gap == [])
      && (forall i :: 0 <= i < |entries| ==> BlankEntry(entries[i]) && ProperTree(entries[i].tree))
  }

  predicate BlankEntry(e: Entry) {
    Blank(e.before) && Proper(e.name) && Blank(e.between) && Blank(e.pause) && Blank(e.after)
  }

  function WordText(v: Value): Text { if v.Null? then "null" else if v == Bool(true) then "true" else "false" }

  function Tail(n: Numeral): Text { (if n.fraction == [] then [] else "." + n.fraction) + n.mark + n.exponent }

  function NumeralText(n: Numeral): Text { (if n.negative then "-" else []) + n.whole + Tail(n) }

  function Render(tree: Tree): Text
    decreases tree
  {
    match tree
    case Word(v) => WordText(v)
    case Number(n) => NumeralText(n)
    case Chars(ps) => [QUOTE] + Written(ps) + [QUOTE]
    case Array(items, gap) => "[" + gap + RenderItems(items) + "]"
    case Object(entries, gap) => "{" + gap + RenderEntries(entries) + "}"
  }

  function RenderItems(items: seq<Item>): Text
    decreases items
  {
    if items == [] then []
    else
      items[0].before + Render(items[0].tree) + items[0].after
      + (if |items| == 1 then [] else "," + RenderItems(items[1..]))
  }

  function RenderEntries(entries: seq<Entry>): Text
    decreases entries
  {
    if entries == [] then []
    else
      entries[0].before + [QUOTE] + Written(entries[0].name) + [QUOTE] + entries[0].between + ":" + entries[0].pause
      + Render(entries[0].tree) + entries[0].after
      + (if |entries| == 1 then [] else "," + RenderEntries(entries[1..]))
  }

  // ----- the meaning

  /** A whole number within 64 bits is an integer, signed if it can be; all others are doubles. */
  function NumberMeans(c: Codec, n: Numeral, nodes: nat): Reading
    requires ProperNumeral(n)
  {
    var i := if n.negative then 0 - ReadDigits(n.whole) else ReadDigits(n.whole);
    if n.fraction == [] && n.mark == [] && INT64_MIN <= i <= INT64_MAX then Read(Int(i), nodes)
    else if n.fraction == [] && n.mark == [] && 0 <= i <= UINT64_MAX then Read(Uint(i), nodes)
    else
      var d := c.readDouble(NumeralText(n));
      if d.None? then Refused(EncodingNumberOutOfRange) else Read(Double(d.value), nodes)
  }

  function TextOf(ps: seq<Spelled>): Text { Utf8.EncodeAll(Meant(ps)) }

  /** Every check in the reader's own order. */
  function Means(c: Codec, tree: Tree, depth: nat, nodes: nat): Reading
    requires ProperTree(tree)
    decreases tree
  {
    if depth > c.maxDepth then Refused(LimitDepthExceeded)
    else if nodes + 1 > c.maxNodes then Refused(LimitObjectsExceeded)
    else
      match tree
      case Word(v) => Read(v, nodes + 1)
      case Number(n) => NumberMeans(c, n, nodes + 1)
      case Chars(ps) => if |TextOf(ps)| > c.maxLeaf then Refused(LimitBytesExceeded) else Read(String(TextOf(ps)), nodes + 1)
      case Array(items, _) => ItemsMean(c, items, depth, nodes + 1, [])
      case Object(entries, _) => EntriesMean(c, entries, depth, nodes + 1, [])
  }

  function ItemsMean(c: Codec, items: seq<Item>, depth: nat, nodes: nat, list: seq<Value>): Reading
    requires forall i :: 0 <= i < |items| ==> ProperTree(items[i].tree)
    decreases items
  {
    if items == [] then Read(List(list), nodes)
    else
      var e := Means(c, items[0].tree, depth + 1, nodes);
      if e.Refused? then e
      else if |list| + 1 > c.maxNodes then Refused(LimitObjectsExceeded)
      else ItemsMean(c, items[1..], depth, e.nodes, list + [e.value])
  }

  /** Members in any order; a name may come once. */
  function EntriesMean(c: Codec, entries: seq<Entry>, depth: nat, nodes: nat, ms: seq<Member>): Reading
    requires forall i :: 0 <= i < |entries| ==> ProperTree(entries[i].tree)
    decreases entries
  {
    if entries == [] then Finished(c, ms, nodes)
    else if |TextOf(entries[0].name)| > c.maxLeaf then Refused(LimitBytesExceeded)
    else
      var e := Means(c, entries[0].tree, depth + 1, nodes);
      if e.Refused? then e
      else if exists i :: 0 <= i < |ms| && ms[i].name == TextOf(entries[0].name) then Refused(EncodingDuplicateKey)
      else if |ms| + 1 > c.maxFields then Refused(LimitFieldsExceeded)
      else EntriesMean(c, entries[1..], depth, e.nodes, InsertMember(ms, Member(TextOf(entries[0].name), e.value)))
  }

  // ----- blanks and numbers

  lemma {:induction false} BlankSkipped(t: Text, rest: Text)
    requires Blank(t) && (rest == [] || !Space(rest[0]))
    ensures SkipSpace(t + rest) == rest
  {
    if t == [] {
      assert t + rest == rest;
    } else {
      assert (t + rest)[1..] == t[1..] + rest;
      assert Blank(t[1..]);
      BlankSkipped(t[1..], rest);
    }
  }

  /** What a number may not be followed by. */
  predicate Stops(tree: Tree, tail: Text) { tree.Number? ==> Ends(tail) }

  lemma FractionScanned(s: Text, p: nat, n: Numeral, tail: Text)
    requires p <= |s| && s[p..] == Tail(n) + tail && ProperNumeral(n) && Ends(tail)
    ensures
      var q := p + (if n.fraction == [] then 0 else 1 + |n.fraction|);
      FractionEnd(s, p) == Ok(q) && q <= |s| && s[q..] == n.mark + n.exponent + tail
  {
    hide DigitSpan, FractionEnd, Ends;
    var rest := n.mark + n.exponent + tail;
    MarkStarts(n, tail);
    if n.fraction == [] {
      assert s[p..] == rest;
      NoFraction(s, p, rest);
    } else {
      assert s[p..] == "." + n.fraction + rest;
      SomeFraction(s, p, n.fraction, rest);
    }
  }

  lemma NoFraction(s: Text, p: nat, rest: Text)
    requires p <= |s| && s[p..] == rest && (rest == [] || rest[0] != '.')
    ensures FractionEnd(s, p) == Ok(p)
  {
    hide DigitSpan;
    if p < |s| { assert s[p..][0] == s[p]; }
  }

  lemma SomeFraction(s: Text, p: nat, digits: Text, rest: Text)
    requires p <= |s| && s[p..] == "." + digits + rest && AllDigits(digits) && digits != []
    requires rest == [] || !IsDigit(rest[0])
    ensures FractionEnd(s, p) == Ok(p + 1 + |digits|) && p + 1 + |digits| <= |s| && s[p + 1 + |digits|..] == rest
  {
    hide DigitSpan, AllDigits;
    var t := s[p..];
    assert s[p] == t[0] == '.';
    assert s[p + 1..] == t[1..] == digits + rest;
    assert s[p + 1] == (digits + rest)[0] == digits[0];
    SpanOf(digits, rest);
    FirstDigit(digits);
    assert s[p + 1 + |digits|..] == (digits + rest)[|digits|..] == rest;
  }

  lemma FirstDigit(digits: Text)
    requires AllDigits(digits) && digits != []
    ensures IsDigit(digits[0])
  {}

  lemma MarkStarts(n: Numeral, tail: Text)
    requires ProperNumeral(n) && Ends(tail)
    ensures
      var rest := n.mark + n.exponent + tail;
      rest == [] || (!IsDigit(rest[0]) && rest[0] != '.')
  {
    if n.mark == [] { assert n.mark + n.exponent + tail == tail; }
  }

  lemma ExponentScanned(s: Text, q: nat, n: Numeral, tail: Text)
    requires q <= |s| && s[q..] == n.mark + n.exponent + tail && ProperNumeral(n) && Ends(tail)
    ensures ExponentEnd(s, q) == Ok(q + |n.mark| + |n.exponent|) && s[q + |n.mark| + |n.exponent|..] == tail
  {
    hide DigitSpan, ExponentEnd, AllDigits;
    if n.mark == [] {
      assert s[q..] == tail;
      NoExponent(s, q, tail);
    } else {
      SomeExponent(s, q, n.mark, n.exponent, tail);
    }
  }

  lemma NoExponent(s: Text, q: nat, tail: Text)
    requires q <= |s| && s[q..] == tail && Ends(tail)
    ensures ExponentEnd(s, q) == Ok(q)
  {
    hide DigitSpan;
    if q < |s| { assert s[q..][0] == s[q]; }
  }

  lemma SomeExponent(s: Text, q: nat, mark: Text, digits: Text, tail: Text)
    requires q <= |s| && s[q..] == mark + digits + tail && AllDigits(digits) && digits != [] && Ends(tail)
    requires mark == "e" || mark == "E" || mark == "e+" || mark == "E+" || mark == "e-" || mark == "E-"
    ensures ExponentEnd(s, q) == Ok(q + |mark| + |digits|) && q + |mark| + |digits| <= |s|
    ensures s[q + |mark| + |digits|..] == tail
  {
    hide DigitSpan, AllDigits;
    var m, t := |mark|, s[q..];
    FirstDigit(digits);
    assert s[q] == t[0] == mark[0];
    AfterMark(s, q, mark, digits + tail);
    assert s[q + m] == (digits + tail)[0] == digits[0];
    if m == 2 { assert s[q + 1] == t[1] == mark[1]; }
    SpanOf(digits, tail);
    AfterMark(s, q, mark + digits, tail);
  }

  lemma AfterMark(s: Text, q: nat, mark: Text, rest: Text)
    requires q <= |s| && s[q..] == mark + rest
    ensures q + |mark| <= |s| && s[q + |mark|..] == rest
  {
    assert s[q + |mark|..] == s[q..][|mark|..];
  }

  lemma NumeralScanned(n: Numeral, tail: Text)
    requires ProperNumeral(n) && Ends(tail)
    ensures ScanNumber(NumeralText(n) + tail) == TokenOk(NumeralText(n), n.fraction == [] && n.mark == [])
    ensures (NumeralText(n) + tail)[|NumeralText(n)|..] == tail
  {
    hide DigitSpan, WholeEnd, FractionEnd, ExponentEnd, Ends, ProperNumeral, Tail;
    var s, sign := NumeralText(n) + tail, if n.negative then 1 else 0;
    var p := sign + |n.whole|;
    var q := p + (if n.fraction == [] then 0 else 1 + |n.fraction|);
    var first := (if sign == 1 then "-" else []) + n.whole;
    assert s == first + (Tail(n) + tail);
    TailStarts(n, tail);
    WholeProper(n);
    WholeScanned(n.whole, sign, s, Tail(n) + tail);
    assert s[p..] == Tail(n) + tail;
    FractionScanned(s, p, n, tail);
    ExponentScanned(s, q, n, tail);
    TailLength(n);
    assert s[..|NumeralText(n)|] == NumeralText(n);
  }

  lemma WholeProper(n: Numeral)
    requires ProperNumeral(n)
    ensures AllDigits(n.whole) && n.whole != [] && (n.whole[0] == '0' ==> |n.whole| == 1)
    ensures n.exponent == [] <==> n.mark == []
  {}

  lemma TailLength(n: Numeral)
    ensures |Tail(n)| == (if n.fraction == [] then 0 else 1 + |n.fraction|) + |n.mark| + |n.exponent|
  {}

  lemma TailStarts(n: Numeral, tail: Text)
    requires ProperNumeral(n) && Ends(tail)
    ensures Tail(n) + tail == [] || !IsDigit((Tail(n) + tail)[0])
  {
    MarkStarts(n, tail);
    if n.fraction == [] { assert Tail(n) + tail == n.mark + n.exponent + tail; }
  }

  lemma IntegerMeans(n: Numeral)
    requires ProperNumeral(n) && n.fraction == [] && n.mark == []
    ensures
      var i := if n.negative then 0 - ReadDigits(n.whole) else ReadDigits(n.whole);
      IntegerOf(NumeralText(n)) == if INT64_MIN <= i <= INT64_MAX then Some(Int(i))
                                   else if 0 <= i <= UINT64_MAX then Some(Uint(i)) else None
  {
    hide ReadDigits;
    var t := NumeralText(n);
    var d := ReadDigits(n.whole);
    NumeralUnique(n.whole);
    TenPowers();
    DecimalLength(d, 19);
    DecimalLength(d, 20);
    if n.negative {
      assert t[1..] == n.whole;
    } else {
      assert t == n.whole;
    }
  }

  lemma NumberTreeRead(c: Codec, n: Numeral, tail: Text, nodes: nat)
    requires ProperNumeral(n) && Ends(tail)
    ensures ReadNumber(c, NumeralText(n) + tail, nodes) == AsVal(NumberMeans(c, n, nodes), tail)
  {
    hide ScanNumber, IntegerOf, ReadDigits, NumeralText;
    NumeralScanned(n, tail);
    if n.fraction == [] && n.mark == [] { IntegerMeans(n); }
  }

  lemma NumeralStarts(n: Numeral)
    requires ProperNumeral(n)
    ensures NumeralText(n) != [] && (NumeralText(n)[0] == '-' || IsDigit(NumeralText(n)[0]))
  {}

  // ----- every document is read

  predicate Opener(ch: byte) {
    !Space(ch) && ch != ']' && ch != '}' && ch != ',' && ch != ':'
  }

  lemma TreeStarts(tree: Tree)
    requires ProperTree(tree)
    ensures Render(tree) != [] && Opener(Render(tree)[0])
    ensures (tree.Array? ==> Render(tree)[0] == '[') && (tree.Object? ==> Render(tree)[0] == '{')
  {
    hide RenderItems, RenderEntries, Written, NumeralText;
    if tree.Number? { NumeralStarts(tree.n); }
  }

  lemma EndsAfter(after: Text, rest: Text)
    requires Blank(after) && rest != [] && (rest[0] == ',' || rest[0] == ']' || rest[0] == '}')
    ensures Ends(after + rest)
  {
    if after == [] { assert after + rest == rest; }
  }

  lemma WordRead(c: Codec, v: Value, depth: nat, nodes: nat, tail: Text)
    requires v.Null? || v.Bool?
    ensures ReadValue(c, WordText(v) + tail, depth, nodes) == AsVal(Means(c, Word(v), depth, nodes), tail)
  {
    var s := WordText(v) + tail;
    assert s[|WordText(v)|..] == tail && WordText(v) <= s;
  }

  lemma CharsRead(c: Codec, ps: seq<Spelled>, depth: nat, nodes: nat, tail: Text)
    requires Proper(ps)
    ensures ReadValue(c, Render(Chars(ps)) + tail, depth, nodes) == AsVal(Means(c, Chars(ps), depth, nodes), tail)
  {
    hide ReadString, Written, Proper;
    var s := Render(Chars(ps)) + tail;
    assert s[1..] == Written(ps) + [QUOTE] + tail;
    SpellingRead(c, ps, tail);
  }

  lemma DigitsRead(c: Codec, n: Numeral, depth: nat, nodes: nat, tail: Text)
    requires ProperNumeral(n) && Ends(tail)
    ensures ReadValue(c, NumeralText(n) + tail, depth, nodes) == AsVal(Means(c, Number(n), depth, nodes), tail)
  {
    hide ReadNumber, NumberMeans, NumeralText, Ends;
    NumeralStarts(n);
    assert (NumeralText(n) + tail)[0] == NumeralText(n)[0];
    NumberTreeRead(c, n, tail, nodes + 1);
  }

  lemma {:induction false} TreeRead(c: Codec, tree: Tree, depth: nat, nodes: nat, tail: Text)
    requires ProperTree(tree) && Stops(tree, tail)
    ensures ReadValue(c, Render(tree) + tail, depth, nodes) == AsVal(Means(c, tree, depth, nodes), tail)
    decreases tree, 3
  {
    hide ReadValue, RenderItems, RenderEntries, Means, Written, NumeralText;
    match tree {
      case Word(v) => WordRead(c, v, depth, nodes, tail);
      case Number(n) => DigitsRead(c, n, depth, nodes, tail);
      case Chars(ps) => CharsRead(c, ps, depth, nodes, tail);
      case Array(items, gap) =>
        if items == [] {
          EmptyArrayRead(c, gap, depth, nodes, tail);
        } else {
          ArrayOpens(c, items, depth, nodes, tail);
          ItemTreesRead(c, items, depth, nodes + 1, [], tail);
          ArrayMeans(c, items, depth, nodes);
        }
      case Object(entries, gap) =>
        if entries == [] {
          EmptyObjectRead(c, gap, depth, nodes, tail);
        } else {
          ObjectOpens(c, entries, depth, nodes, tail);
          EntriesRead(c, entries, depth, nodes + 1, [], tail);
          ObjectMeans(c, entries, depth, nodes);
        }
    }
  }

  lemma EmptyArrayRead(c: Codec, gap: Text, depth: nat, nodes: nat, tail: Text)
    requires Blank(gap)
    ensures ReadValue(c, Render(Array([], gap)) + tail, depth, nodes)
         == AsVal(Means(c, Array([], gap), depth, nodes), tail)
  {
    hide ReadItems, SkipSpace;
    var s := Render(Array([], gap)) + tail;
    assert RenderItems([]) == [] && s[1..] == gap + ("]" + tail);
    BlankSkipped(gap, "]" + tail);
    assert ("]" + tail)[1..] == tail;
    assert ItemsMean(c, [], depth, nodes + 1, []) == Read(List([]), nodes + 1);
  }

  lemma ArrayMeans(c: Codec, items: seq<Item>, depth: nat, nodes: nat)
    requires ProperTree(Array(items, []))
    ensures Means(c, Array(items, []), depth, nodes)
         == if depth > c.maxDepth then Refused(LimitDepthExceeded)
            else if nodes + 1 > c.maxNodes then Refused(LimitObjectsExceeded)
            else ItemsMean(c, items, depth, nodes + 1, [])
  {
    hide ItemsMean;
  }

  lemma ArrayOpens(c: Codec, items: seq<Item>, depth: nat, nodes: nat, tail: Text)
    requires ProperTree(Array(items, [])) && items != []
    ensures ReadValue(c, Render(Array(items, [])) + tail, depth, nodes)
         == if depth > c.maxDepth then ValBad(LimitDepthExceeded)
            else if nodes + 1 > c.maxNodes then ValBad(LimitObjectsExceeded)
            else ReadItems(c, RenderItems(items) + "]" + tail, depth, nodes + 1, [])
  {
    hide ReadItems, SkipSpace, ReadValue, ProperTree, RenderItems, Rest, Render;
    var body := RenderItems(items) + "]" + tail;
    ArrayText(items, tail);
    ItemStarts(items, "]" + tail);
    assert RenderItems(items) + ("]" + tail) == body;
    OpensItems(c, body, depth, nodes);
  }

  lemma ArrayText(items: seq<Item>, tail: Text)
    ensures Render(Array(items, [])) + tail == "[" + (RenderItems(items) + "]" + tail)
  {
    hide RenderItems;
  }

  /** The text of an element up to what follows it. */
  function Rest(items: seq<Item>, end: Text): Text
    requires items != []
  {
    if |items| == 1 then end else "," + (RenderItems(items[1..]) + end)
  }

  lemma ItemSplit(items: seq<Item>, end: Text)
    requires items != []
    ensures RenderItems(items) + end
         == items[0].before + (Render(items[0].tree) + (items[0].after + Rest(items, end)))
  {
    hide Render;
    if |items| > 1 {
      var x, y := items[0].before + Render(items[0].tree) + items[0].after, RenderItems(items[1..]);
      assert RenderItems(items) == x + ("," + y);
    }
  }

  lemma ItemStarts(items: seq<Item>, end: Text)
    requires items != [] && ProperTree(Array(items, []))
    ensures SkipSpace(RenderItems(items) + end) == Render(items[0].tree) + (items[0].after + Rest(items, end))
    ensures !CharAt(SkipSpace(RenderItems(items) + end), 0, ']')
  {
    hide Render, SkipSpace, RenderItems;
    ItemSplit(items, end);
    TreeStarts(items[0].tree);
    var rest := Render(items[0].tree) + (items[0].after + Rest(items, end));
    assert rest[0] == Render(items[0].tree)[0];
    BlankSkipped(items[0].before, rest);
  }

  lemma ItemsLeft(items: seq<Item>)
    requires items != [] && ProperTree(Array(items, []))
    ensures ProperTree(items[0].tree) && Blank(items[0].after) && ProperTree(Array(items[1..], []))
  {}

  lemma {:induction false} ItemTreesRead(c: Codec, items: seq<Item>, depth: nat, nodes: nat, list: seq<Value>, tail: Text)
    requires items != [] && ProperTree(Array(items, []))
    ensures ReadItems(c, RenderItems(items) + "]" + tail, depth, nodes, list)
         == AsVal(ItemsMean(c, items, depth, nodes, list), tail)
    decreases items, 2
  {
    hide Render, SkipSpace, RenderItems, ReadValue, Means, Ends, Rest, Blank;
    var end := "]" + tail;
    var after := items[0].after + Rest(items, end);
    assert RenderItems(items) + "]" + tail == RenderItems(items) + end;
    ItemStarts(items, end);
    ItemsLeft(items);
    RestStarts(items, tail);
    EndsAfter(items[0].after, Rest(items, end));
    TreeRead(c, items[0].tree, depth + 1, nodes, after);
    BlankSkipped(items[0].after, Rest(items, end));
    var e := Means(c, items[0].tree, depth + 1, nodes);
    if e.Read? && |list| + 1 <= c.maxNodes {
      if |items| == 1 {
        LastItem(c, items, depth, e.nodes, list + [e.value]);
      } else {
        ItemTreesRead(c, items[1..], depth, e.nodes, list + [e.value], tail);
        assert RenderItems(items[1..]) + end == RenderItems(items[1..]) + "]" + tail;
      }
    }
  }

  lemma LastItem(c: Codec, items: seq<Item>, depth: nat, nodes: nat, list: seq<Value>)
    requires |items| == 1
    ensures ItemsMean(c, items[1..], depth, nodes, list) == Read(List(list), nodes)
  {}

  lemma RestStarts(items: seq<Item>, tail: Text)
    requires items != []
    ensures
      var rest := Rest(items, "]" + tail);
      && rest != [] && (rest[0] == ',' || rest[0] == ']') && !Space(rest[0])
      && (if |items| == 1 then rest[0] == ']' && rest[1..] == tail
          else rest[0] == ',' && rest[1..] == RenderItems(items[1..]) + ("]" + tail))
  {
    hide RenderItems;
    assert ("]" + tail)[1..] == tail;
    if |items| > 1 {
      var y := RenderItems(items[1..]) + ("]" + tail);
      assert ("," + y)[1..] == y;
    }
  }

  // ----- objects

  lemma EmptyObjectRead(c: Codec, gap: Text, depth: nat, nodes: nat, tail: Text)
    requires Blank(gap)
    ensures ReadValue(c, Render(Object([], gap)) + tail, depth, nodes)
         == AsVal(Means(c, Object([], gap), depth, nodes), tail)
  {
    hide ReadMembers, SkipSpace;
    var s := Render(Object([], gap)) + tail;
    assert RenderEntries([]) == [] && s[1..] == gap + ("}" + tail);
    BlankSkipped(gap, "}" + tail);
    assert ("}" + tail)[1..] == tail;
    assert EntriesMean(c, [], depth, nodes + 1, []) == Finished(c, [], nodes + 1);
  }

  lemma ObjectMeans(c: Codec, entries: seq<Entry>, depth: nat, nodes: nat)
    requires ProperTree(Object(entries, []))
    ensures Means(c, Object(entries, []), depth, nodes)
         == if depth > c.maxDepth then Refused(LimitDepthExceeded)
            else if nodes + 1 > c.maxNodes then Refused(LimitObjectsExceeded)
            else EntriesMean(c, entries, depth, nodes + 1, [])
  {
    hide EntriesMean;
  }

  function EntryRest(entries: seq<Entry>, end: Text): Text
    requires entries != []
  {
    if |entries| == 1 then end else "," + (RenderEntries(entries[1..]) + end)
  }

  /** What follows the name of an entry. */
  function AfterName(entries: seq<Entry>, end: Text): Text
    requires entries != []
  {
    var e := entries[0];
    e.between + (":" + (e.pause + (Render(e.tree) + (e.after + EntryRest(entries, end)))))
  }

  lemma EntrySplit(entries: seq<Entry>, end: Text)
    requires entries != []
    ensures RenderEntries(entries) + end
         == entries[0].before + ([QUOTE] + (Written(entries[0].name) + [QUOTE] + AfterName(entries, end)))
  {
    hide Render, Written, RenderEntries, EntryRest;
    var e := entries[0];
    EntryText(entries);
    EntryRestIs(entries, end);
    Nested(e.before, [QUOTE], Written(e.name), e.between, ":", e.pause, Render(e.tree), e.after, Following(entries), end);
  }

  function Following(entries: seq<Entry>): Text
    requires entries != []
  {
    if |entries| == 1 then [] else "," + RenderEntries(entries[1..])
  }

  lemma EntryRestIs(entries: seq<Entry>, end: Text)
    requires entries != []
    ensures Following(entries) + end == EntryRest(entries, end)
  {
    hide RenderEntries;
    if |entries| > 1 {
      assert "," + RenderEntries(entries[1..]) + end == "," + (RenderEntries(entries[1..]) + end);
    }
  }

  lemma EntryText(entries: seq<Entry>)
    requires entries != []
    ensures
      var e := entries[0];
      RenderEntries(entries)
      == e.before + [QUOTE] + Written(e.name) + [QUOTE] + e.between + ":" + e.pause + Render(e.tree) + e.after
         + Following(entries)
  {
    hide Render, Written;
  }

  lemma Nested(a: Text, q: Text, n: Text, b: Text, colon: Text, p: Text, t: Text, d: Text, r: Text, end: Text)
    ensures a + q + n + q + b + colon + p + t + d + r + end
         == a + (q + (n + q + (b + (colon + (p + (t + (d + (r + end))))))))
  {
    var x := t + d + r + end;
    assert x == t + (d + (r + end));
    assert a + q + n + q + b + colon + p + t + d + r + end == a + q + n + q + b + colon + p + x;
    assert b + colon + p + x == b + (colon + (p + x));
  }

  lemma EntryStarts(entries: seq<Entry>, end: Text)
    requires entries != [] && Blank(entries[0].before)
    ensures
      var t := SkipSpace(RenderEntries(entries) + end);
      t != [] && t[0] == QUOTE && t[1..] == Written(entries[0].name) + [QUOTE] + AfterName(entries, end)
  {
    hide RenderEntries, SkipSpace, Written, AfterName;
    EntrySplit(entries, end);
    var t := [QUOTE] + (Written(entries[0].name) + [QUOTE] + AfterName(entries, end));
    BlankSkipped(entries[0].before, t);
    assert t[1..] == Written(entries[0].name) + [QUOTE] + AfterName(entries, end);
  }

  lemma ObjectOpens(c: Codec, entries: seq<Entry>, depth: nat, nodes: nat, tail: Text)
    requires ProperTree(Object(entries, [])) && entries != []
    ensures ReadValue(c, Render(Object(entries, [])) + tail, depth, nodes)
         == if depth > c.maxDepth then ValBad(LimitDepthExceeded)
            else if nodes + 1 > c.maxNodes then ValBad(LimitObjectsExceeded)
            else ReadMembers(c, RenderEntries(entries) + "}" + tail, depth, nodes + 1, [])
  {
    hide ReadMembers, SkipSpace, ReadValue, RenderEntries, AfterName;
    var body := RenderEntries(entries) + "}" + tail;
    ObjectText(entries, tail);
    assert BlankEntry(entries[0]);
    EntryStarts(entries, "}" + tail);
    assert RenderEntries(entries) + ("}" + tail) == body;
    OpensMembers(c, body, depth, nodes);
  }

  lemma ObjectText(entries: seq<Entry>, tail: Text)
    ensures Render(Object(entries, [])) + tail == "{" + (RenderEntries(entries) + "}" + tail)
  {
    hide RenderEntries;
  }

  lemma OpensMembers(c: Codec, body: Text, depth: nat, nodes: nat)
    requires !CharAt(SkipSpace(body), 0, '}')
    ensures ReadValue(c, "{" + body, depth, nodes)
         == if depth > c.maxDepth then ValBad(LimitDepthExceeded)
            else if nodes + 1 > c.maxNodes then ValBad(LimitObjectsExceeded)
            else ReadMembers(c, body, depth, nodes + 1, [])
  {
    hide ReadMembers, SkipSpace;
    assert ("{" + body)[1..] == body;
  }

  lemma EntriesLeft(entries: seq<Entry>)
    requires entries != [] && ProperTree(Object(entries, []))
    ensures ProperTree(entries[0].tree) && BlankEntry(entries[0]) && ProperTree(Object(entries[1..], []))
  {}

  lemma EntryRestStarts(entries: seq<Entry>, tail: Text)
    requires entries != []
    ensures
      var rest := EntryRest(entries, "}" + tail);
      && rest != [] && (rest[0] == ',' || rest[0] == '}') && !Space(rest[0])
      && (if |entries| == 1 then rest[0] == '}' && rest[1..] == tail
          else rest[0] == ',' && rest[1..] == RenderEntries(entries[1..]) + ("}" + tail))
  {
    hide RenderEntries;
    assert ("}" + tail)[1..] == tail;
    if |entries| > 1 {
      var y := RenderEntries(entries[1..]) + ("}" + tail);
      assert ("," + y)[1..] == y;
    }
  }

  /** After a name: its colon, and the value after that. */
  lemma ColonRead(entries: seq<Entry>, end: Text)
    requires entries != [] && ProperTree(entries[0].tree) && BlankEntry(entries[0])
    ensures
      var u := SkipSpace(AfterName(entries, end));
      && u != [] && u[0] == ':'
      && SkipSpace(u[1..]) == Render(entries[0].tree) + (entries[0].after + EntryRest(entries, end))
  {
    hide Render, SkipSpace, EntryRest, Proper, ProperTree;
    var e := entries[0];
    var value := Render(e.tree) + (e.after + EntryRest(entries, end));
    var u := ":" + (e.pause + value);
    BlankSkipped(e.between, u);
    assert u[1..] == e.pause + value;
    TreeStarts(e.tree);
    assert value[0] == Render(e.tree)[0];
    BlankSkipped(e.pause, value);
  }

  lemma {:induction false} EntriesRead(c: Codec, entries: seq<Entry>, depth: nat, nodes: nat, ms: seq<Member>, tail: Text)
    requires entries != [] && ProperTree(Object(entries, []))
    ensures ReadMembers(c, RenderEntries(entries) + "}" + tail, depth, nodes, ms)
         == AsVal(EntriesMean(c, entries, depth, nodes, ms), tail)
    decreases entries, 2
  {
    hide Render, SkipSpace, RenderEntries, ReadValue, Means, Ends, EntryRest, Blank, AfterName, Written, ReadString, Finish,
         InsertMember, Proper;
    var end := "}" + tail;
    var e := entries[0];
    assert RenderEntries(entries) + "}" + tail == RenderEntries(entries) + end;
    EntriesLeft(entries);
    EntryStarts(entries, end);
    SpellingRead(c, e.name, AfterName(entries, end));
    ColonRead(entries, end);
    EntryRestStarts(entries, tail);
    EndsAfter(e.after, EntryRest(entries, end));
    TreeRead(c, e.tree, depth + 1, nodes, e.after + EntryRest(entries, end));
    BlankSkipped(e.after, EntryRest(entries, end));
    var r := Means(c, e.tree, depth + 1, nodes);
    if |TextOf(e.name)| <= c.maxLeaf && r.Read? && !HasName(ms, TextOf(e.name)) && |ms| + 1 <= c.maxFields {
      var more := InsertMember(ms, Member(TextOf(e.name), r.value));
      if |entries| == 1 {
        LastEntry(c, entries, depth, r.nodes, more);
      } else {
        EntriesRead(c, entries[1..], depth, r.nodes, more, tail);
        assert RenderEntries(entries[1..]) + end == RenderEntries(entries[1..]) + "}" + tail;
      }
    }
  }

  lemma LastEntry(c: Codec, entries: seq<Entry>, depth: nat, nodes: nat, ms: seq<Member>)
    requires |entries| == 1
    ensures EntriesMean(c, entries[1..], depth, nodes, ms) == Finished(c, ms, nodes)
  {}
}
