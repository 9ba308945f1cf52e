/** The octets fed to the hash for values and for records built of them, and
    why they form prefix-free codes. */
module HashStreams {
  import opened Core
  import opened Values
  import opened Domain
  import Numbers
  import Sha256

  const DEPTH_MARK: Text := "!depth"

  // ----- values

  /** An octet string behind its length. */
  function Prefixed(text: Text): Text { Sha256.U64(|text|) + text }

  function KindOctet(v: Value): byte {
    match v
    case Null => 0 as char
    case Bool(_) => 1 as char
    case Int(_) => 2 as char
    case Uint(_) => 3 as char
    case Double(_) => 4 as char
    case String(_) => 5 as char
    case Bytes(_) => 6 as char
    case List(_) => 7 as char
    case Map(_) => 8 as char
  }

  function Unsigned(i: int64): (n: nat)
    ensures n <= UINT64_MAX
  {
    if i < 0 then i + UINT64_MAX + 1 else i
  }

  function Flag(b: bool): byte { if b then 1 as char else 0 as char }

  function ValueStream(v: Value, depth: nat): Text
    decreases v, 1
  {
    if depth > HARD_RECURSION_LIMIT then Prefixed(DEPTH_MARK) else [KindOctet(v)] + Body(v, depth)
  }

  function Body(v: Value, depth: nat): Text
    decreases v, 0
  {
    match v
    case Null => []
    case Bool(b) => [Flag(b)]
    case Int(i) => Sha256.U64(Unsigned(i))
    case Uint(n) => Sha256.U64(n)
    case Double(bits) => Sha256.U64(bits)
    case String(s) => Prefixed(s)
    case Bytes(s) => Prefixed(s)
    case List(items) => Sha256.U64(|items|) + ItemsStream(items, depth + 1)
    case Map(members) => Sha256.U64(|members|) + MembersStream(members, depth + 1)
  }

  function ItemsStream(vs: seq<Value>, depth: nat): Text
    decreases vs, 0
  {
    if vs == [] then [] else ItemsStream(vs[..|vs| - 1], depth) + ValueStream(vs[|vs| - 1], depth)
  }

  function MembersStream(ms: seq<Member>, depth: nat): Text
    decreases ms, 0
  {
    if ms == [] then []
    else MembersStream(ms[..|ms| - 1], depth) + MemberStream(ms[|ms| - 1], depth)
  }

  function MemberStream(m: Member, depth: nat): Text
    decreases m, 2
  {
    Prefixed(m.name) + ValueStream(m.value, depth)
  }

  /** Every length is one a 64-bit machine can hold. */
  predicate Held(v: Value)
    decreases v
  {
    match v
    case String(s) => |s| <= UINT64_MAX
    case Bytes(s) => |s| <= UINT64_MAX
    case List(items) => |items| <= UINT64_MAX && forall i :: 0 <= i < |items| ==> Held(items[i])
    case Map(members) =>
      |members| <= UINT64_MAX
      && forall i :: 0 <= i < |members| ==> |members[i].name| <= UINT64_MAX && Held(members[i].value)
    case _ => true
  }

  /** Small enough to be hashed entirely: the writer stops below the guard. */
  predicate Whole(v: Value, depth: nat) { Shallow(v, depth) && Held(v) }

  // ----- splitting streams

  lemma Peel(x: Text, y: Text, a: Text, b: Text)
    requires |x| == |y| && x + a == y + b
    ensures x == y && a == b
  {
    assert x == (x + a)[..|x|] == (y + b)[..|y|] == y;
    assert a == (x + a)[|x|..] == (y + b)[|y|..] == b;
  }

  lemma Associate(a: Text, b: Text, c: Text)
    ensures (a + b) + c == a + (b + c)
  {}

  lemma PeelNumber(m: nat, n: nat, a: Text, b: Text)
    requires m <= UINT64_MAX && n <= UINT64_MAX && Sha256.U64(m) + a == Sha256.U64(n) + b
    ensures m == n && a == b
  {
    Numbers.Powers();
    Peel(Sha256.U64(m), Sha256.U64(n), a, b);
    Sha256.BigEndianInjective(m, n, 8);
  }

  lemma PeelText(s: Text, t: Text, a: Text, b: Text)
    requires |s| <= UINT64_MAX && |t| <= UINT64_MAX && Prefixed(s) + a == Prefixed(t) + b
    ensures s == t && a == b
  {
    Associate(Sha256.U64(|s|), s, a);
    Associate(Sha256.U64(|t|), t, b);
    PeelNumber(|s|, |t|, s + a, t + b);
    Peel(s, t, a, b);
  }

  /** The stream of a value within the guard is told from that of any value, whatever
      follows: streams form a prefix-free code. */
  lemma {:induction false} ValuesPrefixFree(v: Value, w: Value, depth: nat, a: Text, b: Text)
    requires Whole(v, depth) && Held(w) && ValueStream(v, depth) + a == ValueStream(w, depth) + b
    ensures v == w && a == b
    decreases v, 1
  {
    hide Body, Prefixed;
    Associate([KindOctet(v)], Body(v, depth), a);
    Associate([KindOctet(w)], Body(w, depth), b);
    Peel([KindOctet(v)], [KindOctet(w)], Body(v, depth) + a, Body(w, depth) + b);
    SameOctet(v, w);
    BodiesPrefixFree(v, w, depth, a, b);
  }

  lemma SameOctet(v: Value, w: Value)
    requires KindOctet(v) == KindOctet(w)
    ensures SameKind(v, w)
  {}

  lemma {:induction false} BodiesPrefixFree(v: Value, w: Value, depth: nat, a: Text, b: Text)
    requires Whole(v, depth) && Held(w) && SameKind(v, w) && Body(v, depth) + a == Body(w, depth) + b
    ensures v == w && a == b
    decreases v, 0
  {
    hide Prefixed, ItemsStream, MembersStream;
    match v {
      case Null => assert a == [] + a == [] + b == b;
      case Bool(x) => Peel([Flag(x)], [Flag(w.truth)], a, b);
      case Int(i) => PeelNumber(Unsigned(i), Unsigned(w.signed), a, b);
      case Uint(n) => PeelNumber(n, w.unsigned, a, b);
      case Double(bits) => PeelNumber(bits, w.bits, a, b);
      case String(s) => PeelText(s, w.text, a, b);
      case Bytes(s) => PeelText(s, w.octets, a, b);
      case List(items) =>
        CountPeeled(|items|, |w.items|, ItemsStream(items, depth + 1), ItemsStream(w.items, depth + 1), a, b);
        ItemsPrefixFree(items, w.items, depth + 1, a, b);
      case Map(members) =>
        CountPeeled(|members|, |w.members|, MembersStream(members, depth + 1), MembersStream(w.members, depth + 1), a, b);
        MembersPrefixFree(members, w.members, depth + 1, a, b);
    }
  }

  lemma CountPeeled(m: nat, n: nat, c: Text, d: Text, a: Text, b: Text)
    requires m <= UINT64_MAX && n <= UINT64_MAX && Sha256.U64(m) + c + a == Sha256.U64(n) + d + b
    ensures m == n && c + a == d + b
  {
    Associate(Sha256.U64(m), c, a);
    Associate(Sha256.U64(n), d, b);
    PeelNumber(m, n, c + a, d + b);
  }

  lemma LastItem(l: seq<Value>, depth: nat, a: Text)
    requires l != []
    ensures
      var k := |l| - 1;
      ItemsStream(l, depth) + a == ItemsStream(l[..k], depth) + (ValueStream(l[k], depth) + a)
  {
    Associate(ItemsStream(l[..|l| - 1], depth), ValueStream(l[|l| - 1], depth), a);
  }

  lemma NoItems(l: seq<Value>, depth: nat, a: Text)
    requires l == []
    ensures ItemsStream(l, depth) + a == a
  {}

  lemma LastMember(l: seq<Member>, depth: nat, a: Text)
    requires l != []
    ensures
      var k := |l| - 1;
      MembersStream(l, depth) + a == MembersStream(l[..k], depth) + (MemberStream(l[k], depth) + a)
  {
    hide MemberStream;
    Associate(MembersStream(l[..|l| - 1], depth), MemberStream(l[|l| - 1], depth), a);
  }

  lemma NoMembers(l: seq<Member>, depth: nat, a: Text)
    requires l == []
    ensures MembersStream(l, depth) + a == a
  {}

  lemma {:induction false} ItemsPrefixFree(l: seq<Value>, r: seq<Value>, depth: nat, a: Text, b: Text)
    requires |l| == |r| && (forall i :: 0 <= i < |l| ==> Whole(l[i], depth) && Held(r[i]))
    requires ItemsStream(l, depth) + a == ItemsStream(r, depth) + b
    ensures l == r && a == b
    decreases l, 0
  {
    hide ValueStream, Whole, Held, ItemsStream;
    if l == [] {
      NoItems(l, depth, a);
      NoItems(r, depth, b);
    } else {
      var k := |l| - 1;
      var x, y := ValueStream(l[k], depth), ValueStream(r[k], depth);
      LastItem(l, depth, a);
      LastItem(r, depth, b);
      ItemsPrefixFree(l[..k], r[..k], depth, x + a, y + b);
      ValuesPrefixFree(l[k], r[k], depth, a, b);
      assert l == l[..k] + [l[k]] && r == r[..k] + [r[k]];
    }
  }

  lemma {:induction false} MembersPrefixFree(l: seq<Member>, r: seq<Member>, depth: nat, a: Text, b: Text)
    requires |l| == |r|
    requires forall i :: 0 <= i < |l| ==> Whole(l[i].value, depth) && Held(r[i].value)
    requires forall i :: 0 <= i < |l| ==> |l[i].name| <= UINT64_MAX && |r[i].name| <= UINT64_MAX
    requires MembersStream(l, depth) + a == MembersStream(r, depth) + b
    ensures l == r && a == b
    decreases l, 0
  {
    hide MemberStream, Whole, Held, MembersStream;
    if l == [] {
      NoMembers(l, depth, a);
      NoMembers(r, depth, b);
    } else {
      var k := |l| - 1;
      var x, y := MemberStream(l[k], depth), MemberStream(r[k], depth);
      LastMember(l, depth, a);
      LastMember(r, depth, b);
      MembersPrefixFree(l[..k], r[..k], depth, x + a, y + b);
      MemberPrefixFree(l[k], r[k], depth, a, b);
      assert l == l[..k] + [l[k]] && r == r[..k] + [r[k]];
    }
  }

  lemma {:induction false} MemberPrefixFree(m: Member, n: Member, depth: nat, a: Text, b: Text)
    requires Whole(m.value, depth) && Held(n.value) && |m.name| <= UINT64_MAX && |n.name| <= UINT64_MAX
    requires MemberStream(m, depth) + a == MemberStream(n, depth) + b
    ensures m == n && a == b
    decreases m, 2
  {
    hide ValueStream, Whole, Held, Prefixed;
    var x, y := Prefixed(m.name), Prefixed(n.name);
    var p, q := ValueStream(m.value, depth), ValueStream(n.value, depth);
    Associate(x, p, a);
    Associate(y, q, b);
    PeelText(m.name, n.name, p + a, q + b);
    ValuesPrefixFree(m.value, n.value, depth, a, b);
  }

  // ----- exactly which values are told apart

  lemma {:induction false} ItemReplaced(items: seq<Value>, i: nat, t: Value, depth: nat)
    requires i < |items| && ValueStream(t, depth) == ValueStream(items[i], depth)
    ensures ItemsStream(items[i := t], depth) == ItemsStream(items, depth)
    decreases |items|
  {
    hide ValueStream;
    var k := |items| - 1;
    if i < k {
      assert items[i := t][..k] == items[..k][i := t];
      ItemReplaced(items[..k], i, t, depth);
    } else {
      assert items[i := t][..k] == items[..k];
    }
  }

  lemma {:induction false} MemberReplaced(ms: seq<Member>, i: nat, t: Value, depth: nat)
    requires i < |ms| && ValueStream(t, depth) == ValueStream(ms[i].value, depth)
    ensures MembersStream(ms[i := Member(ms[i].name, t)], depth) == MembersStream(ms, depth)
    decreases |ms|
  {
    hide ValueStream, Prefixed;
    var k, m := |ms| - 1, Member(ms[i].name, t);
    if i < k {
      assert ms[i := m][..k] == ms[..k][i := m];
      MemberReplaced(ms[..k], i, t, depth);
    } else {
      assert ms[i := m][..k] == ms[..k];
    }
  }

  /** A value with a node past the guard shares its stream with another one. */
  lemma {:induction false} Twin(v: Value, depth: nat) returns (w: Value)
    requires Held(v) && !Shallow(v, depth)
    ensures Held(w) && w != v && ValueStream(w, depth) == ValueStream(v, depth)
    decreases v
  {
    hide ValueStream, Held;
    if depth > HARD_RECURSION_LIMIT {
      w := if v.Null? then Bool(true) else Null;
      CutOff(v, w, depth);
    } else if v.List? {
      var i :| 0 <= i < |v.items| && !Shallow(v.items[i], depth + 1);
      HeldItems(v);
      var t := Twin(v.items[i], depth + 1);
      w := List(v.items[i := t]);
      ListTwin(v.items, i, t, depth);
    } else {
      var i :| 0 <= i < |v.members| && !Shallow(v.members[i].value, depth + 1);
      HeldItems(v);
      var t := Twin(v.members[i].value, depth + 1);
      w := Map(v.members[i := Member(v.members[i].name, t)]);
      MapTwin(v.members, i, t, depth);
    }
  }

  lemma CutOff(v: Value, w: Value, depth: nat)
    requires depth > HARD_RECURSION_LIMIT
    ensures ValueStream(v, depth) == ValueStream(w, depth) && Held(Null) && Held(Bool(true))
  {
    hide Prefixed;
  }

  lemma HeldItems(v: Value)
    requires Held(v)
    ensures v.List? ==> forall i :: 0 <= i < |v.items| ==> Held(v.items[i])
    ensures v.Map? ==> forall i :: 0 <= i < |v.members| ==> Held(v.members[i].value)
  {}

  lemma ListTwin(items: seq<Value>, i: nat, t: Value, depth: nat)
    requires depth <= HARD_RECURSION_LIMIT && i < |items| && Held(List(items)) && Held(t) && t != items[i]
    requires ValueStream(t, depth + 1) == ValueStream(items[i], depth + 1)
    ensures
      var w := List(items[i := t]);
      Held(w) && w != List(items) && ValueStream(w, depth) == ValueStream(List(items), depth)
  {
    hide ItemsStream, Sha256.U64, Numbers.Power256;
    var us := items[i := t];
    ItemReplaced(items, i, t, depth + 1);
    assert us[i] != items[i];
    assert forall j :: 0 <= j < |us| ==> us[j] == if j == i then t else items[j];
    hide ValueStream;
    assert ValueStream(List(us), depth) == ValueStream(List(items), depth) by { ListStreams(items, us, depth); }
  }

  lemma ListStreams(vs: seq<Value>, us: seq<Value>, depth: nat)
    requires |vs| == |us| && ItemsStream(vs, depth + 1) == ItemsStream(us, depth + 1)
    ensures ValueStream(List(vs), depth) == ValueStream(List(us), depth)
  {}

  lemma MapTwin(ms: seq<Member>, i: nat, t: Value, depth: nat)
    requires depth <= HARD_RECURSION_LIMIT && i < |ms| && Held(Map(ms)) && Held(t) && t != ms[i].value
    requires ValueStream(t, depth + 1) == ValueStream(ms[i].value, depth + 1)
    ensures
      var w := Map(ms[i := Member(ms[i].name, t)]);
      Held(w) && w != Map(ms) && ValueStream(w, depth) == ValueStream(Map(ms), depth)
  {
    hide MembersStream, MemberStream, Prefixed, Sha256.U64, Numbers.Power256;
    var ns := ms[i := Member(ms[i].name, t)];
    MemberReplaced(ms, i, t, depth + 1);
    assert ns[i] != ms[i];
    assert forall j :: 0 <= j < |ns| ==> ns[j] == if j == i then Member(ms[i].name, t) else ms[j];
    hide ValueStream;
    assert ValueStream(Map(ns), depth) == ValueStream(Map(ms), depth) by { MapStreams(ms, ns, depth); }
  }

  lemma MapStreams(ms: seq<Member>, ns: seq<Member>, depth: nat)
    requires |ms| == |ns| && MembersStream(ms, depth + 1) == MembersStream(ns, depth + 1)
    ensures ValueStream(Map(ms), depth) == ValueStream(Map(ns), depth)
  {}

  /** A value is told from every other by what it feeds the hash exactly if no node of it
      lies past the recursion guard. */
  lemma ToldApartExactly(v: Value)
    requires Held(v)
    ensures Shallow(v, 0) <==> forall w :: Held(w) && ValueStream(w, 0) == ValueStream(v, 0) ==> w == v
  {
    hide ValueStream, Held, Shallow;
    if Shallow(v, 0) {
      forall w | Held(w) && ValueStream(w, 0) == ValueStream(v, 0) ensures w == v {
        ValuesPrefixFree(v, w, 0, [], []);
      }
    } else {
      var w := Twin(v, 0);
    }
  }

  /** Lists around a value. */
  function Nested(v: Value, n: nat): Value { if n == 0 then v else List([Nested(v, n - 1)]) }

  lemma {:induction false} NestedAlike(v: Value, w: Value, n: nat, depth: nat)
    requires depth + n > HARD_RECURSION_LIMIT
    ensures ValueStream(Nested(v, n), depth) == ValueStream(Nested(w, n), depth)
    ensures v != w ==> Nested(v, n) != Nested(w, n)
    decreases n
  {
    hide Prefixed;
    if n > 0 {
      NestedAlike(v, w, n - 1, depth + 1);
      ItemReplaced([Nested(v, n - 1)], 0, Nested(w, n - 1), depth + 1);
      assert [Nested(v, n - 1)][0 := Nested(w, n - 1)] == [Nested(w, n - 1)];
      assert Nested(v, n).items[0] == Nested(v, n - 1) && Nested(w, n).items[0] == Nested(w, n - 1);
    }
  }

  /** Two different values whose digests start from the same octets: sixty-five lists
      around null and around true. */
  lemma DepthCutsOff()
    ensures Nested(Null, 65) != Nested(Bool(true), 65)
    ensures ValueStream(Nested(Null, 65), 0) == ValueStream(Nested(Bool(true), 65), 0)
  {
    NestedAlike(Null, Bool(true), 65, 0);
  }

  // ----- records, as lists of chunks

  datatype Chunk = Octet(octet: byte) | Number(number: nat) | Words(text: Text) | Content(value: Value) | Bare(bare: Text)

  /** The octets of one update. */
  function Octets(c: Chunk): Text {
    match c
    case Octet(b) => [b]
    case Number(n) => Sha256.U64(n)
    case Words(t) => Prefixed(t)
    case Content(v) => ValueStream(v, 0)
    case Bare(t) => t
  }

  function Render(chunks: seq<Chunk>): Text {
    if chunks == [] then [] else Render(chunks[..|chunks| - 1]) + Octets(chunks[|chunks| - 1])
  }

  predicate Sound(c: Chunk) {
    match c
    case Octet(_) => true
    case Number(n) => n <= UINT64_MAX
    case Words(t) => |t| <= UINT64_MAX
    case Content(v) => Whole(v, 0)
    case Bare(t) => |t| == 32
  }

  predicate SameSort(c: Chunk, d: Chunk) {
    match c
    case Octet(_) => d.Octet?
    case Number(_) => d.Number?
    case Words(_) => d.Words?
    case Content(_) => d.Content?
    case Bare(_) => d.Bare?
  }

  predicate Alike(c: seq<Chunk>, d: seq<Chunk>) {
    |c| == |d| && forall i :: 0 <= i < |c| ==> SameSort(c[i], d[i]) && Sound(c[i]) && Sound(d[i])
  }

  lemma PeelChunk(c: Chunk, d: Chunk, a: Text, b: Text)
    requires SameSort(c, d) && Sound(c) && Sound(d) && Octets(c) + a == Octets(d) + b
    ensures c == d && a == b
  {
    hide ValueStream, Prefixed, Shallow, Held;
    match c {
      case Octet(x) => Peel([x], [d.octet], a, b);
      case Number(n) => PeelNumber(n, d.number, a, b);
      case Words(t) => PeelText(t, d.text, a, b);
      case Content(v) => ValuesPrefixFree(v, d.value, 0, a, b);
      case Bare(t) => Peel(t, d.bare, a, b);
    }
  }

  lemma {:induction false} PeelChunks(c: seq<Chunk>, d: seq<Chunk>, a: Text, b: Text)
    requires Alike(c, d) && Render(c) + a == Render(d) + b
    ensures c == d && a == b
    decreases |c|
  {
    hide Octets, SameSort, Sound;
    if c == [] {
      assert a == [] + a == [] + b == b;
    } else {
      var k := |c| - 1;
      Associate(Render(c[..k]), Octets(c[k]), a);
      Associate(Render(d[..k]), Octets(d[k]), b);
      PeelChunks(c[..k], d[..k], Octets(c[k]) + a, Octets(d[k]) + b);
      PeelChunk(c[k], d[k], a, b);
      assert c == c[..k] + [c[k]] && d == d[..k] + [d[k]];
    }
  }

  lemma {:induction false} RenderAppend(c: seq<Chunk>, d: seq<Chunk>)
    ensures Render(c + d) == Render(c) + Render(d)
    decreases |d|
  {
    hide Octets;
    if d == [] {
      assert c + d == c;
    } else {
      var k := |d| - 1;
      assert (c + d)[..|c + d| - 1] == c + d[..k];
      RenderAppend(c, d[..k]);
      Associate(Render(c), Render(d[..k]), Octets(d[k]));
    }
  }

  // ----- objects with fields

  /** One field as it is hashed: its path's text, a mark for intent only, its value. */
  datatype Field = Field(path: Text, mark: Option<byte>, value: Value)
  datatype Entry = Entry(name: Text, mark: byte, fields: seq<Field>)

  function FieldChunk(f: Field): seq<Chunk> {
    match f.mark
    case None => [Words(f.path), Content(f.value)]
    case Some(m) => [Words(f.path), Octet(m), Content(f.value)]
  }

  function FieldChunks(fields: seq<Field>): seq<Chunk> {
    if fields == [] then [] else FieldChunks(fields[..|fields| - 1]) + FieldChunk(fields[|fields| - 1])
  }

  function EntryHead(e: Entry): seq<Chunk> { [Words(e.name), Octet(e.mark), Number(|e.fields|)] }

  function EntryChunks(entries: seq<Entry>): seq<Chunk> {
    if entries == [] then []
    else
      var last := entries[|entries| - 1];
      EntryChunks(entries[..|entries| - 1]) + (EntryHead(last) + FieldChunks(last.fields))
  }

  predicate SoundField(f: Field, marked: bool) {
    |f.path| <= UINT64_MAX && f.mark.Some? == marked && Whole(f.value, 0)
  }

  predicate SoundEntry(e: Entry, marked: bool) {
    |e.name| <= UINT64_MAX && |e.fields| <= UINT64_MAX
    && forall i :: 0 <= i < |e.fields| ==> SoundField(e.fields[i], marked)
  }

  lemma PeelField(f: Field, g: Field, marked: bool, a: Text, b: Text)
    requires SoundField(f, marked) && SoundField(g, marked)
    requires Render(FieldChunk(f)) + a == Render(FieldChunk(g)) + b
    ensures f == g && a == b
  {
    hide Render, Whole, Octets;
    PeelChunks(FieldChunk(f), FieldChunk(g), a, b);
    var c, d := FieldChunk(f), FieldChunk(g);
    assert c[0] == d[0] && c[1] == d[1] && c[|c| - 1] == d[|d| - 1];
  }

  lemma {:induction false} PeelFields(l: seq<Field>, r: seq<Field>, marked: bool, a: Text, b: Text)
    requires |l| == |r| && (forall i :: 0 <= i < |l| ==> SoundField(l[i], marked) && SoundField(r[i], marked))
    requires Render(FieldChunks(l)) + a == Render(FieldChunks(r)) + b
    ensures l == r && a == b
    decreases |l|
  {
    hide Render, FieldChunk, SoundField;
    if l == [] {
      assert Render([]) + a == a by { Empty(a); }
      assert Render([]) + b == b by { Empty(b); }
    } else {
      var k := |l| - 1;
      var x, y := FieldChunk(l[k]), FieldChunk(r[k]);
      RenderAppend(FieldChunks(l[..k]), x);
      RenderAppend(FieldChunks(r[..k]), y);
      Associate(Render(FieldChunks(l[..k])), Render(x), a);
      Associate(Render(FieldChunks(r[..k])), Render(y), b);
      PeelFields(l[..k], r[..k], marked, Render(x) + a, Render(y) + b);
      PeelField(l[k], r[k], marked, a, b);
      assert l == l[..k] + [l[k]] && r == r[..k] + [r[k]];
    }
  }

  lemma Empty(a: Text)
    ensures Render([]) + a == a
  {}

  lemma PeelEntry(e: Entry, f: Entry, marked: bool, a: Text, b: Text)
    requires SoundEntry(e, marked) && SoundEntry(f, marked)
    requires Render(EntryHead(e) + FieldChunks(e.fields)) + a == Render(EntryHead(f) + FieldChunks(f.fields)) + b
    ensures e == f && a == b
  {
    hide Render, FieldChunks, SoundField, Octets;
    var x, y := Render(FieldChunks(e.fields)), Render(FieldChunks(f.fields));
    RenderAppend(EntryHead(e), FieldChunks(e.fields));
    RenderAppend(EntryHead(f), FieldChunks(f.fields));
    Associate(Render(EntryHead(e)), x, a);
    Associate(Render(EntryHead(f)), y, b);
    PeelChunks(EntryHead(e), EntryHead(f), x + a, y + b);
    var c, d := EntryHead(e), EntryHead(f);
    assert c[0] == d[0] && c[1] == d[1] && c[2] == d[2];
    PeelFields(e.fields, f.fields, marked, a, b);
  }

  lemma {:induction false} PeelEntries(l: seq<Entry>, r: seq<Entry>, marked: bool, a: Text, b: Text)
    requires |l| == |r| && (forall i :: 0 <= i < |l| ==> SoundEntry(l[i], marked) && SoundEntry(r[i], marked))
    requires Render(EntryChunks(l)) + a == Render(EntryChunks(r)) + b
    ensures l == r && a == b
    decreases |l|
  {
    hide Render, EntryHead, FieldChunks, SoundEntry;
    if l == [] {
      assert Render([]) + a == a by { Empty(a); }
      assert Render([]) + b == b by { Empty(b); }
    } else {
      var k := |l| - 1;
      var x, y := EntryHead(l[k]) + FieldChunks(l[k].fields), EntryHead(r[k]) + FieldChunks(r[k].fields);
      RenderAppend(EntryChunks(l[..k]), x);
      RenderAppend(EntryChunks(r[..k]), y);
      Associate(Render(EntryChunks(l[..k])), Render(x), a);
      Associate(Render(EntryChunks(r[..k])), Render(y), b);
      PeelEntries(l[..k], r[..k], marked, Render(x) + a, Render(y) + b);
      PeelEntry(l[k], r[k], marked, a, b);
      assert l == l[..k] + [l[k]] && r == r[..k] + [r[k]];
    }
  }

  // ----- where everything lies

  /** The number that octets spell, most significant first. */
  function Big(t: Text): nat {
    if t == [] then 0 else 256 * Big(t[..|t| - 1]) + t[|t| - 1] as int
  }

  lemma {:induction false} BigBack(n: nat, octets: nat)
    requires n < Numbers.Power256(octets)
    ensures Big(Sha256.BigEndian(n, octets)) == n
    decreases octets
  {
    if octets > 0 {
      BigBack(n / 256, octets - 1);
      var t := Sha256.BigEndian(n, octets);
      assert t[..octets - 1] == Sha256.BigEndian(n / 256, octets - 1);
    }
  }

  lemma NumberOctets(head: byte, n: nat, tail: Text)
    requires n <= UINT64_MAX
    ensures
      var s := [head] + (Sha256.U64(n) + tail);
      |s| == 9 + |tail| && s[0] == head && Big(s[1..9]) == n && s[9..] == tail
  {
    var s := [head] + (Sha256.U64(n) + tail);
    assert s[1..9] == Sha256.U64(n) && s[9..] == tail;
    Numbers.Powers();
    BigBack(n, 8);
  }

  function KindNumber(v: Value): nat {
    if v.Null? then 0 else if v.Bool? then 1 else if v.Int? then 2 else if v.Uint? then 3 else if v.Double? then 4
    else if v.String? then 5 else if v.Bytes? then 6 else if v.List? then 7 else 8
  }

  /** What the octet of the kind is followed by: eight octets of a number, signed ones modulo
      2^64, or eight octets of a count and then what is counted. */
  lemma StreamOctets(v: Value, depth: nat)
    requires depth <= 64 && Held(v)
    ensures
      var s := ValueStream(v, depth);
      && s != [] && s[0] as int == KindNumber(v)
      && (v.Null? ==> |s| == 1)
      && (v.Bool? ==> |s| == 2 && s[1] as int == if v.truth then 1 else 0)
      && (v.Int? ==> |s| == 9 && (Big(s[1..]) == v.signed || Big(s[1..]) == v.signed + 0x1_0000_0000_0000_0000))
      && (v.Uint? ==> |s| == 9 && Big(s[1..]) == v.unsigned)
      && (v.Double? ==> |s| == 9 && Big(s[1..]) == v.bits)
      && (v.String? ==> |s| == 9 + |v.text| && Big(s[1..9]) == |v.text| && s[9..] == v.text)
      && (v.Bytes? ==> |s| == 9 + |v.octets| && Big(s[1..9]) == |v.octets| && s[9..] == v.octets)
      && (v.List? ==> |s| >= 9 && Big(s[1..9]) == |v.items| && s[9..] == ItemsStream(v.items, depth + 1))
      && (v.Map? ==> |s| >= 9 && Big(s[1..9]) == |v.members| && s[9..] == MembersStream(v.members, depth + 1))
  {
    hide Sha256.U64, Big, ItemsStream, MembersStream;
    match v {
      case Int(i) => ScalarOctets(v, depth, Unsigned(i));
      case Uint(n) => ScalarOctets(v, depth, n);
      case Double(bits) => ScalarOctets(v, depth, bits);
      case String(t) => NumberOctets(KindOctet(v), |t|, t);
      case Bytes(t) => NumberOctets(KindOctet(v), |t|, t);
      case List(items) => NumberOctets(KindOctet(v), |items|, ItemsStream(items, depth + 1));
      case Map(members) => NumberOctets(KindOctet(v), |members|, MembersStream(members, depth + 1));
      case _ =>
    }
  }

  lemma ScalarOctets(v: Value, depth: nat, n: nat)
    requires n <= UINT64_MAX && Body(v, depth) == Sha256.U64(n)
    requires ValueStream(v, depth) == [KindOctet(v)] + Body(v, depth)
    ensures |ValueStream(v, depth)| == 9 && Big(ValueStream(v, depth)[1..]) == n
  {
    hide Big, Body, ValueStream;
    NumberOctets(KindOctet(v), n, []);
    var s := ValueStream(v, depth);
    assert Sha256.U64(n) + [] == Sha256.U64(n);
    assert s[1..] == s[1..9];
  }
}
