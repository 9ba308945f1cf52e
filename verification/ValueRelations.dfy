/** When two values differ and when they cannot be compared at all. */
module ValueRelations {
  import opened Values

  /** The two are sequences, or maps, of one size, and maps of the same names. */
  predicate SameFrame(l: Value, r: Value) {
    || (l.List? && r.List? && |l.items| == |r.items|)
    || (l.Map? && r.Map? && |l.members| == |r.members|
        && forall i :: 0 <= i < |l.members| ==> l.members[i].name == r.members[i].name)
  }

  /** A difference at the top: unequal numbers, or numbers of two kinds where kinds must match; unequal
      scalars of one kind; containers of one kind with another size or other names. */
  predicate Clash(l: Value, r: Value, equivalence: NumericEquivalence) {
    if IsNumber(l) && IsNumber(r) then
      Number(l) != Number(r)
      || (equivalence.Exact? && !((l.Int? && r.Int?) || (l.Uint? && r.Uint?) || (l.Double? && r.Double?)))
    else
      || (l.Bool? && r.Bool? && l.truth != r.truth)
      || (l.String? && r.String? && l.text != r.text)
      || (l.Bytes? && r.Bytes? && l.octets != r.octets)
      || (l.List? && r.List? && !SameFrame(l, r))
      || (l.Map? && r.Map? && !SameFrame(l, r))
  }

  /** Values of two kinds that are not both numbers. */
  predicate Unlike(l: Value, r: Value) {
    && !(IsNumber(l) && IsNumber(r))
    && !((l.Null? && r.Null?) || (l.Bool? && r.Bool?) || (l.String? && r.String?) || (l.Bytes? && r.Bytes?)
         || (l.List? && r.List?) || (l.Map? && r.Map?))
  }

  /** A difference here or, frames agreeing, in some part, within the guard. */
  predicate DiffersWithin(l: Value, r: Value, equivalence: NumericEquivalence, depth: nat)
    decreases l
  {
    && depth <= HARD_RECURSION_LIMIT
    && (|| Clash(l, r, equivalence)
        || (l.List? && r.List? && |l.items| == |r.items|
            && exists i :: 0 <= i < |l.items| && DiffersWithin(l.items[i], r.items[i], equivalence, depth + 1))
        || (l.Map? && r.Map? && SameFrame(l, r)
            && exists i :: 0 <= i < |l.members|
                 && DiffersWithin(l.members[i].value, r.members[i].value, equivalence, depth + 1)))
  }

  /** Somewhere, frames agreeing above it, two kinds meet or the guard is passed. */
  predicate UnlikeWithin(l: Value, r: Value, depth: nat)
    decreases l
  {
    || depth > HARD_RECURSION_LIMIT || Unlike(l, r)
    || (l.List? && r.List? && |l.items| == |r.items|
        && exists i :: 0 <= i < |l.items| && UnlikeWithin(l.items[i], r.items[i], depth + 1))
    || (l.Map? && r.Map? && SameFrame(l, r)
        && exists i :: 0 <= i < |l.members| && UnlikeWithin(l.members[i].value, r.members[i].value, depth + 1))
  }

  lemma ScalarsRelate(l: Value, r: Value, equivalence: NumericEquivalence, depth: nat)
    requires depth <= HARD_RECURSION_LIMIT && !(l.List? && r.List?) && !(l.Map? && r.Map?)
    ensures Relate(l, r, equivalence, depth).Different? <==> Clash(l, r, equivalence)
    ensures Relate(l, r, equivalence, depth).Incomparable? <==> Unlike(l, r)
  {
    hide RelateNumerics, Number;
    if IsNumber(l) && IsNumber(r) { NumericsExact(l, r); }
  }

  lemma {:induction false} ItemsRelate(l: seq<Value>, r: seq<Value>, equivalence: NumericEquivalence, depth: nat)
    requires |l| == |r|
    ensures RelateItems(l, r, equivalence, depth).Different?
       <==> exists i :: 0 <= i < |l| && Relate(l[i], r[i], equivalence, depth).Different?
    ensures RelateItems(l, r, equivalence, depth).Equal?
       <==> forall i :: 0 <= i < |l| ==> Relate(l[i], r[i], equivalence, depth).Equal?
    decreases |l|
  {
    hide Relate;
    if l != [] {
      var k := |l| - 1;
      ItemsRelate(l[..k], r[..k], equivalence, depth);
      assert forall i :: 0 <= i < k ==> l[..k][i] == l[i] && r[..k][i] == r[i];
    }
  }

  lemma {:induction false} MembersRelate(l: seq<Member>, r: seq<Member>, equivalence: NumericEquivalence, depth: nat)
    requires |l| == |r|
    ensures RelateMembers(l, r, equivalence, depth).Different?
       <==> exists i :: 0 <= i < |l| && (l[i].name != r[i].name
                                         || Relate(l[i].value, r[i].value, equivalence, depth).Different?)
    ensures RelateMembers(l, r, equivalence, depth).Equal?
       <==> forall i :: 0 <= i < |l| ==> l[i].name == r[i].name && Relate(l[i].value, r[i].value, equivalence, depth).Equal?
    decreases |l|
  {
    hide Relate;
    if l != [] {
      var k := |l| - 1;
      MembersRelate(l[..k], r[..k], equivalence, depth);
      assert forall i :: 0 <= i < k ==> l[..k][i] == l[i] && r[..k][i] == r[i];
    }
  }

  /** The relation of two values is what their differences and unlike parts say. */
  predicate Agrees(l: Value, r: Value, equivalence: NumericEquivalence, depth: nat) {
    var relation, differs := Relate(l, r, equivalence, depth), DiffersWithin(l, r, equivalence, depth);
    (relation.Different? <==> differs) && (relation.Incomparable? <==> !differs && UnlikeWithin(l, r, depth))
  }

  lemma ListsAgree(l: Value, r: Value, equivalence: NumericEquivalence, depth: nat)
    requires depth <= HARD_RECURSION_LIMIT && l.List? && r.List? && |l.items| == |r.items|
    requires forall i :: 0 <= i < |l.items| ==> Agrees(l.items[i], r.items[i], equivalence, depth + 1)
    ensures Agrees(l, r, equivalence, depth)
  {
    ItemsRelate(l.items, r.items, equivalence, depth + 1);
  }

  lemma MapsAgree(l: Value, r: Value, equivalence: NumericEquivalence, depth: nat)
    requires depth <= HARD_RECURSION_LIMIT && l.Map? && r.Map? && |l.members| == |r.members|
    requires forall i :: 0 <= i < |l.members| ==> Agrees(l.members[i].value, r.members[i].value, equivalence, depth + 1)
    ensures Agrees(l, r, equivalence, depth)
  {
    MembersRelate(l.members, r.members, equivalence, depth + 1);
  }

  lemma SizesDiffer(l: Value, r: Value, equivalence: NumericEquivalence, depth: nat)
    requires depth <= HARD_RECURSION_LIMIT
    requires (l.List? && r.List? && |l.items| != |r.items|) || (l.Map? && r.Map? && |l.members| != |r.members|)
    ensures Agrees(l, r, equivalence, depth)
  {}

  lemma TooDeep(l: Value, r: Value, equivalence: NumericEquivalence, depth: nat)
    requires depth > HARD_RECURSION_LIMIT
    ensures Agrees(l, r, equivalence, depth)
  {}

  lemma LeavesAgree(l: Value, r: Value, equivalence: NumericEquivalence, depth: nat)
    requires depth <= HARD_RECURSION_LIMIT && !(l.List? && r.List?) && !(l.Map? && r.Map?)
    ensures Agrees(l, r, equivalence, depth)
  {
    hide Relate, Clash, Unlike;
    ScalarsRelate(l, r, equivalence, depth);
    NotBoth(l, r, equivalence);
  }

  lemma NotBoth(l: Value, r: Value, equivalence: NumericEquivalence)
    ensures Unlike(l, r) ==> !Clash(l, r, equivalence)
  {
    hide Number;
  }

  lemma {:induction false} AllAgree(l: Value, r: Value, equivalence: NumericEquivalence, depth: nat)
    ensures Agrees(l, r, equivalence, depth)
    decreases l
  {
    hide Agrees;
    if depth > HARD_RECURSION_LIMIT {
      TooDeep(l, r, equivalence, depth);
    } else if l.List? && r.List? && |l.items| == |r.items| {
      forall i | 0 <= i < |l.items| ensures Agrees(l.items[i], r.items[i], equivalence, depth + 1) {
        AllAgree(l.items[i], r.items[i], equivalence, depth + 1);
      }
      ListsAgree(l, r, equivalence, depth);
    } else if l.Map? && r.Map? && |l.members| == |r.members| {
      forall i | 0 <= i < |l.members| ensures Agrees(l.members[i].value, r.members[i].value, equivalence, depth + 1) {
        AllAgree(l.members[i].value, r.members[i].value, equivalence, depth + 1);
      }
      MapsAgree(l, r, equivalence, depth);
    } else if (l.List? && r.List?) || (l.Map? && r.Map?) {
      SizesDiffer(l, r, equivalence, depth);
    } else {
      LeavesAgree(l, r, equivalence, depth);
    }
  }

  /** Two values differ exactly if a difference is found within the guard; without one they cannot be
      compared exactly if unlike kinds meet somewhere or the guard is passed. */
  lemma RelationMeans(l: Value, r: Value, equivalence: NumericEquivalence)
    ensures Relate(l, r, equivalence, 0).Different? <==> DiffersWithin(l, r, equivalence, 0)
    ensures Relate(l, r, equivalence, 0).Incomparable? <==> !DiffersWithin(l, r, equivalence, 0) && UnlikeWithin(l, r, 0)
  {
    hide Relate, DiffersWithin, UnlikeWithin;
    AllAgree(l, r, equivalence, 0);
  }
}
