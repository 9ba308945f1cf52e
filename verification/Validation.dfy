/** The envelope that values are checked against before they are hashed, and why nothing
    that passes it collides. */
module Validation {
  import opened Core
  import opened Values
  import opened HashStreams
  import Utf8

  datatype ValueLimits = ValueLimits(depth: nat, leaf: nat, nodes: nat)

  /** The envelope that documents are checked against before anything of them is hashed. */
  function Problem(v: Value, limits: ValueLimits, depth: nat): Option<Reason>
    decreases v, 1
  {
    if depth > limits.depth || depth > HARD_RECURSION_LIMIT then Some(LimitDepthExceeded)
    else
      match v
      case String(s) =>
        if |s| > limits.leaf then Some(LimitBytesExceeded)
        else if !Utf8.Valid(s) then Some(EncodingInvalidUtf8) else None
      case Bytes(s) => if |s| > limits.leaf then Some(LimitBytesExceeded) else None
      case List(items) =>
        if |items| > limits.nodes then Some(LimitObjectsExceeded) else ItemsProblem(items, limits, depth + 1)
      case Map(members) =>
        if |members| > limits.nodes then Some(LimitFieldsExceeded) else MembersProblem(members, limits, depth + 1)
      case _ => None
  }

  function ItemsProblem(vs: seq<Value>, limits: ValueLimits, depth: nat): Option<Reason>
    decreases vs, 0
  {
    if vs == [] then None
    else if Problem(vs[0], limits, depth).Some? then Problem(vs[0], limits, depth)
    else ItemsProblem(vs[1..], limits, depth)
  }

  function MembersProblem(ms: seq<Member>, limits: ValueLimits, depth: nat): Option<Reason>
    decreases ms, 0
  {
    if ms == [] then None
    else if |ms[0].name| > limits.leaf then Some(LimitBytesExceeded)
    else if !Utf8.Valid(ms[0].name) then Some(EncodingInvalidUtf8)
    else if Problem(ms[0].value, limits, depth).Some? then Problem(ms[0].value, limits, depth)
    else MembersProblem(ms[1..], limits, depth)
  }

  /** The recursive walk, leaving its loops at the first problem. */
  method ValidateValue(v: Value, limits: ValueLimits, depth: nat) returns (r: Option<Reason>)
    ensures r == Problem(v, limits, depth)
    decreases v, 1
  {
    hide ItemsProblem, MembersProblem;
    if depth > limits.depth || depth > HARD_RECURSION_LIMIT {
      return Some(LimitDepthExceeded);
    }
    match v {
      case String(s) =>
        if |s| > limits.leaf { return Some(LimitBytesExceeded); }
        var ok := Utf8.IsValidUtf8(s);
        return if ok then None else Some(EncodingInvalidUtf8);
      case Bytes(s) => return if |s| > limits.leaf then Some(LimitBytesExceeded) else None;
      case List(items) =>
        if |items| > limits.nodes { return Some(LimitObjectsExceeded); }
        r := ValidateItems(items, limits, depth + 1);
      case Map(members) =>
        if |members| > limits.nodes { return Some(LimitFieldsExceeded); }
        r := ValidateMembers(members, limits, depth + 1);
      case _ => return None;
    }
  }

  method ValidateItems(vs: seq<Value>, limits: ValueLimits, depth: nat) returns (r: Option<Reason>)
    ensures r == ItemsProblem(vs, limits, depth)
    decreases vs, 0
  {
    hide Problem;
    assert vs[0..] == vs;
    for index := 0 to |vs|
      invariant ItemsProblem(vs, limits, depth) == ItemsProblem(vs[index..], limits, depth)
    {
      assert vs[index..][0] == vs[index] && vs[index..][1..] == vs[index + 1..];
      r := ValidateValue(vs[index], limits, depth);
      if r.Some? { return r; }
    }
    return None;
  }

  method ValidateMembers(ms: seq<Member>, limits: ValueLimits, depth: nat) returns (r: Option<Reason>)
    ensures r == MembersProblem(ms, limits, depth)
    decreases ms, 0
  {
    hide Problem, Utf8.Valid;
    assert ms[0..] == ms;
    for index := 0 to |ms|
      invariant MembersProblem(ms, limits, depth) == MembersProblem(ms[index..], limits, depth)
    {
      assert ms[index..][0] == ms[index] && ms[index..][1..] == ms[index + 1..];
      if |ms[index].name| > limits.leaf { return Some(LimitBytesExceeded); }
      var ok := Utf8.IsValidUtf8(ms[index].name);
      if !ok { return Some(EncodingInvalidUtf8); }
      r := ValidateValue(ms[index].value, limits, depth);
      if r.Some? { return r; }
    }
    return None;
  }

  lemma {:induction false} ValidatedIsShallow(v: Value, limits: ValueLimits, depth: nat)
    requires Problem(v, limits, depth).None?
    ensures Shallow(v, depth)
    decreases v, 1
  {
    hide Utf8.Valid;
    if v.List? {
      ItemsShallow(v.items, limits, depth + 1);
    } else if v.Map? {
      MembersShallow(v.members, limits, depth + 1);
    }
  }

  lemma {:induction false} ItemsShallow(vs: seq<Value>, limits: ValueLimits, depth: nat)
    requires ItemsProblem(vs, limits, depth).None?
    ensures forall i :: 0 <= i < |vs| ==> Shallow(vs[i], depth)
    decreases vs, 0
  {
    hide Problem, Shallow;
    if vs != [] {
      ValidatedIsShallow(vs[0], limits, depth);
      ItemsShallow(vs[1..], limits, depth);
      forall i | 0 <= i < |vs| ensures Shallow(vs[i], depth) {
        assert i > 0 ==> vs[i] == vs[1..][i - 1];
      }
    }
  }

  lemma {:induction false} MembersShallow(ms: seq<Member>, limits: ValueLimits, depth: nat)
    requires MembersProblem(ms, limits, depth).None?
    ensures forall i :: 0 <= i < |ms| ==> Shallow(ms[i].value, depth)
    decreases ms, 0
  {
    hide Problem, Shallow, Utf8.Valid;
    if ms != [] {
      ValidatedIsShallow(ms[0].value, limits, depth);
      MembersShallow(ms[1..], limits, depth);
      forall i | 0 <= i < |ms| ensures Shallow(ms[i].value, depth) {
        assert i > 0 ==> ms[i] == ms[1..][i - 1];
      }
    }
  }

  /** A value that passes validation is told from every other: the collisions past the
      guard never reach a digest. */
  lemma ValidatedIsToldApart(v: Value, limits: ValueLimits)
    requires Held(v) && Problem(v, limits, 0).None?
    ensures forall w :: Held(w) && ValueStream(w, 0) == ValueStream(v, 0) ==> w == v
  {
    hide ValueStream, Held, Shallow, Problem;
    ValidatedIsShallow(v, limits, 0);
    ToldApartExactly(v);
  }

  // ----- node by node

  /** The node that a path of child positions leads to. */
  function Node(v: Value, path: seq<nat>): Option<Value>
    decreases |path|
  {
    if path == [] then Some(v)
    else if v.List? && path[0] < |v.items| then Node(v.items[path[0]], path[1..])
    else if v.Map? && path[0] < |v.members| then Node(v.members[path[0]].value, path[1..])
    else None
  }

  /** A name or a string within the leaf bound, in UTF-8. */
  predicate NameFits(text: Text, limits: ValueLimits) { |text| <= limits.leaf && Utf8.Valid(text) }

  /** What a node is held to on its own, by its depth. */
  predicate NodeFits(v: Value, depth: nat, limits: ValueLimits) {
    && depth <= limits.depth && depth <= 64
    && (v.String? ==> NameFits(v.text, limits))
    && (v.Bytes? ==> |v.octets| <= limits.leaf)
    && (v.List? ==> |v.items| <= limits.nodes)
    && (v.Map? ==> |v.members| <= limits.nodes
                   && forall i :: 0 <= i < |v.members| ==> NameFits(v.members[i].name, limits))
  }

  ghost predicate AllFit(v: Value, depth: nat, limits: ValueLimits) {
    forall path :: Node(v, path).Some? ==> NodeFits(Node(v, path).value, depth + |path|, limits)
  }

  lemma {:induction false} ItemsPass(vs: seq<Value>, limits: ValueLimits, depth: nat)
    ensures ItemsProblem(vs, limits, depth).None? <==> forall i :: 0 <= i < |vs| ==> Problem(vs[i], limits, depth).None?
    decreases |vs|
  {
    hide Problem;
    if vs != [] {
      ItemsPass(vs[1..], limits, depth);
      assert forall i :: 1 <= i < |vs| ==> vs[i] == vs[1..][i - 1];
    }
  }

  lemma {:induction false} MembersPass(ms: seq<Member>, limits: ValueLimits, depth: nat)
    ensures
      MembersProblem(ms, limits, depth).None? <==>
        forall i :: 0 <= i < |ms| ==> NameFits(ms[i].name, limits) && Problem(ms[i].value, limits, depth).None?
    decreases |ms|
  {
    hide Problem, Utf8.Valid;
    if ms != [] {
      MembersPass(ms[1..], limits, depth);
      assert forall i :: 1 <= i < |ms| ==> ms[i] == ms[1..][i - 1];
    }
  }

  /** One level: the node itself, and its children one level down. */
  lemma LevelPasses(v: Value, limits: ValueLimits, depth: nat)
    ensures
      Problem(v, limits, depth).None? <==>
        && NodeFits(v, depth, limits)
        && (v.List? ==> forall i :: 0 <= i < |v.items| ==> Problem(v.items[i], limits, depth + 1).None?)
        && (v.Map? ==> forall i :: 0 <= i < |v.members| ==> Problem(v.members[i].value, limits, depth + 1).None?)
  {
    hide ItemsProblem, MembersProblem, Utf8.Valid;
    if v.List? {
      ItemsPass(v.items, limits, depth + 1);
    } else if v.Map? {
      MembersPass(v.members, limits, depth + 1);
    }
  }

  lemma {:induction false} PassedFits(v: Value, limits: ValueLimits, depth: nat, path: seq<nat>)
    requires Problem(v, limits, depth).None? && Node(v, path).Some?
    ensures NodeFits(Node(v, path).value, depth + |path|, limits)
    decreases |path|
  {
    hide Problem, NodeFits;
    LevelPasses(v, limits, depth);
    if path != [] {
      PassedFits(if v.List? then v.items[path[0]] else v.members[path[0]].value, limits, depth + 1, path[1..]);
    }
  }

  lemma {:induction false} FittingPasses(v: Value, limits: ValueLimits, depth: nat)
    requires AllFit(v, depth, limits)
    ensures Problem(v, limits, depth).None?
    decreases v
  {
    hide Problem, NodeFits;
    LevelPasses(v, limits, depth);
    assert Node(v, []) == Some(v);
    if v.List? {
      forall i | 0 <= i < |v.items|
        ensures Problem(v.items[i], limits, depth + 1).None?
      {
        ChildFits(v, limits, depth, i, v.items[i]);
        FittingPasses(v.items[i], limits, depth + 1);
      }
    } else if v.Map? {
      forall i | 0 <= i < |v.members|
        ensures Problem(v.members[i].value, limits, depth + 1).None?
      {
        ChildFits(v, limits, depth, i, v.members[i].value);
        FittingPasses(v.members[i].value, limits, depth + 1);
      }
    }
  }

  lemma ChildFits(v: Value, limits: ValueLimits, depth: nat, i: nat, child: Value)
    requires AllFit(v, depth, limits)
    requires (v.List? && i < |v.items| && child == v.items[i])
             || (v.Map? && i < |v.members| && child == v.members[i].value)
    ensures AllFit(child, depth + 1, limits)
  {
    hide NodeFits;
    forall path | Node(child, path).Some?
      ensures NodeFits(Node(child, path).value, depth + 1 + |path|, limits)
    {
      assert ([i] + path)[1..] == path && ([i] + path)[0] == i;
      assert Node(v, [i] + path) == Node(child, path);
    }
  }

  /** A value passes exactly when every node of it fits at its depth. */
  lemma ValidatedExactly(v: Value, limits: ValueLimits, depth: nat)
    ensures Problem(v, limits, depth).None? <==> AllFit(v, depth, limits)
  {
    hide Problem, NodeFits;
    if Problem(v, limits, depth).None? {
      forall path | Node(v, path).Some?
        ensures NodeFits(Node(v, path).value, depth + |path|, limits)
      {
        PassedFits(v, limits, depth, path);
      }
    } else if AllFit(v, depth, limits) {
      FittingPasses(v, limits, depth);
    }
  }
}
