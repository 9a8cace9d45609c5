/**
 Calls of `cat` whose arguments are calls of `cat`, and when one call with all the arguments gives the
 same: always, unless an inner call has no arguments.  Such a call gives a 0-by-0 array, which takes part
 in the outer call like any other.
 */
module Nesting {
  import opened MixedRadix
  import opened Results
  import opened Sealing
  import opened Shapes
  import opened Tensors
  import opened Partitions
  import opened Joining
  import opened Concatenation

  ghost predicate SomeEmpty<T>(groups: seq<seq<T>>) {
    exists g :: 0 <= g < |groups| && groups[g] == []
  }

  /** What a group stands for in the outer call. */
  ghost function Inner<T>(group: seq<Tensor<T>>): (r: seq<Tensor<T>>)
    ensures r != []
  {
    if group == [] then [Nothing()] else group
  }

  ghost function Filled<T>(groups: seq<seq<Tensor<T>>>): (r: seq<seq<Tensor<T>>>)
    ensures |r| == |groups|
  {
    seq(|groups|, g requires 0 <= g < |groups| => Inner(groups[g]))
  }

  // ----- the nested calls

  method ConcatenateGroup<T>(group: seq<Tensor<T>>, axis: nat) returns (r: Result<Tensor<T>, nat>)
    requires AllValid(group)
    ensures r.Ok? <==> Compatible(Inner(group), axis)
    ensures r.Ok? ==> r.value.Valid() && IsJoined(Inner(group), axis, r.value)
  {
    r := Concatenate(group, axis);
    if group == [] {
      NothingIsValid<T>();
      SingleJoined<T>(Nothing(), axis);
    }
  }

  /** The results of the first inner calls; looked into only where `Unseal` is mentioned. */
  ghost predicate AreParts<T>(filled: seq<seq<Tensor<T>>>, axis: nat, parts: seq<Tensor<T>>) {
    forall k {:trigger Unseal(k)} :: Unseal(k) ==>
      && |parts| <= |filled| && AllValid(parts)
      && forall g: nat | g < |parts| :: IsJoined(filled[g], axis, parts[g])
  }

  lemma PartsNext<T>(filled: seq<seq<Tensor<T>>>, axis: nat, parts: seq<Tensor<T>>, part: Tensor<T>)
    requires AreParts(filled, axis, parts) && |parts| < |filled|
    requires part.Valid() && IsJoined(filled[|parts|], axis, part)
    ensures AreParts(filled, axis, parts + [part])
  {
    assert Unseal(0);
  }

  /** The inner calls, up to the first that fails. */
  method ConcatenateEach<T>(groups: seq<seq<Tensor<T>>>, axis: nat, ghost filled: seq<seq<Tensor<T>>>)
    returns (r: Result<seq<Tensor<T>>, nat>)
    requires filled == Filled(groups) && forall g | 0 <= g < |groups| :: AllValid(groups[g])
    ensures r.Ok? ==> |r.value| == |groups| && AreParts(filled, axis, r.value)
    ensures r.Err? ==> !Compatible(Flat(filled), axis)
  {
    var parts: seq<Tensor<T>> := [];
    for g := 0 to |groups|
      invariant |parts| == g && AreParts(filled, axis, parts)
    {
      var part := ConcatenateGroup(groups[g], axis);
      if part.Err? {
        GroupFails(filled, g, axis);
        return Err(part.error);
      }
      PartsNext(filled, axis, parts, part.value);
      parts := parts + [part.value];
    }
    r := Ok(parts);
  }

  /** Concatenates each group and then the results. */
  method ConcatenateNested<T>(groups: seq<seq<Tensor<T>>>, axis: nat) returns (r: Result<Tensor<T>, nat>, ghost parts: seq<Tensor<T>>)
    requires forall g | 0 <= g < |groups| :: AllValid(groups[g])
    ensures groups == [] ==> r == Ok(Nothing())
    ensures groups != [] ==> (r.Ok? <==> Compatible(Flat(Filled(groups)), axis))
    ensures groups != [] && r.Ok? ==> IsNested(groups, axis, parts, r.value)
  {
    ghost var filled := Filled(groups);
    var made := ConcatenateEach(groups, axis, filled);
    if made.Err? {
      return Err(made.error), [];
    }
    PartsCompatible(filled, made.value, axis);
    r := Concatenate(made.value, axis);
    parts := made.value;
  }

  lemma PartsCompatible<T>(filled: seq<seq<Tensor<T>>>, parts: seq<Tensor<T>>, axis: nat)
    requires |filled| == |parts| && AreParts(filled, axis, parts) && forall g | 0 <= g < |filled| :: filled[g] != []
    ensures AllValid(parts) && forall g: nat | g < |parts| :: IsJoined(filled[g], axis, parts[g])
    ensures Compatible(Flat(filled), axis) <==> Compatible(parts, axis)
  {
    assert Unseal(0);
    CompatibleGroups(filled, parts, axis, |filled|);
    assert filled[..|filled|] == filled && Flat(filled) + parts[|filled|..] == Flat(filled);
  }

  lemma GroupFails<T>(groups: seq<seq<Tensor<T>>>, g: nat, axis: nat)
    requires g < |groups| && !Compatible(groups[g], axis)
    ensures !Compatible(Flat(groups), axis)
  {
    var pre, post := GroupInFlat(groups, g);
    if Compatible(Flat(groups), axis) {
      CompatiblePart(pre, groups[g], post, axis);
    }
  }

  /** What the outer call joins. */
  ghost predicate IsNested<T>(groups: seq<seq<Tensor<T>>>, axis: nat, parts: seq<Tensor<T>>, r: Tensor<T>) {
    && |parts| == |groups| && IsJoined(parts, axis, r)
    && forall g: nat | g < |groups| :: IsJoined(Filled(groups)[g], axis, parts[g])
  }

  lemma NestedJoins<T>(groups: seq<seq<Tensor<T>>>, axis: nat, parts: seq<Tensor<T>>, r: Tensor<T>)
    requires IsNested(groups, axis, parts, r)
    ensures IsJoined(Flat(Filled(groups)), axis, r)
  {
    var filled := Filled(groups);
    JoinGroups(filled, parts, axis, r, |filled|);
    assert filled[..|filled|] == filled && Flat(filled) + parts[|filled|..] == Flat(filled);
  }

  // ----- members of the groups

  lemma {:induction false} FlatMember<T>(groups: seq<seq<T>>, x: T)
    ensures x in Flat(groups) <==> exists g :: 0 <= g < |groups| && x in groups[g]
  {
    if groups != [] {
      var n := |groups| - 1;
      FlatMember(groups[..n], x);
      assert forall g | 0 <= g < n :: groups[..n][g] == groups[g];
    }
  }

  lemma FilledMember<T>(groups: seq<seq<Tensor<T>>>, x: Tensor<T>)
    ensures x in Flat(Filled(groups)) <==> x in Flat(groups) || (x == Nothing() && SomeEmpty(groups))
  {
    var filled := Filled(groups);
    FlatMember(groups, x);
    FlatMember(filled, x);
    if x in Flat(groups) {
      var g :| 0 <= g < |groups| && x in groups[g];
      assert x in filled[g];
    }
    if SomeEmpty(groups) {
      var g :| 0 <= g < |groups| && groups[g] == [];
      assert Nothing() in filled[g];
    }
  }

  lemma NoMembers<T>(groups: seq<seq<T>>)
    ensures Flat(groups) == [] <==> forall g | 0 <= g < |groups| :: groups[g] == []
  {
    if g :| 0 <= g < |groups| && groups[g] != [] {
      FlatMember(groups, groups[g][0]);
    }
    if Flat(groups) != [] {
      FlatMember(groups, Flat(groups)[0]);
    }
  }

  // ----- compatible members

  /** The same extents along all axes but one. */
  ghost predicate SameOff<T>(x: Tensor<T>, y: Tensor<T>, axis: nat) {
    forall a: nat | a != axis :: Extent(x.dims, a) == Extent(y.dims, a)
  }

  /** No rows and no columns, as far as axes other than this one are concerned, and no further axes. */
  ghost predicate FitsNothing<T>(x: Tensor<T>, axis: nat) {
    forall a: nat | a != axis :: Extent(x.dims, a) == if a < 2 then 0 else 1
  }

  ghost predicate AllFit<T>(inputs: seq<Tensor<T>>, axis: nat) {
    forall x | x in inputs :: FitsNothing(x, axis)
  }

  lemma FitsIsSameOff<T>(x: Tensor<T>, axis: nat)
    ensures FitsNothing(x, axis) <==> SameOff(x, Nothing(), axis)
  {
    assert forall a: nat :: Extent(Nothing<T>().dims, a) == if a < 2 then 0 else 1;
  }

  lemma CompatibleByPairs<T>(inputs: seq<Tensor<T>>, axis: nat)
    ensures Compatible(inputs, axis) <==> forall x, y | x in inputs && y in inputs :: SameOff(x, y, axis)
  {
    if Compatible(inputs, axis) {
      forall x, y | x in inputs && y in inputs ensures SameOff(x, y, axis) {
        forall a: nat | a != axis ensures Extent(x.dims, a) == Extent(y.dims, a) {
          assert Extent(x.dims, a) == Extent(inputs[0].dims, a);
          assert Extent(y.dims, a) == Extent(inputs[0].dims, a);
        }
      }
    }
    if forall x, y | x in inputs && y in inputs :: SameOff(x, y, axis) {
      forall i: nat, a: nat | i < |inputs| && a != axis ensures Extent(inputs[i].dims, a) == Extent(inputs[0].dims, a) {
        assert SameOff(inputs[i], inputs[0], axis);
      }
    }
  }

  lemma FilledPairs<T>(flat: seq<Tensor<T>>, filled: seq<Tensor<T>>, axis: nat)
    requires forall x :: x in filled <==> x in flat || x == Nothing()
    ensures Compatible(filled, axis) <==> Compatible(flat, axis) && AllFit(flat, axis)
  {
    CompatibleByPairs(flat, axis);
    CompatibleByPairs(filled, axis);
    forall x | x in flat ensures FitsNothing(x, axis) <==> SameOff(x, Nothing(), axis) {
      FitsIsSameOff(x, axis);
    }
  }

  /** The nested calls succeed exactly when the members are compatible, also with the arrays of empty groups. */
  lemma FilledCompatible<T>(groups: seq<seq<Tensor<T>>>, axis: nat)
    ensures Compatible(Flat(Filled(groups)), axis) <==>
            Compatible(Flat(groups), axis) && (SomeEmpty(groups) ==> AllFit(Flat(groups), axis))
  {
    if SomeEmpty(groups) {
      forall x ensures x in Flat(Filled(groups)) <==> x in Flat(groups) || x == Nothing() {
        FilledMember(groups, x);
      }
      FilledPairs(Flat(groups), Flat(Filled(groups)), axis);
    } else {
      assert Filled(groups) == groups;
    }
  }

  // ----- how long the result is

  lemma {:induction false} SumJoined(p: seq<nat>, q: seq<nat>)
    ensures Sum(p + q) == Sum(p) + Sum(q)
  {
    if q == [] {
      assert p + q == p;
    } else {
      var n := |q| - 1;
      SumJoined(p, q[..n]);
      assert (p + q)[..|p + q| - 1] == p + q[..n];
    }
  }

  function Length<T>(inputs: seq<Tensor<T>>, axis: nat): nat {
    Sum(Extents(inputs, axis))
  }

  lemma LengthJoined<T>(a: seq<Tensor<T>>, b: seq<Tensor<T>>, axis: nat)
    ensures Length(a + b, axis) == Length(a, axis) + Length(b, axis)
  {
    assert Extents(a + b, axis) == Extents(a, axis) + Extents(b, axis);
    SumJoined(Extents(a, axis), Extents(b, axis));
  }

  ghost function CountEmpty<T>(groups: seq<seq<T>>): (n: nat)
    ensures n <= |groups|
  {
    if groups == [] then 0
    else CountEmpty(groups[..|groups| - 1]) + if groups[|groups| - 1] == [] then 1 else 0
  }

  lemma {:induction false} CountsEmpty<T>(groups: seq<seq<T>>)
    ensures CountEmpty(groups) > 0 <==> SomeEmpty(groups)
    ensures CountEmpty(groups) == |groups| <==> forall g | 0 <= g < |groups| :: groups[g] == []
  {
    if groups != [] {
      var n := |groups| - 1;
      CountsEmpty(groups[..n]);
      assert forall g | 0 <= g < n :: groups[..n][g] == groups[g];
      assert groups[n] == groups[|groups| - 1];
    }
  }

  /** Past the first two axes every empty group adds a position. */
  lemma {:induction false} FilledLength<T>(groups: seq<seq<Tensor<T>>>, axis: nat)
    requires axis >= 2
    ensures Length(Flat(Filled(groups)), axis) == Length(Flat(groups), axis) + CountEmpty(groups)
  {
    if groups != [] {
      var n := |groups| - 1;
      FilledLength(groups[..n], axis);
      assert Filled(groups)[..n] == Filled(groups[..n]);
      LengthJoined(Flat(groups[..n]), groups[n], axis);
      LengthJoined(Flat(Filled(groups[..n])), Inner(groups[n]), axis);
      InnerLength(groups[n], axis);
    }
  }

  lemma InnerLength<T>(group: seq<Tensor<T>>, axis: nat)
    requires axis >= 2
    ensures Length(Inner(group), axis) == Length(group, axis) + if group == [] then 1 else 0
  {
    if group == [] {
      assert Extents(Inner(group), axis) == [1] && [1][..0] == [];
    }
  }

  // ----- when nested and flat calls agree

  /** Along the first two axes nothing is the concatenation of no arrays. */
  lemma NothingFromNone<T>(axis: nat)
    requires axis < 2
    ensures IsJoined<T>([], axis, Nothing())
  {
    NothingIsValid<T>();
    assert JoinsAt<T>([], axis, Nothing(), [0]);
  }

  lemma PartsOfGroups<T>(groups: seq<seq<Tensor<T>>>, axis: nat, parts: seq<Tensor<T>>, r: Tensor<T>)
    requires axis < 2 && IsNested(groups, axis, parts, r)
    ensures forall g: nat | g < |groups| :: IsJoined(groups[g], axis, parts[g])
  {
    forall g: nat | g < |groups| ensures IsJoined(groups[g], axis, parts[g]) {
      assert IsJoined(Filled(groups)[g], axis, parts[g]);
      if groups[g] == [] {
        NothingIsValid<T>();
        SingleJoined<T>(Nothing(), axis);
        JoinedUnique([Nothing()], axis, Nothing(), parts[g]);
        NothingFromNone<T>(axis);
      }
    }
  }

  lemma OnlyNothing<T>(groups: seq<seq<Tensor<T>>>, axis: nat, parts: seq<Tensor<T>>, r: Tensor<T>)
    requires axis < 2 && groups != [] && IsNested(groups, axis, parts, r) && Flat(groups) == []
    ensures r == Nothing()
  {
    PartsOfGroups(groups, axis, parts, r);
    JoinGroups(groups, parts, axis, r, |groups|);
    assert groups[..|groups|] == groups && Flat(groups) + parts[|groups|..] == [];
    JoinedByStarts([], axis, r);
    NestedJoins(groups, axis, parts, r);
    NoMembers(Filled(groups));
    assert Filled(groups)[0] != [];
    var first := Flat(Filled(groups))[0];
    FilledMember(groups, first);
    NothingIsValid<T>();
    forall a: nat ensures Extent(r.dims, a) == Extent(Nothing<T>().dims, a) {
      if a != axis {
        SliceKeepsExtents(Flat(Filled(groups)), axis, r, 0, a);
      }
    }
    CanonicalUnique(r.dims, Nothing<T>().dims);
  }

  /** The outcome of concatenating all members in one call. */
  ghost predicate IsFlat<T>(groups: seq<seq<Tensor<T>>>, axis: nat, r: Result<Tensor<T>, nat>) {
    if Flat(groups) == [] then r == Ok(Nothing())
    else (r.Ok? <==> Compatible(Flat(groups), axis)) && (r.Ok? ==> IsJoined(Flat(groups), axis, r.value))
  }

  /** Both fail, or both give the same array. */
  predicate Agree<T(==)>(nested: Result<T, nat>, flat: Result<T, nat>) {
    nested.Ok? == flat.Ok? && (nested.Ok? ==> nested.value == flat.value)
  }

  /** Every inner call has an argument, or there is only one, or the members do not fit, or nothing fits among them. */
  ghost predicate NestingKeeps<T>(groups: seq<seq<Tensor<T>>>, axis: nat) {
    || !SomeEmpty(groups) || |groups| == 1 || !Compatible(Flat(groups), axis)
    || (axis < 2 && AllFit(Flat(groups), axis))
  }

  lemma WithoutEmpty<T>(groups: seq<seq<Tensor<T>>>, axis: nat, parts: seq<Tensor<T>>, nested: Tensor<T>, flat: Tensor<T>)
    requires groups != [] && IsNested(groups, axis, parts, nested) && IsFlat(groups, axis, Ok(flat))
    requires !SomeEmpty(groups) || (axis < 2 && Flat(groups) != [])
    ensures nested == flat
  {
    if !SomeEmpty(groups) {
      assert Filled(groups) == groups && groups[0] != [];
      NoMembers(groups);
    } else {
      PartsOfGroups(groups, axis, parts, nested);
    }
    NestedIsFlat(groups, parts, axis, nested, flat);
  }

  /** One group of no members. */
  lemma OneEmpty<T>(groups: seq<seq<Tensor<T>>>, axis: nat, parts: seq<Tensor<T>>, nested: Tensor<T>)
    requires |groups| == 1 && groups[0] == [] && IsNested(groups, axis, parts, nested)
    ensures Flat(groups) == [] && nested == Nothing()
  {
    NoMembers(groups);
    NothingIsValid<T>();
    SingleJoined<T>(Nothing(), axis);
    assert IsJoined(Filled(groups)[0], axis, parts[0]);
    JoinedUnique([Nothing()], axis, Nothing(), parts[0]);
    assert parts == [Nothing()];
    JoinedUnique(parts, axis, Nothing(), nested);
  }

  /** Past the first two axes the arrays of empty groups make the result longer. */
  lemma Longer<T>(groups: seq<seq<Tensor<T>>>, axis: nat, parts: seq<Tensor<T>>, nested: Tensor<T>, flat: Tensor<T>)
    requires axis >= 2 && SomeEmpty(groups) && |groups| > 1
    requires IsNested(groups, axis, parts, nested) && IsFlat(groups, axis, Ok(flat))
    ensures nested != flat
  {
    NestedJoins(groups, axis, parts, nested);
    JoinedByStarts(Flat(Filled(groups)), axis, nested);
    FilledLength(groups, axis);
    CountsEmpty(groups);
    if Flat(groups) == [] {
      NoMembers(groups);
      assert Extents(Flat(groups), axis) == [];
      assert Extent(flat.dims, axis) == 1;
    } else {
      JoinedByStarts(Flat(groups), axis, flat);
    }
  }

  /** When both succeed along one of the first two axes. */
  lemma SameWithin<T>(groups: seq<seq<Tensor<T>>>, axis: nat, parts: seq<Tensor<T>>, nested: Tensor<T>, flat: Tensor<T>)
    requires groups != [] && IsNested(groups, axis, parts, nested) && IsFlat(groups, axis, Ok(flat)) && axis < 2
    ensures nested == flat
  {
    if Flat(groups) == [] {
      OnlyNothing(groups, axis, parts, nested);
    } else {
      WithoutEmpty(groups, axis, parts, nested, flat);
    }
  }

  /** When both succeed along a later axis and an inner call has no arguments. */
  lemma SamePast<T>(groups: seq<seq<Tensor<T>>>, axis: nat, parts: seq<Tensor<T>>, nested: Tensor<T>, flat: Tensor<T>)
    requires IsNested(groups, axis, parts, nested) && IsFlat(groups, axis, Ok(flat)) && axis >= 2 && SomeEmpty(groups)
    ensures nested == flat <==> |groups| == 1
  {
    if |groups| == 1 {
      OneEmpty(groups, axis, parts, nested);
    } else {
      Longer(groups, axis, parts, nested, flat);
    }
  }

  /** When both succeed. */
  lemma SameExactly<T>(groups: seq<seq<Tensor<T>>>, axis: nat, parts: seq<Tensor<T>>, nested: Tensor<T>, flat: Tensor<T>)
    requires groups != [] && IsNested(groups, axis, parts, nested) && IsFlat(groups, axis, Ok(flat))
    ensures nested == flat <==> !SomeEmpty(groups) || |groups| == 1 || axis < 2
  {
    if axis < 2 {
      SameWithin(groups, axis, parts, nested, flat);
    } else if SomeEmpty(groups) {
      SamePast(groups, axis, parts, nested, flat);
    } else {
      WithoutEmpty(groups, axis, parts, nested, flat);
    }
  }

  lemma FlatSucceeds<T>(groups: seq<seq<Tensor<T>>>, axis: nat, flat: Result<Tensor<T>, nat>)
    requires IsFlat(groups, axis, flat)
    ensures flat.Ok? <==> Compatible(Flat(groups), axis)
  {
  }

  /** A single group takes part whatever its members are. */
  lemma OneGroupFits<T>(groups: seq<seq<Tensor<T>>>, axis: nat)
    requires |groups| == 1 && SomeEmpty(groups)
    ensures AllFit(Flat(groups), axis)
  {
    NoMembers(groups);
  }

  lemma AgreeExactly<T>(groups: seq<seq<Tensor<T>>>, axis: nat, parts: seq<Tensor<T>>,
                        nested: Result<Tensor<T>, nat>, flat: Result<Tensor<T>, nat>, compatible: bool, fits: bool)
    requires groups != [] && IsFlat(groups, axis, flat) && (flat.Ok? <==> compatible)
    requires nested.Ok? ==> IsNested(groups, axis, parts, nested.value)
    requires nested.Ok? <==> compatible && (SomeEmpty(groups) ==> fits)
    requires |groups| == 1 && SomeEmpty(groups) ==> fits
    ensures Agree(nested, flat) <==> !SomeEmpty(groups) || |groups| == 1 || !compatible || (axis < 2 && fits)
  {
    if nested.Ok? {
      SameExactly(groups, axis, parts, nested.value, flat.value);
    }
  }

  lemma MembersValid<T>(groups: seq<seq<Tensor<T>>>)
    requires forall g | 0 <= g < |groups| :: AllValid(groups[g])
    ensures AllValid(Flat(groups))
  {
    forall i | 0 <= i < |Flat(groups)| ensures Flat(groups)[i].Valid() {
      FlatMember(groups, Flat(groups)[i]);
    }
  }

  method Flatten<T>(groups: seq<seq<T>>) returns (flat: seq<T>)
    ensures flat == Flat(groups)
  {
    flat := [];
    for g := 0 to |groups|
      invariant flat == Flat(groups[..g])
    {
      FlatSnoc(groups, g);
      flat := flat + groups[g];
    }
    assert groups[..|groups|] == groups;
  }

  /**
   Concatenates each group and then the results, and all members at once.  The nested calls succeed
   exactly when the members are compatible, with a 0-by-0 array for every empty group; they agree with the
   flat call exactly when `NestingKeeps` holds.
   */
  method ConcatenateGroups<T(==)>(groups: seq<seq<Tensor<T>>>, axis: nat)
    returns (nested: Result<Tensor<T>, nat>, flat: Result<Tensor<T>, nat>)
    requires forall g | 0 <= g < |groups| :: AllValid(groups[g])
    ensures nested.Ok? <==>
            Compatible(Flat(groups), axis) && (SomeEmpty(groups) ==> AllFit(Flat(groups), axis))
    ensures groups != [] && nested.Ok? ==> IsJoined(Flat(Filled(groups)), axis, nested.value)
    ensures IsFlat(groups, axis, flat)
    ensures Agree(nested, flat) <==> NestingKeeps(groups, axis)
  {
    MembersValid(groups);
    FilledCompatible(groups, axis);
    ghost var parts;
    nested, parts := ConcatenateNested(groups, axis);
    var members := Flatten(groups);
    flat := Concatenate(members, axis);
    if groups != [] {
      FlatSucceeds(groups, axis, flat);
      if |groups| == 1 && SomeEmpty(groups) {
        OneGroupFits(groups, axis);
      }
      AgreeExactly(groups, axis, parts, nested, flat, Compatible(Flat(groups), axis), AllFit(Flat(groups), axis));
      if nested.Ok? {
        NestedJoins(groups, axis, parts, nested.value);
      }
    }
  }

  lemma FlatOfTwo<T>(a: seq<T>, b: seq<T>)
    ensures Flat([a, b]) == a + b
  {
    assert [a, b][..1] == [a] && [a][..0] == [];
    assert Flat([a]) == [] + a;
  }

  /** An inner call without arguments beside a single number: one call gives the number, nested calls fail. */
  method NothingAndNumber() returns (nested: Result<Tensor<int>, nat>, flat: Result<Tensor<int>, nat>)
    ensures nested.Err? && flat == Ok(Tensor([1, 1], [7]))
  {
    var number, groups := Tensor([1, 1], [7]), [[], [Tensor([1, 1], [7])]];
    Encode2(0, 0, 1, 1);
    FlatOfTwo([], [number]);
    assert Flat(groups) == [number] && groups[0] == [];
    assert Extent(number.dims, 1) == 1 && !FitsNothing(number, 0);
    nested, flat := ConcatenateGroups(groups, 0);
    assert number in Flat(groups);
    SingleJoined(number, 0);
    JoinedUnique([number], 0, number, flat.value);
  }

  /** Along the third axis nothing and nothing make two pages, and no arguments make none. */
  method NothingTwice() returns (nested: Result<Tensor<int>, nat>, flat: Result<Tensor<int>, nat>)
    ensures nested.Ok? && flat == Ok(Nothing()) && nested != flat
  {
    var groups: seq<seq<Tensor<int>>> := [[], []];
    FlatOfTwo<Tensor<int>>([], []);
    assert Flat(groups) == [] && groups[0] == [];
    nested, flat := ConcatenateGroups(groups, 2);
    assert !NestingKeeps(groups, 2);
  }
}
