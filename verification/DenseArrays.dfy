/**
 Dense arrays with copy-on-write storage.

 A `Buffer` is the shared allocation with its count of owners; a handle pairs a shape with a buffer.
 A `Family` is any collection of handles alive at once.  Cloning shares the buffer, the first write
 through a shared handle detaches it.  The abstract value of a family is what a reader could see, and
 every operation is specified on it as if clones were made eagerly: that is the refinement.
 */
module DenseArrays {
  import opened Shapes
  import opened MixedRadix
  import opened Results

  /** A shape as its constructor leaves it. */
  type ValidShape = s: Shape | s.Valid() ghost witness ScalarShape()

  ghost function ScalarShape(): (s: Shape)
    ensures s.Valid()
  {
    var s := Shape([1, 1], [1, 1], 1);
    ScalarProducts();
    assert forall k | 0 <= k <= 2 :: Product(s.dimensions[..k]) == 1;
    s
  }

  lemma ScalarProducts()
    ensures Product([1, 1]) == 1 && Product([1, 1][..0]) == Product([1, 1][..1]) == Product([1, 1][..2]) == 1
  {
    assert [1, 1][..0] == [] && [1, 1][..1] == [1] && [1, 1][..2] == [1, 1];
    Singleton(0, 1);
    Encode2(0, 0, 1, 1);
  }

  class Buffer<T> {
    var items: seq<T>
    var owners: nat

    constructor (items: seq<T>)
      ensures this.items == items && owners == 1
    {
      this.items, owners := items, 1;
    }
  }

  /** A `DenseArray` value: its shape and the buffer it owns a share of. */
  datatype Handle<T> = Handle(shape: ValidShape, data: Buffer<T>)

  /** The abstract value of a handle: an array with its own elements. */
  datatype Eager<T> = Eager(shape: ValidShape, items: seq<T>)

  /** How many of the handles own a share of `b`. */
  ghost function Owners<T>(hs: seq<Handle<T>>, b: Buffer<T>): nat {
    if hs == [] then 0 else
      var n := |hs| - 1;
      Owners(hs[..n], b) + if hs[n].data == b then 1 else 0
  }

  lemma {:induction false} OwnersConcat<T>(s: seq<Handle<T>>, t: seq<Handle<T>>, b: Buffer<T>)
    ensures Owners(s + t, b) == Owners(s, b) + Owners(t, b)
  {
    if t == [] {
      assert s + t == s;
    } else {
      var n := |t| - 1;
      OwnersConcat(s, t[..n], b);
      assert (s + t)[..|s| + n] == s + t[..n];
    }
  }

  lemma OwnersOfOne<T>(h: Handle<T>, b: Buffer<T>)
    ensures Owners([h], b) == if h.data == b then 1 else 0
  {
    assert [h][..0] == [];
  }

  /** Splitting the count at one handle. */
  lemma OwnersAt<T>(hs: seq<Handle<T>>, i: nat, b: Buffer<T>)
    requires i < |hs|
    ensures Owners(hs, b) ==
            Owners(hs[..i], b) + (if hs[i].data == b then 1 else 0) + Owners(hs[i + 1..], b)
  {
    assert hs == hs[..i] + [hs[i]] + hs[i + 1..];
    OwnersConcat(hs[..i] + [hs[i]], hs[i + 1..], b);
    OwnersConcat(hs[..i], [hs[i]], b);
    OwnersOfOne(hs[i], b);
  }

  lemma {:induction false} OwnerCounted<T>(hs: seq<Handle<T>>, j: nat)
    requires j < |hs|
    ensures Owners(hs, hs[j].data) >= 1
  {
    OwnersAt(hs, j, hs[j].data);
  }

  /** A buffer with a single owner is seen by no other handle. */
  lemma SoleOwner<T>(hs: seq<Handle<T>>, i: nat, j: nat)
    requires i < |hs| && j < |hs| && i != j && Owners(hs, hs[i].data) == 1
    ensures hs[j].data != hs[i].data
  {
    var b := hs[i].data;
    OwnersAt(hs, i, b);
    if j < i {
      if hs[j].data == b { OwnerCounted(hs[..i], j); }
    } else {
      if hs[j].data == b { OwnerCounted(hs[i + 1..], j - i - 1); }
    }
  }

  lemma OwnersUpdate<T>(hs: seq<Handle<T>>, i: nat, h: Handle<T>, b: Buffer<T>)
    requires i < |hs|
    ensures Owners(hs[i := h], b) ==
            Owners(hs, b) - (if hs[i].data == b then 1 else 0) + if h.data == b then 1 else 0
  {
    var us := hs[i := h];
    OwnersAt(hs, i, b);
    OwnersAt(us, i, b);
    assert us[..i] == hs[..i] && us[i + 1..] == hs[i + 1..];
  }

  lemma OwnersRemoved<T>(hs: seq<Handle<T>>, i: nat, j: nat)
    requires i < |hs| && j < |hs| - 1
    ensures var rest, k := hs[..i] + hs[i + 1..], if j < i then j else j + 1;
            && rest[j] == hs[k]
            && Owners(rest, hs[k].data) == Owners(hs, hs[k].data) - if hs[i].data == hs[k].data then 1 else 0
  {
    OwnersWithout(hs, i, hs[if j < i then j else j + 1].data);
  }

  lemma OwnersWithout<T>(hs: seq<Handle<T>>, i: nat, b: Buffer<T>)
    requires i < |hs|
    ensures Owners(hs[..i] + hs[i + 1..], b) == Owners(hs, b) - if hs[i].data == b then 1 else 0
  {
    OwnersAt(hs, i, b);
    OwnersConcat(hs[..i], hs[i + 1..], b);
  }

  lemma {:induction false} OwnersAbsent<T>(hs: seq<Handle<T>>, b: Buffer<T>)
    requires forall j | 0 <= j < |hs| :: hs[j].data != b
    ensures Owners(hs, b) == 0
  {
    if hs != [] {
      OwnersAbsent(hs[..|hs| - 1], b);
    }
  }

  /** The offset that a subscript list addresses, if it addresses one. */
  ghost function Addressed(s: ValidShape, subs: seq<nat>): Option<nat> {
    if |subs| > 0 && CollapseFits(s.dimensions, |subs|) && ValidSubscripts(subs, Effective(s.dimensions, |subs|))
    then Some(OffsetOf(s.dimensions, subs))
    else None
  }

  /** A subscript list addresses an element when it is in range, and then the one at the sum over the strides. */
  lemma AddressedIsAddress(s: ValidShape, subs: seq<nat>)
    ensures Addressed(s, subs).Some? <==> subs != [] && CollapseFits(s.dimensions, |subs|) && InRange(subs, s.dimensions)
    ensures Addressed(s, subs).Some? ==> IsAddress(s, subs, Addressed(s, subs).value)
  {
    if subs != [] {
      EffectiveRange(s.dimensions, subs);
      if Addressed(s, subs).Some? {
        OffsetIsAddress(s, subs);
      }
    }
  }

  /** Overwrites the elements that have a new value. */
  function Overwritten<T>(items: seq<T>, values: seq<T>): (r: seq<T>)
    ensures |r| == |items|
  {
    if |values| <= |items| then values + items[|values|..] else values[..|items|]
  }

  lemma OverwrittenAt<T>(items: seq<T>, values: seq<T>)
    ensures forall k | 0 <= k < |items| :: Overwritten(items, values)[k] == if k < |values| then values[k] else items[k]
  {
  }

  class Family<T> {
    var handles: seq<Handle<T>>

    ghost function Buffers(): set<Buffer<T>>
      reads this
    {
      set i | 0 <= i < |handles| :: handles[i].data
    }

    ghost predicate Valid()
      reads this, Buffers()
    {
      forall i | 0 <= i < |handles| ::
        && handles[i].data.owners == Owners(handles, handles[i].data)
        && |handles[i].data.items| == handles[i].shape.numel
    }

    /** What readers see. */
    ghost function Contents(): seq<Eager<T>>
      reads this, Buffers()
    {
      seq(|handles|, i requires 0 <= i < |handles| reads this, Buffers() =>
        Eager(handles[i].shape, handles[i].data.items))
    }

    constructor ()
      ensures Valid() && handles == [] && Contents() == []
    {
      handles := [];
    }

    /** Gives handle `i` sole ownership of its elements, copying them when they are shared. */
    method MakeMut(i: nat)
      requires Valid() && i < |handles|
      modifies this, handles[i].data
      ensures fresh(Buffers() - old(Buffers()))
      ensures Valid() && |handles| == old(|handles|) && Contents() == old(Contents())
      ensures handles[i].shape == old(handles[i].shape) && handles[i].data.owners == 1
      ensures forall j | 0 <= j < |handles| && j != i ::
                handles[j] == old(handles[j]) && handles[j].data != handles[i].data
      ensures if old(handles[i].data.owners) == 1 then handles == old(handles) else fresh(handles[i].data)
    {
      if handles[i].data.owners == 1 {
        forall j | 0 <= j < |handles| && j != i ensures handles[j].data != handles[i].data {
          SoleOwner(handles, i, j);
        }
      } else {
        Detach(i);
      }
    }

    /** Moves handle `i` to a copy of its elements. */
    method Detach(i: nat)
      requires Valid() && i < |handles|
      modifies this, handles[i].data
      ensures |handles| == old(|handles|) && fresh(handles[i].data) && handles[i].data.owners == 1
      ensures Valid() && handles == old(handles)[i := old(handles[i]).(data := handles[i].data)]
      ensures Contents() == old(Contents())
    {
      var shared := handles[i].data;
      var own := new Buffer(shared.items);
      ghost var before := handles;
      OwnersAbsent(before, own);
      OwnerCounted(before, i);
      shared.owners := shared.owners - 1;
      handles := handles[i := handles[i].(data := own)];
      forall j | 0 <= j < |handles| ensures handles[j].data.owners == Owners(handles, handles[j].data) {
        OwnersUpdate(before, i, handles[i], handles[j].data);
      }
    }

    /** Adds an array built from a shape and its elements in column-major order. */
    method FromVec(shape: ValidShape, items: seq<T>) returns (r: Result<(), ArrayError>)
      requires Valid()
      modifies this
      ensures fresh(Buffers() - old(Buffers()))
      ensures Valid()
      ensures r == if |items| == shape.numel then Ok(()) else Err(DataLengthMismatch(shape.numel, |items|))
      ensures Contents() == if r.Ok? then old(Contents()) + [Eager(shape, items)] else old(Contents())
    {
      if |items| != shape.numel {
        return Err(DataLengthMismatch(shape.numel, |items|));
      }
      var data := new Buffer(items);
      Append(Handle(shape, data));
      return Ok(());
    }

    /** Adds a handle to a buffer whose owner count already includes it. */
    method Append(h: Handle<T>)
      requires Valid() && |h.data.items| == h.shape.numel
      requires h.data.owners == 1 && forall j | 0 <= j < |handles| :: handles[j].data != h.data
      modifies this
      ensures Valid() && handles == old(handles) + [h]
      ensures Contents() == old(Contents()) + [Eager(h.shape, h.data.items)]
    {
      ghost var before := handles;
      OwnersAbsent(before, h.data);
      handles := handles + [h];
      forall j | 0 <= j < |handles| ensures handles[j].data.owners == Owners(handles, handles[j].data) {
        OwnersConcat(before, [h], handles[j].data);
        OwnersOfOne(h, handles[j].data);
      }
    }

    /** Shares the buffer of handle `i`. */
    method Clone(i: nat)
      requires Valid() && i < |handles|
      modifies this, handles[i].data
      ensures fresh(Buffers() - old(Buffers()))
      ensures Valid() && handles == old(handles) + [old(handles[i])]
      ensures Contents() == old(Contents()) + [old(Contents()[i])]
    {
      ghost var before := handles;
      var h := handles[i];
      h.data.owners := h.data.owners + 1;
      handles := handles + [h];
      forall j | 0 <= j < |handles| ensures handles[j].data.owners == Owners(handles, handles[j].data) {
        OwnersConcat(before, [h], handles[j].data);
        OwnersOfOne(h, handles[j].data);
      }
    }

    /** Adds an independent copy of handle `i`. */
    method DeepCopy(i: nat)
      requires Valid() && i < |handles|
      modifies this
      ensures fresh(Buffers() - old(Buffers()))
      ensures Valid() && |handles| == old(|handles|) + 1
      ensures handles[..|handles| - 1] == old(handles) && fresh(handles[|handles| - 1].data)
      ensures Contents() == old(Contents()) + [old(Contents()[i])]
    {
      var data := new Buffer(handles[i].data.items);
      Append(Handle(handles[i].shape, data));
    }

    /** Ends the life of handle `i`. */
    method Drop(i: nat)
      requires Valid() && i < |handles|
      modifies this, handles[i].data
      ensures Buffers() <= old(Buffers())
      ensures Valid() && Contents() == old(Contents()[..i] + Contents()[i + 1..])
    {
      Release(i);
      assert forall j | 0 <= j < |handles| :: handles[j] == old(handles)[if j < i then j else j + 1];
    }

    /** Removes handle `i` and gives up its share of the buffer. */
    method Release(i: nat)
      requires Valid() && i < |handles|
      modifies this`handles, handles[i].data`owners
      ensures Valid() && handles == old(handles[..i] + handles[i + 1..])
    {
      ghost var before := handles;
      OwnerCounted(before, i);
      handles[i].data.owners := handles[i].data.owners - 1;
      handles := handles[..i] + handles[i + 1..];
      forall j | 0 <= j < |handles| ensures handles[j].data.owners == Owners(handles, handles[j].data) {
        OwnersRemoved(before, i, j);
      }
    }

    method ReadLinear(i: nat, index: nat) returns (r: Result<T, ArrayError>)
      requires Valid() && i < |handles|
      ensures var a := Contents()[i];
              r == if 1 <= index <= a.shape.numel then Ok(a.items[index - 1])
                   else Err(LinearIndexOutOfBounds(index, a.shape.numel))
    {
      var offset := LinearOffset(handles[i].shape, index);
      if offset.Err? {
        return Err(offset.error);
      }
      return Ok(handles[i].data.items[offset.value]);
    }

    method FindOffset(i: nat, subs: seq<nat>) returns (r: Result<nat, ArrayError>)
      requires Valid() && i < |handles|
      ensures r.Ok? <==> Addressed(handles[i].shape, subs).Some?
      ensures r.Ok? ==> r.value == Addressed(handles[i].shape, subs).value && r.value < |handles[i].data.items|
      ensures r.Err? ==> IsSubscriptError(handles[i].shape, subs, r.error)
    {
      var s := handles[i].shape;
      r := OffsetForSubscripts(s, subs);
      AddressedOffset(s, subs);
    }

    method ReadSubscripts(i: nat, subs: seq<nat>) returns (r: Result<T, ArrayError>)
      requires Valid() && i < |handles|
      ensures var a, offset := Contents()[i], Addressed(handles[i].shape, subs);
              if offset.Some? then offset.value < |a.items| && r == Ok(a.items[offset.value])
              else r.Err? && IsSubscriptError(a.shape, subs, r.error)
    {
      var offset := FindOffset(i, subs);
      if offset.Err? {
        return Err(offset.error);
      }
      return Ok(handles[i].data.items[offset.value]);
    }

    /** Writes one element, detaching shared storage first. */
    method WriteOffset(i: nat, offset: nat, value: T)
      requires Valid() && i < |handles| && offset < |handles[i].data.items|
      modifies this, handles[i].data
      ensures fresh(Buffers() - old(Buffers()))
      ensures Valid()
      ensures var a := old(Contents()[i]);
              Contents() == old(Contents())[i := a.(items := a.items[offset := value])]
    {
      MakeMut(i);
      handles[i].data.items := handles[i].data.items[offset := value];
    }

    /** Writes at a linear index.  A failed index leaves every handle on the buffer it had. */
    method WriteLinear(i: nat, index: nat, value: T) returns (r: Result<(), ArrayError>)
      requires Valid() && i < |handles|
      modifies this, handles[i].data
      ensures fresh(Buffers() - old(Buffers()))
      ensures Valid()
      ensures var a := old(Contents()[i]);
              if 1 <= index <= a.shape.numel
              then r.Ok? && Contents() == old(Contents())[i := a.(items := a.items[index - 1 := value])]
              else r == Err(LinearIndexOutOfBounds(index, a.shape.numel)) && Contents() == old(Contents())
      ensures r.Err? ==> handles == old(handles) && unchanged(handles[i].data)
    {
      var offset := LinearOffset(handles[i].shape, index);
      if offset.Err? {
        return Err(offset.error);
      }
      WriteOffset(i, offset.value, value);
      return Ok(());
    }

    /** Writes at a subscript list.  Failed subscripts leave every handle on the buffer it had. */
    method WriteSubscripts(i: nat, subs: seq<nat>, value: T) returns (r: Result<(), ArrayError>)
      requires Valid() && i < |handles|
      modifies this, handles[i].data
      ensures fresh(Buffers() - old(Buffers()))
      ensures Valid()
      ensures var a, offset := old(Contents()[i]), Addressed(old(handles[i].shape), subs);
              if offset.Some?
              then offset.value < |a.items| && r.Ok?
                   && Contents() == old(Contents())[i := a.(items := a.items[offset.value := value])]
              else r.Err? && IsSubscriptError(a.shape, subs, r.error) && Contents() == old(Contents())
      ensures r.Err? ==> handles == old(handles) && unchanged(handles[i].data)
    {
      var offset := FindOffset(i, subs);
      r := WriteIfFound(i, offset, value, Addressed(handles[i].shape, subs));
    }

    method WriteIfFound(i: nat, offset: Result<nat, ArrayError>, value: T, ghost at: Option<nat>) returns (r: Result<(), ArrayError>)
      requires Valid() && i < |handles| && (offset.Ok? <==> at.Some?)
      requires offset.Ok? ==> offset.value == at.value && offset.value < |handles[i].data.items|
      modifies this, handles[i].data
      ensures fresh(Buffers() - old(Buffers()))
      ensures Valid()
      ensures var a := old(Contents()[i]);
              if at.Some?
              then at.value < |a.items| && r.Ok?
                   && Contents() == old(Contents())[i := a.(items := a.items[at.value := value])]
              else r == Err(offset.error) && Contents() == old(Contents())
      ensures r.Err? ==> handles == old(handles) && unchanged(handles[i].data)
    {
      if offset.Err? {
        return Err(offset.error);
      }
      WriteOffset(i, offset.value, value);
      return Ok(());
    }

    /** Gives one handle new elements, detaching shared storage first. */
    method Replace(i: nat, items: seq<T>)
      requires Valid() && i < |handles| && |items| == |handles[i].data.items|
      modifies this, handles[i].data
      ensures fresh(Buffers() - old(Buffers()))
      ensures Valid()
      ensures Contents() == old(Contents())[i := old(Contents()[i]).(items := items)]
    {
      MakeMut(i);
      handles[i].data.items := items;
    }

    /** Writes through the mutable slice, which always detaches.  Where there is a value it is read back afterwards. */
    method WriteSlice(i: nat, values: seq<T>)
      requires Valid() && i < |handles|
      modifies this, handles[i].data
      ensures fresh(Buffers() - old(Buffers()))
      ensures Valid()
      ensures |Contents()| == old(|Contents()|)
      ensures var items, now := old(Contents()[i].items), Contents()[i].items;
              && |now| == |items|
              && forall k | 0 <= k < |items| :: now[k] == if k < |values| then values[k] else items[k]
      ensures var a := old(Contents()[i]);
              Contents() == old(Contents())[i := a.(items := Overwritten(a.items, values))]
    {
      OverwrittenAt(Contents()[i].items, values);
      Replace(i, Overwritten(handles[i].data.items, values));
    }
  }

  // ----- whole runs

  datatype Op<T> =
    | Create(shape: ValidShape, items: seq<T>)
    | CloneOf(i: nat)
    | CopyOf(i: nat)
    | DropOf(i: nat)
    | GetAt(i: nat, index: nat)
    | GetSubscripts(i: nat, subs: seq<nat>)
    | SetAt(i: nat, index: nat, value: T)
    | SetSubscripts(i: nat, subs: seq<nat>, value: T)
    | SetSlice(i: nat, values: seq<T>)

  /** What the program that issued an operation gets to see. */
  datatype Outcome<T> = Done | Got(value: T) | Failed

  /** The reference machine: every handle has its own elements, so cloning copies them. */
  ghost function EagerWrite<T>(s: seq<Eager<T>>, i: nat, offset: Option<nat>, value: T): (seq<Eager<T>>, Outcome<T>)
    requires i < |s|
  {
    if offset.Some? && offset.value < |s[i].items|
    then (s[i := s[i].(items := s[i].items[offset.value := value])], Done)
    else (s, Failed)
  }

  ghost function EagerRead<T>(s: seq<Eager<T>>, i: nat, offset: Option<nat>): Outcome<T>
    requires i < |s|
  {
    if offset.Some? && offset.value < |s[i].items| then Got(s[i].items[offset.value]) else Failed
  }

  ghost function LinearAddress(s: ValidShape, index: nat): Option<nat> {
    if 1 <= index <= s.numel then Some(index - 1) else None
  }

  ghost function EagerStep<T>(s: seq<Eager<T>>, op: Op<T>): (seq<Eager<T>>, Outcome<T>) {
    match op
    case Create(shape, items) =>
      if |items| == shape.numel then (s + [Eager(shape, items)], Done) else (s, Failed)
    case CloneOf(i) => if i < |s| then (s + [s[i]], Done) else (s, Failed)
    case CopyOf(i) => if i < |s| then (s + [s[i]], Done) else (s, Failed)
    case DropOf(i) => if i < |s| then (s[..i] + s[i + 1..], Done) else (s, Failed)
    case GetAt(i, index) =>
      (s, if i < |s| then EagerRead(s, i, LinearAddress(s[i].shape, index)) else Failed)
    case GetSubscripts(i, subs) =>
      (s, if i < |s| then EagerRead(s, i, Addressed(s[i].shape, subs)) else Failed)
    case SetAt(i, index, value) =>
      if i < |s| then EagerWrite(s, i, LinearAddress(s[i].shape, index), value) else (s, Failed)
    case SetSubscripts(i, subs, value) =>
      if i < |s| then EagerWrite(s, i, Addressed(s[i].shape, subs), value) else (s, Failed)
    case SetSlice(i, values) =>
      if i < |s| then (s[i := s[i].(items := Overwritten(s[i].items, values))], Done) else (s, Failed)
  }

  ghost function EagerRun<T>(s: seq<Eager<T>>, ops: seq<Op<T>>): (seq<Eager<T>>, seq<Outcome<T>>) {
    if ops == [] then (s, []) else
      var n := |ops| - 1;
      var (before, seen) := EagerRun(s, ops[..n]);
      var (after, outcome) := EagerStep(before, ops[n]);
      (after, seen + [outcome])
  }

  method StepStorage<T>(family: Family<T>, op: Op<T>) returns (outcome: Outcome<T>)
    requires family.Valid() && (op.Create? || op.CloneOf? || op.CopyOf? || op.DropOf?)
    modifies family, family.Buffers()
    ensures family.Valid() && fresh(family.Buffers() - old(family.Buffers()))
    ensures (family.Contents(), outcome) == EagerStep(old(family.Contents()), op)
  {
    if op.Create? {
      var r := family.FromVec(op.shape, op.items);
      return if r.Ok? then Done else Failed;
    }
    if op.i >= |family.handles| {
      return Failed;
    }
    match op {
      case CloneOf(i) => family.Clone(i);
      case CopyOf(i) => family.DeepCopy(i);
      case DropOf(i) => family.Drop(i);
    }
    outcome := Done;
  }

  method StepRead<T>(family: Family<T>, op: Op<T>) returns (outcome: Outcome<T>)
    requires family.Valid() && (op.GetAt? || op.GetSubscripts?)
    ensures (family.Contents(), outcome) == EagerStep(family.Contents(), op)
  {
    if op.i >= |family.handles| {
      return Failed;
    }
    var r;
    match op {
      case GetAt(i, index) => r := family.ReadLinear(i, index);
      case GetSubscripts(i, subs) => r := family.ReadSubscripts(i, subs);
    }
    outcome := if r.Ok? then Got(r.value) else Failed;
  }

  method StepWrite<T>(family: Family<T>, op: Op<T>) returns (outcome: Outcome<T>)
    requires family.Valid() && (op.SetAt? || op.SetSubscripts?)
    modifies family, family.Buffers()
    ensures family.Valid() && fresh(family.Buffers() - old(family.Buffers()))
    ensures (family.Contents(), outcome) == EagerStep(old(family.Contents()), op)
  {
    if op.i >= |family.handles| {
      return Failed;
    }
    var r;
    match op {
      case SetAt(i, index, value) => r := family.WriteLinear(i, index, value);
      case SetSubscripts(i, subs, value) => r := family.WriteSubscripts(i, subs, value);
    }
    outcome := if r.Ok? then Done else Failed;
  }

  method StepSlice<T>(family: Family<T>, op: Op<T>) returns (outcome: Outcome<T>)
    requires family.Valid() && op.SetSlice?
    modifies family, family.Buffers()
    ensures family.Valid() && fresh(family.Buffers() - old(family.Buffers()))
    ensures (family.Contents(), outcome) == EagerStep(old(family.Contents()), op)
  {
    if op.i >= |family.handles| {
      return Failed;
    }
    family.WriteSlice(op.i, op.values);
    outcome := Done;
  }

  /** One operation on shared storage shows and leaves what it would on private storage. */
  method Step<T>(family: Family<T>, op: Op<T>) returns (outcome: Outcome<T>)
    requires family.Valid()
    modifies family, family.Buffers()
    ensures family.Valid() && fresh(family.Buffers() - old(family.Buffers()))
    ensures (family.Contents(), outcome) == EagerStep(old(family.Contents()), op)
  {
    if op.GetAt? || op.GetSubscripts? {
      outcome := StepRead(family, op);
    } else if op.SetAt? || op.SetSubscripts? {
      outcome := StepWrite(family, op);
    } else if op.SetSlice? {
      outcome := StepSlice(family, op);
    } else {
      outcome := StepStorage(family, op);
    }
  }

  /**
   Copy-on-write refines eager copying: over any sequence of operations on any family of handles, every
   read and every failure is the one the eager machine shows, and so is the final state.
   */
  method Run<T>(family: Family<T>, ops: seq<Op<T>>) returns (outcomes: seq<Outcome<T>>)
    requires family.Valid()
    modifies family, family.Buffers()
    ensures family.Valid()
    ensures (family.Contents(), outcomes) == EagerRun(old(family.Contents()), ops)
  {
    outcomes := [];
    for k := 0 to |ops|
      invariant family.Valid() && fresh(family.Buffers() - old(family.Buffers()))
      invariant (family.Contents(), outcomes) == EagerRun(old(family.Contents()), ops[..k])
    {
      assert ops[..k + 1][..k] == ops[..k];
      var outcome := Step(family, ops[k]);
      outcomes := outcomes + [outcome];
    }
    assert ops[..|ops|] == ops;
  }

  lemma AddressedOffset(s: ValidShape, subs: seq<nat>)
    ensures Addressed(s, subs).Some? ==> Addressed(s, subs).value < s.numel
    ensures |subs| == 1 ==>
              (Addressed(s, subs).Some? <==> LinearOffset(s, subs[0]).Ok?)
              && (Addressed(s, subs).Some? ==> Addressed(s, subs).value == LinearOffset(s, subs[0]).value)
  {
    if Addressed(s, subs).Some? {
      OffsetInRange(s.dimensions, subs);
    }
    if |subs| == 1 && LinearOffset(s, subs[0]).Ok? {
      assert Effective(s.dimensions, 1) == [s.numel] && ZeroBased(subs) == [subs[0] - 1];
      Singleton(subs[0] - 1, s.numel);
    }
  }
}
