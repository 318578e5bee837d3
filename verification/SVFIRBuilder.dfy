/** Offsets of GEP instructions and the stores that initialise a global, both on flattened types. */
module SVFIRBuilder {
  import opened Concatenation
  import opened TypeFlattening
  import opened Wrappers

  // ----- sub-objects -----

  // The flattened list that indices refer to: with arrays modelled every element counts,
  // otherwise an array is its first element.
  function Flat(t: Type, modelArrays: bool): seq<Type> {
    if modelArrays then Elems(t) else FieldTypes(t)
  }

  function MemberStart(t: Type, i: nat, modelArrays: bool): nat
    requires i < MemberCount(t)
  {
    if modelArrays then Start(Blocks(t), i)
    else if t.Struct? then Start(FieldBlocks(t), i)
    else 0
  }

  lemma MemberFlat(t: Type, i: nat, modelArrays: bool)
    requires i < MemberCount(t) && !IsEmptyArray(t)
    ensures LiesAt(Flat(t, modelArrays), MemberStart(t, i, modelArrays), Flat(Member(t, i), modelArrays))
  {
    if modelArrays {
      BlockAt(Blocks(t), i);
    } else if t.Struct? {
      BlockAt(FieldBlocks(t), i);
    }
  }

  ghost predicate InBounds(t: Type, path: seq<nat>)
    decreases path
  {
    path != [] ==> !IsEmptyArray(t) && path[0] < MemberCount(t) && InBounds(Member(t, path[0]), path[1..])
  }

  function SubType(t: Type, path: seq<nat>): Type
    requires InBounds(t, path)
    decreases path
  {
    if path == [] then t else SubType(Member(t, path[0]), path[1..])
  }

  function Offset(t: Type, path: seq<nat>, modelArrays: bool): nat
    requires InBounds(t, path)
    decreases path
  {
    if path == [] then 0
    else MemberStart(t, path[0], modelArrays) + Offset(Member(t, path[0]), path[1..], modelArrays)
  }

  // An in-bounds path leads to the start of the flattened block of the object it names.
  lemma {:induction false} SubObjectSlice(t: Type, path: seq<nat>, modelArrays: bool)
    requires InBounds(t, path)
    ensures LiesAt(Flat(t, modelArrays), Offset(t, path, modelArrays), Flat(SubType(t, path), modelArrays))
    decreases path
  {
    if path != [] {
      var member := Member(t, path[0]);
      MemberFlat(t, path[0], modelArrays);
      SubObjectSlice(member, path[1..], modelArrays);
      LiesThrough(Flat(t, modelArrays), MemberStart(t, path[0], modelArrays), Flat(member, modelArrays),
                  Offset(member, path[1..], modelArrays), Flat(SubType(t, path), modelArrays));
    }
  }

  // ----- leaves -----

  // What counts as one flattened element.
  predicate IsLeaf(t: Type) {
    t.Scalar? || IsEmptyArray(t)
  }

  // The path to the k-th flattened element.
  function LeafPath(t: Type, k: nat): seq<nat>
    requires k < |Elems(t)|
  {
    if IsLeaf(t) then []
    else
      var i := BlockOf(Blocks(t), k);
      [i] + LeafPath(Member(t, i), k - Start(Blocks(t), i))
  }

  ghost predicate LeadsToLeaf(t: Type, path: seq<nat>, k: nat) {
    InBounds(t, path) && IsLeaf(SubType(t, path)) && Offset(t, path, true) == k
  }

  lemma {:induction false} LeafPathLeads(t: Type, k: nat)
    requires k < |Elems(t)|
    ensures LeadsToLeaf(t, LeafPath(t, k), k)
  {
    if !IsLeaf(t) {
      var i := BlockOf(Blocks(t), k);
      var j := k - Start(Blocks(t), i);
      LeafPathIs(t, k);
      LeafPathLeads(Member(t, i), j);
      LeadsThrough(t, i, LeafPath(Member(t, i), j), j);
    }
  }

  lemma LeafPathIs(t: Type, k: nat)
    requires !IsLeaf(t) && k < |Elems(t)|
    ensures k < |Concat(Blocks(t))| && BlockOf(Blocks(t), k) < MemberCount(t)
    ensures var i := BlockOf(Blocks(t), k); var j := k - Start(Blocks(t), i);
      j < |Elems(Member(t, i))| && LeafPath(t, k) == [i] + LeafPath(Member(t, i), j)
  {
  }

  lemma LeadsThrough(t: Type, i: nat, rest: seq<nat>, j: nat)
    requires !IsLeaf(t) && i < MemberCount(t) && LeadsToLeaf(Member(t, i), rest, j)
    ensures LeadsToLeaf(t, [i] + rest, Start(Blocks(t), i) + j)
  {
    assert ([i] + rest)[1..] == rest;
  }

  lemma LeafIsInside(t: Type, path: seq<nat>, k: nat)
    requires LeadsToLeaf(t, path, k)
    ensures k < |Elems(t)|
  {
    SubObjectSlice(t, path, true);
  }

  lemma LeadsOn(t: Type, path: seq<nat>, k: nat)
    requires LeadsToLeaf(t, path, k) && path != []
    ensures !IsLeaf(t) && path[0] < MemberCount(t) && Start(Blocks(t), path[0]) <= k
    ensures LeadsToLeaf(Member(t, path[0]), path[1..], k - Start(Blocks(t), path[0]))
  {
  }

  lemma {:induction false} LeafPathUnique(t: Type, path: seq<nat>, k: nat)
    requires LeadsToLeaf(t, path, k)
    ensures k < |Elems(t)| && LeafPath(t, k) == path
    decreases path
  {
    LeafIsInside(t, path, k);
    if path == [] {
      assert LeafPath(t, k) == [];
    } else {
      LeadsOn(t, path, k);
      var i := path[0];
      var member, rest, from := Member(t, i), path[1..], k - Start(Blocks(t), i);
      LeafPathUnique(member, rest, from);
      LeafPathStep(t, k, i);
      assert LeafPath(t, k) == [i] + rest;
    }
  }

  lemma LeafPathStep(t: Type, k: nat, i: nat)
    requires !IsLeaf(t) && k < |Elems(t)| && i < MemberCount(t)
    requires Start(Blocks(t), i) <= k < Start(Blocks(t), i) + |Elems(Member(t, i))|
    ensures LeafPath(t, k) == [i] + LeafPath(Member(t, i), k - Start(Blocks(t), i))
  {
    BlockOfElement(t, k, i);
    LeafPathIs(t, k);
  }

  lemma BlockOfElement(t: Type, k: nat, i: nat)
    requires !IsLeaf(t) && k < |Elems(t)| && i < MemberCount(t)
    requires Start(Blocks(t), i) <= k < Start(Blocks(t), i) + |Elems(Member(t, i))|
    ensures k < |Concat(Blocks(t))| && BlockOf(Blocks(t), k) == i
  {
    BlockIsUnique(Blocks(t), k, i);
  }

  ghost predicate HasLeaf(t: Type, k: nat) {
    exists path :: LeadsToLeaf(t, path, k)
  }

  // Leaf paths map one to one onto the flattened indices.
  lemma LeafPathsAreIndices(t: Type)
    ensures forall k: nat {:trigger HasLeaf(t, k)} :: HasLeaf(t, k) <==> k < |Elems(t)|
    ensures forall p, q, k :: LeadsToLeaf(t, p, k) && LeadsToLeaf(t, q, k) ==> p == q
  {
    forall k: nat {:trigger HasLeaf(t, k)} ensures HasLeaf(t, k) <==> k < |Elems(t)| {
      if k < |Elems(t)| { LeafPathLeads(t, k); }
      if path :| LeadsToLeaf(t, path, k) { LeafPathUnique(t, path, k); }
    }
    forall p, q, k | LeadsToLeaf(t, p, k) && LeadsToLeaf(t, q, k) ensures p == q {
      LeafPathUnique(t, p, k);
      LeafPathUnique(t, q, k);
    }
  }

  // ----- offsets of GEP instructions -----

  // An operand of the instruction: the type it indexes, and its value if it is a constant.
  datatype GepStep = GepStep(ty: Type, index: Option<int>)

  // Array steps with an unknown or out-of-bounds index, and pointer steps, add nothing.
  function StepOffset(step: GepStep, modelArrays: bool): nat
    requires IsAllowed(step)
  {
    if step.ty.Scalar? || step.index.None? || (step.ty.Array? && step.ty.len <= U32(step.index.value)) then 0
    else if IsEmptyArray(step.ty) then 0
    else MemberStart(step.ty, U32(step.index.value), modelArrays)
  }

  // A pointer indexed by a variable.
  predicate HasVariantStep(steps: seq<GepStep>) {
    exists step :: step in steps && step.ty.Scalar? && step.ty.isPointer && step.index.None?
  }

  // What the index lookup asserts: a struct is indexed by one of its members, and an array
  // without elements by nothing but its dummy element.
  predicate IsAllowed(step: GepStep) {
    match step.ty
    case Scalar(_, _) => true
    case Struct(_, fields) => step.index.Some? && U32(step.index.value) < |fields|
    case Array(len, _) =>
      IsEmptyArray(step.ty) && step.index.Some? && U32(step.index.value) < len ==> U32(step.index.value) == 0
  }

  function GepOffset(steps: seq<GepStep>, modelArrays: bool): nat
    requires forall step | step in steps :: IsAllowed(step)
  {
    if steps == [] then 0 else StepOffset(steps[0], modelArrays) + GepOffset(steps[1..], modelArrays)
  }

  ghost predicate IsNarrow(path: seq<nat>) {
    forall i | 0 <= i < |path| :: path[i] < 0x1_0000_0000
  }

  // The operands that address a sub-object by constants.
  ghost function StepsOf(t: Type, path: seq<nat>): (r: seq<GepStep>)
    requires InBounds(t, path) && IsNarrow(path)
    ensures forall step | step in r :: IsAllowed(step) && !step.ty.Scalar?
    decreases path
  {
    if path == [] then [] else [GepStep(t, Some(path[0]))] + StepsOf(Member(t, path[0]), path[1..])
  }

  // The operands of an instruction: the index of the pointer itself comes first.
  ghost function GepOperands(ptr: GepStep, t: Type, path: seq<nat>): (r: seq<GepStep>)
    requires IsPointerStep(ptr) && InBounds(t, path) && IsNarrow(path)
    ensures forall step | step in r :: IsAllowed(step)
  {
    [ptr] + StepsOf(t, path)
  }

  predicate IsPointerStep(step: GepStep) {
    step.ty.Scalar? && step.ty.isPointer
  }

  // Behind any pointer index the summed offset of an in-bounds constant path is where the
  // addressed object starts, and only that first index can make the offset a variable one.
  lemma GepReachesSubObject(ptr: GepStep, t: Type, path: seq<nat>, modelArrays: bool)
    requires IsPointerStep(ptr) && InBounds(t, path) && IsNarrow(path)
    ensures var steps := GepOperands(ptr, t, path);
      && GepOffset(steps, modelArrays) == Offset(t, path, modelArrays)
      && LiesAt(Flat(t, modelArrays), GepOffset(steps, modelArrays), Flat(SubType(t, path), modelArrays))
      && (HasVariantStep(steps) <==> ptr.index.None?)
  {
    var steps := GepOperands(ptr, t, path);
    assert steps[0] == ptr && steps[1..] == StepsOf(t, path);
    assert ptr in steps;
    ConstantStepsOffset(t, path, modelArrays);
    SubObjectSlice(t, path, modelArrays);
  }

  lemma {:induction false} ConstantStepsOffset(t: Type, path: seq<nat>, modelArrays: bool)
    requires InBounds(t, path) && IsNarrow(path)
    ensures GepOffset(StepsOf(t, path), modelArrays) == Offset(t, path, modelArrays)
    decreases path
  {
    if path != [] {
      ConstantStepsOffset(Member(t, path[0]), path[1..], modelArrays);
      var steps := StepsOf(t, path);
      assert steps[0] == GepStep(t, Some(path[0])) && steps[1..] == StepsOf(Member(t, path[0]), path[1..]);
    }
  }

  // ----- initialisers -----

  datatype Kind = GlobalOrFunction | Expression | BlockAddress | Null | OtherData

  datatype Constant =
    | Single(id: nat, kind: Kind, scalar: Type)
    | Aggregate(ty: Type, operands: seq<Constant>)
    | DataSequence(ty: Type, elements: seq<Constant>)
    | ZeroOrUndef(ty: Type)

  // Edges out of or into the node of a constant; Expanded stands for what a constant
  // expression needs itself.
  datatype Edge = Store(src: nat, field: int) | CopyNull(dst: nat) | AddrConst(dst: nat) | Expanded(id: nat)

  function TypeOf(c: Constant): Type {
    if c.Single? then c.scalar else c.ty
  }

  // What a single value stored at a field adds.
  function LeafEdges(c: Constant, field: int): seq<Edge> {
    match c
    case Single(id, GlobalOrFunction, _) => [Store(id, field)]
    case Single(id, Expression, _) => [Expanded(id), Store(id, field)]
    case Single(id, BlockAddress, _) => [Expanded(id), AddrConst(id)]
    case Single(id, Null, _) => [Store(id, field)]
    case Single(id, OtherData, t) => [Store(id, field)] + if t.Scalar? && t.isPointer then [CopyNull(id)] else []
    case _ => []
  }

  function Operands(c: Constant): seq<Constant> {
    match c
    case Aggregate(_, operands) => operands
    case DataSequence(_, elements) => elements
    case _ => []
  }

  // Every operand of c has the type of its member.
  ghost predicate IsTyped(c: Constant) {
    match c
    case Single(_, _, scalar) => scalar.Scalar?
    case Aggregate(ty, operands) =>
      !IsLeaf(ty) && |operands| == MemberCount(ty) &&
      forall i | 0 <= i < |operands| :: TypeOf(operands[i]) == Member(ty, i) && IsTyped(operands[i])
    case DataSequence(ty, elements) =>
      ty.Array? && !IsLeaf(ty) && |elements| == MemberCount(ty) && ty.elem.Scalar? &&
      forall i | 0 <= i < |elements| :: elements[i].Single? && TypeOf(elements[i]) == ty.elem
    case ZeroOrUndef(ty) => !ty.Scalar?
  }

  // What initialises a flattened element: a scalar that is spelled out, or nothing.
  type Slot = Option<Constant>

  // Zero and undefined aggregates spell nothing out, and data sequences are passed over
  // unless constants are modelled.
  predicate IsSkipped(c: Constant, modelConsts: bool) {
    c.ZeroOrUndef? || (c.DataSequence? && !modelConsts)
  }

  // The scalars of c in order, one slot for every flattened element of its type.
  function Slots(c: Constant, modelConsts: bool): seq<Slot>
    decreases c, 1
  {
    if c.Single? then [Some(c)]
    else if IsSkipped(c, modelConsts) then seq(|Elems(TypeOf(c))|, _ => None)
    else Concat(SlotBlocks(c, modelConsts))
  }

  function SlotBlocks(c: Constant, modelConsts: bool): (r: seq<seq<Slot>>)
    decreases c, 0
    ensures |r| == |Operands(c)|
  {
    match c
    case Aggregate(_, operands) => seq(|operands|, i requires 0 <= i < |operands| => Slots(operands[i], modelConsts))
    case DataSequence(_, elements) => seq(|elements|, i requires 0 <= i < |elements| => Slots(elements[i], modelConsts))
    case _ => []
  }

  // An initialiser has one slot for every flattened element of its type, and member by
  // member they start at the same index.
  lemma {:induction false} SlotsMatchElems(c: Constant, modelConsts: bool)
    requires IsTyped(c)
    ensures |Slots(c, modelConsts)| == |Elems(TypeOf(c))|
    ensures !c.Single? && !IsSkipped(c, modelConsts) ==> SameSizes(SlotBlocks(c, modelConsts), Blocks(TypeOf(c)))
  {
    if !c.Single? && !IsSkipped(c, modelConsts) {
      var slots, blocks := SlotBlocks(c, modelConsts), Blocks(TypeOf(c));
      forall k | 0 <= k < |slots| ensures |slots[k]| == |blocks[k]| {
        SlotsMatchElems(Operands(c)[k], modelConsts);
      }
      SameConcat(slots, blocks);
    }
  }

  // The scalar that a path leads to, unless the path first meets something that is skipped.
  function Lookup(c: Constant, path: seq<nat>, modelConsts: bool): (slot: Slot)
    ensures slot.Some? ==> slot.value.Single?
    decreases path
  {
    if c.Single? then Some(c)
    else if IsSkipped(c, modelConsts) || path == [] || path[0] >= |Operands(c)| then None
    else Lookup(Operands(c)[path[0]], path[1..], modelConsts)
  }

  // The k-th slot is what lies at the k-th leaf path of the type.
  lemma {:induction false} SlotIsAtItsPath(c: Constant, modelConsts: bool, k: nat)
    requires IsTyped(c) && k < |Slots(c, modelConsts)|
    ensures k < |Elems(TypeOf(c))|
    ensures Slots(c, modelConsts)[k] == Lookup(c, LeafPath(TypeOf(c), k), modelConsts)
  {
    SlotsMatchElems(c, modelConsts);
    if !c.Single? && !IsSkipped(c, modelConsts) {
      var i, j := SameIndex(SlotBlocks(c, modelConsts), Blocks(TypeOf(c)), k);
      SlotThroughOperand(c, modelConsts, k, i, j);
      SlotIsAtItsPath(Operands(c)[i], modelConsts, j);
      LookupThrough(c, i, LeafPath(TypeOf(Operands(c)[i]), j), modelConsts);
    }
  }

  lemma LookupThrough(c: Constant, i: nat, rest: seq<nat>, modelConsts: bool)
    requires !c.Single? && !IsSkipped(c, modelConsts) && i < |Operands(c)|
    ensures Lookup(c, [i] + rest, modelConsts) == Lookup(Operands(c)[i], rest, modelConsts)
  {
    assert ([i] + rest)[1..] == rest;
  }

  // The k-th slot is the j-th of operand i, and the k-th leaf path goes through operand i.
  lemma SlotThroughOperand(c: Constant, modelConsts: bool, k: nat, i: nat, j: nat)
    requires IsTyped(c) && !c.Single? && k < |Elems(TypeOf(c))| && i < |Operands(c)|
    requires i < MemberCount(TypeOf(c)) && j < |Blocks(TypeOf(c))[i]| && Start(Blocks(TypeOf(c)), i) + j == k
    requires j < |SlotBlocks(c, modelConsts)[i]|
    ensures Operands(c)[i] < c && IsTyped(Operands(c)[i]) && TypeOf(Operands(c)[i]) == Member(TypeOf(c), i)
    ensures j < |Slots(Operands(c)[i], modelConsts)| && j < |Elems(Member(TypeOf(c), i))|
    ensures SlotBlocks(c, modelConsts)[i][j] == Slots(Operands(c)[i], modelConsts)[j]
    ensures LeafPath(TypeOf(c), k) == [i] + LeafPath(Member(TypeOf(c), i), j)
  {
    TypedOperand(c, i);
    SlotBlockIs(c, modelConsts, i);
    BlockIs(TypeOf(c), i);
    LeafPathStep(TypeOf(c), k, i);
  }

  lemma BlockIs(t: Type, i: nat)
    requires i < MemberCount(t)
    ensures Blocks(t)[i] == Elems(Member(t, i))
  {
  }

  lemma SlotBlockIs(c: Constant, modelConsts: bool, i: nat)
    requires i < |Operands(c)|
    ensures SlotBlocks(c, modelConsts)[i] == Slots(Operands(c)[i], modelConsts) && Operands(c)[i] < c
  {
  }

  // ----- where scalars are placed -----

  // The fields of the flattened elements of t, with arrays counted in full or as one of their
  // elements.
  function SlotFields(t: Type, modelArrays: bool): seq<nat>
    decreases t, 1
  {
    if IsLeaf(t) then [0] else Concat(FieldGroups(t, modelArrays))
  }

  // Those of each member, counted from where the member starts.
  function FieldGroups(t: Type, modelArrays: bool): (r: seq<seq<nat>>)
    decreases t, 0
    ensures |r| == MemberCount(t)
  {
    match t
    case Scalar(_, _) => []
    case Struct(_, fields) =>
      seq(|fields|, i requires 0 <= i < |fields| =>
        Raise(SlotFields(fields[i], modelArrays), MemberStart(t, i, modelArrays)))
    case Array(len, elem) =>
      seq(len, i requires 0 <= i < len => Raise(SlotFields(elem, modelArrays), MemberStart(t, i, modelArrays)))
  }

  function Raise(xs: seq<nat>, at: nat): (r: seq<nat>)
    ensures |r| == |xs|
  {
    seq(|xs|, j requires 0 <= j < |xs| => at + xs[j])
  }

  lemma FieldGroupIs(t: Type, modelArrays: bool, i: nat)
    requires i < MemberCount(t)
    ensures FieldGroups(t, modelArrays)[i] ==
            Raise(SlotFields(Member(t, i), modelArrays), MemberStart(t, i, modelArrays))
  {
  }

  lemma {:induction false} FieldsMatchElems(t: Type, modelArrays: bool)
    ensures |SlotFields(t, modelArrays)| == |Elems(t)|
    ensures !IsLeaf(t) ==> SameSizes(FieldGroups(t, modelArrays), Blocks(t))
  {
    if !IsLeaf(t) {
      var groups, blocks := FieldGroups(t, modelArrays), Blocks(t);
      forall i | 0 <= i < |groups| ensures |groups[i]| == |blocks[i]| {
        FieldsMatchElems(Member(t, i), modelArrays);
        FieldGroupIs(t, modelArrays, i);
        BlockIs(t, i);
      }
      SameConcat(groups, blocks);
    }
  }

  // The field of an element is what the lookups along its path sum up to: with arrays
  // modelled, its index.
  lemma {:induction false} SlotFieldIsOffset(t: Type, k: nat, modelArrays: bool)
    requires k < |Elems(t)|
    ensures k < |SlotFields(t, modelArrays)| && InBounds(t, LeafPath(t, k))
    ensures SlotFields(t, modelArrays)[k] == Offset(t, LeafPath(t, k), modelArrays)
    ensures modelArrays ==> SlotFields(t, modelArrays)[k] == k
  {
    LeafPathLeads(t, k);
    FieldsMatchElems(t, modelArrays);
    if !IsLeaf(t) {
      var i, j := SlotFieldThrough(t, k, modelArrays);
      SlotFieldIsOffset(Member(t, i), j, modelArrays);
      OffsetThrough(t, i, LeafPath(Member(t, i), j), modelArrays);
    }
  }

  lemma SlotFieldThrough(t: Type, k: nat, modelArrays: bool) returns (i: nat, j: nat)
    requires !IsLeaf(t) && k < |Elems(t)| && SameSizes(FieldGroups(t, modelArrays), Blocks(t))
    ensures i < MemberCount(t) && Member(t, i) < t && j < |SlotFields(Member(t, i), modelArrays)|
    ensures k < |SlotFields(t, modelArrays)| && j < |Elems(Member(t, i))| && Start(Blocks(t), i) + j == k
    ensures SlotFields(t, modelArrays)[k] ==
            MemberStart(t, i, modelArrays) + SlotFields(Member(t, i), modelArrays)[j]
    ensures LeafPath(t, k) == [i] + LeafPath(Member(t, i), j)
  {
    i, j := SameIndex(FieldGroups(t, modelArrays), Blocks(t), k);
    BlockIs(t, i);
    FieldGroupIs(t, modelArrays, i);
    LeafPathStep(t, k, i);
  }

  lemma OffsetThrough(t: Type, i: nat, rest: seq<nat>, modelArrays: bool)
    requires !IsEmptyArray(t) && i < MemberCount(t) && InBounds(Member(t, i), rest)
    ensures InBounds(t, [i] + rest)
    ensures Offset(t, [i] + rest, modelArrays) ==
            MemberStart(t, i, modelArrays) + Offset(Member(t, i), rest, modelArrays)
  {
    assert ([i] + rest)[1..] == rest;
  }

  // Fields counted from `field`, in 32 bits.
  function Shift(offsets: seq<nat>, field: nat): (r: seq<u32>)
    ensures |r| == |offsets|
  {
    seq(|offsets|, k requires 0 <= k < |offsets| => U32(field + offsets[k]))
  }

  lemma ShiftRaised(xs: seq<nat>, at: nat, field: nat)
    ensures Shift(Raise(xs, at), field) == Shift(xs, U32(field + at))
  {
    forall j | 0 <= j < |xs| ensures U32(field + (at + xs[j])) == U32(U32(field + at) + xs[j]) {
      AddInU32(field + at, xs[j]);
    }
  }

  lemma AddInU32(a: nat, b: nat)
    ensures U32(U32(a) + b) == U32(a + b)
  {
    var m := 0x1_0000_0000;
    assert U32(a) == a % m && U32(a % m + b) == (a % m + b) % m && U32(a + b) == (a + b) % m;
    assert a == a % m + a / m * m;
    ModAdd(a % m + b, a / m, m);
  }

  // The fields of all flattened elements of a value of type t that lies at a field.
  function Fields(t: Type, field: nat, modelArrays: bool): seq<u32> {
    Shift(SlotFields(t, modelArrays), field)
  }

  function SlotEdges(slot: Slot, field: int): seq<Edge> {
    if slot.None? then [] else LeafEdges(slot.value, field)
  }

  // The edges of the slots, each at its own field.
  function Place(slots: seq<Slot>, fields: seq<u32>): seq<Edge>
    requires |slots| == |fields|
  {
    Concat(PlaceEach(slots, fields))
  }

  function PlaceEach(slots: seq<Slot>, fields: seq<u32>): seq<seq<Edge>>
    requires |slots| == |fields|
  {
    seq(|slots|, k requires 0 <= k < |slots| => SlotEdges(slots[k], fields[k]))
  }

  // The edges of an initialiser whose value lies at a field.
  function InitEdges(c: Constant, field: u32, modelArrays: bool, modelConsts: bool): seq<Edge>
    decreases c, 1
  {
    if c.Single? then LeafEdges(c, field)
    else Concat(InitBlocks(c, field, modelArrays, modelConsts))
  }

  function InitBlocks(c: Constant, field: u32, modelArrays: bool, modelConsts: bool): (r: seq<seq<Edge>>)
    ensures |r| == if c.DataSequence? && !modelConsts then 0 else |Operands(c)|
    decreases c, 0
  {
    match c
    case Aggregate(_, operands) =>
      seq(|operands|, i requires 0 <= i < |operands| =>
        InitEdges(operands[i], FieldOf(c, i, field, modelArrays), modelArrays, modelConsts))
    case DataSequence(_, elements) =>
      seq(if modelConsts then |elements| else 0, i requires 0 <= i < |elements| =>
        InitEdges(elements[i], FieldOf(c, i, field, modelArrays), modelArrays, modelConsts))
    case _ => []
  }

  // The field of the i-th operand, computed in 32 bits.
  function FieldOf(c: Constant, i: nat, field: u32, modelArrays: bool): u32 {
    U32(field + ElemIdx(TypeOf(c), i, modelArrays))
  }

  // The index lookup: an array without elements has its dummy element at 0.
  function ElemIdx(t: Type, i: nat, modelArrays: bool): nat {
    if IsEmptyArray(t) || i >= MemberCount(t) then 0 else MemberStart(t, i, modelArrays)
  }

  predicate HasData(c: Constant) {
    match c
    case Aggregate(_, operands) => exists i | 0 <= i < |operands| :: HasData(operands[i])
    case DataSequence(_, _) => true
    case _ => false
  }

  // Block by block.
  lemma {:induction false} PlaceBlocks(slots: seq<seq<Slot>>, groups: seq<seq<nat>>, field: nat,
                                       inits: seq<seq<Edge>>)
    requires SameSizes(slots, groups) && |inits| == |slots|
    requires forall i | 0 <= i < |slots| :: inits[i] == Place(slots[i], Shift(groups[i], field))
    ensures |Concat(slots)| == |Concat(groups)|
    ensures Concat(inits) == Place(Concat(slots), Shift(Concat(groups), field))
  {
    SameConcat(slots, groups);
    if slots != [] {
      PlaceBlocks(slots[1..], groups[1..], field, inits[1..]);
      PlaceConcat(slots[0], Concat(slots[1..]), groups[0], Concat(groups[1..]), field);
    }
  }

  lemma PlaceConcat(a: seq<Slot>, b: seq<Slot>, x: seq<nat>, y: seq<nat>, field: nat)
    requires |a| == |x| && |b| == |y|
    ensures Place(a + b, Shift(x + y, field)) == Place(a, Shift(x, field)) + Place(b, Shift(y, field))
  {
    var first, second := PlaceEach(a, Shift(x, field)), PlaceEach(b, Shift(y, field));
    assert PlaceEach(a + b, Shift(x + y, field)) == first + second;
    ConcatAppend(first, second);
  }

  // Whatever the options, an initialiser adds the edges of its scalars in order, each scalar
  // at the field of its own flattened element.
  lemma {:induction false} InitialiserPlacesSlots(c: Constant, field: u32, modelArrays: bool, modelConsts: bool)
    requires IsTyped(c)
    ensures |Slots(c, modelConsts)| == |Elems(TypeOf(c))| == |Fields(TypeOf(c), field, modelArrays)|
    ensures InitEdges(c, field, modelArrays, modelConsts) ==
            Place(Slots(c, modelConsts), Fields(TypeOf(c), field, modelArrays))
    decreases c
  {
    var t := TypeOf(c);
    SlotsMatchElems(c, modelConsts);
    FieldsMatchElems(t, modelArrays);
    if c.Single? {
      PlaceSingle(c, field, modelArrays);
    } else if IsSkipped(c, modelConsts) {
      EmptyBlocks(PlaceEach(Slots(c, modelConsts), Fields(t, field, modelArrays)));
      assert InitBlocks(c, field, modelArrays, modelConsts) == [];
    } else {
      var inits, slots := InitBlocks(c, field, modelArrays, modelConsts), SlotBlocks(c, modelConsts);
      var groups := FieldGroups(t, modelArrays);
      forall i | 0 <= i < |slots|
        ensures |slots[i]| == |groups[i]| && inits[i] == Place(slots[i], Shift(groups[i], field))
      {
        TypedOperand(c, i);
        InitialiserPlacesSlots(Operands(c)[i], FieldOf(c, i, field, modelArrays), modelArrays, modelConsts);
        OperandIsPlaced(c, field, modelArrays, modelConsts, i);
      }
      PlaceBlocks(slots, groups, field, inits);
    }
  }

  lemma OperandIsPlaced(c: Constant, field: u32, modelArrays: bool, modelConsts: bool, i: nat)
    requires IsTyped(c) && !c.Single? && !IsSkipped(c, modelConsts)
    requires i < |Operands(c)| == MemberCount(TypeOf(c)) && !IsLeaf(TypeOf(c))
    ensures SlotBlocks(c, modelConsts)[i] == Slots(Operands(c)[i], modelConsts)
    ensures InitBlocks(c, field, modelArrays, modelConsts)[i] ==
            InitEdges(Operands(c)[i], FieldOf(c, i, field, modelArrays), modelArrays, modelConsts)
    ensures Shift(FieldGroups(TypeOf(c), modelArrays)[i], field) ==
            Fields(Member(TypeOf(c), i), FieldOf(c, i, field, modelArrays), modelArrays)
  {
    var t := TypeOf(c);
    SlotBlockIs(c, modelConsts, i);
    FieldGroupIs(t, modelArrays, i);
    ShiftRaised(SlotFields(Member(t, i), modelArrays), MemberStart(t, i, modelArrays), field);
  }

  lemma PlaceSingle(c: Constant, field: u32, modelArrays: bool)
    requires IsTyped(c) && c.Single?
    ensures Place([Some(c)], Fields(TypeOf(c), field, modelArrays)) == LeafEdges(c, field)
  {
    assert SlotFields(TypeOf(c), modelArrays) == [0];
    assert Fields(TypeOf(c), field, modelArrays) == [field];
    assert PlaceEach([Some(c)], [field]) == [LeafEdges(c, field)];
    ConcatOne(LeafEdges(c, field));
  }

  lemma TypedOperand(c: Constant, i: nat)
    requires IsTyped(c) && i < |Operands(c)|
    ensures IsTyped(Operands(c)[i]) && TypeOf(Operands(c)[i]) == Member(TypeOf(c), i) && !IsLeaf(TypeOf(c))
    ensures |Operands(c)| == MemberCount(TypeOf(c))
  {
  }

  // ----- what is not placed -----

  lemma SlotsAreScalars(c: Constant, modelConsts: bool)
    requires IsTyped(c)
    ensures AreScalars(Slots(c, modelConsts))
  {
    forall k | 0 <= k < |Slots(c, modelConsts)| && Slots(c, modelConsts)[k].Some?
      ensures Slots(c, modelConsts)[k].value.Single?
    {
      SlotIsAtItsPath(c, modelConsts, k);
    }
  }

  ghost predicate AreScalars(slots: seq<Slot>) {
    forall k | 0 <= k < |slots| :: slots[k].Some? ==> slots[k].value.Single?
  }

  // Some slots of b are empty in a.
  ghost predicate Empties(a: seq<Slot>, b: seq<Slot>) {
    |a| == |b| && forall k | 0 <= k < |a| :: a[k] == b[k] || a[k].None?
  }

  // Not modelling constants empties the slots of the data sequences and no others.
  lemma {:induction false} DataIsEmptied(c: Constant)
    requires IsTyped(c)
    ensures Empties(Slots(c, false), Slots(c, true))
    ensures Slots(c, false) == Slots(c, true) <==> !HasData(c)
  {
    if c.DataSequence? {
      SequenceIsEmptied(c);
    } else if c.Aggregate? {
      var emptied, full := SlotBlocks(c, false), SlotBlocks(c, true);
      forall i | 0 <= i < |full|
        ensures Empties(emptied[i], full[i]) && (emptied[i] == full[i] <==> !HasData(c.operands[i]))
      {
        DataIsEmptied(c.operands[i]);
      }
      EmptiedBlocks(emptied, full);
    }
  }

  lemma SequenceIsEmptied(c: Constant)
    requires IsTyped(c) && c.DataSequence?
    ensures Empties(Slots(c, false), Slots(c, true)) && Slots(c, false) != Slots(c, true)
  {
    SlotsMatchElems(c, false);
    SlotsMatchElems(c, true);
    assert |c.elements| > 0 && SlotBlocks(c, true)[0] == [Some(c.elements[0])];
    InBlock(SlotBlocks(c, true), 0, 0);
    assert SlotBlocks(c, true)[..0] == [];
  }

  lemma EmptiedBlocks(a: seq<seq<Slot>>, b: seq<seq<Slot>>)
    requires |a| == |b| && forall i | 0 <= i < |a| :: Empties(a[i], b[i])
    ensures Empties(Concat(a), Concat(b))
    ensures Concat(a) == Concat(b) <==> forall i | 0 <= i < |a| :: a[i] == b[i]
  {
    SameConcat(a, b);
    forall k | 0 <= k < |Concat(a)| ensures Concat(a)[k] == Concat(b)[k] || Concat(a)[k].None? {
      var i, j := SameIndex(a, b, k);
      InBlock(b, i, j);
    }
    if Concat(a) == Concat(b) {
      forall i | 0 <= i < |a| ensures a[i] == b[i] {
        SameStarts(a, b, i);
        BlockAt(a, i);
        BlockAt(b, i);
      }
    }
    if forall i | 0 <= i < |a| :: a[i] == b[i] {
      assert a == b;
    }
  }

  lemma EmptyingShows(a: seq<Slot>, b: seq<Slot>, fields: seq<u32>)
    requires |b| == |fields| && Empties(a, b) && AreScalars(b)
    ensures Place(a, fields) == Place(b, fields) <==> a == b
  {
    var x, y := PlaceEach(a, fields), PlaceEach(b, fields);
    LeavingOutShows(x, y);
    if a != b {
      var k :| 0 <= k < |a| && a[k] != b[k];
      assert x[k] == [] && y[k] != [];
    }
  }

  // Every scalar that is spelled out is placed if and only if constants are modelled or there
  // is no data sequence.
  lemma AllPlacedIffModelled(c: Constant, field: u32, modelArrays: bool, modelConsts: bool)
    requires IsTyped(c)
    ensures |Slots(c, true)| == |Fields(TypeOf(c), field, modelArrays)|
    ensures var edges := InitEdges(c, field, modelArrays, modelConsts);
      edges == Place(Slots(c, true), Fields(TypeOf(c), field, modelArrays)) <==> modelConsts || !HasData(c)
  {
    InitialiserPlacesSlots(c, field, modelArrays, modelConsts);
    SlotsMatchElems(c, true);
    SlotsAreScalars(c, true);
    DataIsEmptied(c);
    EmptyingShows(Slots(c, false), Slots(c, true), Fields(TypeOf(c), field, modelArrays));
  }

  // ----- stores -----

  function StoresOf(edges: seq<Edge>): seq<Edge> {
    if edges == [] then []
    else (if edges[0].Store? then [edges[0]] else []) + StoresOf(edges[1..])
  }

  lemma {:induction false} StoresConcat(a: seq<Edge>, b: seq<Edge>)
    ensures StoresOf(a + b) == StoresOf(a) + StoresOf(b)
  {
    if a == [] {
      assert a + b == b;
    } else {
      StoresConcat(a[1..], b);
      var ab := a + b;
      assert ab[0] == a[0] && ab[1..] == a[1..] + b;
      Reassociate(if a[0].Store? then [a[0]] else [], StoresOf(a[1..]), StoresOf(b));
    }
  }

  lemma {:induction false} StoresOfEach(blocks: seq<seq<Edge>>, stores: seq<seq<Edge>>)
    requires |stores| == |blocks| && forall i | 0 <= i < |blocks| :: stores[i] == StoresOf(blocks[i])
    ensures StoresOf(Concat(blocks)) == Concat(stores)
  {
    if blocks != [] {
      StoresOfEach(blocks[1..], stores[1..]);
      StoresConcat(blocks[0], Concat(blocks[1..]));
    }
  }

  // One store for every scalar at its own field, block addresses excepted or included.
  function StoreEach(slots: seq<Slot>, fields: seq<u32>, blockAddresses: bool): seq<seq<Edge>>
    requires |slots| == |fields| && AreScalars(slots)
  {
    seq(|slots|, k requires 0 <= k < |slots| =>
      if slots[k].None? || (IsBlockAddress(slots[k]) && !blockAddresses) then []
      else [Store(slots[k].value.id, fields[k])])
  }

  predicate IsBlockAddress(slot: Slot) {
    slot.Some? && slot.value.Single? && slot.value.kind == BlockAddress
  }

  // Every scalar but a block address is stored exactly once, at its own field. All scalars
  // are if and only if none is a block address.
  lemma EveryLeafStoredOnce(slots: seq<Slot>, fields: seq<u32>)
    requires |slots| == |fields| && AreScalars(slots)
    ensures StoresOf(Place(slots, fields)) == Concat(StoreEach(slots, fields, false))
    ensures StoresOf(Place(slots, fields)) == Concat(StoreEach(slots, fields, true)) <==>
            forall k | 0 <= k < |slots| :: !IsBlockAddress(slots[k])
  {
    var most, all, placed := StoreEach(slots, fields, false), StoreEach(slots, fields, true), PlaceEach(slots, fields);
    forall k | 0 <= k < |slots| ensures most[k] == StoresOf(placed[k]) {
      if slots[k].Some? { LeafStoredOnce(slots[k].value, fields[k]); }
    }
    StoresOfEach(placed, most);
    LeavingOutShows(most, all);
    if k :| 0 <= k < |slots| && IsBlockAddress(slots[k]) {
      assert most[k] == [] && all[k] != [];
    } else {
      forall k | 0 <= k < |slots| ensures most[k] == all[k] {
      }
    }
  }

  lemma LeafStoredOnce(c: Constant, field: int)
    requires c.Single?
    ensures StoresOf(LeafEdges(c, field)) == if c.kind == BlockAddress then [] else [Store(c.id, field)]
  {
    var edges := LeafEdges(c, field);
    assert StoresOf(edges[1..]) == if |edges| == 1 then [] else StoresOf([edges[1]]);
  }

  // An initialiser stores every scalar it models and that is no block address, once, at its
  // own field. It stores every scalar it spells out if and only if none is a block address
  // and constants are modelled or there is no data sequence.
  lemma InitialiserStores(c: Constant, field: u32, modelArrays: bool, modelConsts: bool)
    requires IsTyped(c)
    ensures AreScalars(Slots(c, modelConsts)) && AreScalars(Slots(c, true))
    ensures var fields := Fields(TypeOf(c), field, modelArrays);
            var edges := InitEdges(c, field, modelArrays, modelConsts);
      && |Slots(c, modelConsts)| == |Slots(c, true)| == |fields|
      && StoresOf(edges) == Concat(StoreEach(Slots(c, modelConsts), fields, false))
      && (StoresOf(edges) == Concat(StoreEach(Slots(c, true), fields, true)) <==>
          (modelConsts || !HasData(c)) && forall slot | slot in Slots(c, true) :: !IsBlockAddress(slot))
  {
    var fields := Fields(TypeOf(c), field, modelArrays);
    InitialiserPlacesSlots(c, field, modelArrays, modelConsts);
    SlotsMatchElems(c, true);
    SlotsAreScalars(c, modelConsts);
    SlotsAreScalars(c, true);
    EveryLeafStoredOnce(Slots(c, modelConsts), fields);
    DataIsEmptied(c);
    StoringAll(Slots(c, modelConsts), Slots(c, true), fields);
  }

  lemma StoringAll(a: seq<Slot>, b: seq<Slot>, fields: seq<u32>)
    requires Empties(a, b) && |b| == |fields| && AreScalars(a) && AreScalars(b)
    ensures Concat(StoreEach(a, fields, false)) == Concat(StoreEach(b, fields, true)) <==>
            a == b && forall slot | slot in b :: !IsBlockAddress(slot)
  {
    var most, all := StoreEach(a, fields, false), StoreEach(b, fields, true);
    LeavingOutShows(most, all);
    if k :| 0 <= k < |b| && (a[k] != b[k] || IsBlockAddress(b[k])) {
      assert most[k] == [] && all[k] != [];
    } else {
      forall k | 0 <= k < |b| ensures most[k] == all[k] {
      }
    }
  }

  // In `int a[3] = {1, 2, 3}` nothing is placed unless constants are modelled.
  lemma DataIsNotPlaced(x: nat, y: nat, z: nat, field: u32, modelArrays: bool)
    ensures var int32 := Scalar(0, false); var one := n => Single(n, OtherData, int32);
            var c := DataSequence(Array(3, int32), [one(x), one(y), one(z)]);
      && IsTyped(c) && InitEdges(c, field, modelArrays, false) == []
      && Slots(c, true) == [Some(one(x)), Some(one(y)), Some(one(z))]
  {
    var int32 := Scalar(0, false);
    var one := n => Single(n, OtherData, int32);
    var c := DataSequence(Array(3, int32), [one(x), one(y), one(z)]);
    assert InitBlocks(c, field, modelArrays, false) == [];
    assert SlotBlocks(c, true) == [[Some(one(x))], [Some(one(y))], [Some(one(z))]];
    ConcatThree([Some(one(x))], [Some(one(y))], [Some(one(z))]);
  }

  // In `void *t[] = {&&a, &&b}` nothing is stored.
  lemma BlockAddressesAreNotStored(x: nat, y: nat, field: u32, modelArrays: bool, modelConsts: bool)
    ensures var ptr := Scalar(0, true); var addr := n => Single(n, BlockAddress, ptr);
            var c := Aggregate(Array(2, ptr), [addr(x), addr(y)]);
      && IsTyped(c) && Slots(c, modelConsts) == [Some(addr(x)), Some(addr(y))]
      && StoresOf(InitEdges(c, field, modelArrays, modelConsts)) == []
  {
    var ptr := Scalar(0, true);
    var addr := n => Single(n, BlockAddress, ptr);
    var c := Aggregate(Array(2, ptr), [addr(x), addr(y)]);
    assert InitBlocks(c, field, modelArrays, modelConsts) ==
           [[Expanded(x), AddrConst(x)], [Expanded(y), AddrConst(y)]];
    NoStores(x, y);
    assert SlotBlocks(c, modelConsts) == [[Some(addr(x))], [Some(addr(y))]];
    ConcatThree([Some(addr(x))], [Some(addr(y))], []);
  }

  lemma NoStores(x: nat, y: nat)
    ensures StoresOf(Concat([[Expanded(x), AddrConst(x)], [Expanded(y), AddrConst(y)]])) == []
  {
    ConcatThree([Expanded(x), AddrConst(x)], [Expanded(y), AddrConst(y)], []);
    StoresConcat([Expanded(x), AddrConst(x)], [Expanded(y), AddrConst(y)]);
    assert [Expanded(x), AddrConst(x)][1..] == [AddrConst(x)] && [AddrConst(x)][1..] == [];
    assert [Expanded(y), AddrConst(y)][1..] == [AddrConst(y)] && [AddrConst(y)][1..] == [];
  }

  // ----- operand by operand -----

  // The edges of the first i operands.
  ghost function InitPrefix(c: Constant, field: u32, modelArrays: bool, modelConsts: bool, i: nat): seq<Edge>
    requires (c.DataSequence? && modelConsts) || c.Aggregate?
    requires i <= |Operands(c)|
  {
    Concat(InitBlocks(c, field, modelArrays, modelConsts)[..i])
  }

  lemma InitPrefixNext(c: Constant, field: u32, modelArrays: bool, modelConsts: bool, i: nat)
    requires (c.DataSequence? && modelConsts) || c.Aggregate?
    requires i < |Operands(c)|
    ensures InitPrefix(c, field, modelArrays, modelConsts, i + 1) == InitPrefix(c, field, modelArrays, modelConsts, i) +
            InitEdges(Operands(c)[i], FieldOf(c, i, field, modelArrays), modelArrays, modelConsts)
  {
    StartNext(InitBlocks(c, field, modelArrays, modelConsts), i);
  }

  lemma InitPrefixIsAll(c: Constant, field: u32, modelArrays: bool, modelConsts: bool)
    requires (c.DataSequence? && modelConsts) || c.Aggregate?
    ensures InitPrefix(c, field, modelArrays, modelConsts, 0) == []
    ensures InitPrefix(c, field, modelArrays, modelConsts, |Operands(c)|) ==
            InitEdges(c, field, modelArrays, modelConsts)
  {
    var blocks := InitBlocks(c, field, modelArrays, modelConsts);
    assert blocks[..|blocks|] == blocks;
  }

  // ----- the builder -----

  class Builder {
    const table: TypeInfoTable
    const modelArrays: bool
    const modelConsts: bool
    const skipVtables: bool
    var edges: seq<Edge>

    constructor (table: TypeInfoTable, modelArrays: bool, modelConsts: bool, skipVtables: bool)
      ensures this.table == table && this.modelArrays == modelArrays && this.modelConsts == modelConsts
      ensures this.skipVtables == skipVtables && edges == []
    {
      this.table, this.modelArrays, this.modelConsts, this.skipVtables := table, modelArrays, modelConsts, skipVtables;
      edges := [];
    }

    method GetFlattenedElemIdx(t: Type, origId: u32) returns (idx: u32)
      requires table.Valid() && t in table.type2TypeInfo && !t.Scalar?
      requires t.Struct? || modelArrays ==> origId < if IsEmptyArray(t) then 1 else MemberCount(t)
      ensures idx == ElemIdx(t, origId, modelArrays)
    {
      var info := table.type2TypeInfo[t];
      assert Describes(info, t);
      if modelArrays {
        idx := info.elemIdx[origId];
      } else if t.Struct? {
        idx := info.fldIdx[origId];
      } else {
        idx := 0;
      }
    }

    // Sums the offsets of the constant indices; the offset is unknown if a scalar pointer is
    // indexed by a variable.
    method ComputeGepOffset(steps: seq<GepStep>, sourceIsScalar: bool, start: int)
      returns (fldIdx: int, isConst: bool)
      requires table.Valid()
      requires forall step | step in steps :: IsAllowed(step) && (step.ty.Scalar? || step.ty in table.type2TypeInfo)
      ensures fldIdx == start + GepOffset(steps, modelArrays)
      ensures !isConst <==> (sourceIsScalar && HasVariantStep(steps))
    {
      fldIdx, isConst := start, true;
      assert steps[0..] == steps;
      for i := 0 to |steps|
        invariant forall step | step in steps[i..] :: IsAllowed(step)
        invariant fldIdx + GepOffset(steps[i..], modelArrays) == start + GepOffset(steps, modelArrays)
        invariant !isConst <==> (sourceIsScalar && HasVariantStep(steps[..i]))
      {
        var step := steps[i];
        assert steps[i..][0] == step && steps[i..][1..] == steps[i + 1..];
        assert forall s | s in steps[i + 1..] :: s in steps;
        assert steps[..i + 1] == steps[..i] + [step];
        if step.ty.Array? {
          if step.index.None? || step.ty.len <= U32(step.index.value) { continue; }
          var offset := GetFlattenedElemIdx(step.ty, U32(step.index.value));
          fldIdx := fldIdx + offset;
        } else if step.ty.Struct? {
          var offset := GetFlattenedElemIdx(step.ty, U32(step.index.value));
          fldIdx := fldIdx + offset;
        } else if step.index.None? && step.ty.isPointer && sourceIsScalar {
          isConst := false;
        }
      }
      assert steps[..|steps|] == steps;
    }

    // Operands are indexed within a collected type.
    ghost predicate IsIndexable(c: Constant) reads table {
      match c
      case Aggregate(ty, operands) =>
        && ty in table.type2TypeInfo && !IsLeaf(ty) && |operands| == MemberCount(ty) < 0x1_0000_0000
        && forall i | 0 <= i < |operands| :: IsIndexable(operands[i])
      case DataSequence(ty, elements) =>
        && ty in table.type2TypeInfo && !IsLeaf(ty) && |elements| == MemberCount(ty) < 0x1_0000_0000
        && forall i | 0 <= i < |elements| :: elements[i].Single?
      case _ => true
    }

    // The edges of a global with an initialiser.
    method VisitGlobal(c: Constant)
      requires table.Valid() && IsIndexable(c)
      modifies `edges
      ensures skipVtables && c.Aggregate? ==> edges == old(edges)
      ensures !(skipVtables && c.Aggregate?) && IsTyped(c) ==>
                && |Slots(c, modelConsts)| == |Fields(TypeOf(c), 0, modelArrays)|
                && edges == old(edges) + Place(Slots(c, modelConsts), Fields(TypeOf(c), 0, modelArrays))
    {
      InitialGlobal(c, 0);
      if IsTyped(c) { InitialiserPlacesSlots(c, 0, modelArrays, modelConsts); }
    }

    method InitialGlobal(c: Constant, offset: u32)
      requires table.Valid() && IsIndexable(c)
      modifies `edges
      ensures edges == old(edges) +
              if skipVtables && c.Aggregate? then [] else InitEdges(c, offset, modelArrays, modelConsts)
      decreases c, 2
    {
      match c
      case Single(_, _, _) => edges := edges + LeafEdges(c, offset);
      case Aggregate(ty, operands) =>
        if !skipVtables { InitOperands(c, offset); }
      case DataSequence(ty, elements) =>
        if modelConsts { InitOperands(c, offset); }
      case ZeroOrUndef(_) =>
    }

    method InitOperands(c: Constant, offset: u32)
      requires table.Valid() && IsIndexable(c)
      requires (c.DataSequence? && modelConsts) || (c.Aggregate? && !skipVtables)
      modifies `edges
      ensures edges == old(edges) + InitEdges(c, offset, modelArrays, modelConsts)
      decreases c, 1
    {
      ghost var before, done: seq<Edge> := edges, [];
      InitPrefixIsAll(c, offset, modelArrays, modelConsts);
      var n := |Operands(c)|;
      for i := 0 to n
        invariant done == InitPrefix(c, offset, modelArrays, modelConsts, i) && edges == before + done
      {
        OperandIndexable(c, i);
        InitPrefixNext(c, offset, modelArrays, modelConsts, i);
        InitOperand(c, offset, i);
        ghost var more := InitEdges(Operands(c)[i], FieldOf(c, i, offset, modelArrays), modelArrays, modelConsts);
        Reassociate(before, done, more);
        done := done + more;
      }
    }

    method InitOperand(c: Constant, offset: u32, i: u32)
      requires table.Valid() && IsIndexable(c) && i < |Operands(c)|
      requires !(skipVtables && c.Aggregate?)
      modifies `edges
      ensures edges == old(edges) +
              InitEdges(Operands(c)[i], FieldOf(c, i, offset, modelArrays), modelArrays, modelConsts)
      decreases c, 0
    {
      OperandIndexable(c, i);
      var off := GetFlattenedElemIdx(TypeOf(c), i);
      var field := U32(offset + off);
      assert field == FieldOf(c, i, offset, modelArrays);
      InitialGlobal(Operands(c)[i], field);
    }

    lemma OperandIndexable(c: Constant, i: nat)
      requires IsIndexable(c) && i < |Operands(c)|
      ensures IsIndexable(Operands(c)[i]) && (c.DataSequence? ==> Operands(c)[i].Single?)
      ensures TypeOf(c) in table.type2TypeInfo && !IsLeaf(TypeOf(c))
      ensures |Operands(c)| == MemberCount(TypeOf(c)) < 0x1_0000_0000
    {
    }
  }
}
