/** Flattened layout of struct and array types: what is computed for a type, and how the
    flattened elements of its members lie in those of the whole. */
module TypeFlattening {
  import opened Concatenation
  import opened Wrappers

  // n reduced to 32 and to 64 bits.
  function U32(n: int): u32 {
    if 0 <= n < 0x1_0000_0000 then n else n % 0x1_0000_0000
  }

  function U64(n: int): int {
    if 0 <= n < 0x1_0000_0000_0000_0000 then n else n % 0x1_0000_0000_0000_0000
  }

  datatype Type =
    | Scalar(id: nat, isPointer: bool)
    | Struct(id: nat, fields: seq<Type>)
    | Array(len: nat, elem: Type)

  // ----- flattening -----

  function Total(t: Type): nat {
    if t.Array? then t.len * Total(t.elem) else 1
  }

  function Innermost(t: Type): (r: Type)
    ensures !r.Array? && (t.Array? ==> r < t)
  {
    if t.Array? then Innermost(t.elem) else t
  }

  // An array of which some dimension is zero.
  predicate IsEmptyArray(t: Type) {
    t.Array? && Total(t) == 0
  }

  function MemberCount(t: Type): nat {
    match t
    case Scalar(_, _) => 0
    case Struct(_, fields) => |fields|
    case Array(len, _) => len
  }

  function Member(t: Type, i: nat): Type
    requires i < MemberCount(t)
  {
    if t.Struct? then t.fields[i] else t.elem
  }

  // The flattened elements; an array without elements counts as one of its innermost type.
  function Elems(t: Type): seq<Type> {
    if IsEmptyArray(t) then [Innermost(t)]
    else if t.Scalar? then [t]
    else Concat(Blocks(t))
  }

  // The flattened elements of each member.
  function Blocks(t: Type): (r: seq<seq<Type>>)
    decreases t, 0
    ensures |r| == MemberCount(t)
  {
    match t
    case Scalar(_, _) => []
    case Struct(_, fields) => seq(|fields|, i requires 0 <= i < |fields| => Elems(fields[i]))
    case Array(len, elem) => seq(len, _ => Elems(elem))
  }

  // The flattened fields, which see an array as a single one of its elements.
  function FieldTypes(t: Type): seq<Type> {
    if IsEmptyArray(t) then [Innermost(t)]
    else if t.Scalar? then [t]
    else if t.Array? then FieldTypes(t.elem)
    else Concat(FieldBlocks(t))
  }

  function FieldBlocks(t: Type): (r: seq<seq<Type>>)
    requires t.Struct?
    decreases t, 0
    ensures |r| == |t.fields|
  {
    seq(|t.fields|, i requires 0 <= i < |t.fields| => FieldTypes(t.fields[i]))
  }

  lemma {:induction false} ArrayElems(t: Type)
    requires Total(t) != 0
    ensures Elems(t) == Repeat(Total(t), Elems(Innermost(t)))
    ensures FieldTypes(t) == FieldTypes(Innermost(t))
  {
    if t.Array? {
      ArrayElems(t.elem);
      assert Blocks(t) == seq(t.len, _ => Elems(t.elem));
      RepeatRepeat(t.len, Total(t.elem), Elems(Innermost(t)));
    } else {
      RepeatNext(0, Elems(t));
      assert Repeat(0, Elems(t)) == [];
    }
  }

  // Every count that is stored in 32 bits fits.
  ghost predicate Fits(t: Type) {
    match t
    case Scalar(_, _) => true
    case Struct(_, fields) =>
      && (forall i | 0 <= i < |fields| :: Fits(fields[i]))
      && |Elems(t)| < 0x1_0000_0000 && |FieldTypes(t)| < 0x1_0000_0000
    case Array(_, _) =>
      Total(t) != 0 ==> Fits(Innermost(t)) && Total(t) < 0x1_0000_0000 && |Elems(t)| < 0x1_0000_0000
  }

  datatype StInfo = StInfo(fldIdx: seq<u32>, elemIdx: seq<u32>, flattenFields: seq<Type>, flattenElems: seq<Type>,
                           stride: u32, numFields: u32, numElems: u32)

  // What the collected information of t says.
  ghost predicate Describes(info: StInfo, t: Type) {
    && info.flattenElems == Elems(t) && info.numElems == |Elems(t)|
    && info.flattenFields == FieldTypes(t) && info.numFields == |FieldTypes(t)|
    && info.stride == (if t.Array? then U32(Total(t)) else 1)
    && HasIndices(info, t)
  }

  // Member i starts at element elemIdx[i] and, in a struct, at field fldIdx[i].
  ghost predicate HasIndices(info: StInfo, t: Type) {
    if t.Scalar? || IsEmptyArray(t) then info.elemIdx == [0] && info.fldIdx == [0]
    else
      && |info.elemIdx| == |info.fldIdx| == MemberCount(t)
      && (forall i | 0 <= i < MemberCount(t) :: info.elemIdx[i] == Start(Blocks(t), i))
      && (forall i | 0 <= i < MemberCount(t) :: info.fldIdx[i] == if t.Struct? then Start(FieldBlocks(t), i) else 0)
  }

  // The slice of the flattened elements that starts at the recorded index of a member is
  // the flattened list of that member, and the next member's slice starts where it ends.
  lemma MemberSlice(info: StInfo, t: Type, i: nat)
    requires Describes(info, t) && !IsEmptyArray(t) && i < MemberCount(t)
    ensures i < |info.elemIdx| && info.elemIdx[i] + |Elems(Member(t, i))| <= |info.flattenElems|
    ensures info.flattenElems[info.elemIdx[i]..info.elemIdx[i] + |Elems(Member(t, i))|] == Elems(Member(t, i))
    ensures info.elemIdx[0] == 0
    ensures info.elemIdx[i] + |Elems(Member(t, i))| ==
            if i + 1 < MemberCount(t) then info.elemIdx[i + 1] else info.numElems
  {
    BlockAt(Blocks(t), i);
  }

  // ----- array indices -----

  // The recorded index of element i: i * nfE in 32 bits, times the total in 64 bits, divided
  // by the outer length and cut to 32 bits.
  function RecordedIdx(i: u32, nfE: u32, total: int, outer: u32): u32
    requires outer != 0
  {
    U32(U64(U32(i * nfE) * total) / outer)
  }

  lemma MulMonotone(a: nat, b: nat, c: nat)
    requires a <= b
    ensures a * c <= b * c
  {
  }

  // The total that is multiplied in may itself have wrapped around in 64 bits. The division
  // still gives the index of i members of rest * nfE elements each, exactly when that index
  // fits in 32 bits.
  lemma RecordedIdxIsExact(i: u32, nfE: u32, outer: u32, rest: nat)
    requires i < outer && rest >= 1
    ensures RecordedIdx(i, nfE, U64(outer * rest), outer) == i * (rest * nfE) <==>
            i * (rest * nfE) < 0x1_0000_0000
  {
    var start := i * (rest * nfE);
    MulMonotone(1, rest, i * nfE);
    Regroup(i, nfE, outer, rest);
    if start < 0x1_0000_0000 {
      QuotientFits(i * nfE, outer * rest, start, outer);
    }
  }

  lemma Regroup(i: nat, nfE: nat, outer: nat, rest: nat)
    ensures rest * (i * nfE) == i * (rest * nfE)
    ensures i * nfE * (outer * rest) == i * (rest * nfE) * outer
  {
    var a := i * nfE;
    assert rest * a == i * (rest * nfE);
    assert a * (outer * rest) == rest * a * outer;
  }

  lemma QuotientFits(a: nat, total: nat, q: u32, d: u32)
    requires d > 0 && a * total == q * d
    ensures U64(a * U64(total)) / d == q
  {
    WrapProduct(total, a);
    MulMonotone(q, 0xFFFF_FFFF, d);
    MulDiv(q, d);
  }

  lemma MulDiv(q: nat, d: nat)
    requires d > 0
    ensures q * d / d == q && q * d % d == 0
  {
    var n := q * d;
    var r, m := n / d, n % d;
    assert (q - r) * d == m;
    NoSmallMultiple(q - r, d);
  }

  lemma NoSmallMultiple(k: int, d: nat)
    requires 0 <= k * d < d
    ensures k == 0
  {
    if k > 0 { MulMonotone(1, k, d); }
    if k < 0 { MulMonotone(1, -k, d); }
  }

  // ----- collecting -----

  // dst with the first n types of src put behind it.
  method CopyTypes(dst: seq<Type>, src: seq<Type>, n: u32) returns (r: seq<Type>)
    requires n == |src|
    ensures r == dst + src
  {
    r := dst;
    for j := 0 to n
      invariant r == dst + src[..j]
    {
      assert src[..j + 1] == src[..j] + [src[j]];
      r := r + [src[j]];
    }
    assert src[..n] == src;
  }

  class TypeInfoTable {
    var type2TypeInfo: map<Type, StInfo>
    var maxStruct: Option<Type>
    var maxStSize: u32

    constructor ()
      ensures Valid() && type2TypeInfo == map[]
    {
      type2TypeInfo, maxStruct, maxStSize := map[], None, 0;
    }

    // Every entry describes its type, and no collected struct has more fields than the
    // largest one recorded.
    ghost predicate Valid() reads this {
      && (forall t {:trigger type2TypeInfo[t]} {:trigger t in type2TypeInfo} | t in type2TypeInfo ::
            Describes(type2TypeInfo[t], t))
      && (forall t | t in type2TypeInfo && t.Struct? :: |FieldTypes(t)| <= maxStSize)
      && (maxStSize == 0 || (maxStruct.Some? && maxStruct.value.Struct? && maxStruct.value in type2TypeInfo
                             && |FieldTypes(maxStruct.value)| == maxStSize))
    }

    ghost predicate Extends(before: map<Type, StInfo>) reads this {
      forall t | t in before :: t in type2TypeInfo && type2TypeInfo[t] == before[t]
    }

    method CollectTypeInfo(t: Type) returns (info: StInfo)
      requires Valid() && Fits(t)
      modifies this
      ensures Valid() && Extends(old(type2TypeInfo))
      ensures t in type2TypeInfo && info == type2TypeInfo[t]
      decreases t, 1
    {
      if t in type2TypeInfo { return type2TypeInfo[t]; }
      if t.Array? {
        info := CollectArrayInfo(t);
      } else if t.Struct? {
        info := CollectStructInfo(t);
        if info.numFields > maxStSize {
          type2TypeInfo := type2TypeInfo[t := info];
          maxStruct, maxStSize := Some(t), info.numFields;
          return;
        }
      } else {
        info := CollectSimpleTypeInfo(t);
      }
      type2TypeInfo := type2TypeInfo[t := info];
    }

    method CollectSimpleTypeInfo(t: Type) returns (info: StInfo)
      requires t.Scalar?
      ensures Describes(info, t)
    {
      info := StInfo([0], [0], [t], [t], 1, 1, 1);
    }

    method CollectStructInfo(t: Type) returns (info: StInfo)
      requires Valid() && Fits(t) && t.Struct?
      modifies this
      ensures Valid() && Extends(old(type2TypeInfo)) && Describes(info, t)
      decreases t, 0
    {
      info := StInfo([], [], [], [], 1, 0, 0);
      for i := 0 to |t.fields|
        invariant Valid() && Extends(old(type2TypeInfo))
        invariant DescribesPrefix(info, t, i)
      {
        BlockAt(Blocks(t), i);
        BlockAt(FieldBlocks(t), i);
        var fields, elems := FlattenMember(info.flattenFields, info.flattenElems, t, i);
        var numFields, numElems := U32(info.numFields + fields.1), U32(info.numElems + elems.1);
        LaidNext(info.elemIdx, info.flattenElems, info.numElems, Blocks(t), i, numElems);
        LaidNext(info.fldIdx, info.flattenFields, info.numFields, FieldBlocks(t), i, numFields);
        info := StInfo(info.fldIdx + [info.numFields], info.elemIdx + [info.numElems], fields.0, elems.0, 1,
                       numFields, numElems);
      }
      StructDescribed(info, t);
    }

    // Member i's flattened fields and elements put behind those before it, and their number.
    method FlattenMember(fields: seq<Type>, elems: seq<Type>, t: Type, i: nat)
      returns (moreFields: (seq<Type>, u32), moreElems: (seq<Type>, u32))
      requires Valid() && Fits(t) && t.Struct? && i < |t.fields|
      modifies this
      ensures Valid() && Extends(old(type2TypeInfo))
      ensures moreFields.0 == fields + FieldTypes(t.fields[i]) && moreFields.1 == |FieldTypes(t.fields[i])|
      ensures moreElems.0 == elems + Elems(t.fields[i]) && moreElems.1 == |Elems(t.fields[i])|
      decreases t, 0, i
    {
      var elemTy := t.fields[i];
      if elemTy.Scalar? {
        moreFields, moreElems := (fields + [elemTy], 1), (elems + [elemTy], 1);
      } else {
        var sub := CollectTypeInfo(elemTy);
        var allFields := CopyTypes(fields, sub.flattenFields, sub.numFields);
        var allElems := CopyTypes(elems, sub.flattenElems, sub.numElems);
        moreFields, moreElems := (allFields, sub.numFields), (allElems, sub.numElems);
      }
    }

    method CollectArrayInfo(t: Type) returns (info: StInfo)
      requires Valid() && Fits(t) && t.Array?
      modifies this
      ensures Valid() && Extends(old(type2TypeInfo)) && Describes(info, t)
      decreases t, 0
    {
      var totalElemNum, elemTy := CountElements(t);
      if totalElemNum == 0 {
        return StInfo([0], [0], [elemTy], [elemTy], U32(totalElemNum), 1, 1);
      }
      var elemInfo := CollectTypeInfo(elemTy);
      var fields := CopyTypes([], elemInfo.flattenFields, elemInfo.numFields);
      var fldIdx, elemIdx := RecordIndices(t, elemInfo.numElems, totalElemNum);
      var elems := RepeatTypes(elemInfo.flattenElems, elemInfo.numElems, totalElemNum);
      info := StInfo(fldIdx, elemIdx, fields, elems, U32(totalElemNum),
                     elemInfo.numFields, U32(U64(elemInfo.numElems * totalElemNum)));
      ArrayElems(t);
      ArraySize(t, elemInfo.numElems);
    }
  }

  method RepeatTypes(src: seq<Type>, n: u32, times: int) returns (r: seq<Type>)
    requires n == |src| && 0 <= times
    ensures r == Repeat(times, src)
  {
    r := [];
    for i := 0 to times
      invariant r == Repeat(i, src)
    {
      RepeatNext(i, src);
      r := CopyTypes(r, src, n);
    }
  }

  lemma StructDescribed(info: StInfo, t: Type)
    requires t.Struct? && DescribesPrefix(info, t, |t.fields|)
    ensures Describes(info, t)
  {
    var n := |t.fields|;
    assert Blocks(t)[..n] == Blocks(t) && FieldBlocks(t)[..n] == FieldBlocks(t);
  }

  lemma ArraySize(t: Type, nfE: nat)
    requires t.Array? && Total(t) != 0 && nfE == |Elems(Innermost(t))|
    ensures nfE * Total(t) == |Elems(t)|
  {
    ArrayElems(t);
    RepeatSize(Total(t), Elems(Innermost(t)), nfE);
  }

  lemma RepeatSize(n: nat, xs: seq<Type>, size: nat)
    requires size == |xs|
    ensures |Repeat(n, xs)| == size * n
  {
    RepeatLength(n, xs);
  }

  // The first i blocks are flattened, and idx says where each of them starts.
  ghost predicate Laid(idx: seq<u32>, flat: seq<Type>, num: u32, blocks: seq<seq<Type>>, i: nat)
    requires i <= |blocks|
  {
    && |idx| == i && (forall k {:trigger idx[k]} | 0 <= k < i :: idx[k] == Start(blocks, k))
    && flat == Concat(blocks[..i]) && num == Start(blocks, i)
  }

  lemma LaidNext(idx: seq<u32>, flat: seq<Type>, num: u32, blocks: seq<seq<Type>>, i: nat, next: u32)
    requires i < |blocks| && Laid(idx, flat, num, blocks, i) && next == num + |blocks[i]|
    ensures Laid(idx + [num], flat + blocks[i], next, blocks, i + 1)
  {
    StartNext(blocks, i);
  }

  // The first i members of struct t are recorded.
  ghost predicate DescribesPrefix(info: StInfo, t: Type, i: nat)
    requires t.Struct? && i <= |t.fields|
  {
    && info.stride == 1
    && Laid(info.elemIdx, info.flattenElems, info.numElems, Blocks(t), i)
    && Laid(info.fldIdx, info.flattenFields, info.numFields, FieldBlocks(t), i)
  }

  // The number of innermost elements, multiplied up in 64 bits, and their type.
  method CountElements(t: Type) returns (totalElemNum: int, elemTy: Type)
    requires t.Array?
    ensures totalElemNum == U64(Total(t)) && elemTy == Innermost(t)
  {
    totalElemNum, elemTy := U64(t.len), t.elem;
    ghost var product: nat := t.len;
    while elemTy.Array?
      decreases elemTy
      invariant totalElemNum == U64(product) && product * Total(elemTy) == Total(t)
      invariant Innermost(elemTy) == Innermost(t)
    {
      WrapProduct(product, elemTy.len);
      ProductStep(product, elemTy.len, Total(elemTy.elem));
      totalElemNum := U64(totalElemNum * elemTy.len);
      product := product * elemTy.len;
      elemTy := elemTy.elem;
    }
  }

  lemma ProductStep(a: nat, b: nat, c: nat)
    ensures a * (b * c) == a * b * c
  {
  }

  lemma WrapProduct(a: nat, b: nat)
    ensures U64(U64(a) * b) == U64(a * b)
  {
    var m := 0x1_0000_0000_0000_0000;
    var q, r := a / m, a % m;
    assert U64(a) == r;
    SplitProduct(q, m, r, b);
    ModAdd(r * b, q * b, m);
    WrapIsMod(r * b);
    WrapIsMod(a * b);
  }

  lemma WrapIsMod(n: nat)
    ensures U64(n) == n % 0x1_0000_0000_0000_0000
  {
  }

  lemma SplitProduct(q: nat, m: nat, r: nat, b: nat)
    ensures (q * m + r) * b == r * b + q * b * m
  {
  }

  lemma ModAdd(x: nat, k: nat, m: nat)
    requires m > 0
    ensures (x + k * m) % m == x % m
  {
    var n := x + k * m;
    assert (n / m - x / m - k) * m == x % m - n % m;
    if x % m >= n % m {
      NoSmallMultiple(n / m - x / m - k, m);
    } else {
      assert (x / m + k - n / m) * m == n % m - x % m;
      NoSmallMultiple(x / m + k - n / m, m);
    }
  }

  // One index for every element of the outer dimension, all for the same field.
  method RecordIndices(t: Type, nfE: u32, totalElemNum: int) returns (fldIdx: seq<u32>, elemIdx: seq<u32>)
    requires t.Array? && Fits(t) && totalElemNum == Total(t) != 0 && nfE == |Elems(Innermost(t))|
    ensures |elemIdx| == |fldIdx| == t.len
    ensures forall i | 0 <= i < t.len :: elemIdx[i] == Start(Blocks(t), i) && fldIdx[i] == 0
  {
    fldIdx, elemIdx := [], [];
    var outArrayElemNum := U32(t.len);
    for i := 0 to outArrayElemNum
      invariant |elemIdx| == |fldIdx| == i
      invariant forall k | 0 <= k < i :: elemIdx[k] == Start(Blocks(t), k) && fldIdx[k] == 0
    {
      ElementStart(t, i);
      ElementIndex(t, nfE, i);
      fldIdx, elemIdx := fldIdx + [0], elemIdx + [RecordedIdx(i, nfE, totalElemNum, outArrayElemNum)];
    }
  }

  // In an array whose elements can be counted in 32 bits every block starts below 2^32.
  lemma ElementStart(t: Type, i: nat)
    requires t.Array? && Fits(t) && Total(t) != 0 && i < t.len
    ensures t.len < 0x1_0000_0000 && Start(Blocks(t), i) < 0x1_0000_0000
  {
    MulMonotone(1, Total(t.elem), t.len);
    BlockAt(Blocks(t), i);
  }

  // The division gives the start of element i's block, exactly when that start fits in 32
  // bits.
  lemma ElementIndex(t: Type, nfE: u32, i: nat)
    requires t.Array? && Total(t) != 0 && i < t.len < 0x1_0000_0000 && nfE == |Elems(Innermost(t))|
    ensures RecordedIdx(i, nfE, U64(Total(t)), t.len) == Start(Blocks(t), i) <==>
            Start(Blocks(t), i) < 0x1_0000_0000
  {
    var rest := Total(t.elem);
    ArrayElems(t.elem);
    RepeatLength(rest, Elems(Innermost(t)));
    RecordedIdxIsExact(i, nfE, t.len, rest);
    assert Blocks(t)[..i] == seq(i, _ => Elems(t.elem));
    RepeatLength(i, Elems(t.elem));
  }

  // 2 x 2^30 structs of eight fields: fewer than 2^32 innermost elements, but element 1
  // starts at 2^33 and is recorded at 0.
  const WIDE_STRUCT := Struct(0, seq(8, _ => Scalar(1, false)))
  const WIDE_ARRAY := Array(2, Array(0x4000_0000, WIDE_STRUCT))

  lemma ElementIndexCanWrap()
    ensures Total(WIDE_ARRAY) == 0x8000_0000 && |Elems(WIDE_STRUCT)| == 8
    ensures Start(Blocks(WIDE_ARRAY), 1) == 0x2_0000_0000
    ensures RecordedIdx(1, 8, Total(WIDE_ARRAY), 2) == 0
  {
    var scalar := Scalar(1, false);
    assert Blocks(WIDE_STRUCT) == seq(8, _ => [scalar]);
    RepeatLength(8, [scalar]);
    ArrayElems(WIDE_ARRAY.elem);
    RepeatLength(0x4000_0000, Elems(WIDE_STRUCT));
    assert Blocks(WIDE_ARRAY)[..1] == seq(1, _ => Elems(WIDE_ARRAY.elem));
    RepeatLength(1, Elems(WIDE_ARRAY.elem));
  }
}
