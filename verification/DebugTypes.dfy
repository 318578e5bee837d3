/** Debug types, their equivalence, and the key that decides it. */
module DebugTypes {

  datatype Encoding = Signed | Unsigned | Boolean | Float | SignedChar | UnsignedChar | OtherEncoding(code: nat)
  datatype Qualifier = Const | Atomic | Volatile | Restrict | Typedef
  datatype DerivedTag = Member | Pointer | PtrToMember | Reference | RvalueReference
  datatype CompositeTag = ClassTag | StructTag | UnionTag | EnumTag

  // A debug type is identified by its address; Void is the null pointer. Chains of base types
  // are finite.
  datatype DIType =
    | Void
    | Basic(id: nat, encoding: Encoding, size: nat, align: nat)
    | Subroutine(id: nat)
    | Qualified(id: nat, qualifier: Qualifier, base: DIType)
    | Derived(id: nat, tag: DerivedTag, base: DIType)
    | Array(id: nat, base: DIType)
    | Composite(id: nat, kind: CompositeTag, identifier: nat, name: nat, file: nat, line: nat)

  // The type beneath all qualifiers and typedefs.
  function Strip(t: DIType): (r: DIType)
    ensures !r.Qualified? && (r == t || r < t)
  {
    if t.Qualified? then Strip(t.base) else t
  }

  method StripQualifiers(t: DIType) returns (r: DIType)
    ensures r == Strip(t)
  {
    r := t;
    while r.Qualified?
      invariant Strip(r) == Strip(t)
      decreases r
    {
      r := r.base;
    }
  }

  predicate IsInteger(e: Encoding) { e.Signed? || e.Unsigned? || e.Boolean? }

  predicate IsCharacter(e: Encoding) { e.SignedChar? || e.UnsignedChar? }

  // Encodings that are compared regardless of signedness.
  predicate OkayEncodings(a: Encoding, b: Encoding) {
    (IsInteger(a) && IsInteger(b)) || (a.Float? && b.Float?) || (IsCharacter(a) && IsCharacter(b))
  }

  predicate HasBase(t: DIType) { t.Derived? || t.Array? }

  predicate Teq(t1: DIType, t2: DIType)
    decreases t1
  {
    var a, b := Strip(t1), Strip(t2);
    if a == b then true
    else if a.Void? || b.Void? then false
    else if a.Basic? && b.Basic? then
      OkayEncodings(a.encoding, b.encoding) && a.size == b.size && a.align == b.align
    else if HasBase(a) && HasBase(b) then Teq(a.base, b.base)
    else if a.Composite? && b.Composite? then
      if a.kind != b.kind then false
      else if a.kind.EnumTag? then true
      else if a.kind.ClassTag? then a.identifier == b.identifier
      else a.name == b.name && a.file == b.file && a.line == b.line
    else false
  }

  // What an equivalence class looks like.
  datatype Key =
    | Itself(t: DIType)
    | Number(class_: nat, size: nat, align: nat)
    | Indirection(base: Key)
    | Enumeration
    | Class(identifier: nat)
    | Record(isUnion: bool, name: nat, file: nat, line: nat)

  function KeyOf(t: DIType): Key
    decreases t
  {
    var s := Strip(t);
    match s
    case Void => Itself(s)
    case Basic(_, encoding, size, align) =>
      if IsInteger(encoding) then Number(0, size, align)
      else if encoding.Float? then Number(1, size, align)
      else if IsCharacter(encoding) then Number(2, size, align)
      else Itself(s)
    case Subroutine(_) => Itself(s)
    case Derived(_, _, base) => Indirection(KeyOf(base))
    case Array(_, base) => Indirection(KeyOf(base))
    case Composite(_, EnumTag, _, _, _, _) => Enumeration
    case Composite(_, ClassTag, identifier, _, _, _) => Class(identifier)
    case Composite(_, kind, _, name, file, line) => Record(kind.UnionTag?, name, file, line)
  }

  // Two types are equivalent exactly when they have the same key.
  lemma {:induction false} TeqIsSameKey(t1: DIType, t2: DIType)
    ensures Teq(t1, t2) <==> KeyOf(t1) == KeyOf(t2)
    decreases t1
  {
    var a, b := Strip(t1), Strip(t2);
    if HasBase(a) && HasBase(b) {
      TeqIsSameKey(a.base, b.base);
    }
  }

  lemma TeqIsEquivalence(a: DIType, b: DIType, c: DIType)
    ensures Teq(a, a)
    ensures Teq(a, b) ==> Teq(b, a)
    ensures Teq(a, b) && Teq(b, c) ==> Teq(a, c)
  {
    TeqIsSameKey(a, b);
    TeqIsSameKey(b, a);
    TeqIsSameKey(b, c);
    TeqIsSameKey(a, c);
  }

  lemma StrippedIsEquivalent(t: DIType)
    ensures Teq(t, Strip(t)) && KeyOf(Strip(t)) == KeyOf(t) && Strip(Strip(t)) == Strip(t)
  {
  }
}
