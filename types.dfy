/** The C-like types the decompiler reconstructs, as values.
    A signedness write on a cached integer type is modelled as rewriting the value
    held by whoever refers to it (see the fix-up pass), not as a shared in-place write. */
module Types {

  datatype Option<+T> = None | Some(value: T)

  /** The integer families of the type model: int, char, short and long. */
  datatype IntKind = Int | Char | Short | Long

  datatype Type =
    | VoidType
    | IntegerType(kind: IntKind, unsigned: bool)
    | Int128Type
    | FloatType
    | DoubleType
    | LongDoubleType
    | PointerType(pointee: Type)
    | FunctionPointerType(returnType: Type, params: seq<Type>, name: string)
    | StructType(name: string)
    | ArrayType(element: Type, size: nat)

  /** One field of an aggregate: its declared type and its name. */
  datatype Field = Field(ty: Type, name: string)

  /** A struct declaration as kept in the program's aggregate catalog. */
  datatype StructDecl = StructDecl(name: string, items: seq<Field>)
  {
    /** Appends a field; the index of a field is its append order. */
    function AddItem(ty: Type, itemName: string): (r: StructDecl)
      ensures r.name == name
      ensures |r.items| == |items| + 1
      ensures r.items[..|items|] == items
      ensures r.items[|items|] == Field(ty, itemName)
    {
      StructDecl(name, items + [Field(ty, itemName)])
    }
  }

  /** The pointer type to `t`. The registry interns one instance per pointee;
      at the level of values that instance is exactly `PointerType(t)`. */
  function PointerTo(t: Type): (r: Type)
    ensures r.PointerType? && r.pointee == t
  {
    PointerType(t)
  }

  /** Number of pointer levels above the innermost non-pointer type. */
  function PointerDepth(t: Type): nat
  {
    if t.PointerType? then 1 + PointerDepth(t.pointee) else 0
  }

  /** The type found under every pointer level. */
  function Innermost(t: Type): (r: Type)
    ensures !r.PointerType?
  {
    if t.PointerType? then Innermost(t.pointee) else t
  }

  /** `depth` pointer levels on top of `inner`. */
  function Wrap(depth: nat, inner: Type): Type
  {
    if depth == 0 then inner else PointerType(Wrap(depth - 1, inner))
  }

  /** A type is determined by its pointer depth and its innermost type. */
  lemma {:induction false} WrapDecomposes(t: Type)
    ensures Wrap(PointerDepth(t), Innermost(t)) == t
  {
    if t.PointerType? {
      WrapDecomposes(t.pointee);
    }
  }

  /** Two types with the same depth and the same innermost type are equal. */
  lemma {:induction false} SameShapeSameType(s: Type, t: Type)
    requires PointerDepth(s) == PointerDepth(t)
    requires Innermost(s) == Innermost(t)
    ensures s == t
  {
    WrapDecomposes(s);
    WrapDecomposes(t);
  }

  /** The integer type with its unsigned flag cleared; any other type unchanged. */
  function Signed(t: Type): (r: Type)
    ensures r.IntegerType? <==> t.IntegerType?
    ensures r.IntegerType? ==> r.kind == t.kind && !r.unsigned
    ensures !t.IntegerType? ==> r == t
  {
    if t.IntegerType? then t.(unsigned := false) else t
  }
}
