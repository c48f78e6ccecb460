/** The expression node model: every node derives its result type once, when it is built. */
module Exprs {
  import opened Types

  /** The node discriminant tested by the `classof` predicates. */
  datatype ExprKind =
    | EK_Struct
    | EK_StructElement
    | EK_ArrayElement
    | EK_ExtractValueExpr
    | EK_Value
    | EK_GlobalValue
    | EK_IfExpr
    | EK_SwitchExpr
    | EK_AsmExpr
    | EK_CallExpr
    | EK_PointerShift
    | EK_GepExpr
    | EK_SelectExpr
    | EK_StackAlloc

  /** A basic block is referred to, never owned, by control nodes. */
  datatype BlockRef = BlockRef(id: nat)

  /** A struct definition node. Its field list grows in place, one item at a time. */
  class Struct {
    const name: string
    var items: seq<Field>

    constructor (name: string)
      ensures this.name == name && items == []
    {
      this.name := name;
      items := [];
    }

    /** Appends `(ty, itemName)`; every earlier item keeps its index and content. */
    method AddItem(ty: Type, itemName: string)
      modifies this
      ensures |items| == |old(items)| + 1
      ensures items[..|old(items)|] == old(items)
      ensures items[|old(items)|] == Field(ty, itemName)
    {
      items := items + [Field(ty, itemName)];
    }
  }

  /** An asm operand: its constraint text and the expression bound to it, if any yet. */
  datatype AsmOperand = AsmOperand(constraint: string, expr: Option<Expr>)

  /** Expression nodes. `ty` is the result type fixed at construction. */
  datatype Expr =
    | StructNode(strct: Struct)
    | StructElement(strct: Struct, base: Expr, element: nat, ty: Type)
    | ArrayElement(base: Expr, index: Expr, ty: Type)
    | ExtractValueExpr(indices: seq<Expr>, ty: Type)
    | Value(valueName: string, ty: Type)
    | GlobalValue(valueName: string, value: string, ty: Type)
    | IfExpr(cmp: Option<Expr>, trueBlock: BlockRef, falseBlock: Option<BlockRef>)
    | SwitchExpr(cond: Expr, def: BlockRef, cases: map<int, BlockRef>)
    | AsmExpr(inst: string, output: seq<AsmOperand>, input: seq<AsmOperand>, clobbers: string)
    | CallExpr(funcValue: Option<Expr>, funcName: string, params: seq<Expr>, ty: Type)
    | PointerShift(ptrType: Type, pointer: Expr, move: Expr, shiftedType: Option<Type>)
    | GepExpr(indices: seq<Expr>, ty: Type)
    | SelectExpr(comp: Expr, left: Expr, right: Expr, ty: Type)
    | StackAlloc(slot: Expr)

  function Kind(e: Expr): ExprKind
  {
    match e
    case StructNode(_) => EK_Struct
    case StructElement(_, _, _, _) => EK_StructElement
    case ArrayElement(_, _, _) => EK_ArrayElement
    case ExtractValueExpr(_, _) => EK_ExtractValueExpr
    case Value(_, _) => EK_Value
    case GlobalValue(_, _, _) => EK_GlobalValue
    case IfExpr(_, _, _) => EK_IfExpr
    case SwitchExpr(_, _, _) => EK_SwitchExpr
    case AsmExpr(_, _, _, _) => EK_AsmExpr
    case CallExpr(_, _, _, _) => EK_CallExpr
    case PointerShift(_, _, _, _) => EK_PointerShift
    case GepExpr(_, _) => EK_GepExpr
    case SelectExpr(_, _, _, _) => EK_SelectExpr
    case StackAlloc(_) => EK_StackAlloc
  }

  /** The `classof` test of the node class whose discriminant is `k`. The Value class
      also accepts its GlobalValue subclass; every other class accepts only its own kind. */
  predicate Classof(k: ExprKind, e: Expr)
  {
    if k == EK_Value then Kind(e) == EK_Value || Kind(e) == EK_GlobalValue
    else Kind(e) == k
  }

  /** The classes that accept a node are its own class and, for a global value, Value. */
  lemma ClassofAccepts(k: ExprKind, e: Expr)
    ensures Classof(k, e) <==> (k == Kind(e) || (k == EK_Value && e.GlobalValue?))
  {
  }

  /** `getType()`: the result type, absent for the nodes that never set one.
      A stack slot forwards the type of the value it wraps. */
  function TypeOf(e: Expr): Option<Type>
  {
    match e
    case StructNode(s) => Some(StructType(s.name))
    case StructElement(_, _, _, t) => Some(t)
    case ArrayElement(_, _, t) => Some(t)
    case ExtractValueExpr(_, t) => Some(t)
    case Value(_, t) => Some(t)
    case GlobalValue(_, _, t) => Some(t)
    case IfExpr(_, _, _) => None
    case SwitchExpr(_, _, _) => None
    case AsmExpr(_, _, _, _) => None
    case CallExpr(_, _, _, t) => Some(t)
    case PointerShift(_, _, _, t) => t
    case GepExpr(_, t) => Some(t)
    case SelectExpr(_, _, _, t) => Some(t)
    case StackAlloc(v) => TypeOf(v)
  }

  /** Whether a node may be duplicated without repeating side effects. */
  predicate IsSimple(e: Expr)
  {
    e.Value? || e.GlobalValue? || e.CallExpr? || e.GepExpr?
  }

  /** Exactly the value-like nodes, calls and GEP chains are simple. */
  lemma SimpleClasses(e: Expr)
    ensures IsSimple(e) <==> Classof(EK_Value, e) || Classof(EK_CallExpr, e) || Classof(EK_GepExpr, e)
    ensures IsSimple(e) ==> TypeOf(e).Some?
  {
  }

  /** `Value::isZero`, shared by global values: the name is the literal "0". */
  predicate IsZero(v: Expr)
    requires Classof(EK_Value, v)
  {
    v.valueName == "0"
  }

  lemma IsZeroMeaning(v: Expr)
    requires Classof(EK_Value, v)
    ensures IsZero(v) <==> |v.valueName| == 1 && v.valueName[0] == '0'
  {
  }

  function MakeStruct(s: Struct): (e: Expr)
    ensures Kind(e) == EK_Struct && e.strct == s
    ensures TypeOf(e) == Some(StructType(s.name))
    ensures !IsSimple(e)
  {
    StructNode(s)
  }

  /** A field access: its type is the declared type of field `element`. */
  function MakeStructElement(strct: Struct, base: Expr, element: nat): (e: Expr)
    reads strct
    requires element < |strct.items|
    ensures Kind(e) == EK_StructElement && e.strct == strct && e.base == base && e.element == element
    ensures TypeOf(e) == Some(strct.items[element].ty)
    ensures !IsSimple(e)
  {
    StructElement(strct, base, element, strct.items[element].ty)
  }

  /** An array subscript: its type is the element type of the array's type. */
  function MakeArrayElement(base: Expr, index: Expr): (e: Expr)
    requires TypeOf(base).Some? && TypeOf(base).value.ArrayType?
    ensures Kind(e) == EK_ArrayElement && e.base == base && e.index == index
    ensures TypeOf(e) == Some(TypeOf(base).value.element)
    ensures !IsSimple(e)
  {
    ArrayElement(base, index, TypeOf(base).value.element)
  }

  /** A subscript obtained from pointer arithmetic: its type is the one supplied. */
  function MakeArrayElementTyped(base: Expr, index: Expr, ty: Type): (e: Expr)
    ensures Kind(e) == EK_ArrayElement && e.base == base && e.index == index
    ensures TypeOf(e) == Some(ty)
    ensures !IsSimple(e)
  {
    ArrayElement(base, index, ty)
  }

  /** An extractvalue chain: indices in the given order, typed by the last one. */
  function MakeExtractValue(indices: seq<Expr>): (e: Expr)
    requires |indices| > 0 && TypeOf(indices[|indices| - 1]).Some?
    ensures Kind(e) == EK_ExtractValueExpr && e.indices == indices
    ensures TypeOf(e) == TypeOf(indices[|indices| - 1])
    ensures !IsSimple(e)
  {
    ExtractValueExpr(indices, TypeOf(indices[|indices| - 1]).value)
  }

  function MakeValue(valueName: string, ty: Type): (e: Expr)
    ensures Kind(e) == EK_Value && Classof(EK_Value, e) && !Classof(EK_GlobalValue, e)
    ensures e.valueName == valueName && TypeOf(e) == Some(ty)
    ensures IsSimple(e)
  {
    Value(valueName, ty)
  }

  function MakeGlobalValue(varName: string, value: string, ty: Type): (e: Expr)
    ensures Kind(e) == EK_GlobalValue && Classof(EK_Value, e) && Classof(EK_GlobalValue, e)
    ensures e.valueName == varName && e.value == value && TypeOf(e) == Some(ty)
    ensures IsSimple(e)
  {
    GlobalValue(varName, value, ty)
  }

  /** A conditional branch; the condition and the false block may be absent. */
  function MakeIf(cmp: Option<Expr>, trueBlock: BlockRef, falseBlock: Option<BlockRef>): (e: Expr)
    ensures Kind(e) == EK_IfExpr && e.cmp == cmp && e.trueBlock == trueBlock && e.falseBlock == falseBlock
    ensures TypeOf(e).None? && !IsSimple(e)
  {
    IfExpr(cmp, trueBlock, falseBlock)
  }

  /** An unconditional branch: no condition and no false block. */
  function MakeGoto(trueBlock: BlockRef): (e: Expr)
    ensures Kind(e) == EK_IfExpr && e.cmp.None? && e.trueBlock == trueBlock && e.falseBlock.None?
    ensures TypeOf(e).None? && !IsSimple(e)
  {
    IfExpr(None, trueBlock, None)
  }

  function MakeSwitch(cmp: Expr, def: BlockRef, cases: map<int, BlockRef>): (e: Expr)
    ensures Kind(e) == EK_SwitchExpr && e.cond == cmp && e.def == def && e.cases == cases
    ensures TypeOf(e).None? && !IsSimple(e)
  {
    SwitchExpr(cmp, def, cases)
  }

  function MakeAsm(inst: string, output: seq<AsmOperand>, input: seq<AsmOperand>, clobbers: string): (e: Expr)
    ensures Kind(e) == EK_AsmExpr && e.inst == inst && e.output == output && e.input == input
    ensures e.clobbers == clobbers
    ensures TypeOf(e).None? && !IsSimple(e)
  {
    AsmExpr(inst, output, input, clobbers)
  }

  function MakeCall(funcValue: Option<Expr>, funcName: string, params: seq<Expr>, ty: Type): (e: Expr)
    ensures Kind(e) == EK_CallExpr && e.funcValue == funcValue && e.funcName == funcName
    ensures e.params == params && TypeOf(e) == Some(ty)
    ensures IsSimple(e)
  {
    CallExpr(funcValue, funcName, params, ty)
  }

  /** Pointer arithmetic: typed by the pointee when the context type is a pointer,
      and left without a type otherwise. */
  function MakePointerShift(ptrType: Type, pointer: Expr, move: Expr): (e: Expr)
    ensures Kind(e) == EK_PointerShift && e.ptrType == ptrType && e.pointer == pointer && e.move == move
    ensures TypeOf(e).Some? <==> ptrType.PointerType?
    ensures ptrType.PointerType? ==> TypeOf(e) == Some(ptrType.pointee)
    ensures !IsSimple(e)
  {
    PointerShift(ptrType, pointer, move, if ptrType.PointerType? then Some(ptrType.pointee) else None)
  }

  /** An address computation chain: indices in the given order, typed by the last one. */
  function MakeGep(indices: seq<Expr>): (e: Expr)
    requires |indices| > 0 && TypeOf(indices[|indices| - 1]).Some?
    ensures Kind(e) == EK_GepExpr && e.indices == indices
    ensures TypeOf(e) == TypeOf(indices[|indices| - 1])
    ensures IsSimple(e)
  {
    GepExpr(indices, TypeOf(indices[|indices| - 1]).value)
  }

  /** A select is typed by its left (true) branch. */
  function MakeSelect(comp: Expr, left: Expr, right: Expr): (e: Expr)
    requires TypeOf(left).Some?
    ensures Kind(e) == EK_SelectExpr && e.comp == comp && e.left == left && e.right == right
    ensures TypeOf(e) == TypeOf(left)
    ensures !IsSimple(e)
  {
    SelectExpr(comp, left, right, TypeOf(left).value)
  }

  /** A stack slot wraps a value and reports that value's type. */
  function MakeStackAlloc(slot: Expr): (e: Expr)
    requires Classof(EK_Value, slot)
    ensures TypeOf(slot).Some?
    ensures Kind(e) == EK_StackAlloc && e.slot == slot
    ensures TypeOf(e) == TypeOf(slot)
    ensures !IsSimple(e)
  {
    StackAlloc(slot)
  }

  // ---------------------------------------------------------------------------
  // Deferred binding of asm output operands

  /** The first unbound output slot at or after `pos`, if there is one. */
  function FirstEmptySlot(output: seq<AsmOperand>, pos: nat): (r: Option<nat>)
    decreases |output| - pos
    ensures r.Some? ==> pos <= r.value < |output| && output[r.value].expr.None?
    ensures r.Some? ==> forall j :: pos <= j < r.value ==> output[j].expr.Some?
    ensures r.None? ==> forall j :: pos <= j < |output| ==> output[j].expr.Some?
  {
    if pos >= |output| then None
    else if output[pos].expr.None? then Some(pos)
    else FirstEmptySlot(output, pos + 1)
  }

  /** The output list after binding `e` at the first free slot at or after `pos`. */
  function AddOutput(output: seq<AsmOperand>, e: Expr, pos: nat): seq<AsmOperand>
  {
    match FirstEmptySlot(output, pos)
    case None => output
    case Some(i) => output[i := output[i].(expr := Some(e))]
  }

  /** Binding changes at most one slot: the first free one at or after `pos`, which
      receives `e` and keeps its constraint. Slots before `pos`, bound slots and
      every constraint are untouched; with no free slot nothing changes. */
  lemma AddOutputEffect(output: seq<AsmOperand>, e: Expr, pos: nat)
    ensures var r := AddOutput(output, e, pos);
      && |r| == |output|
      && (forall j :: 0 <= j < |r| ==> r[j].constraint == output[j].constraint)
      && (forall j :: 0 <= j < |r| && (j < pos || output[j].expr.Some?) ==> r[j] == output[j])
      && (forall i, j :: 0 <= i < j < |r| && r[i] != output[i] ==> r[j] == output[j])
      && ((forall j :: pos <= j < |output| ==> output[j].expr.Some?) ==> r == output)
      && (forall i :: pos <= i < |output| && output[i].expr.None?
                      && (forall j :: pos <= j < i ==> output[j].expr.Some?)
                      ==> r[i].expr == Some(e))
  {
  }

  /** `AsmExpr::addOutputExpr` on the node's output vector. */
  method AddOutputExpr(output: array<AsmOperand>, e: Expr, pos: nat)
    modifies output
    ensures output[..] == AddOutput(old(output[..]), e, pos)
  {
    var i := pos;
    while i < output.Length
      invariant pos <= i
      invariant output[..] == old(output[..])
      invariant FirstEmptySlot(output[..], pos) == FirstEmptySlot(output[..], i)
    {
      if output[i].expr.None? {
        output[i] := output[i].(expr := Some(e));
        return;
      }
      i := i + 1;
    }
  }
}
