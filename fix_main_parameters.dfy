/** The `main` signature fix-up pass: `int` return type, signed integer parameters,
    and a signed innermost integer under any number of pointer levels. */
module MainParameters {
  import opened Types
  import Programs

  /** Clears the unsigned flag of the integer found under every pointer level of `pt`.
      The pointer levels are kept; a non-integer innermost type is left as it is. */
  function ConvertToSignedIntPtr(pt: Type): (r: Type)
    requires pt.PointerType?
    decreases pt
    ensures r.PointerType?
    ensures PointerDepth(r) == PointerDepth(pt)
    ensures Innermost(r) == Signed(Innermost(pt))
  {
    match pt.pointee
    case PointerType(_) => PointerType(ConvertToSignedIntPtr(pt.pointee))
    case IntegerType(kind, _) => PointerType(IntegerType(kind, false))
    case _ => pt
  }

  /** The type a parameter of `main` ends with. */
  function FixParamType(t: Type): (r: Type)
    ensures PointerDepth(r) == PointerDepth(t)
    ensures Innermost(r) == Signed(Innermost(t))
  {
    if t.IntegerType? then t.(unsigned := false)
    else if t.PointerType? then ConvertToSignedIntPtr(t)
    else t
  }

  /** A parameter whose innermost type is not an integer keeps its type. */
  lemma FixParamTypeKeepsNonInteger(t: Type)
    requires !Innermost(t).IntegerType?
    ensures FixParamType(t) == t
  {
  }

  lemma FixParamTypeIdempotent(t: Type)
    ensures FixParamType(FixParamType(t)) == FixParamType(t)
  {
    SameShapeSameType(FixParamType(FixParamType(t)), FixParamType(t));
  }

  /** The return type `main` is given: a signed `int`. */
  const MainReturnType: Type := IntegerType(Int, false)

  /** The function record after the pass. */
  function FixFunction(f: Programs.Func): (r: Programs.Func)
    ensures r.name == f.name && |r.parameters| == |f.parameters|
    ensures forall k :: 0 <= k < |f.parameters| ==> r.parameters[k].name == f.parameters[k].name
  {
    if f.name != "main" then f
    else
      Programs.Func(f.name, MainReturnType,
        seq(|f.parameters|, k requires 0 <= k < |f.parameters| =>
          f.parameters[k].(ty := FixParamType(f.parameters[k].ty))))
  }

  /** The function table after the pass. */
  function FixAll(fs: seq<Programs.Func>): (r: seq<Programs.Func>)
    ensures |r| == |fs|
  {
    seq(|fs|, i requires 0 <= i < |fs| => FixFunction(fs[i]))
  }

  /** What the pass does to one function record: nothing unless it is `main`; for `main`,
      a signed `int` return type, every integer parameter signed, every pointer
      parameter keeping its pointer levels over a signed innermost integer, and
      every other parameter unchanged. */
  lemma FixFunctionEffect(f: Programs.Func)
    ensures f.name != "main" ==> FixFunction(f) == f
    ensures f.name == "main" ==> FixFunction(f).returnType == MainReturnType
    ensures f.name == "main" ==> forall k :: 0 <= k < |f.parameters| ==>
              var before, after := f.parameters[k].ty, FixFunction(f).parameters[k].ty;
              && PointerDepth(after) == PointerDepth(before)
              && (Innermost(before).IntegerType? ==>
                    Innermost(after) == IntegerType(Innermost(before).kind, false))
              && (!Innermost(before).IntegerType? ==> after == before)
  {
    forall k | 0 <= k < |f.parameters| && !Innermost(f.parameters[k].ty).IntegerType?
      ensures FixParamType(f.parameters[k].ty) == f.parameters[k].ty
    {
      FixParamTypeKeepsNonInteger(f.parameters[k].ty);
    }
  }

  /** Running the pass a second time changes nothing. */
  lemma FixAllIdempotent(fs: seq<Programs.Func>)
    ensures FixAll(FixAll(fs)) == FixAll(fs)
  {
    forall i | 0 <= i < |fs| ensures FixFunction(FixFunction(fs[i])) == FixFunction(fs[i]) {
      var f := fs[i];
      if f.name == "main" {
        var g := FixFunction(f);
        forall k | 0 <= k < |f.parameters|
          ensures FixFunction(g).parameters[k] == g.parameters[k]
        {
          FixParamTypeIdempotent(f.parameters[k].ty);
        }
      }
    }
  }

  /** The conventional `unsigned main(unsigned char **)` signature is corrected to a
      signed `int` return and a `char **` parameter over a signed char. */
  lemma ArgvExample()
    ensures var f := Programs.Func("main", IntegerType(Int, true),
                                   [Programs.Param("argv", PointerType(PointerType(IntegerType(Char, true))))]);
      FixFunction(f) == Programs.Func("main", IntegerType(Int, false),
                                      [Programs.Param("argv", PointerType(PointerType(IntegerType(Char, false))))])
  {
  }

  /** `fixMainParameters`: requires the parameter-creation pass to have run, rewrites the
      record of `main` as `FixFunction` describes, then marks the pass completed. */
  method FixMainParameters(program: Programs.Program)
    requires program.IsPassCompleted(Programs.PassType.CreateFunctionParameters)
    modifies program
    ensures program.functions == FixAll(old(program.functions))
    ensures program.completedPasses
         == old(program.completedPasses) + {Programs.PassType.FixMainParameters}
    ensures program.structs == old(program.structs) && program.hasVarArg == old(program.hasVarArg)
  {
    var i := 0;
    while i < |program.functions|
      invariant 0 <= i <= |program.functions| == |old(program.functions)|
      invariant forall k :: 0 <= k < i ==> program.functions[k] == FixFunction(old(program.functions)[k])
      invariant forall k :: i <= k < |program.functions| ==> program.functions[k] == old(program.functions)[k]
      invariant program.completedPasses == old(program.completedPasses)
      invariant program.structs == old(program.structs) && program.hasVarArg == old(program.hasVarArg)
    {
      var myFunc := program.functions[i];
      if myFunc.name == "main" {
        var params := myFunc.parameters;
        myFunc := myFunc.(returnType := MainReturnType);
        var j := 0;
        while j < |params|
          invariant 0 <= j <= |params| == |myFunc.parameters|
          invariant forall k :: 0 <= k < j ==>
                      params[k] == myFunc.parameters[k].(ty := FixParamType(myFunc.parameters[k].ty))
          invariant forall k :: j <= k < |params| ==> params[k] == myFunc.parameters[k]
        {
          var ty := params[j].ty;
          if ty.IntegerType? {
            ty := ty.(unsigned := false);
          }
          if ty.PointerType? {
            ty := ConvertToSignedIntPtr(ty);
          }
          params := params[j := params[j].(ty := ty)];
          j := j + 1;
        }
        program.functions := program.functions[i := myFunc.(parameters := params)];
      }
      i := i + 1;
    }
    program.AddPass(Programs.PassType.FixMainParameters);
  }
}
