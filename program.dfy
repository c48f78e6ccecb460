/** The shared decompilation context that every pass reads and updates. */
module Programs {
  import opened Types
  import opened TypeHandling

  datatype PassType = ParseStructDeclarations | CreateFunctionParameters | FixMainParameters

  /** A function parameter: its name and its current type. */
  datatype Param = Param(name: string, ty: Type)

  /** A decompiled function record, named as in the IR module. */
  datatype Func = Func(name: string, returnType: Type, parameters: seq<Param>)

  class Program {
    /** The aggregate catalog, in registration order. */
    var structs: seq<StructDecl>
    var completedPasses: set<PassType>
    /** Set once the variadic-argument descriptor has been synthesised. */
    var hasVarArg: bool
    /** The function table, in the module's function order. */
    var functions: seq<Func>
    const typeHandler: TypeHandler

    constructor ()
      ensures structs == [] && completedPasses == {} && !hasVarArg && functions == []
      ensures fresh(typeHandler)
    {
      structs := [];
      completedPasses := {};
      hasVarArg := false;
      functions := [];
      typeHandler := new TypeHandler();
    }

    method AddStruct(s: StructDecl)
      modifies this`structs
      ensures structs == old(structs) + [s]
    {
      structs := structs + [s];
    }

    method AddPass(pass: PassType)
      modifies this`completedPasses
      ensures completedPasses == old(completedPasses) + {pass}
    {
      completedPasses := completedPasses + {pass};
    }

    predicate IsPassCompleted(pass: PassType)
      reads this
    {
      pass in completedPasses
    }
  }
}
