/** The struct-declaration pass: one catalog entry per identified struct of the module,
    with the variadic-argument descriptor synthesised from the ABI rather than the input. */
module StructDeclarations {
  import opened Types
  import opened TypeHandling
  import Programs

  /** Normalised name of the variadic-argument descriptor. */
  const VaListTag: string := "__va_list_tag"

  /** The `va_list` element record of section 3.5.7 of the System V x86-64 ABI:
      two unsigned ints followed by two pointers to void. */
  const VaListFields: seq<Field> := [
    Field(IntegerType(Int, true), "gp_offset"),
    Field(IntegerType(Int, true), "fp_offset"),
    Field(PointerType(VoidType), "overflow_arg_area"),
    Field(PointerType(VoidType), "reg_save_area")
  ]

  /** Appends the four descriptor fields, built from the registry's singletons. */
  function InitVarargStruct(varargStruct: StructDecl, th: TypeHandler): (r: StructDecl)
    ensures r.name == varargStruct.name
    ensures r.items == varargStruct.items + VaListFields
  {
    varargStruct
      .AddItem(th.uint, "gp_offset")
      .AddItem(th.uint, "fp_offset")
      .AddItem(PointerTo(th.voidType), "overflow_arg_area")
      .AddItem(PointerTo(th.voidType), "reg_save_area")
  }

  /** The normalised names of the module's identified structs, in module order. */
  function Normalised(rawNames: seq<string>, getStructName: string -> string): (names: seq<string>)
    ensures |names| == |rawNames|
    ensures forall k :: 0 <= k < |rawNames| ==> names[k] == getStructName(rawNames[k])
  {
    seq(|rawNames|, k requires 0 <= k < |rawNames| => getStructName(rawNames[k]))
  }

  /** Entry `k` is the one that becomes the descriptor: no descriptor existed before the
      pass, entry `k` is named `__va_list_tag`, and no earlier entry is. */
  predicate IsFirstVaList(names: seq<string>, hasVarArg: bool, k: nat)
    requires k < |names|
  {
    !hasVarArg && names[k] == VaListTag && forall j :: 0 <= j < k ==> names[j] != VaListTag
  }

  /** The catalog entries the pass registers, entry by entry, given the flag on entry. */
  function Declared(names: seq<string>, hasVarArg: bool): (r: seq<StructDecl>)
    ensures |r| == |names|
  {
    if names == [] then []
    else if !hasVarArg && names[0] == VaListTag then
      [StructDecl(names[0], VaListFields)] + Declared(names[1..], true)
    else
      [StructDecl(names[0], [])] + Declared(names[1..], hasVarArg)
  }

  /** Each entry keeps its module name; only the first `__va_list_tag`, and only if no
      descriptor existed before, receives the four fields; every other entry is empty. */
  lemma {:induction false} DeclaredAt(names: seq<string>, hasVarArg: bool, k: nat)
    requires k < |names|
    ensures Declared(names, hasVarArg)[k]
         == StructDecl(names[k], if IsFirstVaList(names, hasVarArg, k) then VaListFields else [])
  {
    if k > 0 {
      var h := hasVarArg || names[0] == VaListTag;
      DeclaredAt(names[1..], h, k - 1);
      assert IsFirstVaList(names[1..], h, k - 1) == IsFirstVaList(names, hasVarArg, k) by {
        if IsFirstVaList(names, hasVarArg, k) {
          forall j | 0 <= j < k - 1 ensures names[1..][j] != VaListTag {
            assert names[1..][j] == names[j + 1];
          }
        }
        if IsFirstVaList(names[1..], h, k - 1) {
          forall j | 0 <= j < k ensures names[j] != VaListTag {
            if j > 0 { assert names[j] == names[1..][j - 1]; }
          }
        }
      }
    }
  }

  /** How many catalog entries carry fields. */
  function FieldedCount(decls: seq<StructDecl>): nat
  {
    if decls == [] then 0
    else (if decls[0].items != [] then 1 else 0) + FieldedCount(decls[1..])
  }

  /** Exactly one entry receives fields when the module names the descriptor and none
      existed before; otherwise none does. */
  lemma {:induction false} OneDescriptor(names: seq<string>, hasVarArg: bool)
    ensures FieldedCount(Declared(names, hasVarArg))
         == if !hasVarArg && VaListTag in names then 1 else 0
  {
    if names != [] {
      var r := Declared(names, hasVarArg);
      assert r[1..] == Declared(names[1..], hasVarArg || names[0] == VaListTag);
      OneDescriptor(names[1..], hasVarArg || names[0] == VaListTag);
      assert VaListTag in names <==> names[0] == VaListTag || VaListTag in names[1..];
    }
  }

  /** `parseStructDeclarations`: registers every identified struct, in module order,
      under its normalised name, then marks the pass completed. */
  method ParseStructDeclarations(rawNames: seq<string>, getStructName: string -> string,
                                 program: Programs.Program)
    modifies program
    ensures program.structs
         == old(program.structs) + Declared(Normalised(rawNames, getStructName), old(program.hasVarArg))
    ensures program.hasVarArg
         == (old(program.hasVarArg) || VaListTag in Normalised(rawNames, getStructName))
    ensures program.completedPasses
         == old(program.completedPasses) + {Programs.PassType.ParseStructDeclarations}
    ensures program.functions == old(program.functions)
  {
    ghost var names := Normalised(rawNames, getStructName);
    ghost var before := program.structs;
    ghost var h0 := program.hasVarArg;
    var i := 0;
    while i < |rawNames|
      invariant 0 <= i <= |rawNames|
      invariant |program.structs| == |before| + i
      invariant program.structs[..|before|] == before
      invariant forall k :: 0 <= k < i ==>
                  program.structs[|before| + k]
                  == StructDecl(names[k], if IsFirstVaList(names, h0, k) then VaListFields else [])
      invariant program.hasVarArg == (h0 || VaListTag in names[..i])
      invariant program.completedPasses == old(program.completedPasses)
      invariant program.functions == old(program.functions)
    {
      var structName := getStructName(rawNames[i]);
      assert names[..i + 1] == names[..i] + [structName];
      if !program.hasVarArg && structName == VaListTag {
        var varargStruct := InitVarargStruct(StructDecl(structName, []), program.typeHandler);
        program.AddStruct(varargStruct);
        program.hasVarArg := true;
      } else {
        program.AddStruct(StructDecl(structName, []));
      }
      i := i + 1;
    }
    program.AddPass(Programs.PassType.ParseStructDeclarations);

    assert names[..i] == names;
    forall k | 0 <= k < |names|
      ensures program.structs[|before| + k] == Declared(names, h0)[k]
    {
      DeclaredAt(names, h0, k);
    }
  }

  /** A module whose only identified struct is the descriptor yields the ABI record. */
  lemma VaListOnly()
    ensures Declared([VaListTag], false) == [StructDecl(VaListTag, VaListFields)]
    ensures FieldedCount(Declared([VaListTag], false)) == 1
  {
  }
}
