# llvm2c core: types, expression nodes and two pipeline passes

This project models the core of llvm2c, a decompiler from LLVM IR to C, in Dafny. It covers:

- **Types** (`types.dfy`, module `Types`). The C-like types are a value datatype: void, the integer families with their unsigned flag, `__int128`, the floating types, pointers, function pointers, structs and arrays. `StructDecl` is a struct declaration with its append-only field list.
- **Expression nodes** (`expr.dfy`, module `Exprs`). Each node kind is a datatype case. Each constructor is a `Make…` function, and its contract states the result type the node derives from its inputs. The module also has:
  - the `classof` discriminant tests, where `Value` also accepts `GlobalValue`;
  - `isSimple` and `isZero`;
  - the `Struct` node, a class whose field list grows in place;
  - the deferred binding of asm output operands, which fills the first free slot at or after a position. It is a method on the output array, proved against a specification function.
- **The type registry** (`type_handler.dfy`, module `TypeHandling`). A `TypeHandler` class holds:
  - the typedef counter, a 32-bit unsigned that wraps, with the names `typeDef_<n>`;
  - the translation cache keyed by IR type identity;
  - the typedef map and `hasTypeDefs`;
  - the signed and unsigned scalar singletons.
- **The program context** (`program.dfy`, module `Programs`). It holds the aggregate catalog, the set of completed passes, the `hasVarArg` flag and the function table.
- **The struct-declaration pass** (`parse_struct_declarations.dfy`). It registers one catalog entry per identified struct, in module order. The first `__va_list_tag`, when no descriptor exists yet, becomes the four-field `va_list` record of section 3.5.7 of the System V x86-64 ABI.
- **The `main` fix-up pass** (`fix_main_parameters.dfy`). It gives `main` a signed `int` return type. It makes integer parameters signed, and also the innermost integer under any number of pointer levels.

## Model

| member | source | states |
|---|---|---|
| `Types.StructDecl.AddItem` | parser/parseStructDeclarations.cpp:10-13 | a field is appended at the end; the name and every earlier field keep their place |
| `Types.PointerTo` | type/TypeHandler.h:107 | the pointer type to `t` has pointee `t` |
| `Exprs.Struct.constructor` | expr/Expr.cpp:6-9 | a new struct node has the given name and no fields |
| `Exprs.Struct.AddItem` | expr/Expr.cpp:11-13 | `(type, name)` is appended; length grows by one; earlier items keep index and content |
| `Exprs.ClassofAccepts` | expr/Expr.cpp:103-117 | a node is accepted by its own class; the Value test also accepts GlobalValue, while the GlobalValue test accepts only GlobalValue |
| `Exprs.SimpleClasses` | expr/Expr.cpp:99-101 | a node is simple iff it is Value-like (Value or GlobalValue), a call or a GEP chain; simple nodes are typed |
| `Exprs.IsZeroMeaning` | expr/Expr.cpp:95-97 | a value is zero iff its name is exactly the one-character string `0` |
| `Exprs.MakeStruct` | expr/Expr.cpp:6-9 | a struct node is typed by the struct type of its own name and is not simple |
| `Exprs.MakeStructElement` | expr/Expr.cpp:23-29 | for `element < |items|`, the access is typed by the declared type of field `element` |
| `Exprs.MakeArrayElement` | expr/Expr.cpp:39-45 | a subscript of an array-typed base is typed by the array's element type |
| `Exprs.MakeArrayElementTyped` | expr/Expr.cpp:47-52 | the three-argument subscript has exactly the supplied type |
| `Exprs.MakeExtractValue` | expr/Expr.cpp:62-69 | needs a non-empty index list; keeps the indices in order; typed by the last index |
| `Exprs.MakeValue` | expr/Expr.cpp:79-83 | a value keeps its name and type, is simple, and is accepted by Value but not by GlobalValue |
| `Exprs.MakeGlobalValue` | expr/Expr.cpp:107-109 | a global value keeps its name, initializer text and type, is simple, and is accepted by both tests |
| `Exprs.MakeIf` | expr/Expr.cpp:123-127 | a branch keeps its optional condition, its true block and its optional false block; untyped and not simple |
| `Exprs.MakeGoto` | expr/Expr.cpp:129-133 | an unconditional branch has no condition and no false block |
| `Exprs.MakeSwitch` | expr/Expr.cpp:143-147 | a switch keeps its condition, its default block and its case map; untyped and not simple |
| `Exprs.MakeAsm` | expr/Expr.cpp:157-162 | an asm node keeps its text, its operand lists and its clobbers; untyped and not simple |
| `Exprs.MakeCall` | expr/Expr.cpp:181-187 | a call keeps its callee, its name and its arguments, has the declared type, and is simple |
| `Exprs.MakePointerShift` | expr/Expr.cpp:201-209 | typed iff the context type is a pointer, and then by its pointee |
| `Exprs.MakeGep` | expr/Expr.cpp:219-226 | needs a non-empty index list; keeps the indices in order; typed by the last index; simple |
| `Exprs.MakeSelect` | expr/Expr.cpp:240-246 | a select is typed by its left branch |
| `Exprs.MakeStackAlloc` | expr/Expr.cpp:256-276 | a stack slot wraps a Value-like node and reports that node's type, which every Value-like node has |
| `Exprs.FirstEmptySlot` | expr/Expr.cpp:164-170 | the result is the least index at or after `pos` whose slot is unbound; with none, every slot from `pos` on is bound |
| `Exprs.AddOutputEffect` | expr/Expr.cpp:164-171 | binding changes at most one slot, the first free one at or after `pos`, which receives the expression. Length and constraints are kept. Slots before `pos` and bound slots are untouched. With no free slot nothing changes |
| `Exprs.AddOutputExpr` | expr/Expr.cpp:164-171 | the in-place scan leaves the array equal to `AddOutput` of its old contents |
| `TypeHandling.DecimalString` | type/TypeHandler.h:35 | decimal spelling: digits only, no leading zero, last digit is `n % 10`, two or more digits iff `n >= 10` |
| `TypeHandling.DecimalStringInjective` | type/TypeHandler.h:35 | distinct counters have distinct decimal spellings |
| `TypeHandling.TypeDefName` | type/TypeHandler.h:35 | a typedef name is `typeDef_` followed by the counter in decimal |
| `TypeHandling.TypeDefNamesDistinct` | type/TypeHandler.h:34-38 | different counter values give different typedef names |
| `TypeHandling.Next` | type/TypeHandler.h:36 | the counter increment adds one and wraps to 0 after 2^32 - 1 |
| `TypeHandling.After` | type/TypeHandler.h:28-36 | after `k` increments the counter is `(start + k) mod 2^32` |
| `TypeHandling.SuccessiveNamesDistinct` | type/TypeHandler.h:28-38 | any two of fewer than 2^32 successive calls return different names |
| `TypeHandling.FirstTypeDefName` | type/TypeHandler.h:28-38 | the first name of a new registry is `typeDef_0` |
| `TypeHandling.TypeHandler.constructor` | type/TypeHandler.h:22-28 | a new registry has an empty typedef map, cache, pointer cache and typedef list, and a zero counter |
| `TypeHandling.TypeHandler.GetTypeDefName` | type/TypeHandler.h:34-38 | returns the name for the current counter and advances the counter by one |
| `TypeHandling.TypeHandler.MakeCachedType` | type/TypeHandler.h:40-46 | the cache maps `ty` to the new type, which is also returned. An older entry for `ty` is overwritten; every other key is unchanged |
| `TypeHandling.HasTypeDefsMeaning` | type/TypeHandler.h:101-103 | `hasTypeDefs` holds iff some IR type has a typedef |
| `TypeHandling.ScalarSingletons` | type/TypeHandler.h:52-60 | `uint`, `uchar`, `ushort` and `ulong` are unsigned; `sint`, `schar`, `sshort` and `slong` are the same families signed |
| `Programs.Program.AddStruct` | parser/parseStructDeclarations.cpp:24 | registering appends one entry to the catalog |
| `Programs.Program.AddPass` | parser/parseStructDeclarations.cpp:34 | marking a pass adds it to the completed set |
| `StructDeclarations.InitVarargStruct` | parser/parseStructDeclarations.cpp:9-14 | appends `gp_offset: unsigned int`, `fp_offset: unsigned int`, `overflow_arg_area: void *` and `reg_save_area: void *`, in this order |
| `StructDeclarations.Normalised` | parser/parseStructDeclarations.cpp:18-19 | one normalised name per identified struct, in module order |
| `StructDeclarations.Declared` | parser/parseStructDeclarations.cpp:18-32 | the pass registers exactly one entry per identified struct |
| `StructDeclarations.DeclaredAt` | parser/parseStructDeclarations.cpp:18-32 | entry `k` has the `k`-th normalised name. It has the four descriptor fields iff no descriptor existed on entry, it is named `__va_list_tag` and no earlier entry is. Otherwise it has no fields |
| `StructDeclarations.OneDescriptor` | parser/parseStructDeclarations.cpp:21-28 | exactly one entry has fields when the module names `__va_list_tag` and `hasVarArg` was false; otherwise none has |
| `StructDeclarations.VaListOnly` | parser/parseStructDeclarations.cpp:21-28 | a module whose only struct is `__va_list_tag` yields the single four-field record |
| `StructDeclarations.ParseStructDeclarations` | parser/parseStructDeclarations.cpp:16-35 | the catalog grows by the declared entries, in order. `hasVarArg` ends true iff it was true or some struct is `__va_list_tag`. The pass is recorded as completed and the function table is untouched |
| `MainParameters.ConvertToSignedIntPtr` | parser/fixMainParameters.cpp:8-14 | keeps every pointer level and makes the innermost type signed if it is an integer. It terminates by descending one pointer level per call |
| `MainParameters.FixParamType` | parser/fixMainParameters.cpp:29-36 | a parameter keeps its pointer depth and ends with a signed innermost type if that type is an integer |
| `MainParameters.FixParamTypeKeepsNonInteger` | parser/fixMainParameters.cpp:30-36 | a parameter whose innermost type is not an integer is untouched |
| `MainParameters.FixParamTypeIdempotent` | parser/fixMainParameters.cpp:30-36 | fixing a parameter type twice is the same as once |
| `MainParameters.FixFunction` | parser/fixMainParameters.cpp:19-37 | a function record keeps its name, its parameter count and its parameter names |
| `MainParameters.FixAll` | parser/fixMainParameters.cpp:19-38 | the pass keeps the length of the function table |
| `MainParameters.FixFunctionEffect` | parser/fixMainParameters.cpp:22-37 | functions not named `main` are unchanged. For `main`: the return type is signed `int`. Each parameter keeps its pointer depth. An innermost integer ends signed. Any other parameter is unchanged |
| `MainParameters.FixAllIdempotent` | parser/fixMainParameters.cpp:19-40 | running the pass a second time yields the same function table |
| `MainParameters.ArgvExample` | parser/fixMainParameters.cpp:26-36 | `unsigned main(unsigned char **argv)` becomes `int main(char **argv)` with a signed char |
| `MainParameters.FixMainParameters` | parser/fixMainParameters.cpp:16-41 | requires the parameter-creation pass to be completed. Rewrites the table to `FixAll` of the old table, records the pass as completed, and leaves the catalog and `hasVarArg` unchanged |

## Left out

- The LLVM API is not modelled. The module's identified structs are a sequence of raw names. The module's functions are the program's function table, visited in order: `getFunction` becomes indexing that table. IR type objects are abstract keys (`IrType`).
- `getStructName` is a function parameter of the struct pass, because it is only declared at type/TypeHandler.h:95; its body is not shown.
- `getType`, `getBinaryType`, `toggleSignedness`, `setSigned` and `setUnsigned` are only declared in type/TypeHandler.h:79-110, and their bodies are not part of this model. The `typeDefs`, `sortedTypeDefs` and `pointerTypes` tables are modelled only as state that starts empty.
- `PointerTo` returns the pointer type as a value. The interning of one pointer instance per pointee, and so identity-based type equality, is not captured.
- Ownership and identity are not modelled: `unique_ptr`, `clone()` and aliasing between instances. In particular, the source writes the unsigned flag into a type instance in place. If that instance is shared, for example a cached singleton, the write is visible to every other holder. The model instead rewrites the type stored in `main`'s record, so it captures no such aliasing.
- `accept` (visitor double dispatch) is not modelled; it has no behaviour to state.
- Type.h, Expr.h, Program.h and Func.h are not part of this model. So:
  - `Int128Type` is a scalar without a signedness flag, and the `main` pass leaves it alone;
  - the default `isSimple` of the node base class is taken as false;
  - the pass catalog has only the three passes used here;
  - `addStruct` does not check that struct names are unique.
- Constructors that copy a type from another node require that type to be present: `MakeExtractValue`, `MakeGep` and `MakeSelect`. The source dereferences it unchecked, so a missing type is a null dereference there.
- `Exprs.MakeArrayElement` requires an array-typed base. The source casts without a check, so any other base is undefined behaviour there.
- `Exprs.MakeStackAlloc` keeps only the forwarding `getType`. The copy of the type the source constructor also stores is never observable through `getType`.
- `Exprs.AddOutputExpr` works on the output array by itself. The `AsmExpr` datatype case holds a snapshot of that vector, not the array.
- `StructDeclarations.ParseStructDeclarations` never reads the input field layout of a `__va_list_tag` struct. It always synthesises the four ABI fields and reports no error for an unexpected layout.
- Integer widths: the typedef counter wraps at 2^32 as a C++ `unsigned`, and names are distinct only among fewer than 2^32 successive calls. Switch case keys and struct field indices are unbounded integers.
