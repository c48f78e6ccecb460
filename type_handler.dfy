/** The type registry: typedef naming, the translation cache and the scalar singletons. */
module TypeHandling {
  import opened Types

  const U32_LIMIT: int := 0x1_0000_0000

  /** The registry's typedef counter is a C++ `unsigned`. */
  newtype u32 = x: int | 0 <= x < U32_LIMIT

  /** Identity of a type object of the loaded IR module, used as a cache key. */
  datatype IrType = IrType(id: nat)

  /** The character for one decimal digit. */
  function DigitChar(d: nat): (c: char)
    requires d < 10
    ensures '0' <= c <= '9'
  {
    (48 + d) as char
  }

  /** `std::to_string` of an unsigned value: decimal, no sign, no leading zeros. */
  function DecimalString(n: nat): (s: string)
    ensures |s| >= 1 && s[|s| - 1] == DigitChar(n % 10)
    ensures n >= 10 <==> |s| >= 2
    ensures forall i :: 0 <= i < |s| ==> '0' <= s[i] <= '9'
    ensures |s| >= 2 ==> s[0] != '0'
  {
    if n < 10 then [DigitChar(n)] else DecimalString(n / 10) + [DigitChar(n % 10)]
  }

  /** Distinct numbers have distinct decimal spellings. */
  lemma {:induction false} DecimalStringInjective(n: nat, m: nat)
    requires DecimalString(n) == DecimalString(m)
    ensures n == m
  {
    var s := DecimalString(n);
    if n >= 10 && m >= 10 {
      assert s[..|s| - 1] == DecimalString(n / 10);
      assert DecimalString(m)[..|s| - 1] == DecimalString(m / 10);
      DecimalStringInjective(n / 10, m / 10);
      assert DigitChar(n % 10) == DigitChar(m % 10);
    }
  }

  /** The name given to the typedef created while the counter holds `count`. */
  function TypeDefName(count: nat): (s: string)
    ensures |s| > 8 && s[..8] == "typeDef_" && s[8..] == DecimalString(count)
  {
    "typeDef_" + DecimalString(count)
  }

  /** Different counter values give different typedef names. */
  lemma TypeDefNamesDistinct(i: nat, j: nat)
    requires i != j
    ensures TypeDefName(i) != TypeDefName(j)
  {
    if TypeDefName(i) == TypeDefName(j) {
      assert TypeDefName(i)[8..] == TypeDefName(j)[8..];
      DecimalStringInjective(i, j);
    }
  }

  /** The counter after one more name was taken: it wraps like a 32-bit unsigned. */
  function Next(count: u32): (r: u32)
    ensures count as int < U32_LIMIT - 1 ==> r as int == count as int + 1
    ensures count as int == U32_LIMIT - 1 ==> r == 0
  {
    ((count as int + 1) % U32_LIMIT) as u32
  }

  /** The counter after `k` names were taken starting from `count`. */
  function After(count: u32, k: nat): (r: u32)
    ensures r as int == (count as int + k) % U32_LIMIT
  {
    if k == 0 then count else Next(After(count, k - 1))
  }

  /** Among fewer than 2^32 successive calls, no two return the same name. */
  lemma SuccessiveNamesDistinct(start: u32, i: nat, j: nat)
    requires i < j < U32_LIMIT
    ensures TypeDefName(After(start, i) as nat) != TypeDefName(After(start, j) as nat)
  {
    assert After(start, i) != After(start, j);
    TypeDefNamesDistinct(After(start, i) as nat, After(start, j) as nat);
  }

  class TypeHandler {
    /** Typedefs keyed by the IR type they name. */
    var typeDefs: map<IrType, Type>
    /** Translations already made, keyed by IR type identity. */
    var typeCache: map<IrType, Type>
    /** Pointer types already interned, keyed by pointee. */
    var pointerTypes: map<Type, Type>
    var typeDefCount: u32
    /** Function-pointer typedefs in the order they are emitted. */
    var sortedTypeDefs: seq<Type>

    const uint: Type := IntegerType(Int, true)
    const uchar: Type := IntegerType(Char, true)
    const ushort: Type := IntegerType(Short, true)
    const ulong: Type := IntegerType(Long, true)

    const sint: Type := IntegerType(Int, false)
    const schar: Type := IntegerType(Char, false)
    const sshort: Type := IntegerType(Short, false)
    const slong: Type := IntegerType(Long, false)

    const int128: Type := Int128Type
    const voidType: Type := VoidType

    const floatType: Type := FloatType
    const doubleType: Type := DoubleType
    const longDoubleType: Type := LongDoubleType

    constructor ()
      ensures typeDefs == map[] && typeCache == map[] && pointerTypes == map[]
      ensures typeDefCount == 0 && sortedTypeDefs == []
    {
      typeDefs := map[];
      typeCache := map[];
      pointerTypes := map[];
      typeDefCount := 0;
      sortedTypeDefs := [];
    }

    /** A fresh typedef name; the counter moves on by exactly one. */
    method GetTypeDefName() returns (ret: string)
      modifies this`typeDefCount
      ensures ret == TypeDefName(old(typeDefCount) as nat)
      ensures typeDefCount == Next(old(typeDefCount))
    {
      ret := "typeDef_" + DecimalString(typeDefCount as nat);
      typeDefCount := ((typeDefCount as int + 1) % U32_LIMIT) as u32;
    }

    /** Stores `built` as the translation of `ty`, replacing any earlier one,
        and returns it. */
    method MakeCachedType(ty: IrType, built: Type) returns (result: Type)
      modifies this`typeCache
      ensures typeCache.Keys == old(typeCache).Keys + {ty}
      ensures ty in typeCache && typeCache[ty] == built && result == typeCache[ty]
      ensures forall k :: k in old(typeCache) && k != ty ==> typeCache[k] == old(typeCache)[k]
    {
      typeCache := typeCache[ty := built];
      result := built;
    }

    predicate HasTypeDefs()
      reads this
    {
      typeDefs != map[]
    }
  }

  /** The program has typedefs exactly when some IR type has one. */
  lemma HasTypeDefsMeaning(th: TypeHandler)
    ensures th.HasTypeDefs() <==> exists k :: k in th.typeDefs
  {
  }

  /** The unsigned singletons carry the unsigned flag, the signed ones do not,
      and each family keeps its own width. */
  lemma ScalarSingletons(th: TypeHandler)
    ensures th.uint.IntegerType? && th.uint.kind == Int && th.uint.unsigned
    ensures th.uchar.IntegerType? && th.uchar.kind == Char && th.uchar.unsigned
    ensures th.ushort.IntegerType? && th.ushort.kind == Short && th.ushort.unsigned
    ensures th.ulong.IntegerType? && th.ulong.kind == Long && th.ulong.unsigned
    ensures th.sint == Signed(th.uint) && th.schar == Signed(th.uchar)
    ensures th.sshort == Signed(th.ushort) && th.slong == Signed(th.ulong)
  {
  }

  /** The first name handed out by a new registry. */
  lemma FirstTypeDefName()
    ensures TypeDefName(0) == "typeDef_0"
  {
  }
}
