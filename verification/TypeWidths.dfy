/** How many bits and bytes a type has: the widths that code is generated with are those of the LLVM types that are
    named in it, and of the sizes that records are laid out with. */
module TypeWidths {
  import opened Ast
  import opened Ints
  import T = TypeRules
  import R = RecordLayout
  import Sem

  datatype LlvmType = VoidType | I8 | I16 | I32 | I64 | FloatType | DoubleType

  /** The bits of a value of the LLVM type, from its name. */
  function BitsOf(t: LlvmType): nat {
    match t
    case VoidType => 0
    case I8 => 8
    case I16 => 16
    case I32 => 32
    case I64 => 64
    case FloatType => 32
    case DoubleType => 64
  }

  /** The name that the generator gives a primitive type, which it takes from its size; none for a size that no type
      has. */
  function TypeToTypeRef(p: T.Prim): Option<LlvmType> {
    var size := R.PrimitiveSize(p);
    if p.Float32? || p.Float64? then
      if size == 4 then Some(FloatType) else if size == 8 then Some(DoubleType) else None
    else
      match size
      case 0 => Some(VoidType)
      case 1 => Some(I8)
      case 2 => Some(I16)
      case 4 => Some(I32)
      case 8 => Some(I64)
      case _ => None
  }

  /** Every primitive type has the LLVM type that its name in the compiler promises, and a char is a byte. */
  lemma NamedTypes()
    ensures TypeToTypeRef(T.Char) == Some(I8) && TypeToTypeRef(T.Int8) == Some(I8)
    ensures TypeToTypeRef(T.Int16) == Some(I16) && TypeToTypeRef(T.Int32) == Some(I32)
    ensures TypeToTypeRef(T.Int64) == Some(I64) && TypeToTypeRef(T.IntPtr) == Some(I64)
    ensures TypeToTypeRef(T.Float32) == Some(FloatType) && TypeToTypeRef(T.Float64) == Some(DoubleType)
    ensures TypeToTypeRef(T.Void) == Some(VoidType)
  {
  }

  /** A primitive type takes as many bytes as a value of its LLVM type has. */
  lemma SizeIsOfType(p: T.Prim)
    ensures TypeToTypeRef(p).Some? && 8 * R.PrimitiveSize(p) == BitsOf(TypeToTypeRef(p).value)
  {
  }

  /** The width that instructions are generated with is that of the type they name. */
  lemma WidthIsOfType(t: Ty)
    requires !t.Err?
    ensures TypeToTypeRef(T.PrimOf(t)).Some? && Width(t) == BitsOf(TypeToTypeRef(T.PrimOf(t)).value)
    ensures Width(t) == 8 * R.PrimitiveSize(T.PrimOf(t))
  {
    SizeIsOfType(T.PrimOf(t));
  }

  /** The numbers that a variable of each type can hold. */
  lemma Ranges(n: int)
    ensures InRange(Width(Char), n) <==> -128 <= n <= 127
    ensures InRange(Width(Byte), n) <==> -128 <= n <= 127
    ensures InRange(Width(Short), n) <==> -32768 <= n <= 32767
    ensures InRange(Width(Int), n) <==> -2147483648 <= n <= 2147483647
    ensures InRange(Width(Long), n) <==> -9223372036854775808 <= n <= 9223372036854775807
    ensures InRange(Width(IntPtr), n) <==> -9223372036854775808 <= n <= 9223372036854775807
  {
    Powers();
  }

  lemma Powers()
    ensures Pow2(7) == 128 && Pow2(15) == 32768 && Pow2(31) == 2147483648 && Pow2(63) == 9223372036854775808
  {
    assert Pow2(7) == 128;
    assert Pow2(15) == 32768 by {
      assert Pow2(11) == 2048;
    }
    assert Pow2(19) == 524288;
    assert Pow2(23) == 8388608;
    assert Pow2(27) == 134217728;
    assert Pow2(31) == 2147483648;
    assert Pow2(35) == 34359738368;
    assert Pow2(39) == 549755813888;
    assert Pow2(43) == 8796093022208;
    assert Pow2(47) == 140737488355328;
    assert Pow2(51) == 2251799813685248;
    assert Pow2(55) == 36028797018963968;
    assert Pow2(59) == 576460752303423488;
  }

  /** Which built-in types count as integers, as floating point, and as references. */
  lemma BuiltinKinds(x: string)
    requires x in T.Builtins()
    ensures T.IsIntegerDesc(T.Builtins(), x) <==> x in {"byte", "short", "int", "long", "intptr", T.ERROR}
    ensures T.IsFloatDesc(T.Builtins(), x) <==> x in {"float", "double", T.ERROR}
    ensures !T.Builtins()[x].Primitive? <==> x in {"string", T.NULL, T.ERROR}
  {
    T.BuiltinsApart();
  }

  /** The names of types in a program, and what they stand for before any definition. */
  lemma ScalarNames(x: string, t: Ty)
    ensures Sem.ScalarTy(x) == Some(t) <==> !t.Err? && x == T.NameOf(t)
    ensures !t.Err? ==> T.NameOf(t) in T.Builtins() && T.Builtins()[T.NameOf(t)] == T.Primitive(T.PrimOf(t))
    ensures Sem.Reserved(x) <==> x in T.Builtins()
  {
    if !t.Err? {
      T.BuiltinScalar(t);
    }
  }
}
