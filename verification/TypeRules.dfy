/** The type rules over all types: primitives, strings, arrays, records and aliases, by name of their definition. */
module TypeRules {
  import Ast
  import opened Sem
  import opened TypeAliases

  datatype Prim = Char | Int8 | Int16 | Int32 | Int64 | Float32 | Float64 | Void | IntPtr

  datatype Field = Field(name: string, t: string)

  /** An array knows the description of its elements as it was written, and the definition of their type. */
  datatype Desc =
    | Primitive(code: Prim)
    | Special
    | Array(inner: Desc, innerDef: string)
    | Record(fields: seq<Field>)
    | Alias(aliased: string)

  /** All type definitions, by name. */
  type Types = map<string, Desc>

  const ERROR := "<error-type>"
  const NULL := "<null-type>"
  const STRING := "string"
  const CHAR := "char"

  function AliasMap(u: Types): Aliases {
    map t | t in u && u[t].Alias? :: TName(u[t].aliased)
  }

  function Innermost(d: Desc): (r: Desc)
    ensures !r.Array?
  {
    if d.Array? then Innermost(d.inner) else d
  }

  function Depth(d: Desc): nat {
    if d.Array? then 1 + Depth(d.inner) else 0
  }

  /** A definition mentions only types of the universe, is built in exactly if its name is, and as an array knows
      its elements by the name they were written with, if it was a name. */
  predicate WellDefined(u: Types, t: string)
    requires t in u
  {
    && (u[t].Alias? ==> u[t].aliased in u)
    && (u[t].Array? && Innermost(u[t]).Alias? ==> Innermost(u[t]).aliased in u)
    && (u[t].Special? <==> t == ERROR || t == NULL || t == STRING)
    && (u[t] == Primitive(Char) <==> t == CHAR)
    && (u[t].Array? && u[t].inner.Alias? ==> u[t].innerDef == u[t].inner.aliased)
    && (u[t].Array? && !u[t].inner.Alias? ==> u[t].innerDef != CHAR)
  }

  /** The built-in types are there, every type is well defined, and no alias runs in a circle. */
  ghost predicate Universe(u: Types) {
    && Acyclic(AliasMap(u))
    && ERROR in u && NULL in u && STRING in u && CHAR in u
    && (forall t :: t in u ==> WellDefined(u, t))
  }

  function Underlying(u: Types, t: string): string
    requires t in u
  {
    var r := Follow(AliasMap(u), TName(t), |AliasMap(u)|);
    if r.TName? then r.name else t
  }

  lemma {:induction false} FollowStays(u: Types, t: string, n: nat)
    requires Universe(u) && t in u
    ensures var r := Follow(AliasMap(u), TName(t), n); r.TName? && r.name in u
    decreases n
  {
    hide Acyclic;
    if n > 0 && u[t].Alias? {
      FollowStays(u, u[t].aliased, n - 1);
    }
  }

  lemma UnderlyingIs(u: Types, t: string)
    requires Universe(u) && t in u
    ensures var r := Underlying(u, t);
            r in u && !u[r].Alias? && Underlying(u, r) == r && (!u[t].Alias? ==> r == t)
  {
    hide Acyclic;
    var al := AliasMap(u);
    FollowStays(u, t, |al|);
    AcyclicEnds(al, TName(t));
  }

  // The rules

  predicate IsIntegerDesc(u: Types, t: string)
    requires t in u
  {
    t == ERROR
    || (u[t].Primitive? && match u[t].code
                           case Int8 | Int16 | Int32 | Int64 | IntPtr => true
                           case _ => false)
  }

  predicate IsFloatDesc(u: Types, t: string)
    requires t in u
  {
    t == ERROR || (u[t].Primitive? && (u[t].code.Float32? || u[t].code.Float64?))
  }

  ghost predicate IsIntegerType(u: Types, t: string)
    requires Universe(u) && t in u
  {
    UnderlyingIs(u, t);
    IsIntegerDesc(u, Underlying(u, t))
  }

  ghost predicate IsFloatingPointType(u: Types, t: string)
    requires Universe(u) && t in u
  {
    UnderlyingIs(u, t);
    IsFloatDesc(u, Underlying(u, t))
  }

  ghost predicate IsRefType(u: Types, t: string)
    requires Universe(u) && t in u
  {
    UnderlyingIs(u, t);
    Underlying(u, t) == ERROR || !u[Underlying(u, t)].Primitive?
  }

  /** Two arrays of the same number of dimensions whose innermost elements are written as names of the same type. */
  ghost predicate SameElements(u: Types, a: Desc, b: Desc)
    requires Innermost(a).Alias? ==> Innermost(a).aliased in u
    requires Innermost(b).Alias? ==> Innermost(b).aliased in u
  {
    && Depth(a) == Depth(b) && Innermost(a).Alias? && Innermost(b).Alias?
    && Underlying(u, Innermost(a).aliased) == Underlying(u, Innermost(b).aliased)
  }

  /** What may be assigned, said without a walk: the same type, numbers of the same sort, null to references,
      character arrays to strings, and arrays of the same elements; anything goes with the error type. */
  ghost predicate Assignable(u: Types, to: string, from: string)
    requires Universe(u) && to in u && from in u
  {
    UnderlyingIs(u, to);
    UnderlyingIs(u, from);
    var a, b := Underlying(u, to), Underlying(u, from);
    || a == ERROR || b == ERROR
    || a == b
    || (a == STRING && u[b].Array? && u[b].innerDef == CHAR)
    || (b == NULL && !u[a].Primitive?)
    || (u[a].Array? && u[b].Array? && SameElements(u, u[a], u[b]))
    || (IsFloatDesc(u, a) && IsFloatDesc(u, b))
    || (IsIntegerDesc(u, a) && IsIntegerDesc(u, b))
  }

  method GetUnderlying(u: Types, t: string) returns (r: string)
    requires Universe(u) && t in u
    ensures r == Underlying(u, t) && r in u && !u[r].Alias?
  {
    UnderlyingIs(u, t);
    var n := GetUnderlyingType(AliasMap(u), TName(t));
    FollowStays(u, t, |AliasMap(u)|);
    r := n.name;
  }

  /** The order of the tests, and the walk down two array types. */
  method IsTypeAssignableFrom(u: Types, to: string, from: string) returns (ok: bool)
    requires Universe(u) && to in u && from in u
    ensures ok <==> Assignable(u, to, from)
  {
    hide Underlying, Acyclic;
    var a := GetUnderlying(u, to);
    var b := GetUnderlying(u, from);
    if a == ERROR || b == ERROR {
      return true;
    }
    if a == STRING && u[b].Array? && u[b].innerDef == CHAR {
      return true;
    }
    if b == NULL {
      return !u[a].Primitive?;
    }
    if u[a].Array? && u[b].Array? {
      var ad, bd := u[a], u[b];
      while ad.Array? && bd.Array?
        invariant Innermost(ad) == Innermost(u[a]) && Innermost(bd) == Innermost(u[b])
        invariant Depth(u[a]) - Depth(ad) == Depth(u[b]) - Depth(bd)
        decreases ad
      {
        ad, bd := ad.inner, bd.inner;
      }
      if ad.Array? || bd.Array? || ad.Alias? != bd.Alias? || ad.Record? != bd.Record?
         || ad.Primitive? != bd.Primitive? {
        // the descriptions are of different kinds
        assert a != b;
        return false;
      }
      if ad.Alias? && bd.Alias? {
        var ae := GetUnderlying(u, ad.aliased);
        var be := GetUnderlying(u, bd.aliased);
        return ae == be;
      }
    }
    if u[a].Primitive? && (u[a].code.Float32? || u[a].code.Float64?) {
      return u[b].Primitive? && (u[b].code.Float32? || u[b].code.Float64?);
    }
    if IsIntegerDesc(u, a) && IsIntegerDesc(u, b) {
      return true;
    }
    ok := a == b;
  }

  // Properties of assignability

  /** Only the types under aliases matter. */
  lemma ThroughAliases(u: Types, a: string, b: string)
    requires Universe(u) && a in u && b in u
    ensures Underlying(u, a) in u && Underlying(u, b) in u
    ensures Assignable(u, a, b) <==> Assignable(u, Underlying(u, a), Underlying(u, b))
  {
    UnderlyingIs(u, a);
    UnderlyingIs(u, b);
  }

  lemma Reflexive(u: Types, t: string)
    requires Universe(u) && t in u
    ensures Assignable(u, t, t)
  {
  }

  ghost predicate IsArray(u: Types, t: string)
    requires Universe(u) && t in u
  {
    UnderlyingIs(u, t);
    u[Underlying(u, t)].Array?
  }

  /** On array types assignability is an equivalence. */
  lemma ArraysEquivalent(u: Types, a: string, b: string, c: string)
    requires Universe(u) && a in u && b in u && c in u && IsArray(u, a) && IsArray(u, b) && IsArray(u, c)
    ensures Assignable(u, a, a)
    ensures Assignable(u, a, b) ==> Assignable(u, b, a)
    ensures Assignable(u, a, b) && Assignable(u, b, c) ==> Assignable(u, a, c)
  {
    hide Underlying, Acyclic;
    UnderlyingIs(u, a);
    UnderlyingIs(u, b);
    UnderlyingIs(u, c);
  }

  ghost predicate IsError(u: Types, t: string)
    requires Universe(u) && t in u
  {
    Underlying(u, t) == ERROR
  }

  /** The one gap in transitivity: a string takes an array of `char`, which takes an array of a type that is another
      name for `char`, which the string does not take. */
  ghost predicate CharGap(u: Types, a: string, b: string, c: string)
    requires Universe(u) && a in u && b in u && c in u
  {
    UnderlyingIs(u, b);
    UnderlyingIs(u, c);
    && Underlying(u, a) == STRING
    && u[Underlying(u, b)].Array? && u[Underlying(u, b)].innerDef == CHAR
    && u[Underlying(u, c)].Array? && u[Underlying(u, c)].innerDef != CHAR
  }

  lemma TransitiveIff(u: Types, a: string, b: string, c: string)
    requires Universe(u) && a in u && b in u && c in u
    requires !IsError(u, a) && !IsError(u, b) && !IsError(u, c)
    requires Assignable(u, a, b) && Assignable(u, b, c)
    ensures Assignable(u, a, c) <==> !CharGap(u, a, b, c)
  {
    hide Underlying, Acyclic;
    UnderlyingIs(u, a);
    UnderlyingIs(u, b);
    UnderlyingIs(u, c);
    UnderlyingIs(u, CHAR);
    var a', b', c' := Underlying(u, a), Underlying(u, b), Underlying(u, c);
    if a' == STRING && u[b'].Array? && u[b'].innerDef == CHAR {
      assert u[b'].inner.Alias?;
    }
  }

  function Letters(): Types {
    map[
      ERROR := Special, NULL := Special, STRING := Special, CHAR := Primitive(Char), "letter" := Alias(CHAR),
      "chars" := Array(Alias(CHAR), CHAR), "letters" := Array(Alias("letter"), "letter")
    ]
  }

  lemma LettersAcyclic()
    ensures Acyclic(AliasMap(Letters())) && AliasMap(Letters()) == map["letter" := TName(CHAR)]
  {
    var al := AliasMap(Letters());
    assert al == map["letter" := TName(CHAR)];
    forall x, n: nat | x in al && n > 0 ensures Follow(al, TName(x), n) != TName(x) {
      assert Ended(al, TName(CHAR));
      assert Follow(al, TName(x), n) == TName(CHAR);
    }
  }

  lemma LettersUniverse()
    ensures Universe(Letters()) && Underlying(Letters(), "letter") == CHAR
  {
    hide Acyclic, AliasMap, Follow, Underlying, WellDefined;
    LettersAcyclic();
    LettersFollow();
    forall t | t in Letters() ensures WellDefined(Letters(), t) {
      LetterDefined(t);
    }
  }

  lemma LetterDefined(t: string)
    requires t in Letters()
    ensures WellDefined(Letters(), t)
  {
    var u := Letters();
    assert |ERROR| == 12 && |NULL| == 11 && |CHAR| == 4 && |STRING| == 6;
    if t == "letter" {
      assert t[0] != STRING[0];
    } else if t == "chars" {
      assert |t| == 5;
    } else if t == "letters" {
      assert |t| == 7;
    }
  }

  lemma LettersFollow()
    ensures Underlying(Letters(), "letter") == CHAR
  {
    hide Acyclic;
    LettersAcyclic();
    assert Follow(AliasMap(Letters()), TName("letter"), 1) == TName(CHAR);
  }

  /** The gap is there in a program with `letter = char`, `chars = [char]` and `letters = [letter]`. */
  lemma GapExists()
    ensures var u := Letters();
            && Universe(u) && "chars" in u && "letters" in u && STRING in u
            && Assignable(u, STRING, "chars") && Assignable(u, "chars", "letters")
            && !Assignable(u, STRING, "letters")
  {
    hide Acyclic, AliasMap, Underlying;
    var u := Letters();
    LettersUniverse();
    UnderlyingIs(u, STRING);
    UnderlyingIs(u, "chars");
    UnderlyingIs(u, "letters");
    UnderlyingIs(u, CHAR);
  }

  // Casts

  ghost predicate Castable(u: Types, to: string, from: string)
    requires Universe(u) && to in u && from in u
  {
    UnderlyingIs(u, to);
    UnderlyingIs(u, from);
    var a, b := Underlying(u, to), Underlying(u, from);
    if u[a].Primitive? && u[b].Primitive? then
      !(a == CHAR && IsFloatDesc(u, b)) && !(b == CHAR && IsFloatDesc(u, a))
    else Assignable(u, to, from)
  }

  method IsTypeCastableFrom(u: Types, to: string, from: string) returns (ok: bool)
    requires Universe(u) && to in u && from in u
    ensures ok <==> Castable(u, to, from)
  {
    var a := GetUnderlying(u, to);
    var b := GetUnderlying(u, from);
    if u[a].Primitive? && u[b].Primitive? {
      if u[a].code.Char? && IsFloatDesc(u, b) {
        return false;
      }
      if u[b].code.Char? && IsFloatDesc(u, a) {
        return false;
      }
      return true;
    }
    ok := IsTypeAssignableFrom(u, to, from);
  }

  lemma AssignableCastable(u: Types, to: string, from: string)
    requires Universe(u) && to in u && from in u && Assignable(u, to, from)
    ensures Castable(u, to, from)
  {
    hide Underlying, Acyclic;
    UnderlyingIs(u, to);
    UnderlyingIs(u, from);
  }

  // Arithmetic

  /** The operand types an operator takes: two integers, two floating-point numbers if it is arithmetic, two strings
      if it is a sum, one and the same integer type if it works on bits. */
  ghost predicate Takes(u: Types, l: string, r: string, op: Ast.BinOp)
    requires Universe(u) && l in u && r in u
  {
    UnderlyingIs(u, l);
    UnderlyingIs(u, r);
    var a, b := Underlying(u, l), Underlying(u, r);
    || a == ERROR || b == ERROR
    || (IsIntegerDesc(u, a) && IsIntegerDesc(u, b) && (op.BitAnd? || op.BitOr? || op.Xor? ==> a == b))
    || (IsFloatDesc(u, a) && IsFloatDesc(u, b) && (op.Add? || op.Sub? || op.Mul? || op.Div? || op.Mod?))
    || (a == STRING && b == STRING && op.Add?)
  }

  method GetBinopResultType(u: Types, l: string, r: string, op: Ast.BinOp) returns (t: Ast.Option<string>)
    requires Universe(u) && l in u && r in u
    ensures t.Some? <==> Takes(u, l, r, op)
    ensures t.Some? ==> t.value == Underlying(u, l)
    ensures t.Some? ==> t.value in u && Assignable(u, t.value, l) && Assignable(u, t.value, r)
  {
    hide Underlying, Acyclic;
    UnderlyingIs(u, l);
    UnderlyingIs(u, r);
    var a := GetUnderlying(u, l);
    var b := GetUnderlying(u, r);
    if a == ERROR || b == ERROR {
      return Ast.Some(a);
    }
    var ok := IsTypeAssignableFrom(u, a, b);
    match op
    case BitAnd | BitOr | Xor =>
      return if a == b && IsIntegerDesc(u, a) then Ast.Some(a) else Ast.None;
    case Shr | Shl =>
      return if ok && IsIntegerDesc(u, a) && IsIntegerDesc(u, b) then Ast.Some(a) else Ast.None;
    case _ =>
      if a == STRING && b == STRING && op.Add? {
        return Ast.Some(a);
      }
      return if ok && (IsIntegerDesc(u, a) || IsFloatDesc(u, a)) && (IsIntegerDesc(u, b) || IsFloatDesc(u, b))
        then Ast.Some(a) else Ast.None;
  }

  /** Whatever an operator yields can be assigned from both of its operands. */
  lemma ResultAssignable(u: Types, l: string, r: string, op: Ast.BinOp)
    requires Universe(u) && l in u && r in u && Takes(u, l, r, op)
    ensures Underlying(u, l) in u
    ensures Assignable(u, Underlying(u, l), l) && Assignable(u, Underlying(u, l), r)
  {
    hide Underlying, Acyclic;
    UnderlyingIs(u, l);
    UnderlyingIs(u, r);
  }

  // Comparison, negation and choice

  ghost predicate Comparable(u: Types, a: string, b: string, op: Ast.CmpOp)
    requires Universe(u) && a in u && b in u
  {
    if op.Eq? || op.Ne? then Assignable(u, a, b) else IsIntegerType(u, a) && IsIntegerType(u, b)
  }

  method TypeCanCompare(u: Types, l: string, r: string, op: Ast.CmpOp) returns (ok: bool)
    requires Universe(u) && l in u && r in u
    ensures ok <==> Comparable(u, l, r, op)
  {
    hide Underlying, Acyclic;
    UnderlyingIs(u, l);
    UnderlyingIs(u, r);
    var a := GetUnderlying(u, l);
    var b := GetUnderlying(u, r);
    match op
    case Eq | Ne =>
      ok := IsTypeAssignableFrom(u, a, b);
      ThroughAliases(u, l, r);
    case _ =>
      ok := IsIntegerDesc(u, a) && IsIntegerDesc(u, b);
  }

  /** What can be ordered can be tested for equality, both ways round. */
  lemma OrderedComparable(u: Types, a: string, b: string, op: Ast.CmpOp, any: Ast.CmpOp)
    requires Universe(u) && a in u && b in u && !op.Eq? && !op.Ne? && Comparable(u, a, b, op)
    ensures Comparable(u, a, b, any) && Comparable(u, b, a, any)
  {
    hide Underlying, Acyclic;
    UnderlyingIs(u, a);
    UnderlyingIs(u, b);
  }

  /** The operand types a unary operator takes: numbers for the sign, integers for the bits. */
  ghost predicate TakesOne(u: Types, t: string, op: Ast.UnOp)
    requires Universe(u) && t in u
  {
    IsIntegerType(u, t) || (op.Negative? && IsFloatingPointType(u, t))
  }

  method GetUnopResultType(u: Types, t: string, op: Ast.UnOp) returns (r: Ast.Option<string>)
    requires Universe(u) && t in u
    ensures r.Some? <==> TakesOne(u, t, op)
    ensures r.Some? ==> r.value == Underlying(u, t)
  {
    hide Underlying, Acyclic;
    UnderlyingIs(u, t);
    var a := GetUnderlying(u, t);
    if a == ERROR {
      return Ast.Some(a);
    }
    if !IsIntegerDesc(u, a) && !IsFloatDesc(u, a) {
      return Ast.None;
    }
    if op.BitNot? {
      return if IsIntegerDesc(u, a) then Ast.Some(a) else Ast.None;
    }
    r := Ast.Some(a);
  }

  /** A conditional expression has the type of its first arm, which the second one can be assigned to. */
  method GetCondExpResultType(u: Types, thn: string, els: string) returns (r: Ast.Option<string>)
    requires Universe(u) && thn in u && els in u
    ensures r == if Assignable(u, thn, els) then Ast.Some(thn) else Ast.None
  {
    var ok := IsTypeAssignableFrom(u, thn, els);
    r := if ok then Ast.Some(thn) else Ast.None;
  }

  // The rules of scalar programs are these rules

  /** The built-in name of a scalar type. */
  function NameOf(t: Ast.Ty): string {
    match t
    case Err => ERROR
    case Void => "void"
    case Char => CHAR
    case Byte => "byte"
    case Short => "short"
    case Int => "int"
    case Long => "long"
    case IntPtr => "intptr"
  }

  function PrimOf(t: Ast.Ty): Prim
    requires !t.Err?
  {
    match t
    case Void => Void
    case Char => Char
    case Byte => Int8
    case Short => Int16
    case Int => Int32
    case Long => Int64
    case IntPtr => IntPtr
  }

  /** A universe with the scalar types of the language. */
  ghost predicate HasScalars(u: Types) {
    && Universe(u)
    && forall t: Ast.Ty :: NameOf(t) in u && u[NameOf(t)] == if t.Err? then Special else Primitive(PrimOf(t))
  }

  lemma NamesApart(a: Ast.Ty, b: Ast.Ty, u: Types)
    requires HasScalars(u)
    ensures NameOf(a) == NameOf(b) <==> a == b
    ensures NameOf(a) in u && Underlying(u, NameOf(a)) == NameOf(a) && NameOf(a) != STRING && NameOf(a) != NULL
  {
    hide Underlying, Acyclic;
    UnderlyingIs(u, NameOf(a));
    assert u[NameOf(a)] == if a.Err? then Special else Primitive(PrimOf(a));
    assert u[NameOf(b)] == if b.Err? then Special else Primitive(PrimOf(b));
    assert |ERROR| == 12 && |NULL| == 11;
    if !a.Err? {
      assert WellDefined(u, NameOf(a));
    } else {
      assert ERROR != STRING && ERROR != NULL by { assert |STRING| == 6; }
    }
  }

  lemma ScalarDescs(u: Types, a: Ast.Ty)
    requires HasScalars(u)
    ensures NameOf(a) in u && (IsIntegerDesc(u, NameOf(a)) <==> IntLike(a)) && (IsFloatDesc(u, NameOf(a)) <==> a.Err?)
    ensures u[NameOf(a)].Primitive? <==> !a.Err?
    ensures !u[NameOf(a)].Array?
  {
    NamesApart(a, Ast.Err, u);
    assert u[NameOf(a)] == if a.Err? then Special else Primitive(PrimOf(a));
  }

  /** On scalar types the short rules that bodies are resolved with say what the rules over all types say. */
  lemma ScalarRulesAgree(u: Types, a: Ast.Ty, b: Ast.Ty, op: Ast.BinOp)
    requires HasScalars(u)
    ensures NameOf(a) in u && NameOf(b) in u
    ensures Sem.Assignable(a, b) <==> Assignable(u, NameOf(a), NameOf(b))
    ensures Sem.Castable(a, b) <==> Castable(u, NameOf(a), NameOf(b))
    ensures Sem.BinopType(a, b, op).Some? <==> Takes(u, NameOf(a), NameOf(b), op)
    ensures Sem.BinopType(a, b, op).Some? ==> NameOf(Sem.BinopType(a, b, op).value) == Underlying(u, NameOf(a))
    ensures Sem.ConditionalType(a, b) == if Assignable(u, NameOf(a), NameOf(b)) then Ast.Some(a) else Ast.None
  {
    hide Underlying, Acyclic, NameOf, IsIntegerDesc, IsFloatDesc;
    NamesApart(a, b, u);
    NamesApart(b, a, u);
    NamesApart(a, Ast.Err, u);
    NamesApart(b, Ast.Err, u);
    NamesApart(a, Ast.Char, u);
    NamesApart(b, Ast.Char, u);
    ErrorAndChar();
    ScalarDescs(u, a);
    ScalarDescs(u, b);
  }

  lemma ScalarOperatorsAgree(u: Types, a: Ast.Ty, b: Ast.Ty, cmp: Ast.CmpOp, op: Ast.UnOp)
    requires HasScalars(u)
    ensures NameOf(a) in u && NameOf(b) in u
    ensures Sem.CanCompare(a, b, cmp) <==> Comparable(u, NameOf(a), NameOf(b), cmp)
    ensures Sem.UnopType(a) == if TakesOne(u, NameOf(a), op) then Ast.Some(a) else Ast.None
  {
    hide Underlying, Acyclic, NameOf, IsIntegerDesc, IsFloatDesc, Assignable;
    NamesApart(a, b, u);
    NamesApart(b, a, u);
    ScalarDescs(u, a);
    ScalarDescs(u, b);
    ScalarRulesAgree(u, a, b, Ast.Add);
  }

  lemma ErrorAndChar()
    ensures NameOf(Ast.Err) == ERROR && NameOf(Ast.Char) == CHAR
  {
  }

  /** What there is before any definition. */
  function Builtins(): Types {
    map[
      ERROR := Special, NULL := Special, STRING := Special, CHAR := Primitive(Char), "void" := Primitive(Void),
      "byte" := Primitive(Int8), "short" := Primitive(Int16), "int" := Primitive(Int32), "long" := Primitive(Int64),
      "intptr" := Primitive(IntPtr), "float" := Primitive(Float32), "double" := Primitive(Float64)
    ]
  }

  lemma BuiltinsApart()
    ensures |ERROR| == 12 && |NULL| == 11 && STRING != "intptr" && STRING != "double" && "intptr" != "double"
    ensures CHAR != "void" && CHAR != "byte" && CHAR != "long"
    ensures "void" != "byte" && "void" != "long" && "byte" != "long"
    ensures "short" != "float"
  {
    assert STRING[0] == 's' && "intptr"[0] == 'i' && "double"[0] == 'd';
    assert CHAR[0] == 'c' && "void"[0] == 'v' && "byte"[0] == 'b' && "long"[0] == 'l';
    assert "short"[0] == 's' && "float"[0] == 'f';
  }

  lemma BuiltinScalars()
    ensures HasScalars(Builtins())
  {
    var u := Builtins();
    BuiltinsApart();
    assert AliasMap(u) == map[];
    assert Acyclic(AliasMap(u));
    forall t | t in u ensures WellDefined(u, t) {
      BuiltinDefined(t);
    }
    forall t: Ast.Ty ensures NameOf(t) in u && u[NameOf(t)] == if t.Err? then Special else Primitive(PrimOf(t)) {
      BuiltinScalar(t);
    }
  }

  lemma BuiltinDefined(t: string)
    requires t in Builtins()
    ensures WellDefined(Builtins(), t)
  {
    BuiltinsApart();
  }

  lemma BuiltinScalar(t: Ast.Ty)
    ensures var u := Builtins(); NameOf(t) in u && u[NameOf(t)] == if t.Err? then Special else Primitive(PrimOf(t))
  {
    BuiltinsApart();
  }
}
