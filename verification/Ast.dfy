/** The scalar part of the syntax tree after semantic analysis: every expression carries its type. */
module Ast {

  datatype Option<+T> = None | Some(value: T)

  /** `Err` is the type given to a symbol whose declared type could not be found. */
  datatype Ty = Err | Void | Char | Byte | Short | Int | Long | IntPtr

  predicate IsInt(t: Ty) {
    t.Byte? || t.Short? || t.Int? || t.Long? || t.IntPtr?
  }

  /** Types whose values a variable can hold. */
  predicate IsValueTy(t: Ty) {
    t.Char? || IsInt(t)
  }

  /** Size in bits, on a machine with 64-bit pointers. */
  function Width(t: Ty): nat {
    match t
    case Err => 0
    case Void => 0
    case Char => 8
    case Byte => 8
    case Short => 16
    case Int => 32
    case Long => 64
    case IntPtr => 64
  }

  datatype BinOp = Add | Sub | Mul | Div | Mod | Shr | Shl | BitAnd | BitOr | Xor
  datatype UnOp = Negative | BitNot
  datatype CmpOp = Gt | Ge | Eq | Ne | Le | Lt
  datatype CondOp = And | Or

  /** A node of the tree that the parser built, as its address tells it from all others. */
  type Node = nat

  /** The definition that a variable was resolved to. */
  datatype Definition = VarDefinition(node: Node) | ParamDefinition(node: Node)

  /** What a call node knows of its callee. */
  datatype Sig = Sig(name: string, params: seq<Ty>, ret: Ty)

  datatype Exp =
    | IntLit(n: int, lty: Ty)
    | CharLit(c: int)
    | Var(x: string, vty: Ty, def: Definition)
    | Unary(uop: UnOp, arg: Exp, uty: Ty)
    | Binary(bop: BinOp, l: Exp, r: Exp, bty: Ty)
    | Cast(castee: Exp, tname: string, cty: Ty)
    | Conditional(cond: Cond, thn: Exp, els: Exp, ety: Ty)
    | Call(sig: Sig, args: seq<Exp>)

  datatype Cond =
    | BinCond(negate: bool, cop: CondOp, lc: Cond, rc: Cond)
    | Compar(negate: bool, cmp: CmpOp, le: Exp, re: Exp)

  datatype Stmt =
    | VarDef(x: string, tname: string, t: Ty, node: Node)
    | Assign(x: string, t: Ty, def: Definition, e: Exp)
    | If(c: Cond, thn: seq<Stmt>)
    | IfElse(c: Cond, thn: seq<Stmt>, els: seq<Stmt>)
    | While(c: Cond, body: seq<Stmt>)
    | Break
    | Continue
    | Return
    | ReturnValue(e: Exp)
    | CallStmt(sig: Sig, args: seq<Exp>)
    | Block(body: seq<Stmt>)
    | Echo(e: Exp)

  datatype Func = Func(sig: Sig, params: seq<string>, nodes: seq<Node>, body: seq<Stmt>)

  /** The functions that have a body, by name. */
  type Program = map<string, Func>

  function TyOf(e: Exp): Ty {
    match e
    case IntLit(_, t) => t
    case CharLit(_) => Char
    case Var(_, t, _) => t
    case Unary(_, _, t) => t
    case Binary(_, _, _, t) => t
    case Cast(_, _, t) => t
    case Conditional(_, _, _, t) => t
    case Call(sig, _) => sig.ret
  }

  /** The `allPathsExit` mark of a block, as semantic analysis leaves it. */
  predicate Exits(ss: seq<Stmt>)
    decreases ss
  {
    ss != [] && (StmtExits(ss[0]) || Exits(ss[1..]))
  }

  predicate StmtExits(s: Stmt)
    decreases s
  {
    match s
    case Break => true
    case Continue => true
    case Return => true
    case ReturnValue(_) => true
    case Block(b) => Exits(b)
    case IfElse(_, t, e) => Exits(t) && Exits(e)
    case _ => false
  }

  predicate Distinct(names: seq<string>) {
    forall i, j :: 0 <= i < j < |names| ==> names[i] != names[j]
  }
}
