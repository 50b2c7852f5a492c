/** The syntax tree as the parser leaves it: types are names, and expressions have no types yet. */
module Raw {
  import opened Ints
  import opened Ast

  /** The lexer reads an integer literal into 64 bits and a character literal into 8. */
  type LongLit = n: int | InRange(64, n) witness Zero(64)
  type CharCode = n: int | InRange(8, n) witness Zero(8)

  function Zero(w: nat): (n: int)
    requires w > 0
    ensures InRange(w, n)
  {
    0
  }

  datatype RExp =
    | RInt(n: LongLit)
    | RChar(c: CharCode)
    | RVar(x: string)
    | RUnary(uop: UnOp, arg: RExp)
    | RBinary(bop: BinOp, l: RExp, r: RExp)
    | RCast(castee: RExp, tname: string)
    | RConditional(cond: RCond, thn: RExp, els: RExp)
    | RCall(fname: string, args: seq<RExp>)

  datatype RCond =
    | RBinCond(negate: bool, cop: CondOp, lc: RCond, rc: RCond)
    | RCompar(negate: bool, cmp: CmpOp, le: RExp, re: RExp)

  datatype RStmt =
    | RVarDef(x: string, tname: string, node: Node)
    | RAssign(x: string, e: RExp)
    | RIf(c: RCond, thn: seq<RStmt>)
    | RIfElse(c: RCond, thn: seq<RStmt>, els: seq<RStmt>)
    | RWhile(c: RCond, body: seq<RStmt>)
    | RBreak
    | RContinue
    | RReturn
    | RReturnValue(e: RExp)
    | RCallStmt(fname: string, args: seq<RExp>)
    | RBlock(body: seq<RStmt>)
    | REcho(e: RExp)

  datatype Param = Param(name: string, tname: string, node: Node)

  datatype Def =
    | TypeDef(name: string, aliased: string)
    | FuncDef(name: string, params: seq<Param>, ret: string, body: Option<seq<RStmt>>)
    | GlobalDef(name: string, tname: string, node: Node)
}
