/** Which accepted programs the code generator can handle: a check of the syntax tree alone. */
module Lowerable {
  import opened Ast
  import opened Codegen

  /** `CompileConversion` has a case for these two types. */
  predicate HasConversion(from: Ty, to: Ty) {
    from == to || (IsInt(to) && (IsInt(from) || from.Char?))
  }

  predicate LowersAs(e: Exp, t: Ty)
    decreases e, 1
  {
    Lowers(e) && HasConversion(TyOf(e), t)
  }

  /** No bitwise not, no cast of an integer to char, no use of a void value. */
  predicate Lowers(e: Exp)
    decreases e, 0
  {
    match e
    case IntLit(_, _) => true
    case CharLit(_) => true
    case Var(_, t, _) => IsValueTy(t)
    case Unary(op, a, _) => op.Negative? && Lowers(a) && IsValueTy(TyOf(a))
    case Binary(_, l, r, t) => IsInt(t) && LowersAs(l, t) && LowersAs(r, t)
    case Cast(a, _, t) => LowersAs(a, t)
    case Conditional(c, a, b, t) => LowersCond(c) && LowersAs(a, t) && LowersAs(b, t) && IsValueTy(t)
    case Call(sig, args) => LowersArgs(args, sig.params) && !sig.ret.Err?
  }

  predicate LowersArgs(es: seq<Exp>, ts: seq<Ty>)
    decreases es, 0
  {
    es == [] || ts == [] || (LowersAs(es[0], ts[0]) && IsValueTy(ts[0]) && LowersArgs(es[1..], ts[1..]))
  }

  predicate LowersCond(c: Cond)
    decreases c, 0
  {
    match c
    case BinCond(_, _, l, r) => LowersCond(l) && LowersCond(r)
    case Compar(_, op, l, r) =>
      Lowers(l) && LowersAs(r, TyOf(l)) && IsValueTy(TyOf(l)) && (IsInt(TyOf(l)) || op.Eq? || op.Ne?)
  }

  /** The statements after this one are not compiled. */
  predicate Stops(s: Stmt) {
    s.Return? || s.ReturnValue? || (s.IfElse? && Exits(s.thn) && Exits(s.els))
  }

  lemma StopsIs(ret: Ty, el: nat, kl: nat, ls: seq<Local>, c: Ctr, s: Stmt)
    ensures GenStmt(ret, el, kl, ls, c, s).stop == Stops(s)
    ensures Stops(s) ==> StmtExits(s)
  {
    hide GenExp, GenCond, GenStmts, GenBlock, GenCall, Exits;
  }

  /** Every compiled expression can be compiled. */
  predicate CompilesStmt(ret: Ty, s: Stmt)
    decreases s, 0
  {
    match s
    case VarDef(_, _, t, _) => IsValueTy(t)
    case Assign(_, t, _, e) => LowersAs(e, t) && IsValueTy(t)
    case If(c, t) => LowersCond(c) && CompilesStmts(ret, t)
    case IfElse(c, t, e) => LowersCond(c) && CompilesStmts(ret, t) && CompilesStmts(ret, e)
    case While(c, b) => LowersCond(c) && CompilesStmts(ret, b)
    case Break => true
    case Continue => true
    case Return => true
    case ReturnValue(e) => LowersAs(e, ret) && IsValueTy(ret)
    case CallStmt(sig, args) => LowersArgs(args, sig.params) && !sig.ret.Err?
    case Block(b) => CompilesStmts(ret, b)
    case Echo(e) => Lowers(e) && (TyOf(e).Char? || HasConversion(TyOf(e), Long))
  }

  predicate CompilesStmts(ret: Ty, ss: seq<Stmt>)
    decreases ss, 0
  {
    ss == [] || (CompilesStmt(ret, ss[0]) && (Stops(ss[0]) || CompilesStmts(ret, ss[1..])))
  }

  /** No compiled `if` has exactly one arm that exits. */
  predicate NoMixedIf(s: Stmt)
    decreases s, 0
  {
    match s
    case If(_, t) => NoMixedIfs(t)
    case IfElse(_, t, e) => NoMixedIfs(t) && NoMixedIfs(e) && Exits(t) == Exits(e)
    case While(_, b) => NoMixedIfs(b)
    case Block(b) => NoMixedIfs(b)
    case _ => true
  }

  predicate NoMixedIfs(ss: seq<Stmt>)
    decreases ss, 0
  {
    ss == [] || (NoMixedIf(ss[0]) && (Stops(ss[0]) || NoMixedIfs(ss[1..])))
  }

  predicate LowersStmt(ret: Ty, s: Stmt) {
    CompilesStmt(ret, s) && NoMixedIf(s)
  }

  predicate LowersStmts(ret: Ty, ss: seq<Stmt>) {
    CompilesStmts(ret, ss) && NoMixedIfs(ss)
  }

  // Where the code of a statement leaves the block it was emitted into

  /** Whether the code of a statement ends in a terminator, `closed` telling whether the code before it does. */
  predicate Closes(s: Stmt, closed: bool)
    decreases s, 0
  {
    match s
    case Break => true
    case Continue => true
    case Return => true
    case ReturnValue(_) => true
    case Block(b) => AllClose(b, closed)
    case IfElse(_, t, e) => Exits(t) && Exits(e) && AllClose(e, false)
    case _ => false
  }

  predicate AllClose(ss: seq<Stmt>, closed: bool)
    decreases ss, 0
  {
    if ss == [] then closed
    else if Stops(ss[0]) then Closes(ss[0], closed)
    else AllClose(ss[1..], Closes(ss[0], closed))
  }

  /** Where a branch is left out because a block exits, the code of the block ends in a terminator: no statement
      that is compiled after the exit leaves a block open. */
  predicate Tidy(s: Stmt)
    decreases s, 0
  {
    match s
    case If(_, t) => AllTidy(t) && (Exits(t) ==> AllClose(t, false))
    case IfElse(_, t, e) => AllTidy(t) && AllTidy(e) && (Exits(t) ==> AllClose(t, false))
    case While(_, b) => AllTidy(b) && (Exits(b) ==> AllClose(b, false))
    case Block(b) => AllTidy(b)
    case _ => true
  }

  predicate AllTidy(ss: seq<Stmt>)
    decreases ss, 0
  {
    ss == [] || (Tidy(ss[0]) && (Stops(ss[0]) || AllTidy(ss[1..])))
  }

  /** What semantic analysis makes sure of: break and continue are inside loops. */
  predicate InLoops(s: Stmt, loop: bool)
    decreases s, 0
  {
    match s
    case Break => loop
    case Continue => loop
    case If(_, t) => AllInLoops(t, loop)
    case IfElse(_, t, e) => AllInLoops(t, loop) && AllInLoops(e, loop)
    case While(_, b) => AllInLoops(b, true)
    case Block(b) => AllInLoops(b, loop)
    case _ => true
  }

  predicate AllInLoops(ss: seq<Stmt>, loop: bool)
    decreases ss, 0
  {
    ss == [] || (InLoops(ss[0], loop) && AllInLoops(ss[1..], loop))
  }
}
