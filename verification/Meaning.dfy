/** Which typed trees have a meaning: analysis lets pass the use of a void value and the cast of an integer to char,
    for which there is none. */
module Meaning {
  import opened Ast
  import opened Typing
  import L = Lowerable
  import S = Source

  /** Every expression that is used as a value has the type of one, and no integer is cast to char. */
  predicate Meant(e: Exp)
    decreases e, 0
  {
    && IsValueTy(TyOf(e))
    && match e
       case IntLit(_, _) => true
       case CharLit(_) => true
       case Var(_, _, _) => true
       case Unary(_, a, _) => Meant(a)
       case Binary(_, l, r, _) => Meant(l) && Meant(r)
       case Cast(a, _, t) => Meant(a) && !(IsInt(TyOf(a)) && t.Char?)
       case Conditional(c, a, b, _) => MeantCond(c) && Meant(a) && Meant(b)
       case Call(_, args) => MeantArgs(args)
  }

  predicate MeantArgs(es: seq<Exp>)
    decreases es, 0
  {
    es == [] || (Meant(es[0]) && MeantArgs(es[1..]))
  }

  predicate MeantCond(c: Cond)
    decreases c, 0
  {
    match c
    case BinCond(_, _, l, r) => MeantCond(l) && MeantCond(r)
    case Compar(_, _, l, r) => Meant(l) && Meant(r)
  }

  predicate MeantStmt(s: Stmt)
    decreases s, 0
  {
    match s
    case VarDef(_, _, t, _) => IsValueTy(t)
    case Assign(_, _, _, e) => Meant(e)
    case If(c, t) => MeantCond(c) && MeantStmts(t)
    case IfElse(c, t, e) => MeantCond(c) && MeantStmts(t) && MeantStmts(e)
    case While(c, b) => MeantCond(c) && MeantStmts(b)
    case ReturnValue(e) => Meant(e)
    case CallStmt(_, args) => MeantArgs(args)
    case Block(b) => MeantStmts(b)
    case Echo(e) => Meant(e)
    case _ => true
  }

  /** What follows a statement that exits is never run. */
  predicate MeantStmts(ss: seq<Stmt>)
    decreases ss, 0
  {
    ss == [] || (MeantStmt(ss[0]) && (StmtExits(ss[0]) || MeantStmts(ss[1..])))
  }

  predicate Meaningful(p: Program) {
    forall x :: x in p ==> MeantStmts(p[x].body)
  }

  // The check asks for no more than it has to

  /** An expression all of whose parts are evaluated. */
  predicate Straight(e: Exp)
    decreases e, 0
  {
    match e
    case Unary(_, a, _) => Straight(a)
    case Binary(_, l, r, _) => Straight(l) && Straight(r)
    case Cast(a, _, _) => Straight(a)
    case Conditional(_, _, _, _) => false
    case Call(_, args) => AllStraight(args)
    case _ => true
  }

  predicate AllStraight(es: seq<Exp>)
    decreases es, 0
  {
    es == [] || (Straight(es[0]) && AllStraight(es[1..]))
  }

  /** Whatever has a value in some run passes the check: if all parts of an expression are evaluated and one of them
      fails the check, the expression never has a value. */
  lemma {:induction false} ValueMeans(fuel: nat, p: Program, env: S.Env, store: seq<S.Value>, g: S.Glob, e: Exp)
    requires Straight(e) && S.EvalExp(fuel, p, env, store, g, e).Ok?
    ensures Meant(e)
    decreases e, 0
  {
    hide S.CallFn, S.Arith, S.ReadVar;
    var v: S.Value := S.EvalExp(fuel, p, env, store, g, e).v;
    assert IsValueTy(v.ty);
    match e
    case Unary(_, a, _) => ValueMeans(fuel, p, env, store, g, a);
    case Binary(_, l, r, t) =>
      ValueMeans(fuel, p, env, store, g, l);
      ValueMeans(fuel, p, env, store, S.EvalAs(fuel, p, env, store, g, l, t).g, r);
    case Cast(a, _, _) => ValueMeans(fuel, p, env, store, g, a);
    case Call(sig, args) => ArgsMean(fuel, p, env, store, g, args, sig.params);
    case _ =>
  }

  lemma {:induction false} ArgsMean(fuel: nat, p: Program, env: S.Env, store: seq<S.Value>, g: S.Glob, es: seq<Exp>,
                                    ts: seq<Ty>)
    requires AllStraight(es) && S.EvalArgs(fuel, p, env, store, g, es, ts).Ok?
    ensures MeantArgs(es)
    decreases es, 0
  {
    hide S.EvalExp, Straight, Meant;
    if es != [] {
      ValueMeans(fuel, p, env, store, g, es[0]);
      ArgsMean(fuel, p, env, store, S.EvalAs(fuel, p, env, store, g, es[0], ts[0]).g, es[1..], ts[1..]);
    }
  }

  /** A cast of an integer to char goes wrong whenever the integer has a value. */
  lemma CharOfInteger(fuel: nat, p: Program, env: S.Env, store: seq<S.Value>, g: S.Glob, a: Exp,
                      tname: string)
    requires IsInt(TyOf(a))
    ensures var r := S.EvalExp(fuel, p, env, store, g, a);
            S.EvalExp(fuel, p, env, store, g, Cast(a, tname, Char)) == S.Stop(if r.Ok? then S.Wrong else r.why)
  {
    var e := Cast(a, tname, Char);
    assert S.EvalExp(fuel, p, env, store, g, e) == S.EvalAs(fuel, p, env, store, g, a, Char);
  }

  // What the code generator has cases for has a meaning

  lemma {:induction false} CompiledExp(gm: Gamma, e: Exp)
    requires ExpOk(gm, e) && L.Lowers(e) && IsValueTy(TyOf(e))
    ensures Meant(e)
    decreases e, 1
  {
    hide LookupE;
    match e
    case IntLit(_, _) =>
    case CharLit(_) =>
    case Var(_, _, _) =>
    case Unary(_, a, _) => CompiledExp(gm, a);
    case Binary(_, l, r, _) =>
      CompiledExp(gm, l);
      CompiledExp(gm, r);
    case Cast(a, _, _) => CompiledExp(gm, a);
    case Conditional(c, a, b, _) =>
      CompiledCond(gm, c);
      CompiledExp(gm, a);
      CompiledExp(gm, b);
    case Call(sig, args) => CompiledArgs(gm, args, sig.params);
  }

  lemma {:induction false} CompiledArgs(gm: Gamma, es: seq<Exp>, ts: seq<Ty>)
    requires |es| == |ts| && ArgsOk(gm, es, ts) && L.LowersArgs(es, ts)
    ensures MeantArgs(es)
    decreases es, 0
  {
    hide ExpOk, L.Lowers;
    if es != [] {
      CompiledExp(gm, es[0]);
      CompiledArgs(gm, es[1..], ts[1..]);
    }
  }

  lemma {:induction false} CompiledCond(gm: Gamma, c: Cond)
    requires CondOk(gm, c) && L.LowersCond(c)
    ensures MeantCond(c)
    decreases c, 1
  {
    hide ExpOk, L.Lowers;
    match c
    case BinCond(_, _, l, r) =>
      CompiledCond(gm, l);
      CompiledCond(gm, r);
    case Compar(_, _, l, r) =>
      CompiledExp(gm, l);
      CompiledExp(gm, r);
  }

  lemma {:induction false} CompiledStmt(gm: Gamma, ret: Ty, s: Stmt)
    requires gm.locals != [] && StmtOk(gm, ret, s) && L.CompilesStmt(ret, s)
    ensures MeantStmt(s)
    decreases s, 0
  {
    hide ExpOk, CondOk, LookupE, L.Lowers, L.LowersCond, MeantCond, Meant, Push;
    match s
    case Assign(_, _, _, e) => CompiledExp(gm, e);
    case If(c, t) =>
      CompiledCond(gm, c);
      CompiledStmts(Push(gm), ret, t);
    case IfElse(c, t, e) =>
      CompiledCond(gm, c);
      CompiledStmts(Push(gm), ret, t);
      CompiledStmts(Push(gm), ret, e);
    case While(c, b) =>
      CompiledCond(gm, c);
      CompiledStmts(Push(gm), ret, b);
    case ReturnValue(e) => CompiledExp(gm, e);
    case CallStmt(sig, args) => CompiledArgs(gm, args, sig.params);
    case Block(b) => CompiledStmts(Push(gm), ret, b);
    case Echo(e) => CompiledExp(gm, e);
    case _ =>
  }

  lemma {:induction false} CompiledStmts(gm: Gamma, ret: Ty, ss: seq<Stmt>)
    requires gm.locals != [] && StmtsOk(gm, ret, ss) && L.CompilesStmts(ret, ss)
    ensures MeantStmts(ss)
    decreases ss, 0
  {
    hide StmtOk, After, L.CompilesStmt, MeantStmt, L.Stops, StmtExits;
    if ss != [] {
      CompiledStmt(gm, ret, ss[0]);
      if L.Stops(ss[0]) {
        StopsExits(ss[0]);
      } else {
        CompiledStmts(After(gm, ss[0]), ret, ss[1..]);
      }
    }
  }

  lemma StopsExits(s: Stmt)
    requires L.Stops(s)
    ensures StmtExits(s)
  {
  }
}
