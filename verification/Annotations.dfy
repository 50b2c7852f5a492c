/** The promise of analysis about the tree it leaves: every type is filled in, and none is the error type. */
module Annotations {
  import opened Ast
  import opened Raw
  import opened Sem
  import opened Acceptance
  import opened TypeAliases
  import opened Typing
  import opened TypeSafety
  import opened Pipeline

  predicate FilledExp(e: Exp)
    decreases e, 0
  {
    && !TyOf(e).Err?
    && match e
       case IntLit(_, _) => true
       case CharLit(_) => true
       case Var(_, _, _) => true
       case Unary(_, a, _) => FilledExp(a)
       case Binary(_, l, r, _) => FilledExp(l) && FilledExp(r)
       case Cast(a, _, _) => FilledExp(a)
       case Conditional(c, a, b, _) => FilledCond(c) && FilledExp(a) && FilledExp(b)
       case Call(sig, args) => FilledSig(sig) && FilledExps(args)
  }

  predicate FilledExps(es: seq<Exp>)
    decreases es, 0
  {
    es == [] || (FilledExp(es[0]) && FilledExps(es[1..]))
  }

  predicate FilledCond(c: Cond)
    decreases c, 0
  {
    match c
    case BinCond(_, _, l, r) => FilledCond(l) && FilledCond(r)
    case Compar(_, _, l, r) => FilledExp(l) && FilledExp(r)
  }

  predicate FilledSig(sig: Sig) {
    !sig.ret.Err? && forall i :: 0 <= i < |sig.params| ==> !sig.params[i].Err?
  }

  predicate FilledStmt(s: Stmt)
    decreases s, 0
  {
    match s
    case VarDef(_, _, t, _) => !t.Err?
    case Assign(_, t, _, e) => !t.Err? && FilledExp(e)
    case If(c, t) => FilledCond(c) && FilledStmts(t)
    case IfElse(c, t, e) => FilledCond(c) && FilledStmts(t) && FilledStmts(e)
    case While(c, b) => FilledCond(c) && FilledStmts(b)
    case ReturnValue(e) => FilledExp(e)
    case CallStmt(sig, args) => FilledSig(sig) && FilledExps(args)
    case Block(b) => FilledStmts(b)
    case Echo(e) => FilledExp(e)
    case _ => true
  }

  predicate FilledStmts(ss: seq<Stmt>)
    decreases ss, 0
  {
    ss == [] || (FilledStmt(ss[0]) && FilledStmts(ss[1..]))
  }

  lemma {:induction false} TypedExpFilled(g: Gamma, e: Exp)
    requires NoErrors(g) && ExpOk(g, e)
    ensures FilledExp(e)
    decreases e, 1
  {
    hide LookupE, NoErrors;
    match e
    case Var(x, _, _) => LookupKnown(g, x);
    case Unary(_, a, _) => TypedExpFilled(g, a);
    case Binary(_, l, r, _) =>
      TypedExpFilled(g, l);
      TypedExpFilled(g, r);
    case Cast(a, tname, _) =>
      TypedExpFilled(g, a);
      LookupKnown(g, tname);
    case Conditional(c, a, b, _) =>
      TypedCondFilled(g, c);
      TypedExpFilled(g, a);
      TypedExpFilled(g, b);
    case Call(sig, args) =>
      LookupKnown(g, sig.name);
      TypedArgsFilled(g, args, sig.params);
    case _ =>
  }

  lemma {:induction false} TypedArgsFilled(g: Gamma, es: seq<Exp>, ts: seq<Ty>)
    requires |es| == |ts| && NoErrors(g) && ArgsOk(g, es, ts)
    ensures FilledExps(es)
    decreases es, 0
  {
    hide NoErrors, ExpOk;
    if es != [] {
      TypedExpFilled(g, es[0]);
      TypedArgsFilled(g, es[1..], ts[1..]);
    }
  }

  lemma {:induction false} TypedCondFilled(g: Gamma, c: Cond)
    requires NoErrors(g) && CondOk(g, c)
    ensures FilledCond(c)
    decreases c, 1
  {
    hide NoErrors, ExpOk;
    match c
    case BinCond(_, _, l, r) =>
      TypedCondFilled(g, l);
      TypedCondFilled(g, r);
    case Compar(_, _, l, r) =>
      TypedExpFilled(g, l);
      TypedExpFilled(g, r);
  }

  lemma {:induction false} TypedStmtFilled(g: Gamma, ret: Ty, s: Stmt)
    requires NoErrors(g) && g.locals != [] && StmtOk(g, ret, s)
    ensures FilledStmt(s)
    decreases s, 0
  {
    hide LookupE, ExpOk, CondOk, Push, NoErrors;
    PushKnown(g);
    match s
    case VarDef(_, tname, _, _) => LookupKnown(g, tname);
    case Assign(x, _, _, e) =>
      LookupKnown(g, x);
      TypedExpFilled(g, e);
    case If(c, t) =>
      TypedCondFilled(g, c);
      TypedStmtsFilled(Push(g), ret, t);
    case IfElse(c, t, e) =>
      TypedCondFilled(g, c);
      TypedStmtsFilled(Push(g), ret, t);
      TypedStmtsFilled(Push(g), ret, e);
    case While(c, b) =>
      TypedCondFilled(g, c);
      TypedStmtsFilled(Push(g), ret, b);
    case ReturnValue(e) => TypedExpFilled(g, e);
    case CallStmt(sig, args) =>
      LookupKnown(g, sig.name);
      TypedArgsFilled(g, args, sig.params);
    case Block(b) => TypedStmtsFilled(Push(g), ret, b);
    case Echo(e) => TypedExpFilled(g, e);
    case _ =>
  }

  lemma {:induction false} TypedStmtsFilled(g: Gamma, ret: Ty, ss: seq<Stmt>)
    requires NoErrors(g) && g.locals != [] && StmtsOk(g, ret, ss)
    ensures FilledStmts(ss)
    decreases ss, 0
  {
    hide StmtOk, After, NoErrors;
    if ss != [] {
      TypedStmtFilled(g, ret, ss[0]);
      AfterKnown(g, ret, ss[0]);
      TypedStmtsFilled(After(g, ss[0]), ret, ss[1..]);
    }
  }

  /** In an accepted program all annotations of bodies, the types of parameters and results, and the types of all
      symbols are filled in with types other than the error type. */
  lemma AcceptedFilled(ds: seq<Def>, a: Analysis)
    requires Accepted(ds, a)
    ensures forall x :: x in a.table ==> CleanKind(a.aliases, a.table[x])
    ensures forall x :: x in a.program ==> FilledSig(a.program[x].sig) && FilledStmts(a.program[x].body)
  {
    hide Analyse, Declared, DeclaredTable, DeclaredAliases, DeclaredProgram, StmtsOk, CleanKind, Under, NoErrors;
    AcceptedIff(ds);
    TableIsClean(ds);
    NamesAreKnown(ds, a);
    forall x | x in a.program ensures FilledSig(a.program[x].sig) && FilledStmts(a.program[x].body) {
      FunctionIsTyped(ds, a, x);
      var f := a.program[x];
      BodyKnown(GlobalNames(a), f);
      TypedStmtsFilled(BodyGamma(GlobalNames(a), f), f.sig.ret, f.body);
    }
  }
}
