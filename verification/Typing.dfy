/** The type system, stated on annotated trees, and the proof that resolution accepts a tree exactly if it can be
    annotated so that it is typed, and then with these annotations. */
module Typing {
  import opened Ints
  import opened Ast
  import opened Raw
  import opened Sem
  import L = Lowerable

  /** What a name stands for, with all types resolved. */
  datatype Entity = EVar(t: Ty, def: Definition) | EFunc(params: seq<Ty>, ret: Ty) | EType(t: Ty)

  datatype Entry = Entry(name: string, ent: Entity)

  datatype Gamma = Gamma(globals: map<string, Entity>, locals: seq<seq<Entry>>)

  function FindE(s: seq<Entry>, x: string): Option<Entity> {
    if s == [] then None
    else if s[0].name == x then Some(s[0].ent)
    else FindE(s[1..], x)
  }

  function LookupE(g: Gamma, x: string): Option<Entity>
    decreases |g.locals|
  {
    if g.locals == [] then
      if x in g.globals then Some(g.globals[x])
      else if ScalarTy(x).Some? then Some(EType(ScalarTy(x).value)) else None
    else
      var last := |g.locals| - 1;
      match FindE(g.locals[last], x)
      case Some(e) => Some(e)
      case None => LookupE(g.(locals := g.locals[..last]), x)
  }

  // The judgements

  predicate ExpOk(g: Gamma, e: Exp)
    decreases e, 1
  {
    match e
    case IntLit(n, t) => InRange(64, n) && t == if -2147483648 <= n <= 2147483647 then Int else Long
    case CharLit(k) => InRange(8, k)
    case Var(x, t, def) => LookupE(g, x) == Some(EVar(t, def))
    case Unary(_, a, t) => ExpOk(g, a) && t == TyOf(a) && IntLike(t)
    case Binary(op, l, r, t) => ExpOk(g, l) && ExpOk(g, r) && BinopType(TyOf(l), TyOf(r), op) == Some(t)
    case Cast(a, tname, t) => ExpOk(g, a) && LookupE(g, tname) == Some(EType(t)) && Castable(t, TyOf(a))
    case Conditional(c, a, b, t) =>
      CondOk(g, c) && ExpOk(g, a) && ExpOk(g, b) && t == TyOf(a) && Assignable(t, TyOf(b))
    case Call(sig, args) => CallOk(g, sig, args)
  }

  predicate CallOk(g: Gamma, sig: Sig, args: seq<Exp>)
    decreases args, 1
  {
    && LookupE(g, sig.name) == Some(EFunc(sig.params, sig.ret))
    && |args| == |sig.params| && ArgsOk(g, args, sig.params)
  }

  predicate ArgsOk(g: Gamma, args: seq<Exp>, ts: seq<Ty>)
    requires |args| == |ts|
    decreases args, 0
  {
    args == [] || (ExpOk(g, args[0]) && Assignable(ts[0], TyOf(args[0])) && ArgsOk(g, args[1..], ts[1..]))
  }

  predicate CondOk(g: Gamma, c: Cond)
    decreases c, 1
  {
    match c
    case BinCond(_, _, l, r) => CondOk(g, l) && CondOk(g, r)
    case Compar(_, op, l, r) => ExpOk(g, l) && ExpOk(g, r) && CanCompare(TyOf(l), TyOf(r), op)
  }

  predicate StmtOk(g: Gamma, ret: Ty, s: Stmt)
    requires g.locals != []
    decreases s, 0
  {
    match s
    case VarDef(x, tname, t, _) =>
      LookupE(g, tname) == Some(EType(t)) && FindE(g.locals[|g.locals| - 1], x).None? && !Reserved(x)
    case Assign(x, t, def, e) => LookupE(g, x) == Some(EVar(t, def)) && ExpOk(g, e) && Assignable(t, TyOf(e))
    case If(c, t) => CondOk(g, c) && StmtsOk(Push(g), ret, t)
    case IfElse(c, t, e) => CondOk(g, c) && StmtsOk(Push(g), ret, t) && StmtsOk(Push(g), ret, e)
    case While(c, b) => CondOk(g, c) && StmtsOk(Push(g), ret, b)
    case Break => true
    case Continue => true
    case Return => ret.Void?
    case ReturnValue(e) => ExpOk(g, e) && Assignable(ret, TyOf(e))
    case CallStmt(sig, args) => CallOk(g, sig, args)
    case Block(b) => StmtsOk(Push(g), ret, b)
    case Echo(e) => ExpOk(g, e)
  }

  predicate StmtsOk(g: Gamma, ret: Ty, ss: seq<Stmt>)
    requires g.locals != []
    decreases ss, 0
  {
    ss == [] || (StmtOk(g, ret, ss[0]) && StmtsOk(After(g, ss[0]), ret, ss[1..]))
  }

  function Push(g: Gamma): (r: Gamma)
    ensures r.locals != []
  {
    g.(locals := g.locals + [[]])
  }

  /** A definition is seen by what follows it in its block. */
  function After(g: Gamma, s: Stmt): (r: Gamma)
    requires g.locals != []
    ensures |r.locals| == |g.locals|
  {
    if s.VarDef? then
      var last := |g.locals| - 1;
      g.(locals := g.locals[last := g.locals[last] + [Entry(s.x, EVar(s.t, VarDefinition(s.node)))]])
    else g
  }

  function ParamEntries(names: seq<string>, ts: seq<Ty>, nodes: seq<Node>): (r: seq<Entry>)
    requires |names| == |ts| == |nodes|
    ensures |r| == |ts|
    ensures forall i :: 0 <= i < |ts| ==> r[i] == Entry(names[i], EVar(ts[i], ParamDefinition(nodes[i])))
  {
    seq(|ts|, i requires 0 <= i < |ts| => Entry(names[i], EVar(ts[i], ParamDefinition(nodes[i]))))
  }

  /** What a body sees when it starts. */
  function BodyGamma(globals: map<string, Entity>, f: Func): Gamma
    requires |f.params| == |f.sig.params| == |f.nodes|
  {
    Gamma(globals, [ParamEntries(f.params, f.sig.params, f.nodes)])
  }

  /** No statement is a return without a value. */
  predicate ReturnsValue(s: Stmt)
    decreases s, 0
  {
    match s
    case Return => false
    case If(_, t) => AllReturnValues(t)
    case IfElse(_, t, e) => AllReturnValues(t) && AllReturnValues(e)
    case While(_, b) => AllReturnValues(b)
    case Block(b) => AllReturnValues(b)
    case _ => true
  }

  predicate AllReturnValues(ss: seq<Stmt>)
    decreases ss, 0
  {
    ss == [] || (ReturnsValue(ss[0]) && AllReturnValues(ss[1..]))
  }

  // What a tree was before it was annotated

  predicate ErasesExp(e: Exp, r: RExp)
    decreases e, 0
  {
    match (e, r)
    case (IntLit(n, _), RInt(m)) => n == m
    case (CharLit(k), RChar(c)) => k == c
    case (Var(x, _, _), RVar(y)) => x == y
    case (Unary(op, a, _), RUnary(op', a')) => op == op' && ErasesExp(a, a')
    case (Binary(op, a, b, _), RBinary(op', a', b')) => op == op' && ErasesExp(a, a') && ErasesExp(b, b')
    case (Cast(a, tname, _), RCast(a', tname')) => tname == tname' && ErasesExp(a, a')
    case (Conditional(c, a, b, _), RConditional(c', a', b')) =>
      ErasesCond(c, c') && ErasesExp(a, a') && ErasesExp(b, b')
    case (Call(sig, args), RCall(f, args')) => sig.name == f && ErasesExps(args, args')
    case _ => false
  }

  predicate ErasesExps(es: seq<Exp>, rs: seq<RExp>)
    decreases es, 0
  {
    if es == [] then rs == [] else rs != [] && ErasesExp(es[0], rs[0]) && ErasesExps(es[1..], rs[1..])
  }

  predicate ErasesCond(c: Cond, r: RCond)
    decreases c, 0
  {
    match (c, r)
    case (BinCond(neg, op, a, b), RBinCond(neg', op', a', b')) =>
      neg == neg' && op == op' && ErasesCond(a, a') && ErasesCond(b, b')
    case (Compar(neg, op, a, b), RCompar(neg', op', a', b')) =>
      neg == neg' && op == op' && ErasesExp(a, a') && ErasesExp(b, b')
    case _ => false
  }

  predicate ErasesStmt(s: Stmt, r: RStmt)
    decreases s, 0
  {
    match (s, r)
    case (VarDef(x, tname, _, node), RVarDef(x', tname', node')) => x == x' && tname == tname' && node == node'
    case (Assign(x, _, _, e), RAssign(x', e')) => x == x' && ErasesExp(e, e')
    case (If(c, t), RIf(c', t')) => ErasesCond(c, c') && ErasesBlock(t, t')
    case (IfElse(c, t, e), RIfElse(c', t', e')) => ErasesCond(c, c') && ErasesBlock(t, t') && ErasesBlock(e, e')
    case (While(c, b), RWhile(c', b')) => ErasesCond(c, c') && ErasesBlock(b, b')
    case (Break, RBreak) => true
    case (Continue, RContinue) => true
    case (Return, RReturn) => true
    case (ReturnValue(e), RReturnValue(e')) => ErasesExp(e, e')
    case (CallStmt(sig, args), RCallStmt(f, args')) => sig.name == f && ErasesExps(args, args')
    case (Block(b), RBlock(b')) => ErasesBlock(b, b')
    case (Echo(e), REcho(e')) => ErasesExp(e, e')
    case _ => false
  }

  predicate ErasesBlock(ss: seq<Stmt>, b: seq<RStmt>)
    decreases ss, 0
  {
    if ss == [] then b == [] else b != [] && ErasesStmt(ss[0], b[0]) && ErasesBlock(ss[1..], b[1..])
  }

  lemma {:induction false} ErasedExits(ss: seq<Stmt>, b: seq<RStmt>)
    requires ErasesBlock(ss, b)
    ensures Exits(ss) == RExits(b)
    decreases ss, 0
  {
    if ss != [] {
      ErasedStmtExits(ss[0], b[0]);
      ErasedExits(ss[1..], b[1..]);
    }
  }

  lemma {:induction false} ErasedStmtExits(s: Stmt, r: RStmt)
    requires ErasesStmt(s, r)
    ensures StmtExits(s) == RStmtExits(r)
    decreases s, 0
  {
    match s
    case Block(b) => ErasedExits(b, r.body);
    case IfElse(_, t, e) =>
      ErasedExits(t, r.thn);
      ErasedExits(e, r.els);
    case _ =>
  }

  // Names to entities

  function EntityOf(al: Aliases, x: string, k: Kind): Entity {
    match k
    case KVar(t, node) => EVar(Under(al, t), VarDefinition(node))
    case KParam(t, node) => EVar(Under(al, t), ParamDefinition(node))
    case KFunc(ps, ret) => EFunc(Unders(al, ps), Under(al, ret))
    case KType => EType(Under(al, TName(x)))
  }

  function EntriesOf(al: Aliases, s: Scope): (r: seq<Entry>)
    ensures |r| == |s| && forall i :: 0 <= i < |s| ==> r[i] == Entry(s[i].name, EntityOf(al, s[i].name, s[i].kind))
  {
    seq(|s|, i requires 0 <= i < |s| => Entry(s[i].name, EntityOf(al, s[i].name, s[i].kind)))
  }

  function GlobalsOf(t: Table, al: Aliases): map<string, Entity> {
    map x | x in t :: EntityOf(al, x, t[x])
  }

  function GammaOf(c: Names): Gamma {
    Gamma(GlobalsOf(c.table, c.aliases),
          seq(|c.locals|, i requires 0 <= i < |c.locals| => EntriesOf(c.aliases, c.locals[i])))
  }

  function EntityOfOption(al: Aliases, x: string, k: Option<Kind>): Option<Entity> {
    if k.Some? then Some(EntityOf(al, x, k.value)) else None
  }

  /** No built-in type is another name for a type. */
  ghost predicate BuiltinsStand(al: Aliases) {
    forall x :: x in al ==> ScalarTy(x).None?
  }

  lemma {:induction false} FindIs(al: Aliases, s: Scope, x: string)
    ensures FindE(EntriesOf(al, s), x) == EntityOfOption(al, x, Find(s, x))
  {
    if s != [] {
      FindIs(al, s[1..], x);
      assert EntriesOf(al, s)[1..] == EntriesOf(al, s[1..]);
    }
  }

  lemma {:induction false} LookupIs(c: Names, x: string)
    requires BuiltinsStand(c.aliases)
    ensures LookupE(GammaOf(c), x) == EntityOfOption(c.aliases, x, Lookup(c, x))
    decreases |c.locals|
  {
    if c.locals != [] {
      var last := |c.locals| - 1;
      FindIs(c.aliases, c.locals[last], x);
      var c0 := c.(locals := c.locals[..last]);
      LookupIs(c0, x);
      assert GammaOf(c0).locals == GammaOf(c).locals[..last];
    } else if x !in c.table && ScalarTy(x).Some? {
      ScalarUnder(c.aliases, x);
    }
  }

  lemma ScalarUnder(al: Aliases, x: string)
    requires ScalarTy(x).Some? && x !in al
    ensures Under(al, TName(x)) == ScalarTy(x).value
  {
  }

  /** A type that can be found is the one that the name stands for. */
  lemma TypeIs(c: Names, x: string)
    requires BuiltinsStand(c.aliases)
    ensures FindType(c, x).Some? ==> LookupE(GammaOf(c), x) == Some(EType(Under(c.aliases, FindType(c, x).value)))
    ensures FindType(c, x).None? ==> LookupE(GammaOf(c), x).None? || !LookupE(GammaOf(c), x).value.EType?
  {
    hide Under;
    LookupIs(c, x);
  }

  /** A variable that can be found has the type and the definition that the name stands for. */
  lemma VarIs(c: Names, x: string)
    requires BuiltinsStand(c.aliases)
    ensures match ResolveVar(c, x)
            case Some(v) => LookupE(GammaOf(c), x) == Some(EVar(Under(c.aliases, v.t), v.def))
            case None => LookupE(GammaOf(c), x).None? || !LookupE(GammaOf(c), x).value.EVar?
  {
    hide Under;
    LookupIs(c, x);
  }

  // What resolution accepts is typed

  lemma IntLitFits(n: LongLit)
    ensures IsInt(IntLitType(n)) && InRange(Width(IntLitType(n)), n)
    ensures IntLitType(n) == Int <==> InRange(32, n)
    ensures IntLitType(n) != Int ==> IntLitType(n) == Long
  {
    assert Pow2(31) == 0x8000_0000 by { Pow2Of31(); }
  }

  /** A literal that is typed is in the range of its type. */
  lemma TypedLiteralFits(g: Gamma, n: int, t: Ty)
    requires ExpOk(g, IntLit(n, t))
    ensures IsInt(t) && InRange(Width(t), n)
  {
    Pow2Of31();
  }

  lemma Pow2Of31()
    ensures Pow2(31) == 0x8000_0000
  {
    assert Pow2(8) == 256;
    assert Pow2(16) == 65536;
    assert Pow2(24) == 16777216;
  }

  /** A literal has type int exactly if it is an int, and type long otherwise. */
  lemma LiteralType(c: Names, n: LongLit)
    ensures ResolveExp(c, RInt(n)) == Some(IntLit(n, if -2147483648 <= n <= 2147483647 then Int else Long))
  {
  }

  lemma {:induction false} ResolvedExp(c: Names, e: RExp)
    requires BuiltinsStand(c.aliases) && ResolveExp(c, e).Some?
    ensures var r := ResolveExp(c, e).value; ErasesExp(r, e) && ExpOk(GammaOf(c), r)
    decreases e, 1
  {
    hide BuiltinsStand, GammaOf, Under, Lookup, LookupE, InRange, ResolveVar, FindType;
    match e
    case RInt(n) => LiteralInRange(n);
    case RChar(k) => CodeInRange(k);
    case RVar(x) => VarIs(c, x);
    case RUnary(_, a) => ResolvedExp(c, a);
    case RBinary(_, a, b) =>
      ResolvedExp(c, a);
      ResolvedExp(c, b);
    case RCast(a, tname) =>
      ResolvedExp(c, a);
      TypeIs(c, tname);
    case RConditional(cond, a, b) =>
      ResolvedCond(c, cond);
      ResolvedExp(c, a);
      ResolvedExp(c, b);
    case RCall(f, args) =>
      ResolvedCall(c, f, args);
  }

  lemma LiteralInRange(n: LongLit)
    ensures InRange(64, n)
  {
  }

  lemma CodeInRange(k: CharCode)
    ensures InRange(8, k)
  {
  }

  lemma {:induction false} ResolvedCall(c: Names, f: string, args: seq<RExp>)
    requires BuiltinsStand(c.aliases) && ResolveCall(c, f, args).Some?
    ensures var r := ResolveCall(c, f, args).value;
            r.0.name == f && ErasesExps(r.1, args) && CallOk(GammaOf(c), r.0, r.1)
    decreases args, 1
  {
    hide BuiltinsStand, GammaOf, Under, Lookup, LookupE;
    LookupIs(c, f);
    var k := Lookup(c, f).value;
    ResolvedArgs(c, args, Unders(c.aliases, k.params));
  }

  lemma {:induction false} ResolvedArgs(c: Names, args: seq<RExp>, ts: seq<Ty>)
    requires |args| == |ts| && BuiltinsStand(c.aliases) && ResolveArgs(c, args, ts).Some?
    ensures var r := ResolveArgs(c, args, ts).value;
            |r| == |args| && ErasesExps(r, args) && ArgsOk(GammaOf(c), r, ts)
    decreases args, 0
  {
    hide BuiltinsStand, GammaOf;
    if args != [] {
      ResolvedExp(c, args[0]);
      ResolvedArgs(c, args[1..], ts[1..]);
      var first, rest := ResolveExp(c, args[0]).value, ResolveArgs(c, args[1..], ts[1..]).value;
      assert ([first] + rest)[1..] == rest;
    }
  }

  lemma {:induction false} ResolvedCond(c: Names, cond: RCond)
    requires BuiltinsStand(c.aliases) && ResolveCond(c, cond).Some?
    ensures var r := ResolveCond(c, cond).value; ErasesCond(r, cond) && CondOk(GammaOf(c), r)
    decreases cond, 1
  {
    hide BuiltinsStand, GammaOf;
    match cond
    case RBinCond(_, _, l, r) =>
      ResolvedCond(c, l);
      ResolvedCond(c, r);
    case RCompar(_, _, l, r) =>
      ResolvedExp(c, l);
      ResolvedExp(c, r);
  }

  lemma PushIs(c: Names)
    ensures var c' := c.(locals := c.locals + [[]]); GammaOf(c') == Push(GammaOf(c))
  {
    var c' := c.(locals := c.locals + [[]]);
    assert EntriesOf(c.aliases, []) == [];
    assert GammaOf(c').locals == Push(GammaOf(c)).locals;
  }

  lemma AddedIs(al: Aliases, s: Scope, x: string, t: TRef, node: Node)
    ensures EntriesOf(al, s + [Symbol(x, KVar(t, node))])
         == EntriesOf(al, s) + [Entry(x, EVar(Under(al, t), VarDefinition(node)))]
  {
  }

  /** A definition of a variable is accepted exactly if its type is one, and its name is new in its scope. */
  lemma VarDefIs(c: Names, x: string, tname: string, node: Node)
    requires BuiltinsStand(c.aliases) && c.locals != []
    ensures GammaOf(c).locals != []
    ensures var r := ResolveVarDef(c, x, tname, node);
            && (forall t, ret :: r.stmt == Some(VarDef(x, tname, t, node))
                                 <==> StmtOk(GammaOf(c), ret, VarDef(x, tname, t, node)))
            && (r.stmt.Some? ==>
                  && (exists t :: r.stmt == Some(VarDef(x, tname, t, node)))
                  && GammaOf(c.(locals := r.locals)) == After(GammaOf(c), r.stmt.value))
  {
    hide Under, BuiltinsStand, LookupE;
    var last := |c.locals| - 1;
    TypeIs(c, tname);
    FindIs(c.aliases, c.locals[last], x);
    var r := ResolveVarDef(c, x, tname, node);
    if r.stmt.Some? {
      AddedIs(c.aliases, c.locals[last], x, FindType(c, tname).value, node);
      assert GammaOf(c.(locals := r.locals)).locals == After(GammaOf(c), r.stmt.value).locals;
    }
  }

  /** The whole judgement on a statement of a function that returns `ret`, `level` loops around it. */
  ghost predicate TypedAs(c: Names, ret: TRef, level: nat, s: RStmt, t: Stmt) {
    && c.locals != [] && ErasesStmt(t, s) && StmtOk(GammaOf(c), Under(c.aliases, ret), t)
    && L.InLoops(t, level > 0) && (ret == VOID || ReturnsValue(t))
  }

  ghost predicate BlockTypedAs(c: Names, ret: TRef, level: nat, b: seq<RStmt>, ss: seq<Stmt>) {
    && c.locals != [] && ErasesBlock(ss, b) && StmtsOk(GammaOf(c), Under(c.aliases, ret), ss)
    && L.AllInLoops(ss, level > 0) && (ret == VOID || AllReturnValues(ss))
  }

  lemma {:induction false} ResolvedStmt(c: Names, ret: TRef, level: nat, s: RStmt)
    requires c.locals != [] && BuiltinsStand(c.aliases) && ResolveStmt(c, ret, level, s).stmt.Some?
    ensures var r := ResolveStmt(c, ret, level, s);
            && TypedAs(c, ret, level, s, r.stmt.value)
            && GammaOf(c.(locals := r.locals)) == After(GammaOf(c), r.stmt.value)
    decreases s, 1
  {
    hide BuiltinsStand, GammaOf, Under, Lookup, LookupE, ExpOk, CallOk, CondOk, ResolveExp, ResolveCall, ResolveCond,
      ResolveInner, ResolveVarDef, ResolveVar, ErasesExp, ErasesExps, ErasesCond, ErasesBlock, StmtsOk,
      AllReturnValues, L.AllInLoops;
    assert GammaOf(c).locals != [] by { HasLocals(c); }
    match s
    case RVarDef(x, tname, node) =>
      VarDefIs(c, x, tname, node);
    case RIf(cond, t) =>
      ResolvedCond(c, cond);
      ResolvedInner(c, ret, level, t);
    case RIfElse(cond, t, e) =>
      ResolvedCond(c, cond);
      ResolvedInner(c, ret, level, t);
      ResolvedInner(c, ret, level, e);
    case RWhile(cond, b) =>
      ResolvedCond(c, cond);
      ResolvedInner(c, ret, level + 1, b);
    case RAssign(x, e) =>
      ResolvedExp(c, e);
      VarIs(c, x);
    case RReturn => VoidStands(c.aliases);
    case RReturnValue(e) => ResolvedExp(c, e);
    case RBreak =>
    case RContinue =>
    case RCallStmt(f, args) => ResolvedCall(c, f, args);
    case RBlock(b) => ResolvedInner(c, ret, level, b);
    case REcho(e) => ResolvedExp(c, e);
  }

  lemma HasLocals(c: Names)
    requires c.locals != []
    ensures GammaOf(c).locals != []
  {
  }

  lemma VoidStands(al: Aliases)
    requires BuiltinsStand(al)
    ensures Under(al, VOID) == Void
  {
    ScalarUnder(al, "void");
  }

  lemma {:induction false} ResolvedInner(c: Names, ret: TRef, level: nat, b: seq<RStmt>)
    requires BuiltinsStand(c.aliases) && ResolveInner(c, ret, level, b).Some?
    ensures var r := ResolveInner(c, ret, level, b).value;
            && ErasesBlock(r, b) && StmtsOk(Push(GammaOf(c)), Under(c.aliases, ret), r)
            && L.AllInLoops(r, level > 0) && (ret == VOID || AllReturnValues(r))
    decreases b, 1
  {
    hide BuiltinsStand, GammaOf, Under, Push, StmtsOk, ErasesBlock, L.AllInLoops, AllReturnValues;
    PushIs(c);
    ResolvedBlock(c.(locals := c.locals + [[]]), ret, level, b);
  }

  lemma {:induction false} ResolvedBlock(c: Names, ret: TRef, level: nat, b: seq<RStmt>)
    requires c.locals != [] && BuiltinsStand(c.aliases) && ResolveBlock(c, ret, level, b).stmts.Some?
    ensures BlockTypedAs(c, ret, level, b, ResolveBlock(c, ret, level, b).stmts.value)
    decreases b, 0
  {
    hide BuiltinsStand, Under, StmtOk, After, ResolveStmt, ErasesStmt, L.InLoops, ReturnsValue;
    if b != [] {
      ResolvedStmt(c, ret, level, b[0]);
      var s := ResolveStmt(c, ret, level, b[0]);
      var c' := c.(locals := s.locals);
      ResolvedBlock(c', ret, level, b[1..]);
      var rest := ResolveBlock(c', ret, level, b[1..]).stmts.value;
      assert ([s.stmt.value] + rest)[1..] == rest;
    }
  }

  // What is typed is accepted, with the annotations that it is typed with

  lemma {:induction false} CompleteExp(c: Names, e: Exp, r: RExp)
    requires BuiltinsStand(c.aliases) && ErasesExp(e, r) && ExpOk(GammaOf(c), e)
    ensures ResolveExp(c, r) == Some(e)
    decreases e, 1
  {
    hide BuiltinsStand, GammaOf, Under, Lookup, LookupE, InRange, ResolveVar, FindType;
    match e
    case IntLit(n, t) =>
    case CharLit(k) =>
    case Var(x, _, _) => VarIs(c, x);
    case Unary(_, a, _) => CompleteExp(c, a, r.arg);
    case Binary(_, a, b, _) =>
      CompleteExp(c, a, r.l);
      CompleteExp(c, b, r.r);
    case Cast(a, tname, _) =>
      CompleteExp(c, a, r.castee);
      TypeIs(c, tname);
    case Conditional(cond, a, b, _) =>
      CompleteCond(c, cond, r.cond);
      CompleteExp(c, a, r.thn);
      CompleteExp(c, b, r.els);
    case Call(sig, args) => CompleteCall(c, sig, args, r.args);
  }

  lemma {:induction false} CompleteCall(c: Names, sig: Sig, args: seq<Exp>, rs: seq<RExp>)
    requires BuiltinsStand(c.aliases) && ErasesExps(args, rs) && CallOk(GammaOf(c), sig, args)
    ensures ResolveCall(c, sig.name, rs) == Some((sig, args))
    decreases args, 1
  {
    hide BuiltinsStand, GammaOf, Under, Lookup, LookupE;
    LookupIs(c, sig.name);
    SameLength(args, rs);
    CompleteArgs(c, args, rs, sig.params);
  }

  lemma {:induction false} SameLength(es: seq<Exp>, rs: seq<RExp>)
    requires ErasesExps(es, rs)
    ensures |es| == |rs|
  {
    if es != [] {
      SameLength(es[1..], rs[1..]);
    }
  }

  lemma {:induction false} CompleteArgs(c: Names, es: seq<Exp>, rs: seq<RExp>, ts: seq<Ty>)
    requires BuiltinsStand(c.aliases) && |es| == |rs| == |ts| && ErasesExps(es, rs) && ArgsOk(GammaOf(c), es, ts)
    ensures ResolveArgs(c, rs, ts) == Some(es)
    decreases es, 0
  {
    hide BuiltinsStand, GammaOf, ResolveExp, ExpOk, ErasesExp;
    if es != [] {
      CompleteExp(c, es[0], rs[0]);
      CompleteArgs(c, es[1..], rs[1..], ts[1..]);
      assert es == [es[0]] + es[1..];
    }
  }

  lemma {:induction false} CompleteCond(c: Names, cond: Cond, r: RCond)
    requires BuiltinsStand(c.aliases) && ErasesCond(cond, r) && CondOk(GammaOf(c), cond)
    ensures ResolveCond(c, r) == Some(cond)
    decreases cond, 1
  {
    hide BuiltinsStand, GammaOf, ResolveExp, ExpOk, ErasesExp;
    match cond
    case BinCond(_, _, a, b) =>
      CompleteCond(c, a, r.lc);
      CompleteCond(c, b, r.rc);
    case Compar(_, _, a, b) =>
      CompleteExp(c, a, r.le);
      CompleteExp(c, b, r.re);
  }

  lemma {:induction false} CompleteStmt(c: Names, ret: TRef, level: nat, s: RStmt, t: Stmt)
    requires BuiltinsStand(c.aliases) && TypedAs(c, ret, level, s, t)
    ensures ResolveStmt(c, ret, level, s).stmt == Some(t)
    decreases t, 1
  {
    hide BuiltinsStand, GammaOf, Under, Lookup, LookupE, ExpOk, CallOk, CondOk, ResolveExp, ResolveCall, ResolveCond,
      ResolveInner, ResolveVarDef, ResolveVar, ErasesExp, ErasesExps, ErasesCond, ErasesBlock, StmtsOk,
      AllReturnValues, L.AllInLoops;
    match t
    case VarDef(x, tname, _, node) => VarDefIs(c, x, tname, node);
    case Assign(x, _, _, e) =>
      CompleteExp(c, e, s.e);
      VarIs(c, x);
    case If(cond, thn) =>
      CompleteCond(c, cond, s.c);
      CompleteInner(c, ret, level, s.thn, thn);
    case IfElse(cond, thn, els) =>
      CompleteCond(c, cond, s.c);
      CompleteInner(c, ret, level, s.thn, thn);
      CompleteInner(c, ret, level, s.els, els);
    case While(cond, body) =>
      CompleteCond(c, cond, s.c);
      CompleteInner(c, ret, level + 1, s.body, body);
    case Break =>
    case Continue =>
    case Return =>
    case ReturnValue(e) => CompleteExp(c, e, s.e);
    case CallStmt(sig, args) => CompleteCall(c, sig, args, s.args);
    case Block(body) => CompleteInner(c, ret, level, s.body, body);
    case Echo(e) => CompleteExp(c, e, s.e);
  }

  lemma {:induction false} CompleteInner(c: Names, ret: TRef, level: nat, b: seq<RStmt>, ss: seq<Stmt>)
    requires BuiltinsStand(c.aliases) && ErasesBlock(ss, b) && StmtsOk(Push(GammaOf(c)), Under(c.aliases, ret), ss)
    requires L.AllInLoops(ss, level > 0) && (ret == VOID || AllReturnValues(ss))
    ensures ResolveInner(c, ret, level, b) == Some(ss)
    decreases ss, 1
  {
    hide BuiltinsStand, GammaOf, Under, Push, StmtsOk, ErasesBlock, L.AllInLoops, AllReturnValues, ResolveBlock;
    PushIs(c);
    CompleteBlock(c.(locals := c.locals + [[]]), ret, level, b, ss);
  }

  lemma {:induction false} CompleteBlock(c: Names, ret: TRef, level: nat, b: seq<RStmt>, ss: seq<Stmt>)
    requires BuiltinsStand(c.aliases) && BlockTypedAs(c, ret, level, b, ss)
    ensures ResolveBlock(c, ret, level, b).stmts == Some(ss)
    decreases ss, 0
  {
    hide BuiltinsStand, GammaOf, Under, StmtOk, After, ResolveStmt, ErasesStmt, L.InLoops, ReturnsValue;
    if ss != [] {
      CompleteStmt(c, ret, level, b[0], ss[0]);
      ResolvedStmt(c, ret, level, b[0]);
      var s := ResolveStmt(c, ret, level, b[0]);
      CompleteBlock(c.(locals := s.locals), ret, level, b[1..], ss[1..]);
      assert ss == [ss[0]] + ss[1..];
    }
  }

  /** Resolution accepts a block exactly if it can be typed, and annotates it in the one way in which it can. */
  lemma BlockIff(c: Names, ret: TRef, level: nat, b: seq<RStmt>, ss: seq<Stmt>)
    requires c.locals != [] && BuiltinsStand(c.aliases)
    ensures ResolveBlock(c, ret, level, b).stmts == Some(ss) <==> BlockTypedAs(c, ret, level, b, ss)
  {
    hide BuiltinsStand, ResolveBlock, BlockTypedAs;
    if ResolveBlock(c, ret, level, b).stmts.Some? {
      ResolvedBlock(c, ret, level, b);
    }
    if BlockTypedAs(c, ret, level, b, ss) {
      CompleteBlock(c, ret, level, b, ss);
    }
  }

  // Contexts whose types are all known

  predicate CleanKind(al: Aliases, k: Kind) {
    match k
    case KVar(t, _) => !Under(al, t).Err?
    case KParam(t, _) => !Under(al, t).Err?
    case KFunc(ps, ret) => !Under(al, ret).Err? && forall i :: 0 <= i < |ps| ==> !Under(al, ps[i]).Err?
    case KType => true
  }

  ghost predicate CleanTable(t: Table, al: Aliases) {
    && (forall x :: x in t ==> CleanKind(al, t[x]) && !Reserved(x))
    && (forall x :: x in t && t[x].KType? ==> !Under(al, TName(x)).Err?)
    && (forall x :: x in al ==> !Reserved(x))
  }

  predicate Known(e: Entity) {
    match e
    case EVar(t, _) => !t.Err?
    case EFunc(ps, ret) => !ret.Err? && forall i :: 0 <= i < |ps| ==> !ps[i].Err?
    case EType(t) => !t.Err?
  }

  predicate KnownEntries(es: seq<Entry>) {
    forall i :: 0 <= i < |es| ==> Known(es[i].ent)
  }

  /** No entity has the error type. */
  predicate NoErrors(g: Gamma) {
    && (forall x :: x in g.globals ==> Known(g.globals[x]))
    && forall i :: 0 <= i < |g.locals| ==> KnownEntries(g.locals[i])
  }

  lemma {:induction false} FindKnown(es: seq<Entry>, x: string)
    requires KnownEntries(es)
    ensures FindE(es, x).Some? ==> Known(FindE(es, x).value)
  {
    if es != [] && es[0].name != x {
      FindKnown(es[1..], x);
    } else if es != [] {
      assert Known(es[0].ent);
    }
  }

  lemma {:induction false} LookupKnown(g: Gamma, x: string)
    requires NoErrors(g)
    ensures LookupE(g, x).Some? ==> Known(LookupE(g, x).value)
    decreases |g.locals|
  {
    if g.locals != [] {
      var last := |g.locals| - 1;
      FindKnown(g.locals[last], x);
      LookupKnown(g.(locals := g.locals[..last]), x);
    }
  }

  lemma PushKnown(g: Gamma)
    requires NoErrors(g)
    ensures NoErrors(Push(g))
  {
  }

  lemma AfterKnown(g: Gamma, ret: Ty, s: Stmt)
    requires NoErrors(g) && g.locals != [] && StmtOk(g, ret, s)
    ensures NoErrors(After(g, s))
  {
    hide LookupE, ExpOk, CallOk, CondOk, StmtsOk;
    if s.VarDef? {
      LookupKnown(g, s.tname);
      var last := |g.locals| - 1;
      var g' := After(g, s);
      forall i | 0 <= i < |g'.locals| ensures KnownEntries(g'.locals[i]) {
        assert KnownEntries(g.locals[i]);
      }
    }
  }

  /** The context of the global scope has no error type if the table has none. */
  lemma GlobalsKnown(t: Table, al: Aliases)
    requires CleanTable(t, al)
    ensures NoErrors(Gamma(GlobalsOf(t, al), [])) && BuiltinsStand(al)
  {
    hide Under;
    forall x | x in al ensures ScalarTy(x).None? {
      assert !Reserved(x);
    }
    forall x | x in t ensures Known(EntityOf(al, x, t[x])) {
      assert CleanKind(al, t[x]);
    }
  }
}
