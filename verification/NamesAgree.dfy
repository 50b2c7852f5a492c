/** The two passes agree on names: analysis searches a chain of scopes, the code generator a stack of locals, by name
    alone; whatever the generator finds was made for the definition that analysis recorded in the tree. */
module NamesAgree {
  import opened Ast
  import opened Raw
  import opened Sem
  import opened Acceptance
  import opened SemAnalysis
  import opened ScopeDiscipline
  import opened Pipeline
  import C = Codegen
  import Shape

  /** For each temporary that holds the address of a cell, the definition that the cell was made for. */
  type Made = map<nat, Definition>

  function DefinitionOf(k: Kind): Option<Definition> {
    match k
    case KVar(_, node) => Some(VarDefinition(node))
    case KParam(_, node) => Some(ParamDefinition(node))
    case _ => None
  }

  /** The definitions of the global variables. */
  function GlobalDefinitions(table: Table): map<string, Definition> {
    map x | x in table && DefinitionOf(table[x]).Some? :: DefinitionOf(table[x]).value
  }

  // What it means for the generator to find the definition that analysis found

  /** At an occurrence of `x` that was resolved to `def`: a local is found exactly if `def` is not global, and it is
      the local made for `def`; otherwise `x` names the global `def`. */
  predicate Reaches(globals: map<string, Definition>, ls: seq<C.Local>, made: Made, x: string, def: Definition) {
    && (C.FindLocal(ls, x).None? <==> def in globals.Values)
    && match C.FindLocal(ls, x)
       case Some(l) => l.slot in made && made[l.slot] == def
       case None => x in globals && globals[x] == def
  }

  predicate ExpReaches(globals: map<string, Definition>, ls: seq<C.Local>, made: Made, e: Exp)
    decreases e, 0
  {
    match e
    case IntLit(_, _) => true
    case CharLit(_) => true
    case Var(x, _, def) => Reaches(globals, ls, made, x, def)
    case Unary(_, a, _) => ExpReaches(globals, ls, made, a)
    case Binary(_, l, r, _) => ExpReaches(globals, ls, made, l) && ExpReaches(globals, ls, made, r)
    case Cast(a, _, _) => ExpReaches(globals, ls, made, a)
    case Conditional(c, a, b, _) =>
      CondReaches(globals, ls, made, c) && ExpReaches(globals, ls, made, a) && ExpReaches(globals, ls, made, b)
    case Call(_, args) => ExpsReach(globals, ls, made, args)
  }

  predicate ExpsReach(globals: map<string, Definition>, ls: seq<C.Local>, made: Made, es: seq<Exp>)
    decreases es, 0
  {
    es == [] || (ExpReaches(globals, ls, made, es[0]) && ExpsReach(globals, ls, made, es[1..]))
  }

  predicate CondReaches(globals: map<string, Definition>, ls: seq<C.Local>, made: Made, c: Cond)
    decreases c, 0
  {
    match c
    case BinCond(_, _, l, r) => CondReaches(globals, ls, made, l) && CondReaches(globals, ls, made, r)
    case Compar(_, _, l, r) => ExpReaches(globals, ls, made, l) && ExpReaches(globals, ls, made, r)
  }

  /** The cells made after a statement of a block. */
  function MadeBy(s: Stmt, c: C.Ctr, made: Made): Made {
    if s.VarDef? then made[c.loc := VarDefinition(s.node)] else made
  }

  /** Every variable that is compiled for the statement reaches its definition, `ls` and `c` being the stack and the
      counters with which the generator comes to it. */
  predicate StmtReaches(globals: map<string, Definition>, ret: Ty, el: nat, kl: nat, ls: seq<C.Local>, c: C.Ctr,
                        made: Made, s: Stmt)
    decreases s, 0
  {
    match s
    case VarDef(_, _, _, _) => true
    case Assign(x, _, def, e) => Reaches(globals, ls, made, x, def) && ExpReaches(globals, ls, made, e)
    case If(cond, t) =>
      var gc := C.GenCond(ls, c.(lab := c.lab + 2), cond, c.lab, c.lab + 1);
      CondReaches(globals, ls, made, cond) && BlockReaches(globals, ret, el, kl, ls, gc.c, made, t)
    case IfElse(cond, t, e) =>
      var gc := C.GenCond(ls, c.(lab := c.lab + 2), cond, c.lab, c.lab + 1);
      var gt := C.GenBlock(ret, el, kl, ls, gc.c, t);
      && CondReaches(globals, ls, made, cond) && BlockReaches(globals, ret, el, kl, ls, gc.c, made, t)
      && BlockReaches(globals, ret, el, kl, ls,
                      if Exits(t) && Exits(e) then gt.c else gt.c.(lab := gt.c.lab + 1), made, e)
    case While(cond, body) =>
      var g1 := C.GenCond(ls, c.(lab := c.lab + 3), cond, c.lab + 1, c.lab);
      && CondReaches(globals, ls, made, cond)
      && BlockReaches(globals, ret, c.lab, c.lab + 2, ls, g1.c, made, body)
    case ReturnValue(e) => ExpReaches(globals, ls, made, e)
    case CallStmt(_, args) => ExpsReach(globals, ls, made, args)
    case Block(b) => BlockReaches(globals, ret, el, kl, ls, c, made, b)
    case Echo(e) => ExpReaches(globals, ls, made, e)
    case _ => true
  }

  /** The statements of a block, up to the last one that is compiled. */
  predicate BlockReaches(globals: map<string, Definition>, ret: Ty, el: nat, kl: nat, ls: seq<C.Local>, c: C.Ctr,
                         made: Made, ss: seq<Stmt>)
    decreases ss, 0
  {
    ss == [] ||
    var g := C.GenStmt(ret, el, kl, ls, c, ss[0]);
    && StmtReaches(globals, ret, el, kl, ls, c, made, ss[0])
    && (g.stop || BlockReaches(globals, ret, el, kl, g.ls, g.c, MadeBy(ss[0], c, made), ss[1..]))
  }

  function MadeForParams(ps: seq<Param>): Made {
    map i: nat | i < |ps| :: ParamDefinition(ps[i].node)
  }

  /** The same for a function, whose parameters get the first cells. */
  predicate FuncReaches(globals: map<string, Definition>, ps: seq<Param>, f: Func, el: nat, kl: nat) {
    && |f.params| == |f.sig.params| == |ps|
    && BlockReaches(globals, f.sig.ret, el, kl, C.ParamLocals(f.params, f.sig.params, |ps|), C.Ctr(|ps|, 0),
                    MadeForParams(ps), f.body)
  }

  // The chain of scopes and the stack of locals

  /** All symbols of the chain, in order of declaration. */
  function Flat(locals: seq<Scope>): Scope {
    if locals == [] then [] else Flat(locals[..|locals| - 1]) + locals[|locals| - 1]
  }

  /** The stack has one local for each symbol of the chain, made for the definition of the symbol. */
  predicate Agree(locals: seq<Scope>, ls: seq<C.Local>, made: Made) {
    |Flat(locals)| == |ls| && forall i :: 0 <= i < |ls| ==> Stands(Flat(locals)[i], ls[i], made)
  }

  predicate Stands(s: Symbol, l: C.Local, made: Made) {
    l.name == s.name && l.slot in made && DefinitionOf(s.kind) == Some(made[l.slot])
  }

  function LastAt(s: Scope, x: string): Option<nat> {
    if s == [] then None
    else if s[|s| - 1].name == x then Some(|s| - 1)
    else LastAt(s[..|s| - 1], x)
  }

  lemma {:induction false} LastAtIs(s: Scope, x: string)
    ensures match LastAt(s, x)
            case Some(i) => i < |s| && s[i].name == x
            case None => forall i :: 0 <= i < |s| ==> s[i].name != x
  {
    if s != [] && s[|s| - 1].name != x {
      LastAtIs(s[..|s| - 1], x);
    }
  }

  lemma {:induction false} LastAtCat(a: Scope, b: Scope, x: string)
    ensures LastAt(a + b, x) == match LastAt(b, x)
                                case Some(i) => Some(|a| + i)
                                case None => LastAt(a, x)
    decreases |b|
  {
    if b == [] {
      assert a + b == a;
    } else {
      assert (a + b)[..|a + b| - 1] == a + b[..|b| - 1];
      LastAtCat(a, b[..|b| - 1], x);
    }
  }

  lemma {:induction false} FindAt(s: Scope, x: string, i: nat)
    requires ScopeOk(s) && i < |s| && s[i].name == x
    ensures Find(s, x) == Some(s[i].kind)
  {
    if i > 0 {
      assert s[0].name != s[i].name;
      assert ScopeOk(s[1..]);
      FindAt(s[1..], x, i - 1);
    }
  }

  lemma {:induction false} LookupIsLast(c: Names, x: string)
    requires ScopesOk(c.locals)
    ensures Lookup(c, x) == match LastAt(Flat(c.locals), x)
                            case Some(i) => if i < |Flat(c.locals)| then Some(Flat(c.locals)[i].kind) else None
                            case None => Lookup(c.(locals := []), x)
    decreases |c.locals|
  {
    hide ScopeOk, LastAt;
    if c.locals == [] {
      assert LastAt([], x).None? by { LastAtIs([], x); }
    } else {
      var n := |c.locals| - 1;
      var s, before := c.locals[n], c.locals[..n];
      LookupIsLast(c.(locals := before), x);
      LastAtCat(Flat(before), s, x);
      LastAtIs(s, x);
      LastAtIs(Flat(before), x);
      FindInScope(s, x);
      if LastAt(s, x).Some? {
        FindAt(s, x, LastAt(s, x).value);
      }
    }
  }

  lemma {:induction false} FindLocalIsLast(s: Scope, ls: seq<C.Local>, x: string)
    requires |s| == |ls| && forall i :: 0 <= i < |ls| ==> ls[i].name == s[i].name
    ensures C.FindLocal(ls, x) == match LastAt(s, x)
                                  case Some(i) => if i < |ls| then Some(ls[i]) else None
                                  case None => None
  {
    if s != [] && s[|s| - 1].name != x {
      FindLocalIsLast(s[..|s| - 1], ls[..|ls| - 1], x);
      LastAtIs(s[..|s| - 1], x);
    }
  }

  /** Where chain and stack agree, a variable reaches the definition that analysis finds for it. */
  lemma VariableAgrees(c: Names, ls: seq<C.Local>, ctr: C.Ctr, made: Made, x: string)
    requires InStep(c, ls, ctr, made) && ResolveVar(c, x).Some?
    ensures Reaches(GlobalDefinitions(c.table), ls, made, x, ResolveVar(c, x).value.def)
  {
    hide ScopesOk, LastAt, C.FindLocal;
    var flat := Flat(c.locals);
    LookupIsLast(c, x);
    FindLocalIsLast(flat, ls, x);
    LastAtIs(flat, x);
    var def := ResolveVar(c, x).value.def;
    assert DefinitionOf(Lookup(c, x).value) == Some(def);
    match LastAt(flat, x)
    case Some(i) => assert Stands(flat[i], ls[i], made);
    case None =>
      var globals := GlobalDefinitions(c.table);
      assert x in globals && globals[x] == def;
  }

  /** What holds whenever the generator comes to a statement: agreement, and no cell made yet for what is to come, nor
      for a global variable. */
  ghost predicate InStep(c: Names, ls: seq<C.Local>, ctr: C.Ctr, made: Made) {
    && ScopesOk(c.locals) && Agree(c.locals, ls, made)
    && forall k :: k in made ==> k < ctr.loc && made[k] !in GlobalDefinitions(c.table).Values
  }

  lemma InStepLater(c: Names, ls: seq<C.Local>, ctr: C.Ctr, ctr': C.Ctr, made: Made)
    requires InStep(c, ls, ctr, made) && ctr.loc <= ctr'.loc
    ensures InStep(c, ls, ctr', made)
  {
  }

  /** A block starts with an empty scope and the stack as it is, which it leaves as it was. */
  lemma BlockStartsAgreed(c: Names, ls: seq<C.Local>, ctr: C.Ctr, made: Made)
    requires InStep(c, ls, ctr, made)
    ensures InStep(c.(locals := c.locals + [[]]), ls, ctr, made)
  {
    EmptyScopeOk();
    assert (c.locals + [[]])[..|c.locals|] == c.locals;
  }

  /** A body starts with its parameters in both. */
  lemma FunctionStartsAgreed(table: Table, al: Aliases, ps: seq<Param>, ts: seq<TRef>, tys: seq<Ty>)
    requires |tys| == |ps| && DistinctParams(ps)
    requires forall i :: 0 <= i < |ps| ==> ParamDefinition(ps[i].node) !in GlobalDefinitions(table).Values
    ensures InStep(Names(table, al, [ParamScope(ps, ts)]), C.ParamLocals(ParamNames(ps), tys, |ps|),
                   C.Ctr(|ps|, 0), MadeForParams(ps))
  {
    hide ScopeOk, DistinctParams;
    var s := ParamScope(ps, ts);
    ParamScopeIs(ps, ts);
    assert [s][..0] == [];
    assert Flat([s]) == [] + s;
    var ls, made := C.ParamLocals(ParamNames(ps), tys, |ps|), MadeForParams(ps);
    forall i | 0 <= i < |ls| ensures Stands(Flat([s])[i], ls[i], made) {
    }
  }

  // The walk over a body

  lemma {:induction false} ExpAgrees(c: Names, ls: seq<C.Local>, ctr: C.Ctr, made: Made, e: RExp)
    requires InStep(c, ls, ctr, made) && ResolveExp(c, e).Some?
    ensures ExpReaches(GlobalDefinitions(c.table), ls, made, ResolveExp(c, e).value)
    decreases e, 1
  {
    hide InStep, Reaches, GlobalDefinitions, Under, Lookup;
    match e
    case RInt(_) =>
    case RChar(_) =>
    case RVar(x) => VariableAgrees(c, ls, ctr, made, x);
    case RUnary(_, a) => ExpAgrees(c, ls, ctr, made, a);
    case RBinary(_, a, b) =>
      ExpAgrees(c, ls, ctr, made, a);
      ExpAgrees(c, ls, ctr, made, b);
    case RCast(a, _) => ExpAgrees(c, ls, ctr, made, a);
    case RConditional(cond, a, b) =>
      CondAgrees(c, ls, ctr, made, cond);
      ExpAgrees(c, ls, ctr, made, a);
      ExpAgrees(c, ls, ctr, made, b);
    case RCall(f, args) => CallAgrees(c, ls, ctr, made, f, args);
  }

  lemma {:induction false} CallAgrees(c: Names, ls: seq<C.Local>, ctr: C.Ctr, made: Made, f: string, args: seq<RExp>)
    requires InStep(c, ls, ctr, made) && ResolveCall(c, f, args).Some?
    ensures ExpsReach(GlobalDefinitions(c.table), ls, made, ResolveCall(c, f, args).value.1)
    decreases args, 1
  {
    hide InStep, GlobalDefinitions, Lookup;
    ArgsAgree(c, ls, ctr, made, args, Unders(c.aliases, Lookup(c, f).value.params));
  }

  lemma {:induction false} ArgsAgree(c: Names, ls: seq<C.Local>, ctr: C.Ctr, made: Made, args: seq<RExp>, ts: seq<Ty>)
    requires |args| == |ts| && InStep(c, ls, ctr, made) && ResolveArgs(c, args, ts).Some?
    ensures ExpsReach(GlobalDefinitions(c.table), ls, made, ResolveArgs(c, args, ts).value)
    decreases args, 0
  {
    hide InStep, GlobalDefinitions;
    if args != [] {
      ExpAgrees(c, ls, ctr, made, args[0]);
      ArgsAgree(c, ls, ctr, made, args[1..], ts[1..]);
      var first, rest := ResolveExp(c, args[0]).value, ResolveArgs(c, args[1..], ts[1..]).value;
      assert ([first] + rest)[1..] == rest;
    }
  }

  lemma {:induction false} CondAgrees(c: Names, ls: seq<C.Local>, ctr: C.Ctr, made: Made, cond: RCond)
    requires InStep(c, ls, ctr, made) && ResolveCond(c, cond).Some?
    ensures CondReaches(GlobalDefinitions(c.table), ls, made, ResolveCond(c, cond).value)
    decreases cond, 1
  {
    hide InStep, GlobalDefinitions;
    match cond
    case RBinCond(_, _, l, r) =>
      CondAgrees(c, ls, ctr, made, l);
      CondAgrees(c, ls, ctr, made, r);
    case RCompar(_, _, l, r) =>
      ExpAgrees(c, ls, ctr, made, l);
      ExpAgrees(c, ls, ctr, made, r);
  }

  /** The nodes of the variables that a block defines. */
  function NodesOf(b: seq<RStmt>): set<Node>
    decreases b, 0
  {
    if b == [] then {} else StmtNodes(b[0]) + NodesOf(b[1..])
  }

  function StmtNodes(s: RStmt): set<Node>
    decreases s, 0
  {
    match s
    case RVarDef(_, _, node) => {node}
    case RIf(_, t) => NodesOf(t)
    case RIfElse(_, t, e) => NodesOf(t) + NodesOf(e)
    case RWhile(_, b) => NodesOf(b)
    case RBlock(b) => NodesOf(b)
    case _ => {}
  }

  /** None of the nodes is the definition of a global variable. */
  ghost predicate Apart(table: Table, nodes: set<Node>) {
    forall n :: n in nodes ==> VarDefinition(n) !in GlobalDefinitions(table).Values
  }

  /** A statement that does not define a variable leaves chain and stack as they are; a definition adds to both. */
  lemma StatementKeepsAgreement(c: Names, ret: TRef, level: nat, s: RStmt, ty: Ty, el: nat, kl: nat,
                                ls: seq<C.Local>, ctr: C.Ctr, made: Made)
    requires c.locals != [] && InStep(c, ls, ctr, made) && ResolveStmt(c, ret, level, s).stmt.Some?
    requires Apart(c.table, StmtNodes(s))
    ensures var r := ResolveStmt(c, ret, level, s);
            var g := C.GenStmt(ty, el, kl, ls, ctr, r.stmt.value);
            InStep(c.(locals := r.locals), g.ls, g.c, MadeBy(r.stmt.value, ctr, made))
  {
    hide C.GenStmt, ResolveStmt, InStep, Shape.Defs, Shape.Count;
    var r := ResolveStmt(c, ret, level, s);
    if s.RVarDef? {
      DefinitionKeepsAgreement(c, ret, level, s, ty, el, kl, ls, ctr, made);
    } else {
      StmtKeeps(c, ret, level, s, ty, el, kl, ls, ctr);
      Shape.FreshStmt(ty, el, kl, ls, ctr, r.stmt.value, 0);
      InStepLater(c, ls, ctr, C.GenStmt(ty, el, kl, ls, ctr, r.stmt.value).c, made);
    }
  }

  lemma StmtKeeps(c: Names, ret: TRef, level: nat, s: RStmt, ty: Ty, el: nat, kl: nat, ls: seq<C.Local>, ctr: C.Ctr)
    requires c.locals != [] && !s.RVarDef? && ResolveStmt(c, ret, level, s).stmt.Some?
    ensures var r := ResolveStmt(c, ret, level, s);
            r.locals == c.locals && !r.stmt.value.VarDef? && C.GenStmt(ty, el, kl, ls, ctr, r.stmt.value).ls == ls
  {
    hide C.GenExp, C.GenCond, C.GenBlock, C.GenCall, Exits, ResolveExp, ResolveCond, ResolveCall, ResolveInner,
      FindType;
  }

  lemma DefinitionKeepsAgreement(c: Names, ret: TRef, level: nat, s: RStmt, ty: Ty, el: nat, kl: nat,
                                 ls: seq<C.Local>, ctr: C.Ctr, made: Made)
    requires s.RVarDef? && c.locals != [] && InStep(c, ls, ctr, made)
    requires ResolveStmt(c, ret, level, s).stmt.Some? && Apart(c.table, StmtNodes(s))
    ensures var r := ResolveStmt(c, ret, level, s);
            var g := C.GenStmt(ty, el, kl, ls, ctr, r.stmt.value);
            InStep(c.(locals := r.locals), g.ls, g.c, MadeBy(r.stmt.value, ctr, made))
  {
    hide ScopesOk, FindType, Under, Reserved, Find;
    var last := |c.locals| - 1;
    var r := ResolveVarDef(c, s.x, s.tname, s.node);
    var sym := Symbol(s.x, KVar(TypeOr(FindType(c, s.tname)), s.node));
    VarDefKeepsScopes(c, s.x, s.tname, s.node);
    assert r.locals[..last] == c.locals[..last];
    assert Flat(r.locals) == Flat(c.locals) + [sym];
    var g := C.GenStmt(ty, el, kl, ls, ctr, r.stmt.value);
    var made' := MadeBy(r.stmt.value, ctr, made);
    forall i | 0 <= i < |g.ls| ensures Stands(Flat(r.locals)[i], g.ls[i], made') {
      if i < |ls| {
        assert Stands(Flat(c.locals)[i], ls[i], made);
      }
    }
    assert s.node in StmtNodes(s);
  }

  lemma {:induction false} StmtAgrees(c: Names, ret: TRef, level: nat, s: RStmt, ty: Ty, el: nat, kl: nat,
                                      ls: seq<C.Local>, ctr: C.Ctr, made: Made)
    requires c.locals != [] && InStep(c, ls, ctr, made) && ResolveStmt(c, ret, level, s).stmt.Some?
    requires Apart(c.table, StmtNodes(s))
    ensures StmtReaches(GlobalDefinitions(c.table), ty, el, kl, ls, ctr, made,
                        ResolveStmt(c, ret, level, s).stmt.value)
    decreases s, 1
  {
    hide InStep, Reaches, GlobalDefinitions, Under, Lookup, C.GenCond, C.GenBlock, BlockReaches, CondReaches,
      ExpReaches, ExpsReach, ResolveExp, ResolveCond, ResolveCall, ResolveBlock, Exits, Apart, NodesOf;
    match s
    case RVarDef(_, _, _) =>
    case RIf(cond, t) =>
      CondAgrees(c, ls, ctr, made, cond);
      InnerAgrees(c, ret, level, t, ty, el, kl, ls, ctr, CondCtr(ls, ctr, 2, 0, 1, ResolveCond(c, cond).value), made);
    case RIfElse(cond, t, e) => BothAgree(c, ret, level, s, ty, el, kl, ls, ctr, made);
    case RWhile(cond, b) =>
      CondAgrees(c, ls, ctr, made, cond);
      var g1 := CondCtr(ls, ctr, 3, 1, 0, ResolveCond(c, cond).value);
      InnerAgrees(c, ret, level + 1, b, ty, ctr.lab, ctr.lab + 2, ls, ctr, g1, made);
    case RAssign(x, e) =>
      ExpAgrees(c, ls, ctr, made, e);
      VariableAgrees(c, ls, ctr, made, x);
    case RReturnValue(e) => ExpAgrees(c, ls, ctr, made, e);
    case RCallStmt(f, args) => CallAgrees(c, ls, ctr, made, f, args);
    case RBlock(b) => InnerAgrees(c, ret, level, b, ty, el, kl, ls, ctr, ctr, made);
    case REcho(e) => ExpAgrees(c, ls, ctr, made, e);
    case _ =>
  }

  /** The counters after a condition that has taken `n` labels and branches to two of them. */
  function CondCtr(ls: seq<C.Local>, ctr: C.Ctr, n: nat, tl: nat, fl: nat, cond: Cond): (r: C.Ctr)
    ensures ctr.loc <= r.loc
  {
    Shape.FreshCond(ls, ctr.(lab := ctr.lab + n), cond, ctr.lab + tl, ctr.lab + fl, 0);
    C.GenCond(ls, ctr.(lab := ctr.lab + n), cond, ctr.lab + tl, ctr.lab + fl).c
  }

  lemma {:induction false} BothAgree(c: Names, ret: TRef, level: nat, s: RStmt, ty: Ty, el: nat, kl: nat,
                                     ls: seq<C.Local>, ctr: C.Ctr, made: Made)
    requires s.RIfElse? && c.locals != [] && InStep(c, ls, ctr, made) && ResolveStmt(c, ret, level, s).stmt.Some?
    requires Apart(c.table, NodesOf(s.thn) + NodesOf(s.els))
    ensures StmtReaches(GlobalDefinitions(c.table), ty, el, kl, ls, ctr, made,
                        ResolveStmt(c, ret, level, s).stmt.value)
    decreases s, 0
  {
    hide InStep, Reaches, GlobalDefinitions, C.GenCond, C.GenBlock, BlockReaches, CondReaches, ResolveCond,
      ResolveBlock, Exits, NodesOf;
    CondAgrees(c, ls, ctr, made, s.c);
    var gc := CondCtr(ls, ctr, 2, 0, 1, ResolveCond(c, s.c).value);
    InnerAgrees(c, ret, level, s.thn, ty, el, kl, ls, ctr, gc, made);
    var t, e := ResolveInner(c, ret, level, s.thn).value, ResolveInner(c, ret, level, s.els).value;
    var gt := C.GenBlock(ty, el, kl, ls, gc, t);
    Shape.FreshBlock(ty, el, kl, ls, gc, t, 0);
    InnerAgrees(c, ret, level, s.els, ty, el, kl, ls, ctr,
                if Exits(t) && Exits(e) then gt.c else gt.c.(lab := gt.c.lab + 1), made);
  }

  /** A block inside the statement that the counters `ctr` were for. */
  lemma {:induction false} InnerAgrees(c: Names, ret: TRef, level: nat, b: seq<RStmt>, ty: Ty, el: nat, kl: nat,
                                       ls: seq<C.Local>, ctr: C.Ctr, ctr': C.Ctr, made: Made)
    requires InStep(c, ls, ctr, made) && ctr.loc <= ctr'.loc && ResolveInner(c, ret, level, b).Some?
    requires Apart(c.table, NodesOf(b))
    ensures BlockReaches(GlobalDefinitions(c.table), ty, el, kl, ls, ctr', made,
                         ResolveInner(c, ret, level, b).value)
    decreases b, 1
  {
    hide InStep, BlockReaches, GlobalDefinitions, ResolveBlock, Apart;
    InStepLater(c, ls, ctr, ctr', made);
    BlockStartsAgreed(c, ls, ctr', made);
    BlockAgrees(c.(locals := c.locals + [[]]), ret, level, b, ty, el, kl, ls, ctr', made);
  }

  lemma {:induction false} BlockAgrees(c: Names, ret: TRef, level: nat, b: seq<RStmt>, ty: Ty, el: nat, kl: nat,
                                       ls: seq<C.Local>, ctr: C.Ctr, made: Made)
    requires c.locals != [] && InStep(c, ls, ctr, made) && ResolveBlock(c, ret, level, b).stmts.Some?
    requires Apart(c.table, NodesOf(b))
    ensures BlockReaches(GlobalDefinitions(c.table), ty, el, kl, ls, ctr, made,
                         ResolveBlock(c, ret, level, b).stmts.value)
    decreases b, 0
  {
    hide InStep, GlobalDefinitions, StmtReaches, ResolveStmt, C.GenStmt, MadeBy, StmtNodes;
    if b != [] {
      StmtAgrees(c, ret, level, b[0], ty, el, kl, ls, ctr, made);
      StatementKeepsAgreement(c, ret, level, b[0], ty, el, kl, ls, ctr, made);
      var s := ResolveStmt(c, ret, level, b[0]);
      var g := C.GenStmt(ty, el, kl, ls, ctr, s.stmt.value);
      var c' := c.(locals := s.locals);
      BlockAgrees(c', ret, level, b[1..], ty, el, kl, g.ls, g.c, MadeBy(s.stmt.value, ctr, made));
      var rest := ResolveBlock(c', ret, level, b[1..]).stmts.value;
      assert ([s.stmt.value] + rest)[1..] == rest;
    }
  }

  // The whole program

  /** The nodes of the variables that a definition defines. */
  function DefNodes(d: Def): set<Node> {
    match d
    case TypeDef(_, _) => {}
    case FuncDef(_, _, _, body) => if body.Some? then NodesOf(body.value) else {}
    case GlobalDef(_, _, node) => {node}
  }

  /** Nodes are addresses: two definitions have no node in common. */
  predicate NodesApart(ds: seq<Def>) {
    forall i, j :: 0 <= i < j < |ds| ==> DefNodes(ds[i]) !! DefNodes(ds[j])
  }

  /** The global variables are those that the program defines, under their own names. */
  lemma GlobalsAre(ds: seq<Def>, a: Analysis, x: string, def: Definition)
    requires Analyse(ds) == Some(a)
    ensures x in GlobalDefinitions(a.table) && GlobalDefinitions(a.table)[x] == def
            <==> exists d :: d in ds && d.GlobalDef? && d.name == x && VarDefinition(d.node) == def
  {
    hide Analyse, Declared, DeclaredTable;
    AcceptedIff(ds);
    if x in a.table {
      var d := EntryOfTable(ds, x);
    }
    if d :| d in ds && d.GlobalDef? && d.name == x && VarDefinition(d.node) == def {
      TableHas(ds, d);
    }
  }

  lemma BodyApart(ds: seq<Def>, a: Analysis, d: Def)
    requires Analyse(ds) == Some(a) && NodesApart(ds) && d in ds && d.FuncDef? && d.body.Some?
    ensures Apart(a.table, NodesOf(d.body.value))
    ensures forall n :: ParamDefinition(n) !in GlobalDefinitions(a.table).Values
  {
    hide Analyse, NodesOf, GlobalDefinitions;
    var globals := GlobalDefinitions(a.table);
    forall def | def in globals.Values ensures def.VarDefinition? && def.node !in NodesOf(d.body.value) {
      var x :| x in globals && globals[x] == def;
      GlobalsAre(ds, a, x, def);
      var g :| g in ds && g.GlobalDef? && g.name == x && VarDefinition(g.node) == def;
      var i :| 0 <= i < |ds| && ds[i] == d;
      var j :| 0 <= j < |ds| && ds[j] == g;
      assert DefNodes(ds[i]) !! DefNodes(ds[j]);
      assert g.node in DefNodes(g) && DefNodes(d) == NodesOf(d.body.value);
    }
  }

  /** In every function of an accepted program, every variable that is compiled is found where it was defined: the
      generator finds a local exactly if the definition is not global, and that local is the one made for it. */
  lemma NamesReachDefinitions(ds: seq<Def>, a: Analysis, d: Def, el: nat, kl: nat)
    requires Analyse(ds) == Some(a) && NodesApart(ds) && d in ds && d.FuncDef? && d.body.Some?
    ensures d.name in a.program
    ensures FuncReaches(GlobalDefinitions(a.table), d.params, a.program[d.name], el, kl)
  {
    hide Analyse, NodesOf, GlobalDefinitions, Apart, BlockReaches, InStep, DistinctParams, ResolveBlock, RExits,
      NodesApart, Unders, DeclaredTable, DeclaredAliases, HeaderOk, NamesOk;
    AcceptedIff(ds);
    AcceptedScopes(ds);
    assert ParamsDistinct(d);
    BodyApart(ds, a, d);
    BodyResolves(ds, d);
    NamesKey(ds);
    BodiesAt(a.table, a.aliases, ds, d.name);
    var f := Body(a.table, a.aliases, d).value;
    var decl := DeclOf(d);
    var tys := Unders(a.aliases, decl.params);
    FunctionStartsAgreed(a.table, a.aliases, d.params, decl.params, tys);
    BlockAgrees(Names(a.table, a.aliases, [ParamScope(d.params, decl.params)]), decl.ret, 0, d.body.value,
                f.sig.ret, el, kl, C.ParamLocals(f.params, f.sig.params, |d.params|), C.Ctr(|d.params|, 0),
                MadeForParams(d.params));
  }
}
